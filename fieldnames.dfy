/**
 * `get_fieldnames`: the column list of the index table, the ordered union of
 * the keys of every row, each key once, in the order it is first seen.
 */
module Fieldnames {

  predicate NoDuplicates(s: seq<string>)
  {
    forall i, j :: 0 <= i < j < |s| ==> s[i] != s[j]
  }

  /** Position of the first occurrence of `x` in `s`. */
  function FirstIndex(s: seq<string>, x: string): (p: nat)
    requires x in s
    ensures p < |s| && s[p] == x && x !in s[..p]
  {
    if s[0] == x then 0 else 1 + FirstIndex(s[1..], x)
  }

  lemma {:induction false} FirstIndexOfPrefix(s: seq<string>, y: string, x: string)
    requires x in s
    ensures FirstIndex(s + [y], x) == FirstIndex(s, x)
  {
    if s[0] != x {
      assert (s + [y])[1..] == s[1..] + [y];
      FirstIndexOfPrefix(s[1..], y, x);
    }
  }

  /** Keys of all rows, one row after the other. */
  function Flatten(items: seq<seq<string>>): (keys: seq<string>)
  {
    if items == [] then [] else Flatten(items[..|items| - 1]) + items[|items| - 1]
  }

  /** The keys of the first i + 1 rows are those of the first i rows, then row i's. */
  lemma FlattenStep(items: seq<seq<string>>, i: nat)
    requires i < |items|
    ensures Flatten(items[..i + 1]) == Flatten(items[..i]) + items[i]
  {
    assert items[..i + 1][..i] == items[..i];
  }

  lemma {:induction false} FlattenMembership(items: seq<seq<string>>, key: string)
    ensures key in Flatten(items) <==> exists i :: 0 <= i < |items| && key in items[i]
  {
    if items != [] {
      var init := items[..|items| - 1];
      FlattenMembership(init, key);
      if key in Flatten(items) && key !in items[|items| - 1] {
        var i :| 0 <= i < |init| && key in init[i];
        assert items[i] == init[i];
      }
      if exists i :: 0 <= i < |items| && key in items[i] {
        var i :| 0 <= i < |items| && key in items[i];
        if i < |items| - 1 {
          assert init[i] == items[i];
        }
      }
    }
  }

  /**
   * The keys of `s`, each once, in first-seen order: the value `get_fieldnames`
   * builds; a key is appended only when it is not yet in the list.
   */
  function Dedup(s: seq<string>): (r: seq<string>)
    ensures NoDuplicates(r)
    ensures forall x :: x in r <==> x in s
  {
    if s == [] then []
    else
      var init := s[..|s| - 1];
      var last := s[|s| - 1];
      var p := Dedup(init);
      assert s == init + [last];
      if last in p then p else p + [last]
  }

  /** The union lists the keys in the order of their first occurrence. */
  lemma {:induction false} DedupFirstSeen(s: seq<string>)
    ensures forall i, j :: 0 <= i < j < |Dedup(s)| ==> FirstIndex(s, Dedup(s)[i]) < FirstIndex(s, Dedup(s)[j])
  {
    if s != [] {
      var init := s[..|s| - 1];
      var last := s[|s| - 1];
      assert s == init + [last];
      DedupFirstSeen(init);
      DedupOrderStep(init, last, Dedup(init));
    }
  }

  /** Appending a key to the source keeps the first-seen order of the union. */
  lemma DedupOrderStep(init: seq<string>, last: string, p: seq<string>)
    requires forall x :: x in p <==> x in init
    requires forall i, j :: 0 <= i < j < |p| ==> FirstIndex(init, p[i]) < FirstIndex(init, p[j])
    ensures last in p ==> forall i, j :: 0 <= i < j < |p| ==>
      FirstIndex(init + [last], p[i]) < FirstIndex(init + [last], p[j])
    ensures last !in p ==> forall i, j :: 0 <= i < j < |p + [last]| ==>
      FirstIndex(init + [last], (p + [last])[i]) < FirstIndex(init + [last], (p + [last])[j])
  {
    forall x | x in init
      ensures FirstIndex(init + [last], x) == FirstIndex(init, x)
    {
      FirstIndexOfPrefix(init, last, x);
    }
    if last !in p {
      assert FirstIndex(init + [last], last) == |init|;
    }
  }

  /** Adding one key is the one-step unfolding of Dedup. */
  lemma DedupSnoc(s: seq<string>, x: string)
    ensures Dedup(s + [x]) == if x in Dedup(s) then Dedup(s) else Dedup(s) + [x]
  {
    assert (s + [x])[..|s + [x]| - 1] == s;
  }

  /** A list that already has no duplicates is its own union. */
  lemma {:induction false} DedupOfDistinct(s: seq<string>)
    requires NoDuplicates(s)
    ensures Dedup(s) == s
  {
    if s != [] {
      var init := s[..|s| - 1];
      assert s == init + [s[|s| - 1]];
      DedupOfDistinct(init);
    }
  }

  /** Taking the union of a prefix first changes nothing. */
  lemma {:induction false} DedupAbsorb(a: seq<string>, b: seq<string>)
    ensures Dedup(Dedup(a) + b) == Dedup(a + b)
    decreases |b|
  {
    if b == [] {
      assert Dedup(a) + b == Dedup(a) && a + b == a;
      DedupOfDistinct(Dedup(a));
    } else {
      var init := b[..|b| - 1];
      var x := b[|b| - 1];
      assert b == init + [x];
      DedupAbsorb(a, init);
      assert Dedup(a) + b == (Dedup(a) + init) + [x];
      assert a + b == (a + init) + [x];
      DedupSnoc(Dedup(a) + init, x);
      DedupSnoc(a + init, x);
    }
  }

  /** What the union of the row keys promises: every key, once, nothing else, first-seen order. */
  lemma UnionOfKeys(items: seq<seq<string>>)
    ensures NoDuplicates(Dedup(Flatten(items)))
    ensures forall i, key :: 0 <= i < |items| && key in items[i] ==> key in Dedup(Flatten(items))
    ensures forall key :: key in Dedup(Flatten(items)) ==> exists i :: 0 <= i < |items| && key in items[i]
    ensures forall i, j :: 0 <= i < j < |Dedup(Flatten(items))| ==>
      FirstIndex(Flatten(items), Dedup(Flatten(items))[i]) < FirstIndex(Flatten(items), Dedup(Flatten(items))[j])
  {
    var r := Dedup(Flatten(items));
    DedupFirstSeen(Flatten(items));
    forall key | key in r
      ensures exists i :: 0 <= i < |items| && key in items[i]
    {
      FlattenMembership(items, key);
    }
    forall i, key | 0 <= i < |items| && key in items[i]
      ensures key in r
    {
      FlattenMembership(items, key);
    }
  }

  /** The list built by get_fieldnames: the loop over rows and, inside, over each row's keys. */
  method GetFieldnames(items: seq<seq<string>>) returns (fieldnames: seq<string>)
    ensures fieldnames == Dedup(Flatten(items))
    ensures NoDuplicates(fieldnames)
    ensures forall i, key :: 0 <= i < |items| && key in items[i] ==> key in fieldnames
    ensures forall key :: key in fieldnames ==> exists i :: 0 <= i < |items| && key in items[i]
    ensures forall i, j :: 0 <= i < j < |fieldnames| ==>
      FirstIndex(Flatten(items), fieldnames[i]) < FirstIndex(Flatten(items), fieldnames[j])
  {
    fieldnames := [];
    for i := 0 to |items|
      invariant fieldnames == Dedup(Flatten(items[..i]))
    {
      var item := items[i];
      ghost var done := Flatten(items[..i]);
      assert done + item[..0] == done;
      for j := 0 to |item|
        invariant fieldnames == Dedup(done + item[..j])
      {
        var key := item[j];
        assert done + item[..j + 1] == (done + item[..j]) + [key];
        DedupSnoc(done + item[..j], key);
        if key !in fieldnames {
          fieldnames := fieldnames + [key];
        }
      }
      assert item[..|item|] == item;
      FlattenStep(items, i);
    }
    assert items[..|items|] == items;
    UnionOfKeys(items);
  }
}
