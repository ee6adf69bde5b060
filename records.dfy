/**
 * The index rows as the splitter builds them: Python dictionaries, whose keys
 * keep their insertion order, holding integers and strings, and the text each
 * value becomes in a table cell.
 */
module Records {

  import opened Results
  import opened Fieldnames

  /** A value held in a row: the structural fields are integers or strings, and so are the probe's. */
  datatype Field = Num(n: int) | Text(s: string)

  /** An insertion-ordered dictionary, as (key, value) pairs. */
  type Dict = seq<(string, Field)>

  function Keys(d: Dict): (ks: seq<string>)
  {
    seq(|d|, i requires 0 <= i < |d| => d[i].0)
  }

  predicate DistinctKeys(d: Dict)
  {
    NoDuplicates(Keys(d))
  }

  /** `d.get(k)`. */
  function Lookup(d: Dict, k: string): (r: Option<Field>)
  {
    if d == [] then None else if d[0].0 == k then Some(d[0].1) else Lookup(d[1..], k)
  }

  lemma {:induction false} LookupPresent(d: Dict, k: string)
    ensures Lookup(d, k).Some? <==> k in Keys(d)
  {
    if d != [] {
      LookupPresent(d[1..], k);
      assert Keys(d) == [d[0].0] + Keys(d[1..]);
    }
  }

  /** The value of a key is the one paired with its first occurrence. */
  lemma {:induction false} LookupAt(d: Dict, p: nat)
    requires p < |d| && forall i :: 0 <= i < p ==> d[i].0 != d[p].0
    ensures Lookup(d, d[p].0) == Some(d[p].1)
  {
    if p > 0 {
      LookupAt(d[1..], p - 1);
    }
  }

  /** `d[k] = v`: a key already present keeps its position, a new key goes last. */
  function Put(d: Dict, k: string, v: Field): (r: Dict)
    ensures Lookup(r, k) == Some(v)
    ensures |d| <= |r| <= |d| + 1
  {
    if d == [] then [(k, v)]
    else if d[0].0 == k then [(k, v)] + d[1..]
    else [d[0]] + Put(d[1..], k, v)
  }

  lemma {:induction false} PutKeys(d: Dict, k: string, v: Field)
    ensures Keys(Put(d, k, v)) == if k in Keys(d) then Keys(d) else Keys(d) + [k]
  {
    if d != [] {
      assert Keys(d) == [d[0].0] + Keys(d[1..]);
      if d[0].0 != k {
        PutKeys(d[1..], k, v);
        assert Keys(Put(d, k, v)) == [d[0].0] + Keys(Put(d[1..], k, v));
      } else {
        assert Keys(Put(d, k, v)) == [k] + Keys(d[1..]);
      }
    }
  }

  lemma {:induction false} PutLookup(d: Dict, k: string, v: Field, k': string)
    ensures Lookup(Put(d, k, v), k') == if k' == k then Some(v) else Lookup(d, k')
  {
    if d != [] && d[0].0 != k {
      PutLookup(d[1..], k, v, k');
    }
  }

  /** `d.update(o)`: the pairs of `o` are put into `d` one after the other. */
  function Update(d: Dict, o: Dict): (r: Dict)
    ensures |d| <= |r| <= |d| + |o|
    decreases |o|
  {
    if o == [] then d else Update(Put(d, o[0].0, o[0].1), o[1..])
  }

  /** On a dictionary without repeated keys, `d[k] = v` extends the keys as a union does. */
  lemma PutKeysUnion(d: Dict, k: string, v: Field)
    requires DistinctKeys(d)
    ensures Keys(Put(d, k, v)) == Dedup(Keys(d) + [k])
  {
    PutKeys(d, k, v);
    DedupOfDistinct(Keys(d));
    DedupSnoc(Keys(d), k);
  }

  /** After `d.update(o)` the keys are those of `d` then the new keys of `o`, in first-seen order. */
  lemma {:induction false} UpdateKeys(d: Dict, o: Dict)
    requires DistinctKeys(d)
    ensures Keys(Update(d, o)) == Dedup(Keys(d) + Keys(o))
    decreases |o|
  {
    if o == [] {
      assert Keys(d) + Keys(o) == Keys(d);
      DedupOfDistinct(Keys(d));
    } else {
      var k := o[0].0;
      var d' := Put(d, k, o[0].1);
      PutKeysUnion(d, k, o[0].1);
      assert DistinctKeys(d');
      UpdateKeys(d', o[1..]);
      assert Update(d, o) == Update(d', o[1..]);
      DedupAbsorb(Keys(d) + [k], Keys(o[1..]));
      KeysOfFirstPair(d, o);
    }
  }

  /** The keys of `d` then those of `o`, split after the first pair of `o`. */
  lemma KeysOfFirstPair(d: Dict, o: Dict)
    requires o != []
    ensures Keys(d) + [o[0].0] + Keys(o[1..]) == Keys(d) + Keys(o)
  {
    assert Keys(o) == [o[0].0] + Keys(o[1..]);
  }

  /** After `d.update(o)` a key of `o` has its value from `o`, any other key its value from `d`. */
  lemma {:induction false} UpdateLookup(d: Dict, o: Dict, k: string)
    requires DistinctKeys(o)
    ensures Lookup(Update(d, o), k) == if k in Keys(o) then Lookup(o, k) else Lookup(d, k)
    decreases |o|
  {
    if o != [] {
      var (k0, v0) := o[0];
      assert Keys(o) == [k0] + Keys(o[1..]);
      assert DistinctKeys(o[1..]) by {
        forall i, j | 0 <= i < j < |Keys(o[1..])| ensures Keys(o[1..])[i] != Keys(o[1..])[j] {
          assert Keys(o[1..])[i] == Keys(o)[i + 1] && Keys(o[1..])[j] == Keys(o)[j + 1];
        }
      }
      UpdateLookup(Put(d, k0, v0), o[1..], k);
      PutLookup(d, k0, v0, k);
      LookupPresent(o[1..], k);
      if k == k0 {
        assert k !in Keys(o[1..]) by {
          forall j | 0 <= j < |o[1..]| ensures Keys(o[1..])[j] != k {
            assert Keys(o[1..])[j] == Keys(o)[j + 1];
            assert Keys(o)[0] == k;
            assert Keys(o)[0] != Keys(o)[j + 1];
          }
        }
      }
    }
  }

  /** One decimal digit. */
  function DigitChar(d: int): char
    requires 0 <= d < 10
  {
    ('0' as int + d) as char
  }

  predicate IsDigit(c: char)
  {
    '0' <= c <= '9'
  }

  /** `str(n)` for a non-negative integer. */
  function DecimalNat(n: nat): (s: string)
    ensures |s| > 0 && forall i :: 0 <= i < |s| ==> IsDigit(s[i])
  {
    if n < 10 then [DigitChar(n)] else DecimalNat(n / 10) + [DigitChar(n % 10)]
  }

  /** `str(n)`. */
  function Decimal(n: int): (s: string)
  {
    if n < 0 then "-" + DecimalNat(-n) else DecimalNat(n)
  }

  /** The value of a non-empty string of decimal digits. */
  function ParseNat(s: string): (r: Option<nat>)
    decreases |s|
  {
    if s == [] || !IsDigit(s[|s| - 1]) then None
    else
      var d := s[|s| - 1] as int - '0' as int;
      if |s| == 1 then Some(d)
      else match ParseNat(s[..|s| - 1])
        case None => None
        case Some(v) => Some(10 * v + d)
  }

  /** `int(s)` on an optional minus sign followed by decimal digits. */
  function ParseInt(s: string): (r: Option<int>)
  {
    if |s| > 0 && s[0] == '-' then
      match ParseNat(s[1..])
      case None => None
      case Some(v) => Some(-(v as int))
    else
      match ParseNat(s)
      case None => None
      case Some(v) => Some(v)
  }

  lemma {:induction false} DecimalNatRoundTrip(n: nat)
    ensures ParseNat(DecimalNat(n)) == Some(n)
  {
    if n >= 10 {
      DecimalNatRoundTrip(n / 10);
      var s := DecimalNat(n);
      assert s[..|s| - 1] == DecimalNat(n / 10);
    }
  }

  /** An integer written to a cell reads back as the same integer. */
  lemma DecimalRoundTrip(n: int)
    ensures ParseInt(Decimal(n)) == Some(n)
  {
    if n < 0 {
      DecimalNatRoundTrip(-n);
      assert Decimal(n)[1..] == DecimalNat(-n);
    } else {
      DecimalNatRoundTrip(n);
    }
  }

  /** The text a value becomes in its table cell (`str(value)`). */
  function Cell(f: Field): (s: string)
    ensures f.Num? ==> ParseInt(s) == Some(f.n)
    ensures f.Text? ==> s == f.s
  {
    match f
    case Num(n) => DecimalRoundTrip(n); Decimal(n)
    case Text(s) => s
  }

  /** No integer is written as the picture-type label "I". */
  lemma NumberIsNotPictType(n: int)
    ensures Cell(Num(n)) != "I"
  {
    if n >= 0 {
      assert IsDigit(DecimalNat(n)[0]);
    }
  }
}
