/*
 * The selection loop of `rebuild`: the source stream is read back one index
 * row at a time, in chunks of the row's `size`, and every chunk is written
 * out except those of the picture rows of type "I" after the first one.
 */
module Rebuild {
  import opened NalHeader

  /** One row of the index as `rebuild` reads it: the chunk length and the picture type ("" on rows without one). */
  datatype IndexRow = IndexRow(size: int, pictType: string)

  function Min(a: int, b: int): int
  {
    if a < b then a else b
  }

  /**
   * `infile.read(n)` at position `pos`: up to `n` bytes, fewer when the end
   * comes first; a negative count reads everything that is left.
   */
  function ReadChunk(source: seq<byte>, pos: nat, n: int): (chunk: seq<byte>)
    requires pos <= |source|
    ensures pos + |chunk| <= |source| && chunk == source[pos..pos + |chunk|]
    ensures n >= 0 ==> |chunk| == Min(n, |source| - pos)
    ensures n < 0 ==> pos + |chunk| == |source|
  {
    if n < 0 || pos + n > |source| then source[pos..] else source[pos..pos + n]
  }

  /** The source file opened for reading: its bytes and the read position. */
  class SourceFile {
    const bytes: seq<byte>
    var pos: nat

    ghost predicate Valid()
      reads this
    {
      pos <= |bytes|
    }

    constructor (bytes: seq<byte>)
      ensures this.bytes == bytes && pos == 0 && Valid()
    {
      this.bytes := bytes;
      pos := 0;
    }

    /** `read(n)`: the next chunk, and the position moves past it. */
    method Read(n: int) returns (chunk: seq<byte>)
      requires Valid()
      modifies this
      ensures Valid()
      ensures chunk == ReadChunk(bytes, old(pos), n) && pos == old(pos) + |chunk|
    {
      chunk := ReadChunk(bytes, pos, n);
      pos := pos + |chunk|;
    }
  }

  /** Where the read position is after the chunks of all the rows. */
  function Cursor(index: seq<IndexRow>, source: seq<byte>): (pos: nat)
    ensures pos <= |source|
    decreases |index|
  {
    if index == [] then 0
    else
      var p := Cursor(index[..|index| - 1], source);
      p + |ReadChunk(source, p, index[|index| - 1].size)|
  }

  /** The chunk read for row i: its size from where the earlier rows left the cursor. */
  function Chunk(index: seq<IndexRow>, source: seq<byte>, i: nat): seq<byte>
    requires i < |index|
  {
    ReadChunk(source, Cursor(index[..i], source), index[i].size)
  }

  /** No row before row i is an "I" picture: the `first` flag is still set when row i is read. */
  predicate NoIBefore(index: seq<IndexRow>, i: nat)
    requires i <= |index|
  {
    forall j :: 0 <= j < i ==> index[j].pictType != "I"
  }

  /** Row i is written out: it is not an "I" picture, or it is the first one. */
  predicate Kept(index: seq<IndexRow>, i: nat)
    requires i < |index|
  {
    index[i].pictType != "I" || NoIBefore(index, i)
  }

  /** The output stream: the chunks of the kept rows, in order. */
  function Rebuilt(index: seq<IndexRow>, source: seq<byte>): (out: seq<byte>)
    ensures |out| <= Cursor(index, source)
    decreases |index|
  {
    if index == [] then []
    else
      var n := |index| - 1;
      Rebuilt(index[..n], source) + (if Kept(index, n) then Chunk(index, source, n) else [])
  }

  /** Every chunk read, kept or not, in order. */
  function AllChunks(index: seq<IndexRow>, source: seq<byte>): seq<byte>
    decreases |index|
  {
    if index == [] then [] else AllChunks(index[..|index| - 1], source) + Chunk(index, source, |index| - 1)
  }

  /** The total of the row sizes. */
  function SizeSum(index: seq<IndexRow>): int
    decreases |index|
  {
    if index == [] then 0 else SizeSum(index[..|index| - 1]) + index[|index| - 1].size
  }

  /** Row i of a longer index is read, and selected, as it is in the prefix that ends with it. */
  lemma PrefixStep(index: seq<IndexRow>, source: seq<byte>, i: nat)
    requires i < |index|
    ensures Cursor(index[..i + 1], source) == Cursor(index[..i], source) + |Chunk(index, source, i)|
    ensures Rebuilt(index[..i + 1], source) ==
      Rebuilt(index[..i], source) + (if Kept(index, i) then Chunk(index, source, i) else [])
    ensures AllChunks(index[..i + 1], source) == AllChunks(index[..i], source) + Chunk(index, source, i)
    ensures NoIBefore(index, i + 1) == (NoIBefore(index, i) && index[i].pictType != "I")
  {
    var p := index[..i + 1];
    PrefixRow(index, source, i);
    assert Rebuilt(p, source) == Rebuilt(p[..i], source) + (if Kept(p, i) then Chunk(p, source, i) else []);
    assert AllChunks(p, source) == AllChunks(p[..i], source) + Chunk(p, source, i);
  }

  /** Row i is the last row of the prefix that ends with it, read and selected as in the whole index. */
  lemma PrefixRow(index: seq<IndexRow>, source: seq<byte>, i: nat)
    requires i < |index|
    ensures var p := index[..i + 1];
      p[..i] == index[..i] && |p| - 1 == i &&
      Kept(p, i) == Kept(index, i) && Chunk(p, source, i) == Chunk(index, source, i)
  {
    var p := index[..i + 1];
    assert p[..i] == index[..i] && p[i] == index[i];
    assert NoIBefore(p, i) == NoIBefore(index, i);
  }

  /**
   * `rebuild`'s loop: read each row's chunk, and write it unless it is an
   * "I" picture after the first one.
   */
  method Rebuild(index: seq<IndexRow>, source: seq<byte>) returns (output: seq<byte>)
    ensures output == Rebuilt(index, source)
  {
    var first := true;
    var infile := new SourceFile(source);
    output := [];
    for i := 0 to |index|
      invariant infile.bytes == source && infile.Valid()
      invariant infile.pos == Cursor(index[..i], source)
      invariant first == NoIBefore(index, i)
      invariant output == Rebuilt(index[..i], source)
    {
      var nalu := index[i];
      var data := infile.Read(nalu.size);
      PrefixStep(index, source, i);
      if nalu.pictType == "I" {
        if first {
          first := false;
        } else {
          continue;
        }
      }
      output := output + data;
    }
    assert index[..|index|] == index;
  }

  /** With sizes that are never negative, the cursor is the total size, stopped at the end of the source. */
  lemma {:induction false} CursorIsSizeSum(index: seq<IndexRow>, source: seq<byte>)
    requires forall i :: 0 <= i < |index| ==> index[i].size >= 0
    ensures SizeSum(index) >= 0
    ensures Cursor(index, source) == Min(SizeSum(index), |source|)
    decreases |index|
  {
    if index != [] {
      CursorIsSizeSum(index[..|index| - 1], source);
    }
  }

  /** Every chunk is read from where the previous one ended: together they are the source up to the cursor. */
  lemma {:induction false} AllChunksArePrefix(index: seq<IndexRow>, source: seq<byte>)
    ensures AllChunks(index, source) == source[..Cursor(index, source)]
    decreases |index|
  {
    if index != [] {
      var n := |index| - 1;
      AllChunksArePrefix(index[..n], source);
      var p := Cursor(index[..n], source);
      var c := Chunk(index, source, n);
      assert Cursor(index, source) == p + |c|;
      PrefixExtends(source, p, c);
    }
  }

  /** A prefix of the source followed by the bytes that come next in it is a longer prefix. */
  lemma PrefixExtends(source: seq<byte>, p: nat, c: seq<byte>)
    requires p + |c| <= |source| && c == source[p..p + |c|]
    ensures source[..p] + c == source[..p + |c|]
  {
    assert forall k :: 0 <= k < p + |c| ==> (source[..p] + c)[k] == source[k];
  }

  /** An "I" row after an earlier one is dropped, and every other row is kept. */
  lemma DropsLaterI(index: seq<IndexRow>, i: nat, j: nat)
    requires i < j < |index| && index[i].pictType == "I"
    ensures Kept(index, j) <==> index[j].pictType != "I"
  {
  }

  /** When there is an "I" row, the first of them is written out. */
  lemma {:induction false} FirstIKept(index: seq<IndexRow>, i: nat)
    requires i < |index| && index[i].pictType == "I"
    ensures exists j :: 0 <= j <= i && index[j].pictType == "I" && Kept(index, j)
  {
    if !NoIBefore(index, i) {
      var k :| 0 <= k < i && index[k].pictType == "I";
      FirstIKept(index, k);
    }
  }

  /** No "I" row comes after another one. */
  predicate AtMostOneI(index: seq<IndexRow>)
  {
    forall j :: 0 <= j < |index| && index[j].pictType == "I" ==> NoIBefore(index, j)
  }

  /** Over an index with at most one "I" row nothing is dropped: the output is every chunk. */
  lemma {:induction false} KeepsAllWithOneI(index: seq<IndexRow>, source: seq<byte>)
    requires AtMostOneI(index)
    ensures Rebuilt(index, source) == AllChunks(index, source)
    decreases |index|
  {
    if index != [] {
      var n := |index| - 1;
      var init := index[..n];
      forall j | 0 <= j < n && init[j].pictType == "I"
        ensures NoIBefore(init, j)
      {
        assert NoIBefore(index, j);
      }
      KeepsAllWithOneI(init, source);
      assert Kept(index, n);
    }
  }

  /**
   * Over an index with at most one "I" row whose sizes cover the source, the
   * output is the source itself.
   */
  lemma ReproducesSource(index: seq<IndexRow>, source: seq<byte>)
    requires AtMostOneI(index)
    requires forall i :: 0 <= i < |index| ==> index[i].size >= 0
    requires SizeSum(index) >= |source|
    ensures Rebuilt(index, source) == source
  {
    KeepsAllWithOneI(index, source);
    AllChunksArePrefix(index, source);
    CursorIsSizeSum(index, source);
    assert source[..|source|] == source;
  }

  /** The bytes of the dropped rows' chunks. */
  function Dropped(index: seq<IndexRow>, source: seq<byte>): nat
    decreases |index|
  {
    if index == [] then 0
    else
      var n := |index| - 1;
      Dropped(index[..n], source) + (if Kept(index, n) then 0 else |Chunk(index, source, n)|)
  }

  /** The output is shorter than the bytes read by just the dropped chunks. */
  lemma {:induction false} RebuiltLength(index: seq<IndexRow>, source: seq<byte>)
    ensures |Rebuilt(index, source)| + Dropped(index, source) == Cursor(index, source)
    decreases |index|
  {
    if index != [] {
      RebuiltLength(index[..|index| - 1], source);
    }
  }
}
