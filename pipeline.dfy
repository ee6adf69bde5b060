/*
 * From the splitter to the rebuild: the index written by `split_nalu` is read
 * back as `rebuild` reads it, and a stream without "I" pictures comes out of
 * the rebuild as it went in.
 */
module Pipeline {
  import opened Results
  import opened NalHeader
  import opened Fieldnames
  import opened Records
  import opened Splitter
  import opened Rebuild

  /** Why a line of the index cannot be used: `int()` rejects the size, or a column is missing. */
  datatype IndexError = BadSize(cell: string) | MissingColumn(name: string)

  /** The keys of each entry's dictionary, row by row. */
  function RowKeys(entries: seq<NaluEntry>): (items: seq<seq<string>>)
    ensures |items| == |entries|
  {
    seq(|entries|, i requires 0 <= i < |entries| => Keys(EntryRow(entries[i])))
  }

  /** The header line of the index file: `get_fieldnames` over the entries' dictionaries. */
  function Columns(entries: seq<NaluEntry>): (columns: seq<string>)
  {
    Dedup(Flatten(RowKeys(entries)))
  }

  /** The dictionaries written to the index, one line per entry. */
  function Lines(entries: seq<NaluEntry>): (lines: seq<Dict>)
    ensures |lines| == |entries|
  {
    seq(|entries|, i requires 0 <= i < |entries| => EntryRow(entries[i]))
  }

  /** The text read back under column `c` of a line: its value's cell, or "" under a key the line did not have. */
  function ReadCell(line: Dict, c: string): string
  {
    match Lookup(line, c)
    case Some(f) => Cell(f)
    case None => ""
  }

  /** One line of the index as `rebuild` takes it: `int(nalu["size"])` first, then `nalu["pict_type"]`. */
  function ReadRow(columns: seq<string>, line: Dict): (r: Result<IndexRow, IndexError>)
    ensures r.Ok? <==> "size" in columns && "pict_type" in columns && ParseInt(ReadCell(line, "size")).Some?
    ensures r.Ok? ==> r.value.size == ParseInt(ReadCell(line, "size")).value && r.value.pictType == ReadCell(line, "pict_type")
    ensures "size" !in columns ==> r == Err(MissingColumn("size"))
  {
    if "size" !in columns then Err(MissingColumn("size"))
    else match ParseInt(ReadCell(line, "size"))
      case None => Err(BadSize(ReadCell(line, "size")))
      case Some(n) =>
        if "pict_type" !in columns then Err(MissingColumn("pict_type"))
        else Ok(IndexRow(n, ReadCell(line, "pict_type")))
  }

  /** The lines of the index, in order; the first line that cannot be used stops the rebuild. */
  function ReadRows(columns: seq<string>, lines: seq<Dict>): (r: Result<seq<IndexRow>, IndexError>)
    decreases |lines|
  {
    if lines == [] then Ok([])
    else match ReadRows(columns, lines[..|lines| - 1])
      case Err(e) => Err(e)
      case Ok(rows) =>
        match ReadRow(columns, lines[|lines| - 1])
        case Err(e) => Err(e)
        case Ok(row) => Ok(rows + [row])
  }

  /** What the rebuild writes for the index of `entries` over the source it was made from. */
  function RebuildFromIndex(entries: seq<NaluEntry>, source: seq<byte>): Result<seq<byte>, IndexError>
  {
    match ReadRows(Columns(entries), Lines(entries))
    case Err(e) => Err(e)
    case Ok(rows) => Ok(Rebuilt(rows, source))
  }

  /** A probe record as ffprobe gives it: each key once, and no `size` key to shadow the unit's own. */
  predicate WellFormedRecord(r: Dict)
  {
    DistinctKeys(r) && "size" !in Keys(r)
  }

  /** The entries' probe records, where they have one, are well formed. */
  predicate WellFormedFrames(entries: seq<NaluEntry>)
  {
    forall i :: 0 <= i < |entries| && entries[i].frame.Some? ==> WellFormedRecord(entries[i].frame.value)
  }

  /** A key is a column exactly when some entry's dictionary has it. */
  lemma ColumnsAreKeys(entries: seq<NaluEntry>, k: string)
    ensures k in Columns(entries) <==> exists i :: 0 <= i < |entries| && k in Keys(EntryRow(entries[i]))
  {
    var items := RowKeys(entries);
    FlattenMembership(items, k);
    if k in Columns(entries) {
      var i :| 0 <= i < |items| && k in items[i];
      assert k in Keys(EntryRow(entries[i]));
    }
    if exists i :: 0 <= i < |entries| && k in Keys(EntryRow(entries[i])) {
      var i :| 0 <= i < |entries| && k in Keys(EntryRow(entries[i]));
      assert k in items[i];
    }
  }

  /** The size column reads back as the unit's size. */
  lemma SizeReadsBack(e: NaluEntry)
    requires e.frame.Some? ==> WellFormedRecord(e.frame.value)
    ensures "size" in Keys(EntryRow(e))
    ensures ParseInt(ReadCell(EntryRow(e), "size")) == Some(e.size)
  {
    EntryRowFields(e, "size");
    LookupAt(StructuralRow(e), 3);
    LookupPresent(EntryRow(e), "size");
  }

  /** The structural columns do not include `pict_type`: only a probe record brings one. */
  lemma NoStructuralPictType(e: NaluEntry)
    ensures Lookup(StructuralRow(e), "pict_type") == None
  {
    LookupPresent(StructuralRow(e), "pict_type");
    assert Keys(StructuralRow(e)) == StructuralKeys;
  }

  /** An entry's dictionary has a `pict_type` key exactly when its probe record has one. */
  lemma PictTypeKey(e: NaluEntry)
    requires e.frame.Some? ==> WellFormedRecord(e.frame.value)
    ensures "pict_type" in Keys(EntryRow(e)) <==> e.frame.Some? && "pict_type" in Keys(e.frame.value)
  {
    EntryRowFields(e, "pict_type");
  }

  /**
   * The picture type column reads back as the probe record's `pict_type`, and
   * as "" on an entry whose record has none; only a record that says "I" makes it "I".
   */
  lemma PictTypeReadsBack(e: NaluEntry)
    requires e.frame.Some? ==> WellFormedRecord(e.frame.value)
    ensures ReadCell(EntryRow(e), "pict_type") == "I" ==> e.frame.Some? && Lookup(e.frame.value, "pict_type") == Some(Text("I"))
  {
    var o := if e.frame.Some? then e.frame.value else [];
    UpdateLookup(StructuralRow(e), o, "pict_type");
    NoStructuralPictType(e);
    match Lookup(EntryRow(e), "pict_type")
    case Some(f) =>
      if f.Num? {
        NumberIsNotPictType(f.n);
      }
    case None =>
  }

  /**
   * When every size cell is an integer and both columns are there, every line
   * reads back: one row per line, with its size and its picture type.
   */
  lemma {:induction false} ReadRowsOk(columns: seq<string>, lines: seq<Dict>)
    requires forall i :: 0 <= i < |lines| ==> ParseInt(ReadCell(lines[i], "size")).Some?
    requires "size" in columns && "pict_type" in columns
    ensures ReadRows(columns, lines).Ok?
    ensures var rows := ReadRows(columns, lines).value;
      |rows| == |lines| &&
      forall i :: 0 <= i < |rows| ==>
        rows[i] == IndexRow(ParseInt(ReadCell(lines[i], "size")).value, ReadCell(lines[i], "pict_type"))
    decreases |lines|
  {
    if lines != [] {
      var n := |lines| - 1;
      var init := lines[..n];
      assert forall i :: 0 <= i < n ==> init[i] == lines[i];
      ReadRowsOk(columns, init);
      var prev := ReadRows(columns, init).value;
      var row := IndexRow(ParseInt(ReadCell(lines[n], "size")).value, ReadCell(lines[n], "pict_type"));
      assert ReadRow(columns, lines[n]) == Ok(row);
      var rows := ReadRows(columns, lines).value;
      assert rows == prev + [row];
      forall i | 0 <= i < |rows|
        ensures rows[i] == IndexRow(ParseInt(ReadCell(lines[i], "size")).value, ReadCell(lines[i], "pict_type"))
      {
        if i < n {
          assert rows[i] == prev[i] && init[i] == lines[i];
        }
      }
    }
  }

  /** The index of a successful scan has a `size` column, and a `pict_type` column once some record has one. */
  lemma ScanColumns(entries: seq<NaluEntry>)
    requires entries != [] && WellFormedFrames(entries)
    ensures "size" in Columns(entries)
    ensures "pict_type" in Columns(entries) <==>
      exists i :: 0 <= i < |entries| && entries[i].frame.Some? && "pict_type" in Keys(entries[i].frame.value)
  {
    SizeReadsBack(entries[0]);
    ColumnsAreKeys(entries, "size");
    ColumnsAreKeys(entries, "pict_type");
    forall i | 0 <= i < |entries|
      ensures "pict_type" in Keys(EntryRow(entries[i])) <==>
        entries[i].frame.Some? && "pict_type" in Keys(entries[i].frame.value)
    {
      PictTypeKey(entries[i]);
    }
  }

  /** A line that cannot be used stops the rebuild with its error, whatever the lines after it hold. */
  lemma {:induction false} ReadRowsStops(columns: seq<string>, lines: seq<Dict>, k: nat)
    requires k < |lines| && ReadRows(columns, lines[..k]).Ok? && ReadRow(columns, lines[k]).Err?
    ensures ReadRows(columns, lines) == Err(ReadRow(columns, lines[k]).error)
    decreases |lines|
  {
    var n := |lines| - 1;
    if k < n {
      var init := lines[..n];
      assert init[..k] == lines[..k] && init[k] == lines[k];
      ReadRowsStops(columns, init, k);
    } else {
      assert lines[..n] == lines[..k];
    }
  }

  /**
   * Without any `pict_type` in the probe records the index has no such
   * column, and the rebuild stops at the first line.
   */
  lemma MissingPictType(entries: seq<NaluEntry>, source: seq<byte>)
    requires entries != [] && WellFormedFrames(entries)
    requires forall i :: 0 <= i < |entries| && entries[i].frame.Some? ==> "pict_type" !in Keys(entries[i].frame.value)
    ensures RebuildFromIndex(entries, source) == Err(MissingColumn("pict_type"))
  {
    ScanColumns(entries);
    SizeReadsBack(entries[0]);
    var lines := Lines(entries);
    assert lines[..0] == [];
    ReadRowsStops(Columns(entries), lines, 0);
  }

  /** The sizes of rows read from the first k tiling entries add up to where entry k - 1 ends. */
  lemma {:induction false} SizeSumOfTiles(entries: seq<NaluEntry>, rows: seq<IndexRow>, length: int, k: nat)
    requires Tiles(entries, length) && |rows| == |entries|
    requires forall i :: 0 <= i < |rows| ==> rows[i].size == entries[i].size
    requires 0 < k <= |rows|
    ensures SizeSum(rows[..k]) == entries[k - 1].offsetEnd
    decreases k
  {
    var p := rows[..k];
    assert p[..k - 1] == rows[..k - 1];
    if k > 1 {
      SizeSumOfTiles(entries, rows, length, k - 1);
    } else {
      assert p[..0] == [];
    }
  }

  /**
   * Without "I" pictures among the probe records and with a `pict_type`
   * column, every line of the index reads back as a row with the entry's size
   * and a picture type other than "I".
   */
  lemma IndexReadsBack(entries: seq<NaluEntry>)
    requires entries != [] && WellFormedFrames(entries)
    requires forall i :: 0 <= i < |entries| && entries[i].frame.Some? ==>
      Lookup(entries[i].frame.value, "pict_type") != Some(Text("I"))
    requires "pict_type" in Columns(entries)
    ensures ReadRows(Columns(entries), Lines(entries)).Ok?
    ensures var rows := ReadRows(Columns(entries), Lines(entries)).value;
      |rows| == |entries| &&
      forall i :: 0 <= i < |rows| ==> rows[i].size == entries[i].size && rows[i].pictType != "I"
  {
    ScanColumns(entries);
    var lines := Lines(entries);
    forall i | 0 <= i < |lines|
      ensures ParseInt(ReadCell(lines[i], "size")) == Some(entries[i].size)
      ensures ReadCell(lines[i], "pict_type") != "I"
    {
      SizeReadsBack(entries[i]);
      PictTypeReadsBack(entries[i]);
    }
    ReadRowsOk(Columns(entries), lines);
  }

  /**
   * An index that tiles the stream plus the offset after it, without "I"
   * pictures and with a `pict_type` column, rebuilds the stream unchanged.
   */
  lemma TiledIndexRoundTrip(entries: seq<NaluEntry>, data: seq<byte>)
    requires Tiles(entries, |data| + 1) && WellFormedFrames(entries)
    requires forall i :: 0 <= i < |entries| && entries[i].frame.Some? ==>
      Lookup(entries[i].frame.value, "pict_type") != Some(Text("I"))
    requires "pict_type" in Columns(entries)
    ensures RebuildFromIndex(entries, data) == Ok(data)
  {
    IndexReadsBack(entries);
    var rows := ReadRows(Columns(entries), Lines(entries)).value;
    SizeSumOfTiles(entries, rows, |data| + 1, |rows|);
    assert rows[..|rows|] == rows;
    assert AtMostOneI(rows);
    ReproducesSource(rows, data);
  }

  /**
   * The whole round trip: when no probe record is an "I" picture, the stream
   * rebuilt from the index of a successful scan is the stream itself.
   */
  lemma NoIFramesRoundTrip(data: seq<byte>, probe: seq<Dict>)
    requires Scan(data, probe).Ok?
    requires forall j :: 0 <= j < |probe| ==> WellFormedRecord(probe[j]) && Lookup(probe[j], "pict_type") != Some(Text("I"))
    requires "pict_type" in Columns(Scan(data, probe).value)
    ensures RebuildFromIndex(Scan(data, probe).value, data) == Ok(data)
  {
    var entries := Scan(data, probe).value;
    ScanUnits(data, probe);
    ScanProbeRecords(data, probe);
    TiledIndexRoundTrip(entries, data);
  }
}
