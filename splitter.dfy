/**
 * `split_nalu` and `create_nalu_entry`: the Annex B byte-stream splitter
 * (ITU-T H.264, section B.1). A sliding window of the last four bytes read is
 * matched against the start code prefix `00 00 01`, with or without a leading
 * `zero_byte`; every match closes the unit in progress and the next byte read
 * is the header of the unit that follows. Each unit becomes one index entry,
 * and every unit whose type is not 6, 7 or 8 takes the next probe record.
 */
module Splitter {

  import opened Results
  import opened NalHeader
  import opened Records
  import opened Fieldnames

  /** The three ways the splitter aborts. */
  datatype ScanError =
    | MissingHeader    // a unit is emitted while no header byte has been read (`None >> 7`)
    | EmptyHeaderRead  // the stream ends right after a start code (`next_byte[0]` on no bytes)
    | ProbeExhausted   // a unit whose type is not 6, 7 or 8 finds no probe record left (`probe_result[i]` out of range)

  // ---------------------------------------------------------------------------
  // The boundary rule

  /** The buffer at the top of the loop once `offset` bytes are read: the last min(4, offset) bytes. */
  function Window(data: seq<byte>, offset: nat): (w: seq<byte>)
    requires offset <= |data|
    ensures |w| == (if offset < 4 then offset else 4)
  {
    data[(if offset < 4 then 0 else offset - 4)..offset]
  }

  /** The three start-code tests, in the order they are tried; the result is where the unit in progress ends. */
  function StartCodeCut(buffer: seq<byte>, offset: int): (cut: Option<int>)
    ensures cut.Some? <==> (|buffer| == 3 && buffer == [0, 0, 1]) || (|buffer| == 4 && buffer[1..] == [0, 0, 1])
    ensures cut.Some? ==> cut.value == offset - (if |buffer| == 4 && buffer[0] == 0 then 4 else 3)
  {
    if |buffer| == 3 && buffer == [0, 0, 1] then Some(offset - 3)
    else if |buffer| == 4 && buffer == [0, 0, 0, 1] then Some(offset - 4)
    else if |buffer| == 4 && buffer[1..] == [0, 0, 1] then Some(offset - 3)
    else None
  }

  /** The start code prefix ends just before `offset`, and the unit in progress ends 3 or 4 bytes back. */
  function Boundary(data: seq<byte>, offset: nat): (cut: Option<int>)
    requires offset <= |data|
    ensures cut.Some? <==>
      (offset == 3 && data[0] == 0 && data[1] == 0 && data[2] == 1) ||
      (offset >= 4 && data[offset - 3] == 0 && data[offset - 2] == 0 && data[offset - 1] == 1)
    ensures cut.Some? && offset >= 4 && data[offset - 4] == 0 ==> cut.value == offset - 4
    ensures cut.Some? && (offset < 4 || data[offset - 4] != 0) ==> cut.value == offset - 3
  {
    var w := Window(data, offset);
    assert |w| == 3 ==> w[0] == data[0] && w[1] == data[1] && w[2] == data[2];
    assert |w| == 4 ==> w[0] == data[offset - 4] && w[1] == data[offset - 3] && w[2] == data[offset - 2] && w[3] == data[offset - 1];
    assert |w| == 3 ==> (w == [0, 0, 1] <==> w[0] == 0 && w[1] == 0 && w[2] == 1);
    assert |w| == 4 ==> (w == [0, 0, 0, 1] <==> w[0] == 0 && w[1] == 0 && w[2] == 0 && w[3] == 1);
    assert |w| == 4 ==> (w[1..] == [0, 0, 1] <==> w[1] == 0 && w[2] == 0 && w[3] == 1);
    StartCodeCut(w, offset)
  }

  /** A boundary is detected when the loop is at `offset`: the bytes just before it are a start code prefix. */
  predicate IsCut(data: seq<byte>, offset: nat)
  {
    offset <= |data| &&
    ((offset == 3 && data[0] == 0 && data[1] == 0 && data[2] == 1) ||
     (offset >= 4 && data[offset - 3] == 0 && data[offset - 2] == 0 && data[offset - 1] == 1))
  }

  /** Where the unit in progress ends at a boundary: before the prefix, and before its `zero_byte` if there is one. */
  function Cut(data: seq<byte>, offset: nat): (c: nat)
    requires IsCut(data, offset)
    ensures offset - 4 <= c <= offset - 3
  {
    if offset >= 4 && data[offset - 4] == 0 then offset - 4 else offset - 3
  }

  /** The window test finds exactly the boundaries, and cuts where `Cut` says. */
  lemma BoundaryIsCut(data: seq<byte>, offset: nat)
    requires offset <= |data|
    ensures Boundary(data, offset).Some? <==> IsCut(data, offset)
    ensures IsCut(data, offset) ==> Boundary(data, offset).value == Cut(data, offset)
  {
  }

  /** Two detections are never adjacent, so successive cut points strictly increase. */
  lemma CutsIncrease(data: seq<byte>, j: nat, k: nat)
    requires IsCut(data, j) && IsCut(data, k) && j < k
    ensures Cut(data, j) < Cut(data, k)
  {
  }

  /**
   * The offsets, below `k`, at which the loop detects a boundary: all of
   * them, in increasing order.
   */
  function Detections(data: seq<byte>, k: nat): (d: seq<nat>)
    requires k <= |data| + 1
    ensures forall i :: 0 <= i < |d| ==> d[i] < k && IsCut(data, d[i])
  {
    if k == 0 then [] else Detections(data, k - 1) + (if IsCut(data, k - 1) then [k - 1] else [])
  }

  /** The detections come in increasing order, so they are valid boundary offsets of the stream. */
  lemma {:induction false} DetectionsIncrease(data: seq<byte>, k: nat)
    requires k <= |data| + 1
    ensures ValidDetections(data, Detections(data, k))
  {
    if k > 0 {
      DetectionsIncrease(data, k - 1);
      var init := Detections(data, k - 1);
      var d := Detections(data, k);
      forall i | 0 <= i < |d| - 1
        ensures d[i] < |data| && Ascends(d, i)
      {
        assert d[i] == init[i];
        if i < |init| - 1 {
          assert Ascends(init, i) && d[i + 1] == init[i + 1];
        } else {
          assert d[i + 1] == k - 1;
        }
      }
    }
  }

  /** No boundary below `k` is missed. */
  lemma {:induction false} DetectionsComplete(data: seq<byte>, k: nat, j: nat)
    requires k <= |data| + 1 && j < k && IsCut(data, j)
    ensures j in Detections(data, k)
  {
    if j < k - 1 {
      DetectionsComplete(data, k - 1, j);
    }
  }

  lemma {:induction false} DetectionsPrefix(data: seq<byte>, k: nat, k': nat)
    requires k <= k' <= |data| + 1
    ensures |Detections(data, k)| <= |Detections(data, k')|
    ensures Detections(data, k')[..|Detections(data, k)|] == Detections(data, k)
    decreases k' - k
  {
    if k < k' {
      DetectionsPrefix(data, k, k' - 1);
      var d := Detections(data, k' - 1);
      assert Detections(data, k')[..|d|] == d;
    }
  }

  // ---------------------------------------------------------------------------
  // Units

  /** A unit's extent and its header byte. */
  datatype Span = Span(start: int, end: int, header: byte)

  /** Detection i comes before detection i + 1. */
  predicate Ascends(d: seq<nat>, i: nat)
    requires i + 1 < |d|
  {
    d[i] < d[i + 1]
  }

  /** Detection offsets of the stream, increasing, none beyond its end. */
  ghost predicate ValidDetections(data: seq<byte>, d: seq<nat>)
  {
    (forall i :: 0 <= i < |d| ==> IsCut(data, d[i])) &&
    (forall i :: 0 <= i < |d| - 1 ==> d[i] < |data|) &&
    (forall i :: 0 <= i < |d| - 1 ==> Ascends(d, i))
  }

  /**
   * The units closed by the detections `d`: unit i runs from the cut of
   * detection i to the cut of detection i + 1, and its header is the byte read
   * at detection i.
   */
  function ClosedSpans(data: seq<byte>, d: seq<nat>): (spans: seq<Span>)
    requires ValidDetections(data, d)
  {
    seq(if d == [] then 0 else |d| - 1,
      i requires 0 <= i < |d| - 1 => Span(Cut(data, d[i]), Cut(data, d[i + 1]), data[d[i]]))
  }

  lemma ClosedSpansPrefix(data: seq<byte>, d: seq<nat>, d': seq<nat>)
    requires ValidDetections(data, d') && d != [] && |d| <= |d'| && d'[..|d|] == d
    ensures ValidDetections(data, d)
    ensures |ClosedSpans(data, d)| <= |ClosedSpans(data, d')|
    ensures ClosedSpans(data, d')[..|ClosedSpans(data, d)|] == ClosedSpans(data, d)
  {
    assert forall i :: 0 <= i < |d| ==> d[i] == d'[i];
    forall i | 0 <= i < |d| - 1
      ensures Ascends(d, i)
    {
      assert Ascends(d', i);
    }
  }

  lemma ClosedSpansSnoc(data: seq<byte>, d: seq<nat>, k: nat)
    requires ValidDetections(data, d + [k]) && d != [] && d[|d| - 1] < k && IsCut(data, k)
    ensures ValidDetections(data, d)
    ensures ClosedSpans(data, d + [k]) ==
      ClosedSpans(data, d) + [Span(Cut(data, d[|d| - 1]), Cut(data, k), data[d[|d| - 1]])]
  {
    var d' := d + [k];
    assert forall i :: 0 <= i < |d| ==> d[i] == d'[i];
    forall i | 0 <= i < |d| - 1
      ensures Ascends(d, i)
    {
      assert Ascends(d', i);
    }
  }

  // ---------------------------------------------------------------------------
  // Index entries

  /** One row of the index, as `create_nalu_entry` builds it. */
  datatype NaluEntry = NaluEntry(
    id: nat,
    offsetStart: int,
    offsetEnd: int,
    size: int,
    header: byte,
    frame: Option<Dict>)

  /** The entry for one unit, given the probe cursor; a unit whose type is not 6, 7 or 8 takes the record at the cursor. */
  function EntryFor(unitId: nat, span: Span, probe: seq<Dict>, cursor: nat): (r: Result<NaluEntry, ScanError>)
    ensures r.Ok? <==> !TakesProbeRecord(span.header) || cursor < |probe|
    ensures r.Err? ==> r.error == ProbeExhausted
  {
    var size := span.end - span.start;
    if TakesProbeRecord(span.header) then
      if cursor < |probe| then Ok(NaluEntry(unitId, span.start, span.end, size, span.header, Some(probe[cursor])))
      else Err(ProbeExhausted)
    else Ok(NaluEntry(unitId, span.start, span.end, size, span.header, None))
  }

  /** How many probe records the entries have taken: one per unit whose type is not 6, 7 or 8. */
  function ProbeRecordsUsed(entries: seq<NaluEntry>): (n: nat)
    ensures n <= |entries|
  {
    if entries == [] then 0
    else ProbeRecordsUsed(entries[..|entries| - 1]) + (if TakesProbeRecord(entries[|entries| - 1].header) then 1 else 0)
  }

  /** How many of the spans take a probe record: those whose type is not 6, 7 or 8. */
  function ProbedUnits(spans: seq<Span>): (n: nat)
    ensures n <= |spans|
  {
    if spans == [] then 0
    else ProbedUnits(spans[..|spans| - 1]) + (if TakesProbeRecord(spans[|spans| - 1].header) then 1 else 0)
  }

  /** The entries for the spans, built one after the other with consecutive ids and an advancing probe cursor. */
  function BuildEntries(spans: seq<Span>, probe: seq<Dict>): (r: Result<seq<NaluEntry>, ScanError>)
    decreases |spans|
  {
    if spans == [] then Ok([])
    else match BuildEntries(spans[..|spans| - 1], probe)
      case Err(e) => Err(e)
      case Ok(built) =>
        match EntryFor(|built|, spans[|spans| - 1], probe, ProbeRecordsUsed(built))
        case Err(e) => Err(e)
        case Ok(entry) => Ok(built + [entry])
  }

  lemma BuildEntriesSnoc(spans: seq<Span>, span: Span, probe: seq<Dict>)
    ensures BuildEntries(spans, probe).Err? ==> BuildEntries(spans + [span], probe) == BuildEntries(spans, probe)
    ensures BuildEntries(spans, probe).Ok? ==>
      var built := BuildEntries(spans, probe).value;
      var e := EntryFor(|built|, span, probe, ProbeRecordsUsed(built));
      BuildEntries(spans + [span], probe) == if e.Ok? then Ok(built + [e.value]) else Err(e.error)
  {
    assert (spans + [span])[..|spans|] == spans;
  }

  /** A failure on some units is the failure of every longer run over the same start. */
  lemma {:induction false} BuildEntriesPrefixErr(spans: seq<Span>, spans': seq<Span>, probe: seq<Dict>)
    requires |spans| <= |spans'| && spans'[..|spans|] == spans
    requires BuildEntries(spans, probe).Err?
    ensures BuildEntries(spans', probe) == BuildEntries(spans, probe)
    decreases |spans'|
  {
    if |spans| < |spans'| {
      var init := spans'[..|spans'| - 1];
      assert init[..|spans|] == spans;
      BuildEntriesPrefixErr(spans, init, probe);
    } else {
      assert spans' == spans;
    }
  }

  /** There is one entry per span, and the probe records taken are one per unit whose type is not 6, 7 or 8, no more than there are. */
  lemma {:induction false} BuildEntriesCount(spans: seq<Span>, probe: seq<Dict>)
    requires BuildEntries(spans, probe).Ok?
    ensures var entries := BuildEntries(spans, probe).value;
      |entries| == |spans| && ProbeRecordsUsed(entries) == ProbedUnits(spans) <= |probe|
    decreases |spans|
  {
    if spans != [] {
      var init := spans[..|spans| - 1];
      BuildEntriesCount(init, probe);
      var built := BuildEntries(init, probe).value;
      var entries := BuildEntries(spans, probe).value;
      assert entries[..|entries| - 1] == built;
    }
  }

  /**
   * Entry i has id i, the extent and header of span i, and, when its type is
   * not 6, 7 or 8, the probe record at the count of earlier such units.
   */
  predicate EntryOfSpan(entries: seq<NaluEntry>, spans: seq<Span>, probe: seq<Dict>, i: nat)
    requires i < |entries| && i < |spans|
  {
    entries[i].id == i &&
    entries[i].offsetStart == spans[i].start &&
    entries[i].offsetEnd == spans[i].end &&
    entries[i].size == spans[i].end - spans[i].start &&
    entries[i].header == spans[i].header &&
    (entries[i].frame.Some? <==> TakesProbeRecord(spans[i].header)) &&
    (entries[i].frame.Some? ==>
      ProbeRecordsUsed(entries[..i]) < |probe| && entries[i].frame.value == probe[ProbeRecordsUsed(entries[..i])])
  }

  /** Every entry is built from its span as `create_nalu_entry` builds it. */
  lemma {:induction false} BuildEntriesShape(spans: seq<Span>, probe: seq<Dict>)
    requires BuildEntries(spans, probe).Ok?
    ensures var entries := BuildEntries(spans, probe).value;
      |entries| == |spans| &&
      ProbeRecordsUsed(entries) == ProbedUnits(spans) <= |probe| &&
      forall i :: 0 <= i < |entries| ==> EntryOfSpan(entries, spans, probe, i)
    decreases |spans|
  {
    BuildEntriesCount(spans, probe);
    if spans != [] {
      var init := spans[..|spans| - 1];
      BuildEntriesShape(init, probe);
      var built := BuildEntries(init, probe).value;
      var entries := BuildEntries(spans, probe).value;
      var last := EntryFor(|built|, spans[|spans| - 1], probe, ProbeRecordsUsed(built)).value;
      assert entries == built + [last];
      assert entries[..|built|] == built;
      forall i | 0 <= i < |built|
        ensures entries[..i] == built[..i]
      {
      }
      forall i | 0 <= i < |entries|
        ensures EntryOfSpan(entries, spans, probe, i)
      {
        if i < |built| {
          assert EntryOfSpan(built, init, probe, i);
          assert entries[i] == built[i] && spans[i] == init[i];
        } else {
          assert entries[i] == last && entries[..i] == built;
        }
      }
    }
  }

  /** Building fails exactly when there are more units of a type other than 6, 7 and 8 than probe records, and only for that reason. */
  lemma {:induction false} BuildEntriesFails(spans: seq<Span>, probe: seq<Dict>)
    ensures BuildEntries(spans, probe).Err? <==> ProbedUnits(spans) > |probe|
    ensures BuildEntries(spans, probe).Err? ==> BuildEntries(spans, probe).error == ProbeExhausted
    decreases |spans|
  {
    if spans != [] {
      var init := spans[..|spans| - 1];
      BuildEntriesFails(init, probe);
      if BuildEntries(init, probe).Ok? {
        BuildEntriesShape(init, probe);
      }
    }
  }

  // ---------------------------------------------------------------------------
  // The whole scan

  /** The unit in progress at the end of the stream: it ends at the offset after the failed read. */
  function FinalSpan(data: seq<byte>, d: seq<nat>): (span: Span)
    requires ValidDetections(data, d) && d != [] && d[|d| - 1] < |data|
  {
    Span(Cut(data, d[|d| - 1]), |data| + 1, data[d[|d| - 1]])
  }

  /** Every unit of a stream whose last boundary is not at its very end. */
  function UnitSpans(data: seq<byte>, d: seq<nat>): (spans: seq<Span>)
    requires ValidDetections(data, d) && d != [] && d[|d| - 1] < |data|
  {
    ClosedSpans(data, d) + [FinalSpan(data, d)]
  }

  /**
   * What the splitter produces for a stream and the probe records. Units are
   * delimited by the detected boundaries; the last unit ends at the offset
   * after the failed read, one past the end of the stream.
   */
  function Scan(data: seq<byte>, probe: seq<Dict>): (r: Result<seq<NaluEntry>, ScanError>)
    ensures r.Ok? ==> StartsWithStartCode(data)
  {
    var d := Detections(data, |data| + 1);
    DetectionsIncrease(data, |data| + 1);
    FirstCutAtZero(data);
    if d == [] || Cut(data, d[0]) != 0 then Err(MissingHeader)
    else if d[|d| - 1] == |data| then
      match BuildEntries(ClosedSpans(data, d), probe)
      case Err(e) => Err(e)
      case Ok(_) => Err(EmptyHeaderRead)
    else BuildEntries(UnitSpans(data, d), probe)
  }

  /** The stream opens with a start code: `00 00 01`, or `00 00 00 01` with its zero_byte. */
  predicate StartsWithStartCode(data: seq<byte>)
  {
    (|data| >= 3 && data[0] == 0 && data[1] == 0 && data[2] == 1) ||
    (|data| >= 4 && data[0] == 0 && data[1] == 0 && data[2] == 0 && data[3] == 1)
  }

  /** Spans that cover `[0, length)` one after the other, none of them empty. */
  predicate SpansTile(spans: seq<Span>, length: int)
  {
    |spans| > 0 &&
    spans[0].start == 0 &&
    spans[|spans| - 1].end == length &&
    (forall i :: 0 <= i < |spans| - 1 ==> spans[i].end == spans[i + 1].start) &&
    (forall i :: 0 <= i < |spans| ==> spans[i].start < spans[i].end)
  }

  /** Entries that cover `[0, length)` one after the other, none of them empty. */
  predicate Tiles(index: seq<NaluEntry>, length: int)
  {
    |index| > 0 &&
    index[0].offsetStart == 0 &&
    index[|index| - 1].offsetEnd == length &&
    (forall i :: 0 <= i < |index| - 1 ==> index[i].offsetEnd == index[i + 1].offsetStart) &&
    (forall i :: 0 <= i < |index| ==>
      index[i].offsetStart < index[i].offsetEnd && index[i].size == index[i].offsetEnd - index[i].offsetStart)
  }

  /** Closed unit i runs from cut i to cut i + 1, and is not empty. */
  lemma ClosedSpansChain(data: seq<byte>, d: seq<nat>)
    requires ValidDetections(data, d)
    ensures var closed := ClosedSpans(data, d);
      forall i :: 0 <= i < |closed| ==>
        closed[i].start == Cut(data, d[i]) && closed[i].end == Cut(data, d[i + 1]) &&
        closed[i].start < closed[i].end && closed[i].header == data[d[i]]
  {
    var closed := ClosedSpans(data, d);
    forall i | 0 <= i < |closed|
      ensures closed[i].start == Cut(data, d[i]) && closed[i].end == Cut(data, d[i + 1])
      ensures closed[i].start < closed[i].end && closed[i].header == data[d[i]]
    {
      assert closed[i] == Span(Cut(data, d[i]), Cut(data, d[i + 1]), data[d[i]]);
      assert Ascends(d, i);
      CutsIncrease(data, d[i], d[i + 1]);
    }
  }

  /** The units of a stream that opens with a start code tile it, plus the offset of the failed read. */
  lemma UnitSpansTile(data: seq<byte>, d: seq<nat>)
    requires ValidDetections(data, d) && d != [] && d[|d| - 1] < |data| && Cut(data, d[0]) == 0
    ensures SpansTile(UnitSpans(data, d), |data| + 1)
    ensures forall i :: 0 <= i < |d| ==>
      UnitSpans(data, d)[i].start == Cut(data, d[i]) && UnitSpans(data, d)[i].header == data[d[i]]
  {
    var spans := UnitSpans(data, d);
    var n := |d|;
    forall i | 0 <= i < n
      ensures spans[i].start == Cut(data, d[i]) && spans[i].header == data[d[i]] && spans[i].start < spans[i].end
      ensures i < n - 1 ==> spans[i].end == spans[i + 1].start
    {
      UnitSpanAt(data, d, i);
      if i < n - 1 {
        UnitSpanAt(data, d, i + 1);
      }
    }
    UnitSpanAt(data, d, n - 1);
  }

  /** Unit i runs from cut i to the next cut, or to the offset of the failed read for the last one, and is not empty. */
  lemma UnitSpanAt(data: seq<byte>, d: seq<nat>, i: nat)
    requires ValidDetections(data, d) && d != [] && d[|d| - 1] < |data| && i < |d|
    ensures var spans := UnitSpans(data, d);
      |spans| == |d| && spans[i].start == Cut(data, d[i]) && spans[i].header == data[d[i]] &&
      spans[i].start < spans[i].end &&
      spans[i].end == (if i < |d| - 1 then Cut(data, d[i + 1]) else |data| + 1)
  {
    var spans := UnitSpans(data, d);
    if i < |d| - 1 {
      assert spans[i] == Span(Cut(data, d[i]), Cut(data, d[i + 1]), data[d[i]]);
      assert Ascends(d, i);
      CutsIncrease(data, d[i], d[i + 1]);
    } else {
      assert spans[i] == FinalSpan(data, d);
    }
  }

  lemma EntriesTile(spans: seq<Span>, probe: seq<Dict>, length: int)
    requires SpansTile(spans, length) && BuildEntries(spans, probe).Ok?
    ensures Tiles(BuildEntries(spans, probe).value, length)
  {
    BuildEntriesShape(spans, probe);
    var index := BuildEntries(spans, probe).value;
    forall i | 0 <= i < |index|
      ensures index[i].offsetStart == spans[i].start && index[i].offsetEnd == spans[i].end
      ensures index[i].size == index[i].offsetEnd - index[i].offsetStart
    {
      assert EntryOfSpan(index, spans, probe, i);
    }
  }

  /** A scan succeeds only on a stream that opens with a cut at 0 and whose last boundary is not at its end. */
  lemma ScanSucceeds(data: seq<byte>, probe: seq<Dict>)
    requires Scan(data, probe).Ok?
    ensures var d := Detections(data, |data| + 1);
      ValidDetections(data, d) && d != [] && Cut(data, d[0]) == 0 && d[|d| - 1] < |data| &&
      Scan(data, probe) == BuildEntries(UnitSpans(data, d), probe)
  {
    DetectionsIncrease(data, |data| + 1);
  }

  /**
   * A successful scan yields one entry per detected boundary: entry i starts at
   * the cut of detection i, its header is the byte read right after it, and
   * the entries tile the stream plus the one offset of the failed read.
   */
  lemma ScanUnits(data: seq<byte>, probe: seq<Dict>)
    requires Scan(data, probe).Ok?
    ensures var index := Scan(data, probe).value;
      var d := Detections(data, |data| + 1);
      |index| == |d| && Tiles(index, |data| + 1) &&
      forall i :: 0 <= i < |index| ==>
        index[i].id == i && index[i].offsetStart == Cut(data, d[i]) && d[i] < |data| && index[i].header == data[d[i]]
  {
    var d := Detections(data, |data| + 1);
    ScanSucceeds(data, probe);
    UnitEntries(data, probe, d);
  }

  /** The entries of the units the detections delimit: one per detection, tiling the stream plus one offset. */
  lemma UnitEntries(data: seq<byte>, probe: seq<Dict>, d: seq<nat>)
    requires ValidDetections(data, d) && d != [] && d[|d| - 1] < |data| && Cut(data, d[0]) == 0
    requires BuildEntries(UnitSpans(data, d), probe).Ok?
    ensures var index := BuildEntries(UnitSpans(data, d), probe).value;
      |index| == |d| && Tiles(index, |data| + 1) &&
      forall i :: 0 <= i < |index| ==>
        index[i].id == i && index[i].offsetStart == Cut(data, d[i]) && index[i].header == data[d[i]]
  {
    var n := |d|;
    var index := BuildEntries(UnitSpans(data, d), probe).value;
    UnitEntryAt(data, probe, d, n - 1);
    forall i | 0 <= i < n
      ensures index[i].id == i && index[i].offsetStart == Cut(data, d[i]) && index[i].header == data[d[i]]
      ensures index[i].offsetStart < index[i].offsetEnd && index[i].size == index[i].offsetEnd - index[i].offsetStart
    {
      UnitEntryAt(data, probe, d, i);
    }
    forall i | 0 <= i < n - 1
      ensures index[i].offsetEnd == index[i + 1].offsetStart
    {
      UnitEntryAt(data, probe, d, i);
      UnitEntryAt(data, probe, d, i + 1);
    }
  }

  /** Entry i of the units the detections delimit is built from unit i. */
  lemma UnitEntryAt(data: seq<byte>, probe: seq<Dict>, d: seq<nat>, i: nat)
    requires ValidDetections(data, d) && d != [] && d[|d| - 1] < |data| && i < |d|
    requires BuildEntries(UnitSpans(data, d), probe).Ok?
    ensures var index := BuildEntries(UnitSpans(data, d), probe).value;
      |index| == |d| && index[i].id == i && index[i].offsetStart == Cut(data, d[i]) && index[i].header == data[d[i]] &&
      index[i].offsetStart < index[i].offsetEnd && index[i].size == index[i].offsetEnd - index[i].offsetStart &&
      index[i].offsetEnd == (if i < |d| - 1 then Cut(data, d[i + 1]) else |data| + 1)
  {
    var spans := UnitSpans(data, d);
    UnitSpanAt(data, d, i);
    BuildEntriesShape(spans, probe);
    assert EntryOfSpan(BuildEntries(spans, probe).value, spans, probe, i);
  }

  /** A successful scan hands out the probe records in order, one per unit whose type is not 6, 7 or 8, and never more than there are. */
  lemma ScanProbeRecords(data: seq<byte>, probe: seq<Dict>)
    requires Scan(data, probe).Ok?
    ensures var index := Scan(data, probe).value;
      ProbeRecordsUsed(index) <= |probe| &&
      forall i :: 0 <= i < |index| ==>
        (index[i].frame.Some? <==> TakesProbeRecord(index[i].header)) &&
        (index[i].frame.Some? ==>
          ProbeRecordsUsed(index[..i]) < |probe| && index[i].frame.value == probe[ProbeRecordsUsed(index[..i])])
  {
    ScanSucceeds(data, probe);
    var d := Detections(data, |data| + 1);
    var spans := UnitSpans(data, d);
    BuildEntriesShape(spans, probe);
    var index := BuildEntries(spans, probe).value;
    forall i | 0 <= i < |index|
      ensures index[i].frame.Some? <==> TakesProbeRecord(index[i].header)
      ensures index[i].frame.Some? ==>
        ProbeRecordsUsed(index[..i]) < |probe| && index[i].frame.value == probe[ProbeRecordsUsed(index[..i])]
    {
      assert EntryOfSpan(index, spans, probe, i);
    }
  }

  /** The first boundary of a stream that opens with a start code is right after it. */
  lemma FirstDetection(data: seq<byte>)
    requires StartsWithStartCode(data)
    ensures var d := Detections(data, |data| + 1);
      d != [] && d[0] == (if data[2] == 1 then 3 else 4)
  {
    var k := if data[2] == 1 then 3 else 4;
    DetectionsPrefix(data, k + 1, |data| + 1);
    assert Detections(data, 3) == [] by {
      assert Detections(data, 0) == [] && Detections(data, 1) == [] && Detections(data, 2) == [];
    }
    assert Detections(data, k + 1) == [k] by {
      if k == 4 {
        assert Detections(data, 4) == [];
      }
    }
  }

  /** The first detection cuts at 0 exactly when the stream opens with a start code. */
  lemma FirstCutAtZero(data: seq<byte>)
    ensures var d := Detections(data, |data| + 1);
      StartsWithStartCode(data) <==> d != [] && Cut(data, d[0]) == 0
  {
    if StartsWithStartCode(data) {
      FirstDetection(data);
    }
  }

  /** Missing header: the stream does not open with a start code. */
  lemma ScanMissingHeader(data: seq<byte>, probe: seq<Dict>)
    ensures Scan(data, probe) == Err(MissingHeader) <==> !StartsWithStartCode(data)
  {
    FirstCutAtZero(data);
    DetectionsIncrease(data, |data| + 1);
    var d := Detections(data, |data| + 1);
    if d != [] && Cut(data, d[0]) == 0 {
      BuildEntriesFails(ClosedSpans(data, d), probe);
      if d[|d| - 1] < |data| {
        BuildEntriesFails(UnitSpans(data, d), probe);
      }
    }
  }

  /** A stream that ends right after a start code never scans; when it is the failure, that is why. */
  lemma ScanEndsWithStartCode(data: seq<byte>, probe: seq<Dict>)
    ensures IsCut(data, |data|) ==> Scan(data, probe).Err?
    ensures Scan(data, probe) == Err(EmptyHeaderRead) ==> IsCut(data, |data|)
  {
    var d := Detections(data, |data| + 1);
    DetectionsIncrease(data, |data| + 1);
    if IsCut(data, |data|) {
      DetectionsComplete(data, |data| + 1, |data|);
      var p :| 0 <= p < |d| && d[p] == |data|;
      assert p == |d| - 1;
    } else if d != [] && Cut(data, d[0]) == 0 && d[|d| - 1] < |data| {
      BuildEntriesFails(UnitSpans(data, d), probe);
    }
  }

  // ---------------------------------------------------------------------------
  // The imperative splitter

  /** The `index` list that `create_nalu_entry` appends to. */
  class NaluIndex {
    var entries: seq<NaluEntry>

    constructor ()
      ensures entries == []
    {
      entries := [];
    }
  }

  /**
   * `create_nalu_entry`: appends the entry of the unit `[offsetStart, offsetEnd)`
   * and returns the next id and the advanced probe cursor.
   */
  method CreateNaluEntry(unitId: nat, index: NaluIndex, probe: seq<Dict>, probeResultIndex: nat,
                         offsetStart: int, offsetEnd: int, naluHeader: Option<byte>)
    returns (r: Result<(nat, nat), ScanError>)
    modifies index
    ensures naluHeader.None? ==> r == Err(MissingHeader) && index.entries == old(index.entries)
    ensures naluHeader.Some? ==>
      var e := EntryFor(unitId, Span(offsetStart, offsetEnd, naluHeader.value), probe, probeResultIndex);
      (e.Err? ==> r == Err(e.error) && index.entries == old(index.entries)) &&
      (e.Ok? ==>
        index.entries == old(index.entries) + [e.value] &&
        r == Ok((unitId + 1, probeResultIndex + if TakesProbeRecord(naluHeader.value) then 1 else 0)))
  {
    if naluHeader.None? {
      return Err(MissingHeader);
    }
    var header := naluHeader.value;
    var nalUnitType := NalUnitType(header);
    var size := offsetEnd - offsetStart;
    var frame: Option<Dict> := None;
    var probeResultIndexMod := 0;
    if nalUnitType != 6 && nalUnitType != 7 && nalUnitType != 8 {
      if probeResultIndex >= |probe| {
        return Err(ProbeExhausted);
      }
      frame := Some(probe[probeResultIndex]);
      probeResultIndexMod := 1;
    }
    index.entries := index.entries + [NaluEntry(unitId, offsetStart, offsetEnd, size, header, frame)];
    r := Ok((unitId + 1, probeResultIndex + probeResultIndexMod));
  }

  /** The loop state of `split_nalu` at the top of the iteration that reads byte `offset`. */
  ghost predicate LoopState(data: seq<byte>, probe: seq<Dict>, offset: nat, offsetStart: int,
                            naluHeader: Option<byte>, unitId: nat, probeResultIndex: nat, entries: seq<NaluEntry>)
    requires offset <= |data|
  {
    var d := Detections(data, offset);
    DetectionsIncrease(data, offset);
    (d == [] ==> offsetStart == 0 && naluHeader == None && entries == []) &&
    (d != [] ==>
      Cut(data, d[0]) == 0 &&
      offsetStart == Cut(data, d[|d| - 1]) &&
      naluHeader == Some(data[d[|d| - 1]]) &&
      BuildEntries(ClosedSpans(data, d), probe) == Ok(entries)) &&
    unitId == |entries| && probeResultIndex == ProbeRecordsUsed(entries)
  }

  /** A failure on the units closed by some detections is the failure on those closed by any extension of them. */
  lemma PrefixFailure(data: seq<byte>, probe: seq<Dict>, d: seq<nat>, full: seq<nat>)
    requires ValidDetections(data, full) && d != [] && |d| <= |full| && full[..|d|] == d
    requires ValidDetections(data, d) && BuildEntries(ClosedSpans(data, d), probe).Err?
    ensures full[0] == d[0]
    ensures BuildEntries(ClosedSpans(data, full), probe) == BuildEntries(ClosedSpans(data, d), probe)
    ensures full[|full| - 1] < |data| ==>
      BuildEntries(UnitSpans(data, full), probe) == BuildEntries(ClosedSpans(data, d), probe)
  {
    assert full[0] == d[0];
    ClosedSpansPrefix(data, d, full);
    var prefix := ClosedSpans(data, d);
    BuildEntriesPrefixErr(prefix, ClosedSpans(data, full), probe);
    if full[|full| - 1] < |data| {
      var all := UnitSpans(data, full);
      assert all[..|prefix|] == prefix;
      BuildEntriesPrefixErr(prefix, all, probe);
    }
  }

  /** The first boundary below an offset is the first boundary of the stream. */
  lemma FirstDetectionKept(data: seq<byte>, k: nat)
    requires k <= |data| && Detections(data, k + 1) != []
    ensures var full := Detections(data, |data| + 1);
      full != [] && full[0] == Detections(data, k + 1)[0]
  {
    DetectionsPrefix(data, k + 1, |data| + 1);
  }

  /** A failure on the units closed below an offset is the failure on all closed units. */
  lemma ClosedFailureKept(data: seq<byte>, probe: seq<Dict>, k: nat)
    requires k <= |data| && Detections(data, k + 1) != []
    requires ValidDetections(data, Detections(data, k + 1))
    requires BuildEntries(ClosedSpans(data, Detections(data, k + 1)), probe).Err?
    ensures ValidDetections(data, Detections(data, |data| + 1))
    ensures BuildEntries(ClosedSpans(data, Detections(data, |data| + 1)), probe) ==
      BuildEntries(ClosedSpans(data, Detections(data, k + 1)), probe)
  {
    DetectionsIncrease(data, |data| + 1);
    DetectionsPrefix(data, k + 1, |data| + 1);
    PrefixFailure(data, probe, Detections(data, k + 1), Detections(data, |data| + 1));
  }

  /** ... and the failure on all units, the one in progress at the end included. */
  lemma UnitFailureKept(data: seq<byte>, probe: seq<Dict>, k: nat)
    requires k <= |data| && Detections(data, k + 1) != []
    requires ValidDetections(data, Detections(data, k + 1)) && ValidDetections(data, Detections(data, |data| + 1))
    requires BuildEntries(ClosedSpans(data, Detections(data, k + 1)), probe).Err?
    requires var full := Detections(data, |data| + 1);
      full != [] && full[|full| - 1] < |data|
    ensures BuildEntries(UnitSpans(data, Detections(data, |data| + 1)), probe) ==
      BuildEntries(ClosedSpans(data, Detections(data, k + 1)), probe)
  {
    DetectionsPrefix(data, k + 1, |data| + 1);
    PrefixFailure(data, probe, Detections(data, k + 1), Detections(data, |data| + 1));
  }

  /** A scan whose closed units fail, and whose unit in progress changes nothing, fails with them. */
  lemma ScanOfClosedFailure(data: seq<byte>, probe: seq<Dict>)
    requires ValidDetections(data, Detections(data, |data| + 1))
    requires var full := Detections(data, |data| + 1);
      full != [] && Cut(data, full[0]) == 0 && BuildEntries(ClosedSpans(data, full), probe).Err? &&
      (full[|full| - 1] < |data| ==> BuildEntries(UnitSpans(data, full), probe) == BuildEntries(ClosedSpans(data, full), probe))
    ensures Scan(data, probe) == BuildEntries(ClosedSpans(data, Detections(data, |data| + 1)), probe)
  {
  }

  /** Once the units closed so far fail, so does the scan. */
  lemma ScanFailsEarly(data: seq<byte>, probe: seq<Dict>, k: nat)
    requires k <= |data| && ValidDetections(data, Detections(data, k + 1))
    requires var d := Detections(data, k + 1);
      d != [] && Cut(data, d[0]) == 0 && BuildEntries(ClosedSpans(data, d), probe).Err?
    ensures Scan(data, probe) == BuildEntries(ClosedSpans(data, Detections(data, k + 1)), probe)
  {
    FirstDetectionKept(data, k);
    ClosedFailureKept(data, probe, k);
    var full := Detections(data, |data| + 1);
    if full[|full| - 1] < |data| {
      UnitFailureKept(data, probe, k);
    }
    ScanOfClosedFailure(data, probe);
  }

  /** A boundary with none before it is the first boundary of the stream. */
  lemma FirstDetectionAt(data: seq<byte>, k: nat)
    requires k <= |data| && IsCut(data, k) && Detections(data, k) == []
    ensures var full := Detections(data, |data| + 1);
      full != [] && full[0] == k
  {
    DetectionsPrefix(data, k + 1, |data| + 1);
    assert Detections(data, k + 1) == [k];
  }

  /** A first boundary that does not cut at 0 makes the scan fail for want of a header. */
  lemma ScanFailsWithoutHeader(data: seq<byte>, probe: seq<Dict>, k: nat)
    requires k <= |data| && IsCut(data, k) && Cut(data, k) != 0 && Detections(data, k) == []
    ensures Scan(data, probe) == Err(MissingHeader)
  {
    FirstDetectionAt(data, k);
  }

  /** The buffer after reading byte `b`: `b` appended, and the oldest byte dropped once four are held. */
  function Shifted(buffer: seq<byte>, b: byte): (next: seq<byte>)
  {
    if |buffer| < 4 then buffer + [b] else buffer[1..] + [b]
  }

  lemma WindowShift(data: seq<byte>, offset: nat, next: nat)
    requires offset < |data| && next == offset + 1
    ensures Window(data, next) == Shifted(Window(data, offset), data[offset])
  {
  }

  /** Reading a byte that closes no unit leaves the units as they were. */
  lemma StepWithoutBoundary(data: seq<byte>, probe: seq<Dict>, offset: nat, next: nat, offsetStart: int,
                            naluHeader: Option<byte>, unitId: nat, probeResultIndex: nat, entries: seq<NaluEntry>)
    requires offset < |data| && next == offset + 1 && !IsCut(data, offset)
    requires LoopState(data, probe, offset, offsetStart, naluHeader, unitId, probeResultIndex, entries)
    ensures LoopState(data, probe, next, offsetStart, naluHeader, unitId, probeResultIndex, entries)
  {
    assert Detections(data, offset + 1) == Detections(data, offset);
  }

  /** A boundary after the first closes the unit in progress, which takes the next entry. */
  lemma CloseLaterUnit(data: seq<byte>, probe: seq<Dict>, d: seq<nat>, offset: nat, entries: seq<NaluEntry>, e: NaluEntry)
    requires ValidDetections(data, d) && ValidDetections(data, d + [offset]) && d != [] && d[|d| - 1] < offset
    requires IsCut(data, offset) && BuildEntries(ClosedSpans(data, d), probe) == Ok(entries)
    requires EntryFor(|entries|, Span(Cut(data, d[|d| - 1]), Cut(data, offset), data[d[|d| - 1]]), probe,
      ProbeRecordsUsed(entries)) == Ok(e)
    ensures BuildEntries(ClosedSpans(data, d + [offset]), probe) == Ok(entries + [e])
    ensures ProbeRecordsUsed(entries + [e]) ==
      ProbeRecordsUsed(entries) + (if TakesProbeRecord(data[d[|d| - 1]]) then 1 else 0)
  {
    ClosedSpansSnoc(data, d, offset);
    BuildEntriesSnoc(ClosedSpans(data, d), Span(Cut(data, d[|d| - 1]), Cut(data, offset), data[d[|d| - 1]]), probe);
    assert (entries + [e])[..|entries|] == entries;
  }

  /**
   * At a boundary the unit in progress is closed and, unless it is empty,
   * takes its entry; only the very first unit can be empty, and then the
   * stream opened with a start code.
   */
  lemma CloseUnit(data: seq<byte>, probe: seq<Dict>, offset: nat, offsetStart: int,
                  naluHeader: Option<byte>, unitId: nat, probeResultIndex: nat, entries: seq<NaluEntry>, after: seq<NaluEntry>)
    requires offset <= |data| && IsCut(data, offset)
    requires LoopState(data, probe, offset, offsetStart, naluHeader, unitId, probeResultIndex, entries)
    requires Cut(data, offset) <= offsetStart ==> after == entries
    requires Cut(data, offset) > offsetStart ==> (naluHeader.Some? &&
      var e := EntryFor(unitId, Span(offsetStart, Cut(data, offset), naluHeader.value), probe, probeResultIndex);
      e.Ok? && after == entries + [e.value])
    ensures ValidDetections(data, Detections(data, offset + 1))
    ensures var d' := Detections(data, offset + 1);
      d' != [] && d'[|d'| - 1] == offset && Cut(data, d'[0]) == 0 &&
      BuildEntries(ClosedSpans(data, d'), probe) == Ok(after)
    ensures var emitted := Cut(data, offset) > offsetStart;
      |after| == (if emitted then unitId + 1 else unitId) &&
      ProbeRecordsUsed(after) ==
        (if emitted && TakesProbeRecord(naluHeader.value) then probeResultIndex + 1 else probeResultIndex)
  {
    if Detections(data, offset) != [] {
      CloseNextUnit(data, probe, offset, offsetStart, naluHeader, unitId, probeResultIndex, entries, after);
    } else {
      assert offsetStart == 0 && naluHeader == None;
      CloseFirstUnit(data, probe, offset, offsetStart, naluHeader, unitId, probeResultIndex, entries);
    }
  }

  /** `CloseUnit` at the first boundary: the unit before it is empty, so the stream opens with a start code. */
  lemma CloseFirstUnit(data: seq<byte>, probe: seq<Dict>, offset: nat, offsetStart: int,
                       naluHeader: Option<byte>, unitId: nat, probeResultIndex: nat, entries: seq<NaluEntry>)
    requires offset <= |data| && IsCut(data, offset)
    requires LoopState(data, probe, offset, offsetStart, naluHeader, unitId, probeResultIndex, entries)
    requires Detections(data, offset) == [] && Cut(data, offset) <= offsetStart
    ensures entries == [] && offsetStart == 0 && Cut(data, offset) == 0
    ensures ValidDetections(data, Detections(data, offset + 1))
    ensures var d' := Detections(data, offset + 1);
      d' != [] && d'[|d'| - 1] == offset && Cut(data, d'[0]) == 0 &&
      BuildEntries(ClosedSpans(data, d'), probe) == Ok(entries)
  {
    DetectionsIncrease(data, offset + 1);
    assert Detections(data, offset + 1) == [offset];
    assert ClosedSpans(data, [offset]) == [];
  }

  /** `CloseUnit` at a later boundary: the unit since the previous one takes its entry. */
  lemma CloseNextUnit(data: seq<byte>, probe: seq<Dict>, offset: nat, offsetStart: int,
                      naluHeader: Option<byte>, unitId: nat, probeResultIndex: nat, entries: seq<NaluEntry>, after: seq<NaluEntry>)
    requires offset <= |data| && IsCut(data, offset)
    requires LoopState(data, probe, offset, offsetStart, naluHeader, unitId, probeResultIndex, entries)
    requires Detections(data, offset) != []
    requires Cut(data, offset) <= offsetStart ==> after == entries
    requires Cut(data, offset) > offsetStart ==> (naluHeader.Some? &&
      var e := EntryFor(unitId, Span(offsetStart, Cut(data, offset), naluHeader.value), probe, probeResultIndex);
      e.Ok? && after == entries + [e.value])
    ensures ValidDetections(data, Detections(data, offset + 1))
    ensures var d' := Detections(data, offset + 1);
      d' != [] && d'[|d'| - 1] == offset && Cut(data, d'[0]) == 0 &&
      BuildEntries(ClosedSpans(data, d'), probe) == Ok(after)
    ensures var emitted := Cut(data, offset) > offsetStart;
      |after| == (if emitted then unitId + 1 else unitId) &&
      ProbeRecordsUsed(after) ==
        (if emitted && TakesProbeRecord(naluHeader.value) then probeResultIndex + 1 else probeResultIndex)
  {
    LoopStateBehindBoundary(data, probe, offset, offsetStart, naluHeader, unitId, probeResultIndex, entries);
    DetectionsIncrease(data, offset + 1);
    var d := Detections(data, offset);
    var d' := Detections(data, offset + 1);
    assert d' == d + [offset];
    var last := d[|d| - 1];
    CutsIncrease(data, last, offset);
    CloseUnitAfter(data, probe, d, offset, entries, after);
    assert d'[0] == d[0] && d'[|d'| - 1] == offset;
  }

  /** The loop state once some boundary is behind: the unit in progress starts at the cut of the last one. */
  lemma LoopStateBehindBoundary(data: seq<byte>, probe: seq<Dict>, offset: nat, offsetStart: int,
                                naluHeader: Option<byte>, unitId: nat, probeResultIndex: nat, entries: seq<NaluEntry>)
    requires offset <= |data| && Detections(data, offset) != []
    requires LoopState(data, probe, offset, offsetStart, naluHeader, unitId, probeResultIndex, entries)
    ensures ValidDetections(data, Detections(data, offset))
    ensures var d := Detections(data, offset);
      Cut(data, d[0]) == 0 && offsetStart == Cut(data, d[|d| - 1]) && naluHeader == Some(data[d[|d| - 1]]) &&
      BuildEntries(ClosedSpans(data, d), probe) == Ok(entries) &&
      unitId == |entries| && probeResultIndex == ProbeRecordsUsed(entries)
  {
    DetectionsIncrease(data, offset);
  }

  /** `CloseUnit` once some boundary is behind: the unit from the last one to this one takes its entry. */
  lemma CloseUnitAfter(data: seq<byte>, probe: seq<Dict>, d: seq<nat>, offset: nat,
                       entries: seq<NaluEntry>, after: seq<NaluEntry>)
    requires ValidDetections(data, d) && ValidDetections(data, d + [offset]) && d != [] && d[|d| - 1] < offset
    requires IsCut(data, offset) && BuildEntries(ClosedSpans(data, d), probe) == Ok(entries)
    requires var last := d[|d| - 1];
      var e := EntryFor(|entries|, Span(Cut(data, last), Cut(data, offset), data[last]), probe, ProbeRecordsUsed(entries));
      e.Ok? && after == entries + [e.value]
    ensures BuildEntries(ClosedSpans(data, d + [offset]), probe) == Ok(after)
    ensures |after| == |entries| + 1
    ensures ProbeRecordsUsed(after) == ProbeRecordsUsed(entries) + (if TakesProbeRecord(data[d[|d| - 1]]) then 1 else 0)
  {
    var last := d[|d| - 1];
    var e := EntryFor(|entries|, Span(Cut(data, last), Cut(data, offset), data[last]), probe, ProbeRecordsUsed(entries));
    CloseLaterUnit(data, probe, d, offset, entries, e.value);
  }

  /** A boundary before the last byte opens a unit whose header is the byte that follows. */
  lemma StepAtBoundary(data: seq<byte>, probe: seq<Dict>, offset: nat, next: nat, offsetStart: int,
                       naluHeader: Option<byte>, unitId: nat, probeResultIndex: nat, entries: seq<NaluEntry>,
                       after: seq<NaluEntry>, nextStart: int, nextHeader: Option<byte>, nextId: nat, nextCursor: nat)
    requires offset < |data| && next == offset + 1 && IsCut(data, offset)
    requires LoopState(data, probe, offset, offsetStart, naluHeader, unitId, probeResultIndex, entries)
    requires Cut(data, offset) <= offsetStart ==> after == entries
    requires Cut(data, offset) > offsetStart ==> (naluHeader.Some? &&
      var e := EntryFor(unitId, Span(offsetStart, Cut(data, offset), naluHeader.value), probe, probeResultIndex);
      e.Ok? && after == entries + [e.value])
    requires nextStart == Cut(data, offset) && nextHeader == Some(data[offset])
    requires var emitted := Cut(data, offset) > offsetStart;
      nextId == (if emitted then unitId + 1 else unitId) &&
      nextCursor == (if emitted && TakesProbeRecord(naluHeader.value) then probeResultIndex + 1 else probeResultIndex)
    ensures LoopState(data, probe, next, nextStart, nextHeader, nextId, nextCursor, after)
  {
    CloseUnit(data, probe, offset, offsetStart, naluHeader, unitId, probeResultIndex, entries, after);
  }

  /** The scan of a stream whose last boundary is at its very end fails on the read of the header. */
  lemma ScanAtFinalBoundary(data: seq<byte>, probe: seq<Dict>)
    requires ValidDetections(data, Detections(data, |data| + 1))
    requires var full := Detections(data, |data| + 1);
      full != [] && full[|full| - 1] == |data| && Cut(data, full[0]) == 0 &&
      BuildEntries(ClosedSpans(data, full), probe).Ok?
    ensures Scan(data, probe) == Err(EmptyHeaderRead)
  {
  }

  /** A boundary at the end of the stream leaves no byte for the header. */
  lemma EndsAtBoundary(data: seq<byte>, probe: seq<Dict>, offsetStart: int,
                       naluHeader: Option<byte>, unitId: nat, probeResultIndex: nat, entries: seq<NaluEntry>, after: seq<NaluEntry>)
    requires IsCut(data, |data|)
    requires LoopState(data, probe, |data|, offsetStart, naluHeader, unitId, probeResultIndex, entries)
    requires Cut(data, |data|) <= offsetStart ==> after == entries
    requires Cut(data, |data|) > offsetStart ==> (naluHeader.Some? &&
      var e := EntryFor(unitId, Span(offsetStart, Cut(data, |data|), naluHeader.value), probe, probeResultIndex);
      e.Ok? && after == entries + [e.value])
    ensures Scan(data, probe) == Err(EmptyHeaderRead)
  {
    CloseUnit(data, probe, |data|, offsetStart, naluHeader, unitId, probeResultIndex, entries, after);
    ScanAtFinalBoundary(data, probe);
  }

  /** The units closed by a boundary whose unit in progress fails to take its entry fail with it. */
  lemma CloseUnitFails(data: seq<byte>, probe: seq<Dict>, offset: nat, offsetStart: int,
                       naluHeader: Option<byte>, unitId: nat, probeResultIndex: nat, entries: seq<NaluEntry>, err: ScanError)
    requires offset <= |data| && IsCut(data, offset) && Cut(data, offset) > offsetStart
    requires LoopState(data, probe, offset, offsetStart, naluHeader, unitId, probeResultIndex, entries)
    requires Detections(data, offset) != [] && naluHeader.Some?
    requires EntryFor(unitId, Span(offsetStart, Cut(data, offset), naluHeader.value), probe, probeResultIndex) == Err(err)
    ensures ValidDetections(data, Detections(data, offset + 1))
    ensures var d' := Detections(data, offset + 1);
      d' != [] && Cut(data, d'[0]) == 0 && BuildEntries(ClosedSpans(data, d'), probe) == Err(err)
  {
    DetectionsIncrease(data, offset);
    DetectionsIncrease(data, offset + 1);
    var d := Detections(data, offset);
    var d' := Detections(data, offset + 1);
    assert d' == d + [offset];
    var last := d[|d| - 1];
    assert offsetStart == Cut(data, last) && naluHeader == Some(data[last]);
    assert BuildEntries(ClosedSpans(data, d), probe) == Ok(entries);
    CloseUnitFailsAfter(data, probe, d, offset, entries, err);
    assert d'[0] == d[0] && Cut(data, d[0]) == 0;
  }

  /** `CloseUnitFails` on the detections: the unit from the last boundary to this one finds no probe record. */
  lemma CloseUnitFailsAfter(data: seq<byte>, probe: seq<Dict>, d: seq<nat>, offset: nat, entries: seq<NaluEntry>, err: ScanError)
    requires ValidDetections(data, d) && ValidDetections(data, d + [offset]) && d != [] && d[|d| - 1] < offset
    requires IsCut(data, offset) && BuildEntries(ClosedSpans(data, d), probe) == Ok(entries)
    requires var last := d[|d| - 1];
      EntryFor(|entries|, Span(Cut(data, last), Cut(data, offset), data[last]), probe, ProbeRecordsUsed(entries)) == Err(err)
    ensures BuildEntries(ClosedSpans(data, d + [offset]), probe) == Err(err)
  {
    var last := d[|d| - 1];
    ClosedSpansSnoc(data, d, offset);
    BuildEntriesSnoc(ClosedSpans(data, d), Span(Cut(data, last), Cut(data, offset), data[last]), probe);
  }

  /** A unit that fails to take its entry at a boundary fails the scan the same way. */
  lemma FailsAtBoundary(data: seq<byte>, probe: seq<Dict>, offset: nat, offsetStart: int,
                        naluHeader: Option<byte>, unitId: nat, probeResultIndex: nat, entries: seq<NaluEntry>, err: ScanError)
    requires offset <= |data| && IsCut(data, offset) && Cut(data, offset) > offsetStart
    requires LoopState(data, probe, offset, offsetStart, naluHeader, unitId, probeResultIndex, entries)
    requires naluHeader.None? ==> err == MissingHeader
    requires naluHeader.Some? ==>
      EntryFor(unitId, Span(offsetStart, Cut(data, offset), naluHeader.value), probe, probeResultIndex) == Err(err)
    ensures Scan(data, probe) == Err(err)
  {
    if naluHeader.None? {
      ScanFailsWithoutHeader(data, probe, offset);
    } else {
      CloseUnitFails(data, probe, offset, offsetStart, naluHeader, unitId, probeResultIndex, entries, err);
      ScanFailsEarly(data, probe, offset);
    }
  }

  /** One iteration that reads a byte: the loop state moves on, whether or not the byte closed a unit. */
  lemma Advance(data: seq<byte>, probe: seq<Dict>, offset: nat, offsetStart: int,
                naluHeader: Option<byte>, unitId: nat, probeResultIndex: nat, entries: seq<NaluEntry>,
                next: nat, nextStart: int, nextHeader: Option<byte>, nextId: nat, nextCursor: nat, after: seq<NaluEntry>)
    requires offset < |data| && next == offset + 1
    requires LoopState(data, probe, offset, offsetStart, naluHeader, unitId, probeResultIndex, entries)
    requires !IsCut(data, offset) ==>
      nextStart == offsetStart && nextHeader == naluHeader && nextId == unitId && nextCursor == probeResultIndex &&
      after == entries
    requires IsCut(data, offset) && Cut(data, offset) <= offsetStart ==> after == entries
    requires IsCut(data, offset) && Cut(data, offset) > offsetStart ==> (naluHeader.Some? &&
      var e := EntryFor(unitId, Span(offsetStart, Cut(data, offset), naluHeader.value), probe, probeResultIndex);
      e.Ok? && after == entries + [e.value])
    requires IsCut(data, offset) ==>
      var emitted := Cut(data, offset) > offsetStart;
      nextStart == Cut(data, offset) && nextHeader == Some(data[offset]) &&
      nextId == (if emitted then unitId + 1 else unitId) &&
      nextCursor == (if emitted && TakesProbeRecord(naluHeader.value) then probeResultIndex + 1 else probeResultIndex)
    ensures LoopState(data, probe, next, nextStart, nextHeader, nextId, nextCursor, after)
  {
    if IsCut(data, offset) {
      StepAtBoundary(data, probe, offset, next, offsetStart, naluHeader, unitId, probeResultIndex, entries,
        after, nextStart, nextHeader, nextId, nextCursor);
    } else {
      StepWithoutBoundary(data, probe, offset, next, offsetStart, naluHeader, unitId, probeResultIndex, entries);
    }
  }

  /** At the end of the stream the unit in progress takes its entry, which ends one past the last byte. */
  lemma EndsInUnit(data: seq<byte>, probe: seq<Dict>, offsetStart: int,
                   naluHeader: Option<byte>, unitId: nat, probeResultIndex: nat, entries: seq<NaluEntry>)
    requires !IsCut(data, |data|)
    requires LoopState(data, probe, |data|, offsetStart, naluHeader, unitId, probeResultIndex, entries)
    ensures naluHeader.None? ==> Scan(data, probe) == Err(MissingHeader)
    ensures naluHeader.Some? ==>
      var e := EntryFor(unitId, Span(offsetStart, |data| + 1, naluHeader.value), probe, probeResultIndex);
      Scan(data, probe) == if e.Ok? then Ok(entries + [e.value]) else Err(e.error)
  {
    DetectionsIncrease(data, |data|);
    var d := Detections(data, |data|);
    assert Detections(data, |data| + 1) == d;
    if d != [] {
      BuildEntriesSnoc(ClosedSpans(data, d), FinalSpan(data, d), probe);
    }
  }

  /**
   * The boundary branch of the loop: the unit in progress takes its entry when
   * it is not empty, and when that entry fails the whole scan fails with it.
   */
  method CloseAtBoundary(data: seq<byte>, probe: seq<Dict>, index: NaluIndex, offset: nat, offsetStart: int,
                         offsetEnd: int, naluHeader: Option<byte>, unitId: nat, probeResultIndex: nat)
    returns (r: Result<(nat, nat), ScanError>)
    requires offset <= |data| && IsCut(data, offset) && offsetEnd == Cut(data, offset)
    requires LoopState(data, probe, offset, offsetStart, naluHeader, unitId, probeResultIndex, index.entries)
    modifies index
    ensures r.Err? ==> Scan(data, probe) == Err(r.error)
    ensures r.Ok? && offsetEnd <= offsetStart ==>
      index.entries == old(index.entries) && r.value == (unitId, probeResultIndex)
    ensures r.Ok? && offsetEnd > offsetStart ==> (naluHeader.Some? &&
      var e := EntryFor(unitId, Span(offsetStart, offsetEnd, naluHeader.value), probe, probeResultIndex);
      e.Ok? && index.entries == old(index.entries) + [e.value] &&
      r.value == (unitId + 1, if TakesProbeRecord(naluHeader.value) then probeResultIndex + 1 else probeResultIndex))
  {
    r := Ok((unitId, probeResultIndex));
    if offsetEnd > offsetStart {
      ghost var entries := index.entries;
      r := CreateNaluEntry(unitId, index, probe, probeResultIndex, offsetStart, offsetEnd, naluHeader);
      if r.Err? {
        FailsAtBoundary(data, probe, offset, offsetStart, naluHeader, unitId, probeResultIndex, entries, r.error);
      }
    }
  }

  /**
   * `split_nalu` without its file and probe plumbing: one byte read per
   * iteration, the boundary test on the window of the last bytes read, and an
   * entry for each closed unit and for the unit in progress at the end.
   */
  method SplitNalu(data: seq<byte>, probe: seq<Dict>) returns (res: Result<seq<NaluEntry>, ScanError>)
    ensures res == Scan(data, probe)
  {
    var unitId: nat := 0;
    var index := new NaluIndex();
    var offset: nat := 0;
    var offsetStart: int := 0;
    var offsetEnd: int := 0;
    var naluHeader: Option<byte> := None;
    var buffer: seq<byte> := [];
    var probeResultIndex: nat := 0;
    while true
      invariant offset <= |data|
      invariant buffer == Window(data, offset)
      invariant LoopState(data, probe, offset, offsetStart, naluHeader, unitId, probeResultIndex, index.entries)
      decreases |data| - offset
    {
      var cut := StartCodeCut(buffer, offset);
      var newUnit := cut.Some?;
      if newUnit {
        offsetEnd := cut.value;
      }
      BoundaryIsCut(data, offset);
      ghost var at, start, header, id, cursor, entries := offset, offsetStart, naluHeader, unitId, probeResultIndex, index.entries;
      if newUnit {
        var r := CloseAtBoundary(data, probe, index, offset, offsetStart, offsetEnd, naluHeader, unitId, probeResultIndex);
        if r.Err? {
          return Err(r.error);
        }
        unitId, probeResultIndex := r.value.0, r.value.1;
        offsetStart := offsetEnd;
        // The header of the new unit is the byte read next; past the end the read is empty.
        if offset == |data| {
          EndsAtBoundary(data, probe, start, header, id, cursor, entries, index.entries);
          return Err(EmptyHeaderRead);
        }
        naluHeader := Some(data[offset]);
      } else if offset == |data| {
        // The read past the end is empty: the unit in progress ends at the offset after it.
        EndsInUnit(data, probe, offsetStart, naluHeader, unitId, probeResultIndex, index.entries);
        var r := CreateNaluEntry(unitId, index, probe, probeResultIndex, offsetStart, offset + 1, naluHeader);
        if r.Err? {
          return Err(r.error);
        }
        return Ok(index.entries);
      }
      buffer := Shifted(buffer, data[offset]);
      offset := offset + 1;
      WindowShift(data, at, offset);
      Advance(data, probe, at, start, header, id, cursor, entries,
        offset, offsetStart, naluHeader, unitId, probeResultIndex, index.entries);
    }
  }

  // ---------------------------------------------------------------------------
  // The row written for an entry

  /** The structural columns of an entry, in the order `create_nalu_entry` lists them. */
  function StructuralRow(e: NaluEntry): (row: Dict)
    ensures Keys(row) == StructuralKeys && DistinctKeys(row)
  {
    var t := NalUnitType(e.header);
    [("id", Num(e.id)),
     ("offset_start", Num(e.offsetStart)),
     ("offset_end", Num(e.offsetEnd)),
     ("size", Num(e.size)),
     ("nalu_header", Text(HexByte(e.header))),
     ("forbidden_zero_bit", Num(ForbiddenZeroBit(e.header))),
     ("nal_ref_idc", Num(NalRefIdc(e.header))),
     ("nal_unit_type", Num(t)),
     ("nal_unit_type_desc", Text(NalUnitTypeDesc(t)))]
  }

  const StructuralKeys: seq<string> := ["id", "offset_start", "offset_end", "size", "nalu_header",
    "forbidden_zero_bit", "nal_ref_idc", "nal_unit_type", "nal_unit_type_desc"]

  /** The dictionary of an entry: the structural columns, updated with the probe record if it took one. */
  function EntryRow(e: NaluEntry): (row: Dict)
    ensures |StructuralKeys| <= |row| <= |StructuralKeys| + (if e.frame.Some? then |e.frame.value| else 0)
  {
    Update(StructuralRow(e), if e.frame.Some? then e.frame.value else [])
  }

  /**
   * The row's keys are the structural keys followed by the probe record's new
   * keys; a structural column the record does not name keeps the entry's own value.
   */
  lemma EntryRowFields(e: NaluEntry, k: string)
    requires e.frame.Some? ==> DistinctKeys(e.frame.value)
    ensures Keys(EntryRow(e)) == Dedup(StructuralKeys + Keys(if e.frame.Some? then e.frame.value else []))
    ensures var probeKeys := Keys(if e.frame.Some? then e.frame.value else []);
      k in StructuralKeys && k !in probeKeys ==> Lookup(EntryRow(e), k) == Lookup(StructuralRow(e), k)
    ensures k == "nalu_header" && k !in Keys(if e.frame.Some? then e.frame.value else []) ==>
      Lookup(EntryRow(e), k) == Some(Text(HexByte(e.header))) && |HexByte(e.header)| == 4
  {
    var o := if e.frame.Some? then e.frame.value else [];
    assert Keys(StructuralRow(e)) == StructuralKeys;
    assert DistinctKeys(StructuralRow(e));
    UpdateKeys(StructuralRow(e), o);
    if e.frame.None? {
      assert DistinctKeys(o);
    }
    UpdateLookup(StructuralRow(e), o, k);
    LookupAt(StructuralRow(e), 4);
  }
}
