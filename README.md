# drop-h264-iframes: the splitter and the rebuild, in Dafny

`drop_h264_iframes.py` makes a "datamosh" by working on a raw H.264 Annex B byte stream in two passes.

- **Split.** `split_nalu` cuts the stream into NAL units at the start codes `00 00 01` and `00 00 00 01`. It records one index row per unit, built by `create_nalu_entry`. Each row holds:
  - the unit's offsets and size;
  - its header byte and the three header fields;
  - the label of its `nal_unit_type`;
  - for every unit whose type is not 6, 7 or 8 (SEI, SPS, PPS), the next ffprobe frame record.
- **Rebuild.** `rebuild` reads the index back and copies the stream chunk by chunk. It leaves out every "I" picture after the first.

This project models both passes and the table code between them:

| file | module | what it models |
|---|---|---|
| `results.dfy` | `Results` | `Option` and `Result`, used for the error paths |
| `nal_header.dfy` | `NalHeader` | the header bit fields, `NAL_UNIT_TYPES`, the probe exclusion of types 6, 7 and 8, and the `"0x%02X"` header text |
| `fieldnames.dfy` | `Fieldnames` | `get_fieldnames` as a loop (`GetFieldnames`), proved against `Dedup(Flatten(items))` |
| `records.dfy` | `Records` | Python dictionaries as insertion-ordered pairs, `d[k] = v`, `d.update(o)`, and `str`/`int` round trips of integer cells |
| `splitter.dfy` | `Splitter` | the boundary rule, a declarative specification `Scan` of the whole split, `create_nalu_entry` as a method that appends to a `NaluIndex` object, and `split_nalu`'s loop as `SplitNalu`, proved equal to `Scan` |
| `rebuild.dfy` | `Rebuild` | the source file as a class with a read cursor, and `rebuild`'s loop as `Rebuild`, proved equal to the specification `Rebuilt` |
| `pipeline.dfy` | `Pipeline` | the index row written for each entry, read back as `rebuild` reads it, and the end-to-end round trip |

### The scan

The loop reads the stream one byte per iteration. At the top of the iteration at `offset`, the buffer holds the last `min(4, offset)` bytes read (`Splitter.Window`). `IsCut(data, offset)` says a start code prefix ends just before `offset`. The unit in progress then ends at `Cut(data, offset)`: 4 bytes back when a zero byte precedes the prefix, 3 bytes back otherwise.

`Detections(data, k)` lists the boundary offsets below `k`. Unit `i` runs from cut `i` to cut `i + 1`, and its header is the byte at detection `i`. `Scan` turns those units into entries and ends the last unit at `|data| + 1`.

`SplitNalu` is the Python loop with the same variables:
- an `offsetEnd` that holds the last cut found, 0 until the first;
- a `NaluIndex` object whose `entries` field `CreateNaluEntry` appends to;
- an explicit check for the empty read at the end.

The boundary branch emits the unit in progress when it is not empty; that step is the method `CloseAtBoundary`. `SplitNalu` then starts the next unit at the cut and reads its header byte.

It is proved to return exactly `Scan(data, probe)`. The loop invariant `LoopState` ties the variables to the detections below `offset`.

### Errors

The code has no explicit error handling. Three inputs make it raise, and the model returns them as `Splitter.ScanError` values:
- **`MissingHeader`.** A unit is emitted before any header byte was read. `nalu_header` is still `None`, and `None >> 7` raises a TypeError. This happens exactly when the stream does not open with a start code.
- **`EmptyHeaderRead`.** The stream ends right after a start code, so `next_byte[0]` is evaluated on `b""`.
- **`ProbeExhausted`.** `probe_result[probe_result_index]` runs past the end of the probe records.

The exclusion at line 118 lists only types 6, 7 and 8. Every other type takes a probe record, including units that carry no picture: type 0, access unit delimiters (9), end of sequence and end of stream (10, 11), filler data (12), SPS extensions (13), prefix units (14), subset SPS (15) and the reserved and unspecified types. ffprobe reports one record per frame, so a stream that holds such units uses up records that belong to later slices. The model keeps this as the code has it (`NalHeader.TakesProbeRecord`).

For the rebuild, `Pipeline.IndexError` covers:
- a missing `size` or `pict_type` column (KeyError);
- a size cell that `int()` rejects.

### Edge cases of the code

- **Start of the stream.** A unit emitted while `nalu_header` is still `None` raises. So any stream that does not begin with a start code fails with `MissingHeader` (`Splitter.ScanMissingHeader`), even one with no start code at all.
- **End of the last unit.** The last unit ends at `offset`, which is incremented once more after the empty read, so it ends at `|data| + 1` (`Splitter.ScanUnits`). `rebuild`'s read clamps at the end of the file, so the round trip still reproduces the stream (`Pipeline.NoIFramesRoundTrip`).
- **An example.** `00 00 00 01 67 AA 00 00 01 65 BB 00 00 01 65 CC` splits into units of 6, 5 and 6 bytes: each unit runs from its start code to the next, and the last ends one past the stream.
- **Reads past the end.** `infile.read(n)` past the end of the file returns the remaining bytes, so no read in `rebuild` fails (`Rebuild.ReadChunk`).

## Model

All source paths are in `drop-h264-iframes/drop_h264_iframes.py`.

| member | source | states |
|---|---|---|
| NalHeader.EncodeDecode | drop-h264-iframes/drop_h264_iframes.py:102-104 | the three extracted fields (`h >> 7`, `h >> 5 & 3`, `h & 31`) re-encode to the header byte, so no bit is lost |
| NalHeader.DecodeEncode | drop-h264-iframes/drop_h264_iframes.py:102-104 | each field of a byte built from in-range fields is extracted back unchanged |
| NalHeader.ForbiddenZeroBit | drop-h264-iframes/drop_h264_iframes.py:102 | `forbidden_zero_bit` of any header byte is 0 or 1 |
| NalHeader.NalRefIdc | drop-h264-iframes/drop_h264_iframes.py:103 | `nal_ref_idc` of any header byte is in 0..3 |
| NalHeader.NalUnitType | drop-h264-iframes/drop_h264_iframes.py:104 | the type of any header byte is in 0..31 |
| NalHeader.NalUnitTypeDesc | drop-h264-iframes/drop_h264_iframes.py:11-44 | every 5-bit type has a non-empty label in the table |
| NalHeader.ClassifierTotal | drop-h264-iframes/drop_h264_iframes.py:115 | `NAL_UNIT_TYPES[nal_unit_type]` never fails: every header byte has a type in range with a label |
| NalHeader.ExcludedTypesAreParameterSets | drop-h264-iframes/drop_h264_iframes.py:118 | `TakesProbeRecord`, the test `nal_unit_type not in [6, 7, 8]`, fails exactly when the type's label is SEI, sequence parameter set or picture parameter set; every other type, picture or not, takes a record |
| NalHeader.HexByte | drop-h264-iframes/drop_h264_iframes.py:111 | the header text always has four characters and starts with `0x` |
| NalHeader.HexByteRoundTrip | drop-h264-iframes/drop_h264_iframes.py:111 | the `"0x%02X"` text parses back to the header byte |
| Records.PutKeys | drop-h264-iframes/drop_h264_iframes.py:119 | `d[k] = v` keeps the key order and appends a new key at the end |
| Records.UpdateKeys | drop-h264-iframes/drop_h264_iframes.py:119 | after `entry.update(record)` the keys are the entry's keys followed by the record's new keys, in first-seen order |
| Records.UpdateLookup | drop-h264-iframes/drop_h264_iframes.py:119 | after `update`, a key of the record has the record's value and every other key keeps the entry's value |
| Records.Put | drop-h264-iframes/drop_h264_iframes.py:119 | `d[k] = v` then maps `k` to `v`, and adds at most one pair |
| Records.Update | drop-h264-iframes/drop_h264_iframes.py:119 | `d.update(o)` has at least as many pairs as `d` and at most as many more as `o` has; the key order and the values (a key of `o` takes `o`'s value) are stated by `UpdateKeys` and `UpdateLookup` |
| Records.DecimalRoundTrip | drop-h264-iframes/drop_h264_iframes.py:192 | `int(str(n)) == n` for every integer a row holds |
| Records.NumberIsNotPictType | drop-h264-iframes/drop_h264_iframes.py:193 | no integer cell reads as the picture type "I" |
| Fieldnames.GetFieldnames | drop-h264-iframes/drop_h264_iframes.py:169-175 | the nested loop returns every key of every row, each key once, nothing else, in first-seen order |
| Fieldnames.UnionOfKeys | drop-h264-iframes/drop_h264_iframes.py:169-175 | the ordered union of the row keys has no duplicates, contains exactly the keys of the rows, and lists them by first occurrence |
| Fieldnames.DedupFirstSeen | drop-h264-iframes/drop_h264_iframes.py:173-174 | appending only keys not yet listed orders them by their first occurrence |
| Fieldnames.FlattenMembership | drop-h264-iframes/drop_h264_iframes.py:171-172 | a key occurs in the keys visited by the loops exactly when some row has it |
| Fieldnames.DedupAbsorb | drop-h264-iframes/drop_h264_iframes.py:171-174 | continuing the loop from a deduplicated partial list gives the same list as deduplicating everything at once |
| Splitter.Window | drop-h264-iframes/drop_h264_iframes.py:159-162 | the buffer at the top of the loop has min(4, offset) bytes, the last ones read |
| Splitter.StartCodeCut | drop-h264-iframes/drop_h264_iframes.py:139-147 | the three tests on the buffer, in the code's order, succeed exactly on a 3-byte `00 00 01` buffer or a 4-byte buffer ending in `00 00 01`; the cut is 4 bytes back when that buffer opens with a zero byte, so the `00 00 00 01` test wins, and 3 bytes back otherwise |
| Splitter.WindowShift | drop-h264-iframes/drop_h264_iframes.py:159-162 | the buffer update (`Shifted`) appends the byte read and drops the oldest once four are held, which keeps the window invariant |
| Splitter.Boundary | drop-h264-iframes/drop_h264_iframes.py:139-147 | the three window tests succeed exactly when `00 00 01` ends just before the offset (or the first three bytes are `00 00 01`); the unit ends 4 bytes back when a zero byte precedes the prefix, 3 bytes back otherwise |
| Splitter.BoundaryIsCut | drop-h264-iframes/drop_h264_iframes.py:139-147 | the window test detects exactly the boundaries `IsCut`, and `offset_end` is `Cut` |
| Splitter.CutsIncrease | drop-h264-iframes/drop_h264_iframes.py:149 | two boundaries are never adjacent, so a later boundary always cuts strictly later |
| Splitter.Detections | drop-h264-iframes/drop_h264_iframes.py:137-162 | every detection below k is a boundary below k |
| Splitter.DetectionsIncrease | drop-h264-iframes/drop_h264_iframes.py:137-162 | detections are boundaries in strictly increasing order, and all but the last lie inside the stream |
| Splitter.DetectionsComplete | drop-h264-iframes/drop_h264_iframes.py:137-162 | no boundary is missed |
| Splitter.FirstDetection | drop-h264-iframes/drop_h264_iframes.py:139-144 | a stream opening with `00 00 01` has its first boundary at 3, and one opening with `00 00 00 01` at 4 |
| Splitter.FirstCutAtZero | drop-h264-iframes/drop_h264_iframes.py:149-151 | the first unit starts at offset 0 exactly when the stream opens with a start code |
| Splitter.EntryFor | drop-h264-iframes/drop_h264_iframes.py:117-120 | a unit's entry is built unless its type is not 6, 7 or 8 and no probe record is left, and then the error is `ProbeExhausted` |
| Splitter.ProbeRecordsUsed | drop-h264-iframes/drop_h264_iframes.py:117-123 | the probe cursor never exceeds the number of entries |
| Splitter.BuildEntriesCount | drop-h264-iframes/drop_h264_iframes.py:117-123 | one entry per unit, and the probe cursor ends at the number of units whose type is not 6, 7 or 8, never past the records |
| Splitter.BuildEntriesShape | drop-h264-iframes/drop_h264_iframes.py:105-123 | entry i has id i, the unit's offsets, `size = offset_end - offset_start` and its header; units of any other type than 6, 7 and 8 hold the probe record at their cursor, and types 6, 7 and 8 hold none |
| Splitter.BuildEntriesFails | drop-h264-iframes/drop_h264_iframes.py:119 | building fails exactly when there are more units of a type other than 6, 7 and 8 than probe records, and then with `ProbeExhausted` |
| Splitter.BuildEntriesPrefixErr | drop-h264-iframes/drop_h264_iframes.py:150 | once an entry fails, the whole split fails with that error |
| Splitter.ScanUnits | drop-h264-iframes/drop_h264_iframes.py:126-162 | a successful split gives one entry per boundary, with consecutive ids, each starting at its cut with the header byte read after it; the entries are contiguous, none empty, from 0 to `len(data) + 1` |
| Splitter.ScanProbeRecords | drop-h264-iframes/drop_h264_iframes.py:117-123 | the probe records are handed out in order, one per unit whose type is not 6, 7 or 8, none to types 6, 7 and 8, never more than there are |
| Splitter.ScanMissingHeader | drop-h264-iframes/drop_h264_iframes.py:149-157 | the split fails on a `None` header exactly when the stream does not open with a start code |
| Splitter.ScanEndsWithStartCode | drop-h264-iframes/drop_h264_iframes.py:152-155 | a stream that ends right after a start code never splits; when the failure is the empty header read, that is the cause |
| Splitter.Scan | drop-h264-iframes/drop_h264_iframes.py:126-162 | the whole split as a specification: it succeeds only on a stream that opens with a start code |
| Splitter.EntriesTile | drop-h264-iframes/drop_h264_iframes.py:105-110 | entries built from contiguous units are contiguous, with size the difference of their offsets |
| Splitter.CreateNaluEntry | drop-h264-iframes/drop_h264_iframes.py:101-123 | appends exactly the unit's entry to the index and returns the next id and the cursor advanced by one for units whose type is not 6, 7 or 8; a `None` header or an exhausted probe list fails and appends nothing |
| Splitter.CloseAtBoundary | drop-h264-iframes/drop_h264_iframes.py:148-151 | at a boundary, the unit in progress takes its entry only when it is not empty, and otherwise the index and counters are unchanged; a failing entry fails the whole split with the same error |
| Splitter.EndsInUnit | drop-h264-iframes/drop_h264_iframes.py:156-158 | at the empty read, the unit in progress is emitted ending at the incremented offset, and that completes the split |
| Splitter.Advance | drop-h264-iframes/drop_h264_iframes.py:137-162 | one iteration that reads a byte keeps the loop invariant, whether or not the byte closes a unit |
| Splitter.FailsAtBoundary | drop-h264-iframes/drop_h264_iframes.py:148-150 | a unit that fails to take its entry at a boundary fails the whole split with that error |
| Splitter.SplitNalu | drop-h264-iframes/drop_h264_iframes.py:126-162 | the loop returns exactly `Scan(data, probe)`: the entries or the error of the split |
| Splitter.StructuralRow | drop-h264-iframes/drop_h264_iframes.py:106-116 | the structural columns are exactly `id`, `offset_start`, `offset_end`, `size`, `nalu_header`, `forbidden_zero_bit`, `nal_ref_idc`, `nal_unit_type`, `nal_unit_type_desc`, in that order and without repetition |
| Splitter.EntryRow | drop-h264-iframes/drop_h264_iframes.py:106-119 | the entry's dictionary holds at least the structural columns and at most as many more as the probe record has pairs |
| Splitter.EntryRowFields | drop-h264-iframes/drop_h264_iframes.py:106-119 | a row's keys are the structural keys in the source's order followed by the probe record's new keys; a structural column the record does not name keeps the entry's value, and the header column is the 4-character hex text |
| Rebuild.ReadChunk | drop-h264-iframes/drop_h264_iframes.py:192 | `read(n)` returns the next `min(n, remaining)` bytes of the file, or everything left for a negative `n` |
| Rebuild.SourceFile.Read | drop-h264-iframes/drop_h264_iframes.py:192 | the read returns the chunk at the cursor and moves the cursor past it |
| Rebuild.Rebuild | drop-h264-iframes/drop_h264_iframes.py:188-198 | the loop writes exactly `Rebuilt(index, source)` |
| Rebuild.Rebuilt | drop-h264-iframes/drop_h264_iframes.py:191-198 | the specification of the output: never longer than the bytes the read cursor has passed |
| Rebuild.PrefixStep | drop-h264-iframes/drop_h264_iframes.py:191-198 | every row is read, so the cursor advances even past a dropped row; the output grows by the chunk only when the row is kept; `first` clears at the first "I" |
| Rebuild.CursorIsSizeSum | drop-h264-iframes/drop_h264_iframes.py:191-192 | with non-negative sizes, the cursor is the sum of the sizes, stopped at the end of the file |
| Rebuild.AllChunksArePrefix | drop-h264-iframes/drop_h264_iframes.py:191-192 | each chunk is read where the previous one ended, so all of them together are the file up to the cursor |
| Rebuild.DropsLaterI | drop-h264-iframes/drop_h264_iframes.py:193-197 | after an "I" row, a row is written exactly when it is not "I" |
| Rebuild.FirstIKept | drop-h264-iframes/drop_h264_iframes.py:193-195 | when there is an "I" row, the first of them is written |
| Rebuild.KeepsAllWithOneI | drop-h264-iframes/drop_h264_iframes.py:193-198 | with at most one "I" row, every chunk is written, in order |
| Rebuild.ReproducesSource | drop-h264-iframes/drop_h264_iframes.py:188-198 | with at most one "I" row and sizes that cover the file, the output is the file |
| Rebuild.RebuiltLength | drop-h264-iframes/drop_h264_iframes.py:191-198 | the bytes written plus the bytes of the dropped chunks are the bytes read |
| Pipeline.ColumnsAreKeys | drop-h264-iframes/drop_h264_iframes.py:164 | a column of the index file is exactly a key of some entry's dictionary |
| Pipeline.ReadRow | drop-h264-iframes/drop_h264_iframes.py:192-193 | a line reads back exactly when the `size` and `pict_type` columns exist and the size cell is an integer; then the row has that integer and the `pict_type` cell, and a missing `size` column is reported first |
| Pipeline.SizeReadsBack | drop-h264-iframes/drop_h264_iframes.py:192 | the `size` cell of a row reads back through `int()` as the unit's size |
| Pipeline.PictTypeKey | drop-h264-iframes/drop_h264_iframes.py:119 | a row has a `pict_type` key exactly when its probe record has one |
| Pipeline.PictTypeReadsBack | drop-h264-iframes/drop_h264_iframes.py:193 | a row reads as "I" only when its probe record says "I" |
| Pipeline.ScanColumns | drop-h264-iframes/drop_h264_iframes.py:164 | the index always has a `size` column, and has a `pict_type` column exactly when some probe record has one |
| Pipeline.ReadRowsOk | drop-h264-iframes/drop_h264_iframes.py:185-193 | when both columns exist and every size is an integer, each line reads back as one row with its size and picture type |
| Pipeline.ReadRowsStops | drop-h264-iframes/drop_h264_iframes.py:191-193 | the first line that cannot be read stops the rebuild with its error, whatever follows |
| Pipeline.MissingPictType | drop-h264-iframes/drop_h264_iframes.py:193 | without any `pict_type` in the probe records, the rebuild fails at the first line on the missing column |
| Pipeline.SizeSumOfTiles | drop-h264-iframes/drop_h264_iframes.py:192 | the sizes of the first k rows of a contiguous index add up to where unit k - 1 ends |
| Pipeline.IndexReadsBack | drop-h264-iframes/drop_h264_iframes.py:185-193 | with no "I" record and a `pict_type` column, every line reads back with its entry's size and a type other than "I" |
| Pipeline.TiledIndexRoundTrip | drop-h264-iframes/drop_h264_iframes.py:184-198 | a contiguous index from 0 to `len(data) + 1`, free of "I" pictures, rebuilds the stream unchanged |
| Pipeline.NoIFramesRoundTrip | drop-h264-iframes/drop_h264_iframes.py:126-198 | splitting a stream and rebuilding it from its index, with no probe record of type "I", returns the stream itself |

## Left out

- `encode_h264`, `probe`, the ffmpeg remux at the end of `rebuild`, `setup_directory`, `preprocess` and `main`: they run external tools and touch the filesystem. The ffprobe frame records are a parameter, a sequence of dictionaries.
- Progress output (`print` in `create_nalu_entry`, `tqdm`): output only.
- CSV quoting, encoding and the file round trip: an index line is the entry's dictionary. A cell reads back as `str` of its value, and as `""` under a column the row lacks, as `DictReader` gives it. Probe fields are integers or text; ffprobe's floats and booleans are not modelled.
- `int()`'s leniency (surrounding spaces, `+`, underscores): `ParseInt` accepts an optional `-` followed by decimal digits. That covers every cell the splitter writes.
- The partial output files left behind when a pass raises: a failure is a `Result` error, and no output is modelled.
- H.264 emulation-prevention bytes (section 7.4.1 of ITU-T H.264): the scanner does not handle them, so neither does the model.
- `drop_xvid_iframes.py`, `audacity.py`, `optical_flow_transfer.py` and `master.js` are not part of this model.
- Pipeline.PictTypeReadsBack: only the direction needed for the round trip ("I" in the index implies an "I" record) is stated. The label a record gives is not otherwise traced through `str`.
- Pipeline.NoIFramesRoundTrip: covers the stream without "I" pictures, where nothing is dropped. With "I" pictures, what is dropped is stated by the Rebuild lemmas over the rows read back.
