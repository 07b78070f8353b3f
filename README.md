# SegyPY header and trace reading, in Dafny

A model of the reading core of SegyPY (`segypy.py`), a Python 2 reader for
SEG-Y seismic files. A SEG-Y file starts with a 3200-byte textual header and
a 400-byte binary header. Traces follow. Each trace is a 240-byte trace
header followed by `ns` four-byte samples. Every number is big-endian.

The model covers the following parts of `segypy.py`:

- **The two field catalogs.** `SH_def` describes the binary header and
  `STH_def` the trace header. Each entry has a name, a byte position, a type
  tag and an optional element count. They are modelled as sequences of
  `FieldDef` in declaration order. `Catalog.Lookup` gives the dictionary's
  semantics: a name given twice keeps its last entry.
- **`getValue`.** The type-tag dispatch, the slice `data[index:index_end]`
  with Python's clipping at the end of the string, `struct.unpack` with the
  `'>'` prefix, and the scalar-or-tuple result with the end offset.
  `Values.GetValue` is specified against a reference encoder
  (`EncodeScalar`/`EncodeRun`, standing for `struct.pack`). Decoding and
  encoding are proved to be inverse.
- **The layout arithmetic.**
  - the trace count `(filesize-3600)/(ns*4+240)`, with Python 2 floor
    division;
  - the trace-header field offset `THpos+3600+(ns*4+240)*(itrace-1)`;
  - the sample offset of `getSegyTrace`.
- **`getSegyHeader`, `getSegyTraceHeader` and `getAllSegyTraceHeaders`.**
  These are methods with loops. `getSegyTraceHeader` fills a fresh array in
  place, as `zeros(ntraces)` does. Each is proved against a specification
  function: `FieldsRead` for the header dictionary, `ColumnValues` for a
  column of trace-header values.
- **`ibm2ieee`.** The IBM System/360 single-precision float decoder, modelled
  over exact reals.

The source has six defects, listed under Findings. For each, the Dafny
keeps a member that models the code as written, with a lemma that shows the
discrepancy. It also keeps a corrected member, which the rest of the model
uses.

Two points where the source reads differently from how it looks:

- **`SweepFrequencyStart` is part of `SH_def`.** In `segypy.py:75` it follows
  a bare carriage return, after the `#` comment of `VerticalSumCode`.
  Python 2 imports modules with universal newlines, so that carriage return
  ends the line. The assignment therefore runs. `STH_def["NSummedTraces"]`
  at `segypy.py:139` is in the same situation. With both entries present,
  `SH_def` tiles bytes 3200-3599 exactly as written (`Catalog.ShDefTiles`).
- **Trace positions.** The textual and binary headers together take 3600
  bytes (`SH_def` ends at byte 3600), and three readers count the trace area
  from there:
  - `getSegyHeader` derives the trace count from `filesize-3600`
    (`segypy.py:503`), and `readSegy` does the same (`segypy.py:386`);
  - `getSegyTraceHeader` reads field `THpos` of trace `itrace` at
    `THpos+3600+(ns*4+240)*(itrace-1)` (`segypy.py:343`);
  - the division floors, so trailing bytes that do not fill a whole trace are
    dropped silently, and a file shorter than 3600 bytes gives a negative
    count.

  Two readers count from 3200 instead. `getSegyTrace` starts trace `itrace`
  at `3200+(ns*4+240)*(itrace-1)` and its samples 240 bytes later
  (`segypy.py:477`, `segypy.py:482`). The sample read of `readSegy` starts at
  byte 3200, reads `(filesize-3200)/4` words and drops the first 60 of them
  (`segypy.py:400-416`), so its first sample is at byte 3440, as in
  `getSegyTrace`. The model takes 3600 as the intended base, the end of the
  3600-byte header that the other three readers use (see "Findings").

Files:

- `wrappers.dfy`: `Option` and `Result`.
- `bytes.dfy`: big-endian integers and two's complement.
- `values.dfy`: `getValue`.
- `catalog.dfy`: `SH_def`, `STH_def` and their tiling properties.
- `layout.dfy`: file offsets.
- `ibm.dfy`: `ibm2ieee`.
- `extract.dfy`: `getSegyHeader`, `getSegyTraceHeader`,
  `getAllSegyTraceHeaders` and `getSegyTrace`.

## Model

| member | source | states |
|---|---|---|
| Bytes.BigEndian | segypy.py:547 | the value of an n-byte big-endian string is below 256^n |
| Bytes.BigEndianOfToBigEndian | segypy.py:547 | reading back the big-endian bytes of a value gives the value |
| Bytes.ToBigEndianOfBigEndian | segypy.py:547 | re-encoding a decoded byte string gives the same bytes, so decoding loses nothing |
| Bytes.BigEndianFront | segypy.py:547 | the first byte carries weight 256^(n-1): most significant byte first |
| Bytes.TwosComplement | segypy.py:547 | the signed reading of n bytes lies in [-2^(8n-1), 2^(8n-1)), is negative exactly when the unsigned pattern is at least 2^(8n-1), and maps back to the same pattern |
| Bytes.FromTwosComplement | segypy.py:547 | the pattern of a signed value is below 256^n and below 2^(8n-1) exactly for non-negative values |
| Bytes.SignedNegativeIffTopBit | segypy.py:547 | a signed big-endian value is negative exactly when bit 7 of its first byte is set |
| Values.Size | segypy.py:49-55 | element widths under the '>' prefix: 4 bytes for int32, uint32 and float, 2 for the 16-bit types, 1 for the two byte types |
| Values.ParseTagNames | segypy.py:517-537 | the catalog tag and the struct format character of every type both select that type |
| Values.ParseTag | segypy.py:514-536 | a tag is accepted exactly when it is one of the 18 spellings getValue tests; a one-letter tag is the struct format character of the type it selects |
| Values.EncodeScalar | segypy.py:547 | the reference encoder succeeds exactly for values in the type's range and yields Size(p) bytes |
| Values.DecodeScalar | segypy.py:547 | a decoded element lies in its type's range (signed, unsigned, byte) and encodes back to exactly the bytes read |
| Values.DecodeEncodeScalar | segypy.py:547 | decoding what the encoder wrote gives back the value |
| Values.EncodeScalarInjective | segypy.py:547 | two in-range values with the same bytes are equal |
| Values.EncodeRun | segypy.py:542-547 | a run encodes exactly when every element is in range, into Size(p)*len bytes |
| Values.EncodeRunPrepend | segypy.py:542-547 | prepending an element prepends its encoding |
| Values.DecodeRun | segypy.py:542-547 | number elements read from index: number items whose encoding is exactly the bytes index..index+size*number |
| Values.EncodeRunAt | segypy.py:542-547 | element k of a run is encoded by bytes size*k..size*(k+1) of the run |
| Values.SliceLength | segypy.py:547 | Python's clipped slice is as long as asked exactly when it ends inside the string or is empty |
| Values.Unpack | segypy.py:542-557 | the unpack step: success exactly when number is 0 or index+size*number fits; struct.error otherwise; end offset index+size*number; a scalar exactly when number == 1; contents tied to the bytes through the encoder |
| Values.GetValue | segypy.py:513-557 | an unknown tag fails; otherwise success iff the run fits, the end offset is index+size*number, number == 1 gives a scalar and any other number a tuple of number items, and the result re-encodes to exactly the bytes read |
| Values.GetValueSingle | segypy.py:554-555 | with number == 1 and the element inside the data, the result is the one scalar decoded from its bytes, with the offset just past it |
| Values.GetValueElement | segypy.py:542-557 | in a multi-element read, item k is the value decoded from bytes index+size*k..index+size*(k+1) |
| Values.ElementOfRun | segypy.py:547 | items that encode to a run of bytes are, one by one, the decodings of their own slices |
| Values.NativeSize | segypy.py:49-55 | the native widths the code takes differ from the standard widths only for 'l' and 'L' |
| Values.GetValueAsWrittenOnIlp32 | segypy.py:513-557 | on a host with a 4-byte C long, getValue as written equals the corrected reader on every input |
| Values.GetValueAsWritten | segypy.py:513-557 | getValue as written, with the calcsize widths of lines 49-55: an unknown tag is unsupported; on success the end offset is index plus native width times number, and the values are those the corrected getValue returns |
| Values.Lp64LongReadFails | segypy.py:49-55 | on an LP64 host every in-bounds read of a 32-bit field fails as written, and the corrected reader succeeds |
| Values.Lp64JobFieldFails | segypy.py:63 | the read of SH_def "Job" (int32 at 3200) from a 3600-byte file fails as written on LP64 and succeeds corrected |
| Catalog.Lookup | segypy.py:336 | a name is found exactly when some entry has it, and the entry found carries that name |
| Catalog.LookupAt | segypy.py:63-94 | an entry whose name no later entry reuses is what the dictionary holds for that name |
| Catalog.StHDefMovesTwoFields | segypy.py:183-257 | the corrected STH_def has the same length as the one as written and differs only at GainType (now 118) and ShotPoint (now 196) |
| Catalog.StHDef | segypy.py:98-308 | the corrected STH_def has 91 entries, with GainType as int16 at 118 and ShotPoint as int32 at 196 |
| Catalog.TilesOfRun | segypy.py:63-94 | a run of adjacent, non-empty fields from lo to hi is a tiling |
| Catalog.ChainedRun | segypy.py:63-94 | a run checked entry by entry is adjacent, non-empty and integer-typed |
| Catalog.TilesAppend | segypy.py:63-94 | two tilings that meet make one tiling |
| Catalog.TilesOrdered | segypy.py:63-94 | in a tiling an earlier field ends before a later one starts |
| Catalog.TilesWithin | segypy.py:63-94 | in a tiling of [lo, hi) every field lies within [lo, hi) |
| Catalog.TilesCover | segypy.py:63-94 | every byte of a tiled range belongs to some field |
| Catalog.TilesPartition | segypy.py:63-94 | every byte of a tiled range belongs to exactly one field |
| Catalog.ShDefIdentificationRun | segypy.py:63-75 | SH_def Job..VerticalSumCode tile bytes 3200-3231 and hold integers |
| Catalog.ShDefSweepAndGainRun | segypy.py:75-88 | SH_def SweepFrequencyStart..VibratoryPolarityCode tile bytes 3232-3259 and hold integers |
| Catalog.ShDefReservedRun | segypy.py:89-94 | SH_def Unassigned1..Unassigned2 tile bytes 3260-3599 and hold integers |
| Catalog.TraceIdentificationFieldsRun | segypy.py:98-141 | STH_def TraceSequenceLine..DataUse tile bytes 0-35 |
| Catalog.ElevationAndCoordinateFieldsRun | segypy.py:146-160 | STH_def offset..CoordinateUnits tile bytes 36-89 |
| Catalog.VelocityStaticAndTimingFieldsRun | segypy.py:169-182 | STH_def WeatheringVelocity..dt tile bytes 90-117 |
| Catalog.GainAndSweepFieldsRun | segypy.py:183-209 | GainType sits at 119 as written, and the fields after it tile bytes 120-137 |
| Catalog.FilterFieldsRun | segypy.py:210-224 | STH_def TaperType..HighCutSlope tile bytes 138-155 |
| Catalog.RecordingTimeAndGeophoneFieldsRun | segypy.py:225-245 | STH_def YearDataRecorded..OverTravel tile bytes 156-179 |
| Catalog.PositionFieldsRun | segypy.py:253-257 | cdpX..Crossline3D tile bytes 180-195, and ShotPoint sits at 192 with Crossline3D as written |
| Catalog.SourceFieldsRun | segypy.py:258-308 | STH_def ShotPointScalar..UnassignedInt2 tile bytes 200-239 |
| Catalog.ShDefTiles | segypy.py:63-94 | SH_def covers the binary header, bytes 3200-3599, field by field without gap or overlap |
| Catalog.ShDef | segypy.py:63-94 | SH_def has 32 entries; the first starts at byte 3200 and the last ends at byte 3600 |
| Catalog.ShDefReservedRanges | segypy.py:89-94 | Unassigned1 (120 int16 words from 3260) ends at 3500, where the revision number starts; Unassigned2 (47 words from 3506) ends at 3600 |
| Catalog.ShDefWithin | segypy.py:63-94 | SH_def has 32 integer-typed entries, all within bytes 3200-3599 |
| Catalog.ShDefFirstElementsEnd | segypy.py:493-497 | the single elements getSegyHeader reads all end by byte 3508, and the last one ends there |
| Catalog.ShDefNs | segypy.py:70 | SH_def["ns"] is the uint16 at bytes 3220-3221 |
| Catalog.StHDefFrontTiles | segypy.py:98-209 | with GainType at 118, STH_def up to SweepTraceTaperLengthEnd tiles bytes 0-137 |
| Catalog.StHDefTiles | segypy.py:98-308 | with the two fields moved, STH_def covers the 240-byte trace header without gap or overlap |
| Catalog.StHDefIntegerTyped | segypy.py:98-308 | every STH_def entry has an integer type |
| Catalog.StHDefWithin | segypy.py:98-308 | STH_def has 91 integer-typed entries, each ending by byte 240; the last is UnassignedInt2 at 236 |
| Catalog.StHDefAsWrittenWithin | segypy.py:98-308 | even as written, every STH_def entry lies inside the 240-byte trace header |
| Catalog.StHDefAsWritten | segypy.py:98-308 | STH_def as written has 91 entries from byte 0 to byte 240, with GainType at 119 and ShotPoint at 192 |
| Catalog.StHDefAsWrittenOverlaps | segypy.py:183-257 | as written, GainType (119-120) and InstrumentGainConstant share byte 120, Crossline3D and ShotPoint both sit at 192, and the catalog is not a tiling |
| Catalog.StHDefAsWrittenGaps | segypy.py:183-257 | as written, byte 118 and bytes 196-199 belong to no STH_def field |
| Layout.TraceCount | segypy.py:503 | for a file of at least 3600 bytes the count is the number of whole traces, with leftover bytes dropped; a shorter file gives a negative count |
| Layout.TraceFieldOffset | segypy.py:343 | the field offset is the start of trace itrace plus the field's position |
| Layout.TracesAdjacent | segypy.py:343 | trace i+1 starts where the samples of trace i end, and traces do not overlap |
| Layout.TraceFieldOffsetMonotone | segypy.py:343 | a later trace's copy of a field lies further into the file |
| Layout.TraceFieldInFile | segypy.py:386 | with the derived trace count, a field's copy in any trace lies in that trace's header and the trace lies in the file |
| Layout.TraceStartAsWrittenShort | segypy.py:477-482 | getSegyTrace's offsets fall 400 bytes short of the trace; the first trace's samples would start at 3440, inside the binary header |
| Layout.TraceStartAsWritten | segypy.py:477 | getSegyTrace's header offset is 400 bytes before the start of the trace |
| Layout.TraceDataStartAsWritten | segypy.py:482 | getSegyTrace's sample offset is 400 bytes before the first sample; for the first trace it lies inside the binary header |
| IbmFloat.IbmWord | segypy.py:572-574 | sign bit, characteristic and fraction are recovered from the word they build |
| IbmFloat.IbmWordOfFields | segypy.py:572-574 | a word is rebuilt from its three fields |
| IbmFloat.Pow16 | segypy.py:575 | 16**k is positive for every integer k |
| IbmFloat.Pow16Step | segypy.py:575 | 16**k is sixteen times 16**(k-1) |
| IbmFloat.Pow16Monotone | segypy.py:575 | 16**k grows with k |
| IbmFloat.FractionValue | segypy.py:574 | the fraction lies in [0, 1) and is zero exactly when its 24 bits are |
| IbmFloat.Magnitude | segypy.py:575 | the magnitude lies in [0, 16^e) and is zero exactly when the fraction is |
| IbmFloat.IbmToReal | segypy.py:570-575 | the decoded value is zero iff the fraction is, negative iff the sign bit is set and the fraction non-zero, and below 16^exponent in magnitude |
| IbmFloat.IbmBound | segypy.py:573-575 | every word, whatever its characteristic, decodes to a value strictly between -16^63 and 16^63 |
| IbmFloat.MagnitudeScaled | segypy.py:574-575 | dividing out the power of sixteen recovers the 24-bit fraction |
| IbmFloat.NormalizedMagnitude | segypy.py:575 | a normalised fraction puts the magnitude in [16^(e-1), 16^e) |
| IbmFloat.MagnitudeOrdered | segypy.py:575 | with normalised fractions, a smaller exponent gives a smaller magnitude |
| IbmFloat.MagnitudeInjective | segypy.py:575 | normalised fields with equal magnitude are equal |
| IbmFloat.NormalizedInjective | segypy.py:570-575 | distinct normalised words decode to distinct numbers |
| IbmFloat.UnpackWord | segypy.py:571 | '>I' unpacks exactly four bytes, into the word whose big-endian bytes they are |
| IbmFloat.Ibm2Ieee | segypy.py:570-575 | succeeds exactly on four bytes, with the value of the word they spell |
| IbmFloat.IbmToRealAsWritten | segypy.py:572 | as written, the result is the intended value or its negation |
| IbmFloat.IbmSignIgnoredAsWritten | segypy.py:572 | as written, every word decodes to its non-negative magnitude, which is the intended value exactly when the sign is clear or the fraction zero |
| IbmFloat.MinusOneAsWritten | segypy.py:572 | 0xC1100000 denotes -1.0 and decodes to 1.0 as written |
| IbmFloat.IbmUnpackAsWrittenFails | segypy.py:571 | the one-character unpack as written fails on every input, while every four-byte input decodes when corrected |
| IbmFloat.IbmUnpackAsWritten | segypy.py:571 | the one-character unpack always fails: an IndexError exactly when the input is empty, a struct.error otherwise |
| Extract.ReadAt | segypy.py:348 | an integer-typed element reads as an integer |
| Extract.ReadScalar | segypy.py:497 | getValue(...)[0] with number 1 succeeds exactly when the element lies inside the data, and then yields the element's decoding |
| Extract.FieldsReadNext | segypy.py:493-497 | reading one more catalog entry extends the dictionary by that entry's value |
| Extract.ReadFields | segypy.py:493-500 | the header loop succeeds exactly when every entry's first element is inside the data; the dictionary then has one key per name, each read once at its position with its type |
| Extract.GetSegyHeader | segypy.py:486-509 | succeeds exactly for at least 3508 bytes; every SH_def key decoded as above; "ns" is the uint16 at 3220; ntraces is the floored trace count from that ns |
| Extract.ColumnValues | segypy.py:339-352 | a column for n traces has n entries |
| Extract.ColumnValuesAt | segypy.py:343-348 | entry itrace-1 of a column is the field read at its offset in trace itrace, and that copy lies in the data |
| Extract.ColumnPrefix | segypy.py:340-343 | if the last trace's copy of a field lies in the data, so does every earlier copy |
| Extract.ColumnBeyond | segypy.py:340-348 | one copy outside the data rules out every longer column |
| Extract.ColumnShrink | segypy.py:340-343 | dropping the last trace keeps a column inside the data |
| Extract.ColumnStep | segypy.py:348 | storing trace n+1's value at index n extends the column by one trace |
| Extract.ReadColumn | segypy.py:339-352 | the fresh array holds, in trace order, the field from every trace header; success exactly when the last copy lies in the data, struct.error otherwise |
| Extract.ReadNamedColumn | segypy.py:325-352 | an unknown name is a KeyError, a negative count fails, and otherwise the column is read as in ReadColumn |
| Extract.GetSegyTraceHeader | segypy.py:325-352 | the same, with the corrected STH_def (GainType at 118, ShotPoint at 196) as the catalog |
| Extract.ReadAllColumns | segypy.py:363-366 | one column per catalog key, each the ColumnValues of the entry the key looks up; success exactly when every column is readable |
| Extract.ColumnsReadNext | segypy.py:365-366 | adding a correctly read column keeps the dictionary correct |
| Extract.GetAllSegyTraceHeaders | segypy.py:354-371 | success exactly when ntraces >= 0 and the last trace header lies in the data; then one column per key of the corrected STH_def (GainType at 118, ShotPoint at 196), as getSegyTraceHeader reads it |
| Extract.AllColumnsInFile | segypy.py:363-366 | every STH_def column is readable exactly when the count is non-negative and the whole header of the last trace lies in the data |
| Extract.DerivedCountReadable | segypy.py:503 | with the count getSegyHeader derives from a file of at least 3600 bytes, the last trace header lies in the file |
| Extract.GetSegyTrace | segypy.py:482-483 | reads the ns sample words right after trace itrace's header; success iff they lie in the data; the result re-encodes to exactly those bytes and ends where the next trace starts |
| Extract.GetSegyTraceAsWrittenMisreads | segypy.py:477-483 | for ns = 1 and the first trace, the code as written reads bytes 3440-3443 instead of 3840-3843, so the results differ when those bytes do |
| Extract.GetSegyTraceAsWritten | segypy.py:477-483 | getSegyTrace as written succeeds on files up to 400 bytes shorter than the trace needs, ends 400 bytes before the next trace, and a one-sample read decodes the four bytes at the offset as written |

## Left out

- Opening and reading the file. Every operation takes the file's bytes as a
  parameter. The `'filename'` key of the returned dictionaries is not
  modelled.
- The `SH` dictionary passed to the trace readers. It is replaced by its two
  entries that are used, `ns` and `ntraces`, which are passed as parameters.
- `printverbose`, `print_version` and the `verbose` level: they only print.
- `imageSegy`: plotting.
- `readSegy` and `readSegyOld`: reading all samples into a matrix through
  numarray or Numeric.
- The `segy` placeholder classes.
- The `descr` tables of code meanings attached to some catalog entries.
- The test script.
- Trace numbers below 1. The source numbers traces from 1
  (`range(1,ntraces+1)`), so the offset functions and `getSegyTrace` require
  `itrace >= 1`. The offset `getSegyTrace` would compute for trace 0 or a
  negative trace, and Python's wrap-around of a negative slice index, are not
  modelled.
- Default arguments. `THN='cdp'` of `getSegyTraceHeader` and `ctype='l'`,
  `number=1` of `getValue` are not modelled; every argument is passed
  explicitly.
- The endianness switch. `endian` is fixed to `'>'` in the source, and so in
  the model.
- The unknown-tag path. The code prints 'Bad Ctype' and then fails on an
  unbound `size`. The model returns `UnsupportedType` instead.
- Values.GetValue: the 'f' format is not decoded to an IEEE float. An element
  of type float is kept as its raw 32-bit word (`FloatWord`), because floating
  point is outside the model.
- Extract.GetSegyTrace: it returns the samples as raw 32-bit words for the
  same reason. The source returns an empty list as the trace header (`[]`).
  That is not modelled.
- Extract.ReadColumn: the numeric type of `zeros(ntraces)` is not modelled.
  The array holds unbounded integers, so a uint32 value stays as read.
- Extract.ReadColumn: the failure case of reading a column from a short
  file is not tied to the trace at which the read stops.
- Extract.GetAllSegyTraceHeaders: the dictionary holds each column's values
  as a sequence, not the array `getSegyTraceHeader` returns. Which arrays
  alias which is therefore not stated.
- Extract.GetAllSegyTraceHeaders: the source walks `STH_def.keys()` in the
  dictionary's own order. The model walks the catalog in declaration order.
  - The result does not depend on that order.
  - Which column's error is raised first can depend on it.
  - Every failure is either a negative dimension or a short read.
- Extract.ReadFields: likewise, `SH_def.keys()` is walked in declaration
  order. Every key is read independently, so the dictionary is the same.
- IbmFloat.Ibm2Ieee: the result is an exact real number, not a double. Every
  IBM single-precision value is exactly representable as a double, so no
  magnitude is lost. The sign of zero is: the word 0x80000000 gives -0.0 in
  Python, while `IbmToReal` gives 0.0.
  - The corrected reader also takes the word out of the tuple that
    `struct.unpack` returns. The code as written applies `&` to the tuple
    itself.
  - That code is never reached, because the one-byte unpack before it
    already fails.
- Integer widths of the host.
  - The model takes struct's standard widths. The native `calcsize` widths
    the source uses are modelled only in `Values.GetValueAsWritten`.
  - Python integers are unbounded, and so are the model's.

## Findings

| source | as written | input that shows it | evidently intended | confidence | as-written member | corrected member |
|---|---|---|---|---|---|---|
| segypy.py:49-55 | element widths come from `struct.calcsize` of bare format characters, which are native sizes (8 bytes for 'l'/'L' on an LP64 host), but the unpack uses '>' with standard sizes | reading SH_def "Job" (int32 at 3200) from a 3600-byte file on an LP64 host: the 8-byte slice fails to unpack as '>l' | standard widths: 4 bytes for 'l' and 'L' | high (not executed) | Values.Lp64JobFieldFails | Values.GetValue |
| segypy.py:572 | the sign is tested with mask 0x100000000L (bit 32), which a 32-bit word never has set | once line 571 unpacks four bytes and takes `[0]`, 0xC1100000 (IBM -1.0) decodes to 1.0 | mask 0x80000000 (bit 31) | high (not executed) | IbmFloat.MinusOneAsWritten | IbmFloat.IbmToReal |
| segypy.py:571 | `struct.unpack('>I', ibm_float[0])` is given the first character only | any four-byte input, such as the bytes of 0xC1100000: unpacking one byte as '>I' raises struct.error | unpack all four bytes | high (not executed) | IbmFloat.IbmUnpackAsWrittenFails | IbmFloat.Ibm2Ieee |
| segypy.py:183 | GainType at byte 119, overlapping InstrumentGainConstant at 120 and leaving byte 118 unread | any trace header: GainType is read from bytes 119-120 | byte 118, as its own comment and SEG-Y revision 1 give | high (not executed) | Catalog.StHDefAsWrittenOverlaps | Catalog.StHDefTiles |
| segypy.py:257 | ShotPoint at byte 192, the position of Crossline3D, leaving bytes 196-199 unread | any trace header: ShotPoint returns the Crossline3D value | byte 196, as its own comment and SEG-Y revision 1 give | high (not executed) | Catalog.StHDefAsWrittenGaps | Catalog.StHDefMovesTwoFields |
| segypy.py:477-482 | getSegyTrace counts trace offsets from 3200, not from 3600 | ns = 1, itrace = 1, with bytes 3440-3443 different from bytes 3840-3843: the binary-header bytes are returned as the sample | 3600, the end of the binary header, from which getSegyHeader (line 503), readSegy's trace count (line 386) and getSegyTraceHeader (line 343) count; readSegy's sample read (lines 400-416) shares the 3200 base | high (not executed) | Extract.GetSegyTraceAsWrittenMisreads | Extract.GetSegyTrace |
