/** Where things sit in a SEG-Y file: a 3200-byte textual header, a 400-byte
    binary header, then `ntraces` traces, each a 240-byte trace header followed
    by `ns` four-byte samples. */
module Layout {
  import opened Bytes

  /** Bytes before the first trace: textual header plus binary header. */
  const DataStart: nat := 3600

  /** Bytes in one trace header. */
  const TraceHeaderSize: nat := 240

  /** Bytes in one sample word. */
  const SampleSize: nat := 4

  /** ns*4+240: the bytes one trace occupies. */
  function TraceSize(ns: nat): nat
  {
    ns * SampleSize + TraceHeaderSize
  }

  /** ntraces = (filesize-3600)/(ns*4+240) with Python's floor division: the
      number of whole traces after the headers. Bytes that do not fill a whole
      trace are dropped without complaint, and a file shorter than the headers
      gives a negative count. */
  function TraceCount(filesize: nat, ns: nat): (n: int)
    ensures filesize >= DataStart ==>
      n >= 0 && DataStart + n * TraceSize(ns) <= filesize < DataStart + (n + 1) * TraceSize(ns)
    ensures filesize < DataStart ==> n < 0
  {
    (filesize - DataStart) / TraceSize(ns)
  }

  /** The file offset of trace `itrace` (numbered from 1). */
  function TraceStart(ns: nat, itrace: nat): nat
    requires itrace >= 1
  {
    DataStart + TraceSize(ns) * (itrace - 1)
  }

  /** THpos+3600+(ns*4+240)*(itrace-1): the file offset of the trace-header
      field at `pos` in trace `itrace`. */
  function TraceFieldOffset(pos: nat, ns: nat, itrace: nat): (o: nat)
    requires itrace >= 1
    ensures o == TraceStart(ns, itrace) + pos
  {
    pos + DataStart + TraceSize(ns) * (itrace - 1)
  }

  /** The file offset of the first sample of trace `itrace`: right after its header. */
  function TraceDataStart(ns: nat, itrace: nat): nat
    requires itrace >= 1
  {
    TraceStart(ns, itrace) + TraceHeaderSize
  }

  /** Traces follow one another without gap or overlap: trace i+1 starts where
      the samples of trace i end, and a later trace starts after an earlier one ends. */
  lemma TracesAdjacent(ns: nat, i: nat, j: nat)
    requires 1 <= i < j
    ensures TraceStart(ns, i + 1) == TraceDataStart(ns, i) + ns * SampleSize
    ensures TraceStart(ns, i) + TraceSize(ns) <= TraceStart(ns, j)
  {
    MulMonotone(i, j - 1, TraceSize(ns));
  }

  /** A later trace's copy of a field lies further into the file. */
  lemma TraceFieldOffsetMonotone(pos: nat, ns: nat, i: nat, j: nat)
    requires 1 <= i <= j
    ensures TraceFieldOffset(pos, ns, i) <= TraceFieldOffset(pos, ns, j)
  {
    MulMonotone(i - 1, j - 1, TraceSize(ns));
  }

  /** With ntraces from `TraceCount`, the copy in trace `itrace` of a `w`-byte
      field at `pos` of the trace header lies inside that trace's header, and
      the whole trace lies inside the file. */
  lemma TraceFieldInFile(pos: nat, w: nat, ns: nat, filesize: nat, itrace: nat)
    requires pos + w <= TraceHeaderSize
    requires 1 <= itrace <= TraceCount(filesize, ns)
    ensures TraceStart(ns, itrace) <= TraceFieldOffset(pos, ns, itrace)
    ensures TraceFieldOffset(pos, ns, itrace) + w <= TraceDataStart(ns, itrace)
    ensures TraceStart(ns, itrace) + TraceSize(ns) <= filesize
  {
    var n := TraceCount(filesize, ns);
    MulMonotone(itrace, n, TraceSize(ns));
  }

  /** index=3200+(itrace-1)*(240+ns*4): the offset getSegyTrace takes for the
      header of trace `itrace`, counted from the end of the textual header. */
  function TraceStartAsWritten(ns: nat, itrace: nat): (t: nat)
    requires itrace >= 1
    ensures t + 400 == TraceStart(ns, itrace)
  {
    3200 + (itrace - 1) * (TraceHeaderSize + ns * SampleSize)
  }

  /** index=3200+(itrace-1)*(240+ns*4)+240: where getSegyTrace starts reading samples. */
  function TraceDataStartAsWritten(ns: nat, itrace: nat): (t: nat)
    requires itrace >= 1
    ensures t + 400 == TraceDataStart(ns, itrace)
    ensures itrace == 1 ==> 3200 <= t < DataStart
  {
    TraceStartAsWritten(ns, itrace) + TraceHeaderSize
  }

  /** getSegyTrace's offsets fall 400 bytes (the binary header) short of the
      trace, so for the first trace the header offset is the start of the binary
      header and the sample offset, 3440, lies inside it. */
  lemma TraceStartAsWrittenShort(ns: nat, itrace: nat)
    requires itrace >= 1
    ensures TraceStartAsWritten(ns, itrace) + 400 == TraceStart(ns, itrace)
    ensures TraceDataStartAsWritten(ns, itrace) + 400 == TraceDataStart(ns, itrace)
    ensures TraceStartAsWritten(ns, 1) == 3200
    ensures 3200 <= TraceDataStartAsWritten(ns, 1) < DataStart
  {
  }
}
