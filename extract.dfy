/** Reading the binary header and the trace-header columns of a SEG-Y file held
    in memory as a byte string: getSegyHeader, getSegyTraceHeader,
    getAllSegyTraceHeaders and getSegyTrace. Big-endian byte order throughout. */
module Extract {
  import opened Wrappers
  import opened Bytes
  import opened Values
  import opened Catalog
  import opened Layout

  /** The scalar a one-element read of type `p` at byte `at` yields. */
  function ReadAt(data: seq<Byte>, p: Prim, at: nat): (s: Scalar)
    requires at + Size(p) <= |data|
    ensures IsInteger(p) ==> s.Int?
  {
    DecodeScalar(p, data[at..at + Size(p)])
  }

  /** getValue(data, at, type, endian, 1)[0]: one element of type `p` read at
      byte `at`; a read past the end of the data raises struct.error. */
  method ReadScalar(data: seq<Byte>, at: nat, p: Prim) returns (r: Result<Scalar, Error>)
    ensures r.Success? <==> at + Size(p) <= |data|
    ensures r.Failure? ==> r.error.TruncatedData?
    ensures r.Success? ==> r.value == ReadAt(data, p, at)
  {
    ParseTagNames(p);
    var res := GetValue(data, at, TagName(p), 1);
    if res.Failure? {
      return Failure(res.error);
    }
    GetValueSingle(data, at, p);
    r := Success(res.value.0.s);
  }

  /** What getSegyHeader returns: one value per SH_def key and the trace count.
      The file name the dictionary also holds is left out with the file itself. */
  datatype SegyHeader = SegyHeader(fields: map<string, Scalar>, ntraces: int)

  /** Whether `fields` is the dictionary a read of catalog `c` builds: one key per
      name, holding one element read at the position and with the type of the
      entry the name looks up. */
  predicate FieldsRead(c: seq<FieldDef>, data: seq<Byte>, fields: map<string, Scalar>)
  {
    fields.Keys == Names(c) &&
    forall name :: name in fields ==>
      var f := Lookup(c, name).value;
      f.pos + Size(f.prim) <= |data| && fields[name] == ReadAt(data, f.prim, f.pos)
  }

  /** Reading one more entry extends the dictionary by its name. */
  lemma FieldsReadNext(c: seq<FieldDef>, data: seq<Byte>, fields: map<string, Scalar>, k: nat)
    requires k < |c| && FieldsRead(c[..k], data, fields)
    requires c[k].pos + Size(c[k].prim) <= |data|
    ensures FieldsRead(c[..k + 1], data, fields[c[k].name := ReadAt(data, c[k].prim, c[k].pos)])
  {
    NextPrefix(c, k);
    var next := fields[c[k].name := ReadAt(data, c[k].prim, c[k].pos)];
    forall name | name in next
      ensures Lookup(c[..k + 1], name).value.pos + Size(Lookup(c[..k + 1], name).value.prim) <= |data|
      ensures next[name] == ReadAt(data, Lookup(c[..k + 1], name).value.prim, Lookup(c[..k + 1], name).value.pos)
    {
      if name != c[k].name {
        assert name in fields;
      }
    }
  }

  /** The loop of getSegyHeader over a catalog `c`: every entry is read once,
      one element at its position with its type (an entry with "n" still yields
      one element), into a dictionary keyed by name. A read outside the data
      raises struct.error. */
  method ReadFields(c: seq<FieldDef>, data: seq<Byte>) returns (r: Result<map<string, Scalar>, Error>)
    ensures r.Success? <==> forall i :: 0 <= i < |c| ==> c[i].pos + Size(c[i].prim) <= |data|
    ensures r.Failure? ==> r.error.TruncatedData?
    ensures r.Success? ==> FieldsRead(c, data, r.value)
  {
    var fields: map<string, Scalar> := map[];
    var k := 0;
    while k < |c|
      invariant 0 <= k <= |c|
      invariant forall i :: 0 <= i < k ==> c[i].pos + Size(c[i].prim) <= |data|
      invariant FieldsRead(c[..k], data, fields)
    {
      var f := c[k];
      var value := ReadScalar(data, f.pos, f.prim);
      if value.Failure? {
        return Failure(value.error);
      }
      FieldsReadNext(c, data, fields, k);
      fields := fields[f.name := value.value];
      k := k + 1;
    }
    assert c[..k] == c;
    r := Success(fields);
  }

  /** getSegyHeader on the file's bytes: SH_def is read as above, which needs the
      first 3508 bytes, and ntraces = (filesize-3600)/(ns*4+240) is added. */
  method GetSegyHeader(data: seq<Byte>) returns (r: Result<SegyHeader, Error>)
    ensures r.Success? <==> |data| >= 3508
    ensures r.Failure? ==> r.error.TruncatedData?
    ensures r.Success? ==> FieldsRead(ShDef(), data, r.value.fields)
    ensures r.Success? ==> "ns" in r.value.fields && r.value.fields["ns"] == Int(BigEndian(data[3220..3222]))
    ensures r.Success? ==> r.value.ntraces == TraceCount(|data|, BigEndian(data[3220..3222]))
  {
    ShDefFirstElementsEnd();
    ShDefNs();
    var fields := ReadFields(ShDef(), data);
    if fields.Failure? {
      return Failure(fields.error);
    }
    assert "ns" in Names(ShDef());
    var ns := fields.value["ns"];
    r := Success(SegyHeader(fields.value, TraceCount(|data|, ns.value)));
  }

  /** Extending a catalog prefix by one entry adds its name, and that entry is
      what the name now looks up. */
  lemma NextPrefix(c: seq<FieldDef>, k: nat)
    requires k < |c|
    ensures Names(c[..k + 1]) == Names(c[..k]) + {c[k].name}
    ensures Lookup(c[..k + 1], c[k].name) == Some(c[k])
    ensures forall name :: name != c[k].name ==> Lookup(c[..k + 1], name) == Lookup(c[..k], name)
  {
    assert c[..k + 1][..k] == c[..k];
    assert c[..k + 1] == c[..k] + [c[k]];
  }

  /** Whether every trace up to `n` holds field `f` inside the data: the last
      copy is the furthest into the file. */
  predicate ColumnInFile(data: seq<Byte>, ns: nat, n: nat, f: FieldDef)
  {
    n == 0 || TraceFieldOffset(f.pos, ns, n) + Size(f.prim) <= |data|
  }

  /** The integer field `f` of traces 1..n, in trace order: the values
      getSegyTraceHeader stores. */
  function ColumnValues(data: seq<Byte>, ns: nat, n: nat, f: FieldDef): (col: seq<int>)
    requires IsInteger(f.prim) && ColumnInFile(data, ns, n, f)
    ensures |col| == n
  {
    if n == 0 then []
    else
      ColumnShrink(data, ns, n, f);
      ColumnValues(data, ns, n - 1, f) + [ReadAt(data, f.prim, TraceFieldOffset(f.pos, ns, n)).value]
  }

  /** Entry itrace-1 of a column is the field read at its offset in trace itrace,
      THpos+3600+(ns*4+240)*(itrace-1). */
  lemma {:induction false} ColumnValuesAt(data: seq<Byte>, ns: nat, n: nat, f: FieldDef, itrace: nat)
    requires IsInteger(f.prim) && ColumnInFile(data, ns, n, f) && 1 <= itrace <= n
    ensures TraceFieldOffset(f.pos, ns, itrace) + Size(f.prim) <= |data|
    ensures Int(ColumnValues(data, ns, n, f)[itrace - 1]) == ReadAt(data, f.prim, TraceFieldOffset(f.pos, ns, itrace))
    decreases n
  {
    ColumnPrefix(data, ns, n, f, itrace);
    ColumnShrink(data, ns, n, f);
    if itrace < n {
      ColumnValuesAt(data, ns, n - 1, f, itrace);
    }
  }

  /** Array `a` holds the column of integer field `f` for traces 1..n. */
  predicate Column(a: array<int>, data: seq<Byte>, ns: nat, n: nat, f: FieldDef)
    reads a
  {
    IsInteger(f.prim) && ColumnInFile(data, ns, n, f) && a[..] == ColumnValues(data, ns, n, f)
  }

  /** If the last trace's copy of a field is inside the data, so is every earlier one. */
  lemma ColumnPrefix(data: seq<Byte>, ns: nat, n: nat, f: FieldDef, itrace: nat)
    requires ColumnInFile(data, ns, n, f) && 1 <= itrace <= n
    ensures ColumnInFile(data, ns, itrace, f)
    ensures TraceFieldOffset(f.pos, ns, itrace) + Size(f.prim) <= |data|
  {
    TraceFieldOffsetMonotone(f.pos, ns, itrace, n);
  }

  /** If one trace's copy of a field is outside the data, so is the column of
      any later trace count. */
  lemma ColumnBeyond(data: seq<Byte>, ns: nat, n: nat, f: FieldDef, itrace: nat)
    requires 1 <= itrace <= n && TraceFieldOffset(f.pos, ns, itrace) + Size(f.prim) > |data|
    ensures !ColumnInFile(data, ns, n, f)
  {
    if ColumnInFile(data, ns, n, f) {
      ColumnPrefix(data, ns, n, f, itrace);
    }
  }

  /** Dropping the last trace keeps a column inside the data. */
  lemma ColumnShrink(data: seq<Byte>, ns: nat, n: nat, f: FieldDef)
    requires ColumnInFile(data, ns, n, f) && n >= 1
    ensures ColumnInFile(data, ns, n - 1, f)
    ensures TraceFieldOffset(f.pos, ns, n) + Size(f.prim) <= |data|
  {
    if n > 1 {
      TraceFieldOffsetMonotone(f.pos, ns, n - 1, n);
    }
  }


  /** Storing trace n+1's copy of a field at index n of an array that holds the
      column for traces 1..n makes it hold the column for traces 1..n+1. */
  lemma ColumnStep(before: seq<int>, after: seq<int>, data: seq<Byte>, ns: nat, n: nat, f: FieldDef, v: int)
    requires IsInteger(f.prim) && ColumnInFile(data, ns, n, f)
    requires TraceFieldOffset(f.pos, ns, n + 1) + Size(f.prim) <= |data|
    requires Int(v) == ReadAt(data, f.prim, TraceFieldOffset(f.pos, ns, n + 1))
    requires n < |before| && before[..n] == ColumnValues(data, ns, n, f) && after == before[n := v]
    ensures ColumnInFile(data, ns, n + 1, f)
    ensures after[..n + 1] == ColumnValues(data, ns, n + 1, f)
  {
    assert after[..n + 1] == before[..n] + [v];
  }

  /** The loop of getSegyTraceHeader for integer field `f`: a fresh array of
      ntraces zeros is filled with the field read from every trace header in
      turn, failing with struct.error at the first copy outside the data. */
  method ReadColumn(ns: nat, ntraces: nat, f: FieldDef, data: seq<Byte>) returns (r: Result<array<int>, Error>)
    requires IsInteger(f.prim)
    ensures r.Success? <==> ColumnInFile(data, ns, ntraces, f)
    ensures r.Failure? ==> r.error.TruncatedData?
    ensures r.Success? ==> fresh(r.value) && Column(r.value, data, ns, ntraces, f)
  {
    var thv := new int[ntraces](_ => 0);
    var itrace := 1;
    while itrace <= ntraces
      invariant 1 <= itrace <= ntraces + 1
      invariant ColumnInFile(data, ns, itrace - 1, f)
      invariant thv[..itrace - 1] == ColumnValues(data, ns, itrace - 1, f)
    {
      var value := ReadScalar(data, TraceFieldOffset(f.pos, ns, itrace), f.prim);
      if value.Failure? {
        ColumnBeyond(data, ns, ntraces, f, itrace);
        return Failure(value.error);
      }
      ghost var before := thv[..];
      thv[itrace - 1] := value.value.value;
      ColumnStep(before, thv[..], data, ns, itrace - 1, f, value.value.value);
      itrace := itrace + 1;
    }
    assert thv[..] == thv[..itrace - 1];
    r := Success(thv);
  }

  /** getSegyTraceHeader(SH, THN, data) over an integer-typed catalog `c`, given
      SH["ns"] and SH["ntraces"]: an unknown name is a KeyError, a negative trace
      count makes zeros() fail, and otherwise the column of field THN is read as
      above. */
  method ReadNamedColumn(c: seq<FieldDef>, ns: nat, ntraces: int, name: string, data: seq<Byte>)
    returns (r: Result<array<int>, Error>)
    requires IntegerTyped(c)
    ensures Lookup(c, name).None? ==> r == Failure(UnknownField(name))
    ensures Lookup(c, name).Some? && ntraces < 0 ==> r == Failure(NegativeDimension(ntraces))
    ensures Lookup(c, name).Some? && ntraces >= 0 ==>
      (r.Success? <==> ColumnInFile(data, ns, ntraces, Lookup(c, name).value))
    ensures r.Failure? && Lookup(c, name).Some? && ntraces >= 0 ==> r.error.TruncatedData?
    ensures r.Success? ==> ntraces >= 0 && fresh(r.value) && Column(r.value, data, ns, ntraces, Lookup(c, name).value)
  {
    var entry := Lookup(c, name);
    if entry.None? {
      return Failure(UnknownField(name));
    }
    if ntraces < 0 {
      return Failure(NegativeDimension(ntraces));
    }
    r := ReadColumn(ns, ntraces, entry.value, data);
  }

  /** getSegyTraceHeader with STH_def as the catalog. */
  method GetSegyTraceHeader(ns: nat, ntraces: int, name: string, data: seq<Byte>) returns (r: Result<array<int>, Error>)
    ensures Lookup(StHDef(), name).None? ==> r == Failure(UnknownField(name))
    ensures Lookup(StHDef(), name).Some? && ntraces < 0 ==> r == Failure(NegativeDimension(ntraces))
    ensures Lookup(StHDef(), name).Some? && ntraces >= 0 ==>
      (r.Success? <==> ColumnInFile(data, ns, ntraces, Lookup(StHDef(), name).value))
    ensures r.Failure? && Lookup(StHDef(), name).Some? && ntraces >= 0 ==> r.error.TruncatedData?
    ensures r.Success? ==> ntraces >= 0 && fresh(r.value) && Column(r.value, data, ns, ntraces, Lookup(StHDef(), name).value)
  {
    StHDefWithin();
    r := ReadNamedColumn(StHDef(), ns, ntraces, name, data);
  }

  /** Whether the column of every entry of `c` can be read for traces 1..n (a
      negative n cannot even be allocated). */
  predicate AllColumnsReadable(c: seq<FieldDef>, data: seq<Byte>, ns: nat, n: int)
  {
    forall i :: 0 <= i < |c| ==> n >= 0 && ColumnInFile(data, ns, n, Lookup(c, c[i].name).value)
  }

  /** Whether `headers` holds, under each of its names, the column for traces
      1..n of the integer entry of `c` that the name looks up. */
  predicate ColumnsRead(c: seq<FieldDef>, data: seq<Byte>, ns: nat, n: nat, headers: map<string, seq<int>>)
  {
    forall name :: name in headers ==>
      Lookup(c, name).Some? && IsInteger(Lookup(c, name).value.prim) &&
      ColumnInFile(data, ns, n, Lookup(c, name).value) &&
      headers[name] == ColumnValues(data, ns, n, Lookup(c, name).value)
  }

  /** The loop of getAllSegyTraceHeaders over an integer-typed catalog `c`: one
      column per key, read as getSegyTraceHeader reads it; the first column that
      cannot be read makes the whole call fail. */
  method ReadAllColumns(c: seq<FieldDef>, ns: nat, ntraces: int, data: seq<Byte>)
    returns (r: Result<map<string, seq<int>>, Error>)
    requires IntegerTyped(c)
    ensures r.Success? <==> AllColumnsReadable(c, data, ns, ntraces)
    ensures r.Failure? ==> r.error.NegativeDimension? || r.error.TruncatedData?
    ensures r.Success? ==> r.value.Keys == Names(c)
    ensures r.Success? && ntraces >= 0 ==> ColumnsRead(c, data, ns, ntraces, r.value)
  {
    var headers: map<string, seq<int>> := map[];
    var k := 0;
    while k < |c|
      invariant 0 <= k <= |c|
      invariant headers.Keys == Names(c[..k])
      invariant forall i :: 0 <= i < k ==> ntraces >= 0 && ColumnInFile(data, ns, ntraces, Lookup(c, c[i].name).value)
      invariant k > 0 ==> ntraces >= 0 && ColumnsRead(c, data, ns, ntraces, headers)
    {
      assert c[k] in c && c[k].name in Names(c);
      var column := ReadNamedColumn(c, ns, ntraces, c[k].name, data);
      if column.Failure? {
        assert !(ntraces >= 0 && ColumnInFile(data, ns, ntraces, Lookup(c, c[k].name).value));
        return Failure(column.error);
      }
      ColumnsReadNext(c, data, ns, ntraces, headers, c[k].name, column.value[..]);
      headers := headers[c[k].name := column.value[..]];
      NextPrefix(c, k);
      k := k + 1;
    }
    assert k == |c| && c[..k] == c;
    r := Success(headers);
  }

  /** Adding a correctly read column keeps the dictionary correct. */
  lemma ColumnsReadNext(c: seq<FieldDef>, data: seq<Byte>, ns: nat, n: int, headers: map<string, seq<int>>,
                        name: string, col: seq<int>)
    requires n >= 0 && (headers == map[] || ColumnsRead(c, data, ns, n, headers))
    requires Lookup(c, name).Some? && IsInteger(Lookup(c, name).value.prim)
    requires ColumnInFile(data, ns, n, Lookup(c, name).value)
    requires col == ColumnValues(data, ns, n, Lookup(c, name).value)
    ensures ColumnsRead(c, data, ns, n, headers[name := col])
  {
  }

  /** getAllSegyTraceHeaders with STH_def as the catalog, given SH["ns"] and
      SH["ntraces"]: it succeeds exactly when the trace count is not negative and
      the last trace's whole header lies in the data. */
  method GetAllSegyTraceHeaders(ns: nat, ntraces: int, data: seq<Byte>) returns (r: Result<map<string, seq<int>>, Error>)
    ensures r.Success? <==> ntraces >= 0 && (ntraces == 0 || TraceStart(ns, ntraces) + TraceHeaderSize <= |data|)
    ensures r.Failure? ==> r.error.NegativeDimension? || r.error.TruncatedData?
    ensures r.Success? ==> r.value.Keys == Names(StHDef())
    ensures r.Success? ==> ntraces >= 0 && ColumnsRead(StHDef(), data, ns, ntraces, r.value)
  {
    StHDefWithin();
    AllColumnsInFile(data, ns, ntraces);
    r := ReadAllColumns(StHDef(), ns, ntraces, data);
  }

  /** Every STH_def field of every trace up to `n` is inside the data exactly when
      the whole header of trace `n` is: the last field, UnassignedInt2, ends the
      240-byte header. */
  lemma AllColumnsInFile(data: seq<Byte>, ns: nat, n: int)
    ensures AllColumnsReadable(StHDef(), data, ns, n)
      <==> (n >= 0 && (n == 0 || TraceStart(ns, n) + TraceHeaderSize <= |data|))
  {
    var c := StHDef();
    StHDefWithin();
    if n > 0 {
      LookupAt(c, 90);
      if TraceStart(ns, n) + TraceHeaderSize <= |data| {
        forall i | 0 <= i < |c|
          ensures ColumnInFile(data, ns, n, Lookup(c, c[i].name).value)
        {
          var f := Lookup(c, c[i].name).value;
          var j :| 0 <= j < |c| && c[j] == f;
        }
      }
    }
  }

  /** With the trace count getSegyHeader derives from a file of at least 3600
      bytes, every column of getAllSegyTraceHeaders can be read. */
  lemma DerivedCountReadable(data: seq<Byte>, ns: nat)
    requires |data| >= DataStart
    ensures TraceCount(|data|, ns) >= 0
    ensures TraceCount(|data|, ns) == 0 || TraceStart(ns, TraceCount(|data|, ns)) + TraceHeaderSize <= |data|
  {
    var n := TraceCount(|data|, ns);
    if n > 0 {
      TraceFieldInFile(0, TraceHeaderSize, ns, |data|, n);
    }
  }

  /** getSegyTrace with the offset it evidently means: the ns sample words that
      follow the 240-byte header of trace `itrace`, counted from byte 3600. The
      samples are kept as raw words. */
  function GetSegyTrace(ns: nat, itrace: nat, data: seq<Byte>): (r: Result<(Value, nat), Error>)
    requires itrace >= 1
    ensures r.Success? <==> ns == 0 || TraceStart(ns, itrace + 1) <= |data|
    ensures r.Success? ==> r.value.1 == TraceStart(ns, itrace + 1)
    ensures r.Success? && ns != 1 ==>
      r.value.0.Multiple? && |r.value.0.items| == ns &&
      (ns > 0 ==> EncodeRun(Float, r.value.0.items) == Success(data[TraceDataStart(ns, itrace)..TraceStart(ns, itrace + 1)]))
    ensures r.Success? && ns == 1 ==>
      r.value.0.Single? && EncodeScalar(Float, r.value.0.s) == Success(data[TraceDataStart(ns, itrace)..TraceStart(ns, itrace + 1)])
  {
    TracesAdjacent(ns, itrace, itrace + 1);
    GetValue(data, TraceDataStart(ns, itrace), "float", ns)
  }

  /** getSegyTrace as written: the header offset 3200+(itrace-1)*(240+ns*4) and
      the sample offset 240 bytes later, counted from the end of the textual
      header instead of the binary header. */
  function GetSegyTraceAsWritten(ns: nat, itrace: nat, data: seq<Byte>): (r: Result<(Value, nat), Error>)
    requires itrace >= 1
    ensures r.Success? <==> ns == 0 || TraceStart(ns, itrace + 1) <= |data| + 400
    ensures r.Success? ==> r.value.1 + 400 == TraceStart(ns, itrace + 1)
    ensures r.Success? && ns == 1 ==>
      var at := TraceDataStartAsWritten(ns, itrace);
      r.value.0.Single? && EncodeScalar(Float, r.value.0.s) == Success(data[at..at + 4])
  {
    TracesAdjacent(ns, itrace, itrace + 1);
    GetValue(data, TraceDataStartAsWritten(ns, itrace), "float", ns)
  }

  /** For a one-sample trace, the code as written returns bytes 3440-3443 of the
      binary header instead of the sample at 3840-3843, so the two readers
      disagree whenever those bytes differ. */
  lemma GetSegyTraceAsWrittenMisreads(data: seq<Byte>)
    requires |data| >= TraceStart(1, 2)
    requires data[3440..3444] != data[3840..3844]
    ensures GetSegyTrace(1, 1, data).Success? && GetSegyTraceAsWritten(1, 1, data).Success?
    ensures GetSegyTrace(1, 1, data) != GetSegyTraceAsWritten(1, 1, data)
  {
    TraceStartAsWrittenShort(1, 1);
    assert TraceDataStartAsWritten(1, 1) == 3440 && TraceDataStart(1, 1) == 3840;
    GetValueSingle(data, 3440, Float);
    GetValueSingle(data, 3840, Float);
    assert TagName(Float) == "float";
  }
}
