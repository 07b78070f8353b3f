/** `getValue`: decode `number` big-endian values of one primitive type from a
    byte string, starting at a byte index, and report where the run ends. */
module Values {
  import opened Wrappers
  import opened Bytes

  /** The primitive types getValue reads, one per struct format character:
      'l' Int32, 'L' UInt32, 'h' Int16, 'H' UInt16, 'c' Char, 'B' UChar, 'f' Float. */
  datatype Prim = Int32 | UInt32 | Int16 | UInt16 | Char | UChar | Float

  /** Width in bytes of each primitive under struct's standard sizes (the '>' prefix). */
  function Size(p: Prim): (w: nat)
    ensures 1 <= w <= 4
    ensures w == 4 <==> p in {Int32, UInt32, Float}
    ensures w == 1 <==> p in {Char, UChar}
  {
    match p
    case Int32 => 4
    case UInt32 => 4
    case Int16 => 2
    case UInt16 => 2
    case Char => 1
    case UChar => 1
    case Float => 4
  }

  predicate IsSigned(p: Prim) { p == Int32 || p == Int16 }

  predicate IsUnsigned(p: Prim) { p == UInt32 || p == UInt16 || p == UChar }

  /** The primitives struct decodes to a Python integer. */
  predicate IsInteger(p: Prim) { IsSigned(p) || IsUnsigned(p) }

  /** The canonical tag the field catalogs use for each primitive. */
  function TagName(p: Prim): string
  {
    match p
    case Int32 => "int32"
    case UInt32 => "uint32"
    case Int16 => "int16"
    case UInt16 => "uint16"
    case Char => "char"
    case UChar => "uchar"
    case Float => "float"
  }

  /** The struct format character getValue settles on for each primitive. */
  function FormatChar(p: Prim): char
  {
    match p
    case Int32 => 'l'
    case UInt32 => 'L'
    case Int16 => 'h'
    case UInt16 => 'H'
    case Char => 'c'
    case UChar => 'B'
    case Float => 'f'
  }

  /** The type-tag dispatch of getValue: each primitive answers to its format
      character, a long name and (except the two byte types) a sized name. */
  function ParseTag(tag: string): (r: Option<Prim>)
    ensures r.Some? <==> tag in {"l", "long", "int32", "L", "ulong", "uint32", "h", "short", "int16",
                                 "H", "ushort", "uint16", "c", "char", "B", "uchar", "f", "float"}
    ensures r.Some? && |tag| == 1 ==> tag == [FormatChar(r.value)]
  {
    if tag in {"l", "long", "int32"} then Some(Int32)
    else if tag in {"L", "ulong", "uint32"} then Some(UInt32)
    else if tag in {"h", "short", "int16"} then Some(Int16)
    else if tag in {"H", "ushort", "uint16"} then Some(UInt16)
    else if tag in {"c", "char"} then Some(Char)
    else if tag in {"B", "uchar"} then Some(UChar)
    else if tag in {"f", "float"} then Some(Float)
    else None
  }

  /** Both the catalog's tag and the format character select the primitive they name. */
  lemma ParseTagNames(p: Prim)
    ensures ParseTag(TagName(p)) == Some(p)
    ensures ParseTag([FormatChar(p)]) == Some(p)
  {
    match p
    case Int32 =>
    case UInt32 =>
    case Int16 =>
    case UInt16 =>
    case Char =>
    case UChar =>
    case Float =>
  }

  /** One decoded element. struct gives an integer for the integer formats and a
      one-character string for 'c'; for 'f' the model keeps the raw 4-byte word. */
  datatype Scalar = Int(value: int) | Chr(code: Byte) | FloatWord(bits: nat)

  /** What getValue returns: one scalar when number == 1, otherwise a tuple. */
  datatype Value = Single(s: Scalar) | Multiple(items: seq<Scalar>)

  datatype Error =
    | UnsupportedType(tag: string)
    | TruncatedData(index: nat, wanted: nat, got: nat)
    | UnknownField(name: string)
    | IndexOutOfRange(position: int, length: nat)
    | NegativeDimension(n: int)
    | FieldTypeMismatch

  /** The scalars a primitive of type `p` can hold. */
  predicate Fits(p: Prim, s: Scalar)
  {
    match p
    case Int32 => s.Int? && -(HalfRange(4) as int) <= s.value < HalfRange(4)
    case Int16 => s.Int? && -(HalfRange(2) as int) <= s.value < HalfRange(2)
    case UInt32 => s.Int? && 0 <= s.value < Pow256(4)
    case UInt16 => s.Int? && 0 <= s.value < Pow256(2)
    case UChar => s.Int? && 0 <= s.value < Pow256(1)
    case Char => s.Chr?
    case Float => s.FloatWord? && s.bits < Pow256(4)
  }

  /** The reference encoder (struct.pack with the '>' prefix): the bytes that hold
      `s` as a `p`, or FieldTypeMismatch when `s` is not a value of that type. */
  function EncodeScalar(p: Prim, s: Scalar): (r: Result<seq<Byte>, Error>)
    ensures r.Success? <==> Fits(p, s)
    ensures r.Success? ==> |r.value| == Size(p)
  {
    if !Fits(p, s) then Failure(FieldTypeMismatch)
    else if IsSigned(p) then Success(ToBigEndian(FromTwosComplement(s.value, Size(p)), Size(p)))
    else if IsUnsigned(p) then Success(ToBigEndian(s.value, Size(p)))
    else if p == Char then Success([s.code])
    else Success(ToBigEndian(s.bits, 4))
  }

  /** The element that `b` (exactly one element wide) holds: a value of the type,
      whose encoding is `b` again. */
  function DecodeScalar(p: Prim, b: seq<Byte>): (r: Scalar)
    requires |b| == Size(p)
    ensures Fits(p, r)
    ensures EncodeScalar(p, r) == Success(b)
  {
    ToBigEndianOfBigEndian(b);
    if IsSigned(p) then Int(TwosComplement(BigEndian(b), Size(p)))
    else if IsUnsigned(p) then Int(BigEndian(b))
    else if p == Char then (assert b == [b[0]]; Chr(b[0]))
    else FloatWord(BigEndian(b))
  }

  /** Decoding what the encoder wrote gives back the scalar. */
  lemma DecodeEncodeScalar(p: Prim, s: Scalar)
    requires Fits(p, s)
    ensures DecodeScalar(p, EncodeScalar(p, s).value) == s
  {
    var w := Size(p);
    if IsSigned(p) {
      var u := FromTwosComplement(s.value, w);
      BigEndianOfToBigEndian(u, w);
    } else if IsUnsigned(p) {
      BigEndianOfToBigEndian(s.value, w);
    } else if p == Float {
      BigEndianOfToBigEndian(s.bits, 4);
    }
  }

  /** Two values of a type with the same bytes are the same value: the element
      that getValue reports for a run of bytes is the only one those bytes can mean. */
  lemma EncodeScalarInjective(p: Prim, s: Scalar, t: Scalar)
    requires Fits(p, s) && Fits(p, t)
    requires EncodeScalar(p, s) == EncodeScalar(p, t)
    ensures s == t
  {
    DecodeEncodeScalar(p, s);
    DecodeEncodeScalar(p, t);
  }

  /** The reference encoder for a run (struct.pack with `number` copies of the
      format character): the elements' encodings one after another. */
  function EncodeRun(p: Prim, items: seq<Scalar>): (r: Result<seq<Byte>, Error>)
    ensures r.Success? <==> forall k :: 0 <= k < |items| ==> Fits(p, items[k])
    ensures r.Success? ==> |r.value| == Size(p) * |items|
  {
    if |items| == 0 then Success([])
    else
      match EncodeScalar(p, items[0])
      case Failure(e) => Failure(e)
      case Success(head) =>
        match EncodeRun(p, items[1..])
        case Failure(e) => Failure(e)
        case Success(tail) => Success(head + tail)
  }

  /** Prepending one element prepends its encoding. */
  lemma EncodeRunPrepend(p: Prim, head: Scalar, tail: seq<Scalar>, hb: seq<Byte>, tb: seq<Byte>)
    requires EncodeScalar(p, head) == Success(hb) && EncodeRun(p, tail) == Success(tb)
    ensures EncodeRun(p, [head] + tail) == Success(hb + tb)
  {
    assert ([head] + tail)[1..] == tail;
  }

  /** A run of `number` elements of width `w` is its first element followed by
      a run of `number - 1`. */
  lemma RunSplit(w: nat, number: nat)
    requires number >= 1
    ensures w <= w * number && w + w * (number - 1) == w * number
  {
  }

  /** `number` consecutive elements of type `p` read from `data` at `index`, in
      byte order: encoding them again gives back exactly the bytes read. */
  function DecodeRun(p: Prim, data: seq<Byte>, index: nat, number: nat): (items: seq<Scalar>)
    requires index + Size(p) * number <= |data|
    ensures |items| == number
    ensures EncodeRun(p, items) == Success(data[index..index + Size(p) * number])
    decreases number
  {
    if number == 0 then
      assert data[index..index + Size(p) * number] == [];
      []
    else
      var w := Size(p);
      var mid, hi := index + w, index + w * number;
      RunSplit(w, number);
      var head := DecodeScalar(p, data[index..mid]);
      var tail := DecodeRun(p, data, mid, number - 1);
      EncodeRunPrepend(p, head, tail, data[index..mid], data[mid..hi]);
      assert data[index..hi] == data[index..mid] + data[mid..hi];
      [head] + tail
  }

  /** Element k of a run is encoded by bytes k*size up to (k+1)*size of the
      run's encoding. */
  lemma {:induction false} EncodeRunAt(p: Prim, items: seq<Scalar>, k: nat)
    requires EncodeRun(p, items).Success? && k < |items|
    ensures Size(p) * (k + 1) <= |EncodeRun(p, items).value|
    ensures EncodeScalar(p, items[k]) == Success(EncodeRun(p, items).value[Size(p) * k..Size(p) * (k + 1)])
    decreases k
  {
    var b := EncodeRun(p, items).value;
    var hb, tb := EncodeScalar(p, items[0]).value, EncodeRun(p, items[1..]).value;
    assert b == hb + tb;
    RunOffsets(Size(p), k, |items|);
    if k == 0 {
      assert b[0..Size(p)] == hb;
    } else {
      EncodeRunAt(p, items[1..], k - 1);
      RunOffsets(Size(p), k - 1, |items| - 1);
      SliceOfAppend(hb, tb, Size(p) * k, Size(p) * (k + 1));
    }
  }

  /** The offset arithmetic of a run of `number` elements of width `w`. */
  lemma RunOffsets(w: nat, k: nat, number: nat)
    requires k < number
    ensures w * (k + 1) <= w * number && w * (k + 1) == w * k + w
    ensures w * 0 == 0
    ensures k >= 1 ==> w + w * (k - 1) == w * k
  {
  }

  /** len(data[lo:hi]) for a byte string of length n and 0 <= lo <= hi: Python
      clips a slice at the end of the string instead of failing. */
  function SliceLength(n: nat, lo: nat, hi: nat): (r: nat)
    requires lo <= hi
    ensures r <= hi - lo
    ensures r == hi - lo <==> hi <= n || lo == hi
  {
    if hi <= n then hi - lo else if lo <= n then n - lo else 0
  }

  /** The unpacking step of getValue once the tag has chosen primitive `p`: the
      next Size(p)*number bytes from `index` are read, or TruncatedData when the
      slice Python cuts is shorter than that. */
  function Unpack(data: seq<Byte>, index: nat, p: Prim, number: nat): (r: Result<(Value, nat), Error>)
    ensures r.Success? <==> number == 0 || index + Size(p) * number <= |data|
    ensures r.Failure? ==> r.error.TruncatedData?
    ensures r.Success? ==> r.value.1 == index + Size(p) * number
    ensures r.Success? ==> (r.value.0.Single? <==> number == 1)
    ensures r.Success? && number == 1 ==>
      Fits(p, r.value.0.s) && EncodeScalar(p, r.value.0.s) == Success(data[index..index + Size(p)])
    ensures r.Success? && number != 1 ==>
      |r.value.0.items| == number &&
      (number > 0 ==> EncodeRun(p, r.value.0.items) == Success(data[index..index + Size(p) * number]))
  {
    var w := Size(p);
    var indexEnd := index + w * number;
    var got := SliceLength(|data|, index, indexEnd);
    if got != w * number then Failure(TruncatedData(index, w * number, got))
    else if number == 0 then Success((Multiple([]), indexEnd))
    else
      var items := DecodeRun(p, data, index, number);
      if number == 1 then Success((Single(items[0]), indexEnd))
      else Success((Multiple(items), indexEnd))
  }

  /** getValue(data, index, ctype, '>', number): the tag picks a width, the next
      width*number bytes are unpacked, and the end offset is returned with them. */
  function GetValue(data: seq<Byte>, index: nat, tag: string, number: nat): (r: Result<(Value, nat), Error>)
    ensures ParseTag(tag).None? ==> r == Failure(UnsupportedType(tag))
    ensures ParseTag(tag).Some? ==>
      (r.Success? <==> number == 0 || index + Size(ParseTag(tag).value) * number <= |data|)
    ensures r.Failure? && ParseTag(tag).Some? ==> r.error.TruncatedData?
    ensures r.Success? ==> r.value.1 == index + Size(ParseTag(tag).value) * number
    ensures r.Success? ==> (r.value.0.Single? <==> number == 1)
    ensures r.Success? && number == 1 ==>
      var p := ParseTag(tag).value;
      Fits(p, r.value.0.s) && EncodeScalar(p, r.value.0.s) == Success(data[index..index + Size(p)])
    ensures r.Success? && number != 1 ==>
      var p := ParseTag(tag).value;
      |r.value.0.items| == number &&
      (number > 0 ==> EncodeRun(p, r.value.0.items) == Success(data[index..index + Size(p) * number]))
  {
    match ParseTag(tag)
    case None => Failure(UnsupportedType(tag))
    case Some(p) => Unpack(data, index, p, number)
  }

  /** With number == 1 and the element inside the data, getValue returns the one
      scalar those bytes decode to, not a tuple, and the offset just past it. */
  lemma GetValueSingle(data: seq<Byte>, index: nat, p: Prim)
    requires index + Size(p) <= |data|
    ensures GetValue(data, index, TagName(p), 1) ==
      Success((Single(DecodeScalar(p, data[index..index + Size(p)])), index + Size(p)))
  {
    ParseTagNames(p);
    var r := GetValue(data, index, TagName(p), 1);
    DecodeEncodeScalar(p, r.value.0.s);
  }

  /** A successful read of number != 1 elements returns as element k the value
      decoded from its own bytes, index+k*size onwards. */
  lemma GetValueElement(data: seq<Byte>, index: nat, tag: string, number: nat, k: nat)
    requires ParseTag(tag).Some? && GetValue(data, index, tag, number).Success?
    requires number != 1 && k < number
    ensures var w := Size(ParseTag(tag).value);
      index + w * (k + 1) <= |data| &&
      GetValue(data, index, tag, number).value.0.items[k] ==
        DecodeScalar(ParseTag(tag).value, data[index + w * k..index + w * (k + 1)])
  {
    var p := ParseTag(tag).value;
    ElementOfRun(p, data, index, number, GetValue(data, index, tag, number).value.0.items, k);
  }

  /** Items whose encoding is the `number` elements at `index` are, one by one,
      the values those elements' bytes decode to. */
  lemma ElementOfRun(p: Prim, data: seq<Byte>, index: nat, number: nat, items: seq<Scalar>, k: nat)
    requires index + Size(p) * number <= |data| && |items| == number && k < number
    requires EncodeRun(p, items) == Success(data[index..index + Size(p) * number])
    ensures index + Size(p) * (k + 1) <= |data|
    ensures items[k] == DecodeScalar(p, data[index + Size(p) * k..index + Size(p) * (k + 1)])
  {
    RunOffsets(Size(p), k, number);
    EncodeRunAt(p, items, k);
    SliceOfSlice(data, index, index + Size(p) * number, Size(p) * k, Size(p) * (k + 1));
    var b := data[index + Size(p) * k..index + Size(p) * (k + 1)];
    assert EncodeScalar(p, items[k]) == Success(b);
    DecodeEncodeScalar(p, items[k]);
    assert items[k] == DecodeScalar(p, b);
  }

  /** A slice lying in the second part of a concatenation is a slice of that part. */
  lemma SliceOfAppend(s: seq<Byte>, t: seq<Byte>, a: nat, b: nat)
    requires |s| <= a <= b <= |s| + |t|
    ensures (s + t)[a..b] == t[a - |s|..b - |s|]
  {
    assert forall i :: 0 <= i < b - a ==> (s + t)[a..b][i] == t[a - |s| + i];
  }

  /** A slice of a slice is a slice. */
  lemma SliceOfSlice(s: seq<Byte>, lo: nat, hi: nat, a: nat, b: nat)
    requires lo <= hi <= |s| && a <= b <= hi - lo
    ensures s[lo..hi][a..b] == s[lo + a..lo + b]
  {
    assert forall i :: 0 <= i < b - a ==> s[lo..hi][a..b][i] == s[lo + a + i];
  }

  /** Word sizes of the two host conventions that decide struct.calcsize('l'). */
  datatype Host = ILP32 | LP64

  /** struct.calcsize of the bare format characters, as segypy.py takes its widths:
      native sizes, where a C long is 8 bytes on an LP64 host. */
  function NativeSize(host: Host, p: Prim): (w: nat)
    ensures p !in {Int32, UInt32} ==> w == Size(p)
  {
    if p in {Int32, UInt32} && host == LP64 then 8 else Size(p)
  }

  /** getValue as written: the slice is cut with the native width, but unpacking
      with the '>' prefix demands exactly the standard width per element. */
  function GetValueAsWritten(host: Host, data: seq<Byte>, index: nat, tag: string, number: nat): (r: Result<(Value, nat), Error>)
    ensures ParseTag(tag).None? ==> r == Failure(UnsupportedType(tag))
    ensures r.Success? ==> r.value.1 == index + NativeSize(host, ParseTag(tag).value) * number
    ensures r.Success? ==> GetValue(data, index, tag, number).Success? && r.value.0 == GetValue(data, index, tag, number).value.0
  {
    match ParseTag(tag)
    case None => Failure(UnsupportedType(tag))
    case Some(p) =>
      var indexEnd := index + NativeSize(host, p) * number;
      var got := SliceLength(|data|, index, indexEnd);
      var want := Size(p) * number;
      if got != want then Failure(TruncatedData(index, want, got))
      else if number == 0 then Success((Multiple([]), indexEnd))
      else
        var items := DecodeRun(p, data, index, number);
        if number == 1 then Success((Single(items[0]), indexEnd))
        else Success((Multiple(items), indexEnd))
  }

  /** Where a C long is 4 bytes, the native widths are the standard ones and the
      code as written behaves as the corrected GetValue. */
  lemma GetValueAsWrittenOnIlp32(data: seq<Byte>, index: nat, tag: string, number: nat)
    ensures GetValueAsWritten(ILP32, data, index, tag, number) == GetValue(data, index, tag, number)
  {
  }

  /** On an LP64 host every read of a 32-bit integer field with 8*number bytes
      available fails: the slice is twice as long as '>l' accepts. */
  lemma Lp64LongReadFails(data: seq<Byte>, index: nat, tag: string, number: nat)
    requires ParseTag(tag) == Some(Int32) || ParseTag(tag) == Some(UInt32)
    requires number >= 1 && index + 8 * number <= |data|
    ensures GetValueAsWritten(LP64, data, index, tag, number).Failure?
    ensures GetValue(data, index, tag, number).Success?
  {
  }

  /** The one read of "Job" in a 3600-byte file: the corrected reader succeeds and
      the code as written on an LP64 host does not. */
  lemma Lp64JobFieldFails(data: seq<Byte>)
    requires |data| == 3600
    ensures GetValue(data, 3200, "int32", 1).Success?
    ensures GetValueAsWritten(LP64, data, 3200, "int32", 1).Failure?
  {
    Lp64LongReadFails(data, 3200, "int32", 1);
  }
}
