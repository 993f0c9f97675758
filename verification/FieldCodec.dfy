/** Column definitions on the wire (mysql/field.go). */
module FieldCodec {
  import opened Wrappers
  import opened Bytes
  import opened LengthEncoding
  import opened StringRuns

  type uint16 = x: int | 0 <= x < 0x10000

  type uint32 = x: int | 0 <= x < 0x1_0000_0000

  type uint64 = x: int | 0 <= x <= MAX_UINT64

  /** `data` is the packet a field was parsed from, `isUnsigned` never travels. */
  datatype Field = Field(
    data: Option<bytes>,
    schema: bytes,
    table: bytes,
    orgTable: bytes,
    name: bytes,
    orgName: bytes,
    charset: uint16,
    columnLength: uint32,
    typ: byte,
    flag: uint16,
    decimal: byte,
    isUnsigned: bool,
    defaultValueLength: uint64,
    defaultValue: Option<bytes>)

  const BLANK := Field(None, [], [], [], [], [], 0, 0, 0, 0, 0, false, 0, None)

  const DEF: bytes := [100, 101, 102]

  datatype Parsed = Parsed(field: Field) | Malformed | Panics

  // ---------------------------------------------------------------- what the bytes say

  /** Names are kept as they are; a NULL would read as an empty name. */
  const AS_NAME: (nat, Option<bytes>) -> Option<bytes> := (i: nat, s: Option<bytes>) =>
    Some(if s.None? then [] else s.value)

  /** The default value, when more bytes follow the fixed part. */
  datatype Default = Default(length: uint64, value: Option<bytes>) | BadDefault | DefaultPanic

  /** `p` begins at offset `at` of the packet. An end beyond the packet is malformed, unless its offset
      wraps around in an int64: the slice is then out of range. */
  function ReadDefault(p: bytes, at: nat): Default {
    if |p| == 0 then Default(0, None)
    else if IntWidth(p) > |p| then DefaultPanic
    else
      var i := LengthEncodedInt(p);
      if i.num > MAX_INT64 then DefaultPanic
      else if i.n + i.num <= |p| then Default(i.num, Some(p[i.n..i.n + i.num]))
      else if at + i.n + i.num > MAX_INT64 then DefaultPanic
      else BadDefault
  }

  /** The fixed part: a length byte, then character set, width, type, flags and decimals; the two filler
      bytes may be missing. */
  function ReadFixed(p: bytes, names: seq<bytes>, rest: bytes): Parsed
    requires |names| == 6 && |rest| <= |p|
  {
    if |rest| < 11 then Panics
    else
      match ReadDefault(if |rest| <= 13 then [] else rest[13..], |p| - |rest| + 13)
      case BadDefault => Malformed
      case DefaultPanic => Panics
      case Default(length, value) =>
        Parsed(Field(Some(p), names[1], names[2], names[3], names[4], names[5],
                     U16(rest[1..3]), U32(rest[3..7]), rest[7], U16(rest[8..10]), rest[10],
                     false, length, value))
  }

  function U16(b: bytes): uint16
    requires |b| == 2
  {
    assert Pow256(2) == 0x10000;
    LeValue(b)
  }

  function U32(b: bytes): uint32
    requires |b| == 4
  {
    assert Pow256(4) == 0x1_0000_0000;
    LeValue(b)
  }

  function ParseField(p: bytes): Parsed {
    match ReadRun(READER, AS_NAME, p, 6)
    case BadRun => Panics
    case ShortRun => Malformed
    case BadValue => Malformed
    case Run(names, rest) => ReadFixed(p, names, rest)
  }

  /** The default value at the end of a packet. */
  method ParseDefault(p: bytes, pos: nat) returns (r: Default)
    ensures r == ReadDefault(if |p| <= pos then [] else p[pos..], pos)
  {
    if |p| <= pos {
      return Default(0, None);
    }
    if IntWidth(p[pos..]) > |p| - pos {
      return DefaultPanic;
    }
    var i := LengthEncodedInt(p[pos..]);
    if i.num > MAX_INT64 {
      return DefaultPanic;
    }
    var start := pos + i.n;
    if start + i.num > |p| {
      return if start + i.num > MAX_INT64 then DefaultPanic else BadDefault;
    }
    assert p[pos..][i.n..i.n + i.num] == p[start..start + i.num];
    r := Default(i.num, Some(p[start..start + i.num]));
  }

  /** FieldData.Parse, with its cursor. */
  method Parse(p: bytes) returns (r: Parsed)
    ensures r == ParseField(p)
  {
    var s, pos := ReadLoop(READER, AS_NAME, p, 6);
    if s.BadRun? {
      return Panics;
    }
    if !s.Run? {
      return Malformed;
    }
    ghost var start := pos;
    if |p| < pos + 11 {
      return Panics;
    }
    pos := pos + 1;
    var charset := U16(p[pos..pos + 2]);
    pos := pos + 2;
    var columnLength := U32(p[pos..pos + 4]);
    pos := pos + 4;
    var typ := p[pos];
    pos := pos + 1;
    var flag := U16(p[pos..pos + 2]);
    pos := pos + 2;
    var decimal := p[pos];
    pos := pos + 3;
    var d := ParseDefault(p, pos);
    FixedSlices(p, start);
    match d
    case BadDefault => r := Malformed;
    case DefaultPanic => r := Panics;
    case Default(length, value) =>
      r := Parsed(Field(Some(p), s.values[1], s.values[2], s.values[3], s.values[4], s.values[5], charset, columnLength,
                        typ, flag, decimal, false, length, value));
  }

  /** The fixed part seen through the cursor. */
  lemma FixedSlices(p: bytes, at: nat)
    requires at + 11 <= |p|
    ensures var rest := p[at..];
            && rest[1..3] == p[at + 1..at + 3] && rest[3..7] == p[at + 3..at + 7] && rest[7] == p[at + 7]
            && rest[8..10] == p[at + 8..at + 10] && rest[10] == p[at + 10]
            && (if |rest| <= 13 then [] else rest[13..]) == (if |p| <= at + 13 then [] else p[at + 13..])
  {
  }

  // ---------------------------------------------------------------- writing

  /** Strings the packet format can carry. */
  predicate Fits(b: bytes) { |b| <= MAX_INT64 - 9 }

  predicate AllFit(names: seq<bytes>) { forall i :: 0 <= i < |names| ==> |names[i]| <= MAX_INT64 - 9 }

  predicate Sendable(f: Field) {
    Fits(f.schema) && Fits(f.table) && Fits(f.orgTable) && Fits(f.name) && Fits(f.orgName)
  }

  function NamesOf(f: Field): seq<bytes> { [DEF, f.schema, f.table, f.orgTable, f.name, f.orgName] }

  /** Each name behind its length. */
  function Parts(names: seq<bytes>): (r: seq<bytes>)
    requires AllFit(names)
    ensures |r| == |names| && forall i :: 0 <= i < |r| ==> r[i] == Put(Some(names[i]))
  {
    seq(|names|, (i: nat) requires i < |names| => Put(Some(names[i])))
  }

  function FixedPart(f: Field): (r: bytes)
    ensures |r| == 13
  {
    [0x0c] + LeBytes(f.charset, 2) + LeBytes(f.columnLength, 4) + [f.typ] + LeBytes(f.flag, 2) + [f.decimal] + [0, 0]
  }

  /** The default value's length goes out as eight fixed bytes. */
  function DefaultPart(f: Field): bytes {
    if f.defaultValue.None? then [] else LeBytes(f.defaultValueLength, 8) + f.defaultValue.value
  }

  function DumpField(f: Field): bytes
    requires Sendable(f)
  {
    if f.data.Some? then f.data.value else Joined(Parts(NamesOf(f))) + (FixedPart(f) + DefaultPart(f))
  }

  /** Field.Dump. */
  method Dump(f: Field) returns (data: bytes)
    requires Sendable(f)
    ensures data == DumpField(f)
  {
    if f.data.Some? {
      return f.data.value;
    }
    var names := DumpNames(NamesOf(f));
    var tail := DumpTail(f);
    data := names + tail;
  }

  method DumpNames(names: seq<bytes>) returns (data: bytes)
    requires AllFit(names)
    ensures data == Joined(Parts(names))
  {
    data := [];
    ghost var parts := Parts(names);
    for i := 0 to |names|
      invariant data == Joined(parts[..i])
    {
      assert parts[..i + 1][..i] == parts[..i];
      data := data + PutLengthEncodedString(names[i]);
    }
    assert parts[..|names|] == parts;
  }

  /** What Dump appends after the names. */
  method DumpTail(f: Field) returns (data: bytes)
    ensures data == FixedPart(f) + DefaultPart(f)
  {
    data := [0x0c];
    data := data + LeBytes(f.charset, 2);
    data := data + LeBytes(f.columnLength, 4);
    data := data + [f.typ];
    data := data + LeBytes(f.flag, 2);
    data := data + [f.decimal];
    data := data + [0, 0];
    ghost var fixed := data;
    if f.defaultValue.Some? {
      data := data + LeBytes(f.defaultValueLength, 8);
      data := data + f.defaultValue.value;
      assert data == fixed + DefaultPart(f);
    } else {
      assert data == fixed + [];
    }
  }

  // ---------------------------------------------------------------- round trip

  lemma NamesRoundTrip(names: seq<bytes>, rest: bytes)
    requires AllFit(names)
    ensures ReadRun(READER, AS_NAME, Joined(Parts(names)) + rest, |names|) == Run(names, rest)
  {
    var strings := seq(|names|, (i: nat) requires i < |names| => Some(names[i]));
    forall i | 0 <= i < |names|
      ensures Decodes(READER, Parts(names)[i], strings[i])
    {
      PutDecodes(Some(names[i]));
    }
    RunRoundTrip(READER, AS_NAME, Parts(names), strings, names, rest);
  }

  /** A field as the other side can know it. */
  function Received(f: Field, p: bytes): Field { f.(data := Some(p), isUnsigned := false) }

  lemma FixedRoundTrip(f: Field, p: bytes, d: bytes)
    requires f.data.None?
    ensures var rest := FixedPart(f) + d;
            && (if |rest| <= 13 then [] else rest[13..]) == d
            && U16(rest[1..3]) == f.charset && U32(rest[3..7]) == f.columnLength && rest[7] == f.typ
            && U16(rest[8..10]) == f.flag && rest[10] == f.decimal
  {
    var rest := FixedPart(f) + d;
    assert Pow256(2) == 0x10000 && Pow256(4) == 0x1_0000_0000;
    assert rest[1..3] == LeBytes(f.charset, 2) && rest[3..7] == LeBytes(f.columnLength, 4) &&
           rest[8..10] == LeBytes(f.flag, 2);
    LeFits(f.charset, 2);
    LeFits(f.columnLength, 4);
    LeFits(f.flag, 2);
    assert |d| > 0 ==> rest[13..] == d;
  }

  /** A dumped field parses to itself as far as its default value survives. */
  lemma ParseDumped(f: Field)
    requires Sendable(f) && f.data.None?
    ensures var p := DumpField(f);
            ParseField(p) == match ReadDefault(DefaultPart(f), |p| - |DefaultPart(f)|)
                             case BadDefault => Malformed
                             case DefaultPanic => Panics
                             case Default(length, value) =>
                               Parsed(Received(f, p).(defaultValueLength := length, defaultValue := value))
  {
    var p, d := DumpField(f), DefaultPart(f);
    NamesRoundTrip(NamesOf(f), FixedPart(f) + d);
    FixedRead(f, p, d);
  }

  lemma FixedRead(f: Field, p: bytes, d: bytes)
    requires f.data.None? && |FixedPart(f) + d| <= |p|
    ensures ReadFixed(p, NamesOf(f), FixedPart(f) + d) ==
            match ReadDefault(d, |p| - |d|)
            case BadDefault => Malformed
            case DefaultPanic => Panics
            case Default(length, value) =>
              Parsed(Received(f, p).(defaultValueLength := length, defaultValue := value))
  {
    FixedRoundTrip(f, p, d);
    assert |FixedPart(f)| == 13;
  }

  /** Lengths whose first byte is read back as the whole length. */
  predicate OneByteLength(n: uint64) { n <= 250 || n == 255 }

  /** A default value that survives: absent, or zero bytes only, as many as its length says. */
  predicate DefaultSurvives(f: Field) {
    match f.defaultValue
    case None => f.defaultValueLength == 0
    case Some(d) => |d| == f.defaultValueLength && OneByteLength(|d|) && forall i :: 0 <= i < |d| ==> d[i] == 0
  }

  lemma {:induction false} ZeroBytes(k: nat)
    ensures forall i :: 0 <= i < k ==> LeBytes(0, k)[i] == 0
  {
    if k > 0 { ZeroBytes(k - 1); }
  }

  /** Seven zero bytes in front of `d` do not show exactly when `d` is all zeros. */
  lemma ShiftedZeros(d: bytes, z: bytes)
    requires |z| == 7 && forall i :: 0 <= i < 7 ==> z[i] == 0
    ensures (z + d)[..|d|] == d <==> forall i :: 0 <= i < |d| ==> d[i] == 0
  {
    var w := (z + d)[..|d|];
    assert forall i :: 0 <= i < |w| ==> w[i] == if i < 7 then z[i] else d[i - 7];
    if w == d {
      forall i | 0 <= i < |d|
        ensures d[i] == 0
      {
        ShiftedZero(d, w, i);
      }
    }
  }

  lemma {:induction false} ShiftedZero(d: bytes, w: bytes, i: nat)
    requires i < |d| && w == d
    requires forall j :: 0 <= j < |w| ==> w[j] == if j < 7 then 0 else d[j - 7]
    ensures d[i] == 0
  {
    if i >= 7 {
      ShiftedZero(d, w, i - 7);
      assert w[i] == d[i - 7];
    }
  }

  /** Small lengths: the first byte is read as the length, the other seven stay in front of the value. */
  lemma SmallDefault(f: Field, at: nat)
    requires f.defaultValue.Some? && OneByteLength(f.defaultValueLength)
    ensures ReadDefault(DefaultPart(f), at) == Default(f.defaultValueLength, f.defaultValue) <==> DefaultSurvives(f)
  {
    var n, d := f.defaultValueLength, f.defaultValue.value;
    var p := DefaultPart(f);
    var z := LeBytes(n / 256, 7);
    ZeroBytes(7);
    assert p == [n] + (z + d);
    assert p[0] == n && LengthEncodedInt(p) == LenInt(n, false, 1);
    if 1 + n <= |p| {
      assert p[1..1 + n] == (z + d)[..n];
      if |d| == n { ShiftedZeros(d, z); }
    }
  }

  /** Larger lengths never come back. */
  lemma LargeDefault(f: Field, at: nat)
    requires f.defaultValue.Some? && !OneByteLength(f.defaultValueLength)
    ensures ReadDefault(DefaultPart(f), at) != Default(f.defaultValueLength, f.defaultValue)
  {
    var n, p := f.defaultValueLength, DefaultPart(f);
    assert p[0] == n % 256 && p[1..8] == LeBytes(n / 256, 7);
    if IntWidth(p) <= |p| {
      if p[0] == 0xfc {
        WideLength(n, p, 2);
      } else if p[0] == 0xfd {
        WideLength(n, p, 3);
      } else if p[0] == 0xfb {
        assert LengthEncodedInt(p).num == 0;
      } else if p[0] != 0xfe {
        assert LengthEncodedInt(p).num == n % 256 < n;
      }
    }
  }

  lemma WideLength(n: nat, p: bytes, w: nat)
    requires w <= 7 && |p| >= 8 && p[1..8] == LeBytes(n / 256, 7) && n > 0
    ensures LeValue(p[1..w + 1]) < n
  {
    LePrefix(n / 256, 7, w);
    FrontOf(p, w);
    LeAtMost(n / 256, w);
  }

  lemma FrontOf(p: bytes, w: nat)
    requires w <= 7 && |p| >= 8
    ensures p[1..w + 1] == p[1..8][..w]
  {
  }

  lemma LeAtMost(n: nat, w: nat)
    ensures LeValue(LeBytes(n, w)) <= n
  {
    LeRoundTrip(n, w);
    ModAtMost(n, Pow256(w));
  }

  lemma ModAtMost(n: nat, m: nat)
    requires m > 0
    ensures n % m <= n
  {
    if n < m { DivUnique(n, m, 0, n); }
  }

  lemma {:induction false} LePrefix(n: nat, k: nat, w: nat)
    requires w <= k
    ensures LeBytes(n, k)[..w] == LeBytes(n, w)
  {
    if w > 0 {
      LePrefix(n / 256, k - 1, w - 1);
    }
  }

  /** Dump and Parse are inverse exactly on fields whose default value is absent or all zero bytes, at
      most 250 or exactly 255 of them, with the matching length. */
  lemma RoundTripIff(f: Field)
    requires Sendable(f) && f.data.None?
    ensures ParseField(DumpField(f)) == Parsed(Received(f, DumpField(f))) <==> DefaultSurvives(f)
  {
    ParseDumped(f);
    if f.defaultValue.Some? {
      var at := |DumpField(f)| - |DefaultPart(f)|;
      if OneByteLength(f.defaultValueLength) { SmallDefault(f, at); } else { LargeDefault(f, at); }
    }
  }

  /** A one-byte default comes back as the zero byte of its own length field. */
  lemma DefaultLost()
    ensures var f := BLANK.(defaultValueLength := 1, defaultValue := Some([7]));
            Sendable(f) && ParseField(DumpField(f)) != Parsed(Received(f, DumpField(f)))
  {
    var f := BLANK.(defaultValueLength := 1, defaultValue := Some([7]));
    RoundTripIff(f);
    assert f.defaultValue.value[0] == 7;
    assert !DefaultSurvives(f);
  }
}
