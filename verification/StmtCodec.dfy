/** Statement arguments: the COM_STMT_EXECUTE packet (mysql/stmt.go) and reading its parameters back
    (proxy/conn_stmt.go). */
module StmtCodec {
  import opened Wrappers
  import opened Bytes
  import opened LengthEncoding
  import opened StringRuns
  import opened Sequences

  /** An argument. Floats are kept as the bits they are sent as; `Other` is a type that is not sent. */
  datatype Arg =
    | Nil
    | Int(width: Width, n: int)
    | Uint(width: Width, u: nat)
    | PlainInt(n: int)
    | PlainUint(u: nat)
    | Bool(b: bool)
    | Float32(bits: nat)
    | Float64(bits: nat)
    | Text(s: bytes)
    | Bin(s: bytes)
    | Other

  datatype Width = W8 | W16 | W32 | W64

  function Size(w: Width): nat { match w case W8 => 1 case W16 => 2 case W32 => 4 case W64 => 8 }

  /** Half the number of values of a width: the bound of its signed numbers. */
  function Half(w: Width): int {
    match w case W8 => 0x80 case W16 => 0x8000 case W32 => 0x8000_0000 case W64 => 0x8000_0000_0000_0000
  }

  lemma WidthBound(w: Width)
    ensures Pow256(Size(w)) == 2 * Half(w)
  {
    assert Pow256(1) == 0x100 && Pow256(2) == 0x10000 && Pow256(4) == 0x1_0000_0000 && Pow256(8) == 0x1_0000_0000_0000_0000;
  }

  predicate ValidArg(a: Arg) {
    match a
    case Int(w, n) => -Half(w) <= n < Half(w)
    case Uint(w, u) => u < 2 * Half(w)
    case PlainInt(n) => -Half(W64) <= n < Half(W64)
    case PlainUint(u) => u < 2 * Half(W64)
    case Float32(bits) => bits < 2 * Half(W32)
    case Float64(bits) => bits < 2 * Half(W64)
    case Text(s) => |s| <= MAX_INT64 - 9
    case Bin(s) => |s| <= MAX_INT64 - 9
    case _ => true
  }

  /** What an argument comes back as: plain integers as 64-bit ones, booleans as int8, strings as bytes. */
  function Widened(a: Arg): Arg {
    match a
    case PlainInt(n) => Int(W64, n)
    case PlainUint(u) => Uint(W64, u)
    case Bool(b) => Int(W8, if b then 1 else 0)
    case Text(s) => Bin(s)
    case _ => a
  }

  // ---------------------------------------------------------------- one argument

  function WidthType(w: Width): byte { match w case W8 => 1 case W16 => 2 case W32 => 3 case W64 => 8 }

  function TypeByte(a: Arg): byte {
    match a
    case Nil => 6
    case Int(w, _) => WidthType(w)
    case Uint(w, _) => WidthType(w)
    case PlainInt(_) => 8
    case PlainUint(_) => 8
    case Bool(_) => 1
    case Float32(_) => 4
    case Float64(_) => 5
    case _ => 0xfe
  }

  function FlagByte(a: Arg): byte { if a.Uint? || a.PlainUint? then 0x80 else 0 }

  /** Two's complement. */
  function Wrap(n: int, w: Width): nat
    requires -Half(w) <= n < Half(w)
  {
    if n < 0 then n + 2 * Half(w) else n
  }

  function Unwrap(u: nat, w: Width): int { if u >= Half(w) then u - 2 * Half(w) else u }

  function ValueBytes(a: Arg): bytes
    requires ValidArg(a)
  {
    match a
    case Nil => []
    case Int(w, n) => LeBytes(Wrap(n, w), Size(w))
    case Uint(w, u) => LeBytes(u, Size(w))
    case PlainInt(n) => LeBytes(Wrap(n, W64), 8)
    case PlainUint(u) => LeBytes(u, 8)
    case Bool(b) => [if b then 1 else 0]
    case Float32(bits) => LeBytes(bits, 4)
    case Float64(bits) => LeBytes(bits, 8)
    case Text(s) => PutLengthEncodedString(s)
    case Bin(s) => PutLengthEncodedString(s)
    case Other => []
  }

  /** A parameter read off the front of some bytes, with how many it took; or why not. */
  datatype Decoded = Got(arg: Arg, n: nat) | Bad | UnknownType | Panics

  const STRING_TYPES: set<byte> :=
    {0, 7, 10, 11, 12, 14, 15, 16, 0xf6, 0xf7, 0xf8, 0xf9, 0xfa, 0xfb, 0xfc, 0xfd, 0xfe, 0xff}

  function Fixed(p: bytes, w: Width, unsigned: bool): Decoded {
    if |p| < Size(w) then Bad
    else
      var u := LeValue(p[..Size(w)]);
      Got(if unsigned then Uint(w, u) else Int(w, Unwrap(u, w)), Size(w))
  }

  function Bits(p: bytes, w: Width): Decoded {
    if |p| < Size(w) then Bad
    else var u := LeValue(p[..Size(w)]); Got(if w.W32? then Float32(u) else Float64(u), Size(w))
  }

  function Decode(tp: byte, flag: byte, p: bytes): Decoded {
    var unsigned := flag >= 0x80;
    if tp == 6 then Got(Nil, 0)
    else if tp == 1 then Fixed(p, W8, unsigned)
    else if tp == 2 || tp == 13 then Fixed(p, W16, unsigned)
    else if tp == 9 || tp == 3 then Fixed(p, W32, unsigned)
    else if tp == 8 then Fixed(p, W64, unsigned)
    else if tp == 4 then Bits(p, W32)
    else if tp == 5 then Bits(p, W64)
    else if tp !in STRING_TYPES then UnknownType
    else if |p| < 1 then Bad
    else
      match LengthEncodedString(p)
      case Panic => Panics
      case Short(_) => Bad
      case LenStr(v, isNull, n) => Got(if isNull then Nil else Bin(v), n)
  }

  lemma FixedBack(u: nat, w: Width, tail: bytes)
    requires u < 2 * Half(w)
    ensures var p := LeBytes(u, Size(w)) + tail;
            |p| >= Size(w) && LeValue(p[..Size(w)]) == u
  {
    WidthBound(w);
    LeFits(u, Size(w));
    assert (LeBytes(u, Size(w)) + tail)[..Size(w)] == LeBytes(u, Size(w));
  }

  lemma IntBack(n: int, w: Width, tail: bytes)
    requires -Half(w) <= n < Half(w)
    ensures Fixed(LeBytes(Wrap(n, w), Size(w)) + tail, w, false) == Got(Int(w, n), Size(w))
  {
    FixedBack(Wrap(n, w), w, tail);
  }

  lemma UintBack(u: nat, w: Width, tail: bytes)
    requires u < 2 * Half(w)
    ensures Fixed(LeBytes(u, Size(w)) + tail, w, true) == Got(Uint(w, u), Size(w))
  {
    FixedBack(u, w, tail);
  }

  lemma IntRoundTrip(a: Arg, tail: bytes)
    requires ValidArg(a) && (a.Int? || a.PlainInt?)
    ensures Decode(TypeByte(a), FlagByte(a), ValueBytes(a) + tail) == Got(Widened(a), |ValueBytes(a)|)
  {
    var w := if a.Int? then a.width else W64;
    IntBack(a.n, w, tail);
    assert Decode(WidthType(w), 0, ValueBytes(a) + tail) == Fixed(ValueBytes(a) + tail, w, false);
  }

  lemma UintRoundTrip(a: Arg, tail: bytes)
    requires ValidArg(a) && (a.Uint? || a.PlainUint?)
    ensures Decode(TypeByte(a), FlagByte(a), ValueBytes(a) + tail) == Got(Widened(a), |ValueBytes(a)|)
  {
    var w := if a.Uint? then a.width else W64;
    UintBack(a.u, w, tail);
    assert Decode(WidthType(w), 0x80, ValueBytes(a) + tail) == Fixed(ValueBytes(a) + tail, w, true);
  }

  lemma BitsRoundTrip(a: Arg, tail: bytes)
    requires ValidArg(a) && (a.Bool? || a.Float32? || a.Float64?)
    ensures Decode(TypeByte(a), FlagByte(a), ValueBytes(a) + tail) == Got(Widened(a), |ValueBytes(a)|)
  {
    match a
    case Bool(b) =>
      assert LeBytes(if b then 1 else 0, 1) == [if b then 1 else 0];
      IntBack(if b then 1 else 0, W8, tail);
    case Float32(bits) => FixedBack(bits, W32, tail);
    case Float64(bits) => FixedBack(bits, W64, tail);
  }

  lemma StringArgRoundTrip(s: bytes, tail: bytes)
    requires |s| <= MAX_INT64 - 9
    ensures Decode(0xfe, 0, PutLengthEncodedString(s) + tail) == Got(Bin(s), |PutLengthEncodedString(s)|)
  {
    StringRoundTrip(s, tail);
  }

  /** Each sent argument is read back, widened, and its bytes are taken exactly, whatever follows. */
  lemma ArgRoundTrip(a: Arg, tail: bytes)
    requires ValidArg(a) && !a.Other?
    ensures Decode(TypeByte(a), FlagByte(a), ValueBytes(a) + tail) == Got(Widened(a), |ValueBytes(a)|)
  {
    if a.Text? || a.Bin? {
      StringArgRoundTrip(a.s, tail);
    } else if a.Bool? || a.Float32? || a.Float64? {
      BitsRoundTrip(a, tail);
    } else if a.Int? || a.PlainInt? {
      IntRoundTrip(a, tail);
    } else if !a.Nil? {
      UintRoundTrip(a, tail);
    }
  }

  // ---------------------------------------------------------------- the NULL bitmap

  /** Bit `k` of a number: b & (1 << k) > 0. */
  predicate BitAt(b: nat, k: nat) {
    if k == 0 then b % 2 == 1 else BitAt(b / 2, k - 1)
  }

  /** b | (1 << k). */
  function SetBit(b: nat, k: nat): nat {
    if k == 0 then b - b % 2 + 1 else 2 * SetBit(b / 2, k - 1) + b % 2
  }

  function Pow2(k: nat): nat { if k == 0 then 1 else 2 * Pow2(k - 1) }

  lemma {:induction false} SetBitFits(b: nat, k: nat, m: nat)
    requires b < Pow2(m) && k < m
    ensures SetBit(b, k) < Pow2(m)
  {
    var half := Pow2(m - 1);
    assert Pow2(m) == 2 * half;
    if k > 0 {
      SetBitFits(b / 2, k - 1, m - 1);
      assert SetBit(b / 2, k - 1) <= half - 1;
    }
  }

  lemma {:induction false} SetBitBits(b: nat, k: nat, j: nat)
    ensures BitAt(SetBit(b, k), j) <==> j == k || BitAt(b, j)
  {
    if k == 0 {
      assert SetBit(b, k) / 2 == b / 2;
    } else if j > 0 {
      SetBitBits(b / 2, k - 1, j - 1);
    }
  }

  lemma {:induction false} ZeroBits(j: nat)
    ensures !BitAt(0, j)
  {
    if j > 0 { ZeroBits(j - 1); }
  }

  /** The bitmap with bit `i` set. */
  function Marked(bitmap: bytes, i: nat): (r: bytes)
    requires i / 8 < |bitmap|
    ensures |r| == |bitmap|
  {
    assert Pow2(8) == 256;
    SetBitFits(bitmap[i / 8], i % 8, 8);
    bitmap[i / 8 := SetBit(bitmap[i / 8], i % 8)]
  }

  predicate IsNull(bitmap: bytes, i: nat)
    requires i / 8 < |bitmap|
  {
    BitAt(bitmap[i / 8], i % 8)
  }

  lemma MarkedBits(bitmap: bytes, i: nat, j: nat)
    requires i / 8 < |bitmap| && j / 8 < |bitmap|
    ensures IsNull(Marked(bitmap, i), j) <==> j == i || IsNull(bitmap, j)
  {
    if i / 8 == j / 8 {
      SetBitBits(bitmap[i / 8], i % 8, j % 8);
      assert i % 8 == j % 8 <==> i == j;
    }
  }

  function Zeros(n: nat): (r: bytes)
    ensures |r| == n && forall i :: 0 <= i < n ==> r[i] == 0
  {
    seq(n, (i: nat) => 0)
  }

  function BitmapSize(n: nat): nat { (n + 7) / 8 }

  /** The bitmap of the first `k` of `n` arguments. */
  function Bitmap(args: seq<Arg>, k: nat): (r: bytes)
    requires k <= |args|
    ensures |r| == BitmapSize(|args|)
  {
    if k == 0 then Zeros(BitmapSize(|args|))
    else if args[k - 1].Nil? then Marked(Bitmap(args, k - 1), k - 1)
    else Bitmap(args, k - 1)
  }

  /** A bit is set exactly for the arguments that are NULL. */
  lemma {:induction false} BitmapBits(args: seq<Arg>, k: nat, j: nat)
    requires k <= |args| && j < |args|
    ensures IsNull(Bitmap(args, k), j) <==> j < k && args[j].Nil?
  {
    if k == 0 {
      ZeroBits(j % 8);
    } else {
      BitmapBits(args, k - 1, j);
      if args[k - 1].Nil? { MarkedBits(Bitmap(args, k - 1), k - 1, j); }
    }
  }

  // ---------------------------------------------------------------- the packet

  const COM_STMT_EXECUTE: byte := 23

  predicate Sendable(args: seq<Arg>) { forall i :: 0 <= i < |args| ==> ValidArg(args[i]) && !args[i].Other? }

  predicate AllNull(args: seq<Arg>) { forall i :: 0 <= i < |args| ==> args[i].Nil? }

  /** Two bytes per argument: type and unsigned flag. */
  function Types(args: seq<Arg>): (r: bytes)
    ensures |r| == 2 * |args|
  {
    if args == [] then []
    else var n := |args| - 1; Types(args[..n]) + [TypeByte(args[n]), FlagByte(args[n])]
  }

  lemma {:induction false} TypesAt(args: seq<Arg>, i: nat)
    requires i < |args|
    ensures Types(args)[2 * i] == TypeByte(args[i]) && Types(args)[2 * i + 1] == FlagByte(args[i])
  {
    var n := |args| - 1;
    if i < n { TypesAt(args[..n], i); }
  }

  predicate AllValid(args: seq<Arg>) { forall i :: 0 <= i < |args| ==> ValidArg(args[i]) }

  function ArgValues(args: seq<Arg>): (r: seq<bytes>)
    requires AllValid(args)
    ensures |r| == |args| && forall i :: 0 <= i < |args| ==> r[i] == ValueBytes(args[i])
  {
    seq(|args|, (i: nat) requires i < |args| => ValueBytes(args[i]))
  }

  function Header(id: nat): bytes { [COM_STMT_EXECUTE] + LeBytes(id, 4) + [0] + [1, 0, 0, 0] }

  /** The parameter block: bitmap, bound flag, types, values. */
  function Params(args: seq<Arg>): bytes
    requires AllValid(args)
  {
    if args == [] then []
    else if AllNull(args) then Bitmap(args, |args|) + [0]
    else Bitmap(args, |args|) + [1] + Types(args) + Joined(ArgValues(args))
  }

  /** MySqlStmt.write; `None` is an error: too few or too many arguments, or a type that is not sent. */
  method Write(id: nat, params: nat, args: seq<Arg>) returns (r: Option<bytes>)
    requires AllValid(args)
    ensures r.Some? <==> |args| == params && Sendable(args)
    ensures r.Some? ==> r.value == Header(id) + Params(args)
  {
    if |args| != params {
      return None;
    }
    var nullBitmap := NullBitmap(args);
    var paramTypes, paramValues, bound := Fill(a => if ValidArg(a) then ValueBytes(a) else [], args);
    if bound.None? {
      return None;
    }
    assert paramValues == ArgValues(args);
    var data := Header(id);
    if params > 0 {
      var block := nullBitmap + [bound.value];
      if bound.value == 1 {
        block := block + paramTypes;
        var values := JoinAll(paramValues);
        block := block + values;
      }
      data := data + block;
    } else {
      assert data == data + [];
    }
    return Some(data);
  }

  /** What the argument loop of write does for NULLs. */
  method NullBitmap(args: seq<Arg>) returns (nullBitmap: bytes)
    ensures nullBitmap == Bitmap(args, |args|)
  {
    nullBitmap := Zeros(BitmapSize(|args|));
    for i := 0 to |args|
      invariant nullBitmap == Bitmap(args, i)
    {
      if args[i].Nil? {
        nullBitmap := Marked(nullBitmap, i);
      }
    }
  }

  /** What it does for types and values, and whether any argument is bound; `None` when an argument has
      no type to be sent as. */
  method Fill(value: Arg -> bytes, args: seq<Arg>) returns (paramTypes: bytes, paramValues: seq<bytes>, bound: Option<byte>)
    requires value(Nil) == []
    ensures bound.None? <==> exists k :: 0 <= k < |args| && args[k].Other?
    ensures bound.Some? ==> bound.value == if AllNull(args) then 0 else 1
    ensures bound.Some? ==> paramTypes == Types(args)
    ensures bound.Some? ==> |paramValues| == |args| && forall k :: 0 <= k < |args| ==> paramValues[k] == value(args[k])
  {
    var params := |args|;
    paramTypes, paramValues := Zeros(2 * params), seq(params, (i: nat) => []);
    ghost var types := Types(args);
    var flag: byte := 0;
    for i := 0 to params
      invariant flag == 0 || flag == 1
      invariant flag == 0 <==> forall k :: 0 <= k < i ==> args[k].Nil?
      invariant forall k :: 0 <= k < i ==> !args[k].Other?
      invariant TypesSet(paramTypes, types, i)
      invariant |paramValues| == params && forall k :: 0 <= k < params ==>
                paramValues[k] == if k < i then value(args[k]) else []
    {
      var a := args[i];
      if a.Other? {
        return paramTypes, paramValues, None;
      }
      TypesAt(args, i);
      paramTypes := PutType(paramTypes, i, a, types);
      if !a.Nil? {
        flag := 1;
        paramValues := paramValues[i := value(a)];
      }
    }
    assert paramTypes == types;
    bound := Some(flag);
  }

  /** The type bytes of the first `i` arguments are in place, the others still zero. */
  ghost predicate TypesSet(paramTypes: bytes, types: bytes, i: nat) {
    |paramTypes| == |types| && forall j :: 0 <= j < |types| ==> paramTypes[j] == if j < 2 * i then types[j] else 0
  }

  method PutType(paramTypes: bytes, i: nat, a: Arg, ghost types: bytes) returns (r: bytes)
    requires TypesSet(paramTypes, types, i) && 2 * i + 1 < |types|
    requires types[2 * i] == TypeByte(a) && types[2 * i + 1] == FlagByte(a)
    ensures TypesSet(r, types, i + 1)
  {
    r := paramTypes[2 * i := TypeByte(a)];
    if a.Uint? || a.PlainUint? {
      r := r[2 * i + 1 := 0x80];
    }
  }

  method JoinAll(parts: seq<bytes>) returns (data: bytes)
    ensures data == Joined(parts)
  {
    data := [];
    for i := 0 to |parts|
      invariant data == Joined(parts[..i])
    {
      assert parts[..i + 1][..i] == parts[..i];
      data := data + parts[i];
    }
    assert parts[..|parts|] == parts;
  }

  // ---------------------------------------------------------------- reading parameters

  type Decoder = (byte, byte, bytes) -> Decoded

  const DECODER: Decoder := (tp: byte, flag: byte, p: bytes) => Decode(tp, flag, p)

  /** Parameter `i`, from the bytes not yet consumed. */
  function ParamAt(dec: Decoder, bitmap: bytes, types: bytes, i: nat, rest: bytes): Decoded {
    if i / 8 >= |bitmap| then Panics
    else if IsNull(bitmap, i) then Got(Nil, 0)
    else if 2 * i + 1 >= |types| then Panics
    else dec(types[2 * i], types[2 * i + 1], rest)
  }

  /** The arguments bound so far and the value bytes left, or why binding stopped. */
  datatype Binding = Bound(args: seq<Arg>, rest: bytes) | Failed(args: seq<Arg>, why: Decoded)

  function BindNext(dec: Decoder, bitmap: bytes, types: bytes, b: Binding): Binding {
    if b.Failed? then b
    else
      var d := ParamAt(dec, bitmap, types, |b.args|, b.rest);
      if d.Got? && d.n <= |b.rest| then Bound(b.args + [d.arg], b.rest[d.n..])
      else Failed(b.args, if d.Got? then Panics else d)
  }

  /** bindStmtArgs on the first `k` parameters. */
  function Binds(dec: Decoder, bitmap: bytes, types: bytes, values: bytes, k: nat): (r: Binding)
    ensures r.Bound? ==> |r.args| == k
    ensures r.Failed? ==> |r.args| < k
  {
    if k == 0 then Bound([], values) else BindNext(dec, bitmap, types, Binds(dec, bitmap, types, values, k - 1))
  }

  lemma {:induction false} BindsStop(dec: Decoder, bitmap: bytes, types: bytes, values: bytes, i: nat, k: nat)
    requires i <= k && Binds(dec, bitmap, types, values, i).Failed?
    ensures Binds(dec, bitmap, types, values, k) == Binds(dec, bitmap, types, values, i)
  {
    if i < k { BindsStop(dec, bitmap, types, values, i, k - 1); }
  }

  /** The first `i` arguments are bound, up to offset `pos`; the others are as they were. */
  ghost predicate BoundTo(dec: Decoder, bitmap: bytes, types: bytes, values: bytes, before: seq<Arg>, args: seq<Arg>,
                          i: nat, pos: nat)
    requires pos <= |values|
  {
    && i <= |args| == |before| && args == args[..i] + before[i..]
    && Binds(dec, bitmap, types, values, i) == Bound(args[..i], values[pos..])
  }

  /** One argument more, or the end. */
  lemma BindOne(dec: Decoder, bitmap: bytes, types: bytes, values: bytes, before: seq<Arg>, args: seq<Arg>, i: nat,
                pos: nat, d: Decoded)
    requires pos <= |values| && BoundTo(dec, bitmap, types, values, before, args, i, pos) && i < |args|
    requires d == ParamAt(dec, bitmap, types, i, values[pos..])
    ensures d.Got? && d.n <= |values| - pos ==>
              BoundTo(dec, bitmap, types, values, before, args[i := d.arg], i + 1, pos + d.n)
    ensures !d.Got? || d.n > |values| - pos ==>
              Binds(dec, bitmap, types, values, |args|) == Failed(args[..i], if d.Got? then Panics else d)
  {
    if d.Got? && d.n <= |values| - pos {
      assert values[pos..][d.n..] == values[pos + d.n..];
      assert args[i := d.arg][..i + 1] == args[..i] + [d.arg];
    } else {
      BindsStop(dec, bitmap, types, values, i + 1, |args|);
    }
  }

  /** A prepared statement with room for its arguments. */
  class Stmt {
    const params: nat
    var args: seq<Arg>

    constructor (params: nat)
      ensures this.params == params && args == seq(params, (i: nat) => Nil)
    {
      this.params := params;
      args := seq(params, (i: nat) => Nil);
    }

    /** Writes the arguments in place; on failure those already read stay. */
    method BindStmtArgs(dec: Decoder, bitmap: bytes, types: bytes, values: bytes)
      returns (failure: Option<Decoded>, pos: nat)
      requires |args| == params
      modifies this
      ensures var b := Binds(dec, bitmap, types, values, params);
              && args == b.args + old(args)[|b.args|..]
              && failure == (if b.Bound? then None else Some(b.why))
              && (b.Bound? ==> pos <= |values| && b.rest == values[pos..])
    {
      pos := 0;
      ghost var before := args;
      for i := 0 to params
        invariant pos <= |values| && |args| == params && BoundTo(dec, bitmap, types, values, before, args, i, pos)
      {
        var d := ParamAt(dec, bitmap, types, i, values[pos..]);
        BindOne(dec, bitmap, types, values, before, args, i, pos, d);
        if !d.Got? || d.n > |values| - pos {
          return Some(if d.Got? then Panics else d), pos;
        }
        args := args[i := d.arg];
        pos := pos + d.n;
      }
      failure := None;
    }
  }

  // ---------------------------------------------------------------- round trip

  function AllWidened(args: seq<Arg>): (r: seq<Arg>)
    ensures |r| == |args| && forall i :: 0 <= i < |r| ==> r[i] == Widened(args[i])
  {
    seq(|args|, (i: nat) requires i < |args| => Widened(args[i]))
  }

  /** Bytes from which parameter `i` is read back as `a`, whatever follows them. */
  ghost predicate ReadsBack(dec: Decoder, bitmap: bytes, types: bytes, i: nat, value: bytes, a: Arg) {
    forall tail: bytes :: ParamAt(dec, bitmap, types, i, value + tail) == Got(a, |value|)
  }

  lemma {:induction false} BindsBack(dec: Decoder, bitmap: bytes, types: bytes, values: seq<bytes>, args: seq<Arg>,
                                     rest: bytes)
    requires |values| == |args|
    requires forall i :: 0 <= i < |args| ==> ReadsBack(dec, bitmap, types, i, values[i], args[i])
    ensures Binds(dec, bitmap, types, Joined(values) + rest, |args|) == Bound(args, rest)
  {
    if args == [] {
      assert Joined(values) + rest == rest;
    } else {
      var n := |args| - 1;
      assert forall i :: 0 <= i < n ==> values[..n][i] == values[i] && args[..n][i] == args[i];
      BindsBack(dec, bitmap, types, values[..n], args[..n], values[n] + rest);
      Assoc(Joined(values[..n]), values[n], rest);
      assert ReadsBack(dec, bitmap, types, n, values[n], args[n]);
      assert (values[n] + rest)[|values[n]|..] == rest;
      assert args[..n] + [args[n]] == args;
    }
  }

  /** Bytes that decode to `a`, at parameter `i`, read back as it. */
  lemma DecodesBack(dec: Decoder, bitmap: bytes, types: bytes, i: nat, value: bytes, a: Arg)
    requires i / 8 < |bitmap| && !IsNull(bitmap, i) && 2 * i + 1 < |types|
    requires forall tail: bytes :: dec(types[2 * i], types[2 * i + 1], value + tail) == Got(a, |value|)
    ensures ReadsBack(dec, bitmap, types, i, value, a)
  {
  }

  lemma NullBack(dec: Decoder, bitmap: bytes, types: bytes, i: nat)
    requires i / 8 < |bitmap| && IsNull(bitmap, i)
    ensures ReadsBack(dec, bitmap, types, i, [], Nil)
  {
  }

  lemma ParamBack(args: seq<Arg>, types: bytes, i: nat)
    requires Sendable(args) && i < |args| && (args[i].Nil? || types == Types(args))
    ensures ReadsBack(DECODER, Bitmap(args, |args|), types, i, ValueBytes(args[i]), Widened(args[i]))
  {
    var a := args[i];
    BitmapBits(args, |args|, i);
    if a.Nil? {
      NullBack(DECODER, Bitmap(args, |args|), types, i);
    } else {
      TypesAt(args, i);
      forall tail: bytes
        ensures DECODER(types[2 * i], types[2 * i + 1], ValueBytes(a) + tail) == Got(Widened(a), |ValueBytes(a)|)
      {
        ArgRoundTrip(a, tail);
      }
      DecodesBack(DECODER, Bitmap(args, |args|), types, i, ValueBytes(a), Widened(a));
    }
  }

  /** The type and value parts of a parameter block. */
  function TypesPart(args: seq<Arg>): bytes { if AllNull(args) then [] else Types(args) }

  function ValuesPart(args: seq<Arg>): bytes
    requires AllValid(args)
  {
    if AllNull(args) then [] else Joined(ArgValues(args))
  }

  lemma {:induction false} NullValues(args: seq<Arg>)
    requires AllValid(args) && AllNull(args)
    ensures Joined(ArgValues(args)) == []
  {
    if args != [] {
      var n := |args| - 1;
      NullValues(args[..n]);
      assert ArgValues(args)[..n] == ArgValues(args[..n]);
    }
  }

  /** For every list of supported arguments, NULLs included, binding the parts of the packet gives the
      arguments back, widened, and consumes the value bytes exactly, whatever follows them. */
  lemma BindRoundTrip(args: seq<Arg>, rest: bytes)
    requires Sendable(args) && AllValid(args)
    ensures Binds(DECODER, Bitmap(args, |args|), TypesPart(args), ValuesPart(args) + rest, |args|) ==
            Bound(AllWidened(args), rest)
  {
    var bitmap, types := Bitmap(args, |args|), TypesPart(args);
    if AllNull(args) { NullValues(args); }
    forall i | 0 <= i < |args|
      ensures ReadsBack(DECODER, bitmap, types, i, ArgValues(args)[i], AllWidened(args)[i])
    {
      ParamBack(args, types, i);
    }
    BindsBack(DECODER, bitmap, types, ArgValues(args), AllWidened(args), rest);
  }

  // ---------------------------------------------------------------- cutting the packet

  /** The parts of a COM_STMT_EXECUTE payload. */
  datatype Cut = Cut(id: nat, bitmap: bytes, types: bytes, values: bytes)

  /** The payload of a statement with `n` parameters, cut by the protocol's offsets: after ten bytes of
      header the bitmap, the bound flag, two type bytes per parameter if the flag is set, and the values. */
  function CutAt(payload: bytes, n: nat): Option<Cut> {
    if |payload| < 10 then None
    else if n == 0 then Some(Cut(LeValue(payload[1..5]), [], [], payload[10..]))
    else
      var flag := 10 + BitmapSize(n);
      if |payload| <= flag then None
      else
        var types := if payload[flag] == 1 then 2 * n else 0;
        if |payload| < flag + 1 + types then None
        else Some(Cut(LeValue(payload[1..5]), payload[10..flag], payload[flag + 1..flag + 1 + types],
          payload[flag + 1 + types..]))
  }

  /** The command of the protocol, no cursor, one execution. */
  predicate IsExecute(payload: bytes) {
    |payload| >= 10 && payload[0] == 0x17 && payload[5] == 0 && LeValue(payload[6..10]) == 1
  }

  lemma HeaderRead(id: nat)
    requires id < Pow256(4)
    ensures |Header(id)| == 10 && LeValue(Header(id)[1..5]) == id && IsExecute(Header(id))
  {
    LeRoundTrip(id, 4);
    assert Header(id)[1..5] == LeBytes(id, 4);
    LeRoundTrip(1, 4);
    OneLe();
    assert Header(id)[6..10] == [1, 0, 0, 0];
  }

  lemma OneLe()
    ensures LeBytes(1, 4) == [1, 0, 0, 0]
  {
    assert LeBytes(0, 3) == [0, 0, 0] by {
      assert LeBytes(0, 2) == [0, 0] by { assert LeBytes(0, 1) == [0]; }
    }
  }

  /** Every packet that is sent says so. */
  lemma SentIsExecute(id: nat, params: bytes)
    requires id < Pow256(4)
    ensures IsExecute(Header(id) + params)
  {
    HeaderRead(id);
    assert (Header(id) + params)[6..10] == Header(id)[6..10];
  }

  lemma CutParts(header: bytes, bitmap: bytes, flag: byte, types: bytes, values: bytes, n: nat)
    requires |header| == 10 && n > 0 && |bitmap| == BitmapSize(n) && |types| == if flag == 1 then 2 * n else 0
    ensures CutAt(header + (bitmap + [flag] + types + values), n) == Some(Cut(LeValue(header[1..5]), bitmap, types, values))
  {
    var payload := header + (bitmap + [flag] + types + values);
    var at := 10 + |bitmap|;
    assert payload[1..5] == header[1..5];
    assert payload[at] == flag;
    assert payload[10..at] == bitmap;
    assert payload[at + 1..at + 1 + |types|] == types;
    assert payload[at + 1 + |types|..] == values;
  }

  lemma CutNothing(header: bytes, rest: bytes)
    requires |header| == 10
    ensures CutAt(header + [] + rest, 0) == Some(Cut(LeValue(header[1..5]), [], [], rest))
  {
    var payload := header + [] + rest;
    assert payload[1..5] == header[1..5];
    assert payload[10..] == rest;
  }

  lemma ParamsParts(args: seq<Arg>)
    requires AllValid(args) && args != []
    ensures Params(args) == Bitmap(args, |args|) + [if AllNull(args) then 0 else 1] + TypesPart(args) + ValuesPart(args)
  {
    NothingMore(Bitmap(args, |args|) + [0]);
  }

  lemma NothingMore(a: bytes)
    ensures a + [] + [] == a
  {
  }

  /** The same when the parameter block is a given one. */
  lemma CutBlock(header: bytes, block: bytes, rest: bytes, bitmap: bytes, flag: byte, types: bytes, values: bytes, n: nat)
    requires |header| == 10 && n > 0 && |bitmap| == BitmapSize(n) && |types| == if flag == 1 then 2 * n else 0
    requires block == bitmap + [flag] + types + values
    ensures CutAt(header + block + rest, n) == Some(Cut(LeValue(header[1..5]), bitmap, types, values + rest))
  {
    Assoc(bitmap + [flag] + types, values, rest);
    Assoc(header, block, rest);
    CutParts(header, bitmap, flag, types, values + rest, n);
  }

  lemma CutSent(id: nat, args: seq<Arg>, rest: bytes)
    requires AllValid(args) && |Header(id)| == 10 && LeValue(Header(id)[1..5]) == id
    ensures CutAt(Header(id) + Params(args) + rest, |args|) ==
            Some(Cut(id, if args == [] then [] else Bitmap(args, |args|), TypesPart(args), ValuesPart(args) + rest))
  {
    if args == [] {
      CutNothing(Header(id), rest);
      assert ValuesPart(args) + rest == rest;
    } else {
      ParamsParts(args);
      CutBlock(Header(id), Params(args), rest, Bitmap(args, |args|), if AllNull(args) then 0 else 1, TypesPart(args),
        ValuesPart(args), |args|);
    }
  }

  /** A sent packet, cut by offsets and bound, gives back the statement's number and the arguments,
      widened, and leaves whatever follows. */
  lemma ExecuteRoundTrip(id: nat, args: seq<Arg>, rest: bytes)
    requires Sendable(args) && AllValid(args) && id < Pow256(4)
    ensures var c := CutAt(Header(id) + Params(args) + rest, |args|);
            && c.Some? && c.value.id == id
            && Binds(DECODER, c.value.bitmap, c.value.types, c.value.values, |args|) == Bound(AllWidened(args), rest)
  {
    HeaderRead(id);
    CutSent(id, args, rest);
    BindRoundTrip(args, rest);
  }
}
