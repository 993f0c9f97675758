/** Length-encoded integers and strings (mysql/util.go): one, three, four or nine bytes. */
module LengthEncoding {
  import opened Bytes

  /** A decoded length-encoded integer: the number, the NULL mark, and the bytes used. */
  datatype LenInt = LenInt(num: nat, isNull: bool, n: nat)

  /** Outcome of reading a length-encoded string. `Short` is the io.EOF error; `Panic` is
      an index or slice bound outside the input, as when `int(num)` wraps to a negative. */
  datatype LenStr =
    | LenStr(value: seq<byte>, isNull: bool, n: nat)
    | Short(n: nat)
    | Panic

  function PutLengthEncodedInt(n: nat): (r: seq<byte>)
    requires n <= MAX_UINT64
    ensures 1 <= |r| <= 9
    ensures r[0] != 0xfb && r[0] != 0xff
    ensures r[0] == 0 <==> n == 0
    ensures r[0] == 0xfe <==> n > 0xffffff
  {
    if n <= 250 then [n]
    else if n <= 0xffff then [0xfc] + LeBytes(n, 2)
    else if n <= 0xffffff then [0xfd] + LeBytes(n, 3)
    else [0xfe] + LeBytes(n, 8)
  }

  /** How many bytes the integer at the head of `b` occupies. */
  function IntWidth(b: seq<byte>): (r: nat)
    requires |b| > 0
    ensures 1 <= r <= 9
  {
    match b[0]
    case 0xfc => 3
    case 0xfd => 4
    case 0xfe => 9
    case _ => 1
  }

  function LengthEncodedInt(b: seq<byte>): (r: LenInt)
    requires |b| > 0 && IntWidth(b) <= |b|
    ensures r.n == IntWidth(b)
    ensures r.num <= MAX_UINT64
    ensures r.isNull ==> r.num == 0
  {
    var w := IntWidth(b);
    if b[0] == 0xfb then LenInt(0, true, 1)
    else if w > 1 then
      assert Pow256(8) == MAX_UINT64 + 1 && Pow256(w - 1) <= Pow256(8);
      LenInt(LeValue(b[1..w]), false, w)
    else LenInt(b[0], false, 1)
  }

  function LengthEncodedString(b: seq<byte>): (r: LenStr)
    ensures r.LenStr? ==> r.n <= |b|
    ensures r.LenStr? && r.isNull ==> r.value == []
  {
    if |b| == 0 || IntWidth(b) > |b| then Panic
    else
      var i := LengthEncodedInt(b);
      if i.num < 1 then LenStr([], i.isNull, i.n)
      else if i.n + i.num > MAX_INT64 then Panic
      else if i.n + i.num <= |b| then LenStr(b[i.n..i.n + i.num], false, i.n + i.num)
      else Short(i.n + i.num)
  }

  function PutLengthEncodedString(s: seq<byte>): (r: seq<byte>)
    requires |s| <= MAX_UINT64
    ensures |r| == |PutLengthEncodedInt(|s|)| + |s|
  {
    PutLengthEncodedInt(|s|) + s
  }

  /** Decoding an encoded integer, whatever follows it, gives the integer and its width. */
  lemma IntRoundTrip(n: nat, rest: seq<byte>)
    requires n <= MAX_UINT64
    ensures var e := PutLengthEncodedInt(n);
            IntWidth(e + rest) == |e| && LengthEncodedInt(e + rest) == LenInt(n, false, |e|)
  {
    var e := PutLengthEncodedInt(n);
    if n > 250 {
      var k := |e| - 1;
      assert (e + rest)[1..|e|] == LeBytes(n, k);
      assert Pow256(2) == 0x10000 && Pow256(3) == 0x1000000 && Pow256(8) == MAX_UINT64 + 1;
      LeFits(n, k);
    }
  }

  /** Decoding an encoded string, whatever follows it, gives the string and stops after it. */
  lemma StringRoundTrip(s: seq<byte>, rest: seq<byte>)
    requires |s| <= MAX_INT64 - 9
    ensures var e := PutLengthEncodedString(s);
            LengthEncodedString(e + rest) == LenStr(s, false, |e|)
  {
    var h := PutLengthEncodedInt(|s|);
    IntRoundTrip(|s|, s + rest);
    assert h + s + rest == h + (s + rest);
    assert (h + s + rest)[|h|..|h| + |s|] == s;
  }
}
