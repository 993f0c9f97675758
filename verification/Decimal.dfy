/** The integer formatting and parsing of Go's strconv that the proxy relies on. */
module Decimal {
  import opened Wrappers
  import opened Bytes

  predicate IsDigit(c: char) { '0' <= c <= '9' }

  /** The value of a digit character, 16 when it is none. */
  function DigitVal(c: char): (r: nat)
    ensures r <= 16
  {
    if '0' <= c <= '9' then (c - '0') as int
    else if 'a' <= c <= 'f' then (c - 'a') as int + 10
    else if 'A' <= c <= 'F' then (c - 'A') as int + 10
    else 16
  }

  /** A non-empty digit string read in the given base. */
  function ParseNat(s: string, base: nat): (r: Option<nat>)
    requires 2 <= base <= 16
    ensures r.Some? ==> |s| > 0 && forall i :: 0 <= i < |s| ==> DigitVal(s[i]) < base
  {
    if |s| == 0 then None
    else
      var d := DigitVal(s[|s| - 1]);
      if d >= base then None
      else if |s| == 1 then Some(d)
      else
        match ParseNat(s[..|s| - 1], base)
        case None => None
        case Some(h) => Some(Appended(h, base, d))
  }

  function Appended(h: nat, base: nat, d: nat): nat { h * base + d }

  function ParseUint(s: string, base: nat): (r: Option<nat>)
    requires 2 <= base <= 16
    ensures r.Some? ==> r.value <= MAX_UINT64
  {
    var v := ParseNat(s, base);
    if v.Some? && v.value <= MAX_UINT64 then v else None
  }

  function ParseInt(s: string, base: nat): (r: Option<int>)
    requires 2 <= base <= 16
    ensures r.Some? ==> MIN_INT64 <= r.value <= MAX_INT64
  {
    if |s| == 0 then None
    else
      var neg := s[0] == '-';
      var v := ParseNat(if neg || s[0] == '+' then s[1..] else s, base);
      if v.None? then None
      else Signed(neg, v.value)
  }

  /** A magnitude with its sign, when it fits 64 bits. */
  function Signed(neg: bool, magnitude: nat): (r: Option<int>) {
    var m: int := magnitude;
    var v := if neg then -m else m;
    if MIN_INT64 <= v <= MAX_INT64 then Some(v) else None
  }

  function FormatUint(n: nat): (s: string)
    ensures |s| > 0 && forall i :: 0 <= i < |s| ==> IsDigit(s[i])
  {
    var d := '0' + (n % 10) as char;
    if n < 10 then [d] else FormatUint(n / 10) + [d]
  }

  function FormatInt(n: int): (s: string)
    ensures |s| > 0
  {
    if n < 0 then "-" + FormatUint(-n) else FormatUint(n)
  }

  lemma {:induction false} FormatNatRoundTrip(n: nat)
    ensures ParseNat(FormatUint(n), 10) == Some(n)
  {
    var d := '0' + (n % 10) as char;
    assert DigitVal(d) == n % 10;
    if n >= 10 {
      FormatNatRoundTrip(n / 10);
      var s := FormatUint(n);
      assert s[..|s| - 1] == FormatUint(n / 10);
    }
  }

  lemma UintRoundTrip(n: nat)
    requires n <= MAX_UINT64
    ensures ParseUint(FormatUint(n), 10) == Some(n)
  {
    FormatNatRoundTrip(n);
  }

  lemma ParseIntDigits(s: string, v: nat)
    requires |s| > 0 && IsDigit(s[0]) && ParseNat(s, 10) == Some(v)
    ensures ParseInt(s, 10) == Signed(false, v) && ParseInt("-" + s, 10) == Signed(true, v)
  {
    assert ("-" + s)[1..] == s;
  }

  lemma IntRoundTrip(n: int)
    requires MIN_INT64 <= n <= MAX_INT64
    ensures ParseInt(FormatInt(n), 10) == Some(n)
  {
    var m := if n < 0 then -n else n;
    FormatNatRoundTrip(m);
    ParseIntDigits(FormatUint(m), m);
  }
}
