/** Key-range sharding (router/numkey.go, router/key.go, router/shard.go). */
module Sharding {
  import opened Wrappers
  import opened Bytes
  import D = Decimal
  import S = Schema

  // ---------------------------------------------------------------- specs

  /** strings.Split(spec, "-"). */
  function Split(spec: string): (r: seq<string>)
    ensures |r| > 0 && forall i :: 0 <= i < |r| ==> '-' !in r[i]
    decreases |spec|
  {
    if '-' !in spec then [spec]
    else
      var i := FirstDash(spec);
      [spec[..i]] + Split(spec[i + 1..])
  }

  function FirstDash(s: string): (i: nat)
    requires '-' in s
    ensures i < |s| && s[i] == '-' && '-' !in s[..i]
  {
    if s[0] == '-' then 0
    else
      assert '-' in s[1..];
      var i := FirstDash(s[1..]) + 1;
      assert s[..i] == [s[0]] + s[1..][..i - 1];
      i
  }

  function JoinDashes(parts: seq<string>): string
    requires parts != []
  {
    if |parts| == 1 then parts[0] else parts[0] + "-" + JoinDashes(parts[1..])
  }

  /** Splitting loses nothing. */
  lemma {:induction false} SplitJoin(spec: string)
    ensures JoinDashes(Split(spec)) == spec
    decreases |spec|
  {
    if '-' in spec {
      var i := FirstDash(spec);
      SplitJoin(spec[i + 1..]);
      assert Split(spec)[1..] == Split(spec[i + 1..]);
      assert spec == spec[..i] + "-" + spec[i + 1..];
    }
  }

  // ---------------------------------------------------------------- numeric ranges

  const MIN_NUM_KEY := MIN_INT64

  const MAX_NUM_KEY: int := MAX_INT64

  type int64 = x: int | MIN_NUM_KEY <= x <= MAX_NUM_KEY

  datatype NumRange = NumRange(start: int64, end: int64)

  predicate NumContains(r: NumRange, i: int64) { r.start <= i && (r.end == MAX_NUM_KEY || i < r.end) }

  /** How a limit is read. */
  type NumReader = string -> Option<int64>

  const DECIMAL: NumReader := s => D.ParseInt(s, 10)

  /** A limit of a spec: a number, or nothing at either end. */
  function NumLimit(read: NumReader, parts: seq<string>, i: nat): Option<int64>
    requires i < |parts|
  {
    if parts[i] != "" then read(parts[i])
    else if i == 0 then Some(MIN_NUM_KEY)
    else if i == |parts| - 1 then Some(MAX_NUM_KEY)
    else None
  }

  /** A spec that is accepted: at least two limits, all of them numbers, in order. */
  predicate NumAccepted(read: NumReader, parts: seq<string>) {
    && |parts| > 1
    && (forall i :: 0 <= i < |parts| ==> NumLimit(read, parts, i).Some?)
    && (forall i :: 0 < i < |parts| ==> NumLimit(read, parts, i - 1).value < NumLimit(read, parts, i).value)
  }

  function NumRanges(read: NumReader, parts: seq<string>): (r: seq<NumRange>)
    requires NumAccepted(read, parts)
    ensures |r| == |parts| - 1
    ensures forall i :: 0 <= i < |r| ==>
              r[i] == NumRange(NumLimit(read, parts, i).value, NumLimit(read, parts, i + 1).value)
  {
    seq(|parts| - 1, (i: nat) requires i < |parts| - 1 =>
      NumRange(NumLimit(read, parts, i).value, NumLimit(read, parts, i + 1).value))
  }

  /** ParseNumShardingSpec on the parts of a spec. */
  method ParseNumParts(read: NumReader, parts: seq<string>) returns (r: Option<seq<NumRange>>)
    requires parts != []
    ensures r.Some? <==> NumAccepted(read, parts)
    ensures r.Some? ==> r.value == NumRanges(read, parts)
  {
    if |parts| == 1 {
      return None;
    }
    var old': int64 := MIN_NUM_KEY;
    if |parts[0]| != 0 {
      var n := read(parts[0]);
      if n.None? {
        assert NumLimit(read, parts, 0).None?;
        return None;
      }
      old' := n.value;
    }
    var ranges: seq<NumRange> := [];
    for i := 0 to |parts| - 1
      invariant |ranges| == i && NumLimit(read, parts, i) == Some(old')
      invariant forall k :: 0 <= k <= i ==> NumLimit(read, parts, k).Some?
      invariant forall k :: 0 < k <= i ==> NumLimit(read, parts, k - 1).value < NumLimit(read, parts, k).value
      invariant forall k :: 0 <= k < i ==>
                  ranges[k] == NumRange(NumLimit(read, parts, k).value, NumLimit(read, parts, k + 1).value)
    {
      var p := parts[i + 1];
      if p == "" && i != |parts| - 2 {
        assert NumLimit(read, parts, i + 1).None?;
        return None;
      }
      var n: int64 := MAX_NUM_KEY;
      if p != "" {
        var v := read(p);
        if v.None? {
          assert NumLimit(read, parts, i + 1).None?;
          return None;
        }
        n := v.value;
      }
      assert NumLimit(read, parts, i + 1) == Some(n);
      if n <= old' {
        return None;
      }
      ranges := ranges + [NumRange(old', n)];
      old' := n;
    }
    return Some(ranges);
  }

  method ParseNumShardingSpec(spec: string) returns (r: Option<seq<NumRange>>)
    ensures r.Some? <==> NumAccepted(DECIMAL, Split(spec))
    ensures r.Some? ==> r.value == NumRanges(DECIMAL, Split(spec))
  {
    r := ParseNumParts(DECIMAL, Split(spec));
  }

  /** Ranges that follow each other without gaps, none of them empty. */
  ghost predicate NumChained(ranges: seq<NumRange>) {
    && ranges != []
    && (forall i :: 0 <= i < |ranges| ==> ranges[i].start < ranges[i].end)
    && (forall i :: 0 < i < |ranges| ==> ranges[i - 1].end == ranges[i].start)
  }

  lemma {:induction false} NumOrdered(ranges: seq<NumRange>, i: nat, j: nat)
    requires NumChained(ranges) && i < j < |ranges|
    ensures ranges[i].end <= ranges[j].start
  {
    if i + 1 < j { NumOrdered(ranges, i, j - 1); }
  }

  /** No key is in two ranges. */
  lemma NumDisjoint(ranges: seq<NumRange>, i: nat, j: nat, v: int64)
    requires NumChained(ranges) && i < j < |ranges|
    ensures !(NumContains(ranges[i], v) && NumContains(ranges[j], v))
  {
    NumOrdered(ranges, i, j);
  }

  predicate WithinNum(ranges: seq<NumRange>, v: int64)
    requires ranges != []
  {
    NumContains(NumRange(ranges[0].start, ranges[|ranges| - 1].end), v)
  }

  /** Every key within the limits is in some range. */
  lemma {:induction false} NumCovers(ranges: seq<NumRange>, v: int64) returns (i: nat)
    requires NumChained(ranges) && WithinNum(ranges, v)
    ensures i < |ranges| && NumContains(ranges[i], v)
  {
    var n := |ranges| - 1;
    if ranges[n].start <= v {
      i := n;
    } else {
      assert n > 0 ==> ranges[n - 1].end == ranges[n].start;
      i := NumCovers(ranges[..n], v);
    }
  }

  /** An accepted spec chains its ranges from its first limit to its last. */
  lemma NumSpecChains(read: NumReader, parts: seq<string>)
    requires NumAccepted(read, parts)
    ensures NumChained(NumRanges(read, parts))
  {
  }

  /** The keys a query may carry. */
  datatype Key = KInt(n: int64) | KUint(u: nat) | KText(text: string)

  /** NumValue; `None` is a panic. Unsigned keys wrap around. */
  function NumValue(k: Key): Option<int64>
    requires k.KUint? ==> k.u <= MAX_UINT64
  {
    match k
    case KInt(n) => Some(n)
    case KUint(u) => Some(if u > MAX_NUM_KEY then u - 0x1_0000_0000_0000_0000 else u)
    case KText(text) => D.ParseInt(text, 10)
  }

  /** Every 64-bit number is the same key as a signed value, as the unsigned value with the same bits, and
      written out in decimal; and an unsigned key is the signed number with its bits. */
  lemma KeyCarriers(n: int64, u: nat)
    requires u <= MAX_UINT64
    ensures NumValue(KInt(n)) == NumValue(KUint(n % 0x1_0000_0000_0000_0000)) == NumValue(KText(D.FormatInt(n))) == Some(n)
    ensures NumValue(KUint(u)).Some? && NumValue(KUint(u)).value % 0x1_0000_0000_0000_0000 == u
  {
    D.IntRoundTrip(n);
    SameBits(n);
    SameBits(if u > MAX_NUM_KEY then u - 0x1_0000_0000_0000_0000 else u);
  }

  lemma SameBits(n: int64)
    ensures n % 0x1_0000_0000_0000_0000 == if n < 0 then n + 0x1_0000_0000_0000_0000 else n
  {
    var m := 0x1_0000_0000_0000_0000;
    ModIs(n, if n < 0 then -1 else 0, if n < 0 then n + m else n, m);
  }

  lemma ModIs(n: int, q: int, r: int, m: int)
    requires 0 <= r < m && n == q * m + r
    ensures n % m == r
  {
    var d := n / m - q;
    assert d * m == r - n % m;
    assert -m < d * m < m;
    assert d == 0;
  }

  /** A key within the limits of an accepted spec is in exactly one range; a spec open at both ends
      covers every key. */
  lemma NumPartition(read: NumReader, parts: seq<string>, v: int64)
    requires NumAccepted(read, parts)
    ensures var ranges := NumRanges(read, parts);
            && (WithinNum(ranges, v) <==> exists i :: 0 <= i < |ranges| && NumContains(ranges[i], v))
            && (forall i, j ::
                  0 <= i < |ranges| && 0 <= j < |ranges| && NumContains(ranges[i], v) && NumContains(ranges[j], v) ==> i == j)
            && (parts[0] == "" && parts[|parts| - 1] == "" ==> WithinNum(ranges, v))
  {
    NumSpecChains(read, parts);
    NumChainFinds(NumRanges(read, parts), v);
  }

  lemma NumChainFinds(ranges: seq<NumRange>, v: int64)
    requires NumChained(ranges)
    ensures WithinNum(ranges, v) <==> exists i :: 0 <= i < |ranges| && NumContains(ranges[i], v)
    ensures forall i, j ::
              0 <= i < |ranges| && 0 <= j < |ranges| && NumContains(ranges[i], v) && NumContains(ranges[j], v) ==> i == j
  {
    if WithinNum(ranges, v) {
      var i := NumCovers(ranges, v);
    }
    forall i, j | 0 <= i < j < |ranges|
      ensures !(NumContains(ranges[i], v) && NumContains(ranges[j], v))
    {
      NumDisjoint(ranges, i, j, v);
    }
    if i :| 0 <= i < |ranges| && NumContains(ranges[i], v) {
      NumInside(ranges, i, v);
    }
  }

  /** What a search finds: the one range with the key, when the key is within the limits. */
  ghost predicate NumFound(ranges: seq<NumRange>, v: int64, r: Option<nat>)
    requires ranges != []
  {
    && (r.Some? <==> WithinNum(ranges, v))
    && (r.Some? ==> forall i :: 0 <= i < |ranges| ==> (NumContains(ranges[i], v) <==> i == r.value))
  }

  /** NumRangeShard.FindForKey; `None` is a panic. */
  method FindNum(ranges: seq<NumRange>, k: Key) returns (r: Option<nat>)
    requires k.KUint? ==> k.u <= MAX_UINT64
    ensures r.Some? ==> NumValue(k).Some? && r.value < |ranges| && NumContains(ranges[r.value], NumValue(k).value)
    ensures r.None? && NumValue(k).Some? ==> forall i :: 0 <= i < |ranges| ==> !NumContains(ranges[i], NumValue(k).value)
    ensures NumChained(ranges) && NumValue(k).Some? ==> NumFound(ranges, NumValue(k).value, r)
  {
    var v := NumValue(k);
    if v.None? {
      return None;
    }
    if NumChained(ranges) { NumChainFinds(ranges, v.value); }
    for i := 0 to |ranges|
      invariant forall j :: 0 <= j < i ==> !NumContains(ranges[j], v.value)
    {
      if NumContains(ranges[i], v.value) {
        return Some(i);
      }
    }
    return None;
  }

  lemma NumInside(ranges: seq<NumRange>, i: nat, v: int64)
    requires NumChained(ranges) && i < |ranges| && NumContains(ranges[i], v)
    ensures WithinNum(ranges, v)
  {
    var n := |ranges| - 1;
    if 0 < i { NumOrdered(ranges, 0, i); }
    if i < n { NumOrdered(ranges, i, n); }
  }

  // ---------------------------------------------------------------- byte-string ranges

  /** A KeyspaceId. The empty one is both the least key and, as an end, no bound at all. */
  type KeyId = seq<byte>

  /** Comparison of byte strings. */
  predicate Less(a: KeyId, b: KeyId) {
    b != [] && (a == [] || a[0] < b[0] || (a[0] == b[0] && Less(a[1..], b[1..])))
  }

  lemma {:induction false} LessTotal(a: KeyId, b: KeyId)
    ensures (Less(a, b) && a != b && !Less(b, a)) || (Less(b, a) && a != b && !Less(a, b)) || (a == b && !Less(a, b))
  {
    if a != [] && b != [] && a[0] == b[0] {
      LessTotal(a[1..], b[1..]);
      assert a == [a[0]] + a[1..] && b == [b[0]] + b[1..];
    }
  }

  lemma {:induction false} LessTrans(a: KeyId, b: KeyId, c: KeyId)
    ensures Less(a, b) && Less(b, c) ==> Less(a, c)
    ensures !Less(b, a) && !Less(c, b) ==> !Less(c, a)
  {
    if a != [] && b != [] && c != [] && a[0] == b[0] == c[0] {
      LessTrans(a[1..], b[1..], c[1..]);
    }
  }

  datatype KeyRange = KeyRange(start: KeyId, end: KeyId)

  predicate Contains(r: KeyRange, k: KeyId) { !Less(k, r.start) && (r.end == [] || Less(k, r.end)) }

  predicate KeyRangesIntersect(a: KeyRange, b: KeyRange) {
    (a.end == [] || Less(b.start, a.end)) && (b.end == [] || Less(a.start, b.end))
  }

  /** KeyRangesOverlap; `None` is the error. */
  method KeyRangesOverlap(first: KeyRange, second: KeyRange) returns (r: Option<KeyRange>)
    ensures r.None? <==> !KeyRangesIntersect(first, second)
    ensures r.Some? ==> r.value == Overlap(first, second)
  {
    if !KeyRangesIntersect(first, second) {
      return None;
    }
    var result := first;
    if Less(first.start, second.start) {
      result := result.(start := second.start);
    }
    if first.end == [] || (second.end != [] && Less(second.end, first.end)) {
      result := result.(end := second.end);
    }
    return Some(result);
  }

  /** The later start and the earlier end. */
  function Overlap(a: KeyRange, b: KeyRange): KeyRange {
    KeyRange(if Less(a.start, b.start) then b.start else a.start,
             if a.end == [] then b.end else if b.end != [] && Less(b.end, a.end) then b.end else a.end)
  }

  /** A key is in the overlap exactly when it is in both ranges, and ranges without an overlap have no
      key in common. */
  lemma OverlapIsBoth(a: KeyRange, b: KeyRange, k: KeyId)
    ensures Contains(Overlap(a, b), k) <==> Contains(a, k) && Contains(b, k)
    ensures !KeyRangesIntersect(a, b) ==> !(Contains(a, k) && Contains(b, k))
  {
    LessTotal(a.start, b.start);
    LessTotal(a.end, b.end);
    LessTrans(a.start, b.start, k);
    LessTrans(b.start, a.start, k);
    LessTrans(k, a.end, b.end);
    LessTrans(k, b.end, a.end);
    LessTotal(b.start, a.end);
    LessTotal(a.start, b.end);
    LessTotal(k, a.end);
    LessTotal(k, b.end);
    LessTrans(a.end, b.start, k);
    LessTrans(b.end, a.start, k);
  }

  /** Numbers as big-endian bytes compare as numbers: Uint64Key keeps the order. */
  function BigEndian(n: nat, k: nat): (r: KeyId)
    ensures |r| == k
  {
    if k == 0 then [] else [n / Pow256(k - 1) % 256] + BigEndian(n % Pow256(k - 1), k - 1)
  }

  lemma {:induction false} BigEndianOrder(a: nat, b: nat, k: nat)
    requires a < Pow256(k) && b < Pow256(k)
    ensures Less(BigEndian(a, k), BigEndian(b, k)) <==> a < b
  {
    if k > 0 {
      var p := Pow256(k - 1);
      LeadingDigit(a, p);
      LeadingDigit(b, p);
      BigEndianOrder(a % p, b % p, k - 1);
      DigitOrder(a, b, p);
      assert BigEndian(a, k)[1..] == BigEndian(a % p, k - 1) && BigEndian(b, k)[1..] == BigEndian(b % p, k - 1);
    }
  }

  lemma LeadingDigit(n: nat, p: nat)
    requires p > 0 && n < 256 * p
    ensures 0 <= n / p < 256 && n / p % 256 == n / p && n % p < p && n == p * (n / p) + n % p
  {
    var q := n / p;
    assert n == p * q + n % p;
    assert q >= 256 ==> p * q >= p * 256;
  }

  lemma DigitOrder(a: nat, b: nat, p: nat)
    requires p > 0
    ensures a < b <==> a / p < b / p || (a / p == b / p && a % p < b % p)
  {
    DigitOrderOf(a / p, a % p, b / p, b % p, p);
  }

  lemma DigitOrderOf(q: nat, r: nat, u: nat, v: nat, p: nat)
    requires r < p && v < p
    ensures p * q + r < p * u + v <==> q < u || (q == u && r < v)
  {
    if q < u {
      AtLeast(p, u - q);
      assert p * u == p * q + p * (u - q);
    } else if u < q {
      AtLeast(p, q - u);
      assert p * q == p * u + p * (q - u);
    }
  }

  lemma AtLeast(p: nat, d: nat)
    requires d >= 1
    ensures p * d >= p
  {
  }

  // ---------------------------------------------------------------- hexadecimal specs

  function HexVal(c: char): Option<nat> {
    if '0' <= c <= '9' then Some((c - '0') as int)
    else if 'a' <= c <= 'f' then Some((c - 'a') as int + 10)
    else if 'A' <= c <= 'F' then Some((c - 'A') as int + 10)
    else None
  }

  /** hex.DecodeString. */
  function Unhex(s: string): (r: Option<KeyId>)
    ensures r.Some? ==> (r.value == [] <==> s == "")
  {
    if s == "" then Some([])
    else if |s| == 1 || HexVal(s[0]).None? || HexVal(s[1]).None? then None
    else
      match Unhex(s[2..])
      case None => None
      case Some(rest) => Some([HexVal(s[0]).value * 16 + HexVal(s[1]).value] + rest)
  }

  /** Comparison of texts. */
  predicate TextLess(a: string, b: string) {
    b != "" && (a == "" || a[0] < b[0] || (a[0] == b[0] && TextLess(a[1..], b[1..])))
  }

  lemma LowerTail(s: string, n: nat)
    requires n <= |s|
    ensures S.Lower(s)[n..] == S.Lower(s[n..])
  {
  }

  lemma HexDigits(c: char, d: char)
    requires HexVal(c).Some? && HexVal(d).Some?
    ensures S.LowerChar(c) < S.LowerChar(d) <==> HexVal(c).value < HexVal(d).value
    ensures S.LowerChar(c) == S.LowerChar(d) <==> HexVal(c).value == HexVal(d).value
  {
  }

  lemma TextLessTwo(a: string, b: string)
    requires |a| >= 2 && |b| >= 2
    ensures TextLess(a, b) <==> a[0] < b[0] || (a[0] == b[0] && (a[1] < b[1] || (a[1] == b[1] && TextLess(a[2..], b[2..]))))
  {
    assert a[1..][0] == a[1] && b[1..][0] == b[1] && a[1..][1..] == a[2..] && b[1..][1..] == b[2..];
  }

  /** Lower-cased hexadecimal texts compare as the bytes they stand for. */
  lemma {:induction false} HexOrder(a: string, b: string)
    requires Unhex(a).Some? && Unhex(b).Some?
    ensures TextLess(S.Lower(a), S.Lower(b)) <==> Less(Unhex(a).value, Unhex(b).value)
    decreases |a|
  {
    if a != "" && b != "" {
      HexOrder(a[2..], b[2..]);
      HexDigits(a[0], b[0]);
      HexDigits(a[1], b[1]);
      LowerTail(a, 2);
      LowerTail(b, 2);
      TextLessTwo(S.Lower(a), S.Lower(b));
      assert Unhex(a).value[1..] == Unhex(a[2..]).value && Unhex(b).value[1..] == Unhex(b[2..]).value;
    }
  }

  type KeyReader = string -> Option<KeyId>

  const HEX: KeyReader := s => Unhex(s)

  /** A spec that is accepted: at least two limits, hexadecimal, an empty one only at the ends, and in
      order as texts. */
  predicate KeyAccepted(read: KeyReader, parts: seq<string>) {
    && |parts| > 1
    && (forall i :: 0 <= i < |parts| ==> read(parts[i]).Some?)
    && (forall i :: 0 < i < |parts| ==> InOrder(parts, i))
  }

  predicate InOrder(parts: seq<string>, i: nat)
    requires 0 < i < |parts|
  {
    if parts[i] == "" then i == |parts| - 1 else TextLess(parts[i - 1], parts[i])
  }

  function KeyRanges(read: KeyReader, parts: seq<string>): (r: seq<KeyRange>)
    requires KeyAccepted(read, parts)
    ensures |r| == |parts| - 1
    ensures forall i :: 0 <= i < |r| ==> r[i] == KeyRange(read(parts[i]).value, read(parts[i + 1]).value)
  {
    seq(|parts| - 1, (i: nat) requires i < |parts| - 1 => KeyRange(read(parts[i]).value, read(parts[i + 1]).value))
  }

  /** The limits up to `i` are fine and give `ranges`. */
  ghost predicate ParsedTo(read: KeyReader, parts: seq<string>, ranges: seq<KeyRange>, i: nat)
    requires i < |parts|
  {
    && |ranges| == i
    && (i > 0 ==> forall k :: 0 <= k <= i ==> read(parts[k]).Some?)
    && (forall k :: 0 < k <= i ==> InOrder(parts, k))
    && (forall k :: 0 <= k < i ==> ranges[k] == KeyRange(read(parts[k]).value, read(parts[k + 1]).value))
  }

  lemma ParseOne(read: KeyReader, parts: seq<string>, ranges: seq<KeyRange>, i: nat)
    requires i + 1 < |parts| && ParsedTo(read, parts, ranges, i) && InOrder(parts, i + 1)
    requires read(parts[i]).Some? && read(parts[i + 1]).Some?
    ensures ParsedTo(read, parts, ranges + [KeyRange(read(parts[i]).value, read(parts[i + 1]).value)], i + 1)
  {
  }

  /** ParseShardingSpec on the parts of a spec. */
  method ParseParts(read: KeyReader, parts: seq<string>) returns (r: Option<seq<KeyRange>>)
    requires parts != []
    ensures r.Some? <==> KeyAccepted(read, parts)
    ensures r.Some? ==> r.value == KeyRanges(read, parts)
  {
    if |parts| == 1 {
      return None;
    }
    var old' := parts[0];
    var ranges: seq<KeyRange> := [];
    for i := 0 to |parts| - 1
      invariant old' == parts[i] && ParsedTo(read, parts, ranges, i)
    {
      var p := parts[i + 1];
      var ordered := CheckOrder(parts, i, old', p);
      if !ordered {
        return None;
      }
      var s, e := read(old'), read(p);
      if s.None? || e.None? {
        return None;
      }
      ParseOne(read, parts, ranges, i);
      ranges := ranges + [KeyRange(s.value, e.value)];
      old' := p;
    }
    return Some(ranges);
  }

  /** The two checks of a limit against the one before it. */
  method CheckOrder(parts: seq<string>, i: nat, old': string, p: string) returns (ok: bool)
    requires i + 1 < |parts| && old' == parts[i] && p == parts[i + 1]
    ensures ok == InOrder(parts, i + 1)
  {
    if p == "" && i != |parts| - 2 {
      return false;
    }
    if p != "" && !TextLess(old', p) {
      return false;
    }
    return true;
  }

  method ParseShardingSpec(spec: string) returns (r: Option<seq<KeyRange>>)
    ensures r.Some? <==> KeyAccepted(HEX, Split(spec))
    ensures r.Some? ==> r.value == KeyRanges(HEX, Split(spec))
  {
    r := ParseParts(HEX, Split(spec));
  }

  // ---------------------------------------------------------------- when a spec is a partition

  /** Ranges that follow each other, each ending above its start; only the last may have no end. */
  ghost predicate KeyChained(ranges: seq<KeyRange>) {
    && ranges != []
    && (forall i :: 0 <= i < |ranges| ==> ranges[i].end == [] || Less(ranges[i].start, ranges[i].end))
    && (forall i :: 0 < i < |ranges| ==> ranges[i - 1].end == ranges[i].start && ranges[i].start != [])
  }

  lemma {:induction false} KeyOrdered(ranges: seq<KeyRange>, i: nat, j: nat)
    requires KeyChained(ranges) && i < j < |ranges|
    ensures ranges[i].end != [] && !Less(ranges[j].start, ranges[i].end)
  {
    if i + 1 < j {
      KeyOrdered(ranges, i, j - 1);
      LessTotal(ranges[j - 1].start, ranges[j - 1].end);
      LessTrans(ranges[i].end, ranges[j - 1].start, ranges[j].start);
    } else {
      LessTotal(ranges[j].start, ranges[j].start);
    }
  }

  lemma KeyDisjoint(ranges: seq<KeyRange>, i: nat, j: nat, k: KeyId)
    requires KeyChained(ranges) && i < j < |ranges|
    ensures !(Contains(ranges[i], k) && Contains(ranges[j], k))
  {
    KeyOrdered(ranges, i, j);
    LessTrans(ranges[i].end, ranges[j].start, k);
  }

  predicate Within(ranges: seq<KeyRange>, k: KeyId)
    requires ranges != []
  {
    Contains(KeyRange(ranges[0].start, ranges[|ranges| - 1].end), k)
  }

  lemma {:induction false} KeyCovers(ranges: seq<KeyRange>, k: KeyId) returns (i: nat)
    requires KeyChained(ranges) && Within(ranges, k)
    ensures i < |ranges| && Contains(ranges[i], k)
  {
    var n := |ranges| - 1;
    if !Less(k, ranges[n].start) {
      i := n;
    } else {
      assert n > 0 ==> ranges[n - 1].end == ranges[n].start;
      i := KeyCovers(ranges[..n], k);
    }
  }

  lemma KeyInside(ranges: seq<KeyRange>, i: nat, k: KeyId)
    requires KeyChained(ranges) && i < |ranges| && Contains(ranges[i], k)
    ensures Within(ranges, k)
  {
    var n := |ranges| - 1;
    if 0 < i {
      KeyOrdered(ranges, 0, i);
      LessTotal(ranges[0].start, ranges[0].end);
      LessTrans(ranges[0].start, ranges[0].end, ranges[i].start);
      LessTrans(ranges[0].start, ranges[i].start, k);
    }
    if i < n && ranges[n].end != [] {
      KeyOrdered(ranges, i, n);
      LessTotal(ranges[i].end, ranges[n].start);
      LessTrans(k, ranges[i].end, ranges[n].start);
      LessTrans(k, ranges[n].start, ranges[n].end);
    }
  }

  /** In chained ranges a key is within the limits exactly when it is in a range, and then in one only. */
  lemma KeyPartition(ranges: seq<KeyRange>, k: KeyId)
    requires KeyChained(ranges)
    ensures Within(ranges, k) <==> exists i :: 0 <= i < |ranges| && Contains(ranges[i], k)
    ensures forall i, j ::
              0 <= i < |ranges| && 0 <= j < |ranges| && Contains(ranges[i], k) && Contains(ranges[j], k) ==> i == j
    ensures ranges[0].start == [] && ranges[|ranges| - 1].end == [] ==> Within(ranges, k)
  {
    if Within(ranges, k) {
      var i := KeyCovers(ranges, k);
    }
    forall i, j | 0 <= i < j < |ranges|
      ensures !(Contains(ranges[i], k) && Contains(ranges[j], k))
    {
      KeyDisjoint(ranges, i, j, k);
    }
    if i :| 0 <= i < |ranges| && Contains(ranges[i], k) {
      KeyInside(ranges, i, k);
    }
  }

  /** What a search finds: the one range with the key, when the key is within the limits. */
  ghost predicate Found(ranges: seq<KeyRange>, k: KeyId, r: Option<nat>)
    requires ranges != []
  {
    && (r.Some? <==> Within(ranges, k))
    && (r.Some? ==> forall i :: 0 <= i < |ranges| ==> (Contains(ranges[i], k) <==> i == r.value))
  }

  /** A number as a query's key: signed ones wrap around. */
  function Uint64Of(k: Key): nat
    requires !k.KText?
  {
    if k.KUint? then k.u else if k.n < 0 then k.n + 0x1_0000_0000_0000_0000 else k.n
  }

  /** A key as it is compared: eight big-endian bytes of a number, a text as it is. */
  function EncodeValue(k: Key): KeyId {
    if k.KText? then seq(|k.text|, (i: nat) requires i < |k.text| => k.text[i] as int % 256) else BigEndian(Uint64Of(k), 8)
  }

  /** Numbers are in the order of their unsigned values: a negative key lies above every other. */
  lemma NumbersInOrder(a: Key, b: Key)
    requires !a.KText? && !b.KText? && Uint64Of(a) <= MAX_UINT64 && Uint64Of(b) <= MAX_UINT64
    ensures Less(EncodeValue(a), EncodeValue(b)) <==> Uint64Of(a) < Uint64Of(b)
  {
    assert Pow256(8) == MAX_UINT64 + 1 by { assert Pow256(2) == 65536 && Pow256(4) == 65536 * 65536; }
    BigEndianOrder(Uint64Of(a), Uint64Of(b), 8);
  }

  /** KeyRangeShard.FindForKey; `None` is a panic. In chained ranges it is the one range that holds the
      key, and there is one exactly when the key is within the limits. */
  method FindForKey(ranges: seq<KeyRange>, k: Key) returns (r: Option<nat>)
    ensures r.Some? ==> r.value < |ranges| && Contains(ranges[r.value], EncodeValue(k))
    ensures r.None? ==> forall i :: 0 <= i < |ranges| ==> !Contains(ranges[i], EncodeValue(k))
    ensures KeyChained(ranges) ==> Found(ranges, EncodeValue(k), r)
  {
    var v := EncodeValue(k);
    if KeyChained(ranges) { KeyPartition(ranges, v); }
    for i := 0 to |ranges|
      invariant forall j :: 0 <= j < i ==> !Contains(ranges[j], v)
    {
      if Contains(ranges[i], v) {
        return Some(i);
      }
    }
    return None;
  }

  /** The limits increase when letter case is ignored. */
  predicate LowerIncreases(parts: seq<string>) {
    forall i :: 0 < i < |parts| && parts[i] != "" ==> TextLess(S.Lower(parts[i - 1]), S.Lower(parts[i]))
  }

  /** What the limits of a range tell: it ends, or begins, without bound where its limit is empty, and it
      ends above its start when the lower-cased limits increase. */
  predicate LimitFacts(parts: seq<string>, i: nat, r: KeyRange)
    requires i + 1 < |parts|
  {
    && (r.end == [] <==> parts[i + 1] == "") && (r.start == [] <==> parts[i] == "")
    && (parts[i + 1] != "" ==> (Less(r.start, r.end) <==> TextLess(S.Lower(parts[i]), S.Lower(parts[i + 1]))))
  }

  ghost predicate SpecOf(parts: seq<string>, ranges: seq<KeyRange>) {
    && |parts| > 1 && |ranges| == |parts| - 1
    && (forall i :: 0 <= i < |ranges| ==> LimitFacts(parts, i, ranges[i]))
    && (forall i :: 0 < i < |ranges| ==> ranges[i - 1].end == ranges[i].start)
    && (forall i :: 0 < i < |parts| ==> InOrder(parts, i))
  }

  predicate Reads(parts: seq<string>, i: nat)
    requires i < |parts|
  {
    HEX(parts[i]).Some?
  }

  lemma SpecLimits(parts: seq<string>)
    requires KeyAccepted(HEX, parts)
    ensures SpecOf(parts, KeyRanges(HEX, parts))
  {
    var ranges := KeyRanges(HEX, parts);
    forall i | 0 <= i < |ranges|
      ensures LimitFacts(parts, i, ranges[i])
    {
      assert Reads(parts, i) && Reads(parts, i + 1);
      HexOrder(parts[i], parts[i + 1]);
    }
  }

  lemma SpecChains(parts: seq<string>, ranges: seq<KeyRange>)
    requires SpecOf(parts, ranges) && LowerIncreases(parts)
    ensures KeyChained(ranges)
  {
    forall i | 0 <= i < |ranges|
      ensures ranges[i].end == [] || Less(ranges[i].start, ranges[i].end)
      ensures i > 0 ==> ranges[i].start != []
    {
      assert LimitFacts(parts, i, ranges[i]);
      if i > 0 { assert InOrder(parts, i); }
    }
  }

  lemma ChainHasKeys(ranges: seq<KeyRange>, i: nat)
    requires KeyChained(ranges) && i < |ranges|
    ensures Contains(ranges[i], ranges[i].start)
  {
    LessTotal(ranges[i].start, ranges[i].start);
  }

  ghost predicate HasKey(r: KeyRange) { exists k :: Contains(r, k) }

  lemma SpecBreaks(parts: seq<string>, ranges: seq<KeyRange>) returns (i: nat)
    requires SpecOf(parts, ranges) && !LowerIncreases(parts)
    ensures i < |ranges| && !HasKey(ranges[i]) && !KeyChained(ranges)
  {
    var j :| 0 < j < |parts| && parts[j] != "" && !TextLess(S.Lower(parts[j - 1]), S.Lower(parts[j]));
    i := j - 1;
    assert LimitFacts(parts, i, ranges[i]);
    EmptyRange(ranges[i]);
  }

  /** An accepted spec is a partition in which every range holds some key exactly when its limits
      increase with letter case ignored. */
  lemma SpecIff(parts: seq<string>)
    requires KeyAccepted(HEX, parts)
    ensures LowerIncreases(parts) <==> KeyChained(KeyRanges(HEX, parts))
    ensures LowerIncreases(parts) <==> forall i :: 0 <= i < |parts| - 1 ==> HasKey(KeyRanges(HEX, parts)[i])
  {
    SpecLimits(parts);
    SpecBoth(parts, KeyRanges(HEX, parts));
  }

  lemma SpecBoth(parts: seq<string>, ranges: seq<KeyRange>)
    requires SpecOf(parts, ranges)
    ensures LowerIncreases(parts) <==> KeyChained(ranges)
    ensures LowerIncreases(parts) <==> forall i :: 0 <= i < |parts| - 1 ==> HasKey(ranges[i])
  {
    if LowerIncreases(parts) {
      SpecChains(parts, ranges);
      forall i | 0 <= i < |ranges|
        ensures HasKey(ranges[i])
      {
        ChainHasKeys(ranges, i);
      }
    } else {
      var i := SpecBreaks(parts, ranges);
    }
  }

  lemma EmptyRange(r: KeyRange)
    requires r.end != [] && !Less(r.start, r.end)
    ensures forall k :: !Contains(r, k)
  {
    forall k
      ensures !Contains(r, k)
    {
      LessTrans(r.end, r.start, k);
    }
  }

  /** Hexadecimal digits of one letter case. */
  predicate NoUpper(s: string) { forall i :: 0 <= i < |s| ==> !('A' <= s[i] <= 'F') }

  predicate NoLower(s: string) { forall i :: 0 <= i < |s| ==> !('a' <= s[i] <= 'f') }

  lemma {:induction false} OneCaseOrder(a: string, b: string)
    requires Unhex(a).Some? && Unhex(b).Some? && ((NoUpper(a) && NoUpper(b)) || (NoLower(a) && NoLower(b)))
    ensures TextLess(a, b) <==> TextLess(S.Lower(a), S.Lower(b))
    decreases |a|
  {
    if a != "" && b != "" {
      OneCaseOrder(a[2..], b[2..]);
      LowerTail(a, 2);
      LowerTail(b, 2);
      TextLessTwo(a, b);
      TextLessTwo(S.Lower(a), S.Lower(b));
    }
  }

  /** Specs in one letter case are partitions. */
  lemma OneCaseSpec(parts: seq<string>)
    requires KeyAccepted(HEX, parts)
    requires (forall i :: 0 <= i < |parts| ==> NoUpper(parts[i])) || (forall i :: 0 <= i < |parts| ==> NoLower(parts[i]))
    ensures LowerIncreases(parts) && KeyChained(KeyRanges(HEX, parts))
  {
    forall i | 0 < i < |parts| && parts[i] != ""
      ensures TextLess(S.Lower(parts[i - 1]), S.Lower(parts[i]))
    {
      assert InOrder(parts, i) && Reads(parts, i) && Reads(parts, i - 1);
      OneCaseOrder(parts[i - 1], parts[i]);
    }
    SpecIff(parts);
  }

  /** B0-a0 is accepted, and its only range is empty. */
  lemma MixedCase()
    ensures KeyAccepted(HEX, ["B0", "a0"]) && !LowerIncreases(["B0", "a0"])
  {
    var parts := ["B0", "a0"];
    assert "B0"[2..] == "" && "a0"[2..] == "";
    assert InOrder(parts, 1);
    assert S.Lower("B0")[0] == 'b' && S.Lower("a0")[0] == 'a';
    assert !TextLess(S.Lower(parts[0]), S.Lower(parts[1]));
  }
}
