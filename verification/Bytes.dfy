/** Bytes and the little-endian integers of the MySQL wire format. */
module Bytes {

  type byte = x: int | 0 <= x < 256

  const MAX_UINT64: nat := 0xffff_ffff_ffff_ffff
  const MAX_INT64: nat := 0x7fff_ffff_ffff_ffff
  const MIN_INT64: int := -0x8000_0000_0000_0000

  /** 256 to the power `k`: the number of values `k` bytes can hold. */
  function Pow256(k: nat): (r: nat)
    ensures r >= 1
  {
    if k == 0 then 1 else 256 * Pow256(k - 1)
  }

  /** The low `k` bytes of `n`, least significant first: `byte(n), byte(n >> 8), ...`. */
  function LeBytes(n: nat, k: nat): (r: seq<byte>)
    ensures |r| == k
  {
    if k == 0 then [] else [n % 256] + LeBytes(n / 256, k - 1)
  }

  /** The integer a little-endian byte string denotes. */
  function LeValue(b: seq<byte>): (r: nat)
    ensures r < Pow256(|b|)
  {
    if |b| == 0 then 0 else b[0] + 256 * LeValue(b[1..])
  }

  /** Reading back `k` written bytes gives the integer modulo 256^k. */
  lemma {:induction false} LeRoundTrip(n: nat, k: nat)
    ensures LeValue(LeBytes(n, k)) == n % Pow256(k)
  {
    if k > 0 {
      LeRoundTrip(n / 256, k - 1);
      var p := Pow256(k - 1);
      var b := LeBytes(n, k);
      assert b[1..] == LeBytes(n / 256, k - 1);
      calc {
        n % (256 * p);
        { ModTimes(n, p); }
        n % 256 + 256 * ((n / 256) % p);
      }
    }
  }

  lemma ModTimes(n: nat, p: nat)
    requires p >= 1
    ensures n % (256 * p) == n % 256 + 256 * ((n / 256) % p)
  {
    var q := n / 256;
    var r := n % 256;
    var m := q % p;
    assert q == p * (q / p) + m;
    var d := q / p;
    assert n == 256 * q + r;
    assert n == (256 * p) * d + (256 * m + r) by {
      assert 256 * (p * d) == (256 * p) * d;
    }
    assert 0 <= 256 * m + r < 256 * p;
    DivUnique(n, 256 * p, d, 256 * m + r);
  }

  lemma DivUnique(n: int, p: int, d: int, r: int)
    requires p > 0 && 0 <= r < p && n == p * d + r
    ensures n % p == r && n / p == d
  {
    var e := n / p - d;
    assert n == p * (n / p) + n % p;
    assert p * e == p * (n / p) - p * d;
    assert p * e == r - n % p;
    assert (e > 0 ==> p * e >= p) && (e < 0 ==> p * e <= -p);
  }

  /** A fixed-width integer survives the trip whenever it fits its width. */
  lemma LeFits(n: nat, k: nat)
    requires n < Pow256(k)
    ensures LeValue(LeBytes(n, k)) == n
  {
    LeRoundTrip(n, k);
  }
}
