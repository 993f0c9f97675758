/** Runs of length-encoded strings, read one after the other and converted as they are read: the loop
    shared by column definitions (mysql/field.go) and text rows (mysql/resultset.go). */
module StringRuns {
  import opened Wrappers
  import opened Bytes
  import opened LengthEncoding
  import opened Sequences

  type bytes = seq<byte>

  /** How the string at the head of some bytes is read. */
  type Reader = bytes -> LenStr

  /** What was read, or the first failure: input too short, an index out of range, or a string that
      does not convert. */
  datatype Run<V> = Run(values: seq<V>, rest: bytes) | ShortRun | BadRun | BadValue

  /** The string of a cell; NULL has none. */
  function Content(s: LenStr): Option<bytes>
    requires s.LenStr?
  {
    if s.isNull then None else Some(s.value)
  }

  function ReadOne<V>(next: Reader, conv: (nat, Option<bytes>) -> Option<V>, before: seq<V>, p: bytes): (r: Run<V>)
    ensures r.Run? ==> |r.values| == |before| + 1 && |r.rest| <= |p|
  {
    var s := next(p);
    if s.Short? then ShortRun
    else if s.Panic? || s.n > |p| then BadRun
    else
      match conv(|before|, Content(s))
      case None => BadValue
      case Some(v) => Run(before + [v], p[s.n..])
  }

  /** The first `k` strings of `p`, the i-th converted by `conv(i, ...)`. */
  function ReadRun<V>(next: Reader, conv: (nat, Option<bytes>) -> Option<V>, p: bytes, k: nat): (r: Run<V>)
    ensures r.Run? ==> |r.values| == k && |r.rest| <= |p|
  {
    if k == 0 then Run([], p)
    else
      match ReadRun(next, conv, p, k - 1)
      case Run(vs, rest) => ReadOne(next, conv, vs, rest)
      case err => err
  }

  lemma {:induction false} RunStops<V>(next: Reader, conv: (nat, Option<bytes>) -> Option<V>, p: bytes, i: nat, k: nat)
    requires i <= k && !ReadRun(next, conv, p, i).Run?
    ensures ReadRun(next, conv, p, k) == ReadRun(next, conv, p, i)
  {
    if i < k { RunStops(next, conv, p, i, k - 1); }
  }

  /** The reading loop, with its cursor. */
  method ReadLoop<V>(next: Reader, conv: (nat, Option<bytes>) -> Option<V>, p: bytes, k: nat) returns (r: Run<V>, pos: nat)
    ensures r == ReadRun(next, conv, p, k)
    ensures r.Run? ==> pos <= |p| && p[pos..] == r.rest
  {
    var values: seq<V> := [];
    pos := 0;
    for i := 0 to k
      invariant pos <= |p| && |values| == i && ReadRun(next, conv, p, i) == Run(values, p[pos..])
    {
      var s := next(p[pos..]);
      if s.Short? {
        RunStops(next, conv, p, i + 1, k);
        return ShortRun, pos;
      }
      if s.Panic? || s.n > |p| - pos {
        RunStops(next, conv, p, i + 1, k);
        return BadRun, pos;
      }
      var v := conv(i, Content(s));
      if v.None? {
        RunStops(next, conv, p, i + 1, k);
        return BadValue, pos;
      }
      assert p[pos..][s.n..] == p[pos + s.n..];
      values, pos := values + [v.value], pos + s.n;
    }
    r := Run(values, p[pos..]);
  }

  /** The bytes of several encoded strings in a row. */
  function Joined(parts: seq<bytes>): bytes {
    if parts == [] then [] else Joined(parts[..|parts| - 1]) + parts[|parts| - 1]
  }

  /** Whatever follows, the reader takes exactly `part` and finds the string `s` in it. */
  ghost predicate Decodes(next: Reader, part: bytes, s: Option<bytes>) {
    forall tail: bytes :: next(part + tail).LenStr? && next(part + tail).n == |part| && Content(next(part + tail)) == s
  }

  /** Encoded strings are read back in order, and the bytes after them are left. */
  lemma {:induction false} RunRoundTrip<V>(next: Reader, conv: (nat, Option<bytes>) -> Option<V>,
                                           parts: seq<bytes>, strings: seq<Option<bytes>>, values: seq<V>, rest: bytes)
    requires |parts| == |strings| == |values|
    requires forall i :: 0 <= i < |parts| ==> Decodes(next, parts[i], strings[i])
    requires forall i :: 0 <= i < |values| ==> conv(i, strings[i]) == Some(values[i])
    ensures ReadRun(next, conv, Joined(parts) + rest, |parts|) == Run(values, rest)
  {
    if parts == [] {
      assert Joined(parts) + rest == rest;
    } else {
      var n := |parts| - 1;
      RunRoundTrip(next, conv, parts[..n], strings[..n], values[..n], parts[n] + rest);
      Assoc(Joined(parts[..n]), parts[n], rest);
      assert Decodes(next, parts[n], strings[n]);
      assert (parts[n] + rest)[|parts[n]|..] == rest;
      assert values[..n] + [values[n]] == values;
    }
  }

  /** Conversely, what is read are the conversions of the encoded strings. */
  lemma {:induction false} RunInverse<V>(next: Reader, conv: (nat, Option<bytes>) -> Option<V>,
                                         parts: seq<bytes>, strings: seq<Option<bytes>>, values: seq<V>, rest: bytes)
    requires |parts| == |strings|
    requires forall i :: 0 <= i < |parts| ==> Decodes(next, parts[i], strings[i])
    requires ReadRun(next, conv, Joined(parts) + rest, |parts|) == Run(values, rest)
    ensures |values| == |parts| && forall i :: 0 <= i < |values| ==> conv(i, strings[i]) == Some(values[i])
  {
    if parts != [] {
      var n := |parts| - 1;
      var p := Joined(parts) + rest;
      Assoc(Joined(parts[..n]), parts[n], rest);
      var before := ReadRun(next, conv, p, n);
      assert before.Run?;
      RunRest(next, conv, parts[..n], strings[..n], parts[n] + rest);
      RunInverse(next, conv, parts[..n], strings[..n], before.values, parts[n] + rest);
      assert Decodes(next, parts[n], strings[n]);
    }
  }

  /** However the strings convert, a run that is read ends where the encoded strings end. */
  lemma {:induction false} RunRest<V>(next: Reader, conv: (nat, Option<bytes>) -> Option<V>,
                                      parts: seq<bytes>, strings: seq<Option<bytes>>, rest: bytes)
    requires |parts| == |strings|
    requires forall i :: 0 <= i < |parts| ==> Decodes(next, parts[i], strings[i])
    ensures var r := ReadRun(next, conv, Joined(parts) + rest, |parts|); r.Run? ==> r.rest == rest
  {
    if parts == [] {
      assert Joined(parts) + rest == rest;
    } else {
      var n := |parts| - 1;
      Assoc(Joined(parts[..n]), parts[n], rest);
      RunRest(next, conv, parts[..n], strings[..n], parts[n] + rest);
      assert Decodes(next, parts[n], strings[n]);
      assert (parts[n] + rest)[|parts[n]|..] == rest;
    }
  }

  /** Reading depends on the conversion only through the results it gives. */
  lemma {:induction false} SameRun<V>(next: Reader, conv: (nat, Option<bytes>) -> Option<V>,
                                      conv': (nat, Option<bytes>) -> Option<V>, p: bytes, k: nat)
    requires forall i: nat, s :: i < k ==> conv(i, s) == conv'(i, s)
    ensures ReadRun(next, conv, p, k) == ReadRun(next, conv', p, k)
  {
    if k > 0 { SameRun(next, conv, conv', p, k - 1); }
  }

  // ---------------------------------------------------------------- the reader of this protocol

  const READER: Reader := b => LengthEncodedString(b)

  const NULL_MARK: bytes := [0xfb]

  /** A string, or NULL, as it is sent. */
  function Put(s: Option<bytes>): bytes
    requires s.Some? ==> |s.value| <= MAX_INT64 - 9
  {
    if s.None? then NULL_MARK else PutLengthEncodedString(s.value)
  }

  lemma PutDecodes(s: Option<bytes>)
    requires s.Some? ==> |s.value| <= MAX_INT64 - 9
    ensures Decodes(READER, Put(s), s)
  {
    forall tail: bytes
      ensures var r := LengthEncodedString(Put(s) + tail);
              r.LenStr? && r.n == |Put(s)| && Content(r) == s
    {
      if s.Some? { StringRoundTrip(s.value, tail); }
    }
  }
}
