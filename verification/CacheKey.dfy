/** Cache keys (proxy/conn_query.go, pkValuesToStrings): the primary-key values of a row joined
    with a trailing "--" each, spaces turned into underscores. */
module CacheKey {
  import opened Wrappers
  import B = Bytes
  import D = Decimal
  import P = RowCacheProtocol

  /** An element of a plan's PKValues: a literal, the list of an IN or of several rows, or
      something the key builder dies on (a bind variable name, or nil). */
  datatype PkValue = Scalar(text: string) | Many(values: seq<PkValue>) | Unusable

  const SEP := "--"

  function Underscored(s: string): (r: string)
    ensures |r| == |s| && ' ' !in r
    ensures forall i :: 0 <= i < |s| ==> r[i] == if s[i] == ' ' then '_' else s[i]
  {
    seq(|s|, (i: nat) requires i < |s| => if s[i] == ' ' then '_' else s[i])
  }

  function Joined(values: seq<string>): string {
    if values == [] then "" else values[0] + SEP + Joined(values[1..])
  }

  /** The cache key of a row. */
  function KeyOf(values: seq<string>): string { Underscored(Joined(values)) }

  lemma {:induction false} JoinedSnoc(values: seq<string>, v: string)
    ensures Joined(values + [v]) == Joined(values) + v + SEP
  {
    if values != [] {
      JoinedSnoc(values[1..], v);
      assert (values + [v])[1..] == values[1..] + [v];
    } else {
      assert (values + [v])[1..] == [];
    }
  }

  predicate AllScalar(values: seq<PkValue>) { forall i :: 0 <= i < |values| ==> values[i].Scalar? }

  function Texts(values: seq<PkValue>): (r: seq<string>)
    requires AllScalar(values)
    ensures |r| == |values|
  {
    seq(|values|, (i: nat) requires i < |values| => values[i].text)
  }

  /** The texts one plan value contributes, if it is usable. */
  function Parts(v: PkValue): Option<seq<string>> {
    match v
    case Scalar(text) => Some([text])
    case Many(values) => if AllScalar(values) then Some(Texts(values)) else None
    case Unusable => None
  }

  predicate AllUsable(values: seq<PkValue>) { forall i :: 0 <= i < |values| ==> Parts(values[i]).Some? }

  /** The finished keys and the key under construction after some values: every `columns` values
      close one key. */
  function Compose(columns: nat, values: seq<PkValue>): (r: (seq<string>, string))
    requires columns > 0 && AllUsable(values)
  {
    if values == [] then ([], "")
    else
      var i := |values| - 1;
      var (keys, composed) := Compose(columns, values[..i]);
      var composed' := composed + Joined(Parts(values[i]).value);
      if i % columns == columns - 1 then (keys + [Underscored(composed')], "") else (keys, composed')
  }

  /** All texts of some plan values, in order. */
  function Flat(values: seq<PkValue>): seq<string>
    requires AllUsable(values)
  {
    if values == [] then [] else Flat(values[..|values| - 1]) + Parts(values[|values| - 1]).value
  }

  lemma {:induction false} JoinedConcat(a: seq<string>, b: seq<string>)
    ensures Joined(a + b) == Joined(a) + Joined(b)
  {
    if b == [] {
      assert a + b == a;
    } else {
      var n := |b| - 1;
      JoinedConcat(a, b[..n]);
      JoinedSnoc(a + b[..n], b[n]);
      JoinedSnoc(b[..n], b[n]);
      assert a + b == a + b[..n] + [b[n]] && b == b[..n] + [b[n]];
    }
  }

  lemma {:induction false} ComposePartial(columns: nat, values: seq<PkValue>)
    requires |values| < columns && AllUsable(values)
    ensures Compose(columns, values) == ([], Joined(Flat(values)))
  {
    if values != [] {
      var i := |values| - 1;
      ComposePartial(columns, values[..i]);
      JoinedConcat(Flat(values[..i]), Parts(values[i]).value);
      B.DivUnique(i, columns, 0, i);
    }
  }

  /** A plan value per primary-key column, lists among them or not, makes exactly one key: the one of all
      their texts in order. */
  lemma ListKey(values: seq<PkValue>)
    requires values != [] && AllUsable(values)
    ensures Compose(|values|, values).0 == [KeyOf(Flat(values))]
  {
    var i := |values| - 1;
    ComposePartial(|values|, values[..i]);
    JoinedConcat(Flat(values[..i]), Parts(values[i]).value);
    B.DivUnique(i, |values|, 0, i);
  }

  lemma {:induction false} FlatScalars(values: seq<PkValue>)
    requires AllScalar(values)
    ensures AllUsable(values) && Flat(values) == Texts(values)
  {
    if values != [] {
      FlatScalars(values[..|values| - 1]);
    }
  }

  /** Values that give at least one text each give more texts than there are values, unless each gives
      exactly one. */
  lemma {:induction false} FlatLength(values: seq<PkValue>)
    requires AllUsable(values) && forall i :: 0 <= i < |values| ==> Parts(values[i]).value != []
    ensures |Flat(values)| >= |values|
    ensures |Flat(values)| == |values| <==> forall i :: 0 <= i < |values| ==> |Parts(values[i]).value| == 1
    ensures |Flat(values)| == |values| ==> forall i :: 0 <= i < |values| ==> Flat(values)[i] == Parts(values[i]).value[0]
  {
    if values != [] {
      var n := |values| - 1;
      FlatLength(values[..n]);
      assert forall i :: 0 <= i < n ==> values[..n][i] == values[i];
    }
  }

  /** One literal per primary-key column makes the key of the row it names. */
  lemma OneKey(values: seq<PkValue>)
    requires values != [] && AllScalar(values)
    ensures AllUsable(values) && Compose(|values|, values).0 == [KeyOf(Texts(values))]
  {
    FlatScalars(values);
    ListKey(values);
  }

  /** pkValuesToStrings; `None` is a crash. */
  method PkValuesToStrings(columns: nat, values: seq<PkValue>) returns (r: Option<seq<string>>)
    ensures r.Some? <==> values == [] || (columns > 0 && AllUsable(values))
    ensures r.Some? && columns > 0 ==> r.value == Compose(columns, values).0
  {
    var keys: seq<string>, composed := [], "";
    for i := 0 to |values|
      invariant columns > 0 || i == 0
      invariant AllUsable(values[..i])
      invariant columns > 0 ==> (keys, composed) == Compose(columns, values[..i])
    {
      if columns == 0 || Parts(values[i]).None? {
        return None;
      }
      ghost var before := composed;
      var parts := Parts(values[i]).value;
      for k := 0 to |parts|
        invariant composed == before + Joined(parts[..k])
      {
        JoinedSnoc(parts[..k], parts[k]);
        assert parts[..k + 1] == parts[..k] + [parts[k]];
        composed := composed + parts[k] + SEP;
      }
      assert parts[..|parts|] == parts;
      assert values[..i + 1][..i] == values[..i];
      if i % columns == columns - 1 {
        keys := keys + [Underscored(composed)];
        composed := "";
      }
    }
    assert values[..|values|] == values;
    return Some(keys);
  }

  // ---------------------------------------------------------------- when a key names one row

  predicate SepAt(s: string, i: nat) { i + 1 < |s| && s[i] == '-' && s[i + 1] == '-' }

  /** A component that survives in a key: no space, no "--" inside and no '-' at the end. */
  ghost predicate Safe(v: string) {
    && ' ' !in v
    && (forall i: nat :: !SepAt(v, i))
    && (v != "" ==> v[|v| - 1] != '-')
  }

  /** The first separator at or after `i`, or the length of the string. */
  function FirstSep(s: string, i: nat): (r: nat)
    requires i <= |s|
    ensures i <= r <= |s| && (r < |s| ==> SepAt(s, r))
    ensures forall j: nat :: i <= j < r ==> !SepAt(s, j)
    decreases |s| - i
  {
    if i == |s| || SepAt(s, i) then i else FirstSep(s, i + 1)
  }

  /** Reading a key back: cut at each first "--". */
  function Split(key: string): (r: seq<string>)
    decreases |key|
  {
    var i := FirstSep(key, 0);
    if i == |key| then [] else [key[..i]] + Split(key[i + 2..])
  }

  lemma {:induction false} SplitIsSafe(key: string)
    requires ' ' !in key
    ensures forall v :: v in Split(key) ==> Safe(v)
    decreases |key|
  {
    var i := FirstSep(key, 0);
    if i < |key| {
      var v := key[..i];
      forall j: nat
        ensures !SepAt(v, j)
      {
        assert SepAt(v, j) ==> SepAt(key, j);
      }
      assert v != "" && v[i - 1] == '-' ==> SepAt(key, i - 1);
      SplitIsSafe(key[i + 2..]);
    }
  }

  /** The first separator of a safe component followed by "--" is that "--". */
  lemma FirstSepAfter(v: string, rest: string)
    requires Safe(v)
    ensures FirstSep(v + SEP + rest, 0) == |v|
  {
    var key := v + SEP + rest;
    forall j: nat | j < |v|
      ensures !SepAt(key, j)
    {
      if j + 1 < |v| { assert !SepAt(v, j); } else { assert key[j] == v[|v| - 1]; }
    }
    assert SepAt(key, |v|);
  }

  lemma {:induction false} SplitJoined(values: seq<string>)
    requires forall v :: v in values ==> Safe(v)
    ensures ' ' !in Joined(values) && Split(Joined(values)) == values
  {
    if values != [] {
      var v, rest := values[0], Joined(values[1..]);
      SplitJoined(values[1..]);
      FirstSepAfter(v, rest);
      var key := v + SEP + rest;
      assert key[..|v|] == v && key[|v| + 2..] == rest;
    }
  }

  lemma UnderscoredSame(s: string)
    requires ' ' !in s
    ensures Underscored(s) == s
  {
  }

  /** A row can be read back from its cache key exactly when every component is safe. */
  lemma SplitKeyIff(values: seq<string>)
    ensures Split(KeyOf(values)) == values <==> forall v :: v in values ==> Safe(v)
  {
    if forall v :: v in values ==> Safe(v) {
      SplitJoined(values);
      UnderscoredSame(Joined(values));
    } else {
      SplitIsSafe(KeyOf(values));
    }
  }

  /** Rows with safe components have different keys when they differ. */
  lemma KeyInjective(a: seq<string>, b: seq<string>)
    requires (forall v :: v in a ==> Safe(v)) && (forall v :: v in b ==> Safe(v))
    requires KeyOf(a) == KeyOf(b)
    ensures a == b
  {
    SplitKeyIff(a);
    SplitKeyIff(b);
  }

  /** The key made of safe plan values is a row's key exactly when all their texts, in order, are the
      texts of that row. */
  lemma ListNamesRowIff(values: seq<PkValue>, row: seq<string>)
    requires |values| == |row| > 0 && AllUsable(values)
    requires (forall v :: v in Flat(values) ==> Safe(v)) && (forall v :: v in row ==> Safe(v))
    ensures Compose(|values|, values).0 == [KeyOf(row)] <==> Flat(values) == row
  {
    ListKey(values);
    if KeyOf(Flat(values)) == KeyOf(row) {
      KeyInjective(Flat(values), row);
    }
  }

  /** Each of the three conditions is needed. */
  lemma Collisions()
    ensures KeyOf(["a b"]) == KeyOf(["a_b"])
    ensures KeyOf(["a--b", "c"]) == KeyOf(["a", "b--c"])
    ensures KeyOf(["a-", "b"]) == KeyOf(["a", "-b"])
  {
    assert Joined(["b"]) == "b--" && Joined(["c"]) == "c--" && Joined(["-b"]) == "-b--" && Joined(["b--c"]) == "b--c--";
    assert Joined(["a-", "b"]) == "a---b--" == Joined(["a", "-b"]);
    assert Joined(["a--b", "c"]) == "a--b--c--" == Joined(["a", "b--c"]);
    assert KeyOf(["a b"]) == "a_b--" == KeyOf(["a_b"]);
  }

  /** Every integer, negative ones included, is a safe component in its normal form. */
  lemma IntegersAreSafe(n: int)
    ensures Safe(D.FormatInt(n))
  {
    var s := D.FormatInt(n);
    forall i | 1 <= i < |s|
      ensures D.IsDigit(s[i])
    {
      assert n < 0 ==> s[i] == D.FormatUint(-n)[i - 1];
    }
    assert forall i: nat :: SepAt(s, i) ==> !D.IsDigit(s[i + 1]);
    assert s[0] == '-' || D.IsDigit(s[0]);
    assert ' ' !in s;
    assert n < 0 ==> |s| > 1;
  }

  /** A table whose primary keys are safe keeps its cache coherent in every run, whatever the lock
      ring's hashing. */
  lemma SafeTableCoherent(isPk: P.Pk -> bool, slotOf: string -> nat)
    requires forall pk, v :: isPk(pk) && v in pk ==> Safe(v)
    ensures var cfg := P.Config(isPk, KeyOf, slotOf);
            forall states, actions, i :: P.IsRun(cfg, states, actions) && 0 <= i < |states| ==> P.Coherent(cfg, states[i])
  {
    var cfg := P.Config(isPk, KeyOf, slotOf);
    forall p, q | cfg.isPk(p) && cfg.isPk(q) && cfg.keyOf(p) == cfg.keyOf(q)
      ensures p == q
    {
      KeyInjective(p, q);
    }
    P.CoherentIff(cfg);
  }
}
