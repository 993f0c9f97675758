/** One table's view of memcached (vt/tabletserver/rowcache.go). */
module RowCache {
  import opened Wrappers
  import P = RowCacheProtocol

  /** The memcached store, shared by the caches of all tables. `add` and `set` are its own commands. */
  class Memcache {
    var items: map<string, P.Entry>

    constructor ()
      ensures items == map[]
    {
      items := map[];
    }

    /** Stores only under a key that holds nothing. */
    method Add(key: string, e: P.Entry)
      modifies this
      ensures items == if key in old(items) then old(items) else old(items)[key := e]
    {
      if key !in items {
        items := items[key := e];
      }
    }

    method Put(key: string, e: P.Entry)
      modifies this
      ensures items == old(items)[key := e]
    {
      items := items[key := e];
    }
  }

  /** A cache prefix: a number in some base, then a dot. */
  predicate IsPrefix(p: string) { p != "" && p[|p| - 1] == '.' && '.' !in p[..|p| - 1] }

  /** Different prefixes never give the same memcached key, whatever the row keys. */
  lemma PrefixesApart(p: string, q: string, k: string, l: string)
    requires IsPrefix(p) && IsPrefix(q) && p + k == q + l
    ensures p == q && k == l
  {
    PrefixEnds(p, k, q, l);
    PrefixEnds(q, l, p, k);
    var s := p + k;
    assert s[..|p|] == p && s[..|p|] == q && s[|p|..] == k && s[|p|..] == l;
  }

  /** A prefix ends at the first dot. */
  lemma PrefixEnds(p: string, k: string, q: string, l: string)
    requires IsPrefix(p) && IsPrefix(q) && p + k == q + l
    ensures |p| <= |q|
  {
    var s := p + k;
    assert forall i :: 0 <= i < |p| - 1 ==> s[i] == p[..|p| - 1][i] && s[i] != '.';
    assert s[|q| - 1] == (q + l)[|q| - 1] == '.';
  }

  class Cache {
    const prefix: string
    const mc: Memcache

    constructor (prefix: string, mc: Memcache)
      ensures this.prefix == prefix && this.mc == mc
    {
      this.prefix, this.mc := prefix, mc;
    }

    /** What this table has under a key. */
    ghost function At(key: string): Option<P.Entry>
      reads this, mc
    {
      if prefix + key in mc.items then Some(mc.items[prefix + key]) else None
    }

    /** The rows and tombstones found for some keys. A tombstone gives no row, an over-long key nothing
        at all. */
    method Get(keys: seq<string>) returns (results: map<string, Option<P.Row>>)
      ensures forall k :: k in results <==> k in keys && P.Cacheable(k) && At(k).Some?
      ensures forall k :: k in results ==> results[k] == if At(k).value.Live? then Some(At(k).value.row) else None
    {
      var mkeys: seq<string> := [];
      for i := 0 to |keys|
        invariant forall m :: m in mkeys <==> exists j :: 0 <= j < i && P.Cacheable(keys[j]) && m == prefix + keys[j]
      {
        if P.Cacheable(keys[i]) {
          mkeys := mkeys + [prefix + keys[i]];
        }
      }
      results := map[];
      for i := 0 to |mkeys|
        invariant forall k :: k in results <==> prefix + k in mkeys[..i] && At(k).Some?
        invariant forall k :: k in results ==> results[k] == if At(k).value.Live? then Some(At(k).value.row) else None
      {
        var m := mkeys[i];
        assert m in mkeys;
        assert m == prefix + m[|prefix|..];
        assert forall k :: prefix + k == m ==> k == m[|prefix|..] by { KeysApart(prefix, m); }
        assert mkeys[..i + 1] == mkeys[..i] + [m];
        if m in mc.items {
          var e := mc.items[m];
          results := results[m[|prefix|..] := if e.Live? then Some(e.row) else None];
        }
      }
      assert mkeys[..|mkeys|] == mkeys;
      forall k
        ensures prefix + k in mkeys <==> k in keys && P.Cacheable(k)
      {
        Asked(prefix, keys, mkeys, k);
      }
    }

    /** Offers a row: it is stored only where nothing, not even a tombstone, is. */
    method Set(key: string, row: P.Row)
      modifies mc
      ensures forall k ::
                At(k) == if k == key && P.Cacheable(key) && old(At(key)).None? then Some(P.Live(row)) else old(At(k))
      ensures forall m :: m != prefix + key && m in old(mc.items) ==> m in mc.items && mc.items[m] == old(mc.items)[m]
    {
      if |key| > P.MAX_KEY_LEN {
        return;
      }
      OneKey(prefix, key);
      mc.Add(prefix + key, P.Live(row));
    }

    /** Marks a key as written: the tombstone replaces whatever is there. */
    method Delete(key: string)
      modifies mc
      ensures forall k :: At(k) == if k == key && P.Cacheable(key) then Some(P.Tombstone) else old(At(k))
      ensures forall m :: m != prefix + key && m in old(mc.items) ==> m in mc.items && mc.items[m] == old(mc.items)[m]
    {
      if |key| > P.MAX_KEY_LEN {
        return;
      }
      OneKey(prefix, key);
      mc.Put(prefix + key, P.Tombstone);
    }
  }

  lemma KeysApart(prefix: string, m: string)
    requires |m| >= |prefix|
    ensures forall k :: prefix + k == m ==> k == m[|prefix|..]
  {
    forall k | prefix + k == m
      ensures k == m[|prefix|..]
    {
      assert (prefix + k)[|prefix|..] == k;
    }
  }

  lemma OneKey(prefix: string, key: string)
    ensures forall k :: prefix + k == prefix + key ==> k == key
  {
    KeysApart(prefix, prefix + key);
    assert (prefix + key)[|prefix|..] == key;
  }

  lemma Asked(prefix: string, keys: seq<string>, mkeys: seq<string>, k: string)
    requires forall m :: m in mkeys <==> exists j :: 0 <= j < |keys| && P.Cacheable(keys[j]) && m == prefix + keys[j]
    ensures prefix + k in mkeys <==> k in keys && P.Cacheable(k)
  {
    OneKey(prefix, k);
    if prefix + k in mkeys {
      var j :| 0 <= j < |keys| && P.Cacheable(keys[j]) && prefix + k == prefix + keys[j];
      OneKey(prefix, keys[j]);
    }
  }
}
