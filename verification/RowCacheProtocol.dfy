/** The row-cache protocol of proxy/conn_query.go and vt/tabletserver/rowcache.go as a step
    system. Any number of autocommit clients interleave:

      - SELECT by primary key: read the cache; on a miss take the key's lock, read the
        database, offer the row to the cache with `add`, unlock;
      - UPDATE, DELETE, REPLACE: take the lock, write a tombstone, run the statement, unlock;
      - INSERT: run the statement, with no lock.

    Entries may be evicted or expire at any moment, and a call may fail at any point. */
module RowCacheProtocol {
  import opened Wrappers

  type Client = nat
  type Pk = seq<string>
  type Row = seq<string>

  const MAX_KEY_LEN: nat := 200

  /** One cached table: its primary keys, their cache keys, and the slot of the lock ring a
      cache key falls in. */
  datatype Config = Config(isPk: Pk -> bool, keyOf: Pk -> string, slotOf: string -> nat)

  /** What memcached holds under a key; an evicted or expired entry is absent from the map. */
  datatype Entry = Tombstone | Live(row: Row)

  datatype Write =
    | Update(pk: Pk, row: Row)
    | Move(pk: Pk, to: Pk, row: Row)   // an UPDATE that changes the primary key
    | Delete(pk: Pk)
    | Replace(pk: Pk, row: Row)

  datatype SelectAt =
    | Called
    | Missed                     // the cache had no row
    | Locked                     // the key's lock is held
    | Fetched(row: Row)          // the database returned a row, not yet offered to the cache
    | Filled(res: Option<Row>)   // answer known, lock still held
    | Answered(res: Option<Row>)

  datatype WriteAt =
    | Requested
    | Held                       // the key's lock is held
    | Marked                     // tombstone written
    | Executed(ok: bool)         // statement run or failed, lock still held
    | Finished(ok: bool)

  datatype InsertAt = Sending | Sent(ok: bool)

  /** Where a client is in its current call. */
  datatype Proc =
    | Idle
    | Sel(pk: Pk, sel: SelectAt)
    | Wr(w: Write, wr: WriteAt)
    | Ins(pk: Pk, row: Row, ins: InsertAt)

  datatype State = State(
    db: map<Pk, Row>,
    cache: map<string, Entry>,
    locks: map<nat, Client>,
    procs: map<Client, Proc>)

  /** One atomic step. `c` is the client that moves. */
  datatype Action =
    | StartSelect(c: Client, pk: Pk)
    | StartWrite(c: Client, w: Write)
    | StartInsert(c: Client, pk: Pk, row: Row)
    | CacheGet(c: Client)
    | Lock(c: Client)
    | ReadDb(c: Client)
    | CacheAdd(c: Client)
    | CacheTombstone(c: Client)
    | Exec(c: Client, ok: bool)
    | Unlock(c: Client)
    | Return(c: Client)
    | Fail(c: Client)
    | Evict(key: string)

  function ProcOf(s: State, c: Client): Proc { if c in s.procs then s.procs[c] else Idle }

  function Lookup(db: map<Pk, Row>, pk: Pk): Option<Row> {
    if pk in db then Some(db[pk]) else None
  }

  predicate HasLive(cache: map<string, Entry>, key: string) { key in cache && cache[key].Live? }

  predicate Cacheable(key: string) { |key| <= MAX_KEY_LEN }

  predicate HoldsLock(p: Proc) {
    || (p.Sel? && (p.sel.Locked? || p.sel.Fetched? || p.sel.Filled?))
    || (p.Wr? && (p.wr.Held? || p.wr.Marked? || p.wr.Executed?))
  }

  /** The key a call works on. */
  function PkOf(p: Proc): Pk
    requires !p.Idle?
  {
    if p.Wr? then p.w.pk else p.pk
  }

  function SlotOf(cfg: Config, p: Proc): nat
    requires !p.Idle?
  {
    cfg.slotOf(cfg.keyOf(PkOf(p)))
  }

  /** The database after a statement. A move onto an existing key is refused by the database. */
  function Effect(db: map<Pk, Row>, w: Write): map<Pk, Row> {
    match w
    case Update(pk, row) => if pk in db then db[pk := row] else db
    case Move(pk, to, row) => if pk in db && to !in db then (db - {pk})[to := row] else db
    case Delete(pk) => db - {pk}
    case Replace(pk, row) => db[pk := row]
  }

  predicate IsSel(p: Proc, at: SelectAt) { p.Sel? && p.sel == at }

  predicate IsWr(p: Proc, at: WriteAt) { p.Wr? && p.wr == at }

  /** Where a client must be for each step. */
  predicate Enabled(cfg: Config, s: State, a: Action) {
    a.Evict? ||
    var p := ProcOf(s, a.c);
    match a
    case StartSelect(_, pk) => p.Idle? && cfg.isPk(pk)
    case StartWrite(_, w) => p.Idle? && cfg.isPk(w.pk)
    case StartInsert(_, pk, row) => p.Idle? && cfg.isPk(pk)
    case CacheGet(_) => IsSel(p, Called)
    case Lock(_) => (IsSel(p, Missed) || IsWr(p, Requested)) && SlotOf(cfg, p) !in s.locks
    case ReadDb(_) => IsSel(p, Locked)
    case CacheAdd(_) => p.Sel? && p.sel.Fetched?
    case CacheTombstone(_) => IsWr(p, Held)
    case Exec(_, ok) => IsWr(p, Marked) || (p.Ins? && p.ins.Sending?)
    case Unlock(_) => (p.Sel? && p.sel.Filled?) || (p.Wr? && p.wr.Executed?)
    case Return(_) => (p.Sel? && p.sel.Answered?) || (p.Wr? && p.wr.Finished?) || (p.Ins? && p.ins.Sent?)
    case Fail(_) => !p.Idle?
  }

  /** The step's effect on its client. */
  function NextProc(cfg: Config, s: State, a: Action): Proc
    requires Enabled(cfg, s, a) && !a.Evict?
  {
    var p := ProcOf(s, a.c);
    match a
    case StartSelect(_, pk) => Sel(pk, Called)
    case StartWrite(_, w) => Wr(w, Requested)
    case StartInsert(_, pk, row) => Ins(pk, row, Sending)
    case CacheGet(_) =>
      // A key over MAX_KEY_LEN is never asked for; a tombstone counts as a miss.
      var key := cfg.keyOf(p.pk);
      p.(sel := if Cacheable(key) && HasLive(s.cache, key) then Answered(Some(s.cache[key].row)) else Missed)
    case Lock(_) => if p.Sel? then p.(sel := Locked) else p.(wr := Held)
    case ReadDb(_) =>
      // An empty result set is returned without touching the cache.
      p.(sel := if p.pk in s.db then Fetched(s.db[p.pk]) else Filled(None))
    case CacheAdd(_) => p.(sel := Filled(Some(p.sel.row)))
    case CacheTombstone(_) => p.(wr := Marked)
    case Exec(_, ok) =>
      // An INSERT of an existing key fails.
      if p.Wr? then p.(wr := Executed(ok)) else p.(ins := Sent(ok && p.pk !in s.db))
    case Unlock(_) => if p.Sel? then p.(sel := Answered(p.sel.res)) else p.(wr := Finished(p.wr.ok))
    case Return(_) => Idle
    case Fail(_) => Idle
  }

  /** `add` stores only when nothing, not even a tombstone, is there. */
  function NextCache(cfg: Config, s: State, a: Action): map<string, Entry>
    requires Enabled(cfg, s, a)
  {
    match a
    case CacheAdd(c) =>
      var p := ProcOf(s, c);
      var key := cfg.keyOf(p.pk);
      if Cacheable(key) && key !in s.cache then s.cache[key := Live(p.sel.row)] else s.cache
    case CacheTombstone(c) =>
      var key := cfg.keyOf(ProcOf(s, c).w.pk);
      if Cacheable(key) then s.cache[key := Tombstone] else s.cache
    case Evict(key) => s.cache - {key}
    case _ => s.cache
  }

  /** A statement may fail; an INSERT of an existing key always does. */
  function NextDb(cfg: Config, s: State, a: Action): map<Pk, Row>
    requires Enabled(cfg, s, a)
  {
    if a.Exec? && a.ok then
      var p := ProcOf(s, a.c);
      if p.Wr? then Effect(s.db, p.w)
      else if p.pk in s.db then s.db else s.db[p.pk := p.row]
    else s.db
  }

  function NextLocks(cfg: Config, s: State, a: Action): map<nat, Client>
    requires Enabled(cfg, s, a)
  {
    if a.Lock? then s.locks[SlotOf(cfg, ProcOf(s, a.c)) := a.c]
    else if (a.Unlock? || a.Fail?) && HoldsLock(ProcOf(s, a.c)) then s.locks - {SlotOf(cfg, ProcOf(s, a.c))}
    else s.locks
  }

  function Apply(cfg: Config, s: State, a: Action): State
    requires Enabled(cfg, s, a)
  {
    State(NextDb(cfg, s, a), NextCache(cfg, s, a), NextLocks(cfg, s, a),
          if a.Evict? then s.procs else s.procs[a.c := NextProc(cfg, s, a)])
  }

  // ---------------------------------------------------------------- coherence

  /** A live cached row is the database's current row. */
  ghost predicate Coherent(cfg: Config, s: State) {
    forall pk :: cfg.isPk(pk) && HasLive(s.cache, cfg.keyOf(pk)) ==>
      Lookup(s.db, pk) == Some(s.cache[cfg.keyOf(pk)].row)
  }

  /** No two rows that can be cached share a cache key. */
  ghost predicate KeysDistinct(cfg: Config) {
    forall p, q :: cfg.isPk(p) && cfg.isPk(q) && cfg.keyOf(p) == cfg.keyOf(q) && Cacheable(cfg.keyOf(p)) ==> p == q
  }

  predicate OwnsLock(cfg: Config, s: State, c: Client, p: Proc) {
    HoldsLock(p) ==> SlotOf(cfg, p) in s.locks && s.locks[SlotOf(cfg, p)] == c
  }

  /** A fill holds a row it will offer to the cache. */
  predicate Carries(cfg: Config, p: Proc) { p.Sel? && p.sel.Fetched? && Cacheable(cfg.keyOf(p.pk)) }

  /** What a client in the middle of a call may rely on. */
  predicate ProcOk(cfg: Config, s: State, c: Client, p: Proc) {
    && (!p.Idle? ==> cfg.isPk(PkOf(p)))
    && OwnsLock(cfg, s, c, p)
    && (Carries(cfg, p) ==> Lookup(s.db, p.pk) == Some(p.sel.row))
    && (IsWr(p, Marked) ==> !HasLive(s.cache, cfg.keyOf(p.w.pk)))
  }

  /** Every lock belongs to the client whose call holds it, so no lock is ever left behind. */
  predicate LocksOwned(cfg: Config, s: State) {
    forall l :: l in s.locks ==>
      var p := ProcOf(s, s.locks[l]); HoldsLock(p) && SlotOf(cfg, p) == l
  }

  ghost predicate Inv(cfg: Config, s: State) {
    && Coherent(cfg, s)
    && (forall k :: k in s.cache ==> Cacheable(k))
    && (forall c :: c in s.procs ==> ProcOk(cfg, s, c, s.procs[c]))
    && LocksOwned(cfg, s)
  }

  predicate Init(s: State) { s.cache == map[] && s.locks == map[] && s.procs == map[] }

  /** States and the actions between them. */
  ghost predicate IsPath(cfg: Config, states: seq<State>, actions: seq<Action>) {
    && |states| == |actions| + 1
    && forall i :: 0 <= i < |actions| ==>
         Enabled(cfg, states[i], actions[i]) && states[i + 1] == Apply(cfg, states[i], actions[i])
  }

  /** A finite run, from a proxy that has just started. */
  ghost predicate IsRun(cfg: Config, states: seq<State>, actions: seq<Action>) {
    IsPath(cfg, states, actions) && Init(states[0])
  }

  lemma StepCoherent(cfg: Config, s: State, a: Action)
    requires KeysDistinct(cfg) && Inv(cfg, s) && Enabled(cfg, s, a)
    ensures Coherent(cfg, Apply(cfg, s, a))
    ensures forall k :: k in Apply(cfg, s, a).cache ==> Cacheable(k)
  {
    assert a.CacheAdd? || a.Exec? ==> ProcOk(cfg, s, a.c, s.procs[a.c]);
  }

  /** The lock of a client that does not move stays its own. */
  lemma OtherLocked(cfg: Config, s: State, a: Action, c: Client)
    requires Inv(cfg, s) && Enabled(cfg, s, a) && c in s.procs && (a.Evict? || a.c != c)
    ensures OwnsLock(cfg, Apply(cfg, s, a), c, s.procs[c])
  {
    assert OwnsLock(cfg, s, c, s.procs[c]);
    assert a.Unlock? || a.Fail? ==> OwnsLock(cfg, s, a.c, s.procs[a.c]);
  }

  /** What a client that does not move relies on stays true: a write of its row or a fill of its
      key would need the lock it holds. */
  lemma OtherOk(cfg: Config, s: State, a: Action, c: Client)
    requires Inv(cfg, s) && Enabled(cfg, s, a) && c in s.procs && (a.Evict? || a.c != c)
    ensures ProcOk(cfg, Apply(cfg, s, a), c, s.procs[c])
  {
    OtherLocked(cfg, s, a, c);
    assert ProcOk(cfg, s, c, s.procs[c]);
    if a.Exec? || a.CacheAdd? {
      assert ProcOk(cfg, s, a.c, s.procs[a.c]);
    }
  }

  lemma SelfLocked(cfg: Config, s: State, a: Action)
    requires Inv(cfg, s) && Enabled(cfg, s, a) && !a.Evict?
    ensures OwnsLock(cfg, Apply(cfg, s, a), a.c, NextProc(cfg, s, a))
  {
    assert a.c in s.procs ==> OwnsLock(cfg, s, a.c, s.procs[a.c]);
  }

  lemma SelfOk(cfg: Config, s: State, a: Action)
    requires Inv(cfg, s) && Enabled(cfg, s, a) && !a.Evict?
    ensures ProcOk(cfg, Apply(cfg, s, a), a.c, NextProc(cfg, s, a))
  {
    SelfLocked(cfg, s, a);
    assert a.c in s.procs ==> ProcOk(cfg, s, a.c, s.procs[a.c]);
  }

  lemma StepLocks(cfg: Config, s: State, a: Action)
    requires Inv(cfg, s) && Enabled(cfg, s, a)
    ensures LocksOwned(cfg, Apply(cfg, s, a))
  {
    forall l | l in NextLocks(cfg, s, a)
      ensures var p := ProcOf(Apply(cfg, s, a), NextLocks(cfg, s, a)[l]); HoldsLock(p) && SlotOf(cfg, p) == l
    {
      LockKept(cfg, s, a, l);
    }
  }

  lemma LockKept(cfg: Config, s: State, a: Action, l: nat)
    requires Inv(cfg, s) && Enabled(cfg, s, a) && l in NextLocks(cfg, s, a)
    ensures var p := ProcOf(Apply(cfg, s, a), NextLocks(cfg, s, a)[l]); HoldsLock(p) && SlotOf(cfg, p) == l
  {
    assert l in s.locks ==> var p := ProcOf(s, s.locks[l]); HoldsLock(p) && SlotOf(cfg, p) == l;
  }

  /** No step of any client breaks coherence or the locking discipline. */
  lemma StepKeepsInv(cfg: Config, s: State, a: Action)
    requires KeysDistinct(cfg) && Inv(cfg, s) && Enabled(cfg, s, a)
    ensures Inv(cfg, Apply(cfg, s, a))
  {
    StepCoherent(cfg, s, a);
    StepLocks(cfg, s, a);
    forall c | c in Apply(cfg, s, a).procs
      ensures ProcOk(cfg, Apply(cfg, s, a), c, Apply(cfg, s, a).procs[c])
    {
      if !a.Evict? && a.c == c { SelfOk(cfg, s, a); } else { OtherOk(cfg, s, a, c); }
    }
  }

  lemma {:induction false} PathKeepsInv(cfg: Config, states: seq<State>, actions: seq<Action>, i: nat)
    requires KeysDistinct(cfg) && IsPath(cfg, states, actions) && Inv(cfg, states[0]) && i < |states|
    ensures Inv(cfg, states[i])
  {
    if i > 0 {
      PathKeepsInv(cfg, states, actions, i - 1);
      StepKeepsInv(cfg, states[i - 1], actions[i - 1]);
    }
  }

  lemma RunKeepsInv(cfg: Config, states: seq<State>, actions: seq<Action>, i: nat)
    requires KeysDistinct(cfg) && IsRun(cfg, states, actions) && i < |states|
    ensures Inv(cfg, states[i])
  {
    PathKeepsInv(cfg, states, actions, i);
  }

  /** The first five steps of a lone SELECT of `p`, whose row is empty. */
  function FillAction(p: Pk, i: nat): Action {
    match i
    case 0 => StartSelect(0, p)
    case 1 => CacheGet(0)
    case 2 => Lock(0)
    case 3 => ReadDb(0)
    case _ => CacheAdd(0)
  }

  function FillState(cfg: Config, p: Pk, i: nat): State {
    State(map[p := []],
          if i < 5 then map[] else map[cfg.keyOf(p) := Live([])],
          if i < 3 then map[] else map[cfg.slotOf(cfg.keyOf(p)) := 0],
          match i
          case 0 => map[]
          case 1 => map[0 := Sel(p, Called)]
          case 2 => map[0 := Sel(p, Missed)]
          case 3 => map[0 := Sel(p, Locked)]
          case 4 => map[0 := Sel(p, Fetched([]))]
          case _ => map[0 := Sel(p, Filled(Some([])))])
  }

  lemma FillStep(cfg: Config, p: Pk, i: nat)
    requires cfg.isPk(p) && Cacheable(cfg.keyOf(p)) && i < 5
    ensures Enabled(cfg, FillState(cfg, p, i), FillAction(p, i))
    ensures FillState(cfg, p, i + 1) == Apply(cfg, FillState(cfg, p, i), FillAction(p, i))
  {
  }

  /** The run that shows why cache keys must differ: the row of `p` is selected and stored under a
      key that `q`, which has no row, answers to as well. */
  lemma CollidingKeysRun(cfg: Config, p: Pk, q: Pk) returns (states: seq<State>, actions: seq<Action>)
    requires cfg.isPk(p) && cfg.isPk(q) && p != q && cfg.keyOf(p) == cfg.keyOf(q) && Cacheable(cfg.keyOf(p))
    ensures IsRun(cfg, states, actions) && !Coherent(cfg, states[|actions|])
  {
    actions, states := seq(5, (i: nat) => FillAction(p, i)), seq(6, (i: nat) => FillState(cfg, p, i));
    forall i | 0 <= i < 5
      ensures Enabled(cfg, states[i], actions[i]) && states[i + 1] == Apply(cfg, states[i], actions[i])
    {
      FillStep(cfg, p, i);
    }
    assert HasLive(states[5].cache, cfg.keyOf(q));
  }

  /** Every reachable state of every run is coherent exactly when distinct rows that fit the cache
      have distinct cache keys. */
  lemma CoherentIff(cfg: Config)
    ensures KeysDistinct(cfg) <==>
            forall states, actions :: IsRun(cfg, states, actions) ==>
              forall i :: 0 <= i < |states| ==> Coherent(cfg, states[i])
  {
    if KeysDistinct(cfg) {
      forall states, actions, i | IsRun(cfg, states, actions) && 0 <= i < |states|
        ensures Coherent(cfg, states[i])
      {
        RunKeepsInv(cfg, states, actions, i);
      }
    } else {
      var p, q :| cfg.isPk(p) && cfg.isPk(q) && cfg.keyOf(p) == cfg.keyOf(q) && Cacheable(cfg.keyOf(p)) && p != q;
      var states, actions := CollidingKeysRun(cfg, p, q);
    }
  }

  // ---------------------------------------------------------------- what a SELECT answers

  predicate InCall(s: State, c: Client, pk: Pk) { ProcOf(s, c).Sel? && ProcOf(s, c).pk == pk }

  /** The answer a SELECT has settled on, if it has. */
  function Settled(p: Proc): Option<Option<Row>> {
    if !p.Sel? then None
    else
      match p.sel
      case Fetched(row) => Some(Some(row))
      case Filled(res) => Some(res)
      case Answered(res) => Some(res)
      case _ => None
  }

  /** A step settles an answer only on the row the database holds at that moment, and otherwise
      carries settled answers along. */
  predicate Settles(s: State, s': State, c: Client) {
    var p, p' := ProcOf(s, c), ProcOf(s', c);
    Settled(p').Some? ==>
      || (p.Sel? && p.pk == p'.pk && Settled(p) == Settled(p'))
      || Settled(p') == Some(Lookup(s'.db, p'.pk))
  }

  lemma StepSettles(cfg: Config, s: State, a: Action, c: Client)
    requires Inv(cfg, s) && Enabled(cfg, s, a)
    ensures Settles(s, Apply(cfg, s, a), c)
  {
    assert !a.Evict? && a.c in s.procs ==> ProcOk(cfg, s, a.c, s.procs[a.c]);
  }

  lemma RunSettles(cfg: Config, states: seq<State>, actions: seq<Action>, j: nat, c: Client)
    requires KeysDistinct(cfg) && IsRun(cfg, states, actions) && j < |actions|
    ensures Settles(states[j], states[j + 1], c)
  {
    RunKeepsInv(cfg, states, actions, j);
    StepSettles(cfg, states[j], actions[j], c);
  }

  /** The instant at which a settled answer was the database's row, with the client inside the
      same call from then on. */
  lemma {:induction false} AnswerInstant(cfg: Config, states: seq<State>, actions: seq<Action>, j: nat, c: Client)
    returns (t: nat)
    requires KeysDistinct(cfg) && IsRun(cfg, states, actions) && j < |states|
    requires Settled(ProcOf(states[j], c)).Some?
    ensures var p := ProcOf(states[j], c);
            && t <= j && Settled(p) == Some(Lookup(states[t].db, p.pk))
            && forall u :: t <= u <= j ==> InCall(states[u], c, p.pk)
  {
    assert j > 0;
    RunSettles(cfg, states, actions, j - 1, c);
    var p, p' := ProcOf(states[j - 1], c), ProcOf(states[j], c);
    if p.Sel? && p.pk == p'.pk && Settled(p) == Settled(p') {
      t := AnswerInstant(cfg, states, actions, j - 1, c);
    } else {
      t := j;
    }
  }

  /** Every SELECT, whether answered from the cache or by a fill, returns the row the database held
      at some instant between the call and its return. */
  lemma SelectReturnsCurrentRow(cfg: Config, states: seq<State>, actions: seq<Action>, j: nat, c: Client, pk: Pk,
                                res: Option<Row>)
    requires KeysDistinct(cfg) && IsRun(cfg, states, actions) && j < |states|
    requires ProcOf(states[j], c) == Sel(pk, Answered(res))
    ensures exists t :: 0 <= t <= j && Lookup(states[t].db, pk) == res &&
              forall u :: t <= u <= j ==> InCall(states[u], c, pk)
  {
    var t := AnswerInstant(cfg, states, actions, j, c);
  }

  // ---------------------------------------------------------------- what a write does

  /** An INSERT that the database runs puts its row under a key that had none, and says so; one of an
      existing key, or one that fails, changes nothing and says that. No other key changes. */
  lemma InsertRuns(cfg: Config, s: State, c: Client, pk: Pk, row: Row, ok: bool)
    requires ProcOf(s, c) == Ins(pk, row, Sending)
    ensures Enabled(cfg, s, Exec(c, ok))
    ensures var s', done := Apply(cfg, s, Exec(c, ok)), ok && Lookup(s.db, pk).None?;
            && ProcOf(s', c) == Ins(pk, row, Sent(done))
            && Lookup(s'.db, pk) == (if done then Some(row) else Lookup(s.db, pk))
            && forall q :: q != pk ==> Lookup(s'.db, q) == Lookup(s.db, q)
  {
  }

  /** The row under key `q` after a write: an UPDATE changes an existing row only, a move needs its old key
      and a free new one, a DELETE leaves none, a REPLACE always writes. */
  function RowAfter(db: map<Pk, Row>, w: Write, q: Pk): Option<Row> {
    match w
    case Update(pk, row) => if q == pk && Lookup(db, pk).Some? then Some(row) else Lookup(db, q)
    case Move(pk, to, row) =>
      if Lookup(db, pk).None? || Lookup(db, to).Some? then Lookup(db, q)
      else if q == to then Some(row)
      else if q == pk then None
      else Lookup(db, q)
    case Delete(pk) => if q == pk then None else Lookup(db, q)
    case Replace(pk, row) => if q == pk then Some(row) else Lookup(db, q)
  }

  /** An UPDATE, DELETE or REPLACE that the database runs leaves under every key the row it should, and
      tells whether it ran. */
  lemma WriteRuns(cfg: Config, s: State, c: Client, w: Write, ok: bool, q: Pk)
    requires ProcOf(s, c) == Wr(w, Marked)
    ensures Enabled(cfg, s, Exec(c, ok))
    ensures var s' := Apply(cfg, s, Exec(c, ok));
            && ProcOf(s', c) == Wr(w, Executed(ok))
            && Lookup(s'.db, q) == if ok then RowAfter(s.db, w, q) else Lookup(s.db, q)
  {
  }

  // ---------------------------------------------------------------- the uncached system

  /** The same calls with no cache and no locks: each takes effect in one step on the database, and the
      client is told whether it did. */
  datatype UProc =
    | UIdle
    | USelect(pk: Pk)
    | USelected(pk: Pk, res: Option<Row>)
    | UWrite(w: Write)
    | UWritten(w: Write, ok: bool)
    | UInsert(pk: Pk, row: Row)
    | UInserted(pk: Pk, row: Row, ok: bool)

  datatype UState = UState(db: map<Pk, Row>, procs: map<Client, UProc>)

  function UProcOf(u: UState, c: Client): UProc { if c in u.procs then u.procs[c] else UIdle }

  predicate UStep(db: map<Pk, Row>, p: UProc, db': map<Pk, Row>, p': UProc) {
    match p'
    case UIdle => db' == db
    case USelect(_) => p.UIdle? && db' == db
    case UWrite(_) => p.UIdle? && db' == db
    case UInsert(_, _) => p.UIdle? && db' == db
    case USelected(pk, res) => p == USelect(pk) && res == Lookup(db, pk) && db' == db
    case UWritten(w, ok) => p == UWrite(w) && db' == (if ok then Effect(db, w) else db)
    case UInserted(pk, row, ok) =>
      p == UInsert(pk, row) && (ok ==> pk !in db) && db' == (if ok then db[pk := row] else db)
  }

  ghost predicate UNext(u: UState, u': UState) {
    u' == u ||
    exists c ::
      c in u'.procs && u'.procs == u.procs[c := u'.procs[c]] && UStep(u.db, UProcOf(u, c), u'.db, u'.procs[c])
  }

  function AbsProc(p: Proc): UProc {
    match p
    case Idle => UIdle
    case Sel(pk, _) => if Settled(p).Some? then USelected(pk, Settled(p).value) else USelect(pk)
    case Wr(w, at) => if at.Executed? || at.Finished? then UWritten(w, at.ok) else UWrite(w)
    case Ins(pk, row, at) => if at.Sent? then UInserted(pk, row, at.ok) else UInsert(pk, row)
  }

  function Abs(s: State): UState { UState(s.db, map c | c in s.procs :: AbsProc(s.procs[c])) }

  /** How one client's step looks from outside. */
  predicate Visible(db: map<Pk, Row>, p: Proc, db': map<Pk, Row>, p': Proc) {
    (AbsProc(p') == AbsProc(p) && db' == db) || UStep(db, AbsProc(p), db', AbsProc(p'))
  }

  lemma ExecVisible(cfg: Config, s: State, a: Action)
    requires Enabled(cfg, s, a) && a.Exec?
    ensures Visible(s.db, ProcOf(s, a.c), NextDb(cfg, s, a), NextProc(cfg, s, a))
  {
  }

  lemma OtherVisible(cfg: Config, s: State, a: Action)
    requires Inv(cfg, s) && Enabled(cfg, s, a) && !a.Evict? && !a.Exec?
    ensures Visible(s.db, ProcOf(s, a.c), s.db, NextProc(cfg, s, a))
  {
    assert a.c in s.procs ==> ProcOk(cfg, s, a.c, s.procs[a.c]);
  }

  /** Forward simulation: each step of the cached system is a step of the uncached one or invisible
      to it. */
  lemma StepRefines(cfg: Config, s: State, a: Action)
    requires Inv(cfg, s) && Enabled(cfg, s, a)
    ensures UNext(Abs(s), Abs(Apply(cfg, s, a)))
  {
    var u, u' := Abs(s), Abs(Apply(cfg, s, a));
    if a.Evict? {
      assert u' == u;
    } else {
      if a.Exec? { ExecVisible(cfg, s, a); } else { OtherVisible(cfg, s, a); }
      AbsUpdate(s, Apply(cfg, s, a), a.c, NextProc(cfg, s, a));
      OneMoves(u, u', a.c);
    }
  }

  lemma AbsUpdate(s: State, s': State, c: Client, p': Proc)
    requires s'.procs == s.procs[c := p']
    ensures Abs(s').procs == Abs(s).procs[c := AbsProc(p')] && UProcOf(Abs(s), c) == AbsProc(ProcOf(s, c))
  {
  }

  lemma OneMoves(u: UState, u': UState, c: Client)
    requires c in u'.procs && u'.procs == u.procs[c := u'.procs[c]]
    requires (u'.procs[c] == UProcOf(u, c) && u'.db == u.db) || UStep(u.db, UProcOf(u, c), u'.db, u'.procs[c])
    requires UProcOf(u, c).UIdle? ==> c in u.procs || UStep(u.db, UIdle, u'.db, u'.procs[c])
    ensures UNext(u, u')
  {
    if c in u.procs && u'.procs[c] == u.procs[c] && u'.db == u.db {
      assert u'.procs == u.procs;
    }
  }

  /** Every run of the cached proxy is a run of the uncached one. */
  lemma RunRefines(cfg: Config, states: seq<State>, actions: seq<Action>, i: nat)
    requires KeysDistinct(cfg) && IsRun(cfg, states, actions) && i < |actions|
    ensures UNext(Abs(states[i]), Abs(states[i + 1]))
  {
    RunKeepsInv(cfg, states, actions, i);
    StepRefines(cfg, states[i], actions[i]);
  }

  // ---------------------------------------------------------------- writes that bypass the protocol

  /** Upserts, and statements that do not parse, go to the database with no lock and no tombstone. They
      may change any rows. */
  function Bypass(s: State, db: map<Pk, Row>): State { s.(db := db) }

  /** Nothing in the cache, and nothing a fill is about to offer to it, is out of date with a database. */
  ghost predicate UpToDate(cfg: Config, s: State, db: map<Pk, Row>) {
    forall pk :: cfg.isPk(pk) && Cacheable(cfg.keyOf(pk)) ==>
      && (HasLive(s.cache, cfg.keyOf(pk)) ==> Lookup(db, pk) == Some(s.cache[cfg.keyOf(pk)].row))
      && (forall c :: c in s.procs && InCall(s, c, pk) && s.procs[c].sel.Fetched? ==>
           Lookup(db, pk) == Some(s.procs[c].sel.row))
  }

  /** In no continuation of a state does the cache hold an outdated row. */
  ghost predicate StaysCoherent(cfg: Config, s: State) {
    forall states, actions :: IsPath(cfg, states, actions) && states[0] == s ==>
      forall i :: 0 <= i < |states| ==> Coherent(cfg, states[i])
  }

  lemma UpToDateKeepsInv(cfg: Config, s: State, db: map<Pk, Row>)
    requires Inv(cfg, s) && UpToDate(cfg, s, db)
    ensures Inv(cfg, Bypass(s, db))
  {
    var s' := Bypass(s, db);
    forall c | c in s'.procs
      ensures ProcOk(cfg, s', c, s'.procs[c])
    {
      assert ProcOk(cfg, s, c, s.procs[c]);
      assert Carries(cfg, s.procs[c]) ==> InCall(s, c, s.procs[c].pk);
    }
  }

  /** A fill that carries an outdated row stores it once the entry in its way is evicted. */
  lemma OutdatedFill(cfg: Config, s: State, c: Client) returns (states: seq<State>, actions: seq<Action>)
    requires c in s.procs && Carries(cfg, s.procs[c]) && cfg.isPk(s.procs[c].pk)
    requires Lookup(s.db, s.procs[c].pk) != Some(s.procs[c].sel.row)
    ensures IsPath(cfg, states, actions) && states[0] == s && !Coherent(cfg, states[|actions|])
  {
    var pk := s.procs[c].pk;
    var evicted := Apply(cfg, s, Evict(cfg.keyOf(pk)));
    var stored := Apply(cfg, evicted, CacheAdd(c));
    states, actions := [s, evicted, stored], [Evict(cfg.keyOf(pk)), CacheAdd(c)];
    assert HasLive(stored.cache, cfg.keyOf(pk)) && stored.cache[cfg.keyOf(pk)].row == s.procs[c].sel.row;
    assert !Coherent(cfg, stored);
  }

  /** A write outside the protocol, whatever rows it changes, leaves every later state of every
      continuation coherent exactly when neither the cache nor a fill in progress has a row for a
      cacheable key that the write made out of date. */
  lemma BypassIff(cfg: Config, s: State, db: map<Pk, Row>)
    requires KeysDistinct(cfg) && Inv(cfg, s)
    ensures StaysCoherent(cfg, Bypass(s, db)) <==> UpToDate(cfg, s, db)
  {
    var s' := Bypass(s, db);
    if UpToDate(cfg, s, db) {
      UpToDateKeepsInv(cfg, s, db);
      forall states, actions, i | IsPath(cfg, states, actions) && states[0] == s' && 0 <= i < |states|
        ensures Coherent(cfg, states[i])
      {
        PathKeepsInv(cfg, states, actions, i);
      }
    } else {
      var pk :| cfg.isPk(pk) && Cacheable(cfg.keyOf(pk)) &&
        !((HasLive(s.cache, cfg.keyOf(pk)) ==> Lookup(db, pk) == Some(s.cache[cfg.keyOf(pk)].row)) &&
          (forall c :: c in s.procs && InCall(s, c, pk) && s.procs[c].sel.Fetched? ==>
            Lookup(db, pk) == Some(s.procs[c].sel.row)));
      if HasLive(s.cache, cfg.keyOf(pk)) && Lookup(db, pk) != Some(s.cache[cfg.keyOf(pk)].row) {
        assert IsPath(cfg, [s'], []) && !Coherent(cfg, [s'][0]);
      } else {
        var c :| c in s.procs && InCall(s, c, pk) && s.procs[c].sel.Fetched? && Lookup(db, pk) != Some(s.procs[c].sel.row);
        var states, actions := OutdatedFill(cfg, s', c);
      }
    }
  }

  /** A stale hit: a SELECT fills the cache, an upsert changes the row, and a SELECT that starts after
      that is answered with the old one. */
  lemma StaleHit(cfg: Config, p: Pk, row: Row)
    returns (filled: seq<State>, fill: seq<Action>, after: seq<State>, hit: seq<Action>)
    requires cfg.isPk(p) && Cacheable(cfg.keyOf(p)) && row != []
    ensures IsRun(cfg, filled, fill) && IsPath(cfg, after, hit)
    ensures filled[|fill|].db == map[p := []] && after[0] == Bypass(filled[|fill|], map[p := row])
    ensures ProcOf(after[0], 1) == Idle && ProcOf(after[|hit|], 1) == Sel(p, Answered(Some([])))
    ensures forall i :: 0 <= i < |after| ==> Lookup(after[i].db, p) == Some(row)
  {
    fill, filled := seq(5, (i: nat) => FillAction(p, i)), seq(6, (i: nat) => FillState(cfg, p, i));
    forall i | 0 <= i < 5
      ensures Enabled(cfg, filled[i], fill[i]) && filled[i + 1] == Apply(cfg, filled[i], fill[i])
    {
      FillStep(cfg, p, i);
    }
    var s := Bypass(filled[5], map[p := row]);
    var called := Apply(cfg, s, StartSelect(1, p));
    var answered := Apply(cfg, called, CacheGet(1));
    after, hit := [s, called, answered], [StartSelect(1, p), CacheGet(1)];
  }
}
