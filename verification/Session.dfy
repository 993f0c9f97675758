/** A client session's transaction state: status bits, the connections a transaction keeps, and every
    acquisition and release (proxy/conn_tx.go, proxy/conn_set.go, getConn and closeShardConns of
    proxy/conn_query.go, Close of proxy/conn.go). */
module Session {
  import opened Wrappers

  // ---------------------------------------------------------------- status bits

  /** SERVER_STATUS_IN_TRANS is bit 0, SERVER_STATUS_AUTOCOMMIT bit 1. */
  predicate InTransaction(status: nat) { status % 2 == 1 }

  predicate IsAutoCommit(status: nat) { status / 2 % 2 == 1 }

  predicate NeedBeginTx(status: nat) { InTransaction(status) || !IsAutoCommit(status) }

  function Begun(status: nat): (r: nat)
    ensures InTransaction(r) && r / 2 == status / 2
  {
    if InTransaction(status) then status else status + 1
  }

  /** Both bits as commit and rollback leave them. */
  function Ended(status: nat): (r: nat)
    ensures !NeedBeginTx(r) && r / 4 == status / 4
  {
    status - status % 4 + 2
  }

  function NoAutoCommit(status: nat): (r: nat)
    ensures !IsAutoCommit(r) && InTransaction(r) == InTransaction(status) && r / 4 == status / 4
  {
    if IsAutoCommit(status) then status - 2 else status
  }

  // ---------------------------------------------------------------- events

  /** A handle from GetConn; every call gives a new one. */
  type Handle = nat

  /** What a session does to backend connections. `epoch` counts the transactions ended before. */
  datatype Event =
    | Pop(h: Handle)
    | BeginTx(h: Handle)
    | Exec(h: Handle, shard: string, epoch: nat, inTx: bool)
    | Commit(h: Handle)
    | Rollback(h: Handle)
    | Push(h: Handle)

  /** Where the life of a handle has got to: taken from the pool, a statement run on it outside a
      transaction, or a transaction begun on it, with statements run in it, and then committed or rolled
      back; given back last. Events in any other order are wrong. */
  datatype Life = Unused | Taken | Ran | Returned | Open | Over(commit: bool) | Finished(commit: bool) | Wrong

  function Lived(l: Life, e: Event, h: Handle): Life {
    if e.h != h then l
    else
      match e
      case Pop(_) => if l.Unused? then Taken else Wrong
      case BeginTx(_) => if l.Taken? then Open else Wrong
      case Exec(_, _, _, inTx) => if l.Taken? && !inTx then Ran else if l.Open? && inTx then Open else Wrong
      case Commit(_) => if l.Open? then Over(true) else Wrong
      case Rollback(_) => if l.Open? then Over(false) else Wrong
      case Push(_) => if l.Ran? then Returned else if l.Over? then Finished(l.commit) else Wrong
  }

  function LifeOf(trace: seq<Event>, h: Handle): Life {
    if trace == [] then Unused
    else Lived(LifeOf(trace[..|trace| - 1], h), trace[|trace| - 1], h)
  }

  lemma LifeSnoc(trace: seq<Event>, e: Event, h: Handle)
    ensures LifeOf(trace + [e], h) == Lived(LifeOf(trace, h), e, h)
  {
    assert (trace + [e])[..|trace|] == trace;
  }

  // ---------------------------------------------------------------- commands

  datatype State = State(status: nat, txConns: map<string, Handle>, trace: seq<Event>, next: Handle, epoch: nat)

  const INITIAL := State(2, map[], [], 0, 0)

  /** How getting a connection goes: it works, none can be had, BEGIN fails, or choosing the database or
      character set fails. */
  datatype Fate = Works | NoConn | BeginFails | SetupFails

  datatype Command =
    | CBegin
    | CSetAutoCommit(on: bool)
    | CStatement(shard: string, fate: Fate)
    | CCommit(order: seq<string>)
    | CRollback(order: seq<string>)
    | COther

  function Emit(s: State, e: Event): State { s.(trace := s.trace + [e]) }

  /** getConn: the new state, and the connection unless it failed. */
  function GetConnOf(s: State, shard: string, fate: Fate): (State, Option<Handle>) {
    var taken := Emit(s, Pop(s.next)).(next := s.next + 1);
    if !NeedBeginTx(s.status) then
      if fate.NoConn? then (s, None)
      else (taken, if fate.SetupFails? then None else Some(s.next))
    else if shard in s.txConns then (s, if fate.SetupFails? then None else Some(s.txConns[shard]))
    else if fate.NoConn? then (s, None)
    else if fate.BeginFails? then (taken, None)
    else
      (Emit(taken, BeginTx(s.next)).(txConns := s.txConns[shard := s.next]),
       if fate.SetupFails? then None else Some(s.next))
  }

  /** A statement: get a connection, run on it, and give it back unless a transaction keeps it. */
  function Statement(s: State, shard: string, fate: Fate): State {
    var (s', co) := GetConnOf(s, shard, fate);
    if co.None? then s'
    else
      var ran := Emit(s', Exec(co.value, shard, s'.epoch, NeedBeginTx(s'.status)));
      if NeedBeginTx(s'.status) then ran else Emit(ran, Push(co.value))
  }

  /** The order in which a map is walked. */
  ghost predicate IsOrder(order: seq<string>, txConns: map<string, Handle>) {
    && (forall i, j :: 0 <= i < j < |order| ==> order[i] != order[j])
    && (forall k :: k in txConns <==> k in order)
  }

  function EndEvent(commit: bool, h: Handle): Event { if commit then Commit(h) else Rollback(h) }

  /** Commits or rolls back and gives back the connections of some shards. */
  function EndAll(trace: seq<Event>, commit: bool, txConns: map<string, Handle>, order: seq<string>): seq<Event>
    requires forall k :: k in order ==> k in txConns
  {
    if order == [] then trace
    else
      var n := |order| - 1;
      assert order[n] in order;
      assert forall k :: k in order[..n] ==> k in order;
      EndAll(trace, commit, txConns, order[..n]) + [EndEvent(commit, txConns[order[n]])] + [Push(txConns[order[n]])]
  }

  /** commit and rollback. */
  function EndTx(s: State, commit: bool, order: seq<string>): State
    requires IsOrder(order, s.txConns)
  {
    s.(status := Ended(s.status), trace := EndAll(s.trace, commit, s.txConns, order), txConns := map[],
       epoch := s.epoch + 1)
  }

  ghost predicate Possible(s: State, c: Command) {
    (c.CCommit? || c.CRollback?) ==> IsOrder(c.order, s.txConns)
  }

  function Do(s: State, c: Command): State
    requires Possible(s, c)
  {
    match c
    case CBegin => s.(status := Begun(s.status))
    case CSetAutoCommit(on) => if on then s else s.(status := NoAutoCommit(s.status))
    case CStatement(shard, fate) => Statement(s, shard, fate)
    case CCommit(order) => EndTx(s, true, order)
    case CRollback(order) => EndTx(s, false, order)
    case COther => s
  }

  // ---------------------------------------------------------------- what every run keeps

  ghost predicate Kept(s: State, h: Handle) { exists k :: k in s.txConns && s.txConns[k] == h }

  ghost predicate Injective(m: map<string, Handle>) { forall j, k :: j in m && k in m && j != k ==> m[j] != m[k] }

  /** A handle's life so far is what its place says: kept by the transaction, or done with. In a clean
      run none is lost. */
  ghost predicate LifeFits(s: State, h: Handle, clean: bool) {
    var l := LifeOf(s.trace, h);
    if h >= s.next then l == Unused
    else if Kept(s, h) then l == Open
    else l == Returned || l.Finished? || (l == Taken && !clean)
  }

  ghost predicate Lives(s: State, clean: bool) {
    && Injective(s.txConns)
    && (forall k :: k in s.txConns ==> s.txConns[k] < s.next)
    && (forall h :: LifeFits(s, h, clean))
  }

  /** A connection is lost when getConn fails after taking it and before a transaction keeps it. */
  predicate Loses(s: State, c: Command) {
    c.CStatement? &&
    if NeedBeginTx(s.status) then c.shard !in s.txConns && c.fate.BeginFails? else c.fate.SetupFails?
  }

  ghost predicate OnlyInTx(s: State) { s.txConns != map[] ==> NeedBeginTx(s.status) }

  lemma StatusKept(s: State, c: Command)
    requires OnlyInTx(s) && Possible(s, c)
    ensures OnlyInTx(Do(s, c))
  {
    if c.CStatement? { NewHandleTaken(s, c.shard, c.fate); }
  }

  // ---------------------------------------------------------------- connections are settled

  lemma OneMore(s: State, e: Event, h: Handle)
    ensures LifeOf(Emit(s, e).trace, h) == Lived(LifeOf(s.trace, h), e, h)
  {
    LifeSnoc(s.trace, e, h);
  }

  /** The life of a handle through getConn. */
  lemma GetConnLife(s: State, shard: string, fate: Fate, h: Handle)
    ensures var r := GetConnOf(s, shard, fate);
            var l, l' := LifeOf(s.trace, h), LifeOf(r.0.trace, h);
            if h != s.next || r.0.next == s.next then l' == l
            else if shard in r.0.txConns && shard !in s.txConns then l' == Lived(Lived(l, Pop(h), h), BeginTx(h), h)
            else l' == Lived(l, Pop(h), h)
  {
    var taken := Emit(s, Pop(s.next)).(next := s.next + 1);
    OneMore(s, Pop(s.next), h);
    OneMore(taken, BeginTx(s.next), h);
  }

  lemma StatementLife(s: State, shard: string, fate: Fate, h: Handle)
    ensures var r := GetConnOf(s, shard, fate);
            var l, l' := LifeOf(r.0.trace, h), LifeOf(Statement(s, shard, fate).trace, h);
            if r.1 != Some(h) then l' == l
            else if NeedBeginTx(s.status) then l' == if l.Open? then Open else Wrong
            else l' == if l.Taken? then Returned else Wrong
  {
    var (s', co) := GetConnOf(s, shard, fate);
    if co.Some? {
      var run := Exec(co.value, shard, s'.epoch, NeedBeginTx(s'.status));
      OneMore(s', run, h);
      OneMore(Emit(s', run), Push(co.value), h);
    }
  }

  lemma StatementKeeps(s: State, shard: string, fate: Fate, clean: bool)
    requires Lives(s, clean) && OnlyInTx(s)
    requires clean ==> !Loses(s, CStatement(shard, fate))
    ensures Lives(Statement(s, shard, fate), clean)
  {
    var s' := Statement(s, shard, fate);
    assert forall k :: k in s.txConns ==> k in s'.txConns && s'.txConns[k] == s.txConns[k];
    forall h
      ensures LifeFits(s', h, clean)
    {
      StatementFits(s, shard, fate, clean, h);
    }
  }

  lemma StatementFits(s: State, shard: string, fate: Fate, clean: bool, h: Handle)
    requires Lives(s, clean) && OnlyInTx(s)
    requires clean ==> !Loses(s, CStatement(shard, fate))
    ensures LifeFits(Statement(s, shard, fate), h, clean)
  {
    assert LifeFits(s, h, clean);
    KeptThrough(s, shard, fate, h);
    if h == s.next {
      NewHandle(s, shard, fate);
    } else {
      OldHandle(s, shard, fate, h);
    }
  }

  /** A statement does not change where the life of an earlier connection is, if the ones the transaction
      keeps are open. */
  lemma OldHandle(s: State, shard: string, fate: Fate, h: Handle)
    requires h != s.next && (Kept(s, h) ==> LifeOf(s.trace, h) == Open)
    ensures LifeOf(Statement(s, shard, fate).trace, h) == LifeOf(s.trace, h)
    ensures h < s.next <==> h < Statement(s, shard, fate).next
  {
    GetConnLife(s, shard, fate, h);
    StatementLife(s, shard, fate, h);
    assert GetConnOf(s, shard, fate).1 == Some(h) ==> shard in s.txConns && s.txConns[shard] == h && NeedBeginTx(s.status);
  }

  /** The life of the connection a statement takes, if it takes one. */
  lemma NewHandle(s: State, shard: string, fate: Fate)
    requires LifeOf(s.trace, s.next) == Unused && forall k :: k in s.txConns ==> s.txConns[k] != s.next
    ensures var s' := Statement(s, shard, fate);
            LifeOf(s'.trace, s.next) == if s'.next == s.next then Unused
                                        else if shard in s'.txConns && shard !in s.txConns then Open
                                        else if Loses(s, CStatement(shard, fate)) then Taken
                                        else Returned
  {
    GetConnLife(s, shard, fate, s.next);
    StatementLife(s, shard, fate, s.next);
    NewHandleTaken(s, shard, fate);
  }

  /** How getConn ends, and what a statement changes after it. */
  lemma NewHandleTaken(s: State, shard: string, fate: Fate)
    ensures var r, after := GetConnOf(s, shard, fate), Statement(s, shard, fate);
            && after.next == r.0.next && after.txConns == r.0.txConns && after.status == s.status
            && (r.0.txConns != s.txConns ==> NeedBeginTx(s.status))
            && (r.1 == Some(s.next) && r.0.next == s.next ==> shard in s.txConns && s.txConns[shard] == s.next)
            && (shard in r.0.txConns && shard !in s.txConns ==> NeedBeginTx(s.status))
            && (r.0.next != s.next && !(shard in r.0.txConns && shard !in s.txConns) ==>
                  (Loses(s, CStatement(shard, fate)) <==> r.1 != Some(s.next)) &&
                  (r.1 == Some(s.next) ==> !NeedBeginTx(s.status)))
  {
  }

  /** What a statement's transaction keeps: what it kept before, and perhaps a new connection. */
  lemma KeptThrough(s: State, shard: string, fate: Fate, h: Handle)
    requires forall k :: k in s.txConns ==> s.txConns[k] < s.next
    ensures var s' := Statement(s, shard, fate);
            Kept(s', h) <==> Kept(s, h) || (h == s.next && shard in s'.txConns && shard !in s.txConns)
  {
    var s' := Statement(s, shard, fate);
    if Kept(s, h) {
      var k :| k in s.txConns && s.txConns[k] == h;
      assert k in s'.txConns && s'.txConns[k] == h;
    }
  }

  ghost predicate EndedBy(txConns: map<string, Handle>, order: seq<string>, h: Handle)
    requires forall k :: k in order ==> k in txConns
  {
    exists k :: k in order && txConns[k] == h
  }

  /** Committed or rolled back, and then given back. */
  function EndLife(l: Life, commit: bool): Life { if l.Open? then Finished(commit) else Wrong }

  /** Walking the map ends and gives back each connection in it once, and touches no other. */
  lemma {:induction false} EndAllLife(trace: seq<Event>, commit: bool, txConns: map<string, Handle>, order: seq<string>,
                                      h: Handle)
    requires forall k :: k in order ==> k in txConns
    requires Injective(txConns) && forall i, j :: 0 <= i < j < |order| ==> order[i] != order[j]
    ensures var l, l' := LifeOf(trace, h), LifeOf(EndAll(trace, commit, txConns, order), h);
            l' == if EndedBy(txConns, order, h) then EndLife(l, commit) else l
  {
    if order != [] {
      var n := |order| - 1;
      var init, last := order[..n], order[n];
      assert forall k :: k in init ==> k in order;
      EndAllLife(trace, commit, txConns, init, h);
      EndOneLife(EndAll(trace, commit, txConns, init), commit, txConns[last], h);
      EndedBySnoc(txConns, order, h);
    }
  }

  lemma EndOneLife(trace: seq<Event>, commit: bool, co: Handle, h: Handle)
    ensures var l, l' := LifeOf(trace, h), LifeOf(trace + [EndEvent(commit, co)] + [Push(co)], h);
            l' == if co == h then EndLife(l, commit) else l
  {
    var mid := trace + [EndEvent(commit, co)];
    LifeSnoc(trace, EndEvent(commit, co), h);
    LifeSnoc(mid, Push(co), h);
  }

  lemma EndedBySnoc(txConns: map<string, Handle>, order: seq<string>, h: Handle)
    requires order != [] && (forall k :: k in order ==> k in txConns)
    requires Injective(txConns) && forall i, j :: 0 <= i < j < |order| ==> order[i] != order[j]
    ensures forall k :: k in order[..|order| - 1] ==> k in txConns
    ensures var init, last := order[..|order| - 1], order[|order| - 1];
            && last in order && (EndedBy(txConns, order, h) <==> EndedBy(txConns, init, h) || txConns[last] == h)
            && !(EndedBy(txConns, init, h) && txConns[last] == h)
  {
    var init, last := order[..|order| - 1], order[|order| - 1];
    assert forall k :: k in order <==> k in init || k == last;
    if EndedBy(txConns, init, h) {
      var k :| k in init && txConns[k] == h;
      assert k in order && k != last;
    }
  }

  lemma EndTxKeeps(s: State, commit: bool, order: seq<string>, clean: bool)
    requires Lives(s, clean) && IsOrder(order, s.txConns)
    ensures Lives(EndTx(s, commit, order), clean)
  {
    var s' := EndTx(s, commit, order);
    forall h
      ensures LifeFits(s', h, clean)
    {
      EndAllLife(s.trace, commit, s.txConns, order, h);
      assert LifeFits(s, h, clean);
      assert EndedBy(s.txConns, order, h) <==> Kept(s, h);
      assert !Kept(s', h);
    }
  }

  lemma LivesKept(s: State, c: Command, clean: bool)
    requires Lives(s, clean) && OnlyInTx(s) && Possible(s, c) && (clean ==> !Loses(s, c))
    ensures Lives(Do(s, c), clean)
  {
    match c
    case CStatement(shard, fate) => StatementKeeps(s, shard, fate, clean);
    case CCommit(order) => EndTxKeeps(s, true, order, clean);
    case CRollback(order) => EndTxKeeps(s, false, order, clean);
    case _ =>
      var s' := Do(s, c);
      assert s'.trace == s.trace && s'.txConns == s.txConns && s'.next == s.next;
      forall h
        ensures LifeFits(s', h, clean)
      {
        assert LifeFits(s, h, clean);
        assert Kept(s', h) == Kept(s, h);
      }
  }

  // ---------------------------------------------------------------- one connection per shard and transaction

  /** A statement run inside a transaction. */
  predicate InTxExec(e: Event) { e.Exec? && e.inTx }

  ghost predicate UsesKept(s: State) {
    forall i :: 0 <= i < |s.trace| && InTxExec(s.trace[i]) ==> ExecFits(s, s.trace[i])
  }

  ghost predicate ExecFits(s: State, e: Event)
    requires e.Exec?
  {
    e.epoch <= s.epoch && (e.epoch == s.epoch ==> e.shard in s.txConns && s.txConns[e.shard] == e.h)
  }

  /** All statements of one transaction on one shard use the same connection. */
  ghost predicate OneConnPerShard(trace: seq<Event>) {
    forall i, j :: 0 <= i < |trace| && 0 <= j < |trace| && SameTx(trace[i], trace[j]) ==> trace[i].h == trace[j].h
  }

  predicate SameTx(a: Event, b: Event) { InTxExec(a) && InTxExec(b) && a.epoch == b.epoch && a.shard == b.shard }

  /** A step that runs nothing in a transaction, and keeps the transaction or ends it. */
  lemma NothingRun(s: State, s': State, tail: seq<Event>)
    requires UsesKept(s) && OneConnPerShard(s.trace)
    requires s'.trace == s.trace + tail && forall i :: 0 <= i < |tail| ==> !InTxExec(tail[i])
    requires s'.epoch >= s.epoch
    requires s'.epoch == s.epoch ==> forall k :: k in s.txConns ==> k in s'.txConns && s'.txConns[k] == s.txConns[k]
    ensures UsesKept(s') && OneConnPerShard(s'.trace)
  {
    forall i | 0 <= i < |s'.trace| && InTxExec(s'.trace[i])
      ensures i < |s.trace| && ExecFits(s', s'.trace[i])
    {
      assert i < |s.trace| ==> ExecFits(s, s.trace[i]);
    }
  }

  /** A statement run on the kept connection. */
  lemma KeptRun(s: State, s': State, e: Event)
    requires UsesKept(s) && OneConnPerShard(s.trace)
    requires InTxExec(e) && e.epoch == s.epoch && e.shard in s.txConns && s.txConns[e.shard] == e.h
    requires s' == Emit(s, e)
    ensures UsesKept(s') && OneConnPerShard(s'.trace)
  {
    var n := |s.trace|;
    forall i | 0 <= i < |s'.trace| && InTxExec(s'.trace[i])
      ensures ExecFits(s', s'.trace[i])
    {
      assert i < n ==> ExecFits(s, s.trace[i]);
    }
    forall i, j | 0 <= i < |s'.trace| && 0 <= j < |s'.trace| && SameTx(s'.trace[i], s'.trace[j])
      ensures s'.trace[i].h == s'.trace[j].h
    {
      assert ExecFits(s', s'.trace[i]) && ExecFits(s', s'.trace[j]);
      assert i < n && j < n ==> s'.trace[i] == s.trace[i] && s'.trace[j] == s.trace[j];
    }
  }

  lemma {:induction false} EndAllPrefix(trace: seq<Event>, commit: bool, txConns: map<string, Handle>, order: seq<string>)
    requires forall k :: k in order ==> k in txConns
    ensures var r := EndAll(trace, commit, txConns, order);
            |trace| <= |r| && r[..|trace|] == trace && forall i :: |trace| <= i < |r| ==> !r[i].Exec?
  {
    if order != [] {
      assert forall k :: k in order[..|order| - 1] ==> k in order;
      EndAllPrefix(trace, commit, txConns, order[..|order| - 1]);
    }
  }

  lemma GetConnRuns(s: State, shard: string, fate: Fate)
    requires UsesKept(s) && OneConnPerShard(s.trace)
    ensures var r := GetConnOf(s, shard, fate);
            && UsesKept(r.0) && OneConnPerShard(r.0.trace) && r.0.status == s.status && r.0.epoch == s.epoch
            && (r.1.Some? && NeedBeginTx(s.status) ==> shard in r.0.txConns && r.0.txConns[shard] == r.1.value)
  {
    var s' := GetConnOf(s, shard, fate).0;
    var tail := s'.trace[|s.trace|..];
    assert s'.trace == s.trace + tail;
    NothingRun(s, s', tail);
  }

  lemma StatementRuns(s: State, shard: string, fate: Fate)
    requires UsesKept(s) && OneConnPerShard(s.trace)
    ensures UsesKept(Statement(s, shard, fate)) && OneConnPerShard(Statement(s, shard, fate).trace)
  {
    GetConnRuns(s, shard, fate);
    var (g, co) := GetConnOf(s, shard, fate);
    if co.Some? {
      var e := Exec(co.value, shard, g.epoch, NeedBeginTx(g.status));
      if NeedBeginTx(g.status) {
        KeptRun(g, Emit(g, e), e);
      } else {
        assert g.trace + [e] + [Push(co.value)] == g.trace + [e, Push(co.value)];
        NothingRun(g, Statement(s, shard, fate), [e, Push(co.value)]);
      }
    }
  }

  lemma EndTxRuns(s: State, commit: bool, order: seq<string>)
    requires UsesKept(s) && OneConnPerShard(s.trace) && IsOrder(order, s.txConns)
    ensures UsesKept(EndTx(s, commit, order)) && OneConnPerShard(EndTx(s, commit, order).trace)
  {
    var s' := EndTx(s, commit, order);
    EndAllPrefix(s.trace, commit, s.txConns, order);
    NothingRun(s, s', s'.trace[|s.trace|..]);
  }

  lemma RunsKept(s: State, c: Command)
    requires UsesKept(s) && OneConnPerShard(s.trace) && Possible(s, c)
    ensures UsesKept(Do(s, c)) && OneConnPerShard(Do(s, c).trace)
  {
    var s' := Do(s, c);
    match c
    case CStatement(shard, fate) => StatementRuns(s, shard, fate);
    case CCommit(order) => EndTxRuns(s, true, order);
    case CRollback(order) => EndTxRuns(s, false, order);
    case _ =>
      assert s'.trace == s.trace + [];
      NothingRun(s, s', []);
  }

  // ---------------------------------------------------------------- runs

  ghost predicate IsRun(states: seq<State>, commands: seq<Command>) {
    && |states| == |commands| + 1 && states[0] == INITIAL
    && forall i :: 0 <= i < |commands| ==> Possible(states[i], commands[i]) && states[i + 1] == Do(states[i], commands[i])
  }

  ghost predicate IsClean(states: seq<State>, commands: seq<Command>)
    requires |states| == |commands| + 1
  {
    forall i :: 0 <= i < |commands| ==> !Loses(states[i], commands[i])
  }

  ghost predicate Inv(s: State, clean: bool) { OnlyInTx(s) && Lives(s, clean) && UsesKept(s) && OneConnPerShard(s.trace) }

  /** In every run of a session connections are kept only while a transaction needs them, each kept one
      was begun once and not yet ended or given back, each other one was given back once, after exactly
      one commit or rollback if it was begun, and all statements of one transaction on one shard ran on
      the same connection. */
  lemma {:induction false} RunKeepsInv(states: seq<State>, commands: seq<Command>, i: nat, clean: bool)
    requires IsRun(states, commands) && i < |states| && (clean ==> IsClean(states, commands))
    ensures Inv(states[i], clean)
  {
    if i > 0 {
      RunKeepsInv(states, commands, i - 1, clean);
      StatusKept(states[i - 1], commands[i - 1]);
      LivesKept(states[i - 1], commands[i - 1], clean);
      RunsKept(states[i - 1], commands[i - 1]);
    }
  }

  /** A statement loses the connection it takes exactly when setting it up fails outside a transaction
      or beginning fails inside one, whatever happened before. */
  lemma LosesIff(s: State, shard: string, fate: Fate)
    requires LifeOf(s.trace, s.next) == Unused && forall k :: k in s.txConns ==> s.txConns[k] != s.next
    ensures var s' := Statement(s, shard, fate);
            s.next < s'.next && LifeOf(s'.trace, s.next) == Taken <==> Loses(s, CStatement(shard, fate))
  {
    NewHandle(s, shard, fate);
  }

  /** No command changes the life of a connection that no transaction keeps: what was given back stays so,
      and a lost one is never given back. */
  lemma DoneStays(s: State, c: Command, h: Handle)
    requires Lives(s, false) && Possible(s, c) && h < s.next && !Kept(s, h)
    ensures h < Do(s, c).next && !Kept(Do(s, c), h) && LifeOf(Do(s, c).trace, h) == LifeOf(s.trace, h)
  {
    assert LifeFits(s, h, false);
    match c
    case CStatement(shard, fate) =>
      OldHandle(s, shard, fate, h);
      KeptThrough(s, shard, fate, h);
    case CCommit(order) => EndAllLife(s.trace, true, s.txConns, order, h);
    case CRollback(order) => EndAllLife(s.trace, false, s.txConns, order, h);
    case _ => assert Do(s, c).txConns == s.txConns;
  }

  lemma {:induction false} DoneForever(states: seq<State>, commands: seq<Command>, i: nat, j: nat, h: Handle)
    requires IsRun(states, commands) && i <= j < |states| && h < states[i].next && !Kept(states[i], h)
    ensures h < states[j].next && !Kept(states[j], h) && LifeOf(states[j].trace, h) == LifeOf(states[i].trace, h)
  {
    if i < j {
      DoneForever(states, commands, i, j - 1, h);
      RunKeepsInv(states, commands, j - 1, false);
      DoneStays(states[j - 1], commands[j - 1], h);
    }
  }

  /** A COMMIT commits every connection the transaction keeps and rolls none back; a ROLLBACK, and so
      Close, rolls back every one and commits none. */
  lemma EndsAsAsked(s: State, commit: bool, order: seq<string>, h: Handle)
    requires Lives(s, false) && IsOrder(order, s.txConns) && h < s.next
    ensures var s' := EndTx(s, commit, order);
            && !Kept(s', h) && h < s'.next
            && LifeOf(s'.trace, h) == if Kept(s, h) then Finished(commit) else LifeOf(s.trace, h)
  {
    EndAllLife(s.trace, commit, s.txConns, order, h);
    assert LifeFits(s, h, false);
    assert EndedBy(s.txConns, order, h) <==> Kept(s, h);
  }

  /** After Close, which rolls back, every connection the session ever took has been given back exactly
      once, if no getConn failed part-way, and every one its transaction kept has been rolled back;
      closing again does nothing. */
  lemma CloseSettles(s: State, order: seq<string>, again: seq<string>)
    requires Inv(s, true) && IsOrder(order, s.txConns)
    requires IsOrder(again, EndTx(s, false, order).txConns)
    ensures var closed := EndTx(s, false, order);
            && Settled(closed) && (forall h :: Kept(s, h) ==> LifeOf(closed.trace, h) == Finished(false))
            && EndTx(closed, false, again) == closed.(epoch := closed.epoch + 1)
  {
    var closed := EndTx(s, false, order);
    forall h: Handle | h < s.next
      ensures LifeOf(closed.trace, h) == Returned || LifeOf(closed.trace, h).Finished?
      ensures Kept(s, h) ==> LifeOf(closed.trace, h) == Finished(false)
    {
      CloseOne(s, order, h);
    }
    assert Ended(Ended(s.status)) == Ended(s.status);
  }

  lemma CloseOne(s: State, order: seq<string>, h: Handle)
    requires Lives(s, true) && IsOrder(order, s.txConns) && h < s.next
    ensures var l := LifeOf(EndTx(s, false, order).trace, h);
            (l == Returned || l.Finished?) && (Kept(s, h) ==> l == Finished(false))
  {
    assert forall g :: LifeFits(s, g, true) ==> LifeFits(s, g, false);
    EndsAsAsked(s, false, order, h);
    assert LifeFits(s, h, true);
  }

  /** Every connection taken has been given back, after its commit or rollback if it was begun. */
  ghost predicate Settled(s: State) {
    forall h: Handle :: h < s.next ==> LifeOf(s.trace, h) == Returned || LifeOf(s.trace, h).Finished?
  }

  /** Over whole runs: a connection that is kept when a COMMIT runs has been committed, once, after it and
      for good; one that is kept when a ROLLBACK runs has been rolled back. */
  lemma TransactionEnds(states: seq<State>, commands: seq<Command>, i: nat, j: nat, h: Handle)
    requires IsRun(states, commands) && i < j < |states| && Kept(states[i], h)
    requires commands[i].CCommit? || commands[i].CRollback?
    ensures LifeOf(states[j].trace, h) == Finished(commands[i].CCommit?)
  {
    RunKeepsInv(states, commands, i, false);
    assert h < states[i].next;
    EndsAsAsked(states[i], commands[i].CCommit?, commands[i].order, h);
    DoneForever(states, commands, i + 1, j, h);
  }

  /** A session that closes has given back every connection it took exactly when no getConn of its whole
      run failed part-way. */
  lemma SettledIff(states: seq<State>, commands: seq<Command>, order: seq<string>)
    requires IsRun(states, commands) && IsOrder(order, states[|commands|].txConns)
    ensures Settled(EndTx(states[|commands|], false, order)) <==> IsClean(states, commands)
  {
    var n := |commands|;
    if IsClean(states, commands) {
      RunKeepsInv(states, commands, n, true);
      CloseSettles(states[n], order, []);
    } else {
      var i :| 0 <= i < n && Loses(states[i], commands[i]);
      LostInRun(states, commands, i);
      RunKeepsInv(states, commands, n, false);
      DoneStays(states[n], CRollback(order), states[i].next);
    }
  }

  /** A connection lost on the way is still lost at the end of the run. */
  lemma LostInRun(states: seq<State>, commands: seq<Command>, i: nat)
    requires IsRun(states, commands) && i < |commands| && Loses(states[i], commands[i])
    ensures var last, h := states[|commands|], states[i].next;
            h < last.next && !Kept(last, h) && LifeOf(last.trace, h) == Taken
  {
    var h := states[i].next;
    RunKeepsInv(states, commands, i, false);
    assert LifeFits(states[i], h, false);
    LosesIff(states[i], commands[i].shard, commands[i].fate);
    RunKeepsInv(states, commands, i + 1, false);
    assert LifeFits(states[i + 1], h, false);
    DoneForever(states, commands, i + 1, |commands|, h);
  }

  /** The very first statement of a session can lose its connection. */
  lemma FirstStatementLoses()
    ensures LifeOf(Do(INITIAL, CStatement("s", SetupFails)).trace, 0) == Taken
  {
    LosesIff(INITIAL, "s", SetupFails);
  }

  // ---------------------------------------------------------------- the session object

  class Conn {
    var status: nat
    var txConns: map<string, Handle>
    var next: Handle
    ghost var trace: seq<Event>
    ghost var epoch: nat

    ghost function St(): State
      reads this
    {
      State(status, txConns, trace, next, epoch)
    }

    constructor ()
      ensures St() == INITIAL
    {
      status, txConns, next, trace, epoch := 2, map[], 0, [], 0;
    }

    method HandleBegin()
      modifies this
      ensures St() == Do(old(St()), CBegin)
    {
      status := Begun(status);
    }

    /** The first character of the value decides; turning autocommit on changes nothing. */
    method HandleSetAutoCommit(value: string) returns (ok: bool)
      requires value != ""
      modifies this
      ensures ok <==> value[0] == '0' || value[0] == '1'
      ensures St() == if ok then Do(old(St()), CSetAutoCommit(value[0] == '1')) else old(St())
    {
      if value[0] == '1' {
        return true;
      }
      if value[0] == '0' {
        status := NoAutoCommit(status);
        return true;
      }
      return false;
    }

    /** A new connection from the pool. */
    method Take() returns (co: Handle)
      modifies this
      ensures co == old(next)
      ensures St() == Emit(old(St()), Pop(co)).(next := co + 1)
    {
      co := next;
      next := next + 1;
      trace := trace + [Pop(co)];
    }

    method GetConn(shard: string, fate: Fate) returns (co: Option<Handle>)
      modifies this
      ensures (St(), co) == GetConnOf(old(St()), shard, fate)
    {
      var c: Handle;
      if !NeedBeginTx(status) {
        if fate.NoConn? {
          return None;
        }
        c := Take();
      } else if shard in txConns {
        c := txConns[shard];
      } else {
        if fate.NoConn? {
          return None;
        }
        c := Take();
        if fate.BeginFails? {
          return None;
        }
        trace := trace + [BeginTx(c)];
        txConns := txConns[shard := c];
      }
      if fate.SetupFails? {
        return None;
      }
      return Some(c);
    }

    /** Gives connections back, unless a transaction keeps them. */
    method CloseShardConns(conns: seq<Handle>)
      modifies this
      ensures trace == old(trace) + if NeedBeginTx(status) then [] else Pushes(conns)
      ensures status == old(status) && txConns == old(txConns) && next == old(next) && epoch == old(epoch)
    {
      if NeedBeginTx(status) {
        assert trace == trace + [];
        return;
      }
      ghost var before := trace;
      for i := 0 to |conns|
        invariant trace == before + Pushes(conns)[..i]
        invariant status == old(status) && txConns == old(txConns) && next == old(next) && epoch == old(epoch)
      {
        trace := trace + [Push(conns[i])];
      }
      assert Pushes(conns)[..|conns|] == Pushes(conns);
    }

    /** One statement on one shard. */
    method Execute(shard: string, fate: Fate) returns (ok: bool)
      modifies this
      ensures St() == Do(old(St()), CStatement(shard, fate))
      ensures ok <==> GetConnOf(old(St()), shard, fate).1.Some?
    {
      var co := GetConn(shard, fate);
      if co.None? {
        return false;
      }
      trace := trace + [Exec(co.value, shard, epoch, NeedBeginTx(status))];
      CloseShardConns([co.value]);
      return true;
    }

    /** commit and rollback: the status first, then every connection, then the map. */
    method EndTransaction(commit: bool) returns (ghost order: seq<string>)
      modifies this
      ensures IsOrder(order, old(txConns)) && St() == EndTx(old(St()), commit, order)
    {
      status := Ended(status);
      order := [];
      ghost var before := trace;
      var left := txConns.Keys;
      while left != {}
        invariant txConns == old(txConns) && next == old(next) && epoch == old(epoch) && status == Ended(old(status))
        invariant Walked(order, left, txConns)
        invariant trace == EndAll(before, commit, txConns, order)
        decreases |left|
      {
        var k :| k in left;
        trace := trace + [EndEvent(commit, txConns[k])] + [Push(txConns[k])];
        WalkOne(order, left, txConns, k);
        EndOneMore(before, commit, txConns, order, k);
        order, left := order + [k], left - {k};
      }
      txConns := map[];
      epoch := epoch + 1;
    }

    /** Close: rolls back, whatever the state. */
    method Close() returns (ghost order: seq<string>)
      modifies this
      ensures IsOrder(order, old(txConns)) && St() == Do(old(St()), CRollback(order))
    {
      order := EndTransaction(false);
    }
  }

  function Pushes(conns: seq<Handle>): (r: seq<Event>)
    ensures |r| == |conns| && forall i :: 0 <= i < |r| ==> r[i] == Push(conns[i])
  {
    seq(|conns|, (i: nat) requires i < |conns| => Push(conns[i]))
  }

  /** Some keys were walked, the others are left. */
  ghost predicate Walked(order: seq<string>, left: set<string>, txConns: map<string, Handle>) {
    && (forall i, j :: 0 <= i < j < |order| ==> order[i] != order[j])
    && (forall k :: k in txConns <==> k in order || k in left)
    && (forall k :: k in order ==> k !in left)
  }

  lemma WalkOne(order: seq<string>, left: set<string>, txConns: map<string, Handle>, k: string)
    requires Walked(order, left, txConns) && k in left
    ensures Walked(order + [k], left - {k}, txConns)
  {
    assert forall j :: j in order + [k] <==> j in order || j == k;
  }

  lemma EndOneMore(trace: seq<Event>, commit: bool, txConns: map<string, Handle>, order: seq<string>, k: string)
    requires k in txConns && forall j :: j in order ==> j in txConns
    ensures forall j :: j in order + [k] ==> j in txConns
    ensures EndAll(trace, commit, txConns, order + [k]) ==
            EndAll(trace, commit, txConns, order) + [EndEvent(commit, txConns[k])] + [Push(txConns[k])]
  {
    assert (order + [k])[..|order|] == order;
  }
}
