/** Configuration reload against running sessions (proxy/server.go, dispatch and Run of proxy/conn.go).
    Commands run under the read lock and a reload under the write lock; a session that ends rolls back
    without any lock. */
module Reload {

  type Sid = nat

  /** The pools of one loaded configuration. */
  type Generation = nat

  datatype Pc =
    | Handshaking
    | Ready
    | InCommand
    | Ending(released: set<string>)
    | Gone

  /** A session: where it is, the pool generation of each connection its transaction keeps, and the
      generations of the connections its current command holds. */
  datatype Session = Session(pc: Pc, txConns: map<string, Generation>, held: set<Generation>)

  /** The read-write lock: its readers, or a reload with the sessions it has checked so far. */
  datatype Lock = Readers(sids: set<Sid>) | Writer(checked: set<Sid>)

  datatype State = State(gen: Generation, lock: Lock, sessions: map<Sid, Session>)

  datatype Action =
    | Accept(s: Sid)
    | Register(s: Sid)
    | StartCommand(s: Sid)
    | KeepConn(s: Sid, shard: string)
    | HoldConn(s: Sid)
    | UseKept(s: Sid, shard: string)
    | UseHeld(s: Sid, g: Generation)
    | EndTx(s: Sid)
    | FinishCommand(s: Sid)
    | Panic(s: Sid)
    | StopReading(s: Sid)
    | ReleaseOne(s: Sid, shard: string)
    | ForgetAll(s: Sid)
    | ReloadLocks
    | CheckOne(s: Sid)
    | ReloadRefused
    | ReloadSwaps

  /** Sessions onConn has put into the client map. */
  predicate Registered(x: Session) { !x.pc.Handshaking? }

  ghost predicate AllChecked(st: State) {
    st.lock.Writer? && forall s :: s in st.sessions && Registered(st.sessions[s]) ==> s in st.lock.checked
  }

  ghost predicate At(st: State, s: Sid, pc: Pc) { s in st.sessions && st.sessions[s].pc == pc }

  ghost predicate Enabled(st: State, a: Action) {
    match a
    case Accept(s) => s !in st.sessions
    case Register(s) => At(st, s, Handshaking) && st.lock == Readers({})
    case StartCommand(s) => At(st, s, Ready) && st.lock.Readers?
    case KeepConn(s, shard) => At(st, s, InCommand) && shard !in st.sessions[s].txConns
    case HoldConn(s) => At(st, s, InCommand)
    case UseKept(s, shard) => At(st, s, InCommand) && shard in st.sessions[s].txConns
    case UseHeld(s, g) => At(st, s, InCommand) && g in st.sessions[s].held
    case EndTx(s) => At(st, s, InCommand)
    case FinishCommand(s) => At(st, s, InCommand) && st.lock.Readers?
    case Panic(s) => At(st, s, InCommand) && st.lock.Readers?
    case StopReading(s) => At(st, s, Ready)
    case ReleaseOne(s, shard) =>
      s in st.sessions && st.sessions[s].pc.Ending? && shard in st.sessions[s].txConns &&
        shard !in st.sessions[s].pc.released
    case ForgetAll(s) =>
      s in st.sessions && st.sessions[s].pc.Ending? && st.sessions[s].pc.released == st.sessions[s].txConns.Keys
    case ReloadLocks => st.lock == Readers({})
    case CheckOne(s) =>
      st.lock.Writer? && s in st.sessions && Registered(st.sessions[s]) && st.sessions[s].txConns == map[]
    case ReloadRefused => st.lock.Writer?
    case ReloadSwaps => AllChecked(st)
  }

  function With(st: State, s: Sid, x: Session): State { st.(sessions := st.sessions[s := x]) }

  function Apply(st: State, a: Action): State
    requires Enabled(st, a)
  {
    match a
    case Accept(s) => With(st, s, Session(Handshaking, map[], {}))
    case Register(s) => With(st, s, st.sessions[s].(pc := Ready))
    case StartCommand(s) => With(st, s, st.sessions[s].(pc := InCommand)).(lock := Readers(st.lock.sids + {s}))
    case KeepConn(s, shard) =>
      With(st, s, st.sessions[s].(txConns := st.sessions[s].txConns[shard := st.gen]))
    case HoldConn(s) => With(st, s, st.sessions[s].(held := st.sessions[s].held + {st.gen}))
    case UseKept(s, shard) => st
    case UseHeld(s, g) => st
    case EndTx(s) => With(st, s, st.sessions[s].(txConns := map[]))
    case FinishCommand(s) =>
      With(st, s, st.sessions[s].(pc := Ready, held := {})).(lock := Readers(st.lock.sids - {s}))
    case Panic(s) =>
      With(st, s, st.sessions[s].(pc := Ending({}), held := {})).(lock := Readers(st.lock.sids - {s}))
    case StopReading(s) => With(st, s, st.sessions[s].(pc := Ending({})))
    case ReleaseOne(s, shard) => With(st, s, st.sessions[s].(pc := Ending(st.sessions[s].pc.released + {shard})))
    case ForgetAll(s) => With(st, s, st.sessions[s].(pc := Gone, txConns := map[]))
    case ReloadLocks => st.(lock := Writer({}))
    case CheckOne(s) => st.(lock := Writer(st.lock.checked + {s}))
    case ReloadRefused => st.(lock := Readers({}))
    case ReloadSwaps => st.(gen := st.gen + 1, lock := Readers({}))
  }

  // ---------------------------------------------------------------- what every interleaving keeps

  /** One session is consistent with the lock and with the current pools. */
  ghost predicate Fits(st: State, s: Sid, x: Session) {
    && (x.pc.InCommand? <==> st.lock.Readers? && s in st.lock.sids)
    && (x.pc.Handshaking? || x.pc.Gone? ==> x.txConns == map[])
    && (!x.pc.InCommand? ==> x.held == {})
    && (forall k :: k in x.txConns ==> x.txConns[k] == st.gen)
    && (forall g :: g in x.held ==> g == st.gen)
    && (st.lock.Writer? && s in st.lock.checked ==> x.txConns == map[])
  }

  ghost predicate Inv(st: State) {
    && (forall s :: s in st.sessions ==> Fits(st, s, st.sessions[s]))
    && (st.lock.Readers? ==> forall s :: s in st.lock.sids ==> s in st.sessions)
  }

  lemma StepFits(st: State, a: Action, s: Sid)
    requires Inv(st) && Enabled(st, a) && s in Apply(st, a).sessions
    ensures Fits(Apply(st, a), s, Apply(st, a).sessions[s])
  {
    var st' := Apply(st, a);
    if s in st.sessions {
      assert Fits(st, s, st.sessions[s]);
      if a.ReloadSwaps? {
        SwapFinds(st, s);
      }
    }
  }

  /** When a reload has passed its check no session keeps a connection of any shard. */
  lemma SwapFinds(st: State, s: Sid)
    requires Inv(st) && AllChecked(st) && s in st.sessions
    ensures st.sessions[s].txConns == map[] && st.sessions[s].held == {}
  {
    assert Fits(st, s, st.sessions[s]);
  }

  lemma StepKeepsInv(st: State, a: Action)
    requires Inv(st) && Enabled(st, a)
    ensures Inv(Apply(st, a))
  {
    var st' := Apply(st, a);
    forall s | s in st'.sessions
      ensures Fits(st', s, st'.sessions[s])
    {
      StepFits(st, a, s);
    }
  }

  ghost predicate IsRun(states: seq<State>, actions: seq<Action>) {
    && |states| == |actions| + 1 && states[0] == State(0, Readers({}), map[])
    && forall i :: 0 <= i < |actions| ==> Enabled(states[i], actions[i]) && states[i + 1] == Apply(states[i], actions[i])
  }

  lemma {:induction false} RunKeepsInv(states: seq<State>, actions: seq<Action>, i: nat)
    requires IsRun(states, actions) && i < |states|
    ensures Inv(states[i])
  {
    if i > 0 {
      RunKeepsInv(states, actions, i - 1);
      StepKeepsInv(states[i - 1], actions[i - 1]);
    }
  }

  /** The connections an action uses or gives back come from the current pools. */
  ghost predicate UsesCurrent(st: State, a: Action)
    requires Enabled(st, a)
  {
    && (a.UseKept? || a.ReleaseOne? ==> st.sessions[a.s].txConns[a.shard] == st.gen)
    && (a.UseHeld? ==> a.g == st.gen)
    && (a.EndTx? ==> forall k :: k in st.sessions[a.s].txConns ==> st.sessions[a.s].txConns[k] == st.gen)
    && (a.FinishCommand? ==> forall g :: g in st.sessions[a.s].held ==> g == st.gen)
  }

  /** In every interleaving of sessions and reloads no session ever uses a connection from a pool that a
      reload has closed, or gives one back to it, and a reload that goes through finds no session keeping a connection. */
  lemma NeverStale(states: seq<State>, actions: seq<Action>, i: nat)
    requires IsRun(states, actions) && i < |actions|
    ensures UsesCurrent(states[i], actions[i])
    ensures actions[i].ReloadSwaps? ==>
              forall s :: s in states[i].sessions ==>
                states[i].sessions[s].txConns == map[] && states[i].sessions[s].held == {}
  {
    RunKeepsInv(states, actions, i);
    var st, a := states[i], actions[i];
    if a.UseKept? || a.UseHeld? || a.ReleaseOne? || a.EndTx? || a.FinishCommand? {
      assert Fits(st, a.s, st.sessions[a.s]);
    }
    if a.ReloadSwaps? {
      forall s | s in st.sessions
        ensures st.sessions[s].txConns == map[] && st.sessions[s].held == {}
      {
        SwapFinds(st, s);
      }
    }
  }
}
