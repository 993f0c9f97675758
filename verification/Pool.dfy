/** The idle pool of backend connections (mysql/db.go): a list under a lock, and a counter updated
    atomically but outside the lock. */
module Pool {
  import opened Wrappers

  type Conn = nat

  const TWO32: int := 0x1_0000_0000

  /** A number kept in an int32. */
  function Wrap32(n: int): int { (n + 0x8000_0000) % TWO32 - 0x8000_0000 }

  lemma WrapStep(n: int, d: int)
    ensures Wrap32(Wrap32(n) + d) == Wrap32(n + d)
  {
    var a, r := n + 0x8000_0000, (n + 0x8000_0000) % TWO32;
    assert r + d == a + d - TWO32 * (a / TWO32);
    ModShift(a + d, a / TWO32);
  }

  lemma ModShift(x: int, k: int)
    ensures (x - TWO32 * k) % TWO32 == x % TWO32
  {
    var q, r := x / TWO32, x % TWO32;
    assert x - TWO32 * k == TWO32 * (q - k) + r;
    ModUnique(x - TWO32 * k, q - k, r);
  }

  lemma ModUnique(n: int, d: int, r: int)
    requires 0 <= r < TWO32 && n == TWO32 * d + r
    ensures n % TWO32 == r
  {
    var e := n / TWO32 - d;
    assert TWO32 * e == r - n % TWO32;
  }

  lemma WrapSmall(n: int)
    requires -0x8000_0000 <= n < 0x8000_0000
    ensures Wrap32(n) == n
  {
    ModUnique(n + 0x8000_0000, 0, n + 0x8000_0000);
  }

  // ---------------------------------------------------------------- interleaved calls

  /** The pool and the calls in progress, any number of them. A call is known by the connection in its
      hands: `connected` were just opened by PopConn and are not counted yet, `pushing` are on their way
      into the list, `dropping` were taken out for closing and are not counted off yet. `connecting`
      calls of PopConn found the list empty. `out` are the connections callers hold, and `next` is a
      connection never used before. */
  datatype State = State(
    idle: seq<Conn>,
    out: set<Conn>,
    connecting: nat,
    connected: set<Conn>,
    pushing: set<Conn>,
    dropping: set<Conn>,
    count: int,
    next: Conn)

  datatype Action =
    | PopLocked
    | ConnectFails
    | ConnectOk
    | Increment(co: Conn)
    | PushCall(co: Conn, failed: bool)
    | PushLocked(co: Conn)
    | Decrement(co: Conn)

  predicate Enabled(s: State, a: Action) {
    match a
    case PopLocked => true
    case ConnectFails => s.connecting > 0
    case ConnectOk => s.connecting > 0
    case Increment(co) => co in s.connected
    case PushCall(co, _) => co in s.out
    case PushLocked(co) => co in s.pushing
    case Decrement(co) => co in s.dropping
  }

  /** One atomic step: a section under the lock, an atomic add, or a decision of one call. */
  function Apply(s: State, a: Action, maxIdle: int): State
    requires Enabled(s, a)
  {
    match a
    case PopLocked =>
      if s.idle == [] then s.(connecting := s.connecting + 1)
      else s.(idle := s.idle[1..], out := s.out + {s.idle[0]})
    case ConnectFails => s.(connecting := s.connecting - 1)
    case ConnectOk => s.(connecting := s.connecting - 1, connected := s.connected + {s.next}, next := s.next + 1)
    case Increment(co) => s.(connected := s.connected - {co}, out := s.out + {co}, count := Wrap32(s.count + 1))
    case PushCall(co, failed) =>
      if failed || maxIdle <= 0 then s.(out := s.out - {co}, dropping := s.dropping + {co})
      else s.(out := s.out - {co}, pushing := s.pushing + {co})
    case PushLocked(co) =>
      if s.idle != [] && |s.idle| >= maxIdle then
        s.(pushing := s.pushing - {co}, dropping := s.dropping + {s.idle[0]}, idle := s.idle[1..] + [co])
      else s.(pushing := s.pushing - {co}, idle := s.idle + [co])
    case Decrement(co) => s.(dropping := s.dropping - {co}, count := Wrap32(s.count - 1))
  }

  ghost function Elems(idle: seq<Conn>): set<Conn> { set c | c in idle }

  ghost predicate NoRepeats(idle: seq<Conn>) { forall i, j :: 0 <= i < j < |idle| ==> idle[i] != idle[j] }

  ghost predicate AllBelow(cs: set<Conn>, n: Conn) { forall c :: c in cs ==> c < n }

  /** Every connection is in one place. */
  ghost predicate Apart(s: State) {
    && NoRepeats(s.idle)
    && Elems(s.idle) !! s.out !! s.connected !! s.pushing !! s.dropping
    && AllBelow(Elems(s.idle) + s.out + s.connected + s.pushing + s.dropping, s.next)
  }

  /** Connections a caller or a call in progress has checked out. */
  ghost function CheckedOut(s: State): set<Conn> { s.out + s.connected + s.pushing }

  /** Connections that are in the counter. */
  ghost function Total(s: State): int { |s.idle| + |s.out| + |s.pushing| + |s.dropping| }

  ghost predicate Counted(s: State) { s.count == Wrap32(Total(s)) }

  ghost predicate Bounded(s: State, maxIdle: int) {
    if maxIdle > 0 then |s.idle| <= maxIdle else s.idle == [] && s.pushing == {}
  }

  /** What every interleaving keeps. */
  ghost predicate Inv(s: State, maxIdle: int) { Apart(s) && Counted(s) && Bounded(s, maxIdle) }

  lemma TailElems(idle: seq<Conn>)
    requires idle != [] && NoRepeats(idle)
    ensures NoRepeats(idle[1..]) && Elems(idle[1..]) == Elems(idle) - {idle[0]}
  {
  }

  lemma AddElem(idle: seq<Conn>, co: Conn)
    requires NoRepeats(idle) && co !in idle
    ensures NoRepeats(idle + [co]) && Elems(idle + [co]) == Elems(idle) + {co}
  {
  }

  lemma StepApart(s: State, a: Action, maxIdle: int)
    requires Apart(s) && Enabled(s, a)
    ensures Apart(Apply(s, a, maxIdle))
  {
    if s.idle != [] { TailElems(s.idle); }
    if a.PushLocked? {
      AddElem(s.idle, a.co);
      if s.idle != [] { AddElem(s.idle[1..], a.co); }
    }
  }

  lemma OutSize(s: State)
    requires Apart(s)
    ensures |CheckedOut(s)| == |s.out| + |s.connected| + |s.pushing|
  {
  }

  /** The counter, plus the increments still to be made, less the decrements still to be made, is the
      number of connections, idle and checked out. */
  lemma CountIsRight(s: State)
    requires Apart(s) && Counted(s)
    ensures s.count == Wrap32(|s.idle| + |CheckedOut(s)| - |s.connected| + |s.dropping|)
  {
    OutSize(s);
  }

  function CountChange(a: Action): int { if a.Increment? then 1 else if a.Decrement? then -1 else 0 }

  /** The moved connection is not already where it goes. */
  ghost predicate Clear(s: State, a: Action) {
    match a
    case PopLocked => s.idle != [] ==> s.idle[0] !in s.out
    case Increment(co) => co !in s.out
    case PushCall(co, _) => co !in s.pushing && co !in s.dropping
    case PushLocked(_) => s.idle != [] ==> s.idle[0] !in s.dropping
    case _ => true
  }

  lemma ApartIsClear(s: State, a: Action)
    requires Apart(s) && Enabled(s, a)
    ensures Clear(s, a)
  {
    assert s.idle != [] ==> s.idle[0] in Elems(s.idle);
  }

  lemma Sizes(cs: set<Conn>, co: Conn)
    ensures co in cs ==> |cs - {co}| == |cs| - 1
    ensures co !in cs ==> |cs + {co}| == |cs| + 1
  {
  }

  lemma StepTotal(s: State, a: Action, maxIdle: int)
    requires Clear(s, a) && Enabled(s, a)
    ensures Total(Apply(s, a, maxIdle)) == Total(s) + CountChange(a)
  {
    match a
    case PopLocked => if s.idle != [] { Sizes(s.out, s.idle[0]); }
    case Increment(co) => Sizes(s.out, co);
    case PushCall(co, _) =>
      Sizes(s.out, co);
      Sizes(s.pushing, co);
      Sizes(s.dropping, co);
    case PushLocked(co) =>
      Sizes(s.pushing, co);
      if s.idle != [] { Sizes(s.dropping, s.idle[0]); }
    case Decrement(co) => Sizes(s.dropping, co);
    case _ =>
  }

  lemma CountStep(n: int, d: int, count: int)
    requires count == Wrap32(n)
    ensures Wrap32(count + d) == Wrap32(n + d)
  {
    WrapStep(n, d);
  }

  lemma StepCounted(s: State, a: Action, maxIdle: int)
    requires Clear(s, a) && Counted(s) && Enabled(s, a)
    ensures Counted(Apply(s, a, maxIdle))
  {
    StepTotal(s, a, maxIdle);
    CountStep(Total(s), CountChange(a), s.count);
  }

  lemma StepBounded(s: State, a: Action, maxIdle: int)
    requires Bounded(s, maxIdle) && Enabled(s, a)
    ensures Bounded(Apply(s, a, maxIdle), maxIdle)
  {
  }

  lemma StepKeepsInv(s: State, a: Action, maxIdle: int)
    requires Inv(s, maxIdle) && Enabled(s, a)
    ensures Inv(Apply(s, a, maxIdle), maxIdle)
  {
    StepApart(s, a, maxIdle);
    ApartIsClear(s, a);
    StepCounted(s, a, maxIdle);
    StepBounded(s, a, maxIdle);
  }

  /** The states after some steps, from a new pool. */
  ghost predicate IsRun(states: seq<State>, actions: seq<Action>, maxIdle: int) {
    && |states| == |actions| + 1
    && states[0] == State([], {}, 0, {}, {}, {}, 0, 0)
    && forall i :: 0 <= i < |actions| ==>
         Enabled(states[i], actions[i]) && states[i + 1] == Apply(states[i], actions[i], maxIdle)
  }

  lemma StartInv(maxIdle: int)
    ensures Inv(State([], {}, 0, {}, {}, {}, 0, 0), maxIdle)
  {
    WrapSmall(0);
  }

  lemma {:induction false} RunKeepsInv(states: seq<State>, actions: seq<Action>, maxIdle: int, i: nat)
    requires IsRun(states, actions, maxIdle) && i < |states|
    ensures Inv(states[i], maxIdle)
  {
    if i == 0 {
      StartInv(maxIdle);
    } else {
      RunKeepsInv(states, actions, maxIdle, i - 1);
      StepKeepsInv(states[i - 1], actions[i - 1], maxIdle);
    }
  }

  /** What the invariant says of one state. */
  ghost predicate Sound(s: State, maxIdle: int) {
    && s.count == Wrap32(|s.idle| + |CheckedOut(s)| - |s.connected| + |s.dropping|)
    && (maxIdle > 0 ==> |s.idle| <= maxIdle)
    && Elems(s.idle) !! CheckedOut(s)
    && |Elems(s.idle)| == |s.idle|
  }

  lemma InvIsSound(s: State, maxIdle: int)
    requires Inv(s, maxIdle)
    ensures Sound(s, maxIdle)
  {
    CountIsRight(s);
    ElemsSize(s.idle);
  }

  /** In every interleaving of PopConn and PushConn the pool keeps its bound, no connection is idle and
      checked out at once or idle twice, and the counter is right up to the updates still pending. */
  lemma RunIsSound(states: seq<State>, actions: seq<Action>, maxIdle: int, i: nat)
    requires IsRun(states, actions, maxIdle) && i < |states|
    ensures Sound(states[i], maxIdle)
  {
    RunKeepsInv(states, actions, maxIdle, i);
    InvIsSound(states[i], maxIdle);
  }

  lemma {:induction false} ElemsSize(idle: seq<Conn>)
    requires NoRepeats(idle)
    ensures |Elems(idle)| == |idle|
  {
    if idle != [] {
      TailElems(idle);
      ElemsSize(idle[1..]);
    }
  }

  /** With no call in progress and fewer than two to the 31 connections the counter is exact. */
  lemma QuietCount(s: State, maxIdle: int)
    requires Inv(s, maxIdle) && s.connected == {} && s.dropping == {} && |s.idle| + |CheckedOut(s)| < 0x8000_0000
    ensures s.count == |s.idle| + |CheckedOut(s)|
  {
    CountIsRight(s);
    WrapSmall(|s.idle| + |CheckedOut(s)|);
  }

  // ---------------------------------------------------------------- one caller at a time

  /** The steps of one PopConn, with no other call between them. */
  function PopSteps(s: State, dials: bool, maxIdle: int): State {
    var s1 := Apply(s, PopLocked, maxIdle);
    if s.idle != [] then s1
    else if dials then Apply(Apply(s1, ConnectOk, maxIdle), Increment(s.next), maxIdle)
    else Apply(s1, ConnectFails, maxIdle)
  }

  /** The steps of one PushConn. */
  function PushSteps(s: State, co: Conn, failed: bool, maxIdle: int): State
    requires co in s.out
  {
    var s1 := Apply(s, PushCall(co, failed), maxIdle);
    if failed || maxIdle <= 0 then Apply(s1, Decrement(co), maxIdle)
    else
      var s2 := Apply(s1, PushLocked(co), maxIdle);
      if s.idle != [] && |s.idle| >= maxIdle then Apply(s2, Decrement(s.idle[0]), maxIdle) else s2
  }

  /** No call is in progress. */
  predicate Quiet(s: State) { s.connecting == 0 && s.connected == {} && s.pushing == {} && s.dropping == {} }

  lemma PopQuiet(s: State, dials: bool, maxIdle: int)
    requires Inv(s, maxIdle) && Quiet(s)
    ensures Inv(PopSteps(s, dials, maxIdle), maxIdle) && Quiet(PopSteps(s, dials, maxIdle))
  {
    var s1 := Apply(s, PopLocked, maxIdle);
    StepKeepsInv(s, PopLocked, maxIdle);
    if s.idle == [] {
      if dials {
        StepKeepsInv(s1, ConnectOk, maxIdle);
        StepKeepsInv(Apply(s1, ConnectOk, maxIdle), Increment(s.next), maxIdle);
      } else {
        StepKeepsInv(s1, ConnectFails, maxIdle);
      }
    }
  }

  lemma PushQuiet(s: State, co: Conn, failed: bool, maxIdle: int)
    requires Inv(s, maxIdle) && Quiet(s) && co in s.out
    ensures Inv(PushSteps(s, co, failed, maxIdle), maxIdle) && Quiet(PushSteps(s, co, failed, maxIdle))
  {
    PushEndsQuiet(s, co, failed, maxIdle);
    PushKeepsInv(s, co, failed, maxIdle);
  }

  lemma PushEndsQuiet(s: State, co: Conn, failed: bool, maxIdle: int)
    requires Quiet(s) && co in s.out
    ensures Quiet(PushSteps(s, co, failed, maxIdle))
  {
  }

  lemma PushKeepsInv(s: State, co: Conn, failed: bool, maxIdle: int)
    requires Inv(s, maxIdle) && co in s.out
    ensures Inv(PushSteps(s, co, failed, maxIdle), maxIdle)
  {
    var s1 := Apply(s, PushCall(co, failed), maxIdle);
    StepKeepsInv(s, PushCall(co, failed), maxIdle);
    if failed || maxIdle <= 0 {
      StepKeepsInv(s1, Decrement(co), maxIdle);
    } else {
      var s2 := Apply(s1, PushLocked(co), maxIdle);
      StepKeepsInv(s1, PushLocked(co), maxIdle);
      if s.idle != [] && |s.idle| >= maxIdle { StepKeepsInv(s2, Decrement(s.idle[0]), maxIdle); }
    }
  }

  /** The list and the counter are those of a state. */
  predicate Shows(s: State, idle: seq<Conn>, count: int) { s.idle == idle && s.count == count }

  class DB {
    const maxIdleConns: int
    var idleConns: seq<Conn>
    var connCount: int

    constructor (maxIdleConns: int)
      ensures this.maxIdleConns == maxIdleConns && idleConns == [] && connCount == 0
    {
      this.maxIdleConns, idleConns, connCount := maxIdleConns, [], 0;
    }

    /** PopConn. `dialed` is what newConn gives, `None` when it fails. */
    method PopConn(dialed: Option<Conn>) returns (co: Option<Conn>)
      modifies this
      ensures if old(idleConns) != [] then co == Some(old(idleConns)[0]) else co == dialed
      ensures idleConns == if old(idleConns) != [] then old(idleConns)[1..] else []
      ensures connCount == if old(idleConns) == [] && dialed.Some? then Wrap32(old(connCount) + 1) else old(connCount)
      ensures forall s: State :: Shows(s, old(idleConns), old(connCount)) ==>
                Shows(PopSteps(s, dialed.Some?, maxIdleConns), idleConns, connCount)
    {
      co := None;
      if |idleConns| > 0 {
        co := Some(idleConns[0]);
        idleConns := idleConns[1..];
      }
      if co.Some? {
        return;
      }
      co := dialed;
      if co.Some? {
        connCount := Wrap32(connCount + 1);
      }
    }

    /** PushConn; the connection to be closed, if any. The newest connection stays, the oldest goes. */
    method PushConn(co: Conn, failed: bool) returns (closed: Option<Conn>)
      requires maxIdleConns > 0 ==> |idleConns| <= maxIdleConns
      modifies this
      ensures multiset(idleConns) + (if closed.Some? then multiset{closed.value} else multiset{}) ==
              multiset(old(idleConns)) + multiset{co}
      ensures maxIdleConns > 0 ==> |idleConns| <= maxIdleConns
      ensures closed == Some(co) <== failed || maxIdleConns <= 0
      ensures !failed && maxIdleConns > 0 ==>
                var full := |old(idleConns)| >= maxIdleConns;
                && idleConns == (if full then old(idleConns)[1..] else old(idleConns)) + [co]
                && closed == if full then Some(old(idleConns)[0]) else None
      ensures failed || maxIdleConns <= 0 ==> idleConns == old(idleConns)
      ensures connCount == if closed.Some? then Wrap32(old(connCount) - 1) else old(connCount)
      ensures forall s: State :: Shows(s, old(idleConns), old(connCount)) && co in s.out ==>
                Shows(PushSteps(s, co, failed, maxIdleConns), idleConns, connCount)
    {
      closed := None;
      if failed {
        closed := Some(co);
      } else if maxIdleConns > 0 {
        if |idleConns| >= maxIdleConns {
          closed := Some(idleConns[0]);
          assert idleConns == [idleConns[0]] + idleConns[1..];
          idleConns := idleConns[1..];
        }
        idleConns := idleConns + [co];
      } else {
        closed := Some(co);
      }
      if closed.Some? {
        connCount := Wrap32(connCount - 1);
      }
    }
  }

  /** A caller's handle on a pooled connection. */
  class SqlConn {
    const db: DB
    var conn: Option<Conn>

    constructor (db: DB, conn: Option<Conn>)
      ensures this.db == db && this.conn == conn
    {
      this.db, this.conn := db, conn;
    }

    /** Gives the connection back the first time, and does nothing any other time. */
    method Close(failed: bool)
      requires db.maxIdleConns > 0 ==> |db.idleConns| <= db.maxIdleConns
      modifies this, db
      ensures conn.None?
      ensures old(conn).None? ==> unchanged(db)
      ensures old(conn).Some? && !failed && db.maxIdleConns > 0 ==> old(conn).value in db.idleConns
      ensures db.maxIdleConns > 0 ==> |db.idleConns| <= db.maxIdleConns
    {
      if conn.Some? {
        var closed := db.PushConn(conn.value, failed);
        conn := None;
      }
    }
  }
}
