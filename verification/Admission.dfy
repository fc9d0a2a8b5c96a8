/** Connection admission: any number of accept loops sharing one counter (internal/proxy/manager.go). */
module Admission {
  import opened Prelude

  type Loop = nat  // an accept loop
  type Conn = nat  // an accepted connection

  /** `adding[l]` is the value loop l's atomic add returned, until the loop has acted on it; `handlers`
      are the connections whose goroutine has not given its slot back. */
  datatype State = State(conns: int, adding: map<Loop, (Conn, int)>, handlers: set<Conn>, seen: set<Conn>)

  const INIT := State(0, map[], {}, {})

  datatype Action =
    | Accept(l: Loop, c: Conn)      // Accept returns a connection; conns.Add(1)
    | Refuse(l: Loop)               // the returned value exceeds MaxConns: Add(-1), close
    | NoBackend(l: Loop)            // admitted, but the listener has no backend: Add(-1), close
    | Handle(l: Loop)               // admitted: start the handler
    | Done(c: Conn)                 // the handler's deferred Add(-1)

  predicate Admitted(s: State, l: Loop, max: nat) {
    l in s.adding && s.adding[l].1 <= max
  }

  predicate Enabled(s: State, a: Action, max: nat) {
    match a
    case Accept(l, c) => l !in s.adding && c !in s.seen
    case Refuse(l) => l in s.adding && s.adding[l].1 > max
    case NoBackend(l) => Admitted(s, l, max)
    case Handle(l) => Admitted(s, l, max)
    case Done(c) => c in s.handlers
  }

  function Do(s: State, a: Action, max: nat): State
    requires Enabled(s, a, max)
  {
    match a
    case Accept(l, c) => s.(conns := s.conns + 1, adding := s.adding[l := (c, s.conns + 1)], seen := s.seen + {c})
    case Refuse(l) => s.(conns := s.conns - 1, adding := s.adding - {l})
    case NoBackend(l) => s.(conns := s.conns - 1, adding := s.adding - {l})
    case Handle(l) => s.(adding := s.adding - {l}, handlers := s.handlers + {s.adding[l].0})
    case Done(c) => s.(conns := s.conns - 1, handlers := s.handlers - {c})
  }

  function AdmittedLoops(s: State, max: nat): set<Loop> {
    set l | l in s.adding && s.adding[l].1 <= max
  }

  /** The counter is what it says, and admissions never exceed the limit. */
  ghost predicate CountOk(s: State, max: nat) {
    && s.conns == |s.adding| + |s.handlers|
    && |AdmittedLoops(s, max)| + |s.handlers| <= max
  }

  /** Every connection is in one place. */
  ghost predicate ConnsOk(s: State) {
    && s.handlers <= s.seen
    && (forall l <- s.adding :: s.adding[l].0 in s.seen && s.adding[l].0 !in s.handlers)
    && (forall l <- s.adding, l' <- s.adding :: s.adding[l].0 == s.adding[l'].0 ==> l == l')
  }

  ghost predicate Inv(s: State, max: nat) {
    CountOk(s, max) && ConnsOk(s)
  }

  lemma Grown(m: map<Loop, (Conn, int)>, l: Loop, v: (Conn, int))
    requires l !in m
    ensures |m[l := v]| == |m| + 1
  {
    assert m[l := v].Keys == m.Keys + {l};
    assert |m[l := v]| == |m[l := v].Keys| && |m| == |m.Keys|;
  }

  lemma Shrunk(m: map<Loop, (Conn, int)>, l: Loop)
    requires l in m
    ensures |m - {l}| == |m| - 1
  {
    assert (m - {l}).Keys == m.Keys - {l};
    assert |m - {l}| == |(m - {l}).Keys| && |m| == |m.Keys|;
  }

  lemma AdmittedAtMost(s: State, max: nat)
    ensures |AdmittedLoops(s, max)| <= |s.adding|
  {
    assert s.adding.Keys == AdmittedLoops(s, max) + (s.adding.Keys - AdmittedLoops(s, max));
    assert |s.adding| == |s.adding.Keys|;
  }

  lemma AcceptCount(s: State, l: Loop, c: Conn, max: nat)
    requires CountOk(s, max) && Enabled(s, Accept(l, c), max)
    ensures CountOk(Do(s, Accept(l, c), max), max)
  {
    Grown(s.adding, l, (c, s.conns + 1));
    AdmittedAtMost(s, max);
    assert l !in AdmittedLoops(s, max);
    assert AdmittedLoops(Do(s, Accept(l, c), max), max)
        == AdmittedLoops(s, max) + if s.conns + 1 <= max then {l} else {};
  }

  lemma AcceptConns(s: State, l: Loop, c: Conn, max: nat)
    requires ConnsOk(s) && Enabled(s, Accept(l, c), max)
    ensures ConnsOk(Do(s, Accept(l, c), max))
  {
  }

  lemma AcceptKeeps(s: State, l: Loop, c: Conn, max: nat)
    requires Inv(s, max) && Enabled(s, Accept(l, c), max)
    ensures Inv(Do(s, Accept(l, c), max), max)
  {
    AcceptCount(s, l, c, max);
    AcceptConns(s, l, c, max);
  }

  lemma LeaveKeeps(s: State, a: Action, max: nat)
    requires Inv(s, max) && Enabled(s, a, max) && (a.Refuse? || a.NoBackend? || a.Handle?)
    ensures Inv(Do(s, a, max), max)
  {
    var s' := Do(s, a, max);
    Shrunk(s.adding, a.l);
    assert AdmittedLoops(s', max) == AdmittedLoops(s, max) - {a.l};
  }

  lemma StepKeeps(s: State, a: Action, max: nat)
    requires Inv(s, max) && Enabled(s, a, max)
    ensures Inv(Do(s, a, max), max)
  {
    match a
    case Accept(l, c) => AcceptKeeps(s, l, c, max);
    case Done(_) =>
      assert AdmittedLoops(Do(s, a, max), max) == AdmittedLoops(s, max);
    case _ => LeaveKeeps(s, a, max);
  }

  ghost predicate IsTrace(ss: seq<State>, acts: seq<Action>, max: nat) {
    && |ss| == |acts| + 1 && ss[0] == INIT
    && forall i | 0 <= i < |acts| :: Enabled(ss[i], acts[i], max) && ss[i + 1] == Do(ss[i], acts[i], max)
  }

  /** In every interleaving of any number of accept loops and handlers: at most MaxConns connections are
      handled, the counter is the handled plus those being looked at, and it is 0 when none is left. */
  lemma {:induction false} TraceInvariant(ss: seq<State>, acts: seq<Action>, max: nat, i: nat)
    requires IsTrace(ss, acts, max) && i < |ss|
    ensures Inv(ss[i], max)
    ensures |ss[i].handlers| <= max
    ensures ss[i].conns == 0 <==> ss[i].adding == map[] && ss[i].handlers == {}
  {
    if i > 0 {
      TraceInvariant(ss, acts, max, i - 1);
      StepKeeps(ss[i - 1], acts[i - 1], max);
    }
  }

  /** A connection is refused exactly when, at its accept, handled connections and connections being
      looked at together had reached the limit. */
  lemma RefusedIff(ss: seq<State>, acts: seq<Action>, max: nat, i: nat)
    requires IsTrace(ss, acts, max) && i < |acts| && acts[i].Accept?
    ensures !Admitted(ss[i + 1], acts[i].l, max) <==> |ss[i].handlers| + |ss[i].adding| >= max
  {
    TraceInvariant(ss, acts, max, i);
    assert Enabled(ss[i], acts[i], max) && ss[i + 1] == Do(ss[i], acts[i], max);
  }

  /** The loop keeps what its add returned until it acts on it. */
  lemma {:induction false} Waiting(ss: seq<State>, acts: seq<Action>, max: nat, i: nat, j: nat)
    requires IsTrace(ss, acts, max) && i < j <= |acts| && acts[i].Accept?
    requires forall x | i < x < j :: !Acts(acts[x], acts[i].l)
    ensures acts[i].l in ss[j].adding && ss[j].adding[acts[i].l] == ss[i + 1].adding[acts[i].l]
  {
    var p := j - 1;
    assert Enabled(ss[p], acts[p], max) && ss[j] == Do(ss[p], acts[p], max);
    if i < p { Waiting(ss, acts, max, i, p); }
  }

  /** Loop l acts on the connection it has accepted. */
  predicate Acts(a: Action, l: Loop) {
    (a.Refuse? || a.NoBackend? || a.Handle?) && a.l == l
  }

  /** When a loop acts on a connection, it closes it for want of a slot exactly when, at the accept,
      handled connections and connections being looked at together had reached the limit. */
  lemma RefuseIff(ss: seq<State>, acts: seq<Action>, max: nat, i: nat, j: nat)
    requires IsTrace(ss, acts, max) && i < j < |acts| && acts[i].Accept? && Acts(acts[j], acts[i].l)
    requires forall x | i < x < j :: !Acts(acts[x], acts[i].l)
    ensures acts[j].Refuse? <==> |ss[i].handlers| + |ss[i].adding| >= max
    ensures acts[j].Handle? ==> ss[j + 1].handlers == ss[j].handlers + {acts[i].c}
    ensures !acts[j].Handle? ==> ss[j + 1].handlers == ss[j].handlers && ss[j + 1].conns == ss[j].conns - 1
  {
    Waiting(ss, acts, max, i, j);
    RefusedIff(ss, acts, max, i);
    assert Enabled(ss[i], acts[i], max) && ss[i + 1] == Do(ss[i], acts[i], max);
    assert Enabled(ss[j], acts[j], max) && ss[j + 1] == Do(ss[j], acts[j], max);
  }

  /** Until it acts, the loop can refuse the connection if that was so at the accept, and hand it over or
      find no backend if not. */
  lemma CanAct(ss: seq<State>, acts: seq<Action>, max: nat, i: nat, n: nat, a: Action)
    requires IsTrace(ss, acts, max) && i < n <= |acts| && acts[i].Accept? && Acts(a, acts[i].l)
    requires forall x | i < x < n :: !Acts(acts[x], acts[i].l)
    ensures Enabled(ss[n], a, max) <==> (a.Refuse? <==> |ss[i].handlers| + |ss[i].adding| >= max)
  {
    Waiting(ss, acts, max, i, n);
    RefusedIff(ss, acts, max, i);
    assert Enabled(ss[i], acts[i], max) && ss[i + 1] == Do(ss[i], acts[i], max);
  }

  lemma Extend(ss: seq<State>, acts: seq<Action>, max: nat, a: Action)
    requires IsTrace(ss, acts, max) && Enabled(ss[|acts|], a, max)
    ensures IsTrace(ss + [Do(ss[|acts|], a, max)], acts + [a], max)
  {
  }

  /** No slot is ever lost: every trace can go on, without a further accept, until the counter is 0. */
  lemma {:induction false} ComesToRest(ss: seq<State>, acts: seq<Action>, max: nat)
    returns (ss': seq<State>, acts': seq<Action>)
    requires IsTrace(ss, acts, max)
    ensures IsTrace(ss', acts', max) && acts <= acts' && ss'[|acts'|].conns == 0
    ensures forall i | |acts| <= i < |acts'| :: !acts'[i].Accept?
    decreases ss[|acts|].adding.Keys, ss[|acts|].handlers
  {
    var s := ss[|acts|];
    TraceInvariant(ss, acts, max, |acts|);
    if s.conns == 0 { return ss, acts; }
    var a: Action;
    if l :| l in s.adding {
      a := if Admitted(s, l, max) then NoBackend(l) else Refuse(l);
      assert Do(s, a, max).adding.Keys == s.adding.Keys - {l};
    } else {
      assert s.adding == map[];
      var c :| c in s.handlers;
      a := Done(c);
    }
    Extend(ss, acts, max, a);
    ss', acts' := ComesToRest(ss + [Do(s, a, max)], acts + [a], max);
  }

  /** So a refusal does not mean that MaxConns connections are being handled: with a limit of one, two
      loops accepting at once refuse a connection while none is handled. */
  lemma RefusedWhileIdle() returns (ss: seq<State>, acts: seq<Action>)
    ensures IsTrace(ss, acts, 1) && |acts| == 2 && acts[1].Accept?
    ensures !Admitted(ss[2], acts[1].l, 1) && ss[2].handlers == {}
  {
    acts := [Accept(0, 0), Accept(1, 1)];
    var s1 := Do(INIT, acts[0], 1);
    var s2 := Do(s1, acts[1], 1);
    ss := [INIT, s1, s2];
  }
}
