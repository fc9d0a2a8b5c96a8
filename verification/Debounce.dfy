/** The engine's trigger loop: events, ticks, a one-slot trigger channel and a debounce timer that is
    reset by every event (internal/reconcile/engine.go, Run). */
module Debounce {
  import opened Prelude

  /** A debounce timer: counting down, expired with its value not yet in the channel, and the channel.
      A stopped timer may still deliver a value that was already on its way. */
  datatype Timer = Timer(armed: bool, inFlight: bool, fired: bool)

  /** `timer` is None when debounceTimer is nil. `events` and `tick` are what the event and ticker
      channels hold; `trigger` is the one-slot trigger channel; `started` and `passes` count the passes
      begun and finished; `dirty` says that something arrived after the last pass began. */
  datatype State = State(trigger: bool, timer: Option<Timer>, events: nat, tick: bool, eventsOpen: bool,
                         inPass: bool, started: nat, passes: nat, stopped: bool, dirty: bool)

  const INIT := State(false, None, 0, false, false, true, 1, 0, false, false)

  datatype Action =
    // the surroundings
    | EventArrives
    | TickArrives
    | EventsClose
    | TimerExpires
    | TimerSends
    | Cancel
    // the loop
    | FirstPassEnds             // the startup pass ends and the loop puts a token in the trigger channel
    | PassEnds
    | TakeTrigger(late: bool)   // `late`: stopping the timer leaves a value on its way
    | TakeTimer
    | TakeTick(late: bool)
    | TakeEvent(late: bool)
    | SeesEventsClosed
    | SeesCancel

  /** The startup pass runs before the loop subscribes to events and starts its ticker. */
  predicate InFirstPass(s: State) {
    s.inPass && s.started == 1
  }

  predicate InSelect(s: State) {
    !s.inPass && !s.stopped
  }

  predicate Enabled(s: State, a: Action) {
    match a
    case EventArrives => s.eventsOpen
    case TickArrives => !InFirstPass(s)
    case EventsClose => s.eventsOpen
    case TimerExpires => s.timer.Some? && s.timer.value.armed
    case TimerSends => s.timer.Some? && s.timer.value.inFlight
    case Cancel => true
    case FirstPassEnds => InFirstPass(s)
    case PassEnds => s.inPass && s.started > 1
    case TakeTrigger(_) => InSelect(s) && s.trigger
    case TakeTimer => InSelect(s) && s.timer.Some? && s.timer.value.fired
    case TakeTick(_) => InSelect(s) && s.tick
    case TakeEvent(_) => InSelect(s) && s.events > 0
    case SeesEventsClosed => InSelect(s) && !s.eventsOpen && s.events == 0
    case SeesCancel => InSelect(s)
  }

  /** Stop, then drain the channel when the timer had already expired. A timer that had expired may or
      may not still be about to send. */
  function Stopped(t: Timer, late: bool): Timer {
    if t.armed then Timer(false, t.inFlight && late, t.fired)
    else Timer(false, t.inFlight && late, false)
  }

  /** scheduleDebounced. */
  function Schedule(s: State, debounce: bool, late: bool): State {
    if !debounce then s.(trigger := true)
    else match s.timer
      case None => s.(timer := Some(Timer(true, false, false)))
      case Some(t) => s.(timer := Some(Stopped(t, late).(armed := true)))
  }

  function BeginPass(s: State): State {
    s.(inPass := true, started := s.started + 1, dirty := false)
  }

  function Do(s: State, a: Action, debounce: bool): State
    requires Enabled(s, a)
  {
    match a
    case EventArrives => s.(events := s.events + 1, dirty := true)
    case TickArrives => s.(tick := true, dirty := true)
    case EventsClose => s.(eventsOpen := false)
    case TimerExpires => s.(timer := Some(s.timer.value.(armed := false, inFlight := true)))
    case TimerSends => s.(timer := Some(s.timer.value.(inFlight := false, fired := true)))
    case Cancel => s
    case FirstPassEnds => s.(inPass := false, passes := s.passes + 1, trigger := true, eventsOpen := true)
    case PassEnds => s.(inPass := false, passes := s.passes + 1)
    case TakeTrigger(late) => BeginPass(s.(trigger := false, timer := None))
    case TakeTimer => BeginPass(s.(timer := None))
    case TakeTick(late) => Schedule(s.(tick := false), debounce, late)
    case TakeEvent(late) => Schedule(s.(events := s.events - 1), debounce, late)
    case SeesEventsClosed => s
    case SeesCancel => s.(stopped := true, timer := None)
  }

  /** A timer that will make the loop run a pass: counting down, about to send, or fired. */
  predicate Live(t: Option<Timer>) {
    t.Some? && (t.value.armed || t.value.inFlight || t.value.fired)
  }

  /** A wake-up is on its way to the loop. */
  predicate WakeUpPending(s: State) {
    s.trigger || Live(s.timer) || s.events > 0 || s.tick
  }

  /** Whatever arrived after the last pass began is still pending; an existing timer is never dead; and
      the startup pass is always followed by another, which sees what changed before the subscription. */
  ghost predicate Inv(s: State) {
    && (s.started == 1 && !s.inPass && !s.stopped ==> s.trigger)
    && (s.dirty && !s.stopped ==> WakeUpPending(s))
    && (s.timer.Some? ==> Live(s.timer))
    && s.started == s.passes + (if s.inPass then 1 else 0)
    && s.started >= 1
  }

  lemma StepKeeps(s: State, a: Action, debounce: bool)
    requires Inv(s) && Enabled(s, a)
    ensures Inv(Do(s, a, debounce))
  {
    if a.TakeTick? || a.TakeEvent? {
      ScheduleKeeps(s, a, debounce);
    } else if a.TakeTrigger? || a.TakeTimer? || a.FirstPassEnds? || a.PassEnds? {
      PassKeeps(s, a, debounce);
    } else {
      OutsideKeeps(s, a, debounce);
    }
  }

  lemma ScheduleKeeps(s: State, a: Action, debounce: bool)
    requires Inv(s) && Enabled(s, a) && (a.TakeTick? || a.TakeEvent?)
    ensures Inv(Do(s, a, debounce))
  {
  }

  lemma PassKeeps(s: State, a: Action, debounce: bool)
    requires Inv(s) && Enabled(s, a) && (a.TakeTrigger? || a.TakeTimer? || a.FirstPassEnds? || a.PassEnds?)
    ensures Inv(Do(s, a, debounce))
  {
  }

  lemma OutsideKeeps(s: State, a: Action, debounce: bool)
    requires Inv(s) && Enabled(s, a)
    requires !a.TakeTick? && !a.TakeEvent? && !a.TakeTrigger? && !a.TakeTimer? && !a.FirstPassEnds? && !a.PassEnds?
    ensures Inv(Do(s, a, debounce))
  {
  }

  ghost predicate IsTrace(ss: seq<State>, acts: seq<Action>, debounce: bool) {
    && |ss| == |acts| + 1 && ss[0] == INIT
    && forall i | 0 <= i < |acts| :: Enabled(ss[i], acts[i]) && ss[i + 1] == Do(ss[i], acts[i], debounce)
  }

  /** The loop never loses a wake-up: in every reachable state of a running loop, if an event or tick
      arrived after the last pass began, a token, a live timer or the arrival itself is pending; and once
      the arrival has been taken from its channel, a token or a live timer is. */
  lemma {:induction false} NoLostWakeUp(ss: seq<State>, acts: seq<Action>, debounce: bool, i: nat)
    requires IsTrace(ss, acts, debounce) && i < |ss|
    ensures Inv(ss[i])
    ensures ss[i].started == 1 && !ss[i].inPass && !ss[i].stopped ==> ss[i].trigger
    ensures ss[i].dirty && !ss[i].stopped && ss[i].events == 0 && !ss[i].tick ==> ss[i].trigger || Live(ss[i].timer)
  {
    if i > 0 {
      NoLostWakeUp(ss, acts, debounce, i - 1);
      StepKeeps(ss[i - 1], acts[i - 1], debounce);
    }
  }

  /** Runs `acts` from s. */
  ghost predicate Leads(s: State, acts: seq<Action>, debounce: bool, t: State)
    decreases |acts|
  {
    if acts == [] then s == t
    else Enabled(s, acts[0]) && Leads(Do(s, acts[0], debounce), acts[1..], debounce, t)
  }

  /** A step the loop or its timer can take alone: nothing new arrives, nobody cancels. */
  predicate Internal(a: Action) {
    a.TimerExpires? || a.TimerSends? || a.TakeTrigger? || a.TakeTimer? || a.TakeTick? || a.TakeEvent?
  }

  /** And the wake-up can be delivered: from any state in the select with something pending, at most four
      steps of the loop and its timer alone begin the next pass, so the loop is never stuck with work. */
  lemma PendingBeginsPass(s: State, debounce: bool) returns (acts: seq<Action>, t: State)
    requires Inv(s) && InSelect(s) && WakeUpPending(s)
    ensures |acts| <= 4 && (forall a <- acts :: Internal(a)) && Leads(s, acts, debounce, t)
    ensures t.inPass && t.started == s.started + 1 && !t.dirty
  {
    if s.trigger {
      acts, t := TokenBeginsPass(s, debounce);
    } else if Live(s.timer) {
      acts, t := TimerBeginsPass(s, debounce);
    } else {
      var a := if s.tick then TakeTick(false) else TakeEvent(false);
      var s1 := Do(s, a, debounce);
      var rest;
      if debounce {
        rest, t := TimerBeginsPass(s1, debounce);
      } else {
        rest, t := TokenBeginsPass(s1, debounce);
      }
      acts := [a] + rest;
      assert acts[1..] == rest;
    }
  }

  lemma TokenBeginsPass(s: State, debounce: bool) returns (acts: seq<Action>, t: State)
    requires InSelect(s) && s.trigger
    ensures |acts| == 1 && (forall a <- acts :: Internal(a)) && Leads(s, acts, debounce, t)
    ensures t.inPass && t.started == s.started + 1 && !t.dirty
  {
    acts := [TakeTrigger(false)];
    t := Do(s, acts[0], debounce);
    assert Leads(t, [], debounce, t);
  }

  lemma TimerBeginsPass(s: State, debounce: bool) returns (acts: seq<Action>, t: State)
    requires InSelect(s) && Live(s.timer)
    ensures |acts| <= 3 && (forall a <- acts :: Internal(a)) && Leads(s, acts, debounce, t)
    ensures t.inPass && t.started == s.started + 1 && !t.dirty
  {
    var f := s.timer.value;
    if f.fired {
      acts := [TakeTimer];
      t := Do(s, TakeTimer, debounce);
      assert Leads(t, [], debounce, t);
    } else if f.inFlight {
      var s1 := Do(s, TimerSends, debounce);
      var rest := [TakeTimer];
      t := Do(s1, TakeTimer, debounce);
      assert Leads(t, [], debounce, t);
      assert Leads(s1, rest, debounce, t);
      acts := [TimerSends] + rest;
      assert acts[1..] == rest;
    } else {
      var s0 := Do(s, TimerExpires, debounce);
      var s1 := Do(s0, TimerSends, debounce);
      t := Do(s1, TakeTimer, debounce);
      assert Leads(t, [], debounce, t);
      assert Leads(s1, [TakeTimer], debounce, t);
      assert ([TimerSends] + [TakeTimer])[1..] == [TakeTimer];
      assert Leads(s0, [TimerSends] + [TakeTimer], debounce, t);
      acts := [TimerExpires] + ([TimerSends] + [TakeTimer]);
      assert acts[1..] == [TimerSends] + [TakeTimer];
    }
  }

  /** The ticker alone keeps the loop reconciling, whatever became of the event stream: in every reachable
      state of a running loop after the startup pass, one more tick leads to a new pass. */
  lemma TickBeginsPass(ss: seq<State>, acts: seq<Action>, debounce: bool) returns (rest: seq<Action>, t: State)
    requires IsTrace(ss, acts, debounce) && !ss[|acts|].stopped && !InFirstPass(ss[|acts|])
    ensures 0 < |rest| <= 6 && rest[0] == TickArrives && forall a <- rest[1..] :: Internal(a) || a == PassEnds
    ensures Leads(ss[|acts|], rest, debounce, t) && t.inPass && t.started == ss[|acts|].started + 1
  {
    var s := ss[|acts|];
    NoLostWakeUp(ss, acts, debounce, |acts|);
    StepKeeps(s, TickArrives, debounce);
    var s1 := Do(s, TickArrives, debounce);
    if s1.inPass {
      StepKeeps(s1, PassEnds, debounce);
      rest, t := PendingBeginsPass(Do(s1, PassEnds, debounce), debounce);
      assert ([PassEnds] + rest)[1..] == rest;
      rest := [PassEnds] + rest;
    } else {
      rest, t := PendingBeginsPass(s1, debounce);
    }
    assert ([TickArrives] + rest)[1..] == rest;
    rest := [TickArrives] + rest;
  }

  // ---------------------------------------------------------------- a debounced wake-up waits

  /** The loop takes an event or a tick. */
  predicate Arms(a: Action) {
    a.TakeTick? || a.TakeEvent?
  }

  predicate Begins(a: Action) {
    a.TakeTrigger? || a.TakeTimer?
  }

  lemma StepAt(ss: seq<State>, acts: seq<Action>, debounce: bool, i: nat, next: nat)
    requires IsTrace(ss, acts, debounce) && i < |acts| && next == i + 1
    ensures Enabled(ss[i], acts[i]) && ss[next] == Do(ss[i], acts[i], debounce)
  {
  }

  /** After the startup pass, passes begin only by taking the token or the timer. */
  lemma BeginsIff(ss: seq<State>, acts: seq<Action>, debounce: bool, i: nat)
    requires IsTrace(ss, acts, debounce) && i < |acts|
    ensures ss[i + 1].started == ss[i].started + if Begins(acts[i]) then 1 else 0
  {
    StepAt(ss, acts, debounce, i, i + 1);
  }

  /** Taking an event or a tick begins no pass. Debounced, it leaves the timer counting down afresh and
      requests nothing; not debounced, it requests a pass and starts no timer. */
  lemma ArmsAfresh(ss: seq<State>, acts: seq<Action>, debounce: bool, i: nat)
    requires IsTrace(ss, acts, debounce) && i < |acts| && Arms(acts[i])
    ensures ss[i + 1].started == ss[i].started && !ss[i + 1].inPass
    ensures debounce ==> ss[i + 1].timer.Some? && ss[i + 1].timer.value.armed && ss[i + 1].trigger == ss[i].trigger
    ensures !debounce ==> ss[i + 1].trigger && ss[i + 1].timer == ss[i].timer
  {
    StepAt(ss, acts, debounce, i, i + 1);
  }

  /** Once a debouncing loop has taken the startup token there is never another. */
  lemma {:induction false} NoMoreTokens(ss: seq<State>, acts: seq<Action>, i: nat, n: nat)
    requires IsTrace(ss, acts, true) && i < n <= |acts| && acts[i].TakeTrigger?
    ensures !ss[n].trigger && ss[n].started >= 2
  {
    var p := n - 1;
    StepAt(ss, acts, true, p, n);
    if i < p {
      NoMoreTokens(ss, acts, i, p);
    } else {
      NoLostWakeUp(ss, acts, true, p);
    }
  }

  /** Something asks for a pass at once: the end of the startup pass, or an arrival without debouncing. */
  predicate Requests(a: Action, debounce: bool) {
    a.FirstPassEnds? || (Arms(a) && !debounce)
  }

  predicate TokenSince(acts: seq<Action>, debounce: bool, i: nat, n: nat) {
    i < n <= |acts| && Requests(acts[i], debounce) && forall j | i < j < n :: !acts[j].TakeTrigger?
  }

  predicate TickSince(acts: seq<Action>, i: nat, n: nat) {
    i < n <= |acts| && acts[i].TickArrives? && forall j | i < j < n :: !acts[j].TakeTick?
  }

  /** The one-slot channels lose nothing: a token waits exactly when one was requested and not taken
      since, and a tick exactly when one came and was not taken since. */
  lemma {:induction false} SlotsKeep(ss: seq<State>, acts: seq<Action>, debounce: bool, n: nat)
    requires IsTrace(ss, acts, debounce) && n <= |acts|
    ensures ss[n].trigger <==> exists i: nat :: TokenSince(acts, debounce, i, n)
    ensures ss[n].tick <==> exists i: nat :: TickSince(acts, i, n)
  {
    if n > 0 {
      var p := n - 1;
      SlotsKeep(ss, acts, debounce, p);
      StepAt(ss, acts, debounce, p, n);
      SlotStep(ss[p], acts[p], debounce);
      TokenStep(acts, debounce, p, n);
      TickStep(acts, p, n);
    }
  }

  lemma SlotStep(s: State, a: Action, debounce: bool)
    requires Enabled(s, a)
    ensures Do(s, a, debounce).trigger <==> Requests(a, debounce) || (s.trigger && !a.TakeTrigger?)
    ensures Do(s, a, debounce).tick <==> a.TickArrives? || (s.tick && !a.TakeTick?)
  {
  }

  lemma TokenStep(acts: seq<Action>, debounce: bool, p: nat, n: nat)
    requires 0 < n <= |acts| && p == n - 1
    ensures (exists i: nat :: TokenSince(acts, debounce, i, n)) <==>
              Requests(acts[p], debounce) || ((exists i: nat :: TokenSince(acts, debounce, i, p)) && !acts[p].TakeTrigger?)
  {
    if Requests(acts[p], debounce) { assert TokenSince(acts, debounce, p, n); }
    if i: nat :| TokenSince(acts, debounce, i, p) {
      if !acts[p].TakeTrigger? { assert TokenSince(acts, debounce, i, n); }
    }
    if i: nat :| TokenSince(acts, debounce, i, n) {
      if i < p { assert TokenSince(acts, debounce, i, p); }
    }
  }

  lemma TickStep(acts: seq<Action>, p: nat, n: nat)
    requires 0 < n <= |acts| && p == n - 1
    ensures (exists i: nat :: TickSince(acts, i, n)) <==>
              acts[p].TickArrives? || ((exists i: nat :: TickSince(acts, i, p)) && !acts[p].TakeTick?)
  {
    if acts[p].TickArrives? { assert TickSince(acts, p, n); }
    if i: nat :| TickSince(acts, i, p) {
      if !acts[p].TakeTick? { assert TickSince(acts, i, n); }
    }
    if i: nat :| TickSince(acts, i, n) {
      if i < p { assert TickSince(acts, i, p); }
    }
  }

  predicate ArrivalSince(acts: seq<Action>, i: nat, n: nat) {
    i < n <= |acts| && (acts[i].EventArrives? || acts[i].TickArrives?) && forall j | i < j < n :: !Begins(acts[j])
  }

  /** `dirty` is what it says: something arrived and no pass has begun since. */
  lemma {:induction false} DirtyIff(ss: seq<State>, acts: seq<Action>, debounce: bool, n: nat)
    requires IsTrace(ss, acts, debounce) && n <= |acts|
    ensures ss[n].dirty <==> exists i: nat :: ArrivalSince(acts, i, n)
  {
    if n > 0 {
      var p := n - 1;
      DirtyIff(ss, acts, debounce, p);
      StepAt(ss, acts, debounce, p, n);
      DirtyStep(ss[p], acts[p], debounce);
      ArrivalStep(acts, p, n);
    }
  }

  lemma DirtyStep(s: State, a: Action, debounce: bool)
    requires Enabled(s, a)
    ensures Do(s, a, debounce).dirty <==> a.EventArrives? || a.TickArrives? || (s.dirty && !Begins(a))
  {
  }

  lemma ArrivalStep(acts: seq<Action>, p: nat, n: nat)
    requires 0 < n <= |acts| && p == n - 1
    ensures (exists i: nat :: ArrivalSince(acts, i, n)) <==>
              acts[p].EventArrives? || acts[p].TickArrives? || ((exists i: nat :: ArrivalSince(acts, i, p)) && !Begins(acts[p]))
  {
    if acts[p].EventArrives? || acts[p].TickArrives? { assert ArrivalSince(acts, p, n); }
    if i: nat :| ArrivalSince(acts, i, p) {
      if !Begins(acts[p]) { assert ArrivalSince(acts, i, n); }
    }
    if i: nat :| ArrivalSince(acts, i, n) {
      if i < p { assert ArrivalSince(acts, i, p); }
    }
  }

  /** A debouncing loop takes a token at most once. */
  lemma OneToken(ss: seq<State>, acts: seq<Action>, i: nat, j: nat)
    requires IsTrace(ss, acts, true) && i < |acts| && j < |acts| && acts[i].TakeTrigger? && acts[j].TakeTrigger?
    ensures i == j
  {
    StepAt(ss, acts, true, i, i + 1);
    StepAt(ss, acts, true, j, j + 1);
    if i < j { NoMoreTokens(ss, acts, i, j); }
    if j < i { NoMoreTokens(ss, acts, j, i); }
  }

  /** The stages of a wait that ends before the n-th action, with no pass begun since it started: the timer
      was armed at w, expired at x, sent at y. */
  ghost predicate ArmedBy(acts: seq<Action>, n: nat, w: nat) {
    w < n <= |acts| && Arms(acts[w]) && forall i | w <= i < n :: !Begins(acts[i])
  }

  ghost predicate ExpiredBy(acts: seq<Action>, n: nat, w: nat, x: nat) {
    ArmedBy(acts, n, w) && w < x < n && acts[x] == TimerExpires
  }

  ghost predicate SentBy(acts: seq<Action>, n: nat, w: nat, x: nat, y: nat) {
    ExpiredBy(acts, n, w, x) && x < y < n && acts[y] == TimerSends
  }

  /** A value of an earlier countdown is on its way, or already sent, when the timer is armed again. */
  predicate Stale(s: State, a: Action) {
    Arms(a) && s.timer.Some?
    && ((s.timer.value.inFlight && a.late) || (s.timer.value.armed && s.timer.value.fired))
  }

  /** How one step can change the timer: a begun pass removes it, only arming creates it, a value sets
      out only by expiry and arrives only by being sent. */
  ghost predicate TimerMoves(s: State, a: Action, s': State) {
    && (Begins(a) ==> s'.timer.None?)
    && (s'.timer.Some? && s.timer.None? ==> Arms(a) && !s'.timer.value.inFlight && !s'.timer.value.fired)
    && (s'.timer.Some? && s.timer.Some? ==>
          && (s'.timer.value.inFlight ==> s.timer.value.inFlight || a.TimerExpires?)
          && (s'.timer.value.fired ==> s.timer.value.fired || (a.TimerSends? && s.timer.value.inFlight)))
  }

  /** Right after arming, any value around is stale. */
  predicate OnlyStale(s: State, a: Action, s': State) {
    s'.timer.Some? && (s'.timer.value.inFlight || s'.timer.value.fired ==> Stale(s, a))
  }

  lemma StepMoves(s: State, a: Action, debounce: bool)
    requires Enabled(s, a)
    ensures TimerMoves(s, a, Do(s, a, debounce))
    ensures debounce && Arms(a) ==> OnlyStale(s, a, Do(s, a, debounce))
  {
    if Arms(a) { ArmMoves(s, a, debounce); }
  }

  lemma ArmMoves(s: State, a: Action, debounce: bool)
    requires Enabled(s, a) && Arms(a)
    ensures TimerMoves(s, a, Do(s, a, debounce))
    ensures debounce ==> OnlyStale(s, a, Do(s, a, debounce))
  {
  }

  /** What the timer's state says about the past. */
  ghost predicate History(s: State, acts: seq<Action>, n: nat) {
    s.timer.Some? ==>
      && (exists w :: ArmedBy(acts, n, w))
      && (s.timer.value.inFlight ==> exists w, x :: ExpiredBy(acts, n, w, x))
      && (s.timer.value.fired ==> exists w, x, y :: SentBy(acts, n, w, x, y))
  }

  lemma HistoryStep(s: State, s': State, acts: seq<Action>, n: nat, next: nat)
    requires n < |acts| && next == n + 1 && TimerMoves(s, acts[n], s') && History(s, acts, n)
    ensures History(s', acts, next)
  {
    var a := acts[n];
    if !Begins(a) && s'.timer.Some? {
      if s.timer.Some? { HistoryLasts(s, acts, n, next); }
      if Arms(a) { assert ArmedBy(acts, next, n); }
      if a.TimerExpires? && s.timer.Some? {
        var w :| ArmedBy(acts, n, w);
        assert ExpiredBy(acts, next, w, n);
      }
      if a.TimerSends? && s.timer.Some? && s.timer.value.inFlight {
        var w, x :| ExpiredBy(acts, n, w, x);
        assert SentBy(acts, next, w, x, n);
      }
    }
  }

  lemma HistoryLasts(s: State, acts: seq<Action>, n: nat, next: nat)
    requires n < |acts| && next == n + 1 && History(s, acts, n) && !Begins(acts[n])
    ensures History(s, acts, next)
  {
    if s.timer.Some? {
      var w :| ArmedBy(acts, n, w);
      assert ArmedBy(acts, next, w);
      if s.timer.value.inFlight {
        var w, x :| ExpiredBy(acts, n, w, x);
        assert ArmedBy(acts, next, w) && ExpiredBy(acts, next, w, x);
      }
      if s.timer.value.fired {
        var w, x, y :| SentBy(acts, n, w, x, y);
        assert ArmedBy(acts, next, w) && ExpiredBy(acts, next, w, x) && SentBy(acts, next, w, x, y);
      }
    }
  }

  lemma {:induction false} HistoryHolds(ss: seq<State>, acts: seq<Action>, debounce: bool, n: nat)
    requires IsTrace(ss, acts, debounce) && n <= |acts|
    ensures History(ss[n], acts, n)
  {
    if n > 0 {
      var p := n - 1;
      HistoryHolds(ss, acts, debounce, p);
      StepAt(ss, acts, debounce, p, n);
      StepMoves(ss[p], acts[p], debounce);
      HistoryStep(ss[p], ss[n], acts, p, n);
    }
  }

  /** A pass begun by the timer was waited for: since the pass before it, an event or a tick armed the
      timer, the timer ran out, and its value was sent, in this order. */
  lemma TimerWaits(ss: seq<State>, acts: seq<Action>, debounce: bool, i: nat) returns (w: nat, x: nat, y: nat)
    requires IsTrace(ss, acts, debounce) && i < |acts| && acts[i].TakeTimer?
    ensures SentBy(acts, i, w, x, y)
  {
    HistoryHolds(ss, acts, debounce, i);
    StepAt(ss, acts, debounce, i, i + 1);
    w, x, y :| SentBy(acts, i, w, x, y);
  }

  // ---------------------------------------------------------------- the latest arming counts

  /** Action a is the latest arming before the n-th action, with no pass begun since. */
  ghost predicate Latest(acts: seq<Action>, n: nat, a: nat) {
    ArmedBy(acts, n, a) && forall i | a < i < n :: !Arms(acts[i])
  }

  /** Since the latest arming a the timer ran out, or there was a stale value. */
  ghost predicate FreshOrStale(ss: seq<State>, acts: seq<Action>, n: nat, a: nat)
    requires |ss| == |acts| + 1 && Latest(acts, n, a)
  {
    Stale(ss[a], acts[a]) || exists x | a < x < n :: acts[x] == TimerExpires
  }

  ghost predicate SentOrStale(ss: seq<State>, acts: seq<Action>, n: nat, a: nat)
    requires |ss| == |acts| + 1 && Latest(acts, n, a)
  {
    Stale(ss[a], acts[a]) || exists x, y | a < x < y < n :: acts[x] == TimerExpires && acts[y] == TimerSends
  }

  ghost predicate Recent(ss: seq<State>, acts: seq<Action>, n: nat)
    requires |ss| == |acts| + 1 && n <= |acts|
  {
    ss[n].timer.Some? ==>
      exists a :: Latest(acts, n, a)
        && (ss[n].timer.value.inFlight ==> FreshOrStale(ss, acts, n, a))
        && (ss[n].timer.value.fired ==> SentOrStale(ss, acts, n, a))
  }

  lemma {:induction false} RecentHolds(ss: seq<State>, acts: seq<Action>, n: nat)
    requires IsTrace(ss, acts, true) && n <= |acts|
    ensures Recent(ss, acts, n)
  {
    if n > 0 {
      var p := n - 1;
      RecentHolds(ss, acts, p);
      StepAt(ss, acts, true, p, n);
      StepMoves(ss[p], acts[p], true);
      if ss[n].timer.Some? { RecentStep(ss, acts, p, n); }
    }
  }

  lemma RecentStep(ss: seq<State>, acts: seq<Action>, p: nat, n: nat)
    requires |ss| == |acts| + 1 && n <= |acts| && n > 0 && p == n - 1 && Recent(ss, acts, p)
    requires TimerMoves(ss[p], acts[p], ss[n]) && ss[n].timer.Some?
    requires Arms(acts[p]) ==> OnlyStale(ss[p], acts[p], ss[n])
    ensures Recent(ss, acts, n)
  {
    if Arms(acts[p]) {
      assert Latest(acts, n, p);
    } else {
      var a :| Latest(acts, p, a)
        && (ss[p].timer.value.inFlight ==> FreshOrStale(ss, acts, p, a))
        && (ss[p].timer.value.fired ==> SentOrStale(ss, acts, p, a));
      RecentLasts(ss, acts, p, n, a);
    }
  }

  lemma RecentLasts(ss: seq<State>, acts: seq<Action>, p: nat, n: nat, a: nat)
    requires |ss| == |acts| + 1 && n <= |acts| && n > 0 && p == n - 1 && Latest(acts, p, a)
    requires TimerMoves(ss[p], acts[p], ss[n]) && ss[p].timer.Some? && ss[n].timer.Some? && !Arms(acts[p])
    requires ss[p].timer.value.inFlight ==> FreshOrStale(ss, acts, p, a)
    requires ss[p].timer.value.fired ==> SentOrStale(ss, acts, p, a)
    ensures Latest(acts, n, a)
    ensures ss[n].timer.value.inFlight ==> FreshOrStale(ss, acts, n, a)
    ensures ss[n].timer.value.fired ==> SentOrStale(ss, acts, n, a)
  {
    assert a < p;
    if acts[p].TimerExpires? { assert acts[p] == TimerExpires; }
    if acts[p].TimerSends? { assert acts[p] == TimerSends; }
  }

  /** Debounced, the pass is begun by the countdown of the latest event or tick, unless a value of an
      earlier one was already on its way when that event or tick was taken. */
  lemma LatestWaits(ss: seq<State>, acts: seq<Action>, i: nat) returns (a: nat)
    requires IsTrace(ss, acts, true) && i < |acts| && acts[i].TakeTimer?
    ensures Latest(acts, i, a) && SentOrStale(ss, acts, i, a)
  {
    RecentHolds(ss, acts, i);
    StepAt(ss, acts, true, i, i + 1);
    a :| Latest(acts, i, a) && SentOrStale(ss, acts, i, a);
  }

  /** Stopping the timer leaves no value on its way, as Go guarantees from 1.23 on. */
  predicate Prompt(a: Action) {
    Arms(a) ==> !a.late
  }

  lemma {:induction false} OneAtATime(ss: seq<State>, acts: seq<Action>, n: nat)
    requires IsTrace(ss, acts, true) && n <= |acts| && forall i | 0 <= i < n :: Prompt(acts[i])
    ensures ss[n].timer.Some? ==> NoneWaits(ss[n].timer.value)
  {
    if n > 0 {
      var p := n - 1;
      OneAtATime(ss, acts, p);
      StepAt(ss, acts, true, p, n);
    }
  }

  predicate NoneWaits(t: Timer) {
    !(t.armed && (t.inFlight || t.fired)) && !(t.inFlight && t.fired)
  }

  /** With such timers the latest event or tick is waited for without exception. */
  lemma PromptWaits(ss: seq<State>, acts: seq<Action>, i: nat) returns (a: nat, x: nat, y: nat)
    requires IsTrace(ss, acts, true) && i < |acts| && acts[i].TakeTimer? && forall j | 0 <= j < i :: Prompt(acts[j])
    ensures Latest(acts, i, a) && a < x < y < i && acts[x] == TimerExpires && acts[y] == TimerSends
  {
    a := LatestWaits(ss, acts, i);
    OneAtATime(ss, acts, a);
    x, y :| a < x < y < i && acts[x] == TimerExpires && acts[y] == TimerSends;
  }

  lemma Extended(ss: seq<State>, acts: seq<Action>, a: Action) returns (ss': seq<State>, acts': seq<Action>)
    requires IsTrace(ss, acts, true) && Enabled(ss[|acts|], a)
    ensures IsTrace(ss', acts', true) && acts <= acts' && ss <= ss' && |acts'| == |acts| + 1
    ensures acts'[|acts|] == a && ss'[|acts'|] == Do(ss[|acts|], a, true)
  {
    ss', acts' := ss + [Do(ss[|acts|], a, true)], acts + [a];
  }

  lemma ThreeEvents() returns (ss: seq<State>, acts: seq<Action>)
    ensures IsTrace(ss, acts, true) && ss[|acts|] == State(false, None, 3, false, true, false, 2, 2, false, true)
  {
    ss, acts := [INIT], [];
    ss, acts := Extended(ss, acts, FirstPassEnds);
    ss, acts := Extended(ss, acts, TakeTrigger(false));
    ss, acts := Extended(ss, acts, PassEnds);
    ss, acts := Extended(ss, acts, EventArrives);
    ss, acts := Extended(ss, acts, EventArrives);
    ss, acts := Extended(ss, acts, EventArrives);
  }

  /** With older timers it is not: a pass begins right after an event, before any countdown is over. */
  lemma EarlyPass() returns (ss: seq<State>, acts: seq<Action>, n: nat)
    ensures IsTrace(ss, acts, true) && |acts| == n + 2 && acts[n].TakeEvent? && acts[n + 1].TakeTimer?
    ensures ss[n + 2].started == ss[n].started + 1
  {
    ss, acts := ThreeEvents();
    ss, acts := Extended(ss, acts, TakeEvent(false));
    ss, acts := Extended(ss, acts, TimerExpires);
    ss, acts := Extended(ss, acts, TakeEvent(true));
    ss, acts := Extended(ss, acts, TimerSends);
    n := |acts|;
    ss, acts := Extended(ss, acts, TakeEvent(false));
    ss, acts := Extended(ss, acts, TakeTimer);
  }

  /** Without debouncing there is never a timer. */
  lemma {:induction false} NoTimer(ss: seq<State>, acts: seq<Action>, n: nat)
    requires IsTrace(ss, acts, false) && n <= |acts|
    ensures ss[n].timer == None
  {
    if n > 0 {
      var p := n - 1;
      NoTimer(ss, acts, p);
      StepAt(ss, acts, false, p, n);
    }
  }

  /** Cancelling ends the loop, at the latest after the pass in hand, and nothing else ends it. */
  lemma CancelStops(ss: seq<State>, acts: seq<Action>, debounce: bool)
    requires IsTrace(ss, acts, debounce)
    ensures forall i | 0 <= i < |acts| :: ss[i + 1].stopped <==> ss[i].stopped || acts[i] == SeesCancel
    ensures InSelect(ss[|acts|]) ==> Enabled(ss[|acts|], SeesCancel)
    ensures ss[|acts|].inPass ==> Enabled(ss[|acts|], PassEnds) || Enabled(ss[|acts|], FirstPassEnds)
  {
    forall i | 0 <= i < |acts| ensures ss[i + 1].stopped <==> ss[i].stopped || acts[i] == SeesCancel {
      StepAt(ss, acts, debounce, i, i + 1);
    }
    NoLostWakeUp(ss, acts, debounce, |acts|);
  }

  /** Once the loop has returned it begins no further pass. */
  lemma {:induction false} StoppedForGood(ss: seq<State>, acts: seq<Action>, debounce: bool, i: nat, n: nat)
    requires IsTrace(ss, acts, debounce) && i <= n <= |acts| && ss[i].stopped && !ss[i].inPass
    ensures ss[n].stopped && !ss[n].inPass && ss[n].started == ss[i].started
  {
    if i < n {
      var p := n - 1;
      StoppedForGood(ss, acts, debounce, i, p);
      StepAt(ss, acts, debounce, p, n);
    }
  }
}
