/** The UDP session relay: one reader, one sweeper and one pump per session around a locked map, with
    resolving and dialling outside the lock (internal/relay/udp.go). */
module UdpRelay {
  import opened Prelude

  type Client = nat  // a client address
  type Sock = nat    // an upstream socket; every dial yields a new one

  datatype Config = Config(maxSessions: nat, idle: int)

  // ---------------------------------------------------------------- the locked table

  /** What the mutex protects, plus the sockets: sessions by client, last activity by session (a session
      is known by its socket), open sockets, and the published count. */
  datatype Table = Table(sessions: map<Client, Sock>, last: map<Sock, int>, open: set<Sock>, count: nat)

  function Closed(t: Table, gone: set<Client>): Table {
    var left := t.sessions - gone;
    Table(left, t.last, t.open - (set c | c in t.sessions && c in gone :: t.sessions[c]), |left|)
  }

  function LastOf(t: Table, s: Sock): int {
    if s in t.last then t.last[s] else 0
  }

  function IdleClients(t: Table, now: int, idle: int): set<Client> {
    set c | c in t.sessions && now - LastOf(t, t.sessions[c]) > idle
  }

  function Swept(t: Table, now: int, idle: int): Table {
    Closed(t, IdleClients(t, now, idle))
  }

  function Emptied(t: Table): Table {
    Closed(t, t.sessions.Keys)
  }

  function Touched(t: Table, s: Sock, now: int): Table {
    t.(last := t.last[s := now])
  }

  function Inserted(t: Table, c: Client, s: Sock, now: int): Table {
    var more := t.sessions[c := s];
    t.(sessions := more, last := t.last[s := now], count := |more|)
  }

  predicate Maps(t: Table, c: Client, s: Sock) {
    c in t.sessions && t.sessions[c] == s
  }

  /** After a failed write: close and forget the session if it is still the client's. */
  function Dropped(t: Table, c: Client, s: Sock): Table {
    if Maps(t, c, s) then Closed(t, {c}) else t
  }

  /** A leaving pump forgets its session if it is still the client's, and closes its socket later. */
  function Unmapped(t: Table, c: Client, s: Sock): Table {
    if Maps(t, c, s) then t.(sessions := t.sessions - {c}, count := |t.sessions - {c}|) else t
  }

  /** The critical sections that walk the map, as the program writes them. */
  class Sessions {
    var table: Table

    constructor ()
      ensures table == Table(map[], map[], {}, 0)
    {
      table := Table(map[], map[], {}, 0);
    }

    /** One sweep: every session is looked at once, in whatever order the map yields them. */
    method Sweep(now: int, idle: int)
      modifies this
      ensures table == Swept(old(table), now, idle)
    {
      var todo := table.sessions.Keys;
      ghost var t0 := table;
      ghost var seen: set<Client> := {};
      SweptNone(t0, now, idle);
      while todo != {}
        invariant seen + todo == t0.sessions.Keys && seen !! todo
        invariant SweptSoFar(t0, table, seen, now, idle)
        decreases todo
      {
        var c :| c in todo;
        SweptNext(t0, table, seen, now, idle, c);
        var s := table.sessions[c];
        if now - LastOf(table, s) > idle {
          table := WithoutSession(table, c, s);
        }
        MoveOne(seen, todo, c);
        seen, todo := seen + {c}, todo - {c};
      }
      SweptAll(t0, table, seen, now, idle);
      table := table.(count := |table.sessions|);
    }

    method CloseAll()
      modifies this
      ensures table == Emptied(old(table))
    {
      var todo := table.sessions.Keys;
      ghost var t0 := table;
      while todo != {}
        invariant todo <= t0.sessions.Keys
        invariant table.(count := 0) == Closed(t0, t0.sessions.Keys - todo).(count := 0)
        decreases todo
      {
        var c :| c in todo;
        var s := table.sessions[c];
        ClosedOneMore(t0, t0.sessions.Keys - todo, c);
        assert t0.sessions.Keys - (todo - {c}) == (t0.sessions.Keys - todo) + {c};
        table := WithoutSession(table, c, s);
        todo := todo - {c};
      }
      assert t0.sessions.Keys - {} == t0.sessions.Keys;
      table := table.(count := 0);
    }
  }

  /** The session's socket is closed and the session deleted. */
  function WithoutSession(t: Table, c: Client, s: Sock): Table {
    t.(open := t.open - {s}, sessions := t.sessions - {c})
  }

  /** The idle sessions among those seen have been closed; the count is published at the end. */
  ghost predicate SweptSoFar(t0: Table, t: Table, seen: set<Client>, now: int, idle: int) {
    t.(count := 0) == Closed(t0, IdleClients(t0, now, idle) * seen).(count := 0)
  }

  lemma SweptNone(t0: Table, now: int, idle: int)
    ensures SweptSoFar(t0, t0, {}, now, idle)
  {
    assert IdleClients(t0, now, idle) * {} == {};
    assert Closed(t0, {}).sessions == t0.sessions && Closed(t0, {}).open == t0.open;
  }

  lemma SweptAll(t0: Table, t: Table, seen: set<Client>, now: int, idle: int)
    requires SweptSoFar(t0, t, seen, now, idle) && t0.sessions.Keys <= seen
    ensures t.(count := |t.sessions|) == Swept(t0, now, idle)
  {
    assert IdleClients(t0, now, idle) * seen == IdleClients(t0, now, idle);
  }

  lemma SweptNext(t0: Table, t: Table, seen: set<Client>, now: int, idle: int, c: Client)
    requires SweptSoFar(t0, t, seen, now, idle) && c in t0.sessions && c !in seen
    ensures c in t.sessions && t.sessions[c] == t0.sessions[c]
    ensures now - LastOf(t, t0.sessions[c]) <= idle ==> SweptSoFar(t0, t, seen + {c}, now, idle)
    ensures now - LastOf(t, t0.sessions[c]) > idle ==>
              SweptSoFar(t0, WithoutSession(t, c, t0.sessions[c]), seen + {c}, now, idle)
  {
    var s, gone := t0.sessions[c], IdleClients(t0, now, idle) * seen;
    assert LastOf(t, s) == LastOf(t0, s);
    if now - LastOf(t, s) > idle {
      assert IdleClients(t0, now, idle) * (seen + {c}) == gone + {c};
      ClosedOneMore(t0, gone, c);
    } else {
      assert IdleClients(t0, now, idle) * (seen + {c}) == gone;
    }
  }

  lemma ClosedOneMore(t: Table, gone: set<Client>, c: Client)
    requires c in t.sessions && c !in gone
    ensures Closed(t, gone + {c}).open == Closed(t, gone).open - {t.sessions[c]}
    ensures Closed(t, gone + {c}).sessions == Closed(t, gone).sessions - {c}
  {
  }

  // ---------------------------------------------------------------- the goroutines

  datatype Reader =
    | Reading                                      // in ReadFromUDP
    | Got(id: nat, c: Client)                      // a datagram, before the first critical section
    | NeedsNew(id: nat, c: Client)                 // resolving and dialling, outside the lock
    | Dialled(id: nat, c: Client, s: Sock)         // before the second critical section
    | OverCap(s: Sock)                             // refused by the second capacity check, not yet closed
    | Writing(id: nat, c: Client, s: Sock)         // about to write to the upstream socket
    | WriteFailed(c: Client, s: Sock)              // before the cleanup critical section
    | Draining                                     // waiting, at most the shutdown timeout, for the pumps
    | StoppingSweeper
    | FinalClose                                   // before the deferred closeAll
    | Returned

  datatype Pump =
    | Waiting              // in Read
    | Received             // before the critical section that notes the activity
    | Noted                // about to write to the client
    | Replied              // looking at the session's context
    | Leaving              // before the deferred critical section
    | Closing              // after it, socket not yet closed
    | Finished

  /** `owner` says for which client a socket was dialled; `caddr` is the client address a session's pump
      was started with; `from`, `writes` and `replies` record datagrams
      received (by number), datagrams written upstream, and datagrams sent to clients. */
  datatype State = State(table: Table, owner: map<Sock, Client>, reader: Reader, sweeping: bool,
                         pumps: map<Sock, Pump>, caddr: map<Sock, Client>, stopped: bool, from: seq<Client>,
                         writes: seq<(nat, Sock)>, replies: seq<(Sock, Client)>)

  const INIT := State(Table(map[], map[], {}, 0), map[], Reading, true, map[], map[], false, [], [], [])

  datatype ReaderAct =
    | Receive(c: Client)
    | ReadError
    | Lookup(now: int)
    | DialFails                // resolve or dial reports an error
    | Dial(s: Sock)
    | Insert(now: int)
    | CloseRefused
    | WriteUp(ok: bool)
    | CleanUp
    | DrainDone                // all pumps are done, or the shutdown timeout has passed
    | SweeperStopped
    | CloseFinally

  datatype PumpAct = Read(ok: bool) | Note(now: int) | Reply(ok: bool) | Check(cancelled: bool) | Unmap | Close

  datatype Action =
    | CancelContext
    | SweepTick(now: int)
    | SweeperSeesStop
    | ReaderDoes(r: ReaderAct)
    | PumpDoes(s: Sock, p: PumpAct)

  predicate ReaderCan(s: State, r: ReaderAct) {
    match r
    case Receive(_) => s.reader.Reading?
    case ReadError => s.reader.Reading?
    case Lookup(_) => s.reader.Got?
    case DialFails => s.reader.NeedsNew?
    case Dial(k) => s.reader.NeedsNew? && k !in s.owner
    case Insert(_) => s.reader.Dialled?
    case CloseRefused => s.reader.OverCap?
    case WriteUp(ok) => s.reader.Writing? && (ok ==> s.reader.s in s.table.open)
    case CleanUp => s.reader.WriteFailed?
    case DrainDone => s.reader.Draining?
    case SweeperStopped => s.reader.StoppingSweeper? && !s.sweeping
    case CloseFinally => s.reader.FinalClose?
  }

  predicate PumpCan(s: State, k: Sock, p: PumpAct) {
    k in s.pumps && k in s.caddr &&
    match p
    case Read(ok) => s.pumps[k].Waiting? && (ok ==> k in s.table.open)
    case Note(_) => s.pumps[k].Received?
    case Reply(_) => s.pumps[k].Noted?
    case Check(_) => s.pumps[k].Replied?
    case Unmap => s.pumps[k].Leaving?
    case Close => s.pumps[k].Closing?
  }

  predicate Enabled(s: State, a: Action) {
    match a
    case CancelContext => true
    case SweepTick(_) => s.sweeping
    case SweeperSeesStop => s.sweeping && (s.stopped || s.reader.StoppingSweeper?)
    case ReaderDoes(r) => ReaderCan(s, r)
    case PumpDoes(k, p) => PumpCan(s, k, p)
  }

  /** First critical section: reuse, refuse, or go and dial. */
  function AfterLookup(s: State, now: int, cfg: Config): State
    requires s.reader.Got?
  {
    var c, t := s.reader.c, s.table;
    if c in t.sessions then
      s.(table := Touched(t, t.sessions[c], now), reader := Writing(s.reader.id, c, t.sessions[c]))
    else if |t.sessions| >= cfg.maxSessions then s.(reader := Reading)
    else s.(reader := NeedsNew(s.reader.id, c))
  }

  /** Second critical section: another session won the race, the table is full, or insert. */
  function AfterInsert(s: State, now: int, cfg: Config): State
    requires s.reader.Dialled?
  {
    var c, k, t := s.reader.c, s.reader.s, s.table;
    if c in t.sessions then
      s.(table := Touched(t.(open := t.open - {k}), t.sessions[c], now),
         reader := Writing(s.reader.id, c, t.sessions[c]))
    else if |t.sessions| >= cfg.maxSessions then s.(reader := OverCap(k))
    else s.(table := Inserted(t, c, k, now), pumps := s.pumps[k := Waiting], caddr := s.caddr[k := c],
            reader := Writing(s.reader.id, c, k))
  }

  function ReaderNext(s: State, r: ReaderAct, cfg: Config): State
    requires ReaderCan(s, r)
  {
    var t := s.table;
    match r
    case Receive(c) => s.(from := s.from + [c], reader := Got(|s.from|, c))
    case ReadError => if s.stopped then s.(table := Emptied(t), reader := Draining) else s.(reader := Draining)
    case Lookup(now) => AfterLookup(s, now, cfg)
    case DialFails => s.(reader := Reading)
    case Dial(k) =>
      s.(table := t.(open := t.open + {k}), owner := s.owner[k := s.reader.c],
         reader := Dialled(s.reader.id, s.reader.c, k))
    case Insert(now) => AfterInsert(s, now, cfg)
    case CloseRefused => s.(table := t.(open := t.open - {s.reader.s}), reader := Reading)
    case WriteUp(ok) =>
      if ok then s.(writes := s.writes + [(s.reader.id, s.reader.s)], reader := Reading)
      else s.(reader := WriteFailed(s.reader.c, s.reader.s))
    case CleanUp => s.(table := Dropped(t, s.reader.c, s.reader.s), reader := Reading)
    case DrainDone => s.(reader := StoppingSweeper)
    case SweeperStopped => s.(reader := FinalClose)
    case CloseFinally => s.(table := Emptied(t), reader := Returned)
  }

  function PumpNext(s: State, k: Sock, p: PumpAct): State
    requires PumpCan(s, k, p)
  {
    var t := s.table;
    match p
    case Read(ok) => s.(pumps := s.pumps[k := if ok then Received else Leaving])
    case Note(now) => s.(table := Touched(t, k, now), pumps := s.pumps[k := Noted])
    case Reply(ok) =>
      if ok then s.(replies := s.replies + [(k, s.caddr[k])], pumps := s.pumps[k := Replied])
      else s.(pumps := s.pumps[k := Leaving])
    case Check(cancelled) => s.(pumps := s.pumps[k := if cancelled then Leaving else Waiting])
    case Unmap => s.(table := Unmapped(t, s.caddr[k], k), pumps := s.pumps[k := Closing])
    case Close => s.(table := t.(open := t.open - {k}), pumps := s.pumps[k := Finished])
  }

  function Do(s: State, a: Action, cfg: Config): State
    requires Enabled(s, a)
  {
    match a
    case CancelContext => s.(stopped := true)
    case SweepTick(now) => s.(table := Swept(s.table, now, cfg.idle))
    case SweeperSeesStop => s.(sweeping := false)
    case ReaderDoes(r) => ReaderNext(s, r, cfg)
    case PumpDoes(k, p) => PumpNext(s, k, p)
  }

  // ---------------------------------------------------------------- invariants

  /** The table is consistent whenever the lock is free. */
  ghost predicate TableOk(s: State, cfg: Config) {
    && s.table.count == |s.table.sessions| <= cfg.maxSessions
    && (forall c <- s.table.sessions ::
          var k := s.table.sessions[c];
          && k in s.table.open && k in s.owner && s.owner[k] == c
          && k in s.pumps && !s.pumps[k].Closing? && !s.pumps[k].Finished?)
  }

  predicate ReaderHolds(r: Reader, k: Sock) {
    (r.Dialled? || r.OverCap?) && r.s == k
  }

  /** Nobody else knows a socket the reader has just dialled. */
  ghost predicate ReaderOk(s: State, cfg: Config) {
    && (s.reader.NeedsNew? || s.reader.Dialled? ==>
          s.reader.c !in s.table.sessions && |s.table.sessions| < cfg.maxSessions)
    && !s.reader.OverCap?
    && (s.reader.Dialled? ==> s.reader.s in s.table.open && s.reader.s !in s.pumps
                              && s.reader.s in s.owner && s.owner[s.reader.s] == s.reader.c)
    && (s.reader.Writing? || s.reader.WriteFailed? ==>
          s.reader.s in s.owner && s.owner[s.reader.s] == s.reader.c)
    && (s.reader.FinalClose? || s.reader.Returned? ==> !s.sweeping)
    && (s.reader.Returned? ==> s.table.sessions == map[])
  }

  /** Every open socket is accounted for, and each pump works for the client its socket was dialled for. */
  ghost predicate SocketsOk(s: State) {
    && (forall k <- s.table.open :: k in s.owner &&
          (ReaderHolds(s.reader, k) || Maps(s.table, s.owner[k], k) || (k in s.pumps && s.pumps[k].Closing?)))
    && (forall k <- s.pumps :: k in s.owner && k in s.caddr && s.caddr[k] == s.owner[k])
  }

  predicate HasDatagram(r: Reader) {
    r.Got? || r.NeedsNew? || r.Dialled? || r.Writing?
  }

  /** Datagrams go where they belong. */
  ghost predicate TrafficOk(s: State) {
    && (HasDatagram(s.reader) ==>
          s.reader.id < |s.from| && s.from[s.reader.id] == s.reader.c
          && forall w <- s.writes :: w.0 < s.reader.id)
    && (forall w <- s.writes :: w.0 < |s.from| && w.1 in s.owner && s.owner[w.1] == s.from[w.0])
    && (forall i, j :: 0 <= i < j < |s.writes| ==> s.writes[i].0 < s.writes[j].0)
    && (forall r <- s.replies :: r.0 in s.owner && s.owner[r.0] == r.1)
  }

  ghost predicate Inv(s: State, cfg: Config) {
    TableOk(s, cfg) && ReaderOk(s, cfg) && SocketsOk(s) && TrafficOk(s)
  }

  // ---------------------------------------------------------------- every step keeps them

  lemma ClosedShrinks(t: Table, gone: set<Client>)
    ensures Closed(t, gone).sessions.Keys <= t.sessions.Keys
    ensures |Closed(t, gone).sessions| <= |t.sessions|
    ensures forall c <- Closed(t, gone).sessions :: Closed(t, gone).sessions[c] == t.sessions[c]
  {
    Fewer(Closed(t, gone).sessions, t.sessions);
  }

  lemma Fewer(a: map<Client, Sock>, b: map<Client, Sock>)
    requires a.Keys <= b.Keys
    ensures |a| <= |b|
    ensures a.Keys < b.Keys ==> |a| < |b|
  {
    assert b.Keys == a.Keys + (b.Keys - a.Keys);
    assert |a| == |a.Keys| && |b| == |b.Keys|;
    if a.Keys < b.Keys { assert b.Keys - a.Keys != {}; }
  }

  /** Outside the reader's insertion the session map only shrinks, and what stays keeps its socket. */
  predicate Shrinks(t: Table, t': Table) {
    && t'.sessions.Keys <= t.sessions.Keys
    && (forall c <- t'.sessions :: t'.sessions[c] == t.sessions[c])
    && |t'.sessions| <= |t.sessions|
  }

  predicate IsInsert(a: Action) {
    a.ReaderDoes? && a.r.Insert?
  }

  /** The rely condition of the reader's two critical sections: no other step inserts. */
  lemma OnlyInsertGrows(s: State, a: Action, cfg: Config)
    requires Enabled(s, a) && !IsInsert(a)
    ensures Shrinks(s.table, Do(s, a, cfg).table)
  {
    match a
    case CancelContext =>
    case SweepTick(now) => CloseShrinks(s.table, IdleClients(s.table, now, cfg.idle));
    case SweeperSeesStop =>
    case ReaderDoes(r) => ReaderShrinks(s, r, cfg);
    case PumpDoes(k, p) => PumpShrinks(s, k, p);
  }

  lemma CloseShrinks(t: Table, gone: set<Client>)
    ensures Shrinks(t, Closed(t, gone))
  {
    ClosedShrinks(t, gone);
  }

  lemma ReaderShrinks(s: State, r: ReaderAct, cfg: Config)
    requires ReaderCan(s, r) && !r.Insert?
    ensures Shrinks(s.table, ReaderNext(s, r, cfg).table)
  {
    if r.ReadError? || r.CloseFinally? {
      CloseShrinks(s.table, s.table.sessions.Keys);
    } else if r.CleanUp? {
      CloseShrinks(s.table, {s.reader.c});
    } else {
      ReaderLeaves(s, r, cfg);
    }
  }

  /** The reader's other steps do not touch the session map. */
  lemma ReaderLeaves(s: State, r: ReaderAct, cfg: Config)
    requires ReaderCan(s, r) && !r.Insert? && !r.ReadError? && !r.CloseFinally? && !r.CleanUp?
    ensures ReaderNext(s, r, cfg).table.sessions == s.table.sessions
  {
  }

  lemma PumpShrinks(s: State, k: Sock, p: PumpAct)
    requires PumpCan(s, k, p)
    ensures Shrinks(s.table, PumpNext(s, k, p).table)
  {
    if p.Unmap? {
      Fewer(Unmapped(s.table, s.caddr[k], k).sessions, s.table.sessions);
    }
  }

  // Closing steps: the sweeper, the cleanup after a failed write, and both uses of closeAll.

  lemma TableAfterClose(s: State, gone: set<Client>, r: Reader, cfg: Config)
    requires TableOk(s, cfg)
    ensures TableOk(s.(table := Closed(s.table, gone), reader := r), cfg)
  {
    ClosedShrinks(s.table, gone);
    forall c <- Closed(s.table, gone).sessions ensures s.table.sessions[c] in Closed(s.table, gone).open {
      forall c' <- s.table.sessions | c' in gone ensures s.table.sessions[c'] != s.table.sessions[c] {
        assert s.owner[s.table.sessions[c']] == c' && s.owner[s.table.sessions[c]] == c;
      }
    }
  }

  lemma SocketsAfterClose(s: State, gone: set<Client>, r: Reader)
    requires SocketsOk(s) && forall k :: ReaderHolds(s.reader, k) ==> ReaderHolds(r, k)
    ensures SocketsOk(s.(table := Closed(s.table, gone), reader := r))
  {
    var t' := Closed(s.table, gone);
    forall k <- t'.open
      ensures k in s.owner
      ensures ReaderHolds(r, k) || Maps(t', s.owner[k], k) || (k in s.pumps && s.pumps[k].Closing?)
    {
      assert k in s.table.open;
    }
  }

  lemma ReaderAfterSweep(s: State, gone: set<Client>, cfg: Config)
    requires Inv(s, cfg)
    ensures ReaderOk(s.(table := Closed(s.table, gone)), cfg)
  {
    ClosedShrinks(s.table, gone);
    if s.reader.Dialled? {
      forall c <- s.table.sessions ensures s.table.sessions[c] != s.reader.s {
        assert s.table.sessions[c] in s.pumps;
      }
    }
  }

  lemma TrafficSame(s: State, s': State)
    requires TrafficOk(s) && s'.owner == s.owner && s'.from == s.from && s'.writes == s.writes
    requires s'.replies == s.replies
    requires HasDatagram(s'.reader) ==>
               HasDatagram(s.reader) && s'.reader.id == s.reader.id && s'.reader.c == s.reader.c
    ensures TrafficOk(s')
  {
  }

  lemma CloseKeeps(s: State, gone: set<Client>, r: Reader, cfg: Config)
    requires Inv(s, cfg) && !HasDatagram(r) && !r.OverCap? && !r.WriteFailed? && !ReaderHoldsAny(s.reader)
    requires r.FinalClose? || r.Returned? ==> !s.sweeping
    requires r.Returned? ==> gone == s.table.sessions.Keys
    ensures Inv(s.(table := Closed(s.table, gone), reader := r), cfg)
  {
    TableAfterClose(s, gone, r, cfg);
    SocketsAfterClose(s, gone, r);
    TrafficSame(s, s.(table := Closed(s.table, gone), reader := r));
  }

  predicate ReaderHoldsAny(r: Reader) {
    r.Dialled? || r.OverCap?
  }

  lemma SweepKeeps(s: State, now: int, cfg: Config)
    requires Inv(s, cfg) && s.sweeping
    ensures Inv(Do(s, SweepTick(now), cfg), cfg)
  {
    var gone := IdleClients(s.table, now, cfg.idle);
    TableAfterClose(s, gone, s.reader, cfg);
    ReaderAfterSweep(s, gone, cfg);
    SocketsAfterClose(s, gone, s.reader);
    TrafficSame(s, Do(s, SweepTick(now), cfg));
  }

  // The reader.

  lemma InsertKeeps(s: State, now: int, cfg: Config)
    requires Inv(s, cfg) && s.reader.Dialled?
    ensures Inv(AfterInsert(s, now, cfg), cfg)
  {
    var s' := AfterInsert(s, now, cfg);
    var c, k := s.reader.c, s.reader.s;
    assert s' == s.(table := Inserted(s.table, c, k, now), pumps := s.pumps[k := Waiting],
                    caddr := s.caddr[k := c], reader := Writing(s.reader.id, c, k));
    InsertTable(s, now, cfg);
    InsertSockets(s, now, cfg);
    TrafficSame(s, s');
  }

  lemma InsertTable(s: State, now: int, cfg: Config)
    requires Inv(s, cfg) && s.reader.Dialled?
    ensures TableOk(s.(table := Inserted(s.table, s.reader.c, s.reader.s, now),
                       pumps := s.pumps[s.reader.s := Waiting], caddr := s.caddr[s.reader.s := s.reader.c],
                       reader := Writing(s.reader.id, s.reader.c, s.reader.s)), cfg)
  {
    OneMore(s.table.sessions, s.reader.c, s.reader.s);
  }

  lemma OneMore(m: map<Client, Sock>, c: Client, k: Sock)
    requires c !in m
    ensures |m[c := k]| == |m| + 1
  {
    assert m[c := k].Keys == m.Keys + {c};
    assert |m[c := k]| == |m[c := k].Keys| && |m| == |m.Keys|;
  }

  lemma InsertSockets(s: State, now: int, cfg: Config)
    requires Inv(s, cfg) && s.reader.Dialled?
    ensures SocketsOk(s.(table := Inserted(s.table, s.reader.c, s.reader.s, now),
                         pumps := s.pumps[s.reader.s := Waiting], caddr := s.caddr[s.reader.s := s.reader.c],
                         reader := Writing(s.reader.id, s.reader.c, s.reader.s)))
  {
    var k, t' := s.reader.s, Inserted(s.table, s.reader.c, s.reader.s, now);
    forall x <- t'.open
      ensures x in s.owner
      ensures Maps(t', s.owner[x], x) || (x in s.pumps && x != k && s.pumps[x].Closing?)
    {
      assert x in s.table.open;
    }
  }

  lemma LookupKeeps(s: State, now: int, cfg: Config)
    requires Inv(s, cfg) && s.reader.Got?
    ensures Inv(AfterLookup(s, now, cfg), cfg)
  {
    var c := s.reader.c;
    if c in s.table.sessions {
      ReuseKeeps(s, now, cfg);
    } else if |s.table.sessions| >= cfg.maxSessions {
      MoveKeeps(s, Reading, cfg);
    } else {
      TrafficSame(s, s.(reader := NeedsNew(s.reader.id, c)));
    }
  }

  lemma ReuseKeeps(s: State, now: int, cfg: Config)
    requires Inv(s, cfg) && s.reader.Got? && s.reader.c in s.table.sessions
    ensures var k := s.table.sessions[s.reader.c];
            Inv(s.(table := Touched(s.table, k, now), reader := Writing(s.reader.id, s.reader.c, k)), cfg)
  {
    var k := s.table.sessions[s.reader.c];
    TrafficSame(s, s.(table := Touched(s.table, k, now), reader := Writing(s.reader.id, s.reader.c, k)));
  }

  lemma DialKeeps(s: State, k: Sock, cfg: Config)
    requires Inv(s, cfg) && s.reader.NeedsNew? && k !in s.owner
    ensures Inv(s.(table := s.table.(open := s.table.open + {k}), owner := s.owner[k := s.reader.c],
                   reader := Dialled(s.reader.id, s.reader.c, k)), cfg)
  {
  }

  lemma WriteKeeps(s: State, cfg: Config)
    requires Inv(s, cfg) && s.reader.Writing?
    ensures Inv(s.(writes := s.writes + [(s.reader.id, s.reader.s)], reader := Reading), cfg)
  {
  }

  lemma ReceiveKeeps(s: State, c: Client, cfg: Config)
    requires Inv(s, cfg) && s.reader.Reading?
    ensures Inv(s.(from := s.from + [c], reader := Got(|s.from|, c)), cfg)
  {
  }

  /** Moving on without touching anything else. */
  lemma MoveKeeps(s: State, r: Reader, cfg: Config)
    requires Inv(s, cfg) && !ReaderHoldsAny(s.reader) && !ReaderHoldsAny(r) && !HasDatagram(r)
    requires r.WriteFailed? ==> s.reader.Writing? && r.s == s.reader.s && r.c == s.reader.c
    requires r.FinalClose? || r.Returned? ==> !s.sweeping
    requires !r.Returned?
    ensures Inv(s.(reader := r), cfg)
  {
    TrafficSame(s, s.(reader := r));
  }

  lemma ReaderKeeps(s: State, r: ReaderAct, cfg: Config)
    requires Inv(s, cfg) && ReaderCan(s, r)
    ensures Inv(ReaderNext(s, r, cfg), cfg)
  {
    match r
    case Receive(c) => ReceiveKeeps(s, c, cfg);
    case ReadError =>
      if s.stopped { CloseKeeps(s, s.table.sessions.Keys, Draining, cfg); } else { MoveKeeps(s, Draining, cfg); }
    case Lookup(now) => LookupKeeps(s, now, cfg);
    case DialFails => MoveKeeps(s, Reading, cfg);
    case Dial(k) => DialKeeps(s, k, cfg);
    case Insert(now) => InsertKeeps(s, now, cfg);
    case CloseRefused => assert false;
    case WriteUp(ok) =>
      if ok { WriteKeeps(s, cfg); } else { MoveKeeps(s, WriteFailed(s.reader.c, s.reader.s), cfg); }
    case CleanUp =>
      if Maps(s.table, s.reader.c, s.reader.s) {
        CloseKeeps(s, {s.reader.c}, Reading, cfg);
      } else {
        MoveKeeps(s, Reading, cfg);
      }
    case DrainDone => MoveKeeps(s, StoppingSweeper, cfg);
    case SweeperStopped => MoveKeeps(s, FinalClose, cfg);
    case CloseFinally => CloseKeeps(s, s.table.sessions.Keys, Returned, cfg);
  }

  // The pumps.

  lemma PumpMoves(s: State, k: Sock, p: Pump, t: Table, cfg: Config)
    requires Inv(s, cfg) && k in s.pumps && !s.pumps[k].Closing? && !p.Closing? && !p.Finished?
    requires t.sessions == s.table.sessions && t.open == s.table.open && t.count == s.table.count
    ensures Inv(s.(pumps := s.pumps[k := p], table := t), cfg)
  {
    TrafficSame(s, s.(pumps := s.pumps[k := p], table := t));
  }

  lemma UnmapTable(s: State, k: Sock, cfg: Config)
    requires TableOk(s, cfg) && k in s.pumps && k in s.owner
    ensures TableOk(s.(table := Unmapped(s.table, s.owner[k], k), pumps := s.pumps[k := Closing]), cfg)
    ensures Shrinks(s.table, Unmapped(s.table, s.owner[k], k))
  {
    Fewer(Unmapped(s.table, s.owner[k], k).sessions, s.table.sessions);
  }

  lemma UnmapSockets(s: State, k: Sock)
    requires SocketsOk(s) && k in s.pumps && k in s.owner
    ensures SocketsOk(s.(table := Unmapped(s.table, s.owner[k], k), pumps := s.pumps[k := Closing]))
  {
    var t', pumps := Unmapped(s.table, s.owner[k], k), s.pumps[k := Closing];
    forall x <- t'.open
      ensures x in s.owner
      ensures ReaderHolds(s.reader, x) || Maps(t', s.owner[x], x) || (x in pumps && pumps[x].Closing?)
    {
      assert x in s.table.open;
    }
  }

  lemma UnmapKeeps(s: State, k: Sock, cfg: Config)
    requires Inv(s, cfg) && k in s.pumps && k in s.owner && s.pumps[k].Leaving?
    ensures Inv(s.(table := Unmapped(s.table, s.owner[k], k), pumps := s.pumps[k := Closing]), cfg)
  {
    UnmapTable(s, k, cfg);
    UnmapSockets(s, k);
    TrafficSame(s, s.(table := Unmapped(s.table, s.owner[k], k), pumps := s.pumps[k := Closing]));
  }

  lemma ClosePumpKeeps(s: State, k: Sock, cfg: Config)
    requires Inv(s, cfg) && k in s.pumps && s.pumps[k].Closing?
    ensures Inv(s.(table := s.table.(open := s.table.open - {k}), pumps := s.pumps[k := Finished]), cfg)
  {
    TrafficSame(s, s.(table := s.table.(open := s.table.open - {k}), pumps := s.pumps[k := Finished]));
  }

  lemma ReplyKeeps(s: State, k: Sock, cfg: Config)
    requires Inv(s, cfg) && k in s.owner
    ensures Inv(s.(replies := s.replies + [(k, s.owner[k])]), cfg)
  {
  }

  lemma PumpKeeps(s: State, k: Sock, p: PumpAct, cfg: Config)
    requires Inv(s, cfg) && PumpCan(s, k, p)
    ensures Inv(PumpNext(s, k, p), cfg)
  {
    assert k in s.owner && s.caddr[k] == s.owner[k];
    match p
    case Read(ok) => PumpMoves(s, k, if ok then Received else Leaving, s.table, cfg);
    case Note(now) => PumpMoves(s, k, Noted, Touched(s.table, k, now), cfg);
    case Reply(ok) =>
      if ok {
        ReplyKeeps(s, k, cfg);
        PumpMoves(s.(replies := s.replies + [(k, s.owner[k])]), k, Replied, s.table, cfg);
      } else {
        PumpMoves(s, k, Leaving, s.table, cfg);
      }
    case Check(cancelled) => PumpMoves(s, k, if cancelled then Leaving else Waiting, s.table, cfg);
    case Unmap => UnmapKeeps(s, k, cfg);
    case Close => ClosePumpKeeps(s, k, cfg);
  }

  lemma StepKeeps(s: State, a: Action, cfg: Config)
    requires Inv(s, cfg) && Enabled(s, a)
    ensures Inv(Do(s, a, cfg), cfg)
  {
    match a
    case CancelContext => TrafficSame(s, s.(stopped := true));
    case SweepTick(now) => SweepKeeps(s, now, cfg);
    case SweeperSeesStop => TrafficSame(s, s.(sweeping := false));
    case ReaderDoes(r) => ReaderKeeps(s, r, cfg);
    case PumpDoes(k, p) => PumpKeeps(s, k, p, cfg);
  }

  // ---------------------------------------------------------------- every interleaving

  ghost predicate IsTrace(ss: seq<State>, acts: seq<Action>, cfg: Config) {
    && |ss| == |acts| + 1 && ss[0] == INIT
    && forall i | 0 <= i < |acts| :: Enabled(ss[i], acts[i]) && ss[i + 1] == Do(ss[i], acts[i], cfg)
  }

  /** In every interleaving, whenever the lock is free: at most MaxSessions sessions, the published count
      is their number, every mapped session's socket is open and was dialled for its own client; every
      open socket is mapped once, in the reader's hands, or held by one pump about to close it; each
      datagram is written at most once and only to a socket dialled for its sender, and replies go only
      to the client their socket was dialled for. */
  lemma {:induction false} TraceInvariant(ss: seq<State>, acts: seq<Action>, cfg: Config, i: nat)
    requires IsTrace(ss, acts, cfg) && i < |ss|
    ensures Inv(ss[i], cfg)
  {
    if i > 0 {
      TraceInvariant(ss, acts, cfg, i - 1);
      StepKeeps(ss[i - 1], acts[i - 1], cfg);
    }
  }

  /** Between the reader's two critical sections no session for its client appears and no slot is lost:
      the second critical section always inserts. The race and capacity branches are dead code. */
  lemma SecondCheckNeverFires(ss: seq<State>, acts: seq<Action>, cfg: Config, i: nat)
    requires IsTrace(ss, acts, cfg) && i < |acts| && IsInsert(acts[i])
    ensures var s := ss[i];
            && s.reader.c !in s.table.sessions && |s.table.sessions| < cfg.maxSessions
            && ss[i + 1].table.sessions == s.table.sessions[s.reader.c := s.reader.s]
            && ss[i + 1].reader.Writing? && ss[i + 1].reader.s == s.reader.s
  {
    TraceInvariant(ss, acts, cfg, i);
    assert Enabled(ss[i], acts[i]) && ss[i + 1] == Do(ss[i], acts[i], cfg);
  }

  /** Once runUDP has returned it has returned for good: no session is left and the count is 0. */
  lemma ReturnedIsQuiet(ss: seq<State>, acts: seq<Action>, cfg: Config, i: nat)
    requires IsTrace(ss, acts, cfg) && i < |ss| && ss[i].reader.Returned?
    ensures ss[i].table.sessions == map[] && ss[i].table.count == 0 && !ss[i].sweeping
    ensures i < |acts| ==> ss[i + 1].reader.Returned?
    ensures forall k <- ss[i].table.open :: k in ss[i].pumps && ss[i].pumps[k].Closing?
  {
    TraceInvariant(ss, acts, cfg, i);
    if i < |acts| {
      assert Enabled(ss[i], acts[i]) && ss[i + 1] == Do(ss[i], acts[i], cfg);
    }
  }

  /** No socket leaks: after the return, when every pump has finished, no upstream socket is open. */
  lemma NoSocketLeaks(ss: seq<State>, acts: seq<Action>, cfg: Config, i: nat)
    requires IsTrace(ss, acts, cfg) && i < |ss| && ss[i].reader.Returned?
    requires forall k <- ss[i].pumps :: ss[i].pumps[k].Finished?
    ensures ss[i].table.open == {}
  {
    ReturnedIsQuiet(ss, acts, cfg, i);
  }

  // ---------------------------------------------------------------- winding down

  lemma Extend(ss: seq<State>, acts: seq<Action>, cfg: Config, a: Action)
    requires IsTrace(ss, acts, cfg) && Enabled(ss[|acts|], a)
    ensures IsTrace(ss + [Do(ss[|acts|], a, cfg)], acts + [a], cfg)
  {
  }

  /** The reader's next step when everything fails from here on. */
  function WayOut(r: Reader): ReaderAct
    requires !r.Returned?
  {
    match r
    case Reading => ReadError
    case Got(_, _) => Lookup(0)
    case NeedsNew(_, _) => DialFails
    case Dialled(_, _, _) => Insert(0)
    case OverCap(_) => CloseRefused
    case Writing(_, _, _) => WriteUp(false)
    case WriteFailed(_, _) => CleanUp
    case Draining => DrainDone
    case StoppingSweeper => SweeperStopped
    case FinalClose => CloseFinally
  }

  function ReaderSteps(r: Reader): nat {
    match r
    case Got(_, _) => 9
    case Dialled(_, _, _) => 8
    case NeedsNew(_, _) => 7
    case Writing(_, _, _) => 6
    case WriteFailed(_, _) => 5
    case OverCap(_) => 5
    case Reading => 4
    case Draining => 3
    case StoppingSweeper => 2
    case FinalClose => 1
    case Returned => 0
  }

  function NextOut(s: State): Action
    requires !s.reader.Returned?
  {
    if s.reader.StoppingSweeper? && s.sweeping then SweeperSeesStop else ReaderDoes(WayOut(s.reader))
  }

  lemma LookupCloser(s: State, cfg: Config)
    requires s.reader.Got?
    ensures ReaderSteps(AfterLookup(s, 0, cfg).reader) < 9
  {
  }

  lemma InsertCloser(s: State, cfg: Config)
    requires s.reader.Dialled?
    ensures ReaderSteps(AfterInsert(s, 0, cfg).reader) < 8
  {
  }

  lemma SessionCloser(s: State, cfg: Config)
    requires s.reader.NeedsNew? || s.reader.OverCap? || s.reader.Writing? || s.reader.WriteFailed?
    ensures ReaderSteps(ReaderNext(s, WayOut(s.reader), cfg).reader) < ReaderSteps(s.reader)
  {
  }

  lemma LoopCloser(s: State, cfg: Config)
    requires s.reader.Reading? || s.reader.Draining? || s.reader.FinalClose? || (s.reader.StoppingSweeper? && !s.sweeping)
    ensures ReaderSteps(ReaderNext(s, WayOut(s.reader), cfg).reader) < ReaderSteps(s.reader)
  {
    match s.reader
    case Reading => assert WayOut(s.reader) == ReadError;
    case Draining => assert WayOut(s.reader) == DrainDone;
    case FinalClose => assert WayOut(s.reader) == CloseFinally;
    case StoppingSweeper => assert WayOut(s.reader) == SweeperStopped;
  }

  lemma ReaderCloser(s: State, cfg: Config)
    requires !s.reader.Returned? && !(s.reader.StoppingSweeper? && s.sweeping)
    ensures ReaderCan(s, WayOut(s.reader))
    ensures ReaderSteps(ReaderNext(s, WayOut(s.reader), cfg).reader) < ReaderSteps(s.reader)
  {
    match s.reader
    case Got(_, _) => LookupCloser(s, cfg);
    case Dialled(_, _, _) => InsertCloser(s, cfg);
    case Reading => LoopCloser(s, cfg);
    case Draining => LoopCloser(s, cfg);
    case FinalClose => LoopCloser(s, cfg);
    case StoppingSweeper => LoopCloser(s, cfg);
    case _ => SessionCloser(s, cfg);
  }

  lemma {:induction false} ReaderReturns(ss: seq<State>, acts: seq<Action>, cfg: Config)
    returns (ss': seq<State>, acts': seq<Action>)
    requires IsTrace(ss, acts, cfg)
    ensures IsTrace(ss', acts', cfg) && acts <= acts' && ss'[|acts'|].reader.Returned?
    ensures forall i | |acts| <= i < |acts'| :: Inside(acts'[i])
    decreases ReaderSteps(ss[|acts|].reader), ss[|acts|].sweeping
  {
    var s := ss[|acts|];
    TraceInvariant(ss, acts, cfg, |acts|);
    if s.reader.Returned? { return ss, acts; }
    var a := NextOut(s);
    if a.ReaderDoes? { ReaderCloser(s, cfg); }
    Extend(ss, acts, cfg, a);
    ss', acts' := ReaderReturns(ss + [Do(s, a, cfg)], acts + [a], cfg);
  }

  /** A pump's next step when everything fails from here on. */
  function PumpOut(p: Pump): PumpAct
    requires !p.Finished?
  {
    match p
    case Waiting => Read(false)
    case Received => Note(0)
    case Noted => Reply(false)
    case Replied => Check(true)
    case Leaving => Unmap
    case Closing => Close
  }

  function PumpSteps(p: Pump): nat {
    match p
    case Received => 5
    case Noted => 4
    case Waiting => 3
    case Replied => 3
    case Leaving => 2
    case Closing => 1
    case Finished => 0
  }

  lemma PumpCloser(s: State, cfg: Config, k: Sock)
    requires Inv(s, cfg) && k in s.pumps && !s.pumps[k].Finished?
    ensures var a := PumpDoes(k, PumpOut(s.pumps[k]));
            && Enabled(s, a) && Do(s, a, cfg).reader == s.reader
            && k in Do(s, a, cfg).pumps && Do(s, a, cfg).pumps == s.pumps[k := Do(s, a, cfg).pumps[k]]
            && PumpSteps(Do(s, a, cfg).pumps[k]) < PumpSteps(s.pumps[k])
  {
  }

  lemma {:induction false} PumpFinishes(ss: seq<State>, acts: seq<Action>, cfg: Config, k: Sock)
    returns (ss': seq<State>, acts': seq<Action>)
    requires IsTrace(ss, acts, cfg) && ss[|acts|].reader.Returned? && k in ss[|acts|].pumps
    ensures IsTrace(ss', acts', cfg) && acts <= acts' && ss'[|acts'|].reader.Returned?
    ensures ss'[|acts'|].pumps == ss[|acts|].pumps[k := Finished]
    ensures forall i | |acts| <= i < |acts'| :: Inside(acts'[i])
    decreases PumpSteps(ss[|acts|].pumps[k])
  {
    var s := ss[|acts|];
    TraceInvariant(ss, acts, cfg, |acts|);
    if s.pumps[k].Finished? { return ss, acts; }
    PumpCloser(s, cfg, k);
    var a := PumpDoes(k, PumpOut(s.pumps[k]));
    Extend(ss, acts, cfg, a);
    ss', acts' := PumpFinishes(ss + [Do(s, a, cfg)], acts + [a], cfg, k);
  }

  function Unfinished(s: State): set<Sock> {
    set k | k in s.pumps && !s.pumps[k].Finished?
  }

  lemma {:induction false} PumpsFinish(ss: seq<State>, acts: seq<Action>, cfg: Config)
    returns (ss': seq<State>, acts': seq<Action>)
    requires IsTrace(ss, acts, cfg) && ss[|acts|].reader.Returned?
    ensures IsTrace(ss', acts', cfg) && acts <= acts' && ss'[|acts'|].reader.Returned?
    ensures forall k <- ss'[|acts'|].pumps :: ss'[|acts'|].pumps[k].Finished?
    ensures forall i | |acts| <= i < |acts'| :: Inside(acts'[i])
    decreases Unfinished(ss[|acts|])
  {
    var todo := Unfinished(ss[|acts|]);
    if todo == {} {
      assert forall k <- ss[|acts|].pumps :: k !in todo;
      return ss, acts;
    }
    var k :| k in todo;
    ss', acts' := PumpFinishes(ss, acts, cfg, k);
    assert Unfinished(ss'[|acts'|]) == todo - {k};
    ss', acts' := PumpsFinish(ss', acts', cfg);
  }

  /** A step the relay takes by itself: no datagram arrives and nobody cancels. */
  predicate Inside(a: Action) {
    a.SweeperSeesStop? || a.PumpDoes? || (a.ReaderDoes? && !a.r.Receive?)
  }

  /** Nobody waits for ever: every trace can go on by the relay's own steps until it has returned, the
      sweeper is gone, all pumps have finished, and no session and no open socket is left. */
  lemma WindsDown(ss: seq<State>, acts: seq<Action>, cfg: Config) returns (ss': seq<State>, acts': seq<Action>)
    requires IsTrace(ss, acts, cfg)
    ensures IsTrace(ss', acts', cfg) && acts <= acts' && forall i | |acts| <= i < |acts'| :: Inside(acts'[i])
    ensures AtRest(ss'[|acts'|])
  {
    ss', acts' := ReaderReturns(ss, acts, cfg);
    var n := |acts'|;
    ghost var acts1 := acts';
    ss', acts' := PumpsFinish(ss', acts', cfg);
    assert forall i | |acts| <= i < n :: acts'[i] == acts1[i];
    ReturnedIsQuiet(ss', acts', cfg, |acts'|);
    NoSocketLeaks(ss', acts', cfg, |acts'|);
  }

  ghost predicate AtRest(s: State) {
    && s.reader.Returned? && !s.sweeping && (forall k <- s.pumps :: s.pumps[k].Finished?)
    && s.table.sessions == map[] && s.table.open == {} && s.table.count == 0
  }

  // ---------------------------------------------------------------- idleness, by action times

  /** The session an action shows activity of, and when: a datagram of a known client, the opening of a
      session, or a datagram coming back. */
  function NoteOf(s: State, a: Action): Option<(Sock, int)> {
    match a
    case ReaderDoes(Lookup(now)) =>
      if s.reader.Got? && s.reader.c in s.table.sessions then Some((s.table.sessions[s.reader.c], now)) else None
    case ReaderDoes(Insert(now)) => if s.reader.Dialled? then Some((s.reader.s, now)) else None
    case PumpDoes(k, Note(now)) => Some((k, now))
    case _ => None
  }

  /** The time of the latest activity of session k among the first n actions. */
  function LatestNote(ss: seq<State>, acts: seq<Action>, k: Sock, n: nat): Option<int>
    requires n <= |acts| && |ss| == |acts| + 1
  {
    if n == 0 then None
    else
      match NoteOf(ss[n - 1], acts[n - 1])
      case Some(x) => if x.0 == k then Some(x.1) else LatestNote(ss, acts, k, n - 1)
      case None => LatestNote(ss, acts, k, n - 1)
  }

  function Recorded(t: Table, k: Sock): Option<int> {
    if k in t.last then Some(t.last[k]) else None
  }

  /** The recorded time of session k after the step is the one the step shows, if any, else as before. */
  ghost predicate Records(s: State, a: Action, t': Table, k: Sock) {
    Recorded(t', k) == match NoteOf(s, a)
                       case Some(x) => if x.0 == k then Some(x.1) else Recorded(s.table, k)
                       case None => Recorded(s.table, k)
  }

  lemma ReaderRecords(s: State, r: ReaderAct, cfg: Config, k: Sock)
    requires Inv(s, cfg) && ReaderCan(s, r)
    ensures Records(s, ReaderDoes(r), ReaderNext(s, r, cfg).table, k)
  {
    if r.Insert? {
      InsertRecords(s, r.now, cfg);
    } else if r.Lookup? {
      LookupRecords(s, r.now, cfg);
    } else {
      LastUntouched(s, r, cfg);
    }
  }

  lemma InsertRecords(s: State, now: int, cfg: Config)
    requires Inv(s, cfg) && s.reader.Dialled?
    ensures AfterInsert(s, now, cfg).table.last == s.table.last[s.reader.s := now]
  {
  }

  lemma LookupRecords(s: State, now: int, cfg: Config)
    requires s.reader.Got?
    ensures var c, t' := s.reader.c, AfterLookup(s, now, cfg).table;
            t'.last == if c in s.table.sessions then s.table.last[s.table.sessions[c] := now] else s.table.last
  {
  }

  lemma LastUntouched(s: State, r: ReaderAct, cfg: Config)
    requires ReaderCan(s, r) && !r.Insert? && !r.Lookup?
    ensures ReaderNext(s, r, cfg).table.last == s.table.last
  {
    match r
    case CleanUp => assert Dropped(s.table, s.reader.c, s.reader.s).last == s.table.last;
    case _ =>
  }

  lemma PumpRecords(s: State, p: Sock, act: PumpAct, k: Sock)
    requires PumpCan(s, p, act)
    ensures Records(s, PumpDoes(p, act), PumpNext(s, p, act).table, k)
  {
  }

  /** One step records the activity it shows, and no other. */
  lemma NoteRecorded(s: State, a: Action, cfg: Config, k: Sock)
    requires Inv(s, cfg) && Enabled(s, a)
    ensures Records(s, a, Do(s, a, cfg).table, k)
  {
    match a
    case ReaderDoes(r) => ReaderRecords(s, r, cfg, k);
    case PumpDoes(p, act) => PumpRecords(s, p, act, k);
    case _ =>
  }

  lemma {:induction false} LatestRecorded(ss: seq<State>, acts: seq<Action>, cfg: Config, k: Sock, n: nat)
    requires IsTrace(ss, acts, cfg) && n <= |acts|
    ensures Recorded(ss[n].table, k) == LatestNote(ss, acts, k, n)
  {
    if n > 0 {
      LatestRecorded(ss, acts, cfg, k, n - 1);
      TraceInvariant(ss, acts, cfg, n - 1);
      NoteRecorded(ss[n - 1], acts[n - 1], cfg, k);
    }
  }

  /** Every session was noted when it was opened. */
  ghost predicate AllRecorded(s: State) {
    forall c <- s.table.sessions :: s.table.sessions[c] in s.table.last
  }

  lemma StepRecords(s: State, a: Action, cfg: Config)
    requires Inv(s, cfg) && Enabled(s, a) && AllRecorded(s)
    ensures AllRecorded(Do(s, a, cfg))
  {
    var s' := Do(s, a, cfg);
    forall c <- s'.table.sessions ensures s'.table.sessions[c] in s'.table.last {
      NoteRecorded(s, a, cfg, s'.table.sessions[c]);
      if !IsInsert(a) { OnlyInsertGrows(s, a, cfg); }
    }
  }

  lemma {:induction false} SessionsRecorded(ss: seq<State>, acts: seq<Action>, cfg: Config, n: nat)
    requires IsTrace(ss, acts, cfg) && n <= |acts|
    ensures AllRecorded(ss[n])
  {
    if n > 0 {
      SessionsRecorded(ss, acts, cfg, n - 1);
      TraceInvariant(ss, acts, cfg, n - 1);
      StepRecords(ss[n - 1], acts[n - 1], cfg);
    }
  }

  /** A sweep closes and forgets exactly the sessions whose latest activity lies more than the idle limit
      back; every other session stays mapped and its socket open. */
  lemma SweepExact(ss: seq<State>, acts: seq<Action>, cfg: Config, j: nat, now: int, c: Client)
    requires IsTrace(ss, acts, cfg) && j < |acts| && acts[j] == SweepTick(now) && c in ss[j].table.sessions
    ensures var k := ss[j].table.sessions[c];
            && LatestNote(ss, acts, k, j).Some?
            && (Maps(ss[j + 1].table, c, k) <==> now - LatestNote(ss, acts, k, j).value <= cfg.idle)
            && (k in ss[j + 1].table.open <==> now - LatestNote(ss, acts, k, j).value <= cfg.idle)
  {
    var k := ss[j].table.sessions[c];
    TraceInvariant(ss, acts, cfg, j);
    SessionsRecorded(ss, acts, cfg, j);
    LatestRecorded(ss, acts, cfg, k, j);
    assert Enabled(ss[j], acts[j]) && ss[j + 1] == Do(ss[j], acts[j], cfg);
    SweptOne(ss[j], now, cfg, c);
  }

  lemma SweptOne(s: State, now: int, cfg: Config, c: Client)
    requires Inv(s, cfg) && c in s.table.sessions
    ensures var k, t' := s.table.sessions[c], Swept(s.table, now, cfg.idle);
            && (Maps(t', c, k) <==> now - LastOf(s.table, k) <= cfg.idle)
            && (k in t'.open <==> now - LastOf(s.table, k) <= cfg.idle)
  {
    var k, gone := s.table.sessions[c], IdleClients(s.table, now, cfg.idle);
    forall x <- s.table.sessions | s.table.sessions[x] == k ensures x == c {
      assert s.owner[s.table.sessions[x]] == x && s.owner[k] == c;
    }
  }

  /** The clocks read under the lock never go back. */
  ghost predicate ClockForward(ss: seq<State>, acts: seq<Action>)
    requires |ss| == |acts| + 1
  {
    forall i, j | 0 <= i < j < |acts| && NoteOf(ss[i], acts[i]).Some? && NoteOf(ss[j], acts[j]).Some? ::
      NoteOf(ss[i], acts[i]).value.1 <= NoteOf(ss[j], acts[j]).value.1
  }

  lemma {:induction false} LatestSince(ss: seq<State>, acts: seq<Action>, k: Sock, i: nat, n: nat)
    requires i < n <= |acts| && |ss| == |acts| + 1 && ClockForward(ss, acts)
    requires NoteOf(ss[i], acts[i]).Some? && NoteOf(ss[i], acts[i]).value.0 == k
    ensures LatestNote(ss, acts, k, n).Some?
    ensures LatestNote(ss, acts, k, n).value >= NoteOf(ss[i], acts[i]).value.1
  {
    if i < n - 1 { LatestSince(ss, acts, k, i, n - 1); }
  }

  lemma {:induction false} LatestIsNote(ss: seq<State>, acts: seq<Action>, k: Sock, n: nat) returns (i: nat)
    requires n <= |acts| && |ss| == |acts| + 1 && LatestNote(ss, acts, k, n).Some?
    ensures i < n && NoteOf(ss[i], acts[i]) == Some((k, LatestNote(ss, acts, k, n).value))
  {
    var m := n - 1;
    if NoteOf(ss[m], acts[m]).Some? && NoteOf(ss[m], acts[m]).value.0 == k {
      i := m;
    } else {
      i := LatestIsNote(ss, acts, k, m);
    }
  }

  /** A session with activity within the idle limit survives every sweep; a session all of whose activity
      lies further back is closed. */
  lemma ActiveSurvives(ss: seq<State>, acts: seq<Action>, cfg: Config, i: nat, j: nat, now: int, c: Client)
    requires IsTrace(ss, acts, cfg) && ClockForward(ss, acts) && i < j < |acts| && acts[j] == SweepTick(now)
    requires c in ss[j].table.sessions && NoteOf(ss[i], acts[i]).Some?
    requires NoteOf(ss[i], acts[i]).value.0 == ss[j].table.sessions[c]
    requires now - NoteOf(ss[i], acts[i]).value.1 <= cfg.idle
    ensures Maps(ss[j + 1].table, c, ss[j].table.sessions[c])
    ensures ss[j].table.sessions[c] in ss[j + 1].table.open
  {
    LatestSince(ss, acts, ss[j].table.sessions[c], i, j);
    SweepExact(ss, acts, cfg, j, now, c);
  }

  lemma IdleIsClosed(ss: seq<State>, acts: seq<Action>, cfg: Config, j: nat, now: int, c: Client)
    requires IsTrace(ss, acts, cfg) && j < |acts| && acts[j] == SweepTick(now) && c in ss[j].table.sessions
    requires forall i, at | 0 <= i < j && NoteOf(ss[i], acts[i]) == Some((ss[j].table.sessions[c], at)) ::
               now - at > cfg.idle
    ensures c !in ss[j + 1].table.sessions && ss[j].table.sessions[c] !in ss[j + 1].table.open
  {
    var k := ss[j].table.sessions[c];
    SweepExact(ss, acts, cfg, j, now, c);
    var i := LatestIsNote(ss, acts, k, j);
    assert Enabled(ss[j], acts[j]) && ss[j + 1] == Do(ss[j], acts[j], cfg);
    ClosedShrinks(ss[j].table, IdleClients(ss[j].table, now, cfg.idle));
  }

  // ---------------------------------------------------------------- what becomes of datagrams and sessions

  /** A datagram in the reader's hands is given up only because its client is unknown and the table is
      full, because resolving or dialling failed, or because the write failed; otherwise it is written to
      a socket dialled for its sender. */
  lemma DatagramFate(ss: seq<State>, acts: seq<Action>, cfg: Config, i: nat)
    requires IsTrace(ss, acts, cfg) && i < |acts| && HasDatagram(ss[i].reader)
    requires !(HasDatagram(ss[i + 1].reader) && ss[i + 1].reader.id == ss[i].reader.id)
    ensures var s, s' := ss[i], ss[i + 1];
            || (acts[i].ReaderDoes? && acts[i].r.Lookup? && s.reader.c !in s.table.sessions
                && |s.table.sessions| == cfg.maxSessions && s'.table == s.table)
            || (acts[i] == ReaderDoes(DialFails) && s'.table == s.table)
            || (acts[i] == ReaderDoes(WriteUp(false)) && s'.reader == WriteFailed(s.reader.c, s.reader.s))
            || (acts[i] == ReaderDoes(WriteUp(true)) && s'.writes == s.writes + [(s.reader.id, s.reader.s)]
                && s.reader.s in s.owner && s.reader.id < |s.from| && s.owner[s.reader.s] == s.from[s.reader.id])
  {
    TraceInvariant(ss, acts, cfg, i);
    assert Enabled(ss[i], acts[i]) && ss[i + 1] == Do(ss[i], acts[i], cfg);
  }

  /** Nothing else is written or sent: the traffic records grow by exactly the successful writes of the
      reader and the successful replies of the pumps, each to the client its socket was dialled for. */
  lemma TrafficExact(ss: seq<State>, acts: seq<Action>, cfg: Config, i: nat)
    requires IsTrace(ss, acts, cfg) && i < |acts|
    ensures acts[i] != ReaderDoes(WriteUp(true)) ==> ss[i + 1].writes == ss[i].writes
    ensures match acts[i]
            case PumpDoes(k, Reply(true)) => k in ss[i].owner && ss[i + 1].replies == ss[i].replies + [(k, ss[i].owner[k])]
            case _ => ss[i + 1].replies == ss[i].replies
  {
    TraceInvariant(ss, acts, cfg, i);
    assert Enabled(ss[i], acts[i]) && ss[i + 1] == Do(ss[i], acts[i], cfg);
  }

  /** A session ends only by a sweep, by a failed write to it, by its own pump, or at the end of the
      relay. */
  lemma WhySessionEnds(ss: seq<State>, acts: seq<Action>, cfg: Config, i: nat, c: Client)
    requires IsTrace(ss, acts, cfg) && i < |acts| && c in ss[i].table.sessions && c !in ss[i + 1].table.sessions
    ensures var s, k := ss[i], ss[i].table.sessions[c];
            || acts[i].SweepTick?
            || (acts[i] == ReaderDoes(CleanUp) && s.reader == WriteFailed(c, k))
            || acts[i] == PumpDoes(k, Unmap)
            || (acts[i] == ReaderDoes(ReadError) && s.stopped)
            || acts[i] == ReaderDoes(CloseFinally)
  {
    assert Enabled(ss[i], acts[i]) && ss[i + 1] == Do(ss[i], acts[i], cfg);
    EndsBy(ss[i], acts[i], cfg, c);
  }

  lemma EndsBy(s: State, a: Action, cfg: Config, c: Client)
    requires Enabled(s, a) && c in s.table.sessions && c !in Do(s, a, cfg).table.sessions
    ensures var k := s.table.sessions[c];
            || a.SweepTick?
            || (a == ReaderDoes(CleanUp) && s.reader == WriteFailed(c, k))
            || a == PumpDoes(k, Unmap)
            || (a == ReaderDoes(ReadError) && s.stopped)
            || a == ReaderDoes(CloseFinally)
  {
    if a.ReaderDoes? {
      if a.r.CleanUp? { CleanUpEnds(s, c); } else { ReaderHoldsOn(s, a.r, cfg, c); }
    } else if a.PumpDoes? {
      PumpEnds(s, a.s, a.p, c);
    }
  }

  lemma CleanUpEnds(s: State, c: Client)
    requires s.reader.WriteFailed? && c in s.table.sessions && c !in Dropped(s.table, s.reader.c, s.reader.s).sessions
    ensures s.reader == WriteFailed(c, s.table.sessions[c])
  {
  }

  lemma PumpEnds(s: State, k: Sock, p: PumpAct, c: Client)
    requires PumpCan(s, k, p) && c in s.table.sessions && c !in PumpNext(s, k, p).table.sessions
    ensures p.Unmap? && k == s.table.sessions[c]
  {
  }

  lemma ReaderHoldsOn(s: State, r: ReaderAct, cfg: Config, c: Client)
    requires ReaderCan(s, r) && !r.CleanUp? && c in s.table.sessions
    ensures c in ReaderNext(s, r, cfg).table.sessions || (r.ReadError? && s.stopped) || r.CloseFinally?
  {
    if !r.Insert? && !r.ReadError? && !r.CloseFinally? { ReaderLeaves(s, r, cfg); }
  }

  /** What ends the session of client c, in terms of actions and their times. */
  ghost predicate EndsAt(ss: seq<State>, acts: seq<Action>, cfg: Config, i: nat, c: Client)
    requires IsTrace(ss, acts, cfg) && i < |acts| && c in ss[i].table.sessions
  {
    var s, k, a := ss[i], ss[i].table.sessions[c], acts[i];
    || (a.SweepTick? && LatestNote(ss, acts, k, i).Some? && a.now - LatestNote(ss, acts, k, i).value > cfg.idle)
    || (a == ReaderDoes(CleanUp) && s.reader == WriteFailed(c, k))
    || a == PumpDoes(k, Unmap)
    || (a == ReaderDoes(ReadError) && s.stopped)
    || a == ReaderDoes(CloseFinally)
  }

  /** A session ends exactly by a sweep that finds it idle, the cleanup after a failed write to it, its own
      pump's leaving, or the end of the relay. */
  lemma SessionEndsIff(ss: seq<State>, acts: seq<Action>, cfg: Config, i: nat, c: Client)
    requires IsTrace(ss, acts, cfg) && i < |acts| && c in ss[i].table.sessions
    ensures c !in ss[i + 1].table.sessions <==> EndsAt(ss, acts, cfg, i, c)
  {
    var s, a := ss[i], acts[i];
    assert Enabled(s, a) && ss[i + 1] == Do(s, a, cfg);
    TraceInvariant(ss, acts, cfg, i);
    if a.SweepTick? {
      SweepExact(ss, acts, cfg, i, a.now, c);
    } else {
      if c !in ss[i + 1].table.sessions { WhySessionEnds(ss, acts, cfg, i, c); }
      if EndsAt(ss, acts, cfg, i, c) { Ended(s, a, cfg, c); }
    }
  }

  lemma Ended(s: State, a: Action, cfg: Config, c: Client)
    requires Inv(s, cfg) && Enabled(s, a) && c in s.table.sessions
    requires var k := s.table.sessions[c];
             || (a == ReaderDoes(CleanUp) && s.reader == WriteFailed(c, k))
             || a == PumpDoes(k, Unmap)
             || (a == ReaderDoes(ReadError) && s.stopped)
             || a == ReaderDoes(CloseFinally)
    ensures c !in Do(s, a, cfg).table.sessions
  {
  }

  /** An open socket is closed exactly together with its session, or by its own pump after that has
      unmapped it. */
  lemma SocketClosesIff(ss: seq<State>, acts: seq<Action>, cfg: Config, i: nat, k: Sock)
    requires IsTrace(ss, acts, cfg) && i < |acts| && k in ss[i].table.open
    ensures k !in ss[i + 1].table.open <==>
              || acts[i] == PumpDoes(k, Close)
              || (acts[i] != PumpDoes(k, Unmap) && Unmaps(ss[i], ss[i + 1], k))
  {
    TraceInvariant(ss, acts, cfg, i);
    assert Enabled(ss[i], acts[i]) && ss[i + 1] == Do(ss[i], acts[i], cfg);
    ClosesIff(ss[i], acts[i], cfg, k);
  }

  /** The step ends the session that the socket was dialled for. */
  predicate Unmaps(s: State, s': State, k: Sock) {
    k in s.owner && Maps(s.table, s.owner[k], k) && s.owner[k] !in s'.table.sessions
  }

  lemma ClosesIff(s: State, a: Action, cfg: Config, k: Sock)
    requires Inv(s, cfg) && Enabled(s, a) && k in s.table.open
    ensures var s' := Do(s, a, cfg);
            k !in s'.table.open <==> a == PumpDoes(k, Close) || (a != PumpDoes(k, Unmap) && Unmaps(s, s', k))
  {
    match a
    case CancelContext =>
    case SweepTick(now) => ClosedIff(s, IdleClients(s.table, now, cfg.idle), cfg, k);
    case SweeperSeesStop =>
    case ReaderDoes(r) => ReaderClosesIff(s, r, cfg, k);
    case PumpDoes(p, act) => PumpClosesIff(s, p, act, cfg, k);
  }

  lemma ClosedIff(s: State, gone: set<Client>, cfg: Config, k: Sock)
    requires TableOk(s, cfg) && k in s.table.open && k in s.owner
    ensures k !in Closed(s.table, gone).open <==>
              Maps(s.table, s.owner[k], k) && s.owner[k] !in Closed(s.table, gone).sessions
  {
  }

  lemma ReaderClosesIff(s: State, r: ReaderAct, cfg: Config, k: Sock)
    requires Inv(s, cfg) && ReaderCan(s, r) && k in s.table.open
    ensures k !in ReaderNext(s, r, cfg).table.open <==> Unmaps(s, ReaderNext(s, r, cfg), k)
  {
    if r.ReadError? || r.CloseFinally? {
      ClosedIff(s, s.table.sessions.Keys, cfg, k);
    } else if r.CleanUp? {
      ClosedIff(s, {s.reader.c}, cfg, k);
    } else {
      ReaderKeepsOpen(s, r, cfg, k);
    }
  }

  lemma ReaderKeepsOpen(s: State, r: ReaderAct, cfg: Config, k: Sock)
    requires Inv(s, cfg) && ReaderCan(s, r) && k in s.table.open
    requires !r.ReadError? && !r.CloseFinally? && !r.CleanUp?
    ensures k in ReaderNext(s, r, cfg).table.open && s.table.sessions.Keys <= ReaderNext(s, r, cfg).table.sessions.Keys
  {
    match r
    case Insert(now) => assert AfterInsert(s, now, cfg).table == Inserted(s.table, s.reader.c, s.reader.s, now);
    case Lookup(now) => LookupKeepsOpen(s, now, cfg);
    case _ =>
  }

  lemma LookupKeepsOpen(s: State, now: int, cfg: Config)
    requires s.reader.Got?
    ensures AfterLookup(s, now, cfg).table.open == s.table.open
    ensures AfterLookup(s, now, cfg).table.sessions == s.table.sessions
  {
    if s.reader.c in s.table.sessions {
      assert AfterLookup(s, now, cfg).table == Touched(s.table, s.table.sessions[s.reader.c], now);
    } else {
      assert AfterLookup(s, now, cfg).table == s.table;
    }
  }

  lemma PumpClosesIff(s: State, p: Sock, act: PumpAct, cfg: Config, k: Sock)
    requires Inv(s, cfg) && PumpCan(s, p, act) && k in s.table.open
    ensures var s' := PumpNext(s, p, act);
            k !in s'.table.open <==> (p == k && act.Close?) || (!(p == k && act.Unmap?) && Unmaps(s, s', k))
  {
  }

  // ---------------------------------------------------------------- program order

  /** What a pump may do right after p. */
  predicate PumpFollows(p: PumpAct, q: PumpAct) {
    match p
    case Read(ok) => if ok then q.Note? else q.Unmap?
    case Note(_) => q.Reply?
    case Reply(ok) => if ok then q.Check? else q.Unmap?
    case Check(cancelled) => if cancelled then q.Unmap? else q.Read?
    case Unmap => q.Close?
    case Close => false
  }

  predicate IsPump(a: Action, k: Sock) {
    a.PumpDoes? && a.s == k
  }

  /** Whatever happens in between, each pump notes, replies and looks at its context after every datagram,
      leaves after a failed read or reply or a cancelled context, and then unmaps, closes and is gone. */
  lemma PumpOrder(ss: seq<State>, acts: seq<Action>, cfg: Config, i: nat, j: nat, k: Sock)
    requires IsTrace(ss, acts, cfg) && i < j < |acts| && IsPump(acts[i], k) && IsPump(acts[j], k)
    requires forall x | i < x < j :: !IsPump(acts[x], k)
    ensures PumpFollows(acts[i].p, acts[j].p)
  {
    assert Enabled(ss[i], acts[i]) && ss[i + 1] == Do(ss[i], acts[i], cfg);
    assert Enabled(ss[j], acts[j]);
    PumpStays(ss, acts, cfg, i, j, k);
  }

  lemma {:induction false} PumpStays(ss: seq<State>, acts: seq<Action>, cfg: Config, i: nat, n: nat, k: Sock)
    requires IsTrace(ss, acts, cfg) && i < n <= |acts| && k in ss[i + 1].pumps
    requires forall x | i < x < n :: !IsPump(acts[x], k)
    ensures k in ss[n].pumps && ss[n].pumps[k] == ss[i + 1].pumps[k]
  {
    var p := n - 1;
    if i < p {
      PumpStays(ss, acts, cfg, i, p, k);
      TraceInvariant(ss, acts, cfg, p);
      assert Enabled(ss[p], acts[p]) && ss[n] == Do(ss[p], acts[p], cfg);
      OthersLeave(ss[p], acts[p], cfg, k);
    }
  }

  lemma OthersLeave(s: State, a: Action, cfg: Config, k: Sock)
    requires Inv(s, cfg) && Enabled(s, a) && k in s.pumps && !IsPump(a, k)
    ensures k in Do(s, a, cfg).pumps && Do(s, a, cfg).pumps[k] == s.pumps[k]
  {
    match a
    case CancelContext =>
    case SweepTick(_) =>
    case SweeperSeesStop =>
    case ReaderDoes(r) => ReaderLeavesPumps(s, r, cfg, k);
    case PumpDoes(p, act) => PumpsApart(s, p, act, k);
  }

  lemma ReaderLeavesPumps(s: State, r: ReaderAct, cfg: Config, k: Sock)
    requires ReaderOk(s, cfg) && ReaderCan(s, r) && k in s.pumps
    ensures k in ReaderNext(s, r, cfg).pumps && ReaderNext(s, r, cfg).pumps[k] == s.pumps[k]
  {
    match r
    case Insert(now) => assert AfterInsert(s, now, cfg).pumps == s.pumps[s.reader.s := Waiting];
    case Lookup(now) => assert AfterLookup(s, now, cfg).pumps == s.pumps;
    case _ =>
  }

  lemma PumpsApart(s: State, p: Sock, act: PumpAct, k: Sock)
    requires PumpCan(s, p, act) && k in s.pumps && p != k
    ensures k in PumpNext(s, p, act).pumps && PumpNext(s, p, act).pumps[k] == s.pumps[k]
  {
  }

  predicate Again(q: ReaderAct) {
    q.Receive? || q.ReadError?
  }

  /** What the reader may do right after r. */
  predicate ReaderFollows(r: ReaderAct, q: ReaderAct) {
    match r
    case Receive(_) => q.Lookup?
    case Lookup(_) => q.WriteUp? || q.Dial? || q.DialFails? || Again(q)
    case DialFails => Again(q)
    case Dial(_) => q.Insert?
    case Insert(_) => q.WriteUp?
    case CloseRefused => false
    case WriteUp(ok) => if ok then Again(q) else q.CleanUp?
    case CleanUp => Again(q)
    case ReadError => q.DrainDone?
    case DrainDone => q.SweeperStopped?
    case SweeperStopped => q.CloseFinally?
    case CloseFinally => false
  }

  /** The reader's order; no insertion is ever followed by the refusal that the program provides for. */
  lemma ReaderOrder(ss: seq<State>, acts: seq<Action>, cfg: Config, i: nat, j: nat)
    requires IsTrace(ss, acts, cfg) && i < j < |acts| && acts[i].ReaderDoes? && acts[j].ReaderDoes?
    requires forall x | i < x < j :: !acts[x].ReaderDoes?
    ensures ReaderFollows(acts[i].r, acts[j].r)
  {
    assert Enabled(ss[i], acts[i]) && ss[i + 1] == Do(ss[i], acts[i], cfg);
    assert Enabled(ss[j], acts[j]);
    TraceInvariant(ss, acts, cfg, i);
    ReaderStays(ss, acts, cfg, i, j);
    ReaderThen(ss[i], acts[i].r, cfg, ss[i + 1].reader);
    ReaderOpens(ss[j], acts[j].r);
  }

  lemma {:induction false} ReaderStays(ss: seq<State>, acts: seq<Action>, cfg: Config, i: nat, n: nat)
    requires IsTrace(ss, acts, cfg) && i < n <= |acts| && forall x | i < x < n :: !acts[x].ReaderDoes?
    ensures ss[n].reader == ss[i + 1].reader
  {
    var p := n - 1;
    if i < p {
      ReaderStays(ss, acts, cfg, i, p);
      assert Enabled(ss[p], acts[p]) && ss[n] == Do(ss[p], acts[p], cfg);
    }
  }

  /** Where the reader stands after r. */
  predicate After(r: ReaderAct, to: Reader) {
    match r
    case Receive(_) => to.Got?
    case Lookup(_) => to.Writing? || to.NeedsNew? || to.Reading?
    case DialFails => to.Reading?
    case Dial(_) => to.Dialled?
    case Insert(_) => to.Writing?
    case CloseRefused => false
    case WriteUp(ok) => if ok then to.Reading? else to.WriteFailed?
    case CleanUp => to.Reading?
    case ReadError => to.Draining?
    case DrainDone => to.StoppingSweeper?
    case SweeperStopped => to.FinalClose?
    case CloseFinally => to.Returned?
  }

  lemma ReaderThen(s: State, r: ReaderAct, cfg: Config, to: Reader)
    requires Inv(s, cfg) && ReaderCan(s, r) && to == ReaderNext(s, r, cfg).reader
    ensures After(r, to)
  {
    match r
    case Insert(now) => assert AfterInsert(s, now, cfg).reader.Writing?;
    case Lookup(now) => LookupThen(s, now, cfg);
    case _ => OtherThen(s, r, cfg);
  }

  lemma LookupThen(s: State, now: int, cfg: Config)
    requires s.reader.Got?
    ensures After(Lookup(now), AfterLookup(s, now, cfg).reader)
  {
  }

  lemma OtherThen(s: State, r: ReaderAct, cfg: Config)
    requires ReaderCan(s, r) && !r.Insert? && !r.Lookup? && !s.reader.OverCap?
    ensures After(r, ReaderNext(s, r, cfg).reader)
  {
  }

  lemma ReaderOpens(s: State, q: ReaderAct)
    requires ReaderCan(s, q)
    ensures forall r | After(r, s.reader) :: ReaderFollows(r, q)
  {
  }

  /** The sweeper may leave, as long as it is there, exactly once the context is cancelled or the pumps have
      been waited for. */
  lemma SweeperMayStop(ss: seq<State>, acts: seq<Action>, cfg: Config, n: nat)
    requires IsTrace(ss, acts, cfg) && n <= |acts| && ss[n].sweeping
    ensures Enabled(ss[n], SweeperSeesStop) <==> Happened(acts, CancelContext, n) || Happened(acts, ReaderDoes(DrainDone), n)
  {
    StoppedIff(ss, acts, cfg, n);
  }

  ghost predicate Happened(acts: seq<Action>, a: Action, n: nat) {
    exists i | 0 <= i < n && i < |acts| :: acts[i] == a
  }

  lemma {:induction false} StoppedIff(ss: seq<State>, acts: seq<Action>, cfg: Config, n: nat)
    requires IsTrace(ss, acts, cfg) && n <= |acts|
    ensures ss[n].stopped <==> Happened(acts, CancelContext, n)
    ensures ss[n].sweeping ==> (ss[n].reader.StoppingSweeper? <==> Happened(acts, ReaderDoes(DrainDone), n))
  {
    if n > 0 {
      var p := n - 1;
      StoppedIff(ss, acts, cfg, p);
      TraceInvariant(ss, acts, cfg, p);
      assert Enabled(ss[p], acts[p]) && ss[n] == Do(ss[p], acts[p], cfg);
      HappenedMore(acts, CancelContext, p, n);
      HappenedMore(acts, ReaderDoes(DrainDone), p, n);
    }
  }

  lemma HappenedMore(acts: seq<Action>, a: Action, p: nat, n: nat)
    requires 0 < n <= |acts| && p == n - 1
    ensures Happened(acts, a, n) <==> Happened(acts, a, p) || acts[p] == a
  {
  }
}
