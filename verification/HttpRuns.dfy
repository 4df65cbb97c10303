/** Runs of the HTTP client plugin: its invariant, and when its timeouts end a session. */
module HttpRuns {
  import opened HttpSessions

  datatype Event =
    | DoGetSession(address: Address, network: bool, valid: bool)
    | DoActivity(h: Handle)
    | DoDisconnect(h: Handle)
    | DoDisconnectPeer(peer: int)
    | OnTimeout(id: TaskId)

  /** An event at a time. */
  datatype Timed = Timed(now: nat, ev: Event)

  datatype Plugin = Plugin(table: Table, clock: nat)

  /** Callers and requests name live sessions, tasks do not run before they are due, and time does not run
      backwards. */
  predicate Enabled(w: Plugin, e: Timed) {
    && w.clock <= e.now
    && match e.ev
       case DoActivity(h) => h in w.table.sessions
       case DoDisconnect(h) => h in w.table.sessions
       case OnTimeout(id) =>
         id in w.table.timers.tasks && w.table.timers.tasks[id].due <= e.now
             && w.table.timers.tasks[id].session in w.table.sessions
       case _ => true
  }

  ghost function Next(w: Plugin, e: Timed, p: Periods): Plugin
    requires Enabled(w, e)
  {
    var t := w.table;
    Plugin(match e.ev
           case DoGetSession(address, network, valid) =>
             if AtAddress(t.sessions, address) != {} then t else Open(t, address, e.now, network, valid, p).0
           case DoActivity(h) => Reschedule(t, h, e.now, p)
           case DoDisconnect(h) => Delete(t, h)
           case DoDisconnectPeer(peer) => DeleteAll(t, OfPeer(t.sessions, peer))
           case OnTimeout(id) => Timeout(t, id, e.now),
           e.now)
  }

  ghost predicate Legal(w: Plugin, evs: seq<Timed>, p: Periods)
    decreases |evs|
  {
    evs == [] || (Enabled(w, evs[0]) && Legal(Next(w, evs[0], p), evs[1..], p))
  }

  ghost function After(w: Plugin, evs: seq<Timed>, p: Periods): Plugin
    requires Legal(w, evs, p)
    decreases |evs|
  {
    if evs == [] then w else After(Next(w, evs[0], p), evs[1..], p)
  }

  function Start(max: nat, clock: nat): Plugin { Plugin(Empty(max), clock) }

  // ---------------------------------------------------------------- disconnecting many sessions

  lemma {:induction false} DeleteAllCounts(sessions: map<Handle, Session>, conns: Connections, hs: set<Handle>)
    requires Counted(sessions, conns) && hs <= sessions.Keys
    ensures Counted(sessions - hs, conns.(cur := conns.cur - |hs|))
  {
    assert (sessions - hs).Keys == sessions.Keys - hs;
    assert |sessions.Keys| == |sessions| && |(sessions - hs).Keys| == |sessions - hs|;
  }

  lemma {:induction false} DeleteAllFits(t: Table, hs: set<Handle>)
    requires TasksFit(t.sessions, t.timers) && hs <= t.sessions.Keys
    ensures TasksFit(DeleteAll(t, hs).sessions, DeleteAll(t, hs).timers)
  {
  }

  lemma {:induction false} DeleteAllIsTimely(t: Table, hs: set<Handle>, clock: nat, p: Periods)
    requires Timely(t.sessions, t.timers, clock, p) && hs <= t.sessions.Keys
    ensures Timely(DeleteAll(t, hs).sessions, DeleteAll(t, hs).timers, clock, p)
  {
  }

  lemma {:induction false} DeleteAllKeeps(t: Table, hs: set<Handle>, clock: nat, p: Periods)
    requires Fits(t) && hs <= t.sessions.Keys
    ensures Fits(DeleteAll(t, hs))
    ensures Timely(t.sessions, t.timers, clock, p) ==>
              Timely(DeleteAll(t, hs).sessions, DeleteAll(t, hs).timers, clock, p)
  {
    assert OnePerAddress(t.sessions - hs) && HandlesFit(t.sessions - hs, t.nextHandle) by {
      hide Counted, TasksFit, Timely;
    }
    hide OnePerAddress, Counted, TasksFit, Timely, HandlesFit;
    DeleteAllCounts(t.sessions, t.conns, hs);
    DeleteAllFits(t, hs);
    if Timely(t.sessions, t.timers, clock, p) { DeleteAllIsTimely(t, hs, clock, p); }
  }

  // ---------------------------------------------------------------- the invariant over all runs

  ghost predicate Inv(w: Plugin, p: Periods) {
    Fits(w.table) && (Whole(p.session) <= p.idle ==> Timely(w.table.sessions, w.table.timers, w.clock, p))
  }

  lemma {:induction false} TimelyLater(sessions: map<Handle, Session>, timers: Timers, clock: nat, later: nat,
          p: Periods)
    requires Timely(sessions, timers, clock, p) && clock <= later
    ensures Timely(sessions, timers, later, p)
  {
  }

  lemma {:induction false} NextKeepsInv(w: Plugin, e: Timed, p: Periods)
    requires Inv(w, p) && Enabled(w, e)
    ensures Inv(Next(w, e, p), p)
  {
    hide Fits, Timely, Whole, Open, Reschedule, Delete, DeleteAll, Timeout, AtAddress;
    var t := w.table;
    if Whole(p.session) <= p.idle { TimelyLater(t.sessions, t.timers, w.clock, e.now, p); }
    match e.ev
    case DoGetSession(address, network, valid) =>
      if AtAddress(t.sessions, address) == {} { OpenKeeps(t, address, e.now, network, valid, p); }
    case DoActivity(h) => RescheduleKeeps(t, h, e.now, p); RescheduleKeepsTimers(t, h, e.now, p);
    case DoDisconnect(h) => DeleteKeeps(t, h, e.now, p);
    case DoDisconnectPeer(peer) => DeleteAllKeeps(t, OfPeer(t.sessions, peer), e.now, p);
    case OnTimeout(id) => TimeoutKeeps(t, id, e.now, p);
  }

  lemma {:induction false} RescheduleKeepsTimers(t: Table, h: Handle, now: nat, p: Periods)
    requires h in t.sessions
    ensures Reschedule(t, h, now, p).timers == t.timers
  {
  }

  lemma {:induction false} RunKeepsInv(w: Plugin, evs: seq<Timed>, p: Periods)
    requires Inv(w, p) && Legal(w, evs, p)
    ensures Inv(After(w, evs, p), p)
    decreases |evs|
  {
    hide Inv, Enabled, Next;
    if evs != [] {
      NextKeepsInv(w, evs[0], p);
      RunKeepsInv(Next(w, evs[0], p), evs[1..], p);
    }
  }

  lemma {:induction false} StartFits(max: nat, clock: nat, p: Periods)
    ensures Inv(Start(max, clock), p)
  {
  }

  /** The pending timeout tasks of a session. */
  function TasksOf(tasks: map<TaskId, Pending>, h: Handle): set<TaskId> {
    set id | id in tasks && tasks[id].session == h
  }

  /** In every reachable state: one session per address; the connection count is the number of sessions
      holding a GET, which is all of them, and within the limit; each session has exactly one pending timeout
      task, and no task is pending for a session that is gone. */
  lemma {:induction false} SessionTable(max: nat, clock: nat, evs: seq<Timed>, p: Periods, h: Handle, k: Handle)
    requires Legal(Start(max, clock), evs, p)
    ensures var t := After(Start(max, clock), evs, p).table;
            && (h in t.sessions && k in t.sessions ==>
                  t.sessions[h].address.location == t.sessions[k].address.location ==> h == k)
            && t.conns.cur == |set s | s in t.sessions && t.sessions[s].get != 0|
            && t.conns.cur <= t.conns.max && t.conns.max == max
            && (h in t.sessions ==>
                  t.sessions[h].get != 0 && t.sessions[h].task.Some?
                  && TasksOf(t.timers.tasks, h) == {t.sessions[h].task.value})
            && (h !in t.sessions ==> TasksOf(t.timers.tasks, h) == {})
  {
    StartFits(max, clock, p);
    RunKeepsInv(Start(max, clock), evs, p);
    MaxStays(Start(max, clock), evs, p);
    var t := After(Start(max, clock), evs, p).table;
    hide Legal, After, Timely;
    assert (set s | s in t.sessions && t.sessions[s].get != 0) == t.sessions.Keys;
    assert |t.sessions.Keys| == |t.sessions|;
  }

  lemma {:induction false} MaxStays(w: Plugin, evs: seq<Timed>, p: Periods)
    requires Legal(w, evs, p)
    ensures After(w, evs, p).table.conns.max == w.table.conns.max
    decreases |evs|
  {
    if evs != [] { MaxStays(Next(w, evs[0], p), evs[1..], p); }
  }

  // ---------------------------------------------------------------- when tasks are due

  /** Every pending task is due no later than the timeout of its session. */
  ghost predicate Punctual(t: Table) {
    forall id | id in t.timers.tasks && t.timers.tasks[id].session in t.sessions ::
      t.timers.tasks[id].due <= t.sessions[t.timers.tasks[id].session].timeout
  }

  /** Tasks are punctual in all runs exactly when the session period, in whole milliseconds, is no longer than
      the idle period: activity moves the timeout but not the task. */
  lemma {:induction false} PunctualIff(max: nat, clock: nat, p: Periods)
    requires max > 0
    ensures Whole(p.session) <= p.idle <==>
              forall evs | Legal(Start(max, clock), evs, p) :: Punctual(After(Start(max, clock), evs, p).table)
  {
    if Whole(p.session) <= p.idle {
      forall evs | Legal(Start(max, clock), evs, p) ensures Punctual(After(Start(max, clock), evs, p).table) {
        StartFits(max, clock, p);
        RunKeepsInv(Start(max, clock), evs, p);
        hide Legal, After, Fits;
      }
    } else {
      EarlyActivity(max, clock, p);
    }
  }

  /** A session that is active at once, with the idle period the shorter one. */
  lemma {:induction false} EarlyActivity(max: nat, clock: nat, p: Periods)
    requires max > 0 && p.idle < Whole(p.session)
    ensures exists evs :: Legal(Start(max, clock), evs, p) && !Punctual(After(Start(max, clock), evs, p).table)
  {
    var w, a := Start(max, clock), Address(0, 0);
    var open, act := Timed(clock, DoGetSession(a, true, true)), Timed(clock, DoActivity(0));
    var w1 := Next(w, open, p);
    assert AtAddress(w.table.sessions, a) == {};
    OpenSucceeds(w.table, a, clock, p);
    var w2 := Next(w1, act, p);
    assert Legal(w2, [], p) && After(w2, [], p) == w2;
    assert [act][1..] == [] && Legal(w1, [act], p) && After(w1, [act], p) == w2;
    assert [open, act][1..] == [act] && Legal(w, [open, act], p) && After(w, [open, act], p) == w2;
    assert 1 in w2.table.timers.tasks && w2.table.timers.tasks[1] == Pending(clock + Whole(p.session), 0);
    assert w2.table.sessions[0].timeout == clock + p.idle;
    assert !Punctual(w2.table);
  }

  // ---------------------------------------------------------------- when sessions end

  /** As long as it lives, the session does not time out before `bound`. */
  ghost predicate SafeUntil(t: Table, h: Handle, bound: nat) {
    h < t.nextHandle && (h in t.sessions ==> bound <= t.sessions[h].timeout)
  }

  lemma {:induction false} NextKeepsSafe(w: Plugin, e: Timed, p: Periods, h: Handle, bound: nat)
    requires Inv(w, p) && Enabled(w, e) && SafeUntil(w.table, h, bound) && bound <= e.now + p.idle
    ensures SafeUntil(Next(w, e, p).table, h, bound)
  {
    hide OnePerAddress, Counted, TasksFit, Timely, Whole;
  }

  lemma {:induction false} RunKeepsSafe(w: Plugin, evs: seq<Timed>, p: Periods, h: Handle, bound: nat)
    requires Inv(w, p) && Legal(w, evs, p) && SafeUntil(w.table, h, bound) && bound <= w.clock + p.idle
    ensures SafeUntil(After(w, evs, p).table, h, bound)
    decreases |evs|
  {
    hide Inv, SafeUntil;
    if evs != [] {
      NextKeepsSafe(w, evs[0], p, h, bound);
      NextKeepsInv(w, evs[0], p);
      RunKeepsSafe(Next(w, evs[0], p), evs[1..], p, h, bound);
    }
  }

  /** After activity at a time, the timeout path ends the session only when the full idle period has passed
      since. */
  lemma {:induction false} IdlePeriodPasses(w: Plugin, act: Timed, evs: seq<Timed>, end: Timed, p: Periods, h: Handle)
    requires Inv(w, p) && act.ev == DoActivity(h) && Enabled(w, act) && Legal(Next(w, act, p), evs, p)
    requires var w' := After(Next(w, act, p), evs, p); Enabled(w', end) && end.ev.OnTimeout? && h in w'.table.sessions
    requires h !in Next(After(Next(w, act, p), evs, p), end, p).table.sessions
    ensures act.now + p.idle <= end.now
  {
    NextKeepsInv(w, act, p);
    var w1 := Next(w, act, p);
    ActivityIsSafe(w, act, p, h);
    hide Enabled, Next;
    RunKeepsInv(w1, evs, p);
    RunKeepsSafe(w1, evs, p, h, act.now + p.idle);
    TimeoutEnds(After(w1, evs, p), end, p, h);
  }

  lemma {:induction false} ActivityIsSafe(w: Plugin, act: Timed, p: Periods, h: Handle)
    requires Inv(w, p) && act.ev == DoActivity(h) && Enabled(w, act)
    ensures Next(w, act, p).clock == act.now && SafeUntil(Next(w, act, p).table, h, act.now + p.idle)
  {
    hide OnePerAddress, Counted, TasksFit, Timely, Whole;
  }

  /** A timeout task that takes a session away is its own, and comes when its timeout has come. */
  lemma {:induction false} TimeoutEnds(w: Plugin, end: Timed, p: Periods, h: Handle)
    requires Inv(w, p) && Enabled(w, end) && end.ev.OnTimeout? && h in w.table.sessions
    requires h !in Next(w, end, p).table.sessions
    ensures w.table.timers.tasks[end.ev.id].session == h && w.table.sessions[h].timeout <= end.now
  {
    hide OnePerAddress, Counted, TasksFit, Timely, Whole, HandlesFit;
    TimeoutCases(w.table, end.ev.id, end.now);
  }

  /** The session, as long as it lives, times out at `at`. */
  ghost predicate TimesOutAt(t: Table, h: Handle, at: nat) {
    h < t.nextHandle && (h in t.sessions ==> t.sessions[h].timeout == at)
  }

  lemma {:induction false} NextKeepsTimeout(w: Plugin, e: Timed, p: Periods, h: Handle, at: nat)
    requires Inv(w, p) && Enabled(w, e) && TimesOutAt(w.table, h, at) && e.ev != DoActivity(h)
    ensures TimesOutAt(Next(w, e, p).table, h, at)
  {
    hide OnePerAddress, Counted, TasksFit, Timely, Whole;
  }

  lemma {:induction false} RunKeepsTimeout(w: Plugin, evs: seq<Timed>, p: Periods, h: Handle, at: nat)
    requires Inv(w, p) && Legal(w, evs, p) && TimesOutAt(w.table, h, at)
    requires forall i | 0 <= i < |evs| :: evs[i].ev != DoActivity(h)
    ensures TimesOutAt(After(w, evs, p).table, h, at)
    decreases |evs|
  {
    hide Inv, TimesOutAt;
    if evs != [] {
      NextKeepsTimeout(w, evs[0], p, h, at);
      NextKeepsInv(w, evs[0], p);
      RunKeepsTimeout(Next(w, evs[0], p), evs[1..], p, h, at);
    }
  }

  lemma {:induction false} ActivitySetsTimeout(w: Plugin, act: Timed, p: Periods, h: Handle)
    requires Inv(w, p) && act.ev == DoActivity(h) && Enabled(w, act)
    ensures TimesOutAt(Next(w, act, p).table, h, act.now + p.idle)
  {
    hide OnePerAddress, Counted, TasksFit, Timely, Whole;
  }

  /** After its last activity a session is ended by its timeout task exactly when that runs a full idle period
      later or after; if it runs earlier the session stays, with a task again. */
  lemma {:induction false} IdleSessionEndsIff(w: Plugin, act: Timed, evs: seq<Timed>, end: Timed, p: Periods, h: Handle)
    requires Inv(w, p) && act.ev == DoActivity(h) && Enabled(w, act) && Legal(Next(w, act, p), evs, p)
    requires forall i | 0 <= i < |evs| :: evs[i].ev != DoActivity(h)
    requires var w' := After(Next(w, act, p), evs, p);
             Enabled(w', end) && end.ev.OnTimeout? && w'.table.timers.tasks[end.ev.id].session == h
    ensures var t' := Next(After(Next(w, act, p), evs, p), end, p).table;
            (h !in t'.sessions <==> act.now + p.idle <= end.now) && (h in t'.sessions ==> t'.sessions[h].task.Some?)
  {
    hide Fits, Timely, Whole, Inv, Next, Enabled, Legal, After;
    NextKeepsInv(w, act, p);
    ActivitySetsTimeout(w, act, p, h);
    var w1 := Next(w, act, p);
    RunKeepsInv(w1, evs, p);
    RunKeepsTimeout(w1, evs, p, h, act.now + p.idle);
    TimeoutDecides(After(w1, evs, p), end, p, h);
  }

  lemma {:induction false} TimeoutDecides(w: Plugin, end: Timed, p: Periods, h: Handle)
    requires Inv(w, p) && Enabled(w, end) && end.ev.OnTimeout? && w.table.timers.tasks[end.ev.id].session == h
    ensures h in w.table.sessions
    ensures var t' := Next(w, end, p).table;
            && (h !in t'.sessions <==> w.table.sessions[h].timeout <= end.now)
            && (h in t'.sessions ==> t'.sessions[h].task.Some?)
  {
    hide OnePerAddress, Counted, TasksFit, Timely, Whole, HandlesFit, Schedule;
    TimeoutCases(w.table, end.ev.id, end.now);
  }

  /** A new session is not timed out before the shorter of the two periods. */
  lemma {:induction false} NewSessionLives(w: Plugin, open: Timed, evs: seq<Timed>, end: Timed, p: Periods, h: Handle)
    requires Inv(w, p) && open.ev.DoGetSession? && Enabled(w, open) && Legal(Next(w, open, p), evs, p)
    requires h !in w.table.sessions && h in Next(w, open, p).table.sessions
    requires var w' := After(Next(w, open, p), evs, p); Enabled(w', end) && end.ev.OnTimeout? && h in w'.table.sessions
    requires h !in Next(After(Next(w, open, p), evs, p), end, p).table.sessions
    ensures open.now + (if p.session < p.idle then p.session else p.idle) <= end.now
  {
    NextKeepsInv(w, open, p);
    var w1 := Next(w, open, p);
    var bound := open.now + if p.session < p.idle then p.session else p.idle;
    OpeningIsSafe(w, open, p, h);
    hide Enabled, Next;
    RunKeepsInv(w1, evs, p);
    RunKeepsSafe(w1, evs, p, h, bound);
    TimeoutEnds(After(w1, evs, p), end, p, h);
  }

  lemma {:induction false} OpeningIsSafe(w: Plugin, open: Timed, p: Periods, h: Handle)
    requires Inv(w, p) && open.ev.DoGetSession? && Enabled(w, open) && h !in w.table.sessions
             && h in Next(w, open, p).table.sessions
    ensures Next(w, open, p).clock == open.now && SafeUntil(Next(w, open, p).table, h, open.now + p.session)
  {
    hide OnePerAddress, Counted, TasksFit, Timely, Whole, AtAddress;
  }

  /** A new session without activity is ended by its timeout task exactly when that runs a full session period
      after its opening or later. */
  lemma {:induction false} UntouchedSessionEndsIff(w: Plugin, open: Timed, evs: seq<Timed>, end: Timed, p: Periods,
          h: Handle)
    requires Inv(w, p) && open.ev.DoGetSession? && Enabled(w, open) && Legal(Next(w, open, p), evs, p)
    requires h !in w.table.sessions && h in Next(w, open, p).table.sessions
    requires forall i | 0 <= i < |evs| :: evs[i].ev != DoActivity(h)
    requires var w' := After(Next(w, open, p), evs, p);
             Enabled(w', end) && end.ev.OnTimeout? && w'.table.timers.tasks[end.ev.id].session == h
    ensures var t' := Next(After(Next(w, open, p), evs, p), end, p).table;
            && (h !in t'.sessions <==> open.now + p.session <= end.now)
            && (h in t'.sessions ==> t'.sessions[h].task.Some?)
  {
    hide Fits, Timely, Whole, Inv, Next, Enabled, Legal, After;
    NextKeepsInv(w, open, p);
    OpeningSetsTimeout(w, open, p, h);
    var w1 := Next(w, open, p);
    RunKeepsInv(w1, evs, p);
    RunKeepsTimeout(w1, evs, p, h, open.now + p.session);
    TimeoutDecides(After(w1, evs, p), end, p, h);
  }

  lemma {:induction false} OpeningSetsTimeout(w: Plugin, open: Timed, p: Periods, h: Handle)
    requires Inv(w, p) && open.ev.DoGetSession? && Enabled(w, open)
    requires h !in w.table.sessions && h in Next(w, open, p).table.sessions
    ensures TimesOutAt(Next(w, open, p).table, h, open.now + p.session)
  {
    hide OnePerAddress, Counted, TasksFit, Timely, Whole, AtAddress;
  }
}
