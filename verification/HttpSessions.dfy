/** The session table of the HTTP client plugin: what its calls and timeouts do to the sessions, the connection
    count and the pending timeout tasks. Times are in microseconds. */
module HttpSessions {
  import opened Wrappers

  type Handle = nat
  type TaskId = nat

  /** A peer, and what GNUNET_HELLO_address_cmp compares. */
  datatype Address = Address(peer: int, location: int)

  /** A session without a GET connection has get == 0. */
  datatype Session = Session(address: Address, get: nat, timeout: nat, task: Option<TaskId>)

  /** A pending client_session_timeout: the earliest time it can run, and its closure. */
  datatype Pending = Pending(due: nat, session: Handle)

  datatype Connections = Connections(cur: int, max: nat, nextXhr: nat, lastTag: nat)

  datatype Timers = Timers(tasks: map<TaskId, Pending>, nextTask: TaskId)

  datatype Table = Table(sessions: map<Handle, Session>, conns: Connections, timers: Timers, nextHandle: Handle)

  /** HTTP_CLIENT_SESSION_TIMEOUT and GNUNET_CONSTANTS_IDLE_CONNECTION_TIMEOUT. */
  datatype Periods = Periods(session: nat, idle: nat)

  /** A delay as the browser keeps it: whole milliseconds. */
  function Whole(us: nat): (r: nat)
    ensures r <= us < r + 1000 && r % 1000 == 0
  {
    us / 1000 * 1000
  }

  function Remaining(timeout: nat, now: nat): nat { if timeout > now then timeout - now else 0 }

  function Schedule(timers: Timers, h: Handle, now: nat, delay: nat): Timers {
    Timers(timers.tasks[timers.nextTask := Pending(now + Whole(delay), h)], timers.nextTask + 1)
  }

  /** client_delete_session. */
  function Delete(t: Table, h: Handle): Table
    requires h in t.sessions
  {
    var s := t.sessions[h];
    Table(t.sessions - {h},
          if s.get != 0 then t.conns.(cur := t.conns.cur - 1) else t.conns,
          if s.task.Some? then t.timers.(tasks := t.timers.tasks - {s.task.value}) else t.timers,
          t.nextHandle)
  }

  /** client_reschedule_session_timeout: the pending task is left where it is. */
  function Reschedule(t: Table, h: Handle, now: nat, p: Periods): Table
    requires h in t.sessions
  {
    t.(sessions := t.sessions[h := t.sessions[h].(timeout := now + p.idle)])
  }

  /** client_session_timeout, run as task `id`. */
  function Timeout(t: Table, id: TaskId, now: nat): Table
    requires id in t.timers.tasks && t.timers.tasks[id].session in t.sessions
  {
    var h := t.timers.tasks[id].session;
    var left := Remaining(t.sessions[h].timeout, now);
    var t1 := t.(
      timers := t.timers.(tasks := t.timers.tasks - {id}),
      sessions := t.sessions[h := t.sessions[h].(task := None)]);
    if left != 0 then
      t1.(
        timers := Schedule(t1.timers, h, now, left),
        sessions := t1.sessions[h := t1.sessions[h].(task := Some(t1.timers.nextTask))])
    else Delete(t1, h)
  }

  /** The sessions at an address. */
  ghost function AtAddress(sessions: map<Handle, Session>, address: Address): set<Handle> {
    set h | h in sessions && sessions[h].address.location == address.location
  }

  /** A new session with its timeout task; not yet connected. */
  function Enter(t: Table, address: Address, now: nat, p: Periods): Table {
    var h := t.nextHandle;
    Table(t.sessions[h := Session(address, 0, now + p.session, Some(t.timers.nextTask))], t.conns,
          Schedule(t.timers, h, now, p.session), h + 1)
  }

  /** client_connect and client_connect_get. */
  function Connect(t: Table, h: Handle): Table
    requires h in t.sessions
  {
    t.(
      sessions := t.sessions[h := t.sessions[h].(get := t.conns.nextXhr)],
      conns := t.conns.(cur := t.conns.cur + 1, nextXhr := t.conns.nextXhr + 1, lastTag := t.conns.lastTag + 1))
  }

  /** http_client_plugin_get_session where no session is at the address. `network` is whether the address has a
      network type, `valid` whether it can be printed. */
  function Open(t: Table, address: Address, now: nat, network: bool, valid: bool, p: Periods): (Table, Option<Handle>) {
    if t.conns.max <= t.conns.cur || !network then (t, None)
    else
      var t1 := Enter(t, address, now, p);
      if valid then (Connect(t1, t.nextHandle), Some(t.nextHandle)) else (Delete(t1, t.nextHandle), None)
  }

  /** The pending tasks of the sessions that stay. */
  function TasksWithout(tasks: map<TaskId, Pending>, hs: set<Handle>): map<TaskId, Pending> {
    map id | id in tasks && tasks[id].session !in hs :: tasks[id]
  }

  /** Every session of a set is disconnected. */
  ghost function DeleteAll(t: Table, hs: set<Handle>): Table
    requires hs <= t.sessions.Keys
  {
    Table(t.sessions - hs, t.conns.(cur := t.conns.cur - |hs|),
          t.timers.(tasks := TasksWithout(t.timers.tasks, hs)), t.nextHandle)
  }

  ghost function OfPeer(sessions: map<Handle, Session>, peer: int): set<Handle> {
    set h | h in sessions && sessions[h].address.peer == peer
  }

  // ---------------------------------------------------------------- the invariant

  ghost predicate OnePerAddress(sessions: map<Handle, Session>) {
    forall h, k | h in sessions && k in sessions ::
      sessions[h].address.location == sessions[k].address.location ==> h == k
  }

  /** Every session holds a GET of its own, and they are counted. */
  ghost predicate Counted(sessions: map<Handle, Session>, conns: Connections) {
    && conns.cur == |sessions| && conns.cur <= conns.max && conns.nextXhr > 0
    && (forall h | h in sessions :: 0 < sessions[h].get < conns.nextXhr)
    && (forall h, k | h in sessions && k in sessions && sessions[h].get == sessions[k].get :: h == k)
  }

  /** Every session has exactly one pending task, its own, and there are no others. */
  ghost predicate TasksFit(sessions: map<Handle, Session>, timers: Timers) {
    && (forall h | h in sessions ::
          sessions[h].task.Some? && sessions[h].task.value in timers.tasks
          && timers.tasks[sessions[h].task.value].session == h)
    && (forall id | id in timers.tasks ::
          timers.tasks[id].session in sessions && sessions[timers.tasks[id].session].task == Some(id))
    && (forall id | id in timers.tasks :: id < timers.nextTask)
  }

  /** A task is due no later than the timeout of its session, and soon enough for any later activity. */
  ghost predicate Timely(sessions: map<Handle, Session>, timers: Timers, clock: nat, p: Periods) {
    && (forall id | id in timers.tasks && timers.tasks[id].session in sessions ::
          timers.tasks[id].due <= sessions[timers.tasks[id].session].timeout && timers.tasks[id].due <= clock + p.idle)
    && (forall h | h in sessions :: sessions[h].timeout <= clock + p.session || sessions[h].timeout <= clock + p.idle)
  }

  ghost predicate HandlesFit(sessions: map<Handle, Session>, nextHandle: Handle) {
    forall h | h in sessions :: h < nextHandle
  }

  ghost predicate Fits(t: Table) {
    OnePerAddress(t.sessions) && Counted(t.sessions, t.conns) && TasksFit(t.sessions, t.timers)
        && HandlesFit(t.sessions, t.nextHandle)
  }

  function Empty(max: nat): Table { Table(map[], Connections(0, max, 1, 1), Timers(map[], 1), 0) }

  // ---------------------------------------------------------------- what each call keeps

  lemma {:induction false} WholeIsMonotone(a: nat, b: nat)
    requires a <= b
    ensures Whole(a) <= Whole(b)
  {
  }

  lemma {:induction false} RemovalCounts(sessions: map<Handle, Session>, conns: Connections, h: Handle)
    requires Counted(sessions, conns) && h in sessions
    ensures Counted(sessions - {h}, conns.(cur := conns.cur - 1)) && conns.cur > 0
  {
    assert (sessions - {h}).Keys == sessions.Keys - {h};
    assert |sessions.Keys| == |sessions| && |(sessions - {h}).Keys| == |sessions - {h}|;
  }

  lemma {:induction false} RemovalFits(sessions: map<Handle, Session>, timers: Timers, h: Handle)
    requires TasksFit(sessions, timers) && h in sessions
    ensures TasksFit(sessions - {h}, timers.(tasks := timers.tasks - {sessions[h].task.value}))
  {
  }

  lemma {:induction false} RemovalIsTimely(sessions: map<Handle, Session>, timers: Timers, h: Handle, id: TaskId,
          clock: nat, p: Periods)
    requires Timely(sessions, timers, clock, p)
    ensures Timely(sessions - {h}, timers.(tasks := timers.tasks - {id}), clock, p)
  {
  }

  lemma {:induction false} RemovalKeepsKeys(sessions: map<Handle, Session>, nextHandle: Handle, h: Handle)
    requires OnePerAddress(sessions) && HandlesFit(sessions, nextHandle)
    ensures OnePerAddress(sessions - {h}) && HandlesFit(sessions - {h}, nextHandle)
  {
  }

  lemma {:induction false} OwnGet(sessions: map<Handle, Session>, conns: Connections, h: Handle)
    requires Counted(sessions, conns) && h in sessions
    ensures sessions[h].get > 0
  {
  }

  lemma {:induction false} DeleteKeeps(t: Table, h: Handle, clock: nat, p: Periods)
    requires Fits(t) && h in t.sessions
    ensures Fits(Delete(t, h)) && t.conns.cur > 0
    ensures Timely(t.sessions, t.timers, clock, p) ==> Timely(Delete(t, h).sessions, Delete(t, h).timers, clock, p)
  {
    hide OnePerAddress, Counted, TasksFit, Timely, HandlesFit;
    OwnTask(t.sessions, t.timers, h);
    OwnGet(t.sessions, t.conns, h);
    RemovalKeepsKeys(t.sessions, t.nextHandle, h);
    RemovalCounts(t.sessions, t.conns, h);
    RemovalFits(t.sessions, t.timers, h);
    if Timely(t.sessions, t.timers, clock, p) {
      RemovalIsTimely(t.sessions, t.timers, h, t.sessions[h].task.value, clock, p);
    }
  }

  /** The session changes but keeps its address and its GET. */
  lemma {:induction false} UpdateCounts(sessions: map<Handle, Session>, conns: Connections, nextHandle: Handle,
          h: Handle, s: Session)
    requires OnePerAddress(sessions) && Counted(sessions, conns) && HandlesFit(sessions, nextHandle) && h in sessions
    requires s.address == sessions[h].address && s.get == sessions[h].get
    ensures OnePerAddress(sessions[h := s]) && Counted(sessions[h := s], conns)
            && HandlesFit(sessions[h := s], nextHandle)
  {
    var sessions' := sessions[h := s];
    assert sessions'.Keys == sessions.Keys;
    assert |sessions.Keys| == |sessions| && |sessions'.Keys| == |sessions'|;
    assert forall k | k in sessions' ::
             sessions'[k].address == sessions[k].address && sessions'[k].get == sessions[k].get;
  }

  lemma {:induction false} RescheduleFits(sessions: map<Handle, Session>, timers: Timers, h: Handle, now: nat,
          p: Periods)
    requires TasksFit(sessions, timers) && h in sessions
    ensures var sessions' := sessions[h := sessions[h].(timeout := now + p.idle)];
            TasksFit(sessions', timers) && (Timely(sessions, timers, now, p) ==> Timely(sessions', timers, now, p))
  {
  }

  lemma {:induction false} RescheduleKeeps(t: Table, h: Handle, now: nat, p: Periods)
    requires Fits(t) && h in t.sessions
    ensures Fits(Reschedule(t, h, now, p)) && t.sessions[h].task.Some?
    ensures Timely(t.sessions, t.timers, now, p) ==> Timely(Reschedule(t, h, now, p).sessions, t.timers, now, p)
  {
    hide OnePerAddress, Counted, TasksFit, Timely, HandlesFit;
    OwnTask(t.sessions, t.timers, h);
    UpdateCounts(t.sessions, t.conns, t.nextHandle, h, t.sessions[h].(timeout := now + p.idle));
    RescheduleFits(t.sessions, t.timers, h, now, p);
  }

  /** The task of a session gives way to a new one, due before the same timeout. */
  lemma {:induction false} RearmFits(sessions: map<Handle, Session>, timers: Timers, h: Handle, id: TaskId, now: nat)
    requires TasksFit(sessions, timers) && h in sessions && sessions[h].task == Some(id) && now < sessions[h].timeout
    ensures TasksFit(sessions[h := sessions[h].(task := Some(timers.nextTask))],
                     Schedule(timers.(tasks := timers.tasks - {id}), h, now, sessions[h].timeout - now))
  {
    hide Whole;
  }

  lemma {:induction false} RearmIsTimely(sessions: map<Handle, Session>, timers: Timers, h: Handle, id: TaskId,
          now: nat, p: Periods)
    requires h in sessions && now < sessions[h].timeout && Timely(sessions, timers, now, p)
             && Whole(p.session) <= p.idle
    ensures Timely(sessions[h := sessions[h].(task := Some(timers.nextTask))],
                   Schedule(timers.(tasks := timers.tasks - {id}), h, now, sessions[h].timeout - now), now, p)
  {
    var left := sessions[h].timeout - now;
    WholeIsMonotone(left, if p.session < p.idle then p.idle else p.session);
    hide Whole;
    assert Whole(left) <= p.idle && Whole(left) <= left;
  }

  lemma {:induction false} OwnTask(sessions: map<Handle, Session>, timers: Timers, h: Handle)
    requires TasksFit(sessions, timers) && h in sessions
    ensures sessions[h].task.Some? && sessions[h].task.value in timers.tasks
            && timers.tasks[sessions[h].task.value].session == h
  {
  }

  lemma {:induction false} TaskOwner(sessions: map<Handle, Session>, timers: Timers, id: TaskId)
    requires TasksFit(sessions, timers) && id in timers.tasks
    ensures timers.tasks[id].session in sessions && sessions[timers.tasks[id].session].task == Some(id)
  {
  }

  /** The table after a timeout task that came too early. */
  function Rearmed(t: Table, h: Handle, id: TaskId, now: nat): Table
    requires h in t.sessions && now < t.sessions[h].timeout
  {
    Table(t.sessions[h := t.sessions[h].(task := Some(t.timers.nextTask))], t.conns,
          Schedule(t.timers.(tasks := t.timers.tasks - {id}), h, now, t.sessions[h].timeout - now), t.nextHandle)
  }

  /** The session lives on exactly when its timeout has not come; else it is deleted. */
  lemma {:induction false} TimeoutCases(t: Table, id: TaskId, now: nat)
    requires TasksFit(t.sessions, t.timers) && id in t.timers.tasks
    ensures var h := t.timers.tasks[id].session;
            && h in t.sessions && t.sessions[h].task == Some(id)
            && Timeout(t, id, now) == if now < t.sessions[h].timeout then Rearmed(t, h, id, now) else Delete(t, h)
  {
    TaskOwner(t.sessions, t.timers, id);
    hide Schedule, TasksFit;
    var h := t.timers.tasks[id].session;
    var sessions' := t.sessions[h := t.sessions[h].(task := None)];
    assert sessions'[h := sessions'[h].(task := Some(t.timers.nextTask))] ==
           t.sessions[h := t.sessions[h].(task := Some(t.timers.nextTask))];
    assert sessions' - {h} == t.sessions - {h};
  }

  lemma {:induction false} RearmKeeps(t: Table, h: Handle, id: TaskId, now: nat, p: Periods)
    requires Fits(t) && h in t.sessions && t.sessions[h].task == Some(id) && now < t.sessions[h].timeout
    ensures Fits(Rearmed(t, h, id, now))
    ensures Whole(p.session) <= p.idle && Timely(t.sessions, t.timers, now, p) ==>
              Timely(Rearmed(t, h, id, now).sessions, Rearmed(t, h, id, now).timers, now, p)
  {
    hide OnePerAddress, Counted, TasksFit, Timely, HandlesFit, Schedule, Whole;
    UpdateCounts(t.sessions, t.conns, t.nextHandle, h, t.sessions[h].(task := Some(t.timers.nextTask)));
    RearmFits(t.sessions, t.timers, h, id, now);
    if Whole(p.session) <= p.idle && Timely(t.sessions, t.timers, now, p) {
      RearmIsTimely(t.sessions, t.timers, h, id, now, p);
    }
  }

  lemma {:induction false} TimeoutKeeps(t: Table, id: TaskId, now: nat, p: Periods)
    requires Fits(t) && id in t.timers.tasks
    ensures t.timers.tasks[id].session in t.sessions && Fits(Timeout(t, id, now))
    ensures Whole(p.session) <= p.idle && Timely(t.sessions, t.timers, now, p) ==>
              Timely(Timeout(t, id, now).sessions, Timeout(t, id, now).timers, now, p)
  {
    hide OnePerAddress, Counted, TasksFit, Timely, HandlesFit, Whole, Delete, Timeout, Rearmed;
    TimeoutCases(t, id, now);
    var h := t.timers.tasks[id].session;
    if now < t.sessions[h].timeout { RearmKeeps(t, h, id, now, p); } else { DeleteKeeps(t, h, now, p); }
  }

  /** A session that connects below the limit gets a GET number that no other session holds, and the count is
      again the number of sessions, within the limit. */
  lemma {:induction false} EntryCounts(sessions: map<Handle, Session>, conns: Connections, h: Handle, s: Session)
    requires Counted(sessions, conns) && h !in sessions && s.get == conns.nextXhr && conns.cur < conns.max
    ensures s.get != 0 && (forall k | k in sessions :: sessions[k].get != s.get)
    ensures conns.cur + 1 == |sessions[h := s]| <= conns.max
    ensures Counted(sessions[h := s],
            conns.(cur := conns.cur + 1, nextXhr := conns.nextXhr + 1, lastTag := conns.lastTag + 1))
  {
    assert sessions[h := s].Keys == sessions.Keys + {h};
    assert |sessions.Keys| == |sessions| && |sessions[h := s].Keys| == |sessions[h := s]|;
  }

  lemma {:induction false} EntryFits(sessions: map<Handle, Session>, timers: Timers, h: Handle, s: Session, now: nat,
          delay: nat)
    requires TasksFit(sessions, timers) && h !in sessions && s.task == Some(timers.nextTask)
    ensures TasksFit(sessions[h := s], Schedule(timers, h, now, delay))
  {
    hide Whole;
  }

  lemma {:induction false} EntryIsTimely(sessions: map<Handle, Session>, timers: Timers, h: Handle, s: Session,
          now: nat, p: Periods)
    requires TasksFit(sessions, timers) && Timely(sessions, timers, now, p) && h !in sessions
             && s.timeout == now + p.session && Whole(p.session) <= p.idle
    ensures Timely(sessions[h := s], Schedule(timers, h, now, p.session), now, p)
  {
    assert forall id | id in timers.tasks :: timers.tasks[id].session != h;
    hide Whole;
  }

  lemma {:induction false} NewAddress(sessions: map<Handle, Session>, h: Handle, s: Session)
    requires OnePerAddress(sessions) && h !in sessions && AtAddress(sessions, s.address) == {}
    ensures OnePerAddress(sessions[h := s])
  {
    forall k | k in sessions ensures sessions[k].address.location != s.address.location {
      assert k !in AtAddress(sessions, s.address);
    }
  }

  /** A failed open leaves the table as it was, apart from the numbers used up. */
  lemma {:induction false} OpenFails(t: Table, address: Address, now: nat, network: bool, p: Periods)
    requires HandlesFit(t.sessions, t.nextHandle) && TasksFit(t.sessions, t.timers)
    ensures var t' := Open(t, address, now, network, false, p).0;
            t'.sessions == t.sessions && t'.conns == t.conns && t'.timers.tasks == t.timers.tasks
            && t.nextHandle <= t'.nextHandle && t.timers.nextTask <= t'.timers.nextTask
    ensures Open(t, address, now, network, false, p).1.None?
  {
    assert t.nextHandle !in t.sessions && t.timers.nextTask !in t.timers.tasks;
  }

  lemma {:induction false} OpenKeeps(t: Table, address: Address, now: nat, network: bool, valid: bool, p: Periods)
    requires Fits(t) && AtAddress(t.sessions, address) == {}
    ensures Fits(Open(t, address, now, network, valid, p).0)
    ensures Whole(p.session) <= p.idle && Timely(t.sessions, t.timers, now, p) ==>
              var t' := Open(t, address, now, network, valid, p).0; Timely(t'.sessions, t'.timers, now, p)
  {
    hide OnePerAddress, Counted, TasksFit, Timely, HandlesFit, AtAddress, Schedule, Open;
    var h := t.nextHandle;
    var s := Session(address, t.conns.nextXhr, now + p.session, Some(t.timers.nextTask));
    FreshHandle(t.sessions, h, s);
    if valid && t.conns.cur < t.conns.max && network {
      OpenSucceeds(t, address, now, p);
      NewAddress(t.sessions, h, s);
      EntryCounts(t.sessions, t.conns, h, s);
      EntryFits(t.sessions, t.timers, h, s, now, p.session);
      if Whole(p.session) <= p.idle && Timely(t.sessions, t.timers, now, p) {
        EntryIsTimely(t.sessions, t.timers, h, s, now, p);
      }
    } else if t.conns.cur < t.conns.max && network {
      OpenFails(t, address, now, network, p);
      NumbersUsed(t, Open(t, address, now, network, valid, p).0, now, p);
    } else {
      OpenRefused(t, address, now, network, valid, p);
    }
  }

  lemma {:induction false} FreshHandle(sessions: map<Handle, Session>, h: Handle, s: Session)
    requires HandlesFit(sessions, h)
    ensures h !in sessions && HandlesFit(sessions[h := s], h + 1)
  {
  }

  lemma {:induction false} OpenSucceeds(t: Table, address: Address, now: nat, p: Periods)
    requires t.conns.cur < t.conns.max
    ensures var s := Session(address, t.conns.nextXhr, now + p.session, Some(t.timers.nextTask));
            Open(t, address, now, true, true, p) ==
              (Table(t.sessions[t.nextHandle := s],
                  t.conns.(cur := t.conns.cur + 1, nextXhr := t.conns.nextXhr + 1, lastTag := t.conns.lastTag + 1),
                     Schedule(t.timers, t.nextHandle, now, p.session), t.nextHandle + 1),
               Some(t.nextHandle))
  {
    hide Schedule;
    var entered := t.sessions[t.nextHandle := Session(address, 0, now + p.session, Some(t.timers.nextTask))];
    var s := Session(address, t.conns.nextXhr, now + p.session, Some(t.timers.nextTask));
    assert entered[t.nextHandle := s] == t.sessions[t.nextHandle := s];
  }

  lemma {:induction false} NumbersUsed(t: Table, t': Table, clock: nat, p: Periods)
    requires Fits(t) && t'.sessions == t.sessions && t'.conns == t.conns && t'.timers.tasks == t.timers.tasks
    requires t.nextHandle <= t'.nextHandle && t.timers.nextTask <= t'.timers.nextTask
    ensures Fits(t') && (Timely(t.sessions, t.timers, clock, p) ==> Timely(t'.sessions, t'.timers, clock, p))
  {
    hide OnePerAddress, Counted;
  }

  lemma {:induction false} OpenRefused(t: Table, address: Address, now: nat, network: bool, valid: bool, p: Periods)
    requires !network || t.conns.max <= t.conns.cur
    ensures Open(t, address, now, network, valid, p) == (t, None)
  {
  }

  /** Disconnecting one more session, after others. */
  lemma {:induction false} DeleteOneMore(t: Table, hs: set<Handle>, h: Handle)
    requires Fits(t) && hs <= t.sessions.Keys && h in t.sessions && h !in hs
    ensures Delete(DeleteAll(t, hs), h) == DeleteAll(t, hs + {h})
  {
    hide OnePerAddress, HandlesFit, TasksFit, Counted, TasksWithout;
    OwnTask(t.sessions, t.timers, h);
    OwnGet(t.sessions, t.conns, h);
    assert t.sessions - hs - {h} == t.sessions - (hs + {h});
    assert |hs + {h}| == |hs| + 1;
    TasksOfOthers(t.sessions, t.timers, hs, h);
  }

  lemma {:induction false} TasksOfOthers(sessions: map<Handle, Session>, timers: Timers, hs: set<Handle>, h: Handle)
    requires TasksFit(sessions, timers) && h in sessions && h !in hs && sessions[h].task.Some?
    ensures TasksWithout(timers.tasks, hs) - {sessions[h].task.value} == TasksWithout(timers.tasks, hs + {h})
  {
  }

  lemma {:induction false} DeleteNone(t: Table)
    ensures DeleteAll(t, {}) == t
  {
    assert t.sessions - {} == t.sessions;
    assert TasksWithout(t.timers.tasks, {}) == t.timers.tasks;
  }

  /** Without sessions nothing is connected and nothing is pending. */
  lemma {:induction false} DeleteEverything(t: Table)
    requires Fits(t)
    ensures var t' := DeleteAll(t, t.sessions.Keys);
            t'.sessions == map[] && t'.conns.cur == 0 && t'.timers.tasks == map[]
  {
    assert |t.sessions.Keys| == |t.sessions|;
  }

  // ---------------------------------------------------------------- what each call does to whom

  /** The session is as before, and so are the tasks pending for it. */
  ghost predicate Untouched(t: Table, t': Table, h: Handle) {
    && (h in t'.sessions <==> h in t.sessions) && (h in t.sessions ==> t'.sessions[h] == t.sessions[h])
    && forall id | id in t.timers.tasks || id in t'.timers.tasks ::
         PendingFor(t, id, h) == PendingFor(t', id, h)
  }

  /** The earliest time at which the task can run for the session, if it is one of the session's. */
  function PendingFor(t: Table, id: TaskId, h: Handle): Option<nat> {
    if id in t.timers.tasks && t.timers.tasks[id].session == h then Some(t.timers.tasks[id].due) else None
  }

  /** Nothing is left of the session. */
  ghost predicate Gone(t: Table, h: Handle) {
    h !in t.sessions && forall id :: PendingFor(t, id, h).None?
  }

  /** Deleting takes one session with its task and its connection, and touches no other. */
  lemma {:induction false} DeleteTakesOne(t: Table, h: Handle)
    requires Fits(t) && h in t.sessions
    ensures Gone(Delete(t, h), h) && forall k | k != h :: Untouched(t, Delete(t, h), k)
    ensures Delete(t, h).conns == t.conns.(cur := t.conns.cur - 1)
  {
    hide OnePerAddress, HandlesFit;
    OwnTask(t.sessions, t.timers, h);
    OwnGet(t.sessions, t.conns, h);
    hide Counted;
  }

  /** Disconnecting a peer takes exactly the sessions of that peer, each with its task and its connection, and
      touches no session of another. */
  lemma {:induction false} PeerGoes(t: Table, peer: int)
    requires Fits(t)
    ensures var t' := DeleteAll(t, OfPeer(t.sessions, peer));
            && (forall h | h in t.sessions ::
                  if t.sessions[h].address.peer == peer then Gone(t', h) else Untouched(t, t', h))
            && (forall h | h in t'.sessions :: h in t.sessions)
            && var gone := set h | h in t.sessions && t.sessions[h].address.peer == peer;
               t'.conns == t.conns.(cur := t.conns.cur - |gone|)
  {
    hide OnePerAddress, HandlesFit, Counted;
    var t', hs := DeleteAll(t, OfPeer(t.sessions, peer)), OfPeer(t.sessions, peer);
    assert hs == set h | h in t.sessions && t.sessions[h].address.peer == peer;
    forall h | h in t.sessions
      ensures if t.sessions[h].address.peer == peer then Gone(t', h) else Untouched(t, t', h)
    {
    }
  }

  /** Activity moves the timeout of its session to an idle period from now, and nothing else. */
  lemma {:induction false} RescheduleMoves(t: Table, h: Handle, now: nat, p: Periods)
    requires h in t.sessions
    ensures var t' := Reschedule(t, h, now, p);
            && h in t'.sessions && t'.sessions[h].timeout == now + p.idle
            && t'.sessions[h].(timeout := t.sessions[h].timeout) == t.sessions[h]
            && (forall k | k != h :: Untouched(t, t', k)) && t'.(sessions := t.sessions) == t
  {
  }

  /** Opening succeeds exactly below the limit, for an address with a network type that can be printed. Then the
      new session has that address, a GET of its own, a full session period, and one task for its end; no other
      session is touched. Otherwise no session, task or connection is touched. */
  lemma {:induction false} OpenAnswers(t: Table, address: Address, now: nat, network: bool, valid: bool, p: Periods)
    requires Fits(t)
    ensures var (t', r) := Open(t, address, now, network, valid, p);
            if t.conns.cur < t.conns.max && network && valid then
              && r.Some? && r.value !in t.sessions && r.value in t'.sessions && t'.conns.cur == t.conns.cur + 1
              && t'.sessions[r.value].address == address && t'.sessions[r.value].timeout == now + p.session
              && t'.sessions[r.value].get > 0
              && (forall k | k in t.sessions :: t.sessions[k].get != t'.sessions[r.value].get)
              && t'.sessions[r.value].task.Some?
              && PendingFor(t', t'.sessions[r.value].task.value, r.value) == Some(now + Whole(p.session))
              && forall k | k != r.value :: Untouched(t, t', k)
            else
              && r.None? && t'.sessions == t.sessions && t'.conns == t.conns && t'.timers.tasks == t.timers.tasks
  {
    hide OnePerAddress, Whole, Open, Untouched, Counted;
    if t.conns.cur < t.conns.max && network && valid {
      OpenSucceeds(t, address, now, p);
      NewGet(t);
      OthersUntouched(t, Open(t, address, now, network, valid, p).0, now, p);
    } else if t.conns.cur < t.conns.max && network {
      OpenFails(t, address, now, network, p);
    } else {
      OpenRefused(t, address, now, network, valid, p);
    }
  }

  lemma {:induction false} NewGet(t: Table)
    requires Counted(t.sessions, t.conns)
    ensures t.conns.nextXhr > 0 && forall k | k in t.sessions :: t.sessions[k].get != t.conns.nextXhr
  {
  }

  lemma {:induction false} OthersUntouched(t: Table, t': Table, now: nat, p: Periods)
    requires t.nextHandle in t'.sessions && t'.sessions == t.sessions[t.nextHandle := t'.sessions[t.nextHandle]]
    requires TasksFit(t.sessions, t.timers) && t'.timers == Schedule(t.timers, t.nextHandle, now, p.session)
    ensures forall k | k != t.nextHandle :: Untouched(t, t', k)
  {
    hide Whole;
  }
}
