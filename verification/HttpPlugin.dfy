/** The HTTP client plugin as the source runs it, on session structs that are updated in place. */
module HttpPlugin {
  import opened Wrappers
  import opened HttpSessions
  import HttpRuns

  /** struct GNUNET_ATS_Session; `handle` stands for its address in memory. */
  class AtsSession {
    const handle: Handle
    const address: Address
    var get: nat
    var timeout: nat
    var timeoutTask: Option<TaskId>

    constructor (handle: Handle, address: Address, timeout: nat)
      ensures this.handle == handle && View() == Session(address, 0, timeout, None)
    {
      this.handle, this.address, this.timeout := handle, address, timeout;
      get, timeoutTask := 0, None;
    }

    ghost function View(): Session
      reads this
    {
      Session(address, get, timeout, timeoutTask)
    }
  }

  /** struct HTTP_Client_Plugin, with the scheduler's tasks that are its own. */
  class Plugin {
    const periods: Periods
    var sessions: map<Handle, AtsSession>
    var conns: Connections
    var timers: Timers
    var nextHandle: Handle

    /** Every struct is where its handle says. */
    ghost predicate Placed()
      reads this, sessions.Values
    {
      forall h | h in sessions :: sessions[h].handle == h
    }

    ghost function View(): Table
      reads this, sessions.Values
    {
      Table(map h | h in sessions :: sessions[h].View(), conns, timers, nextHandle)
    }

    ghost predicate Valid()
      reads this, sessions.Values
    {
      Placed() && Fits(View())
    }

    predicate Holds(s: AtsSession)
      reads this
    {
      s.handle in sessions && sessions[s.handle] == s
    }

    constructor (max: nat, periods: Periods)
      ensures Valid() && View() == Empty(max) && this.periods == periods
    {
      this.periods := periods;
      sessions, conns, timers, nextHandle := map[], Connections(0, max, 1, 1), Timers(map[], 1), 0;
      new;
      HttpRuns.StartFits(max, 0, periods);
    }

    method ClientDeleteSession(s: AtsSession)
      requires Placed() && Holds(s)
      modifies this, s
      ensures Placed() && sessions == old(sessions) - {s.handle}
      ensures View() == Delete(old(View()), s.handle)
    {
      if s.timeoutTask.Some? {
        timers := timers.(tasks := timers.tasks - {s.timeoutTask.value});
        s.timeoutTask := None;
        s.timeout := 0;
      }
      sessions := sessions - {s.handle};
      if s.get != 0 {
        conns := conns.(cur := conns.cur - 1);
        s.get := 0;
      }
      assert View().sessions == old(View()).sessions - {s.handle};
    }

    /** The transport service is told first; what it does then is not part of this model. */
    method SessionDisconnect(s: AtsSession)
      requires Valid() && Holds(s)
      modifies this, s
      ensures Valid() && View() == Delete(old(View()), s.handle) && sessions == old(sessions) - {s.handle}
    {
      DeleteKeeps(View(), s.handle, 0, periods);
      hide Fits;
      ClientDeleteSession(s);
    }

    /** The map's iteration over some of its sessions, with destroy_session_cb. */
    method DestroySessions(hs: set<Handle>)
      requires Valid() && hs <= sessions.Keys
      modifies this, sessions.Values
      ensures Valid() && View() == DeleteAll(old(View()), hs)
    {
      hide Fits, Delete, DeleteAll;
      var rest := hs;
      DeleteNone(View());
      assert hs - rest == {};
      while rest != {}
        invariant Valid() && rest <= hs && sessions == old(sessions) - (hs - rest)
        invariant View() == DeleteAll(old(View()), hs - rest)
        decreases rest
      {
        var h :| h in rest;
        DeleteOneMore(old(View()), hs - rest, h);
        assert hs - (rest - {h}) == hs - rest + {h};
        SessionDisconnect(sessions[h]);
        rest := rest - {h};
      }
      assert hs - rest == hs;
    }

    method PeerDisconnect(target: int)
      requires Valid()
      modifies this, sessions.Values
      ensures Valid() && View() == DeleteAll(old(View()), OfPeer(old(View()).sessions, target))
    {
      var hs := set h | h in sessions && sessions[h].address.peer == target;
      assert hs == OfPeer(View().sessions, target);
      DestroySessions(hs);
    }

    /** What plugin shutdown does before it frees the plugin. */
    method Done()
      requires Valid()
      modifies this, sessions.Values
      ensures View().sessions == map[] && conns.cur == 0 && timers.tasks == map[]
    {
      DeleteEverything(View());
      assert View().sessions.Keys == sessions.Keys;
      DestroySessions(sessions.Keys);
    }

    method RescheduleSessionTimeout(s: AtsSession, now: nat)
      requires Valid() && Holds(s)
      modifies s
      ensures Valid() && View() == Reschedule(old(View()), s.handle, now, periods)
    {
      hide Fits, Timely;
      RescheduleKeeps(View(), s.handle, now, periods);
      assert s.timeoutTask.Some?;
      assert forall h | h in sessions && h != s.handle :: sessions[h] != s;
      s.timeout := now + periods.idle;
      assert View().sessions == old(View()).sessions[s.handle := s.View()];
    }

    /** GNUNET_SCHEDULER_add_delayed with client_session_timeout. */
    method AddDelayed(s: AtsSession, now: nat, delay: nat)
      modifies this`timers, s`timeoutTask
      ensures timers == Schedule(old(timers), s.handle, now, delay) && s.timeoutTask == Some(old(timers.nextTask))
    {
      s.timeoutTask := Some(timers.nextTask);
      timers := Timers(timers.tasks[timers.nextTask := Pending(now + delay / 1000 * 1000, s.handle)],
          timers.nextTask + 1);
    }

    /** client_session_timeout, run as task `id`. */
    method SessionTimeout(id: TaskId, now: nat)
      requires Valid() && id in timers.tasks
      modifies this, sessions.Values
      ensures Valid() && old(id in timers.tasks && timers.tasks[id].session in View().sessions)
      ensures View() == Timeout(old(View()), id, now)
    {
      hide OnePerAddress, Counted, TasksFit, HandlesFit, Timely, Schedule, Whole, Delete;
      TimeoutKeeps(View(), id, now, periods);
      hide Fits;
      var s := sessions[timers.tasks[id].session];
      assert forall h | h in sessions && h != s.handle :: sessions[h] != s;
      timers := timers.(tasks := timers.tasks - {id});
      s.timeoutTask := None;
      assert View().sessions == old(View()).sessions[s.handle := s.View()];
      label Cleared:
      var left := Remaining(s.timeout, now);
      if left != 0 {
        AddDelayed(s, now, left);
        assert View().sessions == old@Cleared(View()).sessions[s.handle := s.View()];
        return;
      }
      ClientDeleteSession(s);
    }

    /** The session at an address, found by looking at all of them. */
    method LookupSession(address: Address) returns (ret: AtsSession?)
      requires Valid()
      ensures ret == null <==> AtAddress(View().sessions, address) == {}
      ensures ret != null ==> Holds(ret) && AtAddress(View().sessions, address) == {ret.handle}
      ensures ret != null ==> ret.address.location == address.location
      ensures ret == null ==> forall h | h in sessions :: sessions[h].address.location != address.location
    {
      var rest := sessions.Keys;
      while rest != {}
        invariant rest <= sessions.Keys
        invariant forall h | h in sessions && h !in rest :: sessions[h].address.location != address.location
        decreases rest
      {
        var h :| h in rest;
        rest := rest - {h};
        if sessions[h].address.location == address.location {
          assert h in AtAddress(View().sessions, address);
          return sessions[h];
        }
      }
      assert AtAddress(View().sessions, address) == {};
      ret := null;
    }

    /** The number is new to every session whose own is below the next one. */
    method ClientConnectGet(s: AtsSession)
      modifies this`conns, s`get
      ensures forall k | k in sessions && sessions[k] != s ::
                old(sessions[k].get < conns.nextXhr) ==> sessions[k].get < s.get
      ensures old(conns.cur < conns.max) ==> conns.cur <= conns.max
      ensures s.get == old(conns.nextXhr)
              && conns == old(conns).(cur := old(conns).cur + 1, nextXhr := old(conns).nextXhr + 1)
    {
      s.get := conns.nextXhr;
      conns := conns.(cur := conns.cur + 1, nextXhr := conns.nextXhr + 1);
    }

    method ClientConnect(s: AtsSession, valid: bool) returns (ok: bool)
      modifies this`conns, s`get
      ensures ok == valid
      ensures !valid ==> s.get == old(s.get) && conns == old(conns)
      ensures valid ==> s.get == old(conns.nextXhr)
      ensures valid ==>
                conns == old(conns.(cur := conns.cur + 1, nextXhr := conns.nextXhr + 1, lastTag := conns.lastTag + 1))
    {
      if !valid { return false; }
      conns := conns.(lastTag := conns.lastTag + 1);
      ClientConnectGet(s);
      ok := true;
    }

    /** The part of get_session that makes the struct and puts it into the map. */
    method NewSession(address: Address, now: nat) returns (s: AtsSession)
      requires Placed() && nextHandle !in sessions
      modifies this
      ensures fresh(s) && Placed() && Holds(s) && s.handle == old(nextHandle)
      ensures sessions == old(sessions)[s.handle := s] && View() == Enter(old(View()), address, now, periods)
    {
      hide Schedule, Whole;
      s := new AtsSession(nextHandle, address, now + periods.session);
      nextHandle := nextHandle + 1;
      AddDelayed(s, now, periods.session);
      assert s.View() == Session(address, 0, now + periods.session, Some(old(timers.nextTask)));
      assert forall h | h in sessions :: unchanged(sessions[h]);
      sessions := sessions[s.handle := s];
      assert View().sessions == old(View()).sessions[s.handle := s.View()];
    }

    /** The part of get_session that connects, or takes the session away again. */
    method Initiate(s: AtsSession, valid: bool) returns (connected: bool)
      requires Placed() && Holds(s)
      modifies this, s
      ensures Placed() && connected == valid && (valid ==> Holds(s))
      ensures View() == if valid then Connect(old(View()), s.handle) else Delete(old(View()), s.handle)
    {
      hide Delete;
      assert forall h | h in sessions && h != s.handle :: sessions[h] != s;
      connected := ClientConnect(s, valid);
      assert View().sessions == old(View()).sessions[s.handle := s.View()];
      if !connected {
        assert View() == old(View());
        ClientDeleteSession(s);
      }
    }

    /** The session at the address, if there is one, and nothing has changed; else what opening one gives. */
    ghost predicate Obtained(before: Table, after: Table, h: Option<Handle>,
            address: Address, now: nat, network: bool, valid: bool)
    {
      if AtAddress(before.sessions, address) != {} then
        after == before && h.Some? && h.value in AtAddress(before.sessions, address)
      else
        (after, h) == Open(before, address, now, network, valid, periods)
    }

    method GetSession(address: Address, now: nat, network: bool, valid: bool) returns (s: AtsSession?)
      requires Valid()
      modifies this
      ensures Valid() && (s != null ==> Holds(s))
      ensures Obtained(old(View()), View(), if s == null then None else Some(s.handle), address, now, network, valid)
    {
      hide OnePerAddress, Counted, TasksFit, Timely, Schedule, Whole, AtAddress, Delete;
      s := LookupSession(address);
      if s != null { return; }
      OpenKeeps(View(), address, now, network, valid, periods);
      FreshHandle(View().sessions, nextHandle, Session(address, 0, 0, None));
      hide Fits, HandlesFit, Enter;
      if conns.max <= conns.cur { return; }
      if !network { return; }
      s := NewSession(address, now);
      var connected := Initiate(s, valid);
      if !connected { return null; }
    }
  }
}
