/** What holds over every run of the event loop. */
module EventLoopSafety {
  import opened Wrappers
  import opened EventLoop
  import opened EventLoopRuns

  // ---------------------------------------------------------------- whole runs

  lemma {:induction false} InitialInv()
    ensures Inv(INITIAL)
  {
  }

  lemma {:induction false} RunKeepsInv(st: State, evs: seq<Event>)
    requires Inv(st) && Legal(st, evs)
    ensures Inv(After(st, evs))
    decreases |evs|
  {
    hide Inv, Enabled, Next;
    if evs != [] {
      NextKeepsInv(st, evs[0]);
      RunKeepsInv(Next(st, evs[0]), evs[1..]);
    }
  }

  /** In every reachable state, a socket with a read task and something to read has that task's timer
      armed, and the timer will enter the handler registered with the socket. */
  lemma {:induction false} NoLostWakeup(evs: seq<Event>, s: Descriptor)
    requires Legal(INITIAL, evs)
    ensures var st := After(INITIAL, evs);
            s in st.net.sockets && st.net.sockets[s].task.Some? && Ready(st.net, s) ==>
              var id := st.net.sockets[s].task.value;
              id in st.sched.timers
              && TimerFires(st, id).past.fates ==
                 st.past.fates + multiset{Ran(id, st.net.sockets[s].handler, st.net.sockets[s].cls)}
  {
    hide Inv, Legal, After, TimerFires;
    InitialInv();
    RunKeepsInv(INITIAL, evs);
    ReadyReader(After(INITIAL, evs), s);
  }

  lemma {:induction false} ReadyReader(st: State, s: Descriptor)
    requires Inv(st)
    ensures s in st.net.sockets && st.net.sockets[s].task.Some? && Ready(st.net, s) ==>
              var id := st.net.sockets[s].task.value;
              id in st.sched.timers
              && TimerFires(st, id).past.fates ==
                 st.past.fates + multiset{Ran(id, st.net.sockets[s].handler, st.net.sockets[s].cls)}
  {
    if s in st.net.sockets && st.net.sockets[s].task.Some? && Ready(st.net, s) {
      var id := st.net.sockets[s].task.value;
      ReaderOf(st, s);
      assert Runnable(st.sched, st.net, id);
      assert id in st.sched.timers by {
        hide Coherent, Known, HandlersFit, TimersFit, Conserved, KindsFit, DescriptorsFit;
      }
      hide Inv;
    }
  }

  /** In every reachable state the task table and the socket table agree, so a handler, which is entered
      at the end of a step, finds them in agreement. */
  lemma {:induction false} CoherentRuns(evs: seq<Event>, id: TaskId, s: Descriptor)
    requires Legal(INITIAL, evs)
    ensures var st := After(INITIAL, evs);
            (id in st.sched.tasks && st.sched.tasks[id].socket == Some(s)) <==>
                (s in st.net.sockets && st.net.sockets[s].task == Some(id))
  {
    InitialInv();
    RunKeepsInv(INITIAL, evs);
  }

  /** Conservation of tasks over every run: whatever was scheduled is pending, ran once, or was cancelled
      once, exclusively, and ran with the handler and closure it was scheduled with. */
  lemma {:induction false} TasksConserved(evs: seq<Event>, id: TaskId)
    requires Legal(INITIAL, evs)
    ensures var st := After(INITIAL, evs);
            && (id in st.past.scheduled ==>
                  (if id in st.sched.tasks then 1 else 0)
                  + st.past.fates[RanFate(st.past.scheduled, id)]
                  + st.past.fates[CancelledFate(st.past.scheduled, id)] == 1)
            && (forall h, c | Ran(id, h, c) in st.past.fates ::
                  id in st.past.scheduled && st.past.scheduled[id] == (h, c))
            && (forall c | Cancelled(id, c) in st.past.fates :: id in st.past.scheduled && st.past.scheduled[id].1 == c)
  {
    InitialInv();
    RunKeepsInv(INITIAL, evs);
  }

  lemma {:induction false} FreshHandle(st: State)
    requires Inv(st)
    ensures st.sched.nextTimer !in st.past.scheduled && st.sched.nextTimer !in st.sched.tasks
            && st.sched.nextTimer !in st.sched.timers
  {
  }

  /** The past is not rewritten. */
  ghost predicate Extends(scheduled: Schedule, fates: multiset<Fate>, scheduled': Schedule, fates': multiset<Fate>) {
    && fates <= fates'
    && forall id | id in scheduled :: id in scheduled' && scheduled'[id] == scheduled[id]
  }

  lemma {:induction false} NextExtends(st: State, ev: Event)
    requires Inv(st) && Enabled(st, ev)
    ensures Extends(st.past.scheduled, st.past.fates, Next(st, ev).past.scheduled, Next(st, ev).past.fates)
  {
    FreshHandle(st);
    hide Inv, Enabled, Extends, Ready, CreateSocket, ConnectSocket, SendTo, CloseSocket, BindSocket, ListenOn,
        AcceptOn, Recv, Wake;
    ExtendsSelf(st);
    match ev
    case DoAddDelayed(handler, cls) => ArmExtends(st, Delayed(handler, cls), Task(cls, None));
    case DoAddRead(desc, handler, cls) => ArmExtends(st, Reader(desc, handler, cls), Task(cls, Some(desc)));
    case DoAddWrite(_, handler, cls) => ArmExtends(st, Writer(handler, cls), Task(cls, None));
    case DoCancel(id) => if id in st.sched.tasks { FateExtends(st, Cancelled(id, st.sched.tasks[id].cls)); }
    case OnTimer(id) => FateExtends(st, Ran(id, st.sched.timers[id].handler, st.sched.timers[id].cls));
    case OnMessage(desc, packet) => WakeExtends(st, Push(st, desc, packet), desc);
    case OnConnect(connection) =>
      var st1 := st.(net := st.net.(incoming := st.net.incoming + [connection]));
      if st.net.listening.Some? { WakeExtends(st, st1, st.net.listening.value); }
    case _ => QuietExtends(st, ev);
  }

  lemma {:induction false} QuietExtends(st: State, ev: Event)
    requires Enabled(st, ev)
             && (ev.DoCreate? || ev.DoConnect? || ev.DoSend? || ev.DoClose? || ev.DoBind? || ev.DoListen?
                 || ev.DoAccept? || ev.DoRecv?)
    ensures SameTasks(st, Next(st, ev))
  {
    hide CreateSocket, ConnectSocket, SendTo, CloseSocket, BindSocket, ListenOn, AcceptOn, Recv, SameTasks, Enabled;
  }

  lemma {:induction false} ExtendsSelf(st: State)
    ensures Extends(st.past.scheduled, st.past.fates, st.past.scheduled, st.past.fates)
  {
  }

  lemma {:induction false} ArmExtends(st: State, timer: Timer, task: Task)
    requires st.sched.nextTimer !in st.past.scheduled
    ensures Extends(st.past.scheduled, st.past.fates, Arm(st, timer, task).past.scheduled,
            Arm(st, timer, task).past.fates)
  {
  }

  lemma {:induction false} FateExtends(st: State, f: Fate)
    ensures Extends(st.past.scheduled, st.past.fates, st.past.scheduled, st.past.fates + multiset{f})
  {
  }

  lemma {:induction false} WakeExtends(st: State, st1: State, desc: Descriptor)
    requires st1.past.scheduled == st.past.scheduled && st1.past.fates == st.past.fates
    ensures Extends(st.past.scheduled, st.past.fates, Wake(st1, desc).past.scheduled, Wake(st1, desc).past.fates)
  {
    ExtendsSelf(st);
    if desc in st1.net.sockets && st1.net.sockets[desc].task.Some? {
      FateExtends(st, Ran(st1.net.sockets[desc].task.value, st1.net.sockets[desc].handler, st1.net.sockets[desc].cls));
    }
  }

  lemma {:induction false} RunExtends(st: State, evs: seq<Event>)
    requires Inv(st) && Legal(st, evs)
    ensures Extends(st.past.scheduled, st.past.fates, After(st, evs).past.scheduled, After(st, evs).past.fates)
    decreases |evs|
  {
    if evs != [] {
      NextExtends(st, evs[0]);
      NextKeepsInv(st, evs[0]);
      hide Inv, Enabled, Next;
      RunExtends(Next(st, evs[0]), evs[1..]);
    }
  }

  /** Cancelling a pending task gives its closure back, and in no later state has its handler been entered. */
  lemma {:induction false} CancelledNeverRuns(evs: seq<Event>, id: TaskId, more: seq<Event>)
    requires Legal(INITIAL, evs) && id in After(INITIAL, evs).sched.tasks
    requires Legal(Cancel(After(INITIAL, evs), id).state, more)
    ensures var st := After(INITIAL, evs);
            && id in st.past.scheduled && Cancel(st, id).value == st.past.scheduled[id].1
            && forall h, c :: Ran(id, h, c) !in After(Cancel(st, id).state, more).past.fates
  {
    InitialInv();
    RunKeepsInv(INITIAL, evs);
    CancelledStays(After(INITIAL, evs), id, more);
  }

  lemma {:induction false} CancelledStays(st: State, id: TaskId, more: seq<Event>)
    requires Inv(st) && id in st.sched.tasks && Legal(Cancel(st, id).state, more)
    ensures id in st.past.scheduled && Cancel(st, id).value == st.past.scheduled[id].1
    ensures forall h, c :: Ran(id, h, c) !in After(Cancel(st, id).state, more).past.fates
  {
    assert id in st.past.scheduled && st.sched.tasks[id].cls == st.past.scheduled[id].1;
    var cancelled := Cancel(st, id).state;
    var f := CancelledFate(st.past.scheduled, id);
    assert f in cancelled.past.fates && cancelled.past.scheduled == st.past.scheduled;
    hide Cancel, Legal, After;
    CancelKeepsInv(st, id);
    RunExtends(cancelled, more);
    RunKeepsInv(cancelled, more);
    var end := After(cancelled, more);
    assert f in end.past.fates;
    SettledOnce(end, id, f);
  }

  lemma {:induction false} SettledOnce(st: State, id: TaskId, f: Fate)
    requires Inv(st) && id in st.past.scheduled && f == CancelledFate(st.past.scheduled, id) && f in st.past.fates
    ensures forall h, c :: Ran(id, h, c) !in st.past.fates
  {
    assert st.past.fates[RanFate(st.past.scheduled, id)] == 0;
  }

  /** Cancelling a task that has run or was cancelled returns 0; it only disarms a timer that would have
      done nothing. */
  lemma {:induction false} StaleCancel(st: State, id: TaskId)
    requires Inv(st) && id !in st.sched.tasks
    ensures Cancel(st, id).value == 0 && Cancel(st, id).state == Disarm(st, id)
    ensures id in st.sched.timers ==> TimerFires(st, id) == Cancel(st, id).state
  {
    assert id in st.sched.timers ==> st.sched.timers[id].Reader?;
  }

  /** What the handler of a read task on s finds: something to read, and no task, so it may read, register
      again, or close. */
  ghost predicate FreeFor(st: State, s: Descriptor) {
    && Ready(st.net, s)
    && (forall handler, cls :: Enabled(st, DoAddRead(s, handler, cls)))
    && Enabled(st, DoClose(s)) && (st.net.listening != Some(s) ==> forall length :: Enabled(st, DoRecv(s, length)))
  }

  lemma {:induction false} EnteredIsFree(st: State, id: TaskId, s: Descriptor, handler: int, cls: int)
    requires s in st.net.sockets && (st.net.sockets[s].queue.Some? <==> st.net.listening != Some(s))
    requires Ready(st.net, s)
    ensures FreeFor(Enter(st, id, Some(s), handler, cls), s)
  {
  }

  ghost predicate EnteredFree(st: State, st': State, id: TaskId, s: Descriptor)
    requires s in st.net.sockets
  {
    FreeFor(st', s) && Ran(id, st.net.sockets[s].handler, st.net.sockets[s].cls) in st'.past.fates
  }

  lemma {:induction false} TimerHandlerIsFree(st: State, id: TaskId, s: Descriptor)
    requires Inv(st) && id in st.sched.tasks && st.sched.tasks[id].socket == Some(s) && id in st.sched.timers
             && id !in TimerFires(st, id).sched.tasks
    ensures s in st.net.sockets && EnteredFree(st, TimerFires(st, id), id, s)
  {
    SocketOf(st, id, s);
    hide Inv, FreeFor;
    EnteredIsFree(Disarm(st, id), id, s, st.net.sockets[s].handler, st.net.sockets[s].cls);
  }

  lemma {:induction false} MessageHandlerIsFree(st: State, id: TaskId, s: Descriptor, packet: Packet)
    requires Inv(st) && id in st.sched.tasks && st.sched.tasks[id].socket == Some(s) && st.net.sockets[s].queue.Some?
    ensures EnteredFree(st, MessageArrives(st, s, packet), id, s)
  {
    SocketOf(st, id, s);
    hide Inv, FreeFor;
    EnteredIsFree(Push(st, s, packet), id, s, st.net.sockets[s].handler, st.net.sockets[s].cls);
  }

  lemma {:induction false} ConnectHandlerIsFree(st: State, id: TaskId, s: Descriptor, connection: Connection)
    requires Inv(st) && id in st.sched.tasks && st.sched.tasks[id].socket == Some(s) && st.net.listening == Some(s)
    ensures s in st.net.sockets && EnteredFree(st, ConnectArrives(st, connection), id, s)
  {
    SocketOf(st, id, s);
    hide Inv, FreeFor;
    EnteredIsFree(st.(net := st.net.(incoming := st.net.incoming + [connection])), id, s, st.net.sockets[s].handler,
        st.net.sockets[s].cls);
  }

  /** An event takes a read task from the table only by its own timer, its own socket's message, or a
      connection to its own listening socket. */
  lemma {:induction false} WhoWakes(st: State, ev: Event, id: TaskId, s: Descriptor)
    requires Inv(st) && Enabled(st, ev) && id in st.sched.tasks && st.sched.tasks[id].socket == Some(s)
             && id !in Next(st, ev).sched.tasks
    ensures match ev
            case OnTimer(t) => t == id
            case OnMessage(desc, _) => desc == s
            case OnConnect(_) => st.net.listening == Some(s)
            case DoCancel(t) => t == id
            case _ => false
  {
    SocketOf(st, id, s);
    hide Inv, Enabled, CreateSocket, ConnectSocket, SendTo, CloseSocket, BindSocket, ListenOn, AcceptOn, Recv, Arm,
        MessageArrives, ConnectArrives, TimerFires, Cancel, AddRead, AddDelayed, AddWrite;
    match ev
    case OnTimer(t) => TimerLeaves(st, t, id);
    case OnMessage(desc, packet) => MessageLeaves(st, desc, packet, id, s);
    case OnConnect(connection) => ConnectLeaves(st, connection, id, s);
    case DoCancel(t) => CancelLeaves(st, t, id);
    case _ => CallKeeps(st, ev, id);
  }

  lemma {:induction false} CallKeeps(st: State, ev: Event, id: TaskId)
    requires Enabled(st, ev) && id in st.sched.tasks && !ev.DoCancel? && !ev.OnTimer? && !ev.OnMessage?
             && !ev.OnConnect?
    ensures id in Next(st, ev).sched.tasks
  {
    if ev.DoAddDelayed? || ev.DoAddRead? || ev.DoAddWrite? {
      AddsKeep(st, ev, id);
    } else {
      hide Enabled, Next;
      QuietExtends(st, ev);
    }
  }

  lemma {:induction false} MessageLeaves(st: State, desc: Descriptor, packet: Packet, id: TaskId, s: Descriptor)
    requires Enabled(st, OnMessage(desc, packet)) && id in st.sched.tasks
             && id !in MessageArrives(st, desc, packet).sched.tasks
    requires forall t | t in st.net.sockets && st.net.sockets[t].task == Some(id) :: t == s
    ensures desc == s
  {
    hide Wake;
    WakeLeaves(Push(st, desc, packet), desc, id, s);
  }

  lemma {:induction false} ConnectLeaves(st: State, connection: Connection, id: TaskId, s: Descriptor)
    requires id in st.sched.tasks && id !in ConnectArrives(st, connection).sched.tasks
    requires forall t | t in st.net.sockets && st.net.sockets[t].task == Some(id) :: t == s
    ensures st.net.listening == Some(s)
  {
    hide Wake;
    WakeLeaves(st.(net := st.net.(incoming := st.net.incoming + [connection])), st.net.listening.value, id, s);
  }

  lemma {:induction false} TimerLeaves(st: State, t: TaskId, id: TaskId)
    requires t in st.sched.timers && id in st.sched.tasks && id !in TimerFires(st, t).sched.tasks
    ensures t == id
  {
  }

  lemma {:induction false} CancelLeaves(st: State, t: TaskId, id: TaskId)
    requires id in st.sched.tasks && id !in Cancel(st, t).state.sched.tasks
    ensures t == id
  {
  }

  lemma {:induction false} AddsKeep(st: State, ev: Event, id: TaskId)
    requires id in st.sched.tasks && Enabled(st, ev) && (ev.DoAddDelayed? || ev.DoAddRead? || ev.DoAddWrite?)
    ensures id in Next(st, ev).sched.tasks
  {
  }

  lemma {:induction false} WakeLeaves(st: State, desc: Descriptor, id: TaskId, s: Descriptor)
    requires id in st.sched.tasks && id !in Wake(st, desc).sched.tasks
    requires forall t | t in st.net.sockets && st.net.sockets[t].task == Some(id) :: t == s
    ensures desc == s
  {
  }

  /** The handler of a read task, however it was woken, is entered in such a state, with the handler and
      closure that the socket remembered. */
  lemma {:induction false} HandlerIsFree(st: State, ev: Event, id: TaskId, s: Descriptor)
    requires Inv(st) && Enabled(st, ev) && !ev.DoCancel?
    requires id in st.sched.tasks && st.sched.tasks[id].socket == Some(s) && id !in Next(st, ev).sched.tasks
    ensures Inv(Next(st, ev)) && s in st.net.sockets && EnteredFree(st, Next(st, ev), id, s)
  {
    NextKeepsInv(st, ev);
    SocketOf(st, id, s);
    WhoWakes(st, ev, id, s);
    hide Inv, EnteredFree, TimerFires, MessageArrives, ConnectArrives;
    match ev
    case OnTimer(_) => TimerHandlerIsFree(st, id, s);
    case OnMessage(_, packet) => MessageHandlerIsFree(st, id, s, packet);
    case OnConnect(connection) => ConnectHandlerIsFree(st, id, s, connection);
  }

  lemma {:induction false} SocketOf(st: State, id: TaskId, s: Descriptor)
    requires Inv(st) && id in st.sched.tasks && st.sched.tasks[id].socket == Some(s)
    ensures s in st.net.sockets && st.net.sockets[s].task == Some(id)
    ensures st.net.sockets[s].queue.Some? <==> st.net.listening != Some(s)
    ensures id in st.sched.timers ==> st.sched.timers[id] == Reader(s, st.net.sockets[s].handler, st.net.sockets[s].cls)
    ensures forall t | t in st.net.sockets && st.net.sockets[t].task == Some(id) :: t == s
  {
  }

  /** A second read task on one socket, which the source only logs, is exactly what breaks the tables. */
  lemma {:induction false} SecondReaderBreaks(st: State, desc: Descriptor, handler: int, cls: int)
    requires Inv(st) && desc in st.net.sockets && (st.net.sockets[desc].queue.Some? || st.net.listening == Some(desc))
    ensures var st' := AddRead(st, desc, handler, cls).state;
            Coherent(st'.sched, st'.net) <==> st.net.sockets[desc].task.None?
  {
    FreshHandle(st);
    if st.net.sockets[desc].task.None? {
      AddReadKeepsInv(st, desc, handler, cls);
    } else {
      var st' := AddRead(st, desc, handler, cls).state;
      var first := st.net.sockets[desc].task.value;
      assert first in st'.sched.tasks && st'.sched.tasks[first].socket == Some(desc)
          && st'.net.sockets[desc].task != Some(first);
    }
  }

  /** A pending task that is delayed, writes, or has something to read has its timer armed, and when that
      fires exactly this task runs, with the handler and closure it was scheduled with. */
  lemma {:induction false} EveryTaskCanRun(evs: seq<Event>, id: TaskId)
    requires Legal(INITIAL, evs)
    ensures var st := After(INITIAL, evs);
            id in st.sched.tasks && Runnable(st.sched, st.net, id) ==>
              && id in st.past.scheduled && id in st.sched.timers
              && TimerFires(st, id).past.fates == st.past.fates + multiset{RanFate(st.past.scheduled, id)}
              && TimerFires(st, id).sched.tasks == st.sched.tasks - {id}
  {
    hide Inv, Legal, After, TimerFires, Runnable;
    InitialInv();
    RunKeepsInv(INITIAL, evs);
    RunnableRuns(After(INITIAL, evs), id);
  }

  lemma {:induction false} RunnableRuns(st: State, id: TaskId)
    requires Inv(st)
    ensures id in st.sched.tasks && Runnable(st.sched, st.net, id) ==>
              && id in st.past.scheduled && id in st.sched.timers
              && TimerFires(st, id).past.fates == st.past.fates + multiset{RanFate(st.past.scheduled, id)}
              && TimerFires(st, id).sched.tasks == st.sched.tasks - {id}
  {
    if id in st.sched.tasks && Runnable(st.sched, st.net, id) {
      assert id in st.sched.timers by {
        hide Coherent, Known, HandlersFit, TimersFit, Conserved, KindsFit, DescriptorsFit;
      }
      TimerOf(st, id);
      hide Inv;
    }
  }

  // ---------------------------------------------------------------- descriptors and connections

  /** The descriptor that the call hands out: create with the arguments it supports, and accept on the
      descriptor listened on, with a connection waiting and room for its address. */
  function HandedOut(st: State, ev: Event): Option<int> {
    match ev
    case DoCreate(domain, kind, protocol) =>
      if domain == 1 && kind == 1 && protocol == 0 then Some(CreateSocket(st, domain, kind, protocol).value) else None
    case DoAccept(desc, addressLength) =>
      if st.net.listening == Some(desc) && st.net.incoming != [] && 110 <= addressLength
      then Some(AcceptOn(st, desc, addressLength).value) else None
    case _ => None
  }

  lemma {:induction false} HandsOutNext(st: State, ev: Event)
    requires Enabled(st, ev)
    ensures Next(st, ev).net.nextSocket == st.net.nextSocket + (if HandedOut(st, ev).Some? then 1 else 0)
    ensures HandedOut(st, ev).Some? ==> HandedOut(st, ev).value == st.net.nextSocket
  {
  }

  /** A descriptor that was handed out is new to every table, and no later event hands it out again. */
  lemma {:induction false} DescriptorsAreFresh(st: State, ev: Event, evs: seq<Event>, later: Event)
    requires Inv(st) && Enabled(st, ev) && HandedOut(st, ev).Some?
    requires Legal(Next(st, ev), evs) && Enabled(After(Next(st, ev), evs), later)
    ensures var d := HandedOut(st, ev).value;
            && d >= 0 && d !in st.net.sockets && d !in st.past.posted && st.net.listening != Some(d)
            && HandedOut(After(Next(st, ev), evs), later) != Some(d)
  {
    HandsOutNext(st, ev);
    HandsOutNext(After(Next(st, ev), evs), later);
    NextSocketGrows(Next(st, ev), evs);
    hide Enabled, Next, HandedOut, Legal, After, Coherent, Known, HandlersFit, TimersFit, Armed, Conserved, KindsFit;
  }

  lemma {:induction false} NextSocketGrows(st: State, evs: seq<Event>)
    requires Legal(st, evs)
    ensures st.net.nextSocket <= After(st, evs).net.nextSocket
    decreases |evs|
  {
    hide Enabled, Next;
    if evs != [] {
      HandsOutNext(st, evs[0]);
      NextSocketGrows(Next(st, evs[0]), evs[1..]);
    }
  }

  function Announced(ev: Event): seq<Connection> {
    if ev.OnConnect? then [ev.connection] else []
  }

  /** The connection that an event turns into a socket. */
  function Accepted(st: State, ev: Event): seq<Connection> {
    if ev.DoAccept? && HandedOut(st, ev).Some? then [st.net.incoming[0]] else []
  }

  ghost function AllAnnounced(evs: seq<Event>): seq<Connection> {
    if evs == [] then [] else Announced(evs[0]) + AllAnnounced(evs[1..])
  }

  ghost function AllAccepted(st: State, evs: seq<Event>): seq<Connection>
    requires Legal(st, evs)
    decreases |evs|
  {
    if evs == [] then [] else Accepted(st, evs[0]) + AllAccepted(Next(st, evs[0]), evs[1..])
  }

  lemma {:induction false} NextQueues(st: State, ev: Event)
    requires Enabled(st, ev)
    ensures st.net.incoming + Announced(ev) == Accepted(st, ev) + Next(st, ev).net.incoming
  {
    if ev.DoAccept? && Accepted(st, ev) != [] {
      assert st.net.incoming == [st.net.incoming[0]] + st.net.incoming[1..];
    }
  }

  /** Connections are accepted once each and in the order of their announcement. */
  lemma {:induction false} ConnectionsInOrder(st: State, evs: seq<Event>)
    requires Legal(st, evs)
    ensures st.net.incoming + AllAnnounced(evs) == AllAccepted(st, evs) + After(st, evs).net.incoming
    decreases |evs|
  {
    hide Enabled, Next, Announced, Accepted;
    if evs != [] {
      NextQueues(st, evs[0]);
      ConnectionsInOrder(Next(st, evs[0]), evs[1..]);
      var rest := AllAnnounced(evs[1..]);
      assert st.net.incoming + (Announced(evs[0]) + rest) == st.net.incoming + Announced(evs[0]) + rest;
      assert Accepted(st, evs[0]) + Next(st, evs[0]).net.incoming + rest ==
             Accepted(st, evs[0]) + (Next(st, evs[0]).net.incoming + rest);
    }
  }

  /** fdset_isset on a read set tells exactly what the timer of a read task tests. */
  lemma {:induction false} IsSetIffReady(st: State, fds: int, desc: Descriptor)
    requires Inv(st) && fds != 2 && (st.net.listening != Some(desc) ==> HasQueue(st, desc))
    ensures IsSet(st, fds, desc) > 0 <==> Ready(st.net, desc)
  {
    hide Inv;
  }
}
