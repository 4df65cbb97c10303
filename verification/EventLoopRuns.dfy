/** Runs of the event loop: the discipline of its callers, and what every reachable state satisfies. */
module EventLoopRuns {
  import opened Wrappers
  import opened Octets
  import opened EventLoop

  datatype Event =
    | DoCreate(domain: int, kind: int, protocol: int)
    | DoConnect(desc: Descriptor, family: int, path: string, channel: Channel)
    | DoSend(desc: Descriptor, bytes: Bytes, accepted: bool)
    | DoClose(desc: Descriptor)
    | DoBind(desc: Descriptor, addressLength: int)
    | DoListen(desc: Descriptor)
    | DoAccept(desc: Descriptor, addressLength: int)
    | DoRecv(desc: Descriptor, length: nat)
    | DoAddDelayed(handler: int, cls: int)
    | DoAddRead(desc: Descriptor, handler: int, cls: int)
    | DoAddWrite(desc: Descriptor, handler: int, cls: int)
    | DoCancel(id: TaskId)
    | OnTimer(id: TaskId)
    | OnMessage(desc: Descriptor, packet: Packet)
    | OnConnect(connection: Connection)

  /** What the source asks of its callers, and when a browser event can happen. A handle comes from
      socket_create; the handle listened on is bound or bare and is never connected; at most one read task per
      socket, on a socket that can be read; cancel before close; no recv on a bound socket. */
  predicate Enabled(st: State, ev: Event) {
    match ev
    case DoConnect(desc, _, _, _) =>
      desc in st.net.sockets || (desc < st.net.nextSocket && st.net.listening != Some(desc))
    case DoBind(desc, _) => desc in st.net.sockets || desc < st.net.nextSocket
    case DoListen(desc) =>
      || st.net.listening.Some?
      || (desc < st.net.nextSocket && (desc in st.net.sockets ==> st.net.sockets[desc].queue.None?))
    case DoAddRead(desc, _, _) =>
      desc in st.net.sockets ==>
        && st.net.sockets[desc].task.None?
        && (st.net.sockets[desc].queue.Some? || st.net.listening == Some(desc))
    case DoClose(desc) => desc in st.net.sockets ==> st.net.sockets[desc].task.None?
    case DoRecv(desc, _) => HasQueue(st, desc)
    case OnTimer(id) => id in st.sched.timers
    case OnMessage(desc, _) => desc in st.net.sockets && st.net.sockets[desc].queue.Some?
    case _ => true
  }

  function Next(st: State, ev: Event): State
    requires Enabled(st, ev)
  {
    match ev
    case DoCreate(domain, kind, protocol) => CreateSocket(st, domain, kind, protocol).state
    case DoConnect(desc, family, path, channel) => ConnectSocket(st, desc, family, path, channel).state
    case DoSend(desc, bytes, accepted) => SendTo(st, desc, bytes, accepted).state
    case DoClose(desc) => CloseSocket(st, desc).state
    case DoBind(desc, addressLength) => BindSocket(st, desc, addressLength).state
    case DoListen(desc) => ListenOn(st, desc).state
    case DoAccept(desc, addressLength) => AcceptOn(st, desc, addressLength).state
    case DoRecv(desc, length) => Recv(st, desc, length).state
    case DoAddDelayed(handler, cls) => AddDelayed(st, handler, cls).state
    case DoAddRead(desc, handler, cls) => AddRead(st, desc, handler, cls).state
    case DoAddWrite(desc, handler, cls) => AddWrite(st, desc, handler, cls).state
    case DoCancel(id) => Cancel(st, id).state
    case OnTimer(id) => TimerFires(st, id)
    case OnMessage(desc, packet) => MessageArrives(st, desc, packet)
    case OnConnect(connection) => ConnectArrives(st, connection)
  }

  ghost predicate Legal(st: State, evs: seq<Event>)
    decreases |evs|
  {
    evs == [] || (Enabled(st, evs[0]) && Legal(Next(st, evs[0]), evs[1..]))
  }

  ghost function After(st: State, evs: seq<Event>): State
    requires Legal(st, evs)
    decreases |evs|
  {
    if evs == [] then st else After(Next(st, evs[0]), evs[1..])
  }

  // ---------------------------------------------------------------- the invariant

  type Schedule = map<TaskId, (int, int)>

  /** A task records socket s exactly when s records the task. */
  ghost predicate Coherent(sched: Scheduler, net: Network) {
    && (forall id | id in sched.tasks && sched.tasks[id].socket.Some? ::
          var s := sched.tasks[id].socket.value; s in net.sockets && net.sockets[s].task == Some(id))
    && (forall s | s in net.sockets && net.sockets[s].task.Some? ::
          var id := net.sockets[s].task.value; id in sched.tasks && sched.tasks[id].socket == Some(s))
  }

  /** Every handle in use was scheduled, and the task keeps its closure. */
  ghost predicate Known(sched: Scheduler, scheduled: Schedule) {
    && (forall id | id in scheduled :: id < sched.nextTimer)
    && (forall id | id in sched.tasks :: id in scheduled && sched.tasks[id].cls == scheduled[id].1)
  }

  /** A socket with a read task remembers the handler and closure of that task. */
  ghost predicate HandlersFit(net: Network, scheduled: Schedule) {
    forall s | s in net.sockets && net.sockets[s].task.Some? ::
      var id := net.sockets[s].task.value;
      id in scheduled && scheduled[id] == (net.sockets[s].handler, net.sockets[s].cls)
  }

  /** An armed timer belongs to what was scheduled under its handle. Only the timer of a read task can
      outlive the task. */
  ghost predicate TimersFit(sched: Scheduler, scheduled: Schedule) {
    forall id | id in sched.timers ::
      && id in scheduled && scheduled[id] == (sched.timers[id].handler, sched.timers[id].cls)
      && if sched.timers[id].Reader? then id in sched.tasks ==> sched.tasks[id].socket == Some(sched.timers[id].socket)
         else id in sched.tasks && sched.tasks[id].socket.None?
  }

  /** The task could run now. */
  predicate Runnable(sched: Scheduler, net: Network, id: TaskId)
    requires id in sched.tasks
  {
    sched.tasks[id].socket.None? || Ready(net, sched.tasks[id].socket.value)
  }

  /** No lost wakeup: a pending task that could run now has its timer armed; `except` is the task that a
      callback is about to enter. */
  ghost predicate Armed(sched: Scheduler, net: Network, except: Option<TaskId>) {
    forall id | id in sched.tasks && Some(id) != except :: Runnable(sched, net, id) ==> id in sched.timers
  }

  function RanFate(scheduled: Schedule, id: TaskId): Fate
    requires id in scheduled
  {
    Ran(id, scheduled[id].0, scheduled[id].1)
  }

  function CancelledFate(scheduled: Schedule, id: TaskId): Fate
    requires id in scheduled
  {
    Cancelled(id, scheduled[id].1)
  }

  /** Every scheduled task is pending, or ran once with its own handler and closure, or was cancelled
      once with its closure given back; and nothing else ever ran or was cancelled. */
  ghost predicate Conserved(sched: Scheduler, scheduled: Schedule, fates: multiset<Fate>) {
    && (forall id | id in scheduled ::
          (if id in sched.tasks then 1 else 0)
          + fates[RanFate(scheduled, id)] + fates[CancelledFate(scheduled, id)] == 1)
    && (forall f | f in fates ::
          f.id in scheduled && (f == RanFate(scheduled, f.id) || f == CancelledFate(scheduled, f.id)))
  }

  /** Sockets keep their kind: those with a port have a queue and are not listened on; the others are
      read only as the listening socket. */
  ghost predicate KindsFit(net: Network) {
    && (forall s | s in net.sockets :: net.sockets[s].hasPort <==> net.sockets[s].queue.Some?)
    && (forall s | s in net.sockets && net.sockets[s].task.Some? ::
          net.sockets[s].queue.Some? || net.listening == Some(s))
    && (forall s | s in net.sockets && net.listening == Some(s) :: net.sockets[s].queue.None?)
  }

  /** Every descriptor in use was handed out, and the streams of an open socket are recorded. */
  ghost predicate DescriptorsFit(net: Network, past: Past) {
    && (forall s | s in net.sockets :: s < net.nextSocket)
    && (forall s | s in past.posted :: s < net.nextSocket)
    && (net.listening.Some? ==> net.listening.value < net.nextSocket)
    && (forall s | s in net.sockets && net.sockets[s].queue.Some? ::
          s in past.posted && s in past.arrived && s in past.read)
  }

  ghost predicate InvBut(st: State, except: Option<TaskId>) {
    && Coherent(st.sched, st.net)
    && Known(st.sched, st.past.scheduled)
    && HandlersFit(st.net, st.past.scheduled)
    && TimersFit(st.sched, st.past.scheduled)
    && Armed(st.sched, st.net, except)
    && Conserved(st.sched, st.past.scheduled, st.past.fates)
    && KindsFit(st.net)
    && DescriptorsFit(st.net, st.past)
  }

  ghost predicate Inv(st: State) {
    InvBut(st, None)
  }

  // ---------------------------------------------------------------- one socket changes, tasks stay

  function SetSocket(net: Network, s: Descriptor, socket: Socket): Network {
    net.(sockets := net.sockets[s := socket])
  }

  /** The socket keeps its kind and reader; or it is new, of a proper kind, and has no reader. */
  ghost predicate SameReader(net: Network, s: Descriptor, socket: Socket) {
    if s in net.sockets then
      var before := net.sockets[s];
      && socket.task == before.task && socket.handler == before.handler && socket.cls == before.cls
      && socket.hasPort == before.hasPort && socket.queue.Some? == before.queue.Some?
    else
      socket.task.None? && (socket.hasPort <==> socket.queue.Some?) && (net.listening == Some(s) ==> socket.queue.None?)
  }

  lemma {:induction false} SocketChanges(sched: Scheduler, net: Network, scheduled: Schedule, s: Descriptor,
          socket: Socket)
    requires Coherent(sched, net) && HandlersFit(net, scheduled) && KindsFit(net) && SameReader(net, s, socket)
    ensures Coherent(sched, SetSocket(net, s, socket)) && KindsFit(SetSocket(net, s, socket))
    ensures HandlersFit(SetSocket(net, s, socket), scheduled)
  {
  }

  /** No sleeping reader becomes ready, except the one that is about to be woken. */
  lemma {:induction false} ArmedAfterChange(sched: Scheduler, net: Network, s: Descriptor, socket: Socket,
          except: Option<TaskId>)
    requires Coherent(sched, net) && Armed(sched, net, None) && SameReader(net, s, socket)
    requires socket.task.None? || socket.task == except || Ready(net, s) || !Ready(SetSocket(net, s, socket), s)
    ensures Armed(sched, SetSocket(net, s, socket), except)
  {
    var net' := SetSocket(net, s, socket);
    forall id | id in sched.tasks && Some(id) != except && Runnable(sched, net', id) ensures id in sched.timers {
      if sched.tasks[id].socket.Some? && sched.tasks[id].socket.value != s {
        assert Ready(net, sched.tasks[id].socket.value);
      }
    }
  }

  /** Descriptors stay in order when the sockets are the same and no record of a stream is lost. */
  lemma {:induction false} SameDescriptors(net: Network, past: Past, net': Network, past': Past)
    requires DescriptorsFit(net, past) && net'.sockets.Keys <= net.sockets.Keys && net'.listening == net.listening
             && net.nextSocket <= net'.nextSocket
    requires past'.posted.Keys == past.posted.Keys && past.arrived.Keys <= past'.arrived.Keys
             && past.read.Keys <= past'.read.Keys
    requires forall s | s in net'.sockets :: net'.sockets[s].queue.Some? ==> net.sockets[s].queue.Some?
    ensures DescriptorsFit(net', past')
  {
  }

  lemma {:induction false} SocketGoes(sched: Scheduler, net: Network, scheduled: Schedule, s: Descriptor)
    requires Coherent(sched, net) && HandlersFit(net, scheduled) && KindsFit(net) && Armed(sched, net, None)
    requires s in net.sockets && net.sockets[s].task.None?
    ensures var net' := net.(sockets := net.sockets - {s});
            Coherent(sched, net') && HandlersFit(net', scheduled) && KindsFit(net') && Armed(sched, net', None)
  {
    var net' := net.(sockets := net.sockets - {s});
    forall id | id in sched.tasks && Runnable(sched, net', id) ensures id in sched.timers {
      assert Runnable(sched, net, id);
    }
  }

  // ---------------------------------------------------------------- calls to network.js

  lemma {:induction false} CreateKeepsInv(st: State, domain: int, kind: int, protocol: int)
    requires Inv(st)
    ensures Inv(CreateSocket(st, domain, kind, protocol).state)
  {
  }

  lemma {:induction false} OpenKeepsInv(st: State, desc: Descriptor, name: string)
    requires Inv(st) && desc !in st.net.sockets && desc < st.net.nextSocket && st.net.listening != Some(desc)
    ensures Inv(OpenSocket(st, desc, name))
  {
    var socket := Socket(true, name, Some([]), None, 0, 0);
    var st' := OpenSocket(st, desc, name);
    SocketChanges(st.sched, st.net, st.past.scheduled, desc, socket);
    ArmedAfterChange(st.sched, st.net, desc, socket, None);
    hide Coherent, Known, HandlersFit, TimersFit, Armed, KindsFit, SameReader, Conserved;
    assert DescriptorsFit(st'.net, st'.past);
  }

  lemma {:induction false} ConnectKeepsInv(st: State, desc: Descriptor, family: int, path: string, channel: Channel)
    requires Inv(st) && Enabled(st, DoConnect(desc, family, path, channel))
    ensures Inv(ConnectSocket(st, desc, family, path, channel).state)
  {
    hide Inv, OpenSocket;
    if desc !in st.net.sockets { OpenKeepsInv(st, desc, path); }
  }

  lemma {:induction false} PostKeepsInv(st: State, desc: Descriptor, packet: Packet)
    requires Inv(st) && desc in st.past.posted
    ensures Inv(Post(st, desc, packet))
  {
  }

  lemma {:induction false} SendKeepsInv(st: State, desc: Descriptor, bytes: Bytes, accepted: bool)
    requires Inv(st)
    ensures Inv(SendTo(st, desc, bytes, accepted).state)
  {
    if desc in st.net.sockets && st.net.sockets[desc].hasPort {
      assert desc in st.past.posted;
      hide Inv, Post;
      PostKeepsInv(st, desc, Data(bytes));
    }
  }

  lemma {:induction false} CloseKeepsInv(st: State, desc: Descriptor)
    requires Inv(st) && Enabled(st, DoClose(desc))
    ensures Inv(CloseSocket(st, desc).state)
  {
    if desc in st.net.sockets {
      var st' := CloseSocket(st, desc).state;
      SocketGoes(st.sched, st.net, st.past.scheduled, desc);
      assert st'.past.posted.Keys == st.past.posted.Keys;
      hide Coherent, Known, HandlersFit, TimersFit, Armed, KindsFit, Conserved, DescriptorsFit;
      SameDescriptors(st.net, st.past, st'.net, st'.past);
    }
  }

  lemma {:induction false} BindKeepsInv(st: State, desc: Descriptor, addressLength: int)
    requires Inv(st) && Enabled(st, DoBind(desc, addressLength))
    ensures Inv(BindSocket(st, desc, addressLength).state)
  {
    if desc !in st.net.sockets {
      var socket := Socket(false, "", None, None, 0, 0);
      SocketChanges(st.sched, st.net, st.past.scheduled, desc, socket);
      ArmedAfterChange(st.sched, st.net, desc, socket, None);
      hide Coherent, Known, HandlersFit, TimersFit, Armed, KindsFit, SameReader, Conserved;
      assert DescriptorsFit(SetSocket(st.net, desc, socket), st.past);
    }
  }

  lemma {:induction false} ListenKeepsInv(st: State, desc: Descriptor)
    requires Inv(st) && Enabled(st, DoListen(desc))
    ensures Inv(ListenOn(st, desc).state)
  {
  }

  lemma {:induction false} ShiftKeepsInv(st: State)
    requires Inv(st) && st.net.incoming != []
    ensures Inv(st.(net := st.net.(incoming := st.net.incoming[1..], nextSocket := st.net.nextSocket + 1)))
    ensures st.net.nextSocket !in st.net.sockets && st.net.listening != Some(st.net.nextSocket)
  {
  }

  lemma {:induction false} AcceptKeepsInv(st: State, desc: Descriptor, addressLength: int)
    requires Inv(st)
    ensures Inv(AcceptOn(st, desc, addressLength).state)
  {
    hide Inv, OpenSocket;
    if st.net.incoming != [] {
      ShiftKeepsInv(st);
      var st1 := st.(net := st.net.(incoming := st.net.incoming[1..], nextSocket := st.net.nextSocket + 1));
      OpenKeepsInv(st1, st.net.nextSocket, st.net.incoming[0].clientName);
    }
  }

  lemma {:induction false} RecvKeepsInv(st: State, desc: Descriptor, length: nat)
    requires Inv(st) && HasQueue(st, desc)
    ensures Inv(Recv(st, desc, length).state)
  {
    var st' := Recv(st, desc, length).state;
    var queue := if desc in st.net.sockets then st.net.sockets[desc].queue.value else [];
    if queue != [] && queue[0] != Close {
      var socket := st'.net.sockets[desc];
      SocketChanges(st.sched, st.net, st.past.scheduled, desc, socket);
      ArmedAfterChange(st.sched, st.net, desc, socket, None);
      hide Coherent, Known, HandlersFit, TimersFit, Armed, KindsFit, SameReader, Conserved, DescriptorsFit;
      SameDescriptors(st.net, st.past, st'.net, st'.past);
    }
  }

  // ---------------------------------------------------------------- tasks come

  lemma {:induction false} ArmKeepsConserved(st: State, timer: Timer, task: Task)
    requires Known(st.sched, st.past.scheduled) && Conserved(st.sched, st.past.scheduled, st.past.fates)
             && task.cls == timer.cls
    ensures Known(Arm(st, timer, task).sched, Arm(st, timer, task).past.scheduled)
    ensures var st' := Arm(st, timer, task); Conserved(st'.sched, st'.past.scheduled, st'.past.fates)
  {
  }

  lemma {:induction false} ArmKeepsTables(st: State, timer: Timer, task: Task)
    requires Known(st.sched, st.past.scheduled) && Coherent(st.sched, st.net) && task.socket.None?
    ensures Coherent(Arm(st, timer, task).sched, st.net)
    ensures HandlersFit(st.net, st.past.scheduled) ==> HandlersFit(st.net, Arm(st, timer, task).past.scheduled)
  {
    assert st.sched.nextTimer !in st.sched.tasks && st.sched.nextTimer !in st.past.scheduled;
    hide Known;
  }

  lemma {:induction false} ArmKeepsTimers(st: State, timer: Timer, task: Task)
    requires Known(st.sched, st.past.scheduled) && TimersFit(st.sched, st.past.scheduled)
    requires !timer.Reader? && task.socket.None?
    ensures TimersFit(Arm(st, timer, task).sched, Arm(st, timer, task).past.scheduled)
  {
    assert st.sched.nextTimer !in st.sched.tasks && st.sched.nextTimer !in st.past.scheduled;
    hide Known;
  }

  lemma {:induction false} ArmKeepsArmed(st: State, timer: Timer, task: Task)
    requires Armed(st.sched, st.net, None) && task.socket.None?
    ensures Armed(Arm(st, timer, task).sched, st.net, None)
  {
    var sched' := Arm(st, timer, task).sched;
    forall id | id in sched'.tasks && Runnable(sched', st.net, id) ensures id in sched'.timers {
      if id != st.sched.nextTimer { assert Runnable(st.sched, st.net, id); }
    }
  }

  lemma {:induction false} ArmKeepsInv(st: State, timer: Timer, task: Task)
    requires Inv(st) && task.cls == timer.cls && !timer.Reader? && task.socket.None?
    ensures Inv(Arm(st, timer, task))
  {
    hide Coherent, Known, HandlersFit, TimersFit, Armed, Conserved, KindsFit, DescriptorsFit;
    ArmKeepsConserved(st, timer, task);
    ArmKeepsTables(st, timer, task);
    ArmKeepsTimers(st, timer, task);
    ArmKeepsArmed(st, timer, task);
    var past' := Arm(st, timer, task).past;
    assert DescriptorsFit(st.net, past') by { SameDescriptors(st.net, st.past, st.net, past'); }
  }

  /** A fresh read task and its timer take their place at a socket that had none. */
  ghost predicate FreshReader(sched: Scheduler, net: Network, scheduled: Schedule, s: Descriptor, socket: Socket) {
    && Known(sched, scheduled) && s in net.sockets && net.sockets[s].task.None?
    && socket == net.sockets[s].(handler := socket.handler, cls := socket.cls, task := Some(sched.nextTimer))
  }

  function WithReader(sched: Scheduler, s: Descriptor, socket: Socket): Scheduler {
    var id := sched.nextTimer;
    Scheduler(sched.tasks[id := Task(socket.cls, Some(s))],
        sched.timers[id := Reader(s, socket.handler, socket.cls)], id + 1)
  }

  function WithSchedule(sched: Scheduler, scheduled: Schedule, socket: Socket): Schedule {
    scheduled[sched.nextTimer := (socket.handler, socket.cls)]
  }

  lemma {:induction false} ReaderKeepsCoherent(sched: Scheduler, net: Network, scheduled: Schedule, s: Descriptor,
          socket: Socket)
    requires FreshReader(sched, net, scheduled, s, socket) && Coherent(sched, net)
    ensures Coherent(WithReader(sched, s, socket), SetSocket(net, s, socket))
  {
    assert sched.nextTimer !in sched.tasks;
    hide Known;
    assert forall id | id in sched.tasks :: sched.tasks[id].socket != Some(s);
  }

  lemma {:induction false} ReaderKeepsHandlers(sched: Scheduler, net: Network, scheduled: Schedule, s: Descriptor,
          socket: Socket)
    requires FreshReader(sched, net, scheduled, s, socket) && HandlersFit(net, scheduled)
    ensures HandlersFit(SetSocket(net, s, socket), WithSchedule(sched, scheduled, socket))
  {
    assert sched.nextTimer !in scheduled;
    hide Known;
  }

  lemma {:induction false} ReaderKeepsTimers(sched: Scheduler, net: Network, scheduled: Schedule, s: Descriptor,
          socket: Socket)
    requires FreshReader(sched, net, scheduled, s, socket) && TimersFit(sched, scheduled)
    ensures TimersFit(WithReader(sched, s, socket), WithSchedule(sched, scheduled, socket))
  {
    assert sched.nextTimer !in scheduled && sched.nextTimer !in sched.tasks;
    hide Known;
  }

  lemma {:induction false} ReaderKeepsArmed(sched: Scheduler, net: Network, scheduled: Schedule, s: Descriptor,
          socket: Socket)
    requires FreshReader(sched, net, scheduled, s, socket) && Coherent(sched, net) && Armed(sched, net, None)
    ensures Armed(WithReader(sched, s, socket), SetSocket(net, s, socket), None)
  {
    var sched', net' := WithReader(sched, s, socket), SetSocket(net, s, socket);
    hide Known, Coherent;
    forall id | id in sched'.tasks && Runnable(sched', net', id) ensures id in sched'.timers {
      if id != sched.nextTimer { assert Runnable(sched, net, id); }
    }
  }

  lemma {:induction false} ReaderKeepsKinds(net: Network, past: Past, s: Descriptor, socket: Socket)
    requires KindsFit(net) && DescriptorsFit(net, past) && s in net.sockets
    requires socket == net.sockets[s].(handler := socket.handler, cls := socket.cls, task := socket.task)
    requires socket.queue.Some? || net.listening == Some(s)
    ensures KindsFit(SetSocket(net, s, socket)) && DescriptorsFit(SetSocket(net, s, socket), past)
  {
  }

  lemma {:induction false} AddReadKeepsInv(st: State, desc: Descriptor, handler: int, cls: int)
    requires Inv(st) && Enabled(st, DoAddRead(desc, handler, cls))
    ensures Inv(AddRead(st, desc, handler, cls).state)
  {
    hide Coherent, Known, HandlersFit, TimersFit, Armed, Conserved, KindsFit, DescriptorsFit;
    if desc in st.net.sockets {
      var socket := st.net.sockets[desc].(handler := handler, cls := cls, task := Some(st.sched.nextTimer));
      var sched', net' := WithReader(st.sched, desc, socket), SetSocket(st.net, desc, socket);
      var past' := st.past.(scheduled := WithSchedule(st.sched, st.past.scheduled, socket));
      assert AddRead(st, desc, handler, cls).state == State(sched', net', past');
      ArmKeepsConserved(st, Reader(desc, handler, cls), Task(cls, Some(desc)));
      ReaderKeepsCoherent(st.sched, st.net, st.past.scheduled, desc, socket);
      ReaderKeepsHandlers(st.sched, st.net, st.past.scheduled, desc, socket);
      ReaderKeepsTimers(st.sched, st.net, st.past.scheduled, desc, socket);
      ReaderKeepsArmed(st.sched, st.net, st.past.scheduled, desc, socket);
      ReaderKeepsKinds(st.net, st.past, desc, socket);
      assert DescriptorsFit(net', past') by { SameDescriptors(net', st.past, net', past'); }
    }
  }

  // ---------------------------------------------------------------- tasks go

  lemma {:induction false} LeaveKeepsConserved(sched: Scheduler, scheduled: Schedule, fates: multiset<Fate>,
          id: TaskId, f: Fate)
    requires Known(sched, scheduled) && Conserved(sched, scheduled, fates) && id in sched.tasks
    requires f == RanFate(scheduled, id) || f == CancelledFate(scheduled, id)
    ensures Known(Leave(sched, id), scheduled) && Conserved(Leave(sched, id), scheduled, fates + multiset{f})
  {
  }

  function Leave(sched: Scheduler, id: TaskId): Scheduler {
    sched.(tasks := sched.tasks - {id})
  }

  function Forget(net: Network, desc: Option<Descriptor>): Network {
    net.(sockets := ForgetReader(net.sockets, desc))
  }

  lemma {:induction false} LeaveKeepsTables(sched: Scheduler, net: Network, scheduled: Schedule, id: TaskId)
    requires Coherent(sched, net) && HandlersFit(net, scheduled) && id in sched.tasks
    ensures var sched', net' := Leave(sched, id), Forget(net, sched.tasks[id].socket);
            Coherent(sched', net') && HandlersFit(net', scheduled)
  {
    var net' := Forget(net, sched.tasks[id].socket);
    assert forall s | s in net'.sockets ::
             net'.sockets[s].task == if net.sockets[s].task == Some(id) then None else net.sockets[s].task;
  }

  lemma {:induction false} ForgetKeepsKinds(net: Network, past: Past, desc: Option<Descriptor>)
    requires KindsFit(net) && DescriptorsFit(net, past)
    ensures KindsFit(Forget(net, desc)) && DescriptorsFit(Forget(net, desc), past)
  {
  }

  lemma {:induction false} LeaveKeepsArmed(sched: Scheduler, net: Network, scheduled: Schedule, id: TaskId)
    requires Coherent(sched, net) && id in sched.tasks && Armed(sched, net, Some(id)) && TimersFit(sched, scheduled)
    requires sched.tasks[id].socket.Some? || id !in sched.timers
    ensures var sched', net' := Leave(sched, id), Forget(net, sched.tasks[id].socket);
            Armed(sched', net', None) && TimersFit(sched', scheduled)
  {
    var sched', net' := Leave(sched, id), Forget(net, sched.tasks[id].socket);
    forall other | other in sched'.tasks && Runnable(sched', net', other) ensures other in sched.timers {
      assert Runnable(sched, net, other);
    }
  }

  /** A task leaves: its handler is entered, or it is cancelled. */
  lemma {:induction false} LeaveKeepsInv(st: State, id: TaskId, f: Fate)
    requires InvBut(st, Some(id)) && id in st.sched.tasks && (st.sched.tasks[id].socket.Some? || id !in st.sched.timers)
    requires id in st.past.scheduled
             && (f == RanFate(st.past.scheduled, id) || f == CancelledFate(st.past.scheduled, id))
    ensures Inv(State(Leave(st.sched, id), Forget(st.net, st.sched.tasks[id].socket),
            st.past.(fates := st.past.fates + multiset{f})))
  {
    hide Coherent, Known, HandlersFit, TimersFit, Armed, Conserved, KindsFit, Leave, Forget;
    LeaveKeepsConserved(st.sched, st.past.scheduled, st.past.fates, id, f);
    LeaveKeepsTables(st.sched, st.net, st.past.scheduled, id);
    LeaveKeepsArmed(st.sched, st.net, st.past.scheduled, id);
    ForgetKeepsKinds(st.net, st.past, st.sched.tasks[id].socket);
  }

  function Disarm(st: State, id: TaskId): State {
    st.(sched := st.sched.(timers := st.sched.timers - {id}))
  }

  lemma {:induction false} DisarmKeepsTables(sched: Scheduler, net: Network, scheduled: Schedule,
          fates: multiset<Fate>, id: TaskId)
    requires Coherent(sched, net) && Known(sched, scheduled) && TimersFit(sched, scheduled)
             && Conserved(sched, scheduled, fates)
    ensures var sched' := sched.(timers := sched.timers - {id});
            Coherent(sched', net) && Known(sched', scheduled) && TimersFit(sched', scheduled)
                && Conserved(sched', scheduled, fates)
  {
  }

  lemma {:induction false} DisarmKeepsArmed(sched: Scheduler, net: Network, id: TaskId)
    requires Armed(sched, net, None)
    ensures var sched' := sched.(timers := sched.timers - {id});
            Armed(sched', net, Some(id))
                && (id !in sched.tasks || !Runnable(sched, net, id) ==> Armed(sched', net, None))
  {
    forall other | other in sched.tasks && Runnable(sched.(timers := sched.timers - {id}), net, other)
      ensures other in sched.timers
    {
      assert Runnable(sched, net, other);
    }
  }

  /** Disarming a timer matters to its own task only, and not if that task could not run now. */
  lemma {:induction false} DisarmKeepsInv(st: State, id: TaskId)
    requires Inv(st)
    ensures InvBut(Disarm(st, id), Some(id))
    ensures id !in st.sched.tasks || !Runnable(st.sched, st.net, id) ==> Inv(Disarm(st, id))
  {
    hide Coherent, Known, HandlersFit, TimersFit, Armed, Conserved, KindsFit, DescriptorsFit;
    DisarmKeepsTables(st.sched, st.net, st.past.scheduled, st.past.fates, id);
    DisarmKeepsArmed(st.sched, st.net, id);
  }

  lemma {:induction false} CancelKeepsInv(st: State, id: TaskId)
    requires Inv(st)
    ensures Inv(Cancel(st, id).state)
  {
    DisarmKeepsInv(st, id);
    if id in st.sched.tasks {
      assert id in st.past.scheduled && st.sched.tasks[id].cls == st.past.scheduled[id].1;
      hide Inv, InvBut;
      LeaveKeepsInv(Disarm(st, id), id, CancelledFate(st.past.scheduled, id));
    }
  }

  /** What the timer of a pending task captured is what the table says about the task. */
  lemma {:induction false} TimerOf(st: State, id: TaskId)
    requires Inv(st) && id in st.sched.timers
    ensures id in st.past.scheduled && st.past.scheduled[id] == (st.sched.timers[id].handler, st.sched.timers[id].cls)
    ensures !st.sched.timers[id].Reader? ==> id in st.sched.tasks
    ensures id in st.sched.tasks && st.sched.timers[id].Reader? ==>
              st.sched.tasks[id].socket == Some(st.sched.timers[id].socket)
    ensures id in st.sched.tasks && !st.sched.timers[id].Reader? ==> st.sched.tasks[id].socket == None
  {
  }

  lemma {:induction false} TimerKeepsInv(st: State, id: TaskId)
    requires Inv(st) && id in st.sched.timers
    ensures Inv(TimerFires(st, id))
  {
    DisarmKeepsInv(st, id);
    TimerOf(st, id);
    hide Inv, InvBut;
    if id in st.sched.tasks && Runnable(st.sched, st.net, id) {
      LeaveKeepsInv(Disarm(st, id), id, RanFate(st.past.scheduled, id));
    }
  }

  /** What a socket remembers about its reader is what was scheduled. */
  lemma {:induction false} ReaderOf(st: State, s: Descriptor)
    requires Inv(st) && s in st.net.sockets && st.net.sockets[s].task.Some?
    ensures var id := st.net.sockets[s].task.value;
            && id in st.sched.tasks && st.sched.tasks[id].socket == Some(s) && id in st.past.scheduled
            && st.past.scheduled[id] == (st.net.sockets[s].handler, st.net.sockets[s].cls)
            && (st.net.sockets[s].queue.Some? <==> st.net.listening != Some(s))
            && (id in st.sched.timers ==>
                st.sched.timers[id] == Reader(s, st.net.sockets[s].handler, st.net.sockets[s].cls))
  {
  }

  lemma {:induction false} PushKeepsInv(st: State, desc: Descriptor, packet: Packet)
    requires Inv(st) && Enabled(st, OnMessage(desc, packet))
    ensures InvBut(Push(st, desc, packet), st.net.sockets[desc].task)
  {
    var st' := Push(st, desc, packet);
    var socket := st'.net.sockets[desc];
    SocketChanges(st.sched, st.net, st.past.scheduled, desc, socket);
    ArmedAfterChange(st.sched, st.net, desc, socket, socket.task);
    hide Coherent, Known, HandlersFit, TimersFit, Armed, KindsFit, SameReader, Conserved, DescriptorsFit;
    SameDescriptors(st.net, st.past, st'.net, st'.past);
  }

  lemma {:induction false} MessageKeepsInv(st: State, desc: Descriptor, packet: Packet)
    requires Inv(st) && Enabled(st, OnMessage(desc, packet))
    ensures Inv(MessageArrives(st, desc, packet))
  {
    PushKeepsInv(st, desc, packet);
    if st.net.sockets[desc].task.Some? {
      var id := st.net.sockets[desc].task.value;
      ReaderOf(st, desc);
      hide InvBut;
      LeaveKeepsInv(Push(st, desc, packet), id, RanFate(st.past.scheduled, id));
    }
  }

  /** The reader of the listening socket, if there is one. */
  function Listener(net: Network): Option<TaskId> {
    if net.listening.Some? && net.listening.value in net.sockets then net.sockets[net.listening.value].task else None
  }

  lemma {:induction false} IncomingKeepsInv(st: State, connection: Connection)
    requires Inv(st)
    ensures InvBut(st.(net := st.net.(incoming := st.net.incoming + [connection])), Listener(st.net))
  {
    var st' := st.(net := st.net.(incoming := st.net.incoming + [connection]));
    forall id | id in st.sched.tasks && Some(id) != Listener(st.net) && Runnable(st.sched, st'.net, id)
      ensures id in st.sched.timers
    {
      assert Runnable(st.sched, st.net, id);
    }
  }

  lemma {:induction false} ConnectArrivalKeepsInv(st: State, connection: Connection)
    requires Inv(st)
    ensures Inv(ConnectArrives(st, connection))
  {
    IncomingKeepsInv(st, connection);
    if Listener(st.net).Some? {
      var id := Listener(st.net).value;
      ReaderOf(st, st.net.listening.value);
      hide InvBut;
      LeaveKeepsInv(st.(net := st.net.(incoming := st.net.incoming + [connection])), id,
          RanFate(st.past.scheduled, id));
    }
  }

  /** Every API call that respects the discipline, and every event, keeps the invariant. */
  lemma {:induction false} NextKeepsInv(st: State, ev: Event)
    requires Inv(st) && Enabled(st, ev)
    ensures Inv(Next(st, ev))
  {
    hide Inv, CreateSocket, ConnectSocket, SendTo, CloseSocket, BindSocket, ListenOn, AcceptOn, Recv, TimerFires,
        MessageArrives, ConnectArrives, Cancel, AddRead;
    match ev
    case DoCreate(domain, kind, protocol) => CreateKeepsInv(st, domain, kind, protocol);
    case DoConnect(desc, family, path, channel) => ConnectKeepsInv(st, desc, family, path, channel);
    case DoSend(desc, bytes, accepted) => SendKeepsInv(st, desc, bytes, accepted);
    case DoClose(desc) => CloseKeepsInv(st, desc);
    case DoBind(desc, addressLength) => BindKeepsInv(st, desc, addressLength);
    case DoListen(desc) => ListenKeepsInv(st, desc);
    case DoAccept(desc, addressLength) => AcceptKeepsInv(st, desc, addressLength);
    case DoRecv(desc, length) => RecvKeepsInv(st, desc, length);
    case DoAddDelayed(handler, cls) => ArmKeepsInv(st, Delayed(handler, cls), Task(cls, None));
    case DoAddRead(desc, handler, cls) => AddReadKeepsInv(st, desc, handler, cls);
    case DoAddWrite(_, handler, cls) => ArmKeepsInv(st, Writer(handler, cls), Task(cls, None));
    case DoCancel(id) => CancelKeepsInv(st, id);
    case OnTimer(id) => TimerKeepsInv(st, id);
    case OnMessage(desc, packet) => MessageKeepsInv(st, desc, packet);
    case OnConnect(connection) => ConnectArrivalKeepsInv(st, connection);
  }
}
