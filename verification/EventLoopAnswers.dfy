/** What the calls of the event loop answer: when each succeeds, what its number means, and what calls that
    follow one another achieve together. */
module EventLoopAnswers {
  import opened Wrappers
  import opened Octets
  import opened EventLoop
  import opened EventLoopRuns
  import EventLoopSafety

  // ---------------------------------------------------------------- handles and descriptors

  ghost predicate Positive(st: State) {
    st.sched.nextTimer > 0 && st.net.nextSocket > 0
  }

  lemma {:induction false} NextKeepsPositive(st: State, ev: Event)
    requires Positive(st) && Enabled(st, ev)
    ensures Positive(Next(st, ev))
  {
  }

  /** So 0 is never a handle or a descriptor. */
  lemma {:induction false} RunKeepsPositive(st: State, evs: seq<Event>)
    requires Positive(st) && Legal(st, evs)
    ensures Positive(After(st, evs))
    decreases |evs|
  {
    hide Positive, Enabled, Next;
    if evs != [] {
      NextKeepsPositive(st, evs[0]);
      RunKeepsPositive(Next(st, evs[0]), evs[1..]);
    }
  }

  ghost predicate Reachable(st: State) {
    exists evs :: Legal(INITIAL, evs) && After(INITIAL, evs) == st
  }

  lemma {:induction false} ReachableFits(st: State)
    requires Reachable(st)
    ensures Inv(st) && Positive(st)
  {
    hide Inv;
    var evs :| Legal(INITIAL, evs) && After(INITIAL, evs) == st;
    EventLoopSafety.InitialInv();
    EventLoopSafety.RunKeepsInv(INITIAL, evs);
    RunKeepsPositive(INITIAL, evs);
  }

  // ---------------------------------------------------------------- registering tasks

  /** A call that registers a task, with the handler and closure it is given. */
  datatype Registration =
    | Later(handler: int, cls: int)
    | WhenReadable(desc: Descriptor, handler: int, cls: int)
    | WhenWritable(desc: Descriptor, handler: int, cls: int)

  function EventOf(g: Registration): Event {
    match g
    case Later(handler, cls) => DoAddDelayed(handler, cls)
    case WhenReadable(desc, handler, cls) => DoAddRead(desc, handler, cls)
    case WhenWritable(desc, handler, cls) => DoAddWrite(desc, handler, cls)
  }

  function Answer(st: State, g: Registration): Outcome {
    match g
    case Later(handler, cls) => AddDelayed(st, handler, cls)
    case WhenReadable(desc, handler, cls) => AddRead(st, desc, handler, cls)
    case WhenWritable(desc, handler, cls) => AddWrite(st, desc, handler, cls)
  }

  /** The call names no socket, or one that is there. */
  predicate HasSocket(st: State, g: Registration) {
    g.Later? || g.desc in st.net.sockets
  }

  /** The task is pending and armed, under a handle of its own. */
  ghost predicate Registered(st: State, st': State, id: int, g: Registration) {
    && id > 0 && id !in st.past.scheduled && id !in st.sched.tasks && id !in st.sched.timers
    && id in st'.sched.tasks && id in st'.sched.timers && id in st'.past.scheduled
    && st'.past.scheduled[id] == (g.handler, g.cls)
    && (g.WhenReadable? ==> g.desc in st'.net.sockets && st'.net.sockets[g.desc].task == Some(id))
    && st'.sched.tasks - {id} == st.sched.tasks && st'.sched.timers - {id} == st.sched.timers
  }

  /** Registering returns the handle of the new task; without a socket it returns 0 and registers nothing. */
  lemma {:induction false} RegisteringReturnsHandle(st: State, g: Registration)
    requires Inv(st) && Positive(st)
    ensures var r := Answer(st, g);
            && (HasSocket(st, g) ==> Registered(st, r.state, r.value, g))
            && (!HasSocket(st, g) ==> r.value == 0 && r.state == st)
            && r.errno.None?
  {
    EventLoopSafety.FreshHandle(st);
    hide Inv;
    match g
    case Later(handler, cls) => ArmAddsOne(st, Delayed(handler, cls), Task(cls, None));
    case WhenReadable(desc, handler, cls) => ArmAddsOne(st, Reader(desc, handler, cls), Task(cls, Some(desc)));
    case WhenWritable(_, handler, cls) => ArmAddsOne(st, Writer(handler, cls), Task(cls, None));
  }

  lemma {:induction false} ArmAddsOne(st: State, timer: Timer, task: Task)
    requires st.sched.nextTimer !in st.sched.tasks && st.sched.nextTimer !in st.sched.timers
    ensures var st', id := Arm(st, timer, task), st.sched.nextTimer;
            && id in st'.sched.tasks && id in st'.sched.timers
            && st'.sched.tasks - {id} == st.sched.tasks && st'.sched.timers - {id} == st.sched.timers
            && st'.past.scheduled == st.past.scheduled[id := (timer.handler, timer.cls)]
  {
  }

  lemma {:induction false} AnswerIsNext(st: State, g: Registration)
    requires Enabled(st, EventOf(g))
    ensures Answer(st, g).state == Next(st, EventOf(g))
  {
  }

  /** Once registered, the task stays the one that the handle stands for. */
  lemma {:induction false} HandleStands(st: State, g: Registration, id: TaskId, evs: seq<Event>)
    requires Inv(st) && Positive(st) && HasSocket(st, g) && Enabled(st, EventOf(g)) && Answer(st, g).value == id
    requires Legal(Answer(st, g).state, evs)
    ensures var st' := After(Answer(st, g).state, evs);
            Inv(st') && id in st'.past.scheduled && st'.past.scheduled[id] == (g.handler, g.cls)
  {
    hide Inv, Enabled, Next, Answer, HasSocket;
    RegisteringReturnsHandle(st, g);
    AnswerIsNext(st, g);
    NextKeepsInv(st, EventOf(g));
    EventLoopSafety.RunKeepsInv(Answer(st, g).state, evs);
    EventLoopSafety.RunExtends(Answer(st, g).state, evs);
  }

  /** Cancelling by the handle that registering returned, at any later time: if the task is still pending, its
      closure comes back and in no later state has its handler been entered; if it is not, it ran or was
      cancelled before. */
  lemma {:induction false} CancelledHandleNeverRuns(st: State, g: Registration, id: TaskId, evs: seq<Event>,
          more: seq<Event>)
    requires Reachable(st) && HasSocket(st, g) && Enabled(st, EventOf(g)) && Answer(st, g).value == id
    requires Legal(Answer(st, g).state, evs) && Legal(Cancel(After(Answer(st, g).state, evs), id).state, more)
    ensures var st' := After(Answer(st, g).state, evs);
            if id in st'.sched.tasks then
              && Cancel(st', id).value == g.cls
              && forall h, c :: Ran(id, h, c) !in After(Cancel(st', id).state, more).past.fates
            else Ran(id, g.handler, g.cls) in st'.past.fates || Cancelled(id, g.cls) in st'.past.fates
  {
    hide Inv, Enabled, HasSocket, Answer, Cancel, Legal, After;
    ReachableFits(st);
    HandleStands(st, g, id, evs);
    var st' := After(Answer(st, g).state, evs);
    if id in st'.sched.tasks { EventLoopSafety.CancelledStays(st', id, more); } else { Settled(st', id); }
  }

  lemma {:induction false} Settled(st: State, id: TaskId)
    requires Inv(st) && id in st.past.scheduled && id !in st.sched.tasks
    ensures RanFate(st.past.scheduled, id) in st.past.fates || CancelledFate(st.past.scheduled, id) in st.past.fates
  {
  }

  /** Cancel takes one task from both tables and disarms it, and gives back the closure it was scheduled with;
      0 if it was not pending. */
  lemma {:induction false} CancelTakesOne(st: State, id: TaskId)
    requires Inv(st)
    ensures var r := Cancel(st, id);
            && r.errno.None?
            && r.state.sched == Scheduler(st.sched.tasks - {id}, st.sched.timers - {id}, st.sched.nextTimer)
            && (id in st.sched.tasks ==> id in st.past.scheduled && r.value == st.past.scheduled[id].1)
            && (id !in st.sched.tasks ==> r.value == 0)
            && r.state.net.sockets.Keys == st.net.sockets.Keys
            && forall s | s in st.net.sockets ::
                 r.state.net.sockets[s] ==
                 if st.net.sockets[s].task == Some(id) then st.net.sockets[s].(task := None) else st.net.sockets[s]
  {
    CancelForgets(st, id);
    assert id in st.sched.tasks ==> id in st.past.scheduled && st.sched.tasks[id].cls == st.past.scheduled[id].1 by {
      hide Coherent, HandlersFit, TimersFit, Armed, Conserved, KindsFit, DescriptorsFit;
    }
    hide Inv, ForgetReader;
  }

  lemma {:induction false} CancelForgets(st: State, id: TaskId)
    requires Coherent(st.sched, st.net)
    ensures var sockets := Cancel(st, id).state.net.sockets;
            && sockets.Keys == st.net.sockets.Keys
            && forall s | s in st.net.sockets ::
                 sockets[s] ==
                 if st.net.sockets[s].task == Some(id) then st.net.sockets[s].(task := None) else st.net.sockets[s]
  {
  }

  // ---------------------------------------------------------------- sockets

  /** The call changed nothing and reported this. */
  ghost predicate Fails(st: State, r: Outcome, value: int, errno: Errno) {
    r.state == st && r.value == value && r.errno == Some(errno)
  }

  /** create succeeds exactly for a Unix stream socket with the default protocol; its descriptor is positive and
      new, and nothing is kept for it until it is connected or bound. */
  lemma {:induction false} CreateAnswers(st: State, domain: int, kind: int, protocol: int)
    requires Inv(st) && Positive(st)
    ensures var r := CreateSocket(st, domain, kind, protocol);
            && (domain != 1 ==> Fails(st, r, 0, EAFNOSUPPORT))
            && (domain == 1 && (kind, protocol) != (1, 0) ==> Fails(st, r, 0, EPROTONOSUPPORT))
            && ((domain, kind, protocol) == (1, 1, 0) ==>
                  && r.errno.None? && r.value > 0 && r.value !in st.net.sockets
                  && r.state == st.(net := st.net.(nextSocket := r.value + 1)))
  {
    assert st.net.nextSocket !in st.net.sockets by { hide Coherent, HandlersFit, Conserved, Armed; }
    hide Inv;
  }

  /** A free handle with a Unix address and a message channel becomes a socket, with the service's name; the
      call succeeds exactly if the service takes the other end. In every other case nothing changes. */
  lemma {:induction false} ConnectAnswers(st: State, desc: Descriptor, family: int, path: string, channel: Channel)
    ensures var r := ConnectSocket(st, desc, family, path, channel);
            && (desc in st.net.sockets ==> Fails(st, r, -1, EISCONN))
            && (desc !in st.net.sockets && family != 1 ==> Fails(st, r, -1, EAFNOSUPPORT))
            && (desc !in st.net.sockets && family == 1 && channel.Unsupported? ==> Fails(st, r, -1, ENETUNREACH))
            && (desc !in st.net.sockets && family == 1 && !channel.Unsupported? ==>
                  && r.value == (if channel.Delivered? then 1 else -1)
                  && r.errno == (if channel.Delivered? then None else Some(ENETUNREACH))
                  && r.state.net.sockets.Keys == st.net.sockets.Keys + {desc}
                  && r.state.net.sockets - {desc} == st.net.sockets
                  && r.state.net.sockets[desc].name == path && r.state.net.sockets[desc].task.None?
                  && r.state.net.sockets[desc].hasPort && r.state.net.sockets[desc].queue == Some([])
                  && r.state.net.(sockets := st.net.sockets) == st.net)
  {
  }

  /** bind makes a socket without a port exactly on a free handle and for an address of full length. */
  lemma {:induction false} BindAnswers(st: State, desc: Descriptor, addressLength: int)
    ensures var r := BindSocket(st, desc, addressLength);
            && (desc in st.net.sockets || addressLength != 110 ==> Fails(st, r, -1, EINVAL))
            && (desc !in st.net.sockets && addressLength == 110 ==>
                  && r.errno.None? && r.value == 1
                  && r.state.net.sockets.Keys == st.net.sockets.Keys + {desc}
                  && r.state.net.sockets - {desc} == st.net.sockets
                  && !r.state.net.sockets[desc].hasPort && r.state.net.sockets[desc].queue.None?
                  && r.state.net.sockets[desc].task.None?
                  && r.state.net.(sockets := st.net.sockets) == st.net && r.state.past == st.past)
  {
  }

  /** send succeeds exactly on a socket whose port takes the message. Then all octets are posted, as one packet
      behind those posted before, and counted; else nothing is. */
  lemma {:induction false} SendAnswers(st: State, desc: Descriptor, bytes: Bytes, accepted: bool)
    requires Inv(st)
    ensures var r := SendTo(st, desc, bytes, accepted);
            && (desc !in st.net.sockets ==> Fails(st, r, -1, ENOTCONN))
            && (desc in st.net.sockets && !(st.net.sockets[desc].hasPort && accepted) ==>
                  Fails(st, r, -1, ECONNRESET))
            && (desc in st.net.sockets && st.net.sockets[desc].hasPort && accepted ==>
                  && r.errno.None? && r.value == |bytes| && desc in st.past.posted
                  && r.state.past.posted == st.past.posted[desc := st.past.posted[desc] + [Data(bytes)]]
                  && r.state.(past := st.past) == st && r.state.past.(posted := st.past.posted) == st.past)
  {
    if desc in st.net.sockets && st.net.sockets[desc].hasPort {
      assert desc in st.past.posted by { hide Coherent, HandlersFit, Conserved, Armed, Known, TimersFit; }
    }
    hide Inv;
  }

  /** close always succeeds. The peer of a port is told, once; afterwards every call on the descriptor finds no
      socket, and all other sockets are as before. */
  lemma {:induction false} CloseAnswers(st: State, desc: Descriptor)
    requires Inv(st)
    ensures var r := CloseSocket(st, desc);
            && r.errno.None? && r.value == 1 && desc !in r.state.net.sockets
            && (forall s | s != desc ::
                  && (s in r.state.net.sockets <==> s in st.net.sockets)
                  && (s in st.net.sockets ==> r.state.net.sockets[s] == st.net.sockets[s]))
            && r.state.net.(sockets := st.net.sockets) == st.net
            && (if desc in st.net.sockets && st.net.sockets[desc].hasPort then
                  desc in st.past.posted
                  && r.state.past == st.past.(posted := st.past.posted[desc := st.past.posted[desc] + [Close]])
                else r.state.past == st.past)
  {
    if desc in st.net.sockets && st.net.sockets[desc].hasPort {
      assert desc in st.past.posted by { hide Coherent, HandlersFit, Conserved, Armed, Known, TimersFit; }
    }
    hide Inv;
  }

  /** recv copies the lesser of what is asked for and what the first chunk holds, and returns that number; the
      remainder of the chunk stays at the head. "close" gives 0 and stays. */
  lemma {:induction false} RecvReports(st: State, desc: Descriptor, length: nat)
    requires HasQueue(st, desc)
    ensures var r := Recv(st, desc, length);
            if desc !in st.net.sockets then Fails(st, r, -1, ENOTCONN)
            else if st.net.sockets[desc].queue.value == [] then Fails(st, r, -1, EWOULDBLOCK)
            else
              match st.net.sockets[desc].queue.value[0]
              case Close => r.errno.None? && r.value == 0 && r.state == st && Received(st, desc, length) == []
              case Data(chunk) =>
                && r.errno.None? && r.value == (if length < |chunk| then length else |chunk|)
                && Received(st, desc, length) == chunk[..r.value]
                && desc in r.state.net.sockets && r.state.net.sockets[desc].queue.Some?
                && r.state.net.sockets[desc].queue.value ==
                   (if r.value < |chunk| then [Data(chunk[r.value..])] else [])
                   + st.net.sockets[desc].queue.value[1..]
                && r.state.net.sockets - {desc} == st.net.sockets - {desc}
  {
  }

  /** isset counts what accept or recv could take next; a write set is always set. */
  lemma {:induction false} IsSetCounts(st: State, fds: int, desc: Descriptor)
    requires st.net.listening != Some(desc) ==> HasQueue(st, desc)
    ensures var r := IsSet(st, fds, desc);
            && (fds == 2 ==> r == 1)
            && (fds != 2 && st.net.listening == Some(desc) ==> r == |st.net.incoming|)
            && (fds != 2 && st.net.listening != Some(desc) ==>
                  r == if desc in st.net.sockets then |st.net.sockets[desc].queue.value| else 0)
  {
  }

  // ---------------------------------------------------------------- listening and accepting

  /** The first descriptor listened on is recorded; as long as there is one, listening fails and changes
      nothing. */
  lemma {:induction false} ListenAnswers(st: State, desc: Descriptor)
    ensures var r := ListenOn(st, desc);
            && (st.net.listening.None? ==>
                  r.value == 1 && r.state == st.(net := st.net.(listening := Some(desc))))
            && (st.net.listening.Some? ==> r.value == -1 && r.state == st)
            && r.errno.None?
  {
  }

  lemma {:induction false} NextKeepsListening(st: State, ev: Event)
    requires Enabled(st, ev) && st.net.listening.Some?
    ensures Next(st, ev).net.listening == st.net.listening
  {
    hide Wake;
    if ev.OnMessage? { WakeKeepsListening(Push(st, ev.desc, ev.packet), ev.desc); }
    if ev.OnConnect? {
      WakeKeepsListening(st.(net := st.net.(incoming := st.net.incoming + [ev.connection])), st.net.listening.value);
    }
  }

  lemma {:induction false} WakeKeepsListening(st: State, desc: Descriptor)
    ensures Wake(st, desc).net.listening == st.net.listening
  {
  }

  /** The first descriptor listened on stays the only one. */
  lemma {:induction false} FirstListenerStays(st: State, evs: seq<Event>)
    requires Legal(st, evs) && st.net.listening.Some?
    ensures After(st, evs).net.listening == st.net.listening
    decreases |evs|
  {
    hide Enabled, Next;
    if evs != [] {
      NextKeepsListening(st, evs[0]);
      FirstListenerStays(Next(st, evs[0]), evs[1..]);
    }
  }

  /** accept succeeds exactly on the descriptor listened on, with a connection waiting and room for its address.
      It takes the oldest connection, whose name the new socket bears; the descriptor is positive and new. */
  lemma {:induction false} AcceptAnswers(st: State, desc: Descriptor, addressLength: int)
    requires Inv(st) && Positive(st)
    ensures var r := AcceptOn(st, desc, addressLength);
            if st.net.listening != Some(desc) then Fails(st, r, 0, EINVAL)
            else if st.net.incoming == [] then Fails(st, r, 0, EWOULDBLOCK)
            else if addressLength < 110 then Fails(st, r, 0, EINVAL)
            else
              && r.errno.None? && r.value > 0 && r.value !in st.net.sockets && r.value !in st.past.posted
              && r.value in r.state.net.sockets && r.state.net.sockets - {r.value} == st.net.sockets
              && [Connection(r.state.net.sockets[r.value].name)] + r.state.net.incoming == st.net.incoming
              && r.state.net.sockets[r.value].hasPort && r.state.net.sockets[r.value].queue == Some([])
              && r.state.net.sockets[r.value].task.None? && r.state.net.listening == Some(desc)
  {
    assert st.net.nextSocket !in st.net.sockets && st.net.nextSocket !in st.past.posted by {
      hide Coherent, HandlersFit, Conserved, Armed, Known, TimersFit;
    }
    hide Inv;
    assert st.net.incoming != [] ==> st.net.incoming == [st.net.incoming[0]] + st.net.incoming[1..];
  }

  /** After listening succeeds, and whatever happens then, accept on that descriptor takes the oldest connection
      whenever one waits; it fails on every other descriptor, and listening again fails. */
  lemma {:induction false} ListenThenAccept(st: State, desc: Descriptor, evs: seq<Event>, addressLength: int)
    requires Inv(st) && Positive(st) && st.net.listening.None? && Enabled(st, DoListen(desc))
    requires Legal(ListenOn(st, desc).state, evs)
    ensures var st' := After(ListenOn(st, desc).state, evs);
            && ListenOn(st, desc).value == 1
            && (st'.net.incoming != [] && 110 <= addressLength ==>
                  Accepts(st', AcceptOn(st', desc, addressLength), st'.net.incoming[0]))
            && (forall other | other != desc :: Fails(st', AcceptOn(st', other, addressLength), 0, EINVAL))
            && (forall other :: ListenOn(st', other) == Outcome(st', -1, None))
  {
    hide Inv, Enabled, Next, Fails, Accepts;
    ListenAnswers(st, desc);
    ListenKeepsInv(st, desc);
    var listening := ListenOn(st, desc).state;
    EventLoopSafety.RunKeepsInv(listening, evs);
    RunKeepsPositive(listening, evs);
    FirstListenerStays(listening, evs);
    hide ListenOn;
    var st' := After(listening, evs);
    AcceptTakesOldest(st', desc, addressLength);
    forall other | other != desc ensures Fails(st', AcceptOn(st', other, addressLength), 0, EINVAL) {
      AcceptAnswers(st', other, addressLength);
    }
    forall other ensures ListenOn(st', other) == Outcome(st', -1, None) { ListenAnswers(st', other); }
  }

  /** The call took the connection: a new socket of its name is open under the descriptor returned. */
  ghost predicate Accepts(st: State, r: Outcome, connection: Connection) {
    && r.errno.None? && r.value > 0 && r.value !in st.net.sockets && r.value in r.state.net.sockets
    && r.state.net.sockets[r.value].name == connection.clientName
    && r.state.net.sockets - {r.value} == st.net.sockets && [connection] + r.state.net.incoming == st.net.incoming
  }

  lemma {:induction false} AcceptTakesOldest(st: State, desc: Descriptor, addressLength: int)
    requires Inv(st) && Positive(st) && st.net.listening == Some(desc)
    ensures st.net.incoming != [] && 110 <= addressLength ==>
              Accepts(st, AcceptOn(st, desc, addressLength), st.net.incoming[0])
  {
    hide Inv, AcceptOn;
    AcceptAnswers(st, desc, addressLength);
  }

  /** A service: create, bind and listen succeed on one new descriptor when nothing is listened on; from then
      on, accept takes the connections announced. */
  lemma {:induction false} ServiceAccepts(st: State, desc: Descriptor, evs: seq<Event>, addressLength: int)
    requires Reachable(st) && st.net.listening.None? && CreateSocket(st, 1, 1, 0).value == desc
    requires Legal(ListenOn(BindSocket(CreateSocket(st, 1, 1, 0).state, desc, 110).state, desc).state, evs)
    ensures var bound := BindSocket(CreateSocket(st, 1, 1, 0).state, desc, 110);
            var st' := After(ListenOn(bound.state, desc).state, evs);
            && desc > 0 && bound.value == 1 && ListenOn(bound.state, desc).value == 1
            && (st'.net.incoming != [] && 110 <= addressLength ==>
                  Accepts(st', AcceptOn(st', desc, addressLength), st'.net.incoming[0]))
  {
    hide Inv, Positive, Reachable, CreateSocket, BindSocket, ListenOn, AcceptOn, Accepts, Legal, After;
    ReachableFits(st);
    CreateAnswers(st, 1, 1, 0);
    CreateKeepsInv(st, 1, 1, 0);
    var created := CreateSocket(st, 1, 1, 0).state;
    BindAnswers(created, desc, 110);
    BindKeepsInv(created, desc, 110);
    var bound := BindSocket(created, desc, 110).state;
    assert Positive(bound) by { StaysPositive(st, created, bound); }
    ListenThenAccept(bound, desc, evs, addressLength);
  }

  lemma {:induction false} StaysPositive(st: State, created: State, bound: State)
    requires Positive(st)
    requires created.sched == st.sched && created.net.nextSocket > 0
    requires bound.sched == created.sched && bound.net.nextSocket == created.net.nextSocket
    ensures Positive(bound)
  {
  }

  /** A client: create and connect succeed on one new descriptor, which can then send. */
  lemma {:induction false} ClientConnects(st: State, desc: Descriptor, path: string, bytes: Bytes)
    requires Reachable(st) && CreateSocket(st, 1, 1, 0).value == desc
    ensures var connected := ConnectSocket(CreateSocket(st, 1, 1, 0).state, desc, 1, path, Delivered);
            && desc > 0 && connected.value == 1 && desc in connected.state.net.sockets
            && connected.state.net.sockets[desc].name == path
            && SendTo(connected.state, desc, bytes, true).value == |bytes|
  {
    hide Inv, Positive, Reachable, CreateSocket, ConnectSocket, SendTo;
    ReachableFits(st);
    CreateAnswers(st, 1, 1, 0);
    CreateKeepsInv(st, 1, 1, 0);
    var created := CreateSocket(st, 1, 1, 0).state;
    NotListenedOn(st, desc);
    ConnectAnswers(created, desc, 1, path, Delivered);
    ConnectKeepsInv(created, desc, 1, path, Delivered);
    SendAnswers(ConnectSocket(created, desc, 1, path, Delivered).state, desc, bytes, true);
  }

  lemma {:induction false} NotListenedOn(st: State, desc: Descriptor)
    requires Inv(st) && desc == CreateSocket(st, 1, 1, 0).value
    ensures st.net.listening != Some(desc)
  {
  }
}
