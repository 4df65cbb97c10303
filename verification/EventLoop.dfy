/** The tables that scheduler.js, network.js and pre.js share, and what each call or event does to them.
    Each function is one uninterrupted piece of the source: an API call, or a callback of the browser up to
    the moment it enters a handler. A handler is entered last, so what it does are further API calls. */
module EventLoop {
  import opened Wrappers
  import opened Octets

  type Descriptor = nat
  type TaskId = nat

  /** A message on a port: octets, or the string "close". */
  datatype Packet = Data(bytes: Bytes) | Close

  datatype Errno = EAFNOSUPPORT | EPROTONOSUPPORT | EISCONN | ENOTCONN | ENETUNREACH | ECONNRESET | EINVAL | EWOULDBLOCK

  /** How opening a channel to a service can go: no MessageChannel, a failing connect, or success. */
  datatype Channel = Unsupported | Refused | Delivered

  /** An entry of SCHEDULER_TASKS. */
  datatype Task = Task(cls: int, socket: Option<Descriptor>)

  /** A connection that a window announced, by the name of the client. */
  datatype Connection = Connection(clientName: string)

  /** An entry of SOCKETS. A bound socket has neither port nor queue. */
  datatype Socket = Socket(hasPort: bool, name: string, queue: Option<seq<Packet>>, task: Option<TaskId>,
          handler: int, cls: int)

  /** An armed timeout with what its closure captured. */
  datatype Timer =
    | Delayed(handler: int, cls: int)
    | Reader(socket: Descriptor, handler: int, cls: int)
    | Writer(handler: int, cls: int)

  /** What became of a task: its handler was entered, or cancel returned its closure. */
  datatype Fate = Ran(id: TaskId, handler: int, cls: int) | Cancelled(id: TaskId, cls: int)

  /** The tables of scheduler.js and the timeouts of the engine. */
  datatype Scheduler = Scheduler(tasks: map<TaskId, Task>, timers: map<TaskId, Timer>, nextTimer: TaskId)

  /** The tables of network.js. */
  datatype Network = Network(sockets: map<Descriptor, Socket>, listening: Option<Descriptor>,
          incoming: seq<Connection>, nextSocket: Descriptor)

  /** A record of the past that the source does not keep: what was scheduled under each handle and what
      became of it, and for the last connection of each descriptor the packets posted and arrived and the
      octets read. */
  datatype Past = Past(
    scheduled: map<TaskId, (int, int)>,
    fates: multiset<Fate>,
    posted: map<Descriptor, seq<Packet>>,
    arrived: map<Descriptor, seq<Packet>>,
    read: map<Descriptor, Bytes>)

  datatype State = State(sched: Scheduler, net: Network, past: Past)

  datatype Outcome = Outcome(state: State, value: int, errno: Option<Errno>)

  const INITIAL := State(Scheduler(map[], map[], 1), Network(map[], None, [], 1),
      Past(map[], multiset{}, map[], map[], map[]))

  const UNIX_ADDRESS_LENGTH := 110

  function Success(st: State, value: int): Outcome { Outcome(st, value, None) }

  function Failure(st: State, value: int, errno: Errno): Outcome { Outcome(st, value, Some(errno)) }

  /** The scheduler's tables, and the fates of its tasks, are as before. */
  ghost predicate SameTasks(st: State, st': State) {
    st'.sched == st.sched && st'.past.scheduled == st.past.scheduled && st'.past.fates == st.past.fates
  }

  // ---------------------------------------------------------------- network.js

  function CreateSocket(st: State, domain: int, kind: int, protocol: int): (r: Outcome)
    ensures SameTasks(st, r.state)
  {
    if domain != 1 then Failure(st, 0, EAFNOSUPPORT)
    else if kind != 1 || protocol != 0 then Failure(st, 0, EPROTONOSUPPORT)
    else Success(st.(net := st.net.(nextSocket := st.net.nextSocket + 1)), st.net.nextSocket)
  }

  /** A socket with a port: an empty queue that its port's messages are pushed to. */
  function OpenSocket(st: State, desc: Descriptor, name: string): State {
    State(st.sched,
          st.net.(sockets := st.net.sockets[desc := Socket(true, name, Some([]), None, 0, 0)]),
          st.past.(
            posted := st.past.posted[desc := []],
            arrived := st.past.arrived[desc := []],
            read := st.past.read[desc := []]))
  }

  function ConnectSocket(st: State, desc: Descriptor, family: int, path: string, channel: Channel): (r: Outcome)
    ensures SameTasks(st, r.state)
  {
    if desc in st.net.sockets then Failure(st, -1, EISCONN)
    else if family != 1 then Failure(st, -1, EAFNOSUPPORT)
    else if channel == Unsupported then Failure(st, -1, ENETUNREACH)
    else if channel == Refused then Failure(OpenSocket(st, desc, path), -1, ENETUNREACH)
    else Success(OpenSocket(st, desc, path), 1)
  }

  /** More at the end of what is recorded for a descriptor. */
  function Recorded<T>(streams: map<Descriptor, seq<T>>, desc: Descriptor, more: seq<T>): map<Descriptor, seq<T>> {
    streams[desc := (if desc in streams then streams[desc] else []) + more]
  }

  function Post(st: State, desc: Descriptor, packet: Packet): State {
    st.(past := st.past.(posted := Recorded(st.past.posted, desc, [packet])))
  }

  /** `accepted` is whether postMessage returned; on a socket without a port it cannot. */
  function SendTo(st: State, desc: Descriptor, bytes: Bytes, accepted: bool): (r: Outcome)
    ensures SameTasks(st, r.state)
  {
    if desc !in st.net.sockets then Failure(st, -1, ENOTCONN)
    else if !st.net.sockets[desc].hasPort || !accepted then Failure(st, -1, ECONNRESET)
    else Success(Post(st, desc, Data(bytes)), |bytes|)
  }

  function CloseSocket(st: State, desc: Descriptor): (r: Outcome)
    ensures SameTasks(st, r.state)
  {
    if desc !in st.net.sockets then Success(st, 1)
    else
      var st1 := if st.net.sockets[desc].hasPort then Post(st, desc, Close) else st;
      Success(st1.(net := st1.net.(sockets := st1.net.sockets - {desc})), 1)
  }

  function BindSocket(st: State, desc: Descriptor, addressLength: int): (r: Outcome)
    ensures SameTasks(st, r.state)
  {
    if desc in st.net.sockets then Failure(st, -1, EINVAL)
    else if addressLength != UNIX_ADDRESS_LENGTH then Failure(st, -1, EINVAL)
    else Success(st.(net := st.net.(sockets := st.net.sockets[desc := Socket(false, "", None, None, 0, 0)])), 1)
  }

  function ListenOn(st: State, desc: Descriptor): (r: Outcome)
    ensures SameTasks(st, r.state)
  {
    if st.net.listening.Some? then Success(st, -1)
    else Success(st.(net := st.net.(listening := Some(desc))), 1)
  }

  /** The oldest connection that nobody accepted becomes a socket; its name goes to the caller's buffer. */
  function AcceptOn(st: State, desc: Descriptor, addressLength: int): (r: Outcome)
    ensures SameTasks(st, r.state)
  {
    if st.net.listening != Some(desc) then Failure(st, 0, EINVAL)
    else if st.net.incoming == [] then Failure(st, 0, EWOULDBLOCK)
    else if addressLength < UNIX_ADDRESS_LENGTH then Failure(st, 0, EINVAL)
    else
      var st1 := st.(net := st.net.(incoming := st.net.incoming[1..], nextSocket := st.net.nextSocket + 1));
      Success(OpenSocket(st1, st.net.nextSocket, st.net.incoming[0].clientName), st.net.nextSocket)
  }

  /** The octets that a read of `length` takes from the front of a queue, and what stays. */
  function TakeFrom(queue: seq<Packet>, length: nat): (Bytes, seq<Packet>)
    requires queue != [] && queue[0].Data?
  {
    var data := queue[0].bytes;
    if length < |data| then (data[..length], [Data(data[length..])] + queue[1..]) else (data, queue[1..])
  }

  /** The octets that recv copies into the caller's buffer. */
  function Received(st: State, desc: Descriptor, length: nat): Bytes
    requires HasQueue(st, desc)
  {
    if desc in st.net.sockets && st.net.sockets[desc].queue.value != [] && st.net.sockets[desc].queue.value[0].Data?
    then TakeFrom(st.net.sockets[desc].queue.value, length).0 else []
  }

  predicate HasQueue(st: State, desc: Descriptor) {
    desc in st.net.sockets ==> st.net.sockets[desc].queue.Some?
  }

  function Recv(st: State, desc: Descriptor, length: nat): (r: Outcome)
    requires HasQueue(st, desc)
    ensures SameTasks(st, r.state)
  {
    if desc !in st.net.sockets then Failure(st, -1, ENOTCONN)
    else
      var queue := st.net.sockets[desc].queue.value;
      if queue == [] then Failure(st, -1, EWOULDBLOCK)
      else if queue[0] == Close then Success(st, 0)
      else
        var (bytes, rest) := TakeFrom(queue, length);
        Success(
          State(st.sched,
                st.net.(sockets := st.net.sockets[desc := st.net.sockets[desc].(queue := Some(rest))]),
                st.past.(read := Recorded(st.past.read, desc, bytes))),
          |bytes|)
  }

  function IsSet(st: State, fds: int, desc: Descriptor): nat
    requires st.net.listening != Some(desc) ==> HasQueue(st, desc)
  {
    if fds == 2 then 1
    else if st.net.listening == Some(desc) then |st.net.incoming|
    else if desc in st.net.sockets then |st.net.sockets[desc].queue.value|
    else 0
  }

  // ---------------------------------------------------------------- scheduler.js

  /** setTimeout: the engine hands out handles in increasing order. */
  function Arm(st: State, timer: Timer, task: Task): State {
    var id := st.sched.nextTimer;
    State(Scheduler(st.sched.tasks[id := task], st.sched.timers[id := timer], id + 1),
          st.net,
          st.past.(scheduled := st.past.scheduled[id := (timer.handler, timer.cls)]))
  }

  function AddDelayed(st: State, handler: int, cls: int): Outcome {
    Success(Arm(st, Delayed(handler, cls), Task(cls, None)), st.sched.nextTimer)
  }

  function AddRead(st: State, desc: Descriptor, handler: int, cls: int): Outcome {
    if desc !in st.net.sockets then Success(st, 0)
    else
      var id := st.sched.nextTimer;
      var st1 := Arm(st, Reader(desc, handler, cls), Task(cls, Some(desc)));
      var socket := st.net.sockets[desc].(handler := handler, cls := cls, task := Some(id));
      Success(st1.(net := st.net.(sockets := st.net.sockets[desc := socket])), id)
  }

  function AddWrite(st: State, desc: Descriptor, handler: int, cls: int): Outcome {
    if desc !in st.net.sockets then Success(st, 0)
    else Success(Arm(st, Writer(handler, cls), Task(cls, None)), st.sched.nextTimer)
  }

  function ForgetReader(sockets: map<Descriptor, Socket>, desc: Option<Descriptor>): map<Descriptor, Socket> {
    if desc.Some? && desc.value in sockets then sockets[desc.value := sockets[desc.value].(task := None)] else sockets
  }

  function Cancel(st: State, id: TaskId): Outcome {
    var timers := st.sched.timers - {id};
    if id !in st.sched.tasks then Success(st.(sched := st.sched.(timers := timers)), 0)
    else
      var t := st.sched.tasks[id];
      Success(
        State(st.sched.(tasks := st.sched.tasks - {id}, timers := timers),
              st.net.(sockets := ForgetReader(st.net.sockets, t.socket)),
              st.past.(fates := st.past.fates + multiset{Cancelled(id, t.cls)})),
        t.cls)
  }

  // ---------------------------------------------------------------- events of the browser

  /** A handler is entered for a task, which leaves the table. */
  function Enter(st: State, id: TaskId, socket: Option<Descriptor>, handler: int, cls: int): State {
    State(st.sched.(tasks := st.sched.tasks - {id}),
          st.net.(sockets := ForgetReader(st.net.sockets, socket)),
          st.past.(fates := st.past.fates + multiset{Ran(id, handler, cls)}))
  }

  /** Whether the timer of a read task finds something to read. */
  predicate Ready(net: Network, desc: Descriptor) {
    if net.listening == Some(desc) then net.incoming != []
    else desc in net.sockets && net.sockets[desc].queue.Some? && net.sockets[desc].queue.value != []
  }

  function TimerFires(st: State, id: TaskId): State
    requires id in st.sched.timers
  {
    var st1 := st.(sched := st.sched.(timers := st.sched.timers - {id}));
    match st.sched.timers[id]
    case Delayed(handler, cls) => Enter(st1, id, None, handler, cls)
    case Writer(handler, cls) => if id !in st.sched.tasks then st1 else Enter(st1, id, None, handler, cls)
    case Reader(desc, handler, cls) =>
      if !Ready(st.net, desc) || id !in st.sched.tasks then st1 else Enter(st1, id, Some(desc), handler, cls)
  }

  /** The read task of a socket, if it has one, is entered with the handler the socket remembers. */
  function Wake(st: State, desc: Descriptor): State {
    if desc in st.net.sockets && st.net.sockets[desc].task.Some? then
      var socket := st.net.sockets[desc];
      Enter(st, socket.task.value, Some(desc), socket.handler, socket.cls)
    else st
  }

  function Push(st: State, desc: Descriptor, packet: Packet): State
    requires desc in st.net.sockets && st.net.sockets[desc].queue.Some?
  {
    var socket := st.net.sockets[desc];
    State(st.sched,
          st.net.(sockets := st.net.sockets[desc := socket.(queue := Some(socket.queue.value + [packet]))]),
          st.past.(arrived := Recorded(st.past.arrived, desc, [packet])))
  }

  /** onmessage of an open socket's port. */
  function MessageArrives(st: State, desc: Descriptor, packet: Packet): State
    requires desc in st.net.sockets && st.net.sockets[desc].queue.Some?
  {
    Wake(Push(st, desc, packet), desc)
  }

  /** The 'connect' message of a window. */
  function ConnectArrives(st: State, connection: Connection): State {
    var st1 := st.(net := st.net.(incoming := st.net.incoming + [connection]));
    if st.net.listening.Some? then Wake(st1, st.net.listening.value) else st1
  }
}
