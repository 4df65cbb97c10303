/** The tables as the source keeps them: objects that the calls and callbacks update in place. */
module EventLoopTables {
  import opened Wrappers
  import opened Octets
  import opened EventLoop
  import opened EventLoopRuns
  import EventLoopSafety

  class Tables {
    var tasks: map<TaskId, Task>
    var timers: map<TaskId, Timer>
    var nextTimer: TaskId
    var sockets: map<Descriptor, Socket>
    var listening: Option<Descriptor>
    var incoming: seq<Connection>
    var nextSocket: Descriptor
    ghost var past: Past

    ghost function View(): State
      reads this
    {
      State(Scheduler(tasks, timers, nextTimer), Network(sockets, listening, incoming, nextSocket), past)
    }

    ghost predicate Valid()
      reads this
    {
      Inv(View())
    }

    constructor ()
      ensures Valid() && View() == INITIAL
    {
      tasks, timers, nextTimer := map[], map[], 1;
      sockets, listening, incoming, nextSocket := map[], None, [], 1;
      past := INITIAL.past;
      new;
      EventLoopSafety.InitialInv();
    }

    // -------------------------------------------------------------- network.js

    method SocketCreate(domain: int, kind: int, protocol: int) returns (r: int, errno: Option<Errno>)
      requires Valid()
      modifies this
      ensures Valid() && Outcome(View(), r, errno) == CreateSocket(old(View()), domain, kind, protocol)
    {
      hide Inv;
      CreateKeepsInv(View(), domain, kind, protocol);
      if domain != 1 { return 0, Some(EAFNOSUPPORT); }
      if kind != 1 || protocol != 0 { return 0, Some(EPROTONOSUPPORT); }
      r, errno := nextSocket, None;
      nextSocket := nextSocket + 1;
    }

    method SocketConnect(desc: Descriptor, family: int, path: string, channel: Channel)
      returns (r: int, errno: Option<Errno>)
      requires Valid()
      modifies this
      ensures Outcome(View(), r, errno) == ConnectSocket(old(View()), desc, family, path, channel)
      ensures old(Enabled(View(), DoConnect(desc, family, path, channel))) ==> Valid()
    {
      hide Inv;
      if Enabled(View(), DoConnect(desc, family, path, channel)) {
        ConnectKeepsInv(View(), desc, family, path, channel);
      }
      if desc in sockets { return -1, Some(EISCONN); }
      if family != 1 { return -1, Some(EAFNOSUPPORT); }
      if channel == Unsupported { return -1, Some(ENETUNREACH); }
      sockets := sockets[desc := Socket(true, path, Some([]), None, 0, 0)];
      past := past.(
        posted := past.posted[desc := []],
        arrived := past.arrived[desc := []],
        read := past.read[desc := []]);
      if channel == Refused { return -1, Some(ENETUNREACH); }
      r, errno := 1, None;
    }

    method SocketSend(desc: Descriptor, bytes: Bytes, accepted: bool) returns (r: int, errno: Option<Errno>)
      requires Valid()
      modifies this
      ensures Valid() && Outcome(View(), r, errno) == SendTo(old(View()), desc, bytes, accepted)
    {
      hide Inv;
      SendKeepsInv(View(), desc, bytes, accepted);
      if desc !in sockets { return -1, Some(ENOTCONN); }
      if !sockets[desc].hasPort || !accepted { return -1, Some(ECONNRESET); }
      past := Post(View(), desc, Data(bytes)).past;
      r, errno := |bytes|, None;
    }

    method SocketClose(desc: Descriptor) returns (r: int)
      requires Valid()
      modifies this
      ensures Outcome(View(), r, None) == CloseSocket(old(View()), desc)
      ensures old(Enabled(View(), DoClose(desc))) ==> Valid()
    {
      hide Inv;
      if Enabled(View(), DoClose(desc)) { CloseKeepsInv(View(), desc); }
      if desc !in sockets { return 1; }
      if sockets[desc].hasPort { past := Post(View(), desc, Close).past; }
      sockets := sockets - {desc};
      r := 1;
    }

    method SocketBind(desc: Descriptor, addressLength: int) returns (r: int, errno: Option<Errno>)
      requires Valid()
      modifies this
      ensures Outcome(View(), r, errno) == BindSocket(old(View()), desc, addressLength)
      ensures old(Enabled(View(), DoBind(desc, addressLength))) ==> Valid()
    {
      hide Inv;
      if Enabled(View(), DoBind(desc, addressLength)) { BindKeepsInv(View(), desc, addressLength); }
      if desc in sockets { return -1, Some(EINVAL); }
      if UNIX_ADDRESS_LENGTH != addressLength { return -1, Some(EINVAL); }
      sockets := sockets[desc := Socket(false, "", None, None, 0, 0)];
      r, errno := 1, None;
    }

    method SocketListen(desc: Descriptor) returns (r: int)
      requires Valid()
      modifies this
      ensures Outcome(View(), r, None) == ListenOn(old(View()), desc)
      ensures old(Enabled(View(), DoListen(desc))) ==> Valid()
    {
      hide Inv;
      if Enabled(View(), DoListen(desc)) { ListenKeepsInv(View(), desc); }
      if listening.Some? { return -1; }
      listening := Some(desc);
      r := 1;
    }

    method SocketAccept(desc: Descriptor, addressLength: int) returns (r: int, errno: Option<Errno>)
      requires Valid()
      modifies this
      ensures Valid() && Outcome(View(), r, errno) == AcceptOn(old(View()), desc, addressLength)
    {
      hide Inv;
      AcceptKeepsInv(View(), desc, addressLength);
      if listening != Some(desc) { return 0, Some(EINVAL); }
      if incoming == [] { return 0, Some(EWOULDBLOCK); }
      if addressLength < UNIX_ADDRESS_LENGTH { return 0, Some(EINVAL); }
      var data := incoming[0];
      incoming := incoming[1..];
      var sd := nextSocket;
      nextSocket := nextSocket + 1;
      sockets := sockets[sd := Socket(true, data.clientName, Some([]), None, 0, 0)];
      past := past.(posted := past.posted[sd := []], arrived := past.arrived[sd := []], read := past.read[sd := []]);
      r, errno := sd, None;
    }

    method SocketRecv(desc: Descriptor, length: nat) returns (r: int, errno: Option<Errno>, buffer: Bytes)
      requires Valid() && Enabled(View(), DoRecv(desc, length))
      modifies this
      ensures Valid() && Outcome(View(), r, errno) == Recv(old(View()), desc, length)
      ensures buffer == Received(old(View()), desc, length)
    {
      hide Inv;
      RecvKeepsInv(View(), desc, length);
      if desc !in sockets { return -1, Some(ENOTCONN), []; }
      var socket := sockets[desc];
      if socket.queue.value == [] { return -1, Some(EWOULDBLOCK), []; }
      var data := socket.queue.value[0];
      if data == Close { return 0, None, []; }
      buffer := if length < |data.bytes| then data.bytes[..length] else data.bytes;
      var queue := socket.queue.value;
      if |buffer| == |data.bytes| {
        queue := queue[1..];
      } else {
        queue := [Data(data.bytes[|buffer|..])] + queue[1..];
      }
      sockets := sockets[desc := socket.(queue := Some(queue))];
      past := past.(read := Recorded(past.read, desc, buffer));
      r, errno := |buffer|, None;
    }

    method FdsetIsset(fds: int, desc: Descriptor) returns (r: nat)
      requires Valid() && (listening != Some(desc) ==> HasQueue(View(), desc))
      ensures r == IsSet(View(), fds, desc)
      ensures fds != 2 ==> (r > 0 <==> Ready(View().net, desc))
    {
      hide Inv;
      EventLoopSafety.IsSetIffReady(View(), if fds == 2 then 0 else fds, desc);
      if fds == 2 { return 1; }
      if listening == Some(desc) { return |incoming|; }
      if desc in sockets { return |sockets[desc].queue.value|; }
      r := 0;
    }

    // -------------------------------------------------------------- scheduler.js

    method SchedulerAddDelayed(handler: int, cls: int) returns (id: TaskId)
      requires Valid()
      modifies this
      ensures Valid() && Outcome(View(), id, None) == AddDelayed(old(View()), handler, cls)
    {
      hide Inv;
      ArmKeepsInv(View(), Delayed(handler, cls), Task(cls, None));
      id := nextTimer;
      timers, nextTimer := timers[id := Delayed(handler, cls)], id + 1;
      tasks := tasks[id := Task(cls, None)];
      past := past.(scheduled := past.scheduled[id := (handler, cls)]);
    }

    method SchedulerAddReadNet(desc: Descriptor, handler: int, cls: int) returns (id: TaskId)
      requires Valid()
      modifies this
      ensures Outcome(View(), id, None) == AddRead(old(View()), desc, handler, cls)
      ensures old(Enabled(View(), DoAddRead(desc, handler, cls))) ==> Valid()
    {
      hide Inv;
      if Enabled(View(), DoAddRead(desc, handler, cls)) { AddReadKeepsInv(View(), desc, handler, cls); }
      if desc !in sockets { return 0; }
      id := nextTimer;
      timers, nextTimer := timers[id := Reader(desc, handler, cls)], id + 1;
      tasks := tasks[id := Task(cls, Some(desc))];
      sockets := sockets[desc := sockets[desc].(handler := handler, cls := cls, task := Some(id))];
      past := past.(scheduled := past.scheduled[id := (handler, cls)]);
    }

    method SchedulerAddWriteNet(desc: Descriptor, handler: int, cls: int) returns (id: TaskId)
      requires Valid()
      modifies this
      ensures Valid() && Outcome(View(), id, None) == AddWrite(old(View()), desc, handler, cls)
    {
      hide Inv;
      ArmKeepsInv(View(), Writer(handler, cls), Task(cls, None));
      if desc !in sockets { return 0; }
      id := nextTimer;
      timers, nextTimer := timers[id := Writer(handler, cls)], id + 1;
      tasks := tasks[id := Task(cls, None)];
      past := past.(scheduled := past.scheduled[id := (handler, cls)]);
    }

    method SchedulerCancel(task: TaskId) returns (cls: int)
      requires Valid()
      modifies this
      ensures Valid() && Outcome(View(), cls, None) == Cancel(old(View()), task)
    {
      hide Inv;
      CancelKeepsInv(View(), task);
      timers := timers - {task};
      if task !in tasks { return 0; }
      var t := tasks[task];
      tasks := tasks - {task};
      if t.socket.Some? && t.socket.value in sockets {
        sockets := sockets[t.socket.value := sockets[t.socket.value].(task := None)];
      }
      past := past.(fates := past.fates + multiset{Cancelled(task, t.cls)});
      cls := t.cls;
    }

    // -------------------------------------------------------------- events of the browser

    ghost predicate FiredFrom(before: State, id: TaskId, after: State) {
      id in before.sched.timers && after == TimerFires(before, id)
    }

    /** A callback of setTimeout; `entered` is the handler and closure it calls, if any. */
    method FireTimer(id: TaskId) returns (entered: Option<(int, int)>)
      requires Valid() && id in timers
      modifies this
      ensures Valid() && FiredFrom(old(View()), id, View())
      ensures entered.None? ==> past.fates == old(past.fates)
      ensures entered.Some? ==> past.fates == old(past.fates) + multiset{Ran(id, entered.value.0, entered.value.1)}
    {
      hide Inv;
      TimerKeepsInv(View(), id);
      var timer := timers[id];
      timers := timers - {id};
      if timer.Reader? {
        var s := timer.socket;
        if listening == Some(s) {
          if incoming == [] { return None; }
        } else if s !in sockets || sockets[s].queue.None? || sockets[s].queue.value == [] {
          return None;
        }
      }
      if !timer.Delayed? && id !in tasks { return None; }
      tasks := tasks - {id};
      if timer.Reader? && timer.socket in sockets {
        sockets := sockets[timer.socket := sockets[timer.socket].(task := None)];
      }
      past := past.(fates := past.fates + multiset{Ran(id, timer.handler, timer.cls)});
      entered := Some((timer.handler, timer.cls));
    }

    /** The callback of a port, or of a window for the listening socket, finds the reader of a socket. */
    method WakeReader(desc: Descriptor) returns (entered: Option<(int, int)>)
      modifies this
      ensures View() == Wake(old(View()), desc)
      ensures entered.Some? <==> old(desc in sockets && sockets[desc].task.Some?)
      ensures entered.Some? ==> entered.value == (old(sockets)[desc].handler, old(sockets)[desc].cls)
    {
      if desc !in sockets || sockets[desc].task.None? { return None; }
      var socket := sockets[desc];
      tasks := tasks - {socket.task.value};
      sockets := sockets[desc := socket.(task := None)];
      past := past.(fates := past.fates + multiset{Ran(socket.task.value, socket.handler, socket.cls)});
      entered := Some((socket.handler, socket.cls));
    }

    method DeliverMessage(desc: Descriptor, packet: Packet) returns (entered: Option<(int, int)>)
      requires Valid() && Enabled(View(), OnMessage(desc, packet))
      modifies this
      ensures Valid() && View() == MessageArrives(old(View()), desc, packet)
      ensures entered.Some? <==> old(sockets)[desc].task.Some?
      ensures entered.Some? ==> entered.value == (old(sockets)[desc].handler, old(sockets)[desc].cls)
    {
      hide Inv, Wake;
      MessageKeepsInv(View(), desc, packet);
      sockets := sockets[desc := sockets[desc].(queue := Some(sockets[desc].queue.value + [packet]))];
      past := past.(arrived := Recorded(past.arrived, desc, [packet]));
      entered := WakeReader(desc);
    }

    method DeliverConnect(connection: Connection) returns (entered: Option<(int, int)>)
      requires Valid()
      modifies this
      ensures Valid() && View() == ConnectArrives(old(View()), connection)
      ensures entered.Some? <==> Listener(old(View()).net).Some?
      ensures entered.Some? ==>
              var socket := old(sockets)[old(listening).value]; entered.value == (socket.handler, socket.cls)
    {
      hide Inv, Wake;
      ConnectArrivalKeepsInv(View(), connection);
      incoming := incoming + [connection];
      if listening.None? { return None; }
      entered := WakeReader(listening.value);
    }
  }
}
