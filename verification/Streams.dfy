/** The byte stream of one connected socket: what its calls and messages do to what was posted, arrived,
    queued and read. */
module Streams {
  import opened Octets
  import opened EventLoop
  import opened EventLoopRuns

  /** The octets in a list of packets. */
  function Payload(packets: seq<Packet>): Bytes {
    if packets == [] then [] else (if packets[0].Data? then packets[0].bytes else []) + Payload(packets[1..])
  }

  lemma {:induction false} PayloadOfNothing()
    ensures Payload([]) == []
  {
  }

  lemma {:induction false} PayloadOfConcat(p: seq<Packet>, q: seq<Packet>)
    ensures Payload(p + q) == Payload(p) + Payload(q)
  {
    if p == [] {
      assert p + q == q;
    } else {
      assert (p + q)[1..] == p[1..] + q;
      PayloadOfConcat(p[1..], q);
    }
  }

  /** "close" comes at most once, and then last. */
  ghost predicate CloseIsLast(packets: seq<Packet>) {
    forall i | 0 <= i < |packets| && packets[i] == Close :: i == |packets| - 1
  }

  ghost predicate NoneEmpty(packets: seq<Packet>) {
    forall i | 0 <= i < |packets| :: packets[i] != Data([])
  }

  lemma {:induction false} NonEmptyPayload(packets: seq<Packet>)
    requires NoneEmpty(packets) && Payload(packets) == []
    ensures forall p | p in packets :: p == Close
  {
    if packets != [] {
      assert packets[0] != Data([]);
      assert forall i | 0 <= i < |packets| - 1 :: packets[1..][i] == packets[i + 1];
      NonEmptyPayload(packets[1..]);
      assert forall p | p in packets :: p == packets[0] || p in packets[1..];
    }
  }

  /** What one socket's stream looks like in a state. */
  datatype Stream = Stream(open: bool, queue: seq<Packet>, posted: seq<Packet>, arrived: seq<Packet>, read: Bytes)

  ghost predicate Connected(st: State, s: Descriptor) {
    s in st.past.posted && s in st.past.arrived && s in st.past.read
        && (s in st.net.sockets ==> st.net.sockets[s].queue.Some?)
  }

  ghost function StreamOf(st: State, s: Descriptor): Stream
    requires Connected(st, s)
  {
    Stream(s in st.net.sockets, if s in st.net.sockets then st.net.sockets[s].queue.value else [],
           st.past.posted[s], st.past.arrived[s], st.past.read[s])
  }

  /** No octet that arrived is lost or reordered, "close" is the last thing posted and is posted by
      closing, and it stays in the queue. */
  ghost predicate Fits(v: Stream) {
    && CloseIsLast(v.posted) && (Close in v.posted <==> !v.open)
    && v.read <= Payload(v.arrived)
    && (v.open ==>
          && Payload(v.arrived) == v.read + Payload(v.queue)
          && (Close in v.queue <==> Close in v.arrived)
          && (CloseIsLast(v.arrived) ==> CloseIsLast(v.queue))
          && (NoneEmpty(v.arrived) ==> NoneEmpty(v.queue)))
  }

  // ---------------------------------------------------------------- what an event does to the stream of s

  /** The event gives the handle of a closed socket to a new one, whose stream is another. */
  predicate Reuses(st: State, ev: Event, s: Descriptor) {
    match ev
    case DoConnect(desc, _, _, _) => desc == s && s !in st.net.sockets
    case DoBind(desc, _) => desc == s && s !in st.net.sockets
    case _ => false
  }

  /** The packets that an event posts to the port of s. */
  function PostedBy(st: State, ev: Event, s: Descriptor): seq<Packet> {
    match ev
    case DoSend(desc, bytes, accepted) =>
      if desc == s && s in st.net.sockets && st.net.sockets[s].hasPort && accepted then [Data(bytes)] else []
    case DoClose(desc) => if desc == s && s in st.net.sockets && st.net.sockets[s].hasPort then [Close] else []
    case _ => []
  }

  /** The octets that an event copies from s into a caller's buffer. */
  function ReadBy(st: State, ev: Event, s: Descriptor): Bytes
    requires Enabled(st, ev)
  {
    match ev
    case DoRecv(desc, length) => if desc == s then Received(st, desc, length) else []
    case _ => []
  }

  function ArrivedBy(ev: Event, s: Descriptor): seq<Packet> {
    match ev
    case OnMessage(desc, packet) => if desc == s then [packet] else []
    case _ => []
  }

  /** The stream after a step, in terms of the one before: posting, arriving and reading happen at its
      ends, and "close" at the head of the queue stays there. */
  ghost predicate Follows(v: Stream, v': Stream, posted: seq<Packet>, arrived: seq<Packet>, read: Bytes) {
    && v'.posted == v.posted + posted && v'.arrived == v.arrived + arrived && v'.read == v.read + read
    && (v'.open ==> v.open)
    && (v'.open && v.queue != [] && v.queue[0] == Close ==> v'.queue != [] && v'.queue[0] == Close)
  }

  ghost predicate Steps(st: State, ev: Event, s: Descriptor)
    requires Connected(st, s) && Enabled(st, ev)
  {
    && Connected(Next(st, ev), s) && Fits(StreamOf(Next(st, ev), s))
    && Follows(StreamOf(st, s), StreamOf(Next(st, ev), s), PostedBy(st, ev, s), ArrivedBy(ev, s), ReadBy(st, ev, s))
  }

  // ---------------------------------------------------------------- the four events that touch a stream

  lemma {:induction false} PostFits(v: Stream, packet: Packet)
    requires Fits(v) && v.open
    ensures packet.Data? ==> Fits(v.(posted := v.posted + [packet]))
    ensures packet.Close? ==> Fits(v.(posted := v.posted + [packet], open := false, queue := []))
  {
    assert forall i | 0 <= i < |v.posted| :: v.posted[i] in v.posted;
    assert (v.posted + [packet])[|v.posted|] == packet;
    assert v.read <= Payload(v.arrived);
    hide Payload, NoneEmpty;
  }

  lemma {:induction false} ArrivalFits(v: Stream, packet: Packet)
    requires Fits(v) && v.open
    ensures Fits(v.(arrived := v.arrived + [packet], queue := v.queue + [packet]))
  {
    PayloadOfConcat(v.arrived, [packet]);
    PayloadOfConcat(v.queue, [packet]);
    hide Payload;
    ArrivalKeepsOrder(v.arrived, v.queue, packet);
    hide CloseIsLast;
    assert NoneEmpty(v.arrived + [packet]) ==> NoneEmpty(v.queue + [packet]) by {
      assert forall i | 0 <= i < |v.arrived| :: (v.arrived + [packet])[i] == v.arrived[i];
      assert (v.arrived + [packet])[|v.arrived|] == packet;
    }
    hide NoneEmpty;
    assert v.read + Payload(v.queue) + Payload([packet]) == v.read + (Payload(v.queue) + Payload([packet]));
  }

  lemma {:induction false} ArrivalKeepsOrder(arrived: seq<Packet>, queue: seq<Packet>, packet: Packet)
    requires Close in queue <==> Close in arrived
    requires CloseIsLast(arrived) ==> CloseIsLast(queue)
    ensures CloseIsLast(arrived + [packet]) ==> CloseIsLast(queue + [packet])
    ensures Close in queue + [packet] <==> Close in arrived + [packet]
  {
    if CloseIsLast(arrived + [packet]) {
      assert forall i | 0 <= i < |arrived| :: (arrived + [packet])[i] == arrived[i];
      assert Close !in arrived;
    }
  }

  lemma {:induction false} ReadFits(v: Stream, length: nat)
    requires Fits(v) && v.open && v.queue != [] && v.queue[0].Data?
    ensures var (bytes, rest) := TakeFrom(v.queue, length); Fits(v.(queue := rest, read := v.read + bytes))
  {
    var (bytes, rest) := TakeFrom(v.queue, length);
    TakeKeepsPayload(v.queue, length);
    TakeKeepsOrder(v.queue, length);
    hide Payload, TakeFrom, CloseIsLast, NoneEmpty;
    assert v.read + (bytes + Payload(rest)) == v.read + bytes + Payload(rest);
  }

  lemma {:induction false} TakeKeepsPayload(queue: seq<Packet>, length: nat)
    requires queue != [] && queue[0].Data?
    ensures var (bytes, rest) := TakeFrom(queue, length); Payload(queue) == bytes + Payload(rest)
  {
    var (bytes, rest) := TakeFrom(queue, length);
    var data := queue[0].bytes;
    if length < |data| {
      assert rest[1..] == queue[1..];
      assert data == data[..length] + data[length..];
    }
  }

  lemma {:induction false} TakeKeepsOrder(queue: seq<Packet>, length: nat)
    requires queue != [] && queue[0].Data?
    ensures var rest := TakeFrom(queue, length).1;
            && (Close in queue <==> Close in rest) && (CloseIsLast(queue) ==> CloseIsLast(rest))
                && (NoneEmpty(queue) ==> NoneEmpty(rest))
  {
    var rest := TakeFrom(queue, length).1;
    var skip := if length < |queue[0].bytes| then 0 else 1;
    assert forall i | 1 <= i + skip < |queue| && 0 <= i :: rest[i] == queue[i + skip];
    if Close in queue {
      var i :| 0 <= i < |queue| && queue[i] == Close;
      assert rest[i - skip] == Close;
    }
  }

  // ---------------------------------------------------------------- every event

  lemma {:induction false} SendSteps(st: State, s: Descriptor, bytes: Bytes, accepted: bool)
    requires Connected(st, s) && Fits(StreamOf(st, s))
    ensures Steps(st, DoSend(s, bytes, accepted), s)
  {
    if s in st.net.sockets { PostFits(StreamOf(st, s), Data(bytes)); }
    hide Fits;
  }

  lemma {:induction false} CloseSteps(st: State, s: Descriptor)
    requires KindsFit(st.net) && Connected(st, s) && Fits(StreamOf(st, s)) && Enabled(st, DoClose(s))
    ensures Steps(st, DoClose(s), s)
  {
    if s in st.net.sockets {
      assert st.net.sockets[s].hasPort;
      PostFits(StreamOf(st, s), Close);
    }
    hide Fits, KindsFit;
  }

  lemma {:induction false} RecvSteps(st: State, s: Descriptor, length: nat)
    requires Connected(st, s) && Fits(StreamOf(st, s))
    ensures Steps(st, DoRecv(s, length), s)
  {
    var v := StreamOf(st, s);
    if v.open && v.queue != [] && v.queue[0].Data? { ReadFits(v, length); }
    hide Fits, TakeFrom;
  }

  /** The stream of s is as before. */
  ghost predicate SameStream(st: State, st': State, s: Descriptor)
    requires Connected(st, s)
  {
    Connected(st', s) && StreamOf(st', s) == StreamOf(st, s)
  }

  lemma {:induction false} WakeKeepsStream(st: State, desc: Descriptor, s: Descriptor)
    requires Connected(st, s)
    ensures SameStream(st, Wake(st, desc), s)
  {
  }

  lemma {:induction false} MessageSteps(st: State, s: Descriptor, packet: Packet)
    requires Connected(st, s) && Fits(StreamOf(st, s)) && Enabled(st, OnMessage(s, packet))
    ensures Steps(st, OnMessage(s, packet), s)
  {
    ArrivalFits(StreamOf(st, s), packet);
    var pushed := Push(st, s, packet);
    assert Connected(pushed, s);
    var v := StreamOf(st, s);
    assert StreamOf(pushed, s) == v.(arrived := v.arrived + [packet], queue := v.queue + [packet]);
    hide Fits, Wake;
    WakeKeepsStream(pushed, s, s);
  }

  predicate Touches(ev: Event, s: Descriptor) {
    match ev
    case DoSend(desc, _, _) => desc == s
    case DoClose(desc) => desc == s
    case DoRecv(desc, _) => desc == s
    case OnMessage(desc, _) => desc == s
    case _ => false
  }

  lemma {:induction false} ConnectKeepsStream(st: State, desc: Descriptor, family: int, path: string,
          channel: Channel, s: Descriptor)
    requires Connected(st, s) && !Reuses(st, DoConnect(desc, family, path, channel), s)
    ensures SameStream(st, ConnectSocket(st, desc, family, path, channel).state, s)
  {
  }

  lemma {:induction false} BindKeepsStream(st: State, desc: Descriptor, addressLength: int, s: Descriptor)
    requires Connected(st, s) && !Reuses(st, DoBind(desc, addressLength), s)
    ensures SameStream(st, BindSocket(st, desc, addressLength).state, s)
  {
  }

  lemma {:induction false} AcceptKeepsStream(st: State, desc: Descriptor, addressLength: int, s: Descriptor)
    requires Connected(st, s) && DescriptorsFit(st.net, st.past)
    ensures SameStream(st, AcceptOn(st, desc, addressLength).state, s)
  {
    assert s < st.net.nextSocket;
    hide DescriptorsFit;
  }

  lemma {:induction false} RecvKeepsStream(st: State, desc: Descriptor, length: nat, s: Descriptor)
    requires Connected(st, s) && HasQueue(st, desc) && desc != s
    ensures SameStream(st, Recv(st, desc, length).state, s)
  {
  }

  lemma {:induction false} CancelKeepsStream(st: State, id: TaskId, s: Descriptor)
    requires Connected(st, s)
    ensures SameStream(st, Cancel(st, id).state, s)
  {
  }

  lemma {:induction false} TimerKeepsStream(st: State, id: TaskId, s: Descriptor)
    requires Connected(st, s) && id in st.sched.timers
    ensures SameStream(st, TimerFires(st, id), s)
  {
  }

  lemma {:induction false} MessageKeepsStream(st: State, desc: Descriptor, packet: Packet, s: Descriptor)
    requires Connected(st, s) && Enabled(st, OnMessage(desc, packet)) && desc != s
    ensures SameStream(st, MessageArrives(st, desc, packet), s)
  {
    assert SameStream(st, Push(st, desc, packet), s);
    hide Wake, Push;
    WakeKeepsStream(Push(st, desc, packet), desc, s);
  }

  lemma {:induction false} IncomingKeepsStream(st: State, connection: Connection, s: Descriptor)
    requires Connected(st, s)
    ensures SameStream(st, ConnectArrives(st, connection), s)
  {
    hide Wake;
    if st.net.listening.Some? {
      WakeKeepsStream(st.(net := st.net.(incoming := st.net.incoming + [connection])), st.net.listening.value, s);
    }
  }

  lemma {:induction false} SendKeepsStream(st: State, desc: Descriptor, bytes: Bytes, accepted: bool, s: Descriptor)
    requires Connected(st, s) && desc != s
    ensures SameStream(st, SendTo(st, desc, bytes, accepted).state, s)
  {
  }

  lemma {:induction false} CloseKeepsStream(st: State, desc: Descriptor, s: Descriptor)
    requires Connected(st, s) && desc != s
    ensures SameStream(st, CloseSocket(st, desc).state, s)
  {
  }

  lemma {:induction false} AddReadKeepsStream(st: State, desc: Descriptor, handler: int, cls: int, s: Descriptor)
    requires Connected(st, s)
    ensures SameStream(st, AddRead(st, desc, handler, cls).state, s)
  {
  }

  lemma {:induction false} OthersKeepStream(st: State, ev: Event, s: Descriptor)
    requires Inv(st) && Enabled(st, ev) && Connected(st, s) && !Touches(ev, s) && !Reuses(st, ev, s)
    ensures SameStream(st, Next(st, ev), s)
  {
    hide Coherent, Known, HandlersFit, TimersFit, Armed, Conserved, KindsFit, DescriptorsFit, Reuses, CreateSocket,
        ConnectSocket, SendTo, CloseSocket, BindSocket, ListenOn, AcceptOn, Recv, TimerFires, MessageArrives,
        ConnectArrives, Cancel, AddRead;
    match ev
    case DoCreate(domain, kind, protocol) => CreateKeepsStream(st, domain, kind, protocol, s);
    case DoConnect(desc, family, path, channel) => ConnectKeepsStream(st, desc, family, path, channel, s);
    case DoSend(desc, bytes, accepted) => SendKeepsStream(st, desc, bytes, accepted, s);
    case DoClose(desc) => CloseKeepsStream(st, desc, s);
    case DoBind(desc, addressLength) => BindKeepsStream(st, desc, addressLength, s);
    case DoListen(desc) => ListenKeepsStream(st, desc, s);
    case DoAccept(desc, addressLength) => AcceptKeepsStream(st, desc, addressLength, s);
    case DoRecv(desc, length) => RecvKeepsStream(st, desc, length, s);
    case DoAddDelayed(_, _) =>
    case DoAddRead(desc, handler, cls) => AddReadKeepsStream(st, desc, handler, cls, s);
    case DoAddWrite(_, _, _) =>
    case DoCancel(id) => CancelKeepsStream(st, id, s);
    case OnTimer(id) => TimerKeepsStream(st, id, s);
    case OnMessage(desc, packet) => MessageKeepsStream(st, desc, packet, s);
    case OnConnect(connection) => IncomingKeepsStream(st, connection, s);
  }

  lemma {:induction false} CreateKeepsStream(st: State, domain: int, kind: int, protocol: int, s: Descriptor)
    requires Connected(st, s)
    ensures SameStream(st, CreateSocket(st, domain, kind, protocol).state, s)
  {
  }

  lemma {:induction false} ListenKeepsStream(st: State, desc: Descriptor, s: Descriptor)
    requires Connected(st, s)
    ensures SameStream(st, ListenOn(st, desc).state, s)
  {
  }

  /** Every event moves a stream only at its ends, and the stream keeps fitting. */
  lemma {:induction false} NextSteps(st: State, ev: Event, s: Descriptor)
    requires Inv(st) && Enabled(st, ev) && Connected(st, s) && Fits(StreamOf(st, s)) && !Reuses(st, ev, s)
    ensures Steps(st, ev, s)
  {
    hide Coherent, Known, HandlersFit, TimersFit, Armed, Conserved, KindsFit, DescriptorsFit, Enabled, Next, Fits,
        Steps, Connected, StreamOf, Touches, Reuses;
    if Touches(ev, s) { TouchedSteps(st, ev, s); } else { UntouchedSteps(st, ev, s); }
  }

  lemma {:induction false} UntouchedSteps(st: State, ev: Event, s: Descriptor)
    requires Inv(st) && Enabled(st, ev) && Connected(st, s) && Fits(StreamOf(st, s))
    requires !Touches(ev, s) && !Reuses(st, ev, s)
    ensures Steps(st, ev, s)
  {
    hide Inv, Enabled, Next, Fits, Connected, StreamOf, Touches, Reuses, PostedBy, ArrivedBy, ReadBy;
    OthersKeepStream(st, ev, s);
    UntouchedMoves(st, ev, s);
  }

  lemma {:induction false} TouchedSteps(st: State, ev: Event, s: Descriptor)
    requires KindsFit(st.net) && Enabled(st, ev) && Connected(st, s) && Fits(StreamOf(st, s)) && Touches(ev, s)
    ensures Steps(st, ev, s)
  {
    hide KindsFit, Enabled, Fits, Steps, Connected, StreamOf;
    match ev
    case DoSend(_, bytes, accepted) => SendSteps(st, s, bytes, accepted);
    case DoClose(_) => CloseSteps(st, s);
    case DoRecv(_, length) => RecvSteps(st, s, length);
    case OnMessage(_, packet) => MessageSteps(st, s, packet);
  }

  lemma {:induction false} UntouchedMoves(st: State, ev: Event, s: Descriptor)
    requires Enabled(st, ev) && !Touches(ev, s)
    ensures PostedBy(st, ev, s) == [] && ArrivedBy(ev, s) == [] && ReadBy(st, ev, s) == []
  {
  }
}
