/** Two pages whose sockets are joined by a pair of entangled ports: each delivers what the other posted, in
    order. */
module Endpoints {
  import opened Wrappers
  import opened Octets
  import opened EventLoop
  import opened EventLoopRuns
  import EventLoopAnswers
  import opened Streams

  datatype Side = Left | Right

  function Other(side: Side): Side { if side == Left then Right else Left }

  /** The two event loops, their joined sockets, and the packets on the way to each side. */
  datatype World = World(left: State, right: State, toLeft: seq<Packet>, toRight: seq<Packet>)

  datatype Ends = Ends(left: Descriptor, right: Descriptor)

  function Joint(ends: Ends, side: Side): Descriptor { if side == Left then ends.left else ends.right }

  function At(w: World, side: Side): State { if side == Left then w.left else w.right }

  function Flying(w: World, side: Side): seq<Packet> { if side == Left then w.toLeft else w.toRight }

  function Put(w: World, side: Side, st: State, mine: seq<Packet>, theirs: seq<Packet>): World {
    if side == Left then World(st, w.right, mine, theirs) else World(w.left, st, theirs, mine)
  }

  /** An event on one side that is not an arrival on the joined socket, or such an arrival. The handle of a
      joined socket is not given to another connection. */
  datatype Step = Local(side: Side, ev: Event) | Deliver(side: Side)

  predicate Possible(w: World, ends: Ends, step: Step) {
    match step
    case Local(side, ev) =>
      && Enabled(At(w, side), ev) && ArrivedBy(ev, Joint(ends, side)) == []
      && !Reuses(At(w, side), ev, Joint(ends, side))
    case Deliver(side) =>
      Flying(w, side) != [] && Enabled(At(w, side), OnMessage(Joint(ends, side), Flying(w, side)[0]))
  }

  function EventOf(w: World, ends: Ends, step: Step): Event
    requires Possible(w, ends, step)
  {
    if step.Local? then step.ev else OnMessage(Joint(ends, step.side), Flying(w, step.side)[0])
  }

  function Move(w: World, ends: Ends, step: Step): World
    requires Possible(w, ends, step)
  {
    var side := step.side;
    var ev := EventOf(w, ends, step);
    Put(w, side, Next(At(w, side), ev),
        Flying(w, side)[|ArrivedBy(ev, Joint(ends, side))|..],
        Flying(w, Other(side)) + PostedBy(At(w, side), ev, Joint(ends, side)))
  }

  ghost predicate LegalSteps(w: World, ends: Ends, steps: seq<Step>)
    decreases |steps|
  {
    steps == [] || (Possible(w, ends, steps[0]) && LegalSteps(Move(w, ends, steps[0]), ends, steps[1..]))
  }

  ghost function Moves(w: World, ends: Ends, steps: seq<Step>): World
    requires LegalSteps(w, ends, steps)
    decreases |steps|
  {
    if steps == [] then w else Moves(Move(w, ends, steps[0]), ends, steps[1..])
  }

  /** The octets that the calls of a run sent on one side's joined socket. */
  ghost function Sent(w: World, ends: Ends, steps: seq<Step>, side: Side): Bytes
    requires LegalSteps(w, ends, steps)
    decreases |steps|
  {
    if steps == [] then [] else
    (if steps[0].side == side then Payload(PostedBy(At(w, side), EventOf(w, ends, steps[0]), Joint(ends, side)))
        else [])
    + Sent(Move(w, ends, steps[0]), ends, steps[1..], side)
  }

  /** The octets that the calls of a run read from one side's joined socket. */
  ghost function ReadIn(w: World, ends: Ends, steps: seq<Step>, side: Side): Bytes
    requires LegalSteps(w, ends, steps)
    decreases |steps|
  {
    if steps == [] then [] else
    (if steps[0].side == side then ReadBy(At(w, side), EventOf(w, ends, steps[0]), Joint(ends, side)) else [])
    + ReadIn(Move(w, ends, steps[0]), ends, steps[1..], side)
  }

  // ---------------------------------------------------------------- the invariant of a joined pair

  ghost predicate SideFits(st: State, s: Descriptor): (fits: bool)
    ensures fits ==> Connected(st, s)
  {
    Inv(st) && Connected(st, s) && Fits(StreamOf(st, s))
  }

  ghost function Half(w: World, ends: Ends, side: Side): Stream
    requires Connected(At(w, side), Joint(ends, side))
  {
    StreamOf(At(w, side), Joint(ends, side))
  }

  /** The invariant, seen from the side that receives: what the other side posted has arrived or is on the
      way. */
  ghost predicate Receives(w: World, ends: Ends, side: Side): (fits: bool)
    ensures fits ==> Connected(At(w, side), Joint(ends, side))
    ensures fits ==> Connected(At(w, Other(side)), Joint(ends, Other(side)))
  {
    && SideFits(At(w, side), Joint(ends, side)) && SideFits(At(w, Other(side)), Joint(ends, Other(side)))
    && Half(w, ends, Other(side)).posted == Half(w, ends, side).arrived + Flying(w, side)
  }

  ghost predicate Joined(w: World, ends: Ends) {
    Receives(w, ends, Left) && Receives(w, ends, Right)
  }

  ghost predicate Opened(st: State, s: Descriptor) {
    Inv(st) && Connected(st, s) && StreamOf(st, s) == Stream(true, [], [], [], [])
  }

  /** Nothing has arrived at the socket and nothing was read from it. It may have posted, and it may have
      closed. */
  ghost predicate Unread(st: State, s: Descriptor) {
    SideFits(st, s) && StreamOf(st, s).arrived == [] && StreamOf(st, s).read == []
  }

  /** The pair as accept leaves it: the accepted socket is new, and what the connecting side has posted so far
      is on its way there. */
  ghost predicate Accepted(w: World, ends: Ends, acceptor: Side): (start: bool)
    ensures start ==> Connected(w.left, ends.left) && Connected(w.right, ends.right)
  {
    var connector := Other(acceptor);
    && Opened(At(w, acceptor), Joint(ends, acceptor)) && Unread(At(w, connector), Joint(ends, connector))
    && Flying(w, acceptor) == Half(w, ends, connector).posted && Flying(w, connector) == []
  }

  lemma {:induction false} OpenIsFresh(st: State, s: Descriptor, name: string)
    requires Inv(st) && s !in st.net.sockets && s < st.net.nextSocket && st.net.listening != Some(s)
    ensures Opened(OpenSocket(st, s, name), s)
  {
    hide Inv;
    OpenKeepsInv(st, s, name);
  }

  /** A connect on a free handle leaves a new stream there, whether or not the service takes it. */
  lemma {:induction false} ConnectIsFresh(st: State, desc: Descriptor, path: string, channel: Channel)
    requires Inv(st) && Enabled(st, DoConnect(desc, 1, path, channel))
    requires desc !in st.net.sockets && channel != Unsupported
    ensures Opened(Next(st, DoConnect(desc, 1, path, channel)), desc)
  {
    hide Inv, Opened, OpenSocket;
    OpenIsFresh(st, desc, path);
  }

  /** An accept on the descriptor listened on, with a connection waiting and room for its address, leaves a
      new stream on the descriptor it returns. */
  lemma {:induction false} AcceptIsFresh(st: State, desc: Descriptor, addressLength: int)
    requires Inv(st) && st.net.listening == Some(desc) && st.net.incoming != [] && 110 <= addressLength
    ensures Opened(Next(st, DoAccept(desc, addressLength)), AcceptOn(st, desc, addressLength).value)
  {
    hide Inv, Opened, OpenSocket;
    ShiftKeepsInv(st);
    var shifted := st.(net := st.net.(incoming := st.net.incoming[1..], nextSocket := st.net.nextSocket + 1));
    OpenIsFresh(shifted, st.net.nextSocket, st.net.incoming[0].clientName);
  }

  lemma {:induction false} OpenedIsUnread(st: State, s: Descriptor)
    requires Opened(st, s)
    ensures Unread(st, s)
  {
    hide Inv;
  }

  /** From the start no side has read anything, and what each has posted is on its way. */
  lemma {:induction false} AcceptedIsJoined(w: World, ends: Ends, acceptor: Side, side: Side)
    requires Accepted(w, ends, acceptor)
    ensures Joined(w, ends)
    ensures Half(w, ends, side).read == [] && (side == acceptor ==> Half(w, ends, side).posted == [])
  {
    OpenedIsUnread(At(w, acceptor), Joint(ends, acceptor));
    hide SideFits, Inv;
  }

  /** One side takes an event: its tables and its stream keep fitting. */
  lemma {:induction false} SideSteps(st: State, ev: Event, s: Descriptor)
    requires SideFits(st, s) && Enabled(st, ev) && !Reuses(st, ev, s)
    ensures SideFits(Next(st, ev), s)
    ensures Follows(StreamOf(st, s), StreamOf(Next(st, ev), s), PostedBy(st, ev, s), ArrivedBy(ev, s),
            ReadBy(st, ev, s))
  {
    hide Inv, Enabled, Next, Fits, Connected, StreamOf, PostedBy, ArrivedBy, ReadBy, Follows;
    NextKeepsInv(st, ev);
    NextSteps(st, ev, s);
  }

  /** A stream moves by what an event posted, brought and read; the other side's does not. */
  ghost predicate Moved(w: World, ends: Ends, step: Step, side: Side)
    requires Possible(w, ends, step) && Connected(At(w, side), Joint(ends, side))
    requires Connected(At(Move(w, ends, step), side), Joint(ends, side))
  {
    var s, ev := Joint(ends, side), EventOf(w, ends, step);
    var v, v' := Half(w, ends, side), Half(Move(w, ends, step), ends, side);
    if step.side == side then Follows(v, v', PostedBy(At(w, side), ev, s), ArrivedBy(ev, s), ReadBy(At(w, side), ev, s))
    else v' == v
  }

  /** What arrives in a step was the first on its way. */
  lemma {:induction false} StepIsEvent(w: World, ends: Ends, step: Step)
    requires Possible(w, ends, step)
    ensures var ev, flying := EventOf(w, ends, step), Flying(w, step.side);
            var arrived := ArrivedBy(ev, Joint(ends, step.side));
            && Enabled(At(w, step.side), ev) && !Reuses(At(w, step.side), ev, Joint(ends, step.side))
            && |arrived| <= |flying| && flying == arrived + flying[|arrived|..]
  {
    hide Enabled;
  }

  lemma {:induction false} MoveKeeps(w: World, ends: Ends, step: Step)
    requires Joined(w, ends) && Possible(w, ends, step)
    ensures Joined(Move(w, ends, step), ends)
    ensures Moved(w, ends, step, Left) && Moved(w, ends, step, Right)
  {
    hide SideFits, Enabled, Reuses, Next, Possible, StreamOf, Connected, PostedBy, ArrivedBy, ReadBy, EventOf, Follows;
    var side, s := step.side, Joint(ends, step.side);
    StepIsEvent(w, ends, step);
    SideSteps(At(w, side), EventOf(w, ends, step), s);
    ReceiverKeeps(w, ends, step);
    PosterKeeps(w, ends, step);
  }

  /** Arrivals move packets from the way to the side that takes the step. */
  lemma {:induction false} ReceiverKeeps(w: World, ends: Ends, step: Step)
    requires Joined(w, ends) && Possible(w, ends, step)
    ensures Receives(Move(w, ends, step), ends, step.side)
  {
    hide SideFits, Enabled, Reuses, Next, Possible, StreamOf, Connected, PostedBy, ArrivedBy, ReadBy, EventOf;
    var side, s := step.side, Joint(ends, step.side);
    var ev := EventOf(w, ends, step);
    var arrived := ArrivedBy(ev, s);
    StepIsEvent(w, ends, step);
    SideSteps(At(w, side), ev, s);
    assert Half(w, ends, Other(side)).posted == Half(w, ends, side).arrived + arrived + Flying(w, side)[|arrived|..];
  }

  /** What the step posts is put on the way to the other side. */
  lemma {:induction false} PosterKeeps(w: World, ends: Ends, step: Step)
    requires Joined(w, ends) && Possible(w, ends, step)
    ensures Receives(Move(w, ends, step), ends, Other(step.side))
  {
    hide SideFits, Enabled, Reuses, Next, Possible, StreamOf, Connected, PostedBy, ArrivedBy, ReadBy, EventOf;
    var side, s := step.side, Joint(ends, step.side);
    var ev := EventOf(w, ends, step);
    var posted := PostedBy(At(w, side), ev, s);
    StepIsEvent(w, ends, step);
    SideSteps(At(w, side), ev, s);
    assert Half(w, ends, side).posted + posted ==
           Half(w, ends, Other(side)).arrived + (Flying(w, Other(side)) + posted);
  }

  lemma {:induction false} MovesKeep(w: World, ends: Ends, steps: seq<Step>)
    requires Joined(w, ends) && LegalSteps(w, ends, steps)
    ensures Joined(Moves(w, ends, steps), ends)
    decreases |steps|
  {
    if steps != [] {
      MoveKeeps(w, ends, steps[0]);
      hide Joined, Possible, Move;
      MovesKeep(Move(w, ends, steps[0]), ends, steps[1..]);
    }
  }

  // ---------------------------------------------------------------- conservation of bytes

  lemma {:induction false} RunPosts(w: World, ends: Ends, steps: seq<Step>, side: Side)
    requires Joined(w, ends) && LegalSteps(w, ends, steps)
    ensures var w' := Moves(w, ends, steps);
            && Joined(w', ends)
            && Payload(Half(w', ends, side).posted) == Payload(Half(w, ends, side).posted) + Sent(w, ends, steps, side)
            && Half(w', ends, side).read == Half(w, ends, side).read + ReadIn(w, ends, steps, side)
    decreases |steps|
  {
    hide Receives, Possible, Move, Payload, PostedBy, ReadBy, ArrivedBy, EventOf, Half, At, Connected;
    if steps != [] {
      MoveKeeps(w, ends, steps[0]);
      PayloadOfConcat(Half(w, ends, side).posted,
          if steps[0].side == side then PostedBy(At(w, side), EventOf(w, ends, steps[0]), Joint(ends, side)) else []);
      RunPosts(Move(w, ends, steps[0]), ends, steps[1..], side);
    }
  }

  lemma {:induction false} HalfConserved(w: World, ends: Ends, side: Side)
    requires Receives(w, ends, side)
    ensures var v, posted := Half(w, ends, side), Payload(Half(w, ends, Other(side)).posted);
            v.read <= posted && (v.open ==> posted == v.read + Payload(v.queue) + Payload(Flying(w, side)))
  {
    hide Inv, Payload, CloseIsLast, NoneEmpty;
    PayloadOfConcat(Half(w, ends, side).arrived, Flying(w, side));
  }

  /** What one side has sent by the end of a run: before the other side accepted, and in the run. */
  ghost function AllSent(w: World, ends: Ends, steps: seq<Step>, side: Side): Bytes
    requires LegalSteps(w, ends, steps) && Connected(At(w, side), Joint(ends, side))
  {
    Payload(Half(w, ends, side).posted) + Sent(w, ends, steps, side)
  }

  /** In every run of a joined pair, whatever the chunks sent and the sizes read, the octets sent on one
      side are those read on the other, then those queued there, then those on the way; and after the
      other side closed, those it read are a prefix. */
  lemma {:induction false} BytesConserved(w: World, ends: Ends, acceptor: Side, steps: seq<Step>, side: Side)
    requires Accepted(w, ends, acceptor) && LegalSteps(w, ends, steps)
    ensures var w' := Moves(w, ends, steps);
            var sent, read := AllSent(w, ends, steps, Other(side)), ReadIn(w, ends, steps, side);
            && Connected(At(w', side), Joint(ends, side)) && read <= sent
            && (Half(w', ends, side).open ==>
                sent == read + Payload(Half(w', ends, side).queue) + Payload(Flying(w', side)))
  {
    hide Inv, LegalSteps, Moves, Sent, ReadIn, Payload, Receives, Connected, StreamOf, Accepted;
    AcceptedIsJoined(w, ends, acceptor, side);
    RunPosts(w, ends, steps, side);
    RunPosts(w, ends, steps, Other(side));
    HalfConserved(Moves(w, ends, steps), ends, side);
    assert [] + ReadIn(w, ends, steps, side) == ReadIn(w, ends, steps, side);
  }

  /** The octets that one event loop's calls send on a socket in a run of its own. */
  ghost function SentAlone(st: State, evs: seq<Event>, s: Descriptor): Bytes
    requires Legal(st, evs)
    decreases |evs|
  {
    if evs == [] then [] else Payload(PostedBy(st, evs[0], s)) + SentAlone(Next(st, evs[0]), evs[1..], s)
  }

  /** Events of one event loop before anything arrives at a socket of its own. */
  ghost predicate Alone(st: State, evs: seq<Event>, s: Descriptor): (alone: bool)
    ensures alone ==> Legal(st, evs)
    decreases |evs|
  {
    evs == [] || (Enabled(st, evs[0]) && ArrivedBy(evs[0], s) == [] && !Reuses(st, evs[0], s)
                  && Alone(Next(st, evs[0]), evs[1..], s))
  }

  lemma {:induction false} AloneStep(st: State, ev: Event, s: Descriptor)
    requires Unread(st, s) && Enabled(st, ev) && ArrivedBy(ev, s) == [] && !Reuses(st, ev, s)
    ensures Unread(Next(st, ev), s)
    ensures Payload(StreamOf(Next(st, ev), s).posted) == Payload(StreamOf(st, s).posted) + Payload(PostedBy(st, ev, s))
  {
    hide SideFits, Enabled, Next, Reuses, StreamOf, Connected, PostedBy, ArrivedBy, ReadBy, Payload;
    SideSteps(st, ev, s);
    PayloadOfConcat(StreamOf(st, s).posted, PostedBy(st, ev, s));
    ReadIsArrived(Next(st, ev), s);
  }

  lemma {:induction false} ReadIsArrived(st: State, s: Descriptor)
    requires SideFits(st, s)
    ensures StreamOf(st, s).read <= Payload(StreamOf(st, s).arrived)
    ensures StreamOf(st, s).arrived == [] ==> StreamOf(st, s).read == []
  {
    hide Inv;
    PayloadOfNothing();
  }

  lemma {:induction false} AloneStays(st: State, evs: seq<Event>, s: Descriptor)
    requires Unread(st, s) && Alone(st, evs, s)
    ensures Unread(After(st, evs), s)
    ensures Payload(StreamOf(After(st, evs), s).posted) == Payload(StreamOf(st, s).posted) + SentAlone(st, evs, s)
    decreases |evs|
  {
    hide SideFits, Enabled, Next, Reuses, StreamOf, Connected, PostedBy, ArrivedBy, Payload;
    if evs != [] {
      AloneStep(st, evs[0], s);
      AloneStays(Next(st, evs[0]), evs[1..], s);
    }
  }

  /** Connecting, any run of the connecting side alone, and then accept on the other side, lead to such a
      start; all that was sent meanwhile is on its way. */
  lemma {:induction false} ConnectThenAccept(connector: State, evs: seq<Event>, acceptor: State, ends: Ends)
    requires Opened(connector, ends.left) && Alone(connector, evs, ends.left) && Opened(acceptor, ends.right)
    ensures Connected(After(connector, evs), ends.left)
    ensures var st := After(connector, evs);
            var posted := StreamOf(st, ends.left).posted;
            && Accepted(World(st, acceptor, [], posted), ends, Right)
            && Payload(posted) == SentAlone(connector, evs, ends.left)
  {
    hide Inv, SideFits, Payload, SentAlone, After, Legal, Alone, Connected, StreamOf, Opened, Unread;
    OpenedIsUnread(connector, ends.left);
    AloneStays(connector, evs, ends.left);
    StartOf(After(connector, evs), acceptor, ends);
    NothingSent(connector, ends.left);
    assert [] + SentAlone(connector, evs, ends.left) == SentAlone(connector, evs, ends.left);
  }

  lemma {:induction false} StartOf(st: State, acceptor: State, ends: Ends)
    requires Unread(st, ends.left) && Opened(acceptor, ends.right)
    ensures Connected(st, ends.left)
    ensures Accepted(World(st, acceptor, [], StreamOf(st, ends.left).posted), ends, Right)
  {
    hide Inv, SideFits, StreamOf;
  }

  lemma {:induction false} NothingSent(st: State, s: Descriptor)
    requires Opened(st, s)
    ensures Connected(st, s) && Payload(StreamOf(st, s).posted) == []
  {
    hide Inv, Connected, StreamOf, Payload;
    PayloadOfNothing();
  }

  // ---------------------------------------------------------------- one message from end to end

  /** Nothing is queued or on the way to an open side whose peer is open. */
  ghost predicate Idle(w: World, ends: Ends, side: Side) {
    && Receives(w, ends, side) && Flying(w, side) == []
    && Half(w, ends, side).open && Half(w, ends, side).queue == [] && Half(w, ends, Other(side)).open
  }

  /** What one side sends is delivered and read on the other: the first read gets as much of it as it asks
      for. */
  lemma {:induction false} SentIsRead(w: World, ends: Ends, side: Side, bytes: Bytes, length: nat)
    requires Idle(w, ends, side)
    ensures var send := Local(Other(side), DoSend(Joint(ends, Other(side)), bytes, true));
            && Possible(w, ends, send) && Possible(Move(w, ends, send), ends, Deliver(side))
            && var st, s := At(Move(Move(w, ends, send), ends, Deliver(side)), side), Joint(ends, side);
               && HasQueue(st, s) && Received(st, s, length) == (if length < |bytes| then bytes[..length] else bytes)
               && Recv(st, s, length).value == |Received(st, s, length)| && Recv(st, s, length).errno.None?
  {
    hide Possible, Move, At, Flying, Receives, Half, MessageArrives, Recv, Received;
    var st, s := At(w, side), Joint(ends, side);
    SendTakesOff(w, ends, side, bytes);
    var sent := Move(w, ends, Local(Other(side), DoSend(Joint(ends, Other(side)), bytes, true)));
    DeliverLands(sent, ends, side, Data(bytes));
    ArrivesInQueue(st, s, Data(bytes));
    EventLoopAnswers.RecvReports(MessageArrives(st, s, Data(bytes)), s, length);
  }

  lemma {:induction false} SendTakesOff(w: World, ends: Ends, side: Side, bytes: Bytes)
    requires Idle(w, ends, side)
    ensures var send := Local(Other(side), DoSend(Joint(ends, Other(side)), bytes, true));
            && Possible(w, ends, send)
            && At(Move(w, ends, send), side) == At(w, side) && Flying(Move(w, ends, send), side) == [Data(bytes)]
            && Joint(ends, side) in At(w, side).net.sockets
            && At(w, side).net.sockets[Joint(ends, side)].queue == Some([])
  {
    PortOf(At(w, Other(side)), Joint(ends, Other(side)));
    hide Inv, Fits, SendTo;
  }

  lemma {:induction false} DeliverLands(w: World, ends: Ends, side: Side, packet: Packet)
    requires Flying(w, side) == [packet] && Joint(ends, side) in At(w, side).net.sockets
    requires At(w, side).net.sockets[Joint(ends, side)].queue == Some([])
    ensures Possible(w, ends, Deliver(side))
    ensures At(Move(w, ends, Deliver(side)), side) == MessageArrives(At(w, side), Joint(ends, side), packet)
  {
    hide MessageArrives, PostedBy;
  }

  lemma {:induction false} PortOf(st: State, s: Descriptor)
    requires Inv(st) && Connected(st, s) && s in st.net.sockets
    ensures st.net.sockets[s].hasPort
  {
  }

  lemma {:induction false} ArrivesInQueue(st: State, s: Descriptor, packet: Packet)
    requires s in st.net.sockets && st.net.sockets[s].queue == Some([])
    ensures var st' := MessageArrives(st, s, packet);
            s in st'.net.sockets && st'.net.sockets[s].queue == Some([packet])
  {
    assert [] + [packet] == [packet];
  }

  // ---------------------------------------------------------------- the end of the stream

  /** A recv that returns 0 and sets no errno. */
  predicate ReturnsZero(st: State, s: Descriptor, length: nat) {
    HasQueue(st, s) && Recv(st, s, length).value == 0 && Recv(st, s, length).errno == None
  }

  /** Exactly when recv returns 0: "close" is next, or an empty chunk is next, or nothing was asked for. So
      with empty sends or empty reads 0 does not mean the end. */
  lemma {:induction false} WhenZero(st: State, s: Descriptor, length: nat)
    requires Connected(st, s) && s in st.net.sockets
    ensures var queue := StreamOf(st, s).queue;
            ReturnsZero(st, s, length) <==> queue != [] && (queue[0] == Close || queue[0] == Data([]) || length == 0)
  {
  }

  /** Unless the side is closed, the head of its queue is "close". */
  ghost predicate AtEnd(w: World, ends: Ends, side: Side) {
    && Connected(At(w, side), Joint(ends, side))
    && var v := Half(w, ends, side); v.open ==> v.queue != [] && v.queue[0] == Close
  }

  /** The head of the queue is "close" exactly when the peer has closed, nothing is on the way, and all that
      was sent has been read. */
  lemma {:induction false} EndOfHalf(v: Stream, posted: seq<Packet>, flying: seq<Packet>)
    requires Fits(v) && v.open && posted == v.arrived + flying && CloseIsLast(posted) && NoneEmpty(posted)
    ensures NoneEmpty(v.queue)
    ensures v.queue != [] && v.queue[0] == Close <==> Close in posted && flying == [] && v.read == Payload(posted)
  {
    assert forall i | 0 <= i < |v.arrived| :: posted[i] == v.arrived[i];
    PayloadOfConcat(v.arrived, flying);
    if v.queue != [] && v.queue[0] == Close {
      assert v.queue == [Close] && Payload(v.queue) == [];
      assert Close in v.arrived && flying == [];
    }
    if Close in posted && flying == [] && v.read == Payload(posted) {
      assert posted == v.arrived;
      assert Payload(v.queue) == [];
      NonEmptyPayload(v.queue);
    }
  }

  /** No step of one side sends an empty chunk on its joined socket. */
  ghost predicate SendsOctets(ends: Ends, steps: seq<Step>, side: Side) {
    forall i | 0 <= i < |steps| && steps[i].Local? && steps[i].side == side && steps[i].ev.DoSend? ::
      steps[i].ev.desc == Joint(ends, side) ==> steps[i].ev.bytes != []
  }

  lemma {:induction false} RunPostsOctets(w: World, ends: Ends, steps: seq<Step>, side: Side)
    requires Joined(w, ends) && LegalSteps(w, ends, steps) && SendsOctets(ends, steps, side)
             && NoneEmpty(Half(w, ends, side).posted)
    ensures Joined(Moves(w, ends, steps), ends) && NoneEmpty(Half(Moves(w, ends, steps), ends, side).posted)
    decreases |steps|
  {
    hide Receives, Possible, Move, ReadBy, ArrivedBy, Half, At, Connected, NoneEmpty;
    if steps != [] {
      MoveKeeps(w, ends, steps[0]);
      if steps[0].side == side {
        assert steps[0].Local? && steps[0].ev.DoSend? && steps[0].ev.desc == Joint(ends, side) ==>
                 steps[0].ev.bytes != [];
        PostsOctets(Half(w, ends, side).posted, At(w, side), EventOf(w, ends, steps[0]), Joint(ends, side));
      }
      assert forall i | 0 <= i < |steps[1..]| :: steps[1..][i] == steps[i + 1];
      RunPostsOctets(Move(w, ends, steps[0]), ends, steps[1..], side);
    }
  }

  lemma {:induction false} PostsOctets(posted: seq<Packet>, st: State, ev: Event, s: Descriptor)
    requires NoneEmpty(posted) && (ev.DoSend? && ev.desc == s ==> ev.bytes != [])
    ensures NoneEmpty(posted + PostedBy(st, ev, s))
  {
  }

  /** No chunk that one side sends, before the run or in it, is empty. */
  ghost predicate NeverSendsEmpty(w: World, ends: Ends, steps: seq<Step>, side: Side)
    requires Connected(At(w, side), Joint(ends, side))
  {
    NoneEmpty(Half(w, ends, side).posted) && SendsOctets(ends, steps, side)
  }

  /** If the peer sends no empty chunks, a non-empty read returns 0 exactly when the peer has closed, nothing
      is on the way, and every octet sent has been read. The peer may have closed before accept. */
  lemma {:induction false} EndOfStream(w: World, ends: Ends, acceptor: Side, steps: seq<Step>, side: Side, length: nat)
    requires Accepted(w, ends, acceptor) && LegalSteps(w, ends, steps) && length > 0
    requires NeverSendsEmpty(w, ends, steps, Other(side))
    requires Joint(ends, side) in At(Moves(w, ends, steps), side).net.sockets
    ensures var w' := Moves(w, ends, steps);
            ReturnsZero(At(w', side), Joint(ends, side), length) <==>
              Joint(ends, Other(side)) !in At(w', Other(side)).net.sockets && Flying(w', side) == []
              && ReadIn(w, ends, steps, side) == AllSent(w, ends, steps, Other(side))
    ensures var w' := Moves(w, ends, steps);
            ReturnsZero(At(w', side), Joint(ends, side), length) ==> AtEnd(w', ends, side)
  {
    hide Inv, LegalSteps, Moves, Sent, ReadIn, Payload, Receives, Connected, SendsOctets, NoneEmpty, CloseIsLast,
        ReturnsZero, Accepted;
    AcceptedIsJoined(w, ends, acceptor, side);
    RunPosts(w, ends, steps, Other(side));
    RunPosts(w, ends, steps, side);
    RunPostsOctets(w, ends, steps, Other(side));
    assert [] + ReadIn(w, ends, steps, side) == ReadIn(w, ends, steps, side);
    EndOfSide(Moves(w, ends, steps), ends, side, length);
  }

  lemma {:induction false} EndOfSide(w: World, ends: Ends, side: Side, length: nat)
    requires Receives(w, ends, side) && Half(w, ends, side).open && length > 0
             && NoneEmpty(Half(w, ends, Other(side)).posted)
    ensures ReturnsZero(At(w, side), Joint(ends, side), length) <==>
              Joint(ends, Other(side)) !in At(w, Other(side)).net.sockets && Flying(w, side) == []
              && Half(w, ends, side).read == Payload(Half(w, ends, Other(side)).posted)
    ensures ReturnsZero(At(w, side), Joint(ends, side), length) ==> AtEnd(w, ends, side)
  {
    hide Inv, Payload, NoneEmpty, CloseIsLast, ReturnsZero, Connected;
    WhenZero(At(w, side), Joint(ends, side), length);
    var v := Half(w, ends, side);
    EndOfHalf(v, Half(w, ends, Other(side)).posted, Flying(w, side));
    assert v.queue != [] ==> v.queue[0] != Data([]) by { HeadHasOctets(v.queue); }
  }

  lemma {:induction false} HeadHasOctets(queue: seq<Packet>)
    requires NoneEmpty(queue)
    ensures queue != [] ==> queue[0] != Data([])
  {
  }

  lemma {:induction false} EndStays(w: World, ends: Ends, steps: seq<Step>, side: Side)
    requires Joined(w, ends) && LegalSteps(w, ends, steps) && AtEnd(w, ends, side)
    ensures AtEnd(Moves(w, ends, steps), ends, side)
    decreases |steps|
  {
    hide Receives, Possible, Move, PostedBy, ReadBy, ArrivedBy, EventOf, Half, At, Connected;
    if steps != [] {
      MoveKeeps(w, ends, steps[0]);
      EndStays(Move(w, ends, steps[0]), ends, steps[1..], side);
    }
  }

  /** Once a read has met the end, every later read on the socket, of any size, returns 0. */
  lemma {:induction false} EndForever(w: World, ends: Ends, acceptor: Side, steps: seq<Step>, side: Side, length: nat,
          more: seq<Step>, again: nat)
    requires Accepted(w, ends, acceptor) && LegalSteps(w, ends, steps) && length > 0
    requires NeverSendsEmpty(w, ends, steps, Other(side))
    requires ReturnsZero(At(Moves(w, ends, steps), side), Joint(ends, side), length)
    requires LegalSteps(Moves(w, ends, steps), ends, more)
    ensures var w' := Moves(Moves(w, ends, steps), ends, more);
            Joint(ends, side) in At(w', side).net.sockets ==> ReturnsZero(At(w', side), Joint(ends, side), again)
  {
    hide LegalSteps, Moves, NeverSendsEmpty, Receives, Connected, Accepted;
    var w1 := Moves(w, ends, steps);
    AcceptedIsJoined(w, ends, acceptor, side);
    MovesKeep(w, ends, steps);
    EndOfStream(w, ends, acceptor, steps, side, length);
    EndStays(w1, ends, more, side);
    var st := At(Moves(w1, ends, more), side);
    if Joint(ends, side) in st.net.sockets { WhenZero(st, Joint(ends, side), again); }
  }
}
