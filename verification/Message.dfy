/** Length-framed GNUnet messages: message.cljs. */
module Message {
  import opened Wrappers
  import opened Octets
  import opened Encoder
  import opened Parser

  datatype Header = Header(size: uint16, messageType: uint16)

  /** A parser with the message type its metadata declares. */
  datatype TypedParser<T> = TypedParser(messageType: uint16, parser: Parser<T>)

  datatype Message<T> = Message(messageType: uint16, message: T)

  function ParseHeader(s: Bytes): Parsed<Header> {
    var (size, s) :- ParseUint16(s);
    var (messageType, s) :- ParseUint16(s);
    Ok(Header(size, messageType), s)
  }

  /** The parser set as it happens to be enumerated; the first parser of a type is taken. */
  function FirstOfType<T>(parsers: seq<TypedParser<T>>, messageType: nat): Option<Parser<T>> {
    if parsers == [] then None
    else if parsers[0].messageType == messageType then Some(parsers[0].parser)
    else FirstOfType(parsers[1..], messageType)
  }

  function ParseMessageTypes<T>(parsers: seq<TypedParser<T>>): Parser<Message<T>> {
    (s: Bytes) =>
      var (header, s) :- ParseHeader(s);
      match FirstOfType(parsers, header.messageType)
      case None => Fail
      case Some(p) =>
        var (newState, oldState) :- Items(header.size - 4)(s);
        var (message, _) :- p(newState);
        Ok(Message(header.messageType, message), oldState)
  }

  function EncodeMessage(messageType: int, message: Bytes): Bytes {
    EncodeUint16(4 + |message|) + EncodeUint16(messageType) + message
  }

  /** What a frame says about itself. */
  function FrameSize(s: Bytes): nat
    requires |s| >= 4
  {
    BigEndian(s[..2])
  }

  function FrameType(s: Bytes): nat
    requires |s| >= 4
  {
    BigEndian(s[2..4])
  }

  lemma {:induction false} ParseHeaderReads(s: Bytes)
    ensures |s| < 4 ==> ParseHeader(s) == Fail
    ensures |s| >= 4 ==>
              ParseHeader(s) ==
              Ok(Header(s[1] as int + 0x100 * s[0] as int, s[3] as int + 0x100 * s[2] as int), s[4..])
    ensures |s| >= 4 ==>
              && FrameSize(s) == s[1] as int + 0x100 * s[0] as int
              && FrameType(s) == s[3] as int + 0x100 * s[2] as int
  {
    if |s| >= 4 {
      assert s[1..][1..] == s[2..] && s[2..][1..] == s[3..] && s[3..][1..] == s[4..];
      assert s[..2] == [s[0], s[1]] && s[2..4] == [s[2], s[3]];
      BigEndianOfTwo(s[0], s[1]);
      BigEndianOfTwo(s[2], s[3]);
    }
  }

  /** Framing: success means that the announced size is there, that its type is known and that the inner
      parser accepts the body on its own; then exactly the announced size has gone, whatever the inner
      parser left. In every other case the parser fails. */
  lemma {:induction false} Framing<T>(parsers: seq<TypedParser<T>>, s: Bytes, m: Message<T>, r: Bytes)
    ensures ParseMessageTypes(parsers)(s) == Ok(m, r) <==>
            && 4 <= |s| && 4 <= FrameSize(s) <= |s| && FrameType(s) == m.messageType
            && FirstOfType(parsers, m.messageType).Some?
            && var body := FirstOfType(parsers, m.messageType).value(s[4..FrameSize(s)]);
               body.Ok? && body.value == m.message && r == s[FrameSize(s)..]
  {
    ParseHeaderReads(s);
    if |s| >= 4 {
      var n := FrameSize(s);
      if 4 <= n <= |s| {
        assert s[4..][..n - 4] == s[4..n] && s[4..][n - 4..] == s[n..];
      }
    }
  }

  /** Isolation: the result does not depend on the octets after the message. */
  lemma {:induction false} Isolation<T>(parsers: seq<TypedParser<T>>, s: Bytes, t: Bytes)
    requires ParseMessageTypes(parsers)(s).Ok?
    ensures var m := ParseMessageTypes(parsers)(s);
            |m.rest| <= |s| && ParseMessageTypes(parsers)(s[..|s| - |m.rest|] + t) == Ok(m.value, t)
  {
    var m := ParseMessageTypes(parsers)(s);
    Framing(parsers, s, m.value, m.rest);
    var n := FrameSize(s);
    var u := s[..n] + t;
    assert u[..2] == s[..2] && u[2..4] == s[2..4] && u[4..n] == s[4..n] && u[n..] == t;
    Framing(parsers, u, m.value, t);
  }

  lemma {:induction false} MessagesConsume<T>(parsers: seq<TypedParser<T>>)
    ensures Consumes(ParseMessageTypes(parsers))
    ensures forall s | ParseMessageTypes(parsers)(s).Ok? :: |ParseMessageTypes(parsers)(s).rest| + 4 <= |s|
  {
    forall s | ParseMessageTypes(parsers)(s).Ok? ensures |ParseMessageTypes(parsers)(s).rest| + 4 <= |s| {
      var m := ParseMessageTypes(parsers)(s);
      Framing(parsers, s, m.value, m.rest);
    }
  }

  /** A frame that the repetition cannot read stops it there: none of its octets is taken. */
  lemma {:induction false} BadFrameIsKept<T(!new)>(parsers: seq<TypedParser<T>>, s: Bytes)
    requires Consumes(ParseMessageTypes(parsers))
    requires |s| < 4 || FrameSize(s) < 4 || |s| < FrameSize(s) || FirstOfType(parsers, FrameType(s)).None?
    ensures NoneOrMore(ParseMessageTypes(parsers))(s) == Ok([], s)
  {
    if ParseMessageTypes(parsers)(s).Ok? {
      var m := ParseMessageTypes(parsers)(s);
      Framing(parsers, s, m.value, m.rest);
    }
    NoneOrMoreIsMany(ParseMessageTypes(parsers), s);
  }

  lemma {:induction false} Slices(a: Bytes, b: Bytes, message: Bytes, r: Bytes)
    requires |a| == 2 && |b| == 2
    ensures var s := a + b + message + r;
            s[..2] == a && s[2..4] == b && s[4..4 + |message|] == message && s[4 + |message|..] == r
  {
  }

  /** An encoded message frames itself as long as its size fits the 16-bit field. */
  lemma {:induction false} EncodedFrame(messageType: uint16, message: Bytes, r: Bytes)
    requires 4 + |message| < TWO_TO_THE_16
    ensures var s := EncodeMessage(messageType, message) + r;
            |s| >= 4 && FrameSize(s) == 4 + |message| && FrameType(s) == messageType
            && s[4..4 + |message|] == message && s[4 + |message|..] == r
  {
    hide EncodeUint16, BigEndian;
    EncodeUint16Value(4 + |message|);
    EncodeUint16Value(messageType);
    var a, b := EncodeUint16(4 + |message|), EncodeUint16(messageType);
    Slices(a, b, message, r);
    assert a + b + message + r == EncodeMessage(messageType, message) + r;
  }

  lemma {:induction false} ParseEncodedMessage<T>(parsers: seq<TypedParser<T>>, messageType: uint16, body: Bytes,
          r: Bytes, p: Parser<T>)
    requires 4 + |body| < TWO_TO_THE_16 && FirstOfType(parsers, messageType) == Some(p) && p(body).Ok?
    ensures ParseMessageTypes(parsers)(EncodeMessage(messageType, body) + r) ==
              Ok(Message(messageType, p(body).value), r)
  {
    EncodedFrame(messageType, body, r);
    Framing(parsers, EncodeMessage(messageType, body) + r, Message(messageType, p(body).value), r);
  }
}
