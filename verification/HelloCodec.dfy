/** Parsing and encoding HELLOs undo each other, and exactly when. */
module HelloCodec {
  import opened Octets
  import opened Encoder
  import opened Parser
  import opened Message
  import opened DataStructures
  import opened Hello
  import opened HelloAlgebra

  /** An address that comes through `Array.apply` unchanged. */
  predicate Representable(a: Address) {
    |a| != 1 && forall c | c in a :: c.Octet?
  }

  predicate Encodable(x: TransportAddress) {
    NulFree(x.transport) && |x.encodedAddress| < TWO_TO_THE_16
  }

  /** Names without NUL, addresses and key that fit their fields. */
  ghost predicate WellFormed(h: Hello) {
    && NormalHello(h) && |h.publicKey| == KEY_SIZE
    && forall path: seq<Key> | Lookup(h.transportAddresses, path) != [] ::
         NulFree(path[0].name) && |path[1].place| < TWO_TO_THE_16
  }

  /** All addresses of the HELLO are representable: what a sender can check beforehand. */
  ghost predicate Faithful(h: Hello)
    requires NormalHello(h)
  {
    forall path: seq<Key> | Lookup(h.transportAddresses, path) != [] :: Representable(path[1].place)
  }

  /** A well-formed HELLO whose message size fits the 16-bit field. */
  ghost predicate Sendable(h: Hello, order: Order<Key>) {
    ValidOrder(order) && WellFormed(h) && 4 + |HelloBody(h, order)| < TWO_TO_THE_16
  }

  /** What an address becomes on its way through the encoder and the parser. */
  function Reread(x: TransportAddress): TransportAddress {
    x.(encodedAddress := ArrayOf(Filled(x.encodedAddress)))
  }

  function RereadAll(xs: seq<TransportAddress>): (ys: seq<TransportAddress>)
    ensures |ys| == |xs| && forall i | 0 <= i < |xs| :: ys[i] == Reread(xs[i])
  {
    if xs == [] then [] else [Reread(xs[0])] + RereadAll(xs[1..])
  }

  // ---------------------------------------------------------------- Array.apply

  lemma {:induction false} ArrayOfCells(raw: Bytes)
    ensures |ArrayOf(raw)| == 1 ==> raw == [1] && ArrayOf(raw) == [Hole]
    ensures |raw| != 1 ==> |ArrayOf(raw)| == |raw| && Representable(ArrayOf(raw)) && Filled(ArrayOf(raw)) == raw
    ensures (forall c | c in ArrayOf(raw) :: c.Octet?) ==> |ArrayOf(raw)| <= |raw|
    ensures |raw| < TWO_TO_THE_16 ==> |ArrayOf(raw)| < TWO_TO_THE_16
  {
    var a := ArrayOf(raw);
    if |raw| == 1 && raw[0] > 0 {
      assert a[0] == Hole;
      assert Hole in a;
    }
  }

  lemma {:induction false} RereadSame(x: TransportAddress)
    ensures Reread(x) == x <==> Representable(x.encodedAddress)
  {
    var a := x.encodedAddress;
    ArrayOfCells(Filled(a));
    if Representable(a) {
      forall i | 0 <= i < |a| ensures ArrayOf(Filled(a))[i] == a[i] { assert a[i] in a; }
      assert ArrayOf(Filled(a)) == a;
    } else if |a| == 1 {
      assert a == [Hole] ==> Filled(a) == [0];
    }
  }

  // ---------------------------------------------------------------- parsing what was encoded

  lemma {:induction false} ManyEncoded(xs: seq<TransportAddress>)
    requires Consumes(ParseTransportAddress) && forall x | x in xs :: Encodable(x)
    ensures Many(ParseTransportAddress, EncodeAddresses(xs)) == (RereadAll(xs), [])
  {
    hide ParseTransportAddress, EncodeTransportAddress, Reread;
    if xs == [] {
      if ParseTransportAddress([]).Ok? { AddressesConsume(); }
    } else {
      ManyEncoded(xs[1..]);
      ParseEncodedAddress(xs[0], EncodeAddresses(xs[1..]));
    }
  }

  lemma {:induction false} ParseEncodedAddress(x: TransportAddress, r: Bytes)
    requires Encodable(x)
    ensures ParseTransportAddress(EncodeTransportAddress(x) + r) == Ok(Reread(x), r)
  {
    hide ParseTransportAddress, ArrayOf;
    ParseWireAddress(x.transport, x.expiration, Filled(x.encodedAddress), r);
    assert EncodeTransportAddress(x) == WireAddress(x.transport, x.expiration, Filled(x.encodedAddress));
  }

  /** The addresses of a well-formed HELLO can be encoded. */
  lemma {:induction false} FlattenedAddresses(t: AddressMap, order: Order<Key>)
    requires ValidOrder(order) && NormalMap(t)
    ensures forall x :: x in FlattenTransportAddresses(t, order) ==>
              Lookup(t, [Name(x.transport), Place(x.encodedAddress)]) != []
  {
    var flat := FlattenTransportAddresses(t, order);
    forall x | x in flat ensures Lookup(t, [Name(x.transport), Place(x.encodedAddress)]) != [] {
      var path := KeysOf(FIELDS, x);
      KeysOfFields(x);
      FlattenMatching(t, order, path);
      MatchingHolds(path, flat);
      assert x in Matching(FIELDS, path, flat);
    }
  }

  lemma {:induction false} ParseParts(flag: uint32, key: Bytes, tail: Bytes, xs: seq<TransportAddress>)
    requires Consumes(ParseTransportAddress) && |key| == KEY_SIZE && Many(ParseTransportAddress, tail) == (xs, [])
    ensures ParseHello(EncodeUint32(flag) + key + tail) == Ok(Hello(flag != 0, key, TransportAddressesMap(xs)), [])
  {
    hide ParseUint32, EncodeUint32, NoneOrMore, ParseTransportAddress, TransportAddressesMap;
    var s := EncodeUint32(flag) + key + tail;
    assert s == EncodeUint32(flag) + (key + tail);
    ParseUint32Inverts(s, flag, key + tail);
    assert (key + tail)[..KEY_SIZE] == key && (key + tail)[KEY_SIZE..] == tail;
    NoneOrMoreIsMany(ParseTransportAddress, tail);
  }

  lemma {:induction false} FlattenedEncodable(h: Hello, order: Order<Key>)
    requires ValidOrder(order) && WellFormed(h)
    ensures forall x | x in FlattenTransportAddresses(h.transportAddresses, order) :: Encodable(x)
  {
    FlattenedAddresses(h.transportAddresses, order);
    forall x | x in FlattenTransportAddresses(h.transportAddresses, order) ensures Encodable(x) {
      var path := [Name(x.transport), Place(x.encodedAddress)];
      assert Lookup(h.transportAddresses, path) != [];
    }
  }

  /** The HELLO that the parser makes of an encoded one. */
  function Returned(h: Hello, order: Order<Key>): Hello
    requires ValidOrder(order) && WellNested(h.transportAddresses, 2)
  {
    h.(transportAddresses := TransportAddressesMap(RereadAll(FlattenTransportAddresses(h.transportAddresses, order))))
  }

  lemma {:induction false} ParseBody(h: Hello, order: Order<Key>)
    requires ValidOrder(order) && WellFormed(h)
    ensures ParseHello(HelloBody(h, order)) == Ok(Returned(h, order), [])
  {
    var flat := FlattenTransportAddresses(h.transportAddresses, order);
    var flag: uint32 := if h.friendOnly then 1 else 0;
    FlattenedEncodable(h, order);
    AddressesConsume();
    ManyEncoded(flat);
    assert HelloBody(h, order) == EncodeUint32(flag) + h.publicKey + EncodeAddresses(flat);
    hide ParseHello, HelloBody, EncodeUint32, Many, ParseTransportAddress, TransportAddressesMap, RereadAll;
    ParseParts(flag, h.publicKey, EncodeAddresses(flat), RereadAll(flat));
  }

  lemma {:induction false} ParseEncodedHello(h: Hello, order: Order<Key>, r: Bytes)
    requires Sendable(h, order)
    ensures ParseHelloMessage(EncodeHello(h, order) + r) == Ok(Message(MESSAGE_TYPE_HELLO, Returned(h, order)), r)
  {
    var body := HelloBody(h, order);
    hide ParseHello, HelloBody, Returned, WellFormed, EncodeMessage, ParseMessageTypes;
    ParseBody(h, order);
    ParseEncodedMessage([TypedParser(MESSAGE_TYPE_HELLO, ParseHello)], MESSAGE_TYPE_HELLO, body, r, ParseHello);
  }

  // ---------------------------------------------------------------- exactly when it is the same HELLO

  lemma {:induction false} SomeSource(ys: seq<TransportAddress>, path: seq<Key>) returns (y: TransportAddress)
    requires Lookup(TransportAddressesMap(ys), path) != []
    ensures y in ys && path == [Name(y.transport), Place(y.encodedAddress)]
  {
    MapAt(ys, path);
    MatchingHolds(path, ys);
    y := Matching(FIELDS, path, ys)[0];
    assert y in Matching(FIELDS, path, ys);
    KeysOfFields(y);
  }

  /** An address in the reread map is what some address of the map became. */
  lemma {:induction false} RereadFrom(t: AddressMap, order: Order<Key>, path: seq<Key>) returns (x: TransportAddress)
    requires ValidOrder(order) && NormalMap(t)
    requires Lookup(TransportAddressesMap(RereadAll(FlattenTransportAddresses(t, order))), path) != []
    ensures path == [Name(x.transport), Place(ArrayOf(Filled(x.encodedAddress)))]
    ensures Lookup(t, [Name(x.transport), Place(x.encodedAddress)]) != []
  {
    var flat := FlattenTransportAddresses(t, order);
    var ys := RereadAll(flat);
    var y := SomeSource(ys, path);
    var i :| 0 <= i < |ys| && ys[i] == y;
    x := flat[i];
    FlattenedAddresses(t, order);
  }

  /** If rereading gives the map back, an address of length 1 must be [Hole] and come from [1]. */
  lemma {:induction false} SingleFrom(t: AddressMap, order: Order<Key>, path: seq<Key>) returns (other: seq<Key>)
    requires ValidOrder(order) && NormalMap(t)
    requires TransportAddressesMap(RereadAll(FlattenTransportAddresses(t, order))) == t
    requires Lookup(t, path) != [] && |path[1].place| == 1
    ensures path[1].place == [Hole]
    ensures Lookup(t, other) != [] && other[1].place == [Octet(1)]
  {
    var x := RereadFrom(t, order, path);
    ArrayOfCells(Filled(x.encodedAddress));
    assert x.encodedAddress[0] == Octet(Filled(x.encodedAddress)[0]);
    other := [Name(x.transport), Place(x.encodedAddress)];
  }

  ghost predicate AllRepresentable(t: AddressMap)
    requires NormalMap(t)
  {
    forall path: seq<Key> | Lookup(t, path) != [] :: Representable(path[1].place)
  }

  /** If rereading gives the map back, every address came through. */
  lemma {:induction false} SameIsRepresentable(t: AddressMap, order: Order<Key>)
    requires ValidOrder(order) && NormalMap(t)
    requires TransportAddressesMap(RereadAll(FlattenTransportAddresses(t, order))) == t
    ensures AllRepresentable(t)
  {
    hide TransportAddressesMap, FlattenTransportAddresses, ValidOrder;
    forall path: seq<Key> | Lookup(t, path) != [] ensures Representable(path[1].place) {
      var x := RereadFrom(t, order, path);
      var from := [Name(x.transport), Place(x.encodedAddress)];
      if |from[1].place| == 1 {
        var other := SingleFrom(t, order, from);
        var third := SingleFrom(t, order, other);
        assert false;
      }
      ArrayOfCells(Filled(x.encodedAddress));
    }
  }

  lemma {:induction false} RepresentableIsSame(t: AddressMap, order: Order<Key>)
    requires ValidOrder(order) && NormalMap(t) && AllRepresentable(t)
    ensures TransportAddressesMap(RereadAll(FlattenTransportAddresses(t, order))) == t
  {
    hide TransportAddressesMap, FlattenTransportAddresses, ValidOrder;
    var flat := FlattenTransportAddresses(t, order);
    FlattenedAddresses(t, order);
    forall i | 0 <= i < |flat| ensures RereadAll(flat)[i] == flat[i] {
      var path := [Name(flat[i].transport), Place(flat[i].encodedAddress)];
      assert flat[i] in flat;
      assert Lookup(t, path) != [] && Representable(path[1].place);
      RereadSame(flat[i]);
    }
    assert RereadAll(flat) == flat;
    MapOfFlattened(t, order);
  }

  /** Round trip: a well-formed HELLO that fits its message comes back from the parser, whatever follows it
      and in whatever order its map is walked, if and only if all its addresses are representable. */
  lemma {:induction false} RoundTrip(h: Hello, order: Order<Key>, r: Bytes)
    requires Sendable(h, order)
    ensures ParseHelloMessage(EncodeHello(h, order) + r) == Ok(Message(MESSAGE_TYPE_HELLO, h), r) <==> Faithful(h)
  {
    hide ValidOrder, TransportAddressesMap, ParseHelloMessage, EncodeHello, HelloBody, FlattenTransportAddresses;
    ParseEncodedHello(h, order, r);
    if Faithful(h) { RepresentableIsSame(h.transportAddresses, order); }
    if Returned(h, order) == h { SameIsRepresentable(h.transportAddresses, order); }
  }

  ghost predicate AllSendable(hs: seq<Hello>, orders: seq<Order<Key>>) {
    && |orders| == |hs|
    && (hs == [] || (Sendable(hs[0], orders[0]) && AllSendable(hs[1..], orders[1..])))
  }

  ghost predicate AllFaithful(hs: seq<Hello>) {
    hs == [] || (NormalHello(hs[0]) && Faithful(hs[0]) && AllFaithful(hs[1..]))
  }

  ghost function EncodeAll(hs: seq<Hello>, orders: seq<Order<Key>>): Bytes
    requires AllSendable(hs, orders)
  {
    if hs == [] then [] else EncodeHello(hs[0], orders[0]) + EncodeAll(hs[1..], orders[1..])
  }

  function Messages(hs: seq<Hello>): seq<Message<Hello>> {
    if hs == [] then [] else [Message(MESSAGE_TYPE_HELLO, hs[0])] + Messages(hs[1..])
  }

  /** A hostlist: parsing the concatenated encodings gives the same HELLOs in order and leaves no input,
      if and only if all of them are faithful. */
  lemma {:induction false} HostlistRoundTrip(hs: seq<Hello>, orders: seq<Order<Key>>)
    requires AllSendable(hs, orders)
    ensures ParseHostlist(EncodeAll(hs, orders)) == Ok(Messages(hs), []) <==> AllFaithful(hs)
  {
    hide Many, ParseHelloMessage, AllFaithful;
    HelloMessagesConsume();
    NoneOrMoreIsMany(ParseHelloMessage, EncodeAll(hs, orders));
    ManyHellos(hs, orders);
  }

  lemma {:induction false} ManyHellos(hs: seq<Hello>, orders: seq<Order<Key>>)
    requires Consumes(ParseHelloMessage) && AllSendable(hs, orders)
    ensures Many(ParseHelloMessage, EncodeAll(hs, orders)) == (Messages(hs), []) <==> AllFaithful(hs)
    decreases |hs|
  {
    hide Many, ParseHelloMessage, Sendable, Faithful, EncodeHello, Messages;
    if hs == [] {
      NoMoreHellos();
    } else {
      ManyHellos(hs[1..], orders[1..]);
      FirstHello(hs[0], orders[0], EncodeAll(hs[1..], orders[1..]), hs[1..]);
      assert hs == [hs[0]] + hs[1..];
    }
  }

  lemma {:induction false} NoMoreHellos()
    requires Consumes(ParseHelloMessage)
    ensures Many(ParseHelloMessage, []) == (Messages([]), [])
  {
    hide ParseHelloMessage;
    HelloMessagesConsume();
    assert ParseHelloMessage([]).Fail?;
  }

  lemma {:induction false} FirstHello(h: Hello, order: Order<Key>, tail: Bytes, hs: seq<Hello>)
    requires Consumes(ParseHelloMessage) && Sendable(h, order)
    ensures NormalHello(h)
    ensures Many(ParseHelloMessage, EncodeHello(h, order) + tail) == (Messages([h] + hs), []) <==>
            Faithful(h) && Many(ParseHelloMessage, tail) == (Messages(hs), [])
  {
    RoundTrip(h, order, tail);
    ParseEncodedHello(h, order, tail);
    var s, g := EncodeHello(h, order) + tail, Returned(h, order);
    ManyStep(s, g, tail);
    var (ms, r) := Many(ParseHelloMessage, tail);
    assert g == h <==> Faithful(h);
    hide Many, ParseHelloMessage, Sendable, Returned, EncodeHello, Faithful;
    assert ([h] + hs)[1..] == hs;
    assert Messages([h] + hs) == [Message(MESSAGE_TYPE_HELLO, h)] + Messages(hs);
    assert ([Message(MESSAGE_TYPE_HELLO, g)] + ms)[1..] == ms;
    assert ([Message(MESSAGE_TYPE_HELLO, h)] + Messages(hs))[1..] == Messages(hs);
  }

  lemma {:induction false} ManyStep(s: Bytes, h: Hello, tail: Bytes)
    requires Consumes(ParseHelloMessage) && ParseHelloMessage(s) == Ok(Message(MESSAGE_TYPE_HELLO, h), tail)
    ensures Many(ParseHelloMessage, s) ==
            ([Message(MESSAGE_TYPE_HELLO, h)] + Many(ParseHelloMessage, tail).0, Many(ParseHelloMessage, tail).1)
  {
  }
}
