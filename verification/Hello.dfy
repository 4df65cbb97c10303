/** HELLO messages: the codec and the address algebra of hello.cljs. */
module Hello {
  import opened Octets
  import opened Encoder
  import opened Parser
  import opened Message
  import opened DataStructures

  const MESSAGE_TYPE_HELLO: uint16 := 17
  const KEY_SIZE := 32

  /** An element of a JavaScript array that need not have been filled. */
  datatype Cell = Octet(value: byte) | Hole

  type Address = seq<Cell>

  /** A 64-bit time as the vector [msw lsw]. */
  datatype Expiration = Expiration(msw: uint32, lsw: uint32) {
    function Microseconds(): nat { msw * TWO_TO_THE_32 + lsw }
  }

  datatype TransportAddress = TransportAddress(transport: Bytes, encodedAddress: Address, expiration: Expiration)

  /** The keys of the two levels of an address map. */
  datatype Key = Name(name: Bytes) | Place(place: Address)

  type AddressMap = Tree<Key, Expiration>

  datatype Hello = Hello(friendOnly: bool, publicKey: Bytes, transportAddresses: AddressMap)

  /** `(vec (.apply js/Array nil xs))`. With a single number Array makes an array of that length,
      with nothing in it. */
  function ArrayOf(xs: Bytes): Address {
    if |xs| == 1 then seq(xs[0], i => Hole) else seq(|xs|, i requires 0 <= i < |xs| => Octet(xs[i]))
  }

  /** The octets that the address becomes in the byte array handed to the transport, where an unfilled
      element is stored as 0. */
  function Filled(a: Address): Bytes {
    seq(|a|, i requires 0 <= i < |a| => if a[i].Hole? then 0 else a[i].value)
  }

  // ---------------------------------------------------------------- codec

  function ParseAbsoluteTime(s: Bytes): Parsed<Expiration> {
    var (t, s) :- ParseUint64(s);
    Ok(Expiration(t.0, t.1), s)
  }

  function ParseTransportAddress(s: Bytes): Parsed<TransportAddress> {
    var (transport, s) :- ParseUtf8(s);
    var (addressLength, s) :- ParseUint16(s);
    var (expiration, s) :- ParseAbsoluteTime(s);
    var (encodedAddress, s) :- Items(addressLength)(s);
    Ok(TransportAddress(transport, ArrayOf(encodedAddress), expiration), s)
  }

  function EncodeTransportAddress(x: TransportAddress): Bytes {
    EncodeUtf8(x.transport) + EncodeUint16(|x.encodedAddress|)
    + EncodeUint64(x.expiration.msw, x.expiration.lsw) + Filled(x.encodedAddress)
  }

  /** A public key has 32 octets, so the array made from them has those elements. */
  function ParsePeerIdentity(s: Bytes): Parsed<Bytes> {
    Items(KEY_SIZE)(s)
  }

  function TransportOf(x: TransportAddress): Key { Name(x.transport) }

  function PlaceOf(x: TransportAddress): Key { Place(x.encodedAddress) }

  const FIELDS: seq<TransportAddress -> Key> := [TransportOf, PlaceOf]

  /** `compare` on two vectors of two numbers. */
  predicate AtMost(x: Expiration, y: Expiration) {
    x.msw < y.msw || (x.msw == y.msw && x.lsw <= y.lsw)
  }

  function Expirations(xs: seq<TransportAddress>): seq<Expiration> {
    if xs == [] then [] else [xs[0].expiration] + Expirations(xs[1..])
  }

  function Insert(x: Expiration, xs: seq<Expiration>): seq<Expiration> {
    if xs == [] || AtMost(x, xs[0]) then [x] + xs else [xs[0]] + Insert(x, xs[1..])
  }

  function Sort(xs: seq<Expiration>): seq<Expiration> {
    if xs == [] then [] else Insert(xs[0], Sort(xs[1..]))
  }

  function Reverse<T>(xs: seq<T>): seq<T> {
    if xs == [] then [] else Reverse(xs[1..]) + [xs[0]]
  }

  function LatestExpiration(xs: seq<TransportAddress>): seq<Expiration>
    requires xs != []
  {
    SortKeeps(Expirations(xs));
    ReverseKeeps(Sort(Expirations(xs)));
    [Reverse(Sort(Expirations(xs)))[0]]
  }

  function TransportAddressesMap(xs: seq<TransportAddress>): AddressMap {
    NestedGroupBy(FIELDS, LatestExpiration, xs)
  }

  /** The label {:transport :encoded-address :expiration}; labels of a two-level map have two keys. */
  function FromLabel(x: (seq<Key>, Expiration)): TransportAddress
    requires |x.0| == 2
  {
    TransportAddress(if x.0[0].Name? then x.0[0].name else [], if x.0[1].Place? then x.0[1].place else [], x.1)
  }

  function FromLabels(xs: seq<(seq<Key>, Expiration)>): seq<TransportAddress>
    requires forall x | x in xs :: |x.0| == 2
  {
    if xs == [] then [] else [FromLabel(xs[0])] + FromLabels(xs[1..])
  }

  function FlattenTransportAddresses(t: AddressMap, order: Order<Key>): seq<TransportAddress>
    requires ValidOrder(order) && WellNested(t, 2)
  {
    FlattenLabels(t, 2, order, []);
    FromLabels(FlattenNestedMaps(t, order, []))
  }

  function EncodeAddresses(xs: seq<TransportAddress>): Bytes {
    if xs == [] then [] else EncodeTransportAddress(xs[0]) + EncodeAddresses(xs[1..])
  }

  function ParseHello(s: Bytes): Parsed<Hello> {
    AddressesConsume();
    var (friendOnly, s) :- ParseUint32(s);
    var (publicKey, s) :- ParsePeerIdentity(s);
    var (addresses, s) :- NoneOrMore(ParseTransportAddress)(s);
    Ok(Hello(friendOnly != 0, publicKey, TransportAddressesMap(addresses)), s)
  }

  function HelloBody(h: Hello, order: Order<Key>): Bytes
    requires ValidOrder(order) && WellNested(h.transportAddresses, 2)
  {
    EncodeUint32(if h.friendOnly then 1 else 0) + h.publicKey
    + EncodeAddresses(FlattenTransportAddresses(h.transportAddresses, order))
  }

  function EncodeHello(h: Hello, order: Order<Key>): Bytes
    requires ValidOrder(order) && WellNested(h.transportAddresses, 2)
  {
    EncodeMessage(MESSAGE_TYPE_HELLO, HelloBody(h, order))
  }

  /** The parser that parse-hostlist repeats. */
  function ParseHelloMessage(s: Bytes): Parsed<Message<Hello>> {
    ParseMessageTypes([TypedParser(MESSAGE_TYPE_HELLO, ParseHello)])(s)
  }

  function ParseHostlist(s: Bytes): Parsed<seq<Message<Hello>>> {
    HelloMessagesConsume();
    NoneOrMore(ParseHelloMessage)(s)
  }

  function MergeHello(a: Hello, b: Hello, orderA: Order<Key>, orderB: Order<Key>): Hello
    requires ValidOrder(orderA) && WellNested(a.transportAddresses, 2)
    requires ValidOrder(orderB) && WellNested(b.transportAddresses, 2)
  {
    Hello(
      a.friendOnly || b.friendOnly,
      a.publicKey,
      TransportAddressesMap(FlattenTransportAddresses(a.transportAddresses, orderA)
                            + FlattenTransportAddresses(b.transportAddresses, orderB)))
  }

  // ---------------------------------------------------------------- sorting

  lemma {:induction false} InsertKeeps(x: Expiration, xs: seq<Expiration>)
    ensures multiset(Insert(x, xs)) == multiset{x} + multiset(xs)
    ensures |Insert(x, xs)| == |xs| + 1
  {
    if xs != [] && !AtMost(x, xs[0]) {
      InsertKeeps(x, xs[1..]);
      assert xs == [xs[0]] + xs[1..];
    }
  }

  lemma {:induction false} SortKeeps(xs: seq<Expiration>)
    ensures multiset(Sort(xs)) == multiset(xs) && |Sort(xs)| == |xs|
  {
    if xs != [] {
      SortKeeps(xs[1..]);
      InsertKeeps(xs[0], Sort(xs[1..]));
      assert xs == [xs[0]] + xs[1..];
    }
  }

  lemma {:induction false} ReverseKeeps<T>(xs: seq<T>)
    ensures |Reverse(xs)| == |xs|
    ensures forall i | 0 <= i < |xs| :: Reverse(xs)[i] == xs[|xs| - 1 - i]
  {
    if xs != [] { ReverseKeeps(xs[1..]); }
  }

  // ---------------------------------------------------------------- one address on the wire

  function WireAddress(transport: Bytes, expiration: Expiration, raw: Bytes): Bytes {
    EncodeUtf8(transport) + EncodeUint16(|raw|) + EncodeUint64(expiration.msw, expiration.lsw) + raw
  }

  lemma {:induction false} ParseTimeInverts(s: Bytes, t: Expiration, r: Bytes)
    ensures ParseAbsoluteTime(s) == Ok(t, r) <==> s == EncodeUint64(t.msw, t.lsw) + r
  {
    hide ParseUint64, EncodeUint64;
    ParseUint64Inverts(s, t.msw, t.lsw, r);
  }

  lemma {:induction false} ItemsInverts(n: nat, s: Bytes, raw: Bytes, r: Bytes)
    ensures Items(n)(s) == Ok(raw, r) <==> s == raw + r && |raw| == n
  {
    if s == raw + r && |raw| == n {
      assert s[..n] == raw && s[n..] == r;
    }
  }

  /** What parse-transport-address accepts: exactly the encodings with a NUL-free name. */
  lemma {:induction false} ParseAddressSplits(s: Bytes) returns (raw: Bytes)
    requires ParseTransportAddress(s).Ok?
    ensures var x := ParseTransportAddress(s).value;
            && NulFree(x.transport) && |raw| < TWO_TO_THE_16 && x.encodedAddress == ArrayOf(raw)
            && s == WireAddress(x.transport, x.expiration, raw) + ParseTransportAddress(s).rest
  {
    hide ParseUtf8, ParseUint16, ParseAbsoluteTime, Items, EncodeUtf8, EncodeUint16, EncodeUint64, ArrayOf;
    var p := ParseUtf8(s);
    ParseUtf8Inverts(s, p.value, p.rest);
    var q := ParseUint16(p.rest);
    ParseUint16Inverts(p.rest, q.value, q.rest);
    var t := ParseAbsoluteTime(q.rest);
    ParseTimeInverts(q.rest, t.value, t.rest);
    var a := Items(q.value)(t.rest);
    ItemsInverts(q.value, t.rest, a.value, a.rest);
    raw := a.value;
  }

  lemma {:induction false} ParseWireAddress(transport: Bytes, expiration: Expiration, raw: Bytes, r: Bytes)
    requires NulFree(transport) && |raw| < TWO_TO_THE_16
    ensures ParseTransportAddress(WireAddress(transport, expiration, raw) + r) ==
            Ok(TransportAddress(transport, ArrayOf(raw), expiration), r)
  {
    hide ParseUtf8, ParseUint16, ParseAbsoluteTime, Items, EncodeUtf8, EncodeUint16, EncodeUint64, ArrayOf;
    var s3 := raw + r;
    var s2 := EncodeUint64(expiration.msw, expiration.lsw) + s3;
    var s1 := EncodeUint16(|raw|) + s2;
    assert WireAddress(transport, expiration, raw) + r == EncodeUtf8(transport) + s1;
    ParseUtf8Inverts(EncodeUtf8(transport) + s1, transport, s1);
    ParseUint16Inverts(s1, |raw|, s2);
    ParseTimeInverts(s2, expiration, s3);
    ItemsInverts(|raw|, s3, raw, r);
  }

  lemma {:induction false} WireAddressSize(transport: Bytes, expiration: Expiration, raw: Bytes)
    requires |raw| < TWO_TO_THE_16
    ensures |WireAddress(transport, expiration, raw)| == |transport| + 11 + |raw|
  {
    hide EncodeUint16, EncodeUint32;
    EncodeUint16Value(|raw|);
    EncodeUint32Value(expiration.msw);
    EncodeUint32Value(expiration.lsw);
  }

  lemma {:induction false} AddressesConsume()
    ensures Consumes(ParseTransportAddress)
    ensures forall s | ParseTransportAddress(s).Ok? :: |ParseTransportAddress(s).rest| + 11 <= |s|
  {
    hide ParseTransportAddress, WireAddress;
    forall s | ParseTransportAddress(s).Ok? ensures |ParseTransportAddress(s).rest| + 11 <= |s| {
      var raw := ParseAddressSplits(s);
      var x := ParseTransportAddress(s).value;
      WireAddressSize(x.transport, x.expiration, raw);
    }
  }

  lemma {:induction false} HelloMessagesConsume()
    ensures Consumes(ParseHelloMessage)
    ensures forall s | ParseHelloMessage(s).Ok? :: |ParseHelloMessage(s).rest| + 4 <= |s|
  {
    MessagesConsume([TypedParser(MESSAGE_TYPE_HELLO, ParseHello)]);
  }

  /** The repetitions of addresses and of HELLO messages leave a suffix of their input. */
  lemma {:induction false} AddressesLeaveSuffix()
    ensures Consumes(ParseTransportAddress) && LeavesSuffix(NoneOrMore(ParseTransportAddress))
  {
    AddressesConsume();
    forall s | ParseTransportAddress(s).Ok?
      ensures |ParseTransportAddress(s).rest| <= |s|
      ensures ParseTransportAddress(s).rest == s[|s| - |ParseTransportAddress(s).rest|..]
    {
      var raw := ParseAddressSplits(s);
    }
    hide ParseTransportAddress;
    RepetitionLeavesSuffix(ParseTransportAddress);
  }

  lemma {:induction false} HelloMessagesLeaveSuffix()
    ensures Consumes(ParseHelloMessage) && LeavesSuffix(NoneOrMore(ParseHelloMessage))
  {
    HelloMessagesConsume();
    forall s | ParseHelloMessage(s).Ok?
      ensures |ParseHelloMessage(s).rest| <= |s|
      ensures ParseHelloMessage(s).rest == s[|s| - |ParseHelloMessage(s).rest|..]
    {
      var m := ParseHelloMessage(s);
      Framing([TypedParser(MESSAGE_TYPE_HELLO, ParseHello)], s, m.value, m.rest);
    }
    hide ParseHelloMessage;
    RepetitionLeavesSuffix(ParseHelloMessage);
  }
}
