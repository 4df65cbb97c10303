/** Re-encoding what was parsed: when it gives the same HELLO, and how long it gets. */
module HelloCanonical {
  import opened Octets
  import opened Encoder
  import opened Parser
  import opened Message
  import opened DataStructures
  import opened Hello
  import opened HelloAlgebra
  import opened HelloCodec

  /** What the parser returns is well formed, and its only addresses of length 1 are holes. */
  ghost predicate Parsable(x: TransportAddress) {
    Encodable(x) && (|x.encodedAddress| == 1 ==> x.encodedAddress == [Hole])
  }

  predicate Whole(x: TransportAddress) {
    forall c | c in x.encodedAddress :: c.Octet?
  }

  function AddressSize(x: TransportAddress): nat { |x.transport| + 11 + |x.encodedAddress| }

  function TotalSize(xs: seq<TransportAddress>): nat {
    if xs == [] then 0 else AddressSize(xs[0]) + TotalSize(xs[1..])
  }

  lemma {:induction false} ParsedAddress(s: Bytes)
    requires ParseTransportAddress(s).Ok?
    ensures var x := ParseTransportAddress(s).value;
            Parsable(x) && (Whole(x) ==> AddressSize(x) + |ParseTransportAddress(s).rest| <= |s|)
  {
    hide ParseTransportAddress, WireAddress, ArrayOf, Representable;
    var raw := ParseAddressSplits(s);
    var x := ParseTransportAddress(s).value;
    WireAddressSize(x.transport, x.expiration, raw);
    ArrayOfCells(raw);
  }

  lemma {:induction false} ParsedAddresses(s: Bytes)
    requires Consumes(ParseTransportAddress)
    ensures var (xs, r) := Many(ParseTransportAddress, s);
            (forall x | x in xs :: Parsable(x)) && ((forall x | x in xs :: Whole(x)) ==> TotalSize(xs) + |r| <= |s|)
    decreases |s|
  {
    hide ParseTransportAddress, AddressSize, Parsable, Whole;
    match ParseTransportAddress(s)
    case Fail =>
    case Ok(x, s') =>
      ParsedAddress(s);
      ParsedAddresses(s');
      var (xs, r) := Many(ParseTransportAddress, s');
      assert ([x] + xs)[1..] == xs;
  }

  lemma {:induction false} EncodedSize(xs: seq<TransportAddress>)
    requires forall x | x in xs :: Encodable(x)
    ensures |EncodeAddresses(xs)| == TotalSize(xs)
  {
    hide EncodeUint16, EncodeUint64;
    if xs != [] {
      EncodedSize(xs[1..]);
      assert Encodable(xs[0]) && |Filled(xs[0].encodedAddress)| == |xs[0].encodedAddress|;
      WireAddressSize(xs[0].transport, xs[0].expiration, Filled(xs[0].encodedAddress));
      assert EncodeTransportAddress(xs[0]) ==
             WireAddress(xs[0].transport, xs[0].expiration, Filled(xs[0].encodedAddress));
    }
  }

  // Sizes depend on the keys alone.

  function KeysOfAll(xs: seq<TransportAddress>): seq<seq<Key>> {
    if xs == [] then [] else [KeysOf(FIELDS, xs[0])] + KeysOfAll(xs[1..])
  }

  function PathSize(path: seq<Key>): nat {
    if |path| == 2 && path[0].Name? && path[1].Place? then |path[0].name| + 11 + |path[1].place| else 0
  }

  function PathsSize(paths: seq<seq<Key>>): nat {
    if paths == [] then 0 else PathSize(paths[0]) + PathsSize(paths[1..])
  }

  lemma {:induction false} SizeOfKeys(xs: seq<TransportAddress>)
    ensures TotalSize(xs) == PathsSize(KeysOfAll(xs))
  {
    if xs != [] {
      SizeOfKeys(xs[1..]);
      KeysOfFields(xs[0]);
      assert KeysOfAll(xs)[1..] == KeysOfAll(xs[1..]);
    }
  }

  lemma {:induction false} CountKeys(xs: seq<TransportAddress>, path: seq<Key>)
    ensures multiset(KeysOfAll(xs))[path] == |Matching(FIELDS, path, xs)|
  {
    if xs != [] {
      CountKeys(xs[1..], path);
    }
  }

  lemma {:induction false} PathsSizeWithout(ps: seq<seq<Key>>, i: nat)
    requires i < |ps|
    ensures PathsSize(ps) == PathSize(ps[i]) + PathsSize(ps[..i] + ps[i + 1..])
  {
    var rest := ps[..i] + ps[i + 1..];
    if i == 0 {
      assert rest == ps[1..];
    } else {
      PathsSizeWithout(ps[1..], i - 1);
      assert rest[1..] == ps[1..][..i - 1] + ps[1..][i..];
    }
  }

  lemma {:induction false} FewerPathsAreSmaller(ps: seq<seq<Key>>, qs: seq<seq<Key>>)
    requires multiset(ps) <= multiset(qs)
    ensures PathsSize(ps) <= PathsSize(qs)
    decreases |ps|
  {
    if ps != [] {
      assert ps == [ps[0]] + ps[1..];
      assert ps[0] in multiset(ps);
      assert ps[0] in qs;
      var i :| 0 <= i < |qs| && qs[i] == ps[0];
      PathsSizeWithout(qs, i);
      BagWithout(qs, i);
      BagWithout(ps, 0);
      assert ps[..0] + ps[1..] == ps[1..];
      hide PathSize;
      FewerPathsAreSmaller(ps[1..], qs[..i] + qs[i + 1..]);
    }
  }

  lemma {:induction false} BagWithout<T>(qs: seq<T>, i: nat)
    requires i < |qs|
    ensures multiset(qs[..i] + qs[i + 1..]) == multiset(qs) - multiset{qs[i]}
  {
    assert qs == qs[..i] + [qs[i]] + qs[i + 1..];
  }

  /** Grouping never makes a list of addresses longer: repeated addresses collapse into one. */
  lemma {:induction false} GroupedSize(xs: seq<TransportAddress>, order: Order<Key>)
    requires ValidOrder(order)
    ensures NormalMap(TransportAddressesMap(xs))
    ensures TotalSize(FlattenTransportAddresses(TransportAddressesMap(xs), order)) <= TotalSize(xs)
  {
    var t := TransportAddressesMap(xs);
    MapIsNormal(xs);
    var flat := FlattenTransportAddresses(t, order);
    forall path ensures multiset(KeysOfAll(flat))[path] <= multiset(KeysOfAll(xs))[path] {
      CountKeys(flat, path);
      CountKeys(xs, path);
      FlattenMatching(t, order, path);
      MapAt(xs, path);
      CountMatching(t, order, path);
    }
    assert multiset(KeysOfAll(flat)) <= multiset(KeysOfAll(xs));
    FewerPathsAreSmaller(KeysOfAll(flat), KeysOfAll(xs));
    SizeOfKeys(flat);
    SizeOfKeys(xs);
  }

  lemma {:induction false} CountMatching(t: AddressMap, order: Order<Key>, path: seq<Key>)
    requires ValidOrder(order) && NormalMap(t)
    ensures |Matching(FIELDS, path, FlattenTransportAddresses(t, order))| == |Lookup(t, path)| <= 1
  {
    var group := Matching(FIELDS, path, FlattenTransportAddresses(t, order));
    FlattenMatching(t, order, path);
    if group != [] { ExpirationsHold(group, group[0].expiration); }
  }

  // ---------------------------------------------------------------- the addresses on the wire

  /** The octets that parse-transport-address takes for the address, before they become an array. */
  function ParseRaw(s: Bytes): Parsed<Bytes> {
    var (_, s) :- ParseUtf8(s);
    var (addressLength, s) :- ParseUint16(s);
    var (_, s) :- ParseAbsoluteTime(s);
    Items(addressLength)(s)
  }

  lemma {:induction false} RawOfAddress(s: Bytes)
    ensures match ParseTransportAddress(s)
            case Fail => ParseRaw(s).Fail?
            case Ok(x, r) => exists raw :: ParseRaw(s) == Ok(raw, r) && x.encodedAddress == ArrayOf(raw)
  {
    hide ParseUtf8, ParseUint16, ParseAbsoluteTime, Items, ArrayOf;
    if ParseTransportAddress(s).Ok? { assert ParseRaw(s) == Ok(ParseRaw(s).value, ParseTransportAddress(s).rest); }
  }

  /** The raw addresses at the front of some input. */
  ghost function Raws(s: Bytes): seq<Bytes>
    decreases |s|
  {
    match ParseRaw(s)
    case Fail => []
    case Ok(raw, r) => if |r| < |s| then [raw] + Raws(r) else []
  }

  /** The raw addresses that a HELLO message carries, after its header, its flag and the key. */
  ghost function ReceivedAddresses(s: Bytes): seq<Bytes> {
    if 40 <= |s| && 40 <= FrameSize(s) <= |s| then Raws(s[4..FrameSize(s)][36..]) else []
  }

  /** A single octet other than 0 is taken for the length of an array with nothing in it. */
  predicate TakenForLength(raw: Bytes) {
    |raw| == 1 && raw[0] != 0
  }

  /** No address of the message is taken for a length. */
  ghost predicate Intact(s: Bytes) {
    forall raw | raw in ReceivedAddresses(s) :: !TakenForLength(raw)
  }

  lemma {:induction false} WholeUnlessLength(raw: Bytes)
    ensures (forall c | c in ArrayOf(raw) :: c.Octet?) <==> !TakenForLength(raw)
  {
    if TakenForLength(raw) { assert ArrayOf(raw)[0] == Hole && Hole in ArrayOf(raw); }
  }

  /** The addresses read are the raw addresses, made into arrays. */
  lemma {:induction false} ManyRaws(s: Bytes)
    requires Consumes(ParseTransportAddress)
    ensures var xs := Many(ParseTransportAddress, s).0;
            (forall x | x in xs :: Whole(x)) <==> forall raw | raw in Raws(s) :: !TakenForLength(raw)
    decreases |s|
  {
    hide ParseTransportAddress, ParseRaw, Whole, TakenForLength;
    RawOfAddress(s);
    match ParseTransportAddress(s)
    case Fail =>
    case Ok(x, r) =>
      var raw := ParseRaw(s).value;
      assert Whole(x) <==> !TakenForLength(raw) by { WholeOfRaw(x, raw); }
      ManyRaws(r);
      var rest, raws := Many(ParseTransportAddress, r).0, Raws(r);
      assert Many(ParseTransportAddress, s).0 == [x] + rest && Raws(s) == [raw] + raws;
      assert forall y :: y in [x] + rest <==> y == x || y in rest;
      assert forall y :: y in [raw] + raws <==> y == raw || y in raws;
  }

  lemma {:induction false} WholeOfRaw(x: TransportAddress, raw: Bytes)
    requires x.encodedAddress == ArrayOf(raw)
    ensures Whole(x) <==> !TakenForLength(raw)
  {
    WholeUnlessLength(raw);
  }

  // ---------------------------------------------------------------- what was parsed

  /** The body of a message that was parsed: the addresses that were read, their map, and their size. */
  lemma {:induction false} ParsedBody(s: Bytes) returns (xs: seq<TransportAddress>)
    requires ParseHello(s).Ok?
    ensures var h := ParseHello(s).value;
            && |h.publicKey| == KEY_SIZE && h.transportAddresses == TransportAddressesMap(xs)
            && (forall x | x in xs :: Parsable(x))
            && ((forall x | x in xs :: Whole(x)) ==> 36 + TotalSize(xs) <= |s|)
    ensures |s| >= 36
    ensures (forall x | x in xs :: Whole(x)) <==> forall raw | raw in Raws(s[36..]) :: !TakenForLength(raw)
  {
    hide ParseTransportAddress, TransportAddressesMap, Parsable, Whole, TotalSize, NoneOrMore, Raws, TakenForLength;
    AddressesConsume();
    ParseUint32Consumes(s);
    var tail := s[4..][KEY_SIZE..];
    assert tail == s[36..];
    NoneOrMoreIsMany(ParseTransportAddress, tail);
    ParsedAddresses(tail);
    ManyRaws(tail);
    xs := Many(ParseTransportAddress, tail).0;
  }

  lemma {:induction false} ParseUint32Consumes(s: Bytes)
    requires ParseUint32(s).Ok?
    ensures |s| >= 4 && ParseUint32(s).rest == s[4..]
  {
    ParseUint32Inverts(s, ParseUint32(s).value, ParseUint32(s).rest);
    EncodeUint32Octets(ParseUint32(s).value);
  }

  lemma {:induction false} SingleHoleHasHole(a: Address)
    requires |a| == 1 ==> a == [Hole]
    ensures Representable(a) <==> forall c | c in a :: c.Octet?
  {
    if |a| == 1 { assert a[0] in a; }
  }

  /** Which addresses a parsed HELLO has. */
  lemma {:induction false} ParsedPlaces(t: AddressMap, xs: seq<TransportAddress>)
    requires t == TransportAddressesMap(xs)
    ensures NormalMap(t)
    ensures forall path: seq<Key> | Lookup(t, path) != [] ::
              exists x :: x in xs && path == [Name(x.transport), Place(x.encodedAddress)]
    ensures forall x | x in xs :: Lookup(t, [Name(x.transport), Place(x.encodedAddress)]) != []
  {
    hide TransportAddressesMap;
    MapIsNormal(xs);
    forall path: seq<Key> | Lookup(t, path) != []
      ensures exists x :: x in xs && path == [Name(x.transport), Place(x.encodedAddress)]
    {
      var y := SomeSource(xs, path);
    }
    forall x | x in xs ensures Lookup(t, [Name(x.transport), Place(x.encodedAddress)]) != [] {
      KeysOfFields(x);
      MapAt(xs, KeysOf(FIELDS, x));
      MatchingHolds(KeysOf(FIELDS, x), xs);
      assert x in Matching(FIELDS, KeysOf(FIELDS, x), xs);
    }
  }

  lemma {:induction false} ParsedWellFormed(h: Hello, xs: seq<TransportAddress>)
    requires |h.publicKey| == KEY_SIZE && h.transportAddresses == TransportAddressesMap(xs)
    requires forall x | x in xs :: Parsable(x)
    ensures WellFormed(h)
    ensures Faithful(h) <==> forall x | x in xs :: Whole(x)
  {
    ParsedPlaces(h.transportAddresses, xs);
    hide TransportAddressesMap, NormalMap, Representable;
    var t := h.transportAddresses;
    assert NormalHello(h);
    forall path: seq<Key> | Lookup(t, path) != []
      ensures |path| == 2 && path[0].Name? && path[1].Place?
      ensures NulFree(path[0].name) && |path[1].place| < TWO_TO_THE_16
      ensures Representable(path[1].place) <==> forall c | c in path[1].place :: c.Octet?
    {
      var x :| x in xs && path == [Name(x.transport), Place(x.encodedAddress)];
      assert Parsable(x);
      SingleHoleHasHole(x.encodedAddress);
    }
    if Faithful(h) {
      forall x | x in xs ensures Whole(x) {
        var path := [Name(x.transport), Place(x.encodedAddress)];
        assert Lookup(t, path) != [] && Representable(path[1].place);
      }
    }
    if forall x | x in xs :: Whole(x) {
      forall path: seq<Key> | Lookup(t, path) != [] ensures Representable(path[1].place) {
        var x :| x in xs && path == [Name(x.transport), Place(x.encodedAddress)];
        assert Whole(x);
      }
    }
  }

  /** What a parsed HELLO message says about itself, before it is encoded again. */
  lemma {:induction false} ParsedMessage(s: Bytes, order: Order<Key>)
    requires ParseHelloMessage(s).Ok? && ValidOrder(order)
    ensures var m := ParseHelloMessage(s);
            var h := m.value.message;
            && WellFormed(h) && (Faithful(h) <==> Intact(s))
            && (Intact(s) ==> Sendable(h, order) && |EncodeHello(h, order)| + |m.rest| <= |s|)
  {
    hide ParseHelloMessage, ParseHello, EncodeHello, Faithful, HelloBody, WellFormed, ValidOrder, Whole, Parsable, Raws,
        TakenForLength, TotalSize, TransportAddressesMap;
    var m := ParseHelloMessage(s);
    MessageBody(s);
    var body := s[4..FrameSize(s)];
    var xs := ParsedBody(body);
    ParsedWellFormed(m.value.message, xs);
    ReencodedSize(m.value.message, xs, order);
  }

  /** The HELLO can be sent, and the parser gives it back. */
  ghost predicate ReturnsSame(h: Hello, order: Order<Key>) {
    Sendable(h, order) && ParseHelloMessage(EncodeHello(h, order)) == Ok(Message(MESSAGE_TYPE_HELLO, h), [])
  }

  /** Canonical form. For every octet string that parses as a HELLO message: the HELLO is well formed, and it
      can be sent again and parsed to the same HELLO exactly when none of the addresses received is a single
      non-zero octet. Then the new message is no longer than the old one, so its size always fits. */
  lemma {:induction false} Canonical(s: Bytes, order: Order<Key>)
    requires ParseHelloMessage(s).Ok? && ValidOrder(order)
    ensures var m := ParseHelloMessage(s);
            WellFormed(m.value.message) && (Intact(s) ==> |EncodeHello(m.value.message, order)| + |m.rest| <= |s|)
    ensures ReturnsSame(ParseHelloMessage(s).value.message, order) <==> Intact(s)
  {
    hide ParseHelloMessage, EncodeHello, Faithful, HelloBody, ValidOrder, Intact;
    ParsedMessage(s, order);
    var h := ParseHelloMessage(s).value.message;
    if Sendable(h, order) {
      RoundTrip(h, order, []);
      assert EncodeHello(h, order) + [] == EncodeHello(h, order);
    }
  }

  lemma {:induction false} ReencodedSize(h: Hello, xs: seq<TransportAddress>, order: Order<Key>)
    requires ValidOrder(order) && WellFormed(h) && h.transportAddresses == TransportAddressesMap(xs)
    ensures |HelloBody(h, order)| <= 36 + TotalSize(xs) && |EncodeHello(h, order)| == 4 + |HelloBody(h, order)|
  {
    hide TransportAddressesMap;
    GroupedSize(xs, order);
    HelloSize(h, order);
  }

  lemma {:induction false} MessageBody(s: Bytes)
    requires ParseHelloMessage(s).Ok?
    ensures 4 <= |s| && 4 <= FrameSize(s) <= |s| && FrameSize(s) < TWO_TO_THE_16
    ensures var m, body := ParseHelloMessage(s), s[4..FrameSize(s)];
            && ParseHello(body).Ok? && ParseHello(body).value == m.value.message
            && |s| == 4 + |body| + |m.rest|
  {
    hide ParseHello;
    var parsers := [TypedParser(MESSAGE_TYPE_HELLO, ParseHello)];
    var m := ParseMessageTypes(parsers)(s);
    Framing(parsers, s, m.value, m.rest);
    ParseHeaderReads(s);
    assert m.value.messageType == MESSAGE_TYPE_HELLO;
  }

  lemma {:induction false} HelloSize(h: Hello, order: Order<Key>)
    requires ValidOrder(order) && WellFormed(h)
    ensures |HelloBody(h, order)| == 36 + TotalSize(FlattenTransportAddresses(h.transportAddresses, order))
    ensures |EncodeHello(h, order)| == 4 + |HelloBody(h, order)|
  {
    FlattenedEncodable(h, order);
    EncodedSize(FlattenTransportAddresses(h.transportAddresses, order));
    EncodeUint32Octets(if h.friendOnly then 1 else 0);
  }

  /** A well-formed, small HELLO that the parser does not give back: its one address has one octet. */
  lemma {:induction false} OneOctetAddressIsLost(order: Order<Key>)
    requires ValidOrder(order)
    ensures var h := Hello(false, seq(KEY_SIZE, i => 0),
            TransportAddressesMap([TransportAddress([97], [Octet(5)], Expiration(0, 0))]));
            Sendable(h, order) && ParseHelloMessage(EncodeHello(h, order)) != Ok(Message(MESSAGE_TYPE_HELLO, h), [])
  {
    var x := TransportAddress([97], [Octet(5)], Expiration(0, 0));
    var h := Hello(false, seq(KEY_SIZE, i => 0), TransportAddressesMap([x]));
    ParsedWellFormedButSingle(h, x);
    GroupedSize([x], order);
    HelloSize(h, order);
    assert TotalSize([x]) == AddressSize(x) + TotalSize([]);
    RoundTrip(h, order, []);
    assert EncodeHello(h, order) + [] == EncodeHello(h, order);
  }

  lemma {:induction false} ParsedWellFormedButSingle(h: Hello, x: TransportAddress)
    requires |h.publicKey| == KEY_SIZE && h.transportAddresses == TransportAddressesMap([x])
    requires Encodable(x) && |x.encodedAddress| == 1
    ensures WellFormed(h) && !Faithful(h)
  {
    MapIsNormal([x]);
    forall path: seq<Key> | Lookup(h.transportAddresses, path) != []
      ensures NulFree(path[0].name) && |path[1].place| < TWO_TO_THE_16
    {
      var y := SomeSource([x], path);
    }
    var path := KeysOf(FIELDS, x);
    KeysOfFields(x);
    MapAt([x], path);
    MatchingHolds(path, [x]);
    assert x in Matching(FIELDS, path, [x]);
    assert Lookup(h.transportAddresses, path) != [] && !Representable(path[1].place);
  }

  // ---------------------------------------------------------------- a message that grows

  lemma {:induction false} SizeOfMember(xs: seq<TransportAddress>, x: TransportAddress)
    requires x in xs
    ensures TotalSize(xs) >= AddressSize(x)
    decreases |xs|
  {
    if x != xs[0] { SizeOfMember(xs[1..], x); }
  }

  lemma {:induction false} FlatOfOne(x: TransportAddress, order: Order<Key>)
    requires ValidOrder(order)
    ensures NormalMap(TransportAddressesMap([x]))
    ensures TotalSize(FlattenTransportAddresses(TransportAddressesMap([x]), order)) == AddressSize(x)
  {
    var t := TransportAddressesMap([x]);
    ParsedPlaces(t, [x]);
    var flat := FlattenTransportAddresses(t, order);
    var path := [Name(x.transport), Place(x.encodedAddress)];
    GroupedSize([x], order);
    hide TransportAddressesMap, FlattenTransportAddresses, NormalMap;
    assert x in [x] && [x][1..] == [];
    CountMatching(t, order, path);
    MatchingHolds(path, flat);
    var y := Matching(FIELDS, path, flat)[0];
    assert y in Matching(FIELDS, path, flat);
    KeysOfFields(y);
    SizeOfMember(flat, y);
    assert TotalSize([x]) == AddressSize(x) + TotalSize([]);
  }

  /** The body of a HELLO with one address on the wire, and what the parser makes of it. */
  lemma {:induction false} ParseOneAddress(key: Bytes, name: Bytes, e: Expiration, raw: Bytes)
    requires |key| == KEY_SIZE && NulFree(name) && |raw| < TWO_TO_THE_16
    ensures ParseHello(EncodeUint32(0) + key + WireAddress(name, e, raw)) ==
            Ok(Hello(false, key, TransportAddressesMap([TransportAddress(name, ArrayOf(raw), e)])), [])
  {
    hide ParseTransportAddress, WireAddress, ArrayOf, TransportAddressesMap, ParseHello, Many, EncodeUint32;
    var x := TransportAddress(name, ArrayOf(raw), e);
    var wire := WireAddress(name, e, raw);
    AddressesConsume();
    ParseWireAddress(name, e, raw, []);
    assert wire + [] == wire;
    ManyOne(wire, x);
    ParseParts(0, key, wire, [x]);
  }

  lemma {:induction false} ManyOne(s: Bytes, x: TransportAddress)
    requires Consumes(ParseTransportAddress) && ParseTransportAddress(s) == Ok(x, [])
    ensures Many(ParseTransportAddress, s) == ([x], [])
  {
    hide ParseTransportAddress;
    NothingToParse();
    assert Many(ParseTransportAddress, []) == ([], []);
    assert [x] + [] == [x];
  }

  lemma {:induction false} NothingToParse()
    ensures ParseTransportAddress([]).Fail?
  {
    ParseUtf8Splits([]);
  }

  /** A message that the parser accepts, with one address of a single octet n, and n at least 2: encoding what
      was parsed gives a message that is n - 1 octets longer and holds another HELLO. */
  lemma {:induction false} OneOctetAddressGrows(n: byte, key: Bytes, order: Order<Key>)
    requires n >= 2 && |key| == KEY_SIZE && ValidOrder(order)
    ensures var x := TransportAddress([97], ArrayOf([n]), Expiration(0, 0));
            var h := Hello(false, key, TransportAddressesMap([x]));
            var body := EncodeUint32(0) + key + WireAddress([97], Expiration(0, 0), [n]);
            var s := EncodeMessage(MESSAGE_TYPE_HELLO, body);
            && ParseHelloMessage(s) == Ok(Message(MESSAGE_TYPE_HELLO, h), []) && !Intact(s)
            && WellFormed(h) && |EncodeHello(h, order)| == |s| + n as int - 1
            && ParseHelloMessage(EncodeHello(h, order)) != Ok(Message(MESSAGE_TYPE_HELLO, h), [])
  {
    hide ParseHello, WireAddress, TransportAddressesMap, EncodeUint32, ParseHelloMessage, EncodeHello, ValidOrder,
        HelloBody, Intact, Faithful, FlattenTransportAddresses;
    var e := Expiration(0, 0);
    var x := TransportAddress([97], ArrayOf([n]), e);
    var body := EncodeUint32(0) + key + WireAddress([97], e, [n]);
    var s := EncodeMessage(MESSAGE_TYPE_HELLO, body);
    var h := Hello(false, key, TransportAddressesMap([x]));
    WireAddressSize([97], e, [n]);
    EncodeUint32Value(0);
    ParseOneAddress(key, [97], e, [n]);
    OneAddressMessage(body, s, h);
    OneAddressParsed(h, x, n);
    EncodedLonger(h, x, order);
    ParsedMessage(s, order);
    Canonical(s, order);
  }

  lemma {:induction false} OneAddressMessage(body: Bytes, s: Bytes, h: Hello)
    requires |body| == 49 && ParseHello(body) == Ok(h, []) && s == EncodeMessage(MESSAGE_TYPE_HELLO, body)
    ensures |s| == 53 && ParseHelloMessage(s) == Ok(Message(MESSAGE_TYPE_HELLO, h), [])
  {
    hide ParseHello;
    EncodeUint16Value(4 + |body|);
    EncodeUint16Value(MESSAGE_TYPE_HELLO);
    ParseEncodedMessage([TypedParser(MESSAGE_TYPE_HELLO, ParseHello)], MESSAGE_TYPE_HELLO, body, [], ParseHello);
    assert s + [] == s;
  }

  lemma {:induction false} OneAddressParsed(h: Hello, x: TransportAddress, n: byte)
    requires n >= 2 && x == TransportAddress([97], ArrayOf([n]), Expiration(0, 0)) && |h.publicKey| == KEY_SIZE
    requires h.transportAddresses == TransportAddressesMap([x])
    ensures WellFormed(h) && !Faithful(h)
  {
    WholeUnlessLength([n]);
    hide TransportAddressesMap;
    assert x in [x] && Parsable(x) && !Whole(x);
    ParsedWellFormed(h, [x]);
  }

  lemma {:induction false} EncodedLonger(h: Hello, x: TransportAddress, order: Order<Key>)
    requires ValidOrder(order) && WellFormed(h) && h.transportAddresses == TransportAddressesMap([x])
    ensures |EncodeHello(h, order)| == 40 + AddressSize(x)
    ensures Sendable(h, order) <==> 40 + AddressSize(x) < TWO_TO_THE_16
  {
    hide TransportAddressesMap, FlattenTransportAddresses, WellFormed, EncodeHello, HelloBody, ValidOrder;
    FlatOfOne(x, order);
    HelloSize(h, order);
  }
}
