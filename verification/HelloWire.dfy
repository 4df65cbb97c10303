/** The octets of HELLO messages and of their addresses, field by field. */
module HelloWire {
  import opened Octets
  import opened Encoder
  import opened Parser
  import opened Message
  import opened DataStructures
  import opened Hello
  import opened HelloCodec

  lemma {:induction false} BigEndianOfMore(a: Bytes, x: byte)
    ensures BigEndian(a + [x]) == BigEndian(a) * 0x100 + x
  {
    assert (a + [x])[..|a|] == a;
  }

  lemma {:induction false} BigEndianOfWords(a: Bytes, b: Bytes)
    requires |b| == 4
    ensures BigEndian(a + b) == BigEndian(a) * TWO_TO_THE_32 + BigEndian(b)
  {
    assert b == [b[0], b[1], b[2], b[3]];
    BigEndianOfFour(b[0], b[1], b[2], b[3]);
    BigEndianOfMore(a, b[0]);
    BigEndianOfMore(a + [b[0]], b[1]);
    BigEndianOfMore(a + [b[0]] + [b[1]], b[2]);
    BigEndianOfMore(a + [b[0]] + [b[1]] + [b[2]], b[3]);
    assert a + b == a + [b[0]] + [b[1]] + [b[2]] + [b[3]];
    hide BigEndian;
  }

  /** A time travels as one 64-bit number in network order. */
  lemma {:induction false} TimeOnWire(t: Expiration)
    ensures |EncodeUint64(t.msw, t.lsw)| == 8 && BigEndian(EncodeUint64(t.msw, t.lsw)) == t.Microseconds()
  {
    hide EncodeUint32, BigEndian;
    EncodeUint32Value(t.msw);
    EncodeUint32Value(t.lsw);
    BigEndianOfWords(EncodeUint32(t.msw), EncodeUint32(t.lsw));
  }

  lemma {:induction false} FiveParts(a: Bytes, z: byte, b: Bytes, c: Bytes, d: Bytes)
    requires |b| == 2 && |c| == 8
    ensures var s, n := a + [z] + b + c + d, |a|;
            && |s| == n + 11 + |d| && s[..n] == a && s[n] == z && s[n + 1..n + 3] == b && s[n + 3..n + 11] == c
            && s[n + 11..] == d
  {
  }

  /** What the octets of an address say: its name, NUL, its size, its expiration, and the address itself. */
  ghost predicate AddressLayout(s: Bytes, transport: Bytes, expiration: Expiration, raw: Bytes) {
    var n := |transport|;
    && |s| == n + 11 + |raw| && s[..n] == transport && s[n] == 0
    && BigEndian(s[n + 1..n + 3]) == |raw| && BigEndian(s[n + 3..n + 11]) == expiration.Microseconds()
    && s[n + 11..] == raw
  }

  lemma {:induction false} WireAddressLayout(transport: Bytes, expiration: Expiration, raw: Bytes)
    requires |raw| < TWO_TO_THE_16
    ensures AddressLayout(WireAddress(transport, expiration, raw), transport, expiration, raw)
  {
    hide EncodeUint16, EncodeUint64, BigEndian;
    EncodeUint16Value(|raw|);
    TimeOnWire(expiration);
    var size, time := EncodeUint16(|raw|), EncodeUint64(expiration.msw, expiration.lsw);
    FiveParts(transport, 0, size, time, raw);
    assert WireAddress(transport, expiration, raw) == transport + [0] + size + time + raw;
  }

  /** An encoded address is laid out so, with 0 for every element of the address that was never filled. */
  lemma {:induction false} AddressOnWire(x: TransportAddress, raw: Bytes)
    requires |x.encodedAddress| < TWO_TO_THE_16 && |raw| == |x.encodedAddress|
    requires forall i | 0 <= i < |raw| ::
               raw[i] == match x.encodedAddress[i] case Octet(value) => value case Hole => 0
    ensures AddressLayout(EncodeTransportAddress(x), x.transport, x.expiration, raw)
  {
    assert Filled(x.encodedAddress) == raw;
    hide EncodeUint16, EncodeUint64, AddressLayout;
    WireAddressLayout(x.transport, x.expiration, raw);
    assert EncodeTransportAddress(x) == WireAddress(x.transport, x.expiration, raw);
  }

  /** Reading an address finds it in that layout. */
  lemma {:induction false} ReadAddressOnWire(s: Bytes) returns (raw: Bytes)
    requires ParseTransportAddress(s).Ok?
    ensures var p := ParseTransportAddress(s);
            && |p.rest| <= |s| && p.rest == s[|s| - |p.rest|..] && NulFree(p.value.transport)
            && AddressLayout(s[..|s| - |p.rest|], p.value.transport, p.value.expiration, raw)
            && p.value.encodedAddress == ArrayOf(raw)
  {
    hide ParseTransportAddress, AddressLayout, WireAddress, ArrayOf;
    raw := ParseAddressSplits(s);
    var p := ParseTransportAddress(s);
    WireAddressLayout(p.value.transport, p.value.expiration, raw);
    var wire := WireAddress(p.value.transport, p.value.expiration, raw);
    assert s[..|wire|] == wire && s[|wire|..] == p.rest;
  }

  lemma {:induction false} FieldsOfBody(flag: Bytes, key: Bytes, tail: Bytes, s: Bytes)
    requires |flag| == 4 && |key| == 32 && |s| >= 4 && s[4..] == flag + key + tail
    ensures |s| == 40 + |tail| && s[4..8] == flag && s[8..40] == key && s[40..] == tail
  {
    assert s[4..8] == s[4..][..4] && s[8..40] == s[4..][4..36] && s[40..] == s[4..][36..];
  }

  /** An encoded HELLO announces its own size and type 17; then come the friend-only flag as 1 or 0, the
      32 octets of the public key, and the addresses. */
  lemma {:induction false} HelloOnWire(h: Hello, order: Order<Key>)
    requires Sendable(h, order)
    ensures var s := EncodeHello(h, order);
            && |s| >= 40 && FrameSize(s) == |s| && FrameType(s) == 17
            && BigEndian(s[4..8]) == (if h.friendOnly then 1 else 0) && s[8..40] == h.publicKey
            && s[40..] == EncodeAddresses(FlattenTransportAddresses(h.transportAddresses, order))
  {
    var flag: uint32 := if h.friendOnly then 1 else 0;
    var addresses := EncodeAddresses(FlattenTransportAddresses(h.transportAddresses, order));
    assert HelloBody(h, order) == EncodeUint32(flag) + h.publicKey + addresses;
    hide HelloBody, EncodeMessage, EncodeUint32, BigEndian, FlattenTransportAddresses;
    EncodeUint32Value(flag);
    EncodedFrame(MESSAGE_TYPE_HELLO, HelloBody(h, order), []);
    var s := EncodeHello(h, order);
    assert s + [] == s;
    assert s[4..] == HelloBody(h, order);
    FieldsOfBody(EncodeUint32(flag), h.publicKey, addresses, s);
  }

  lemma {:induction false} ReadUint32(s: Bytes)
    ensures ParseUint32(s).Ok? <==> 4 <= |s|
    ensures 4 <= |s| ==> ParseUint32(s).value == BigEndian(s[..4]) && ParseUint32(s).rest == s[4..]
  {
    if ParseUint32(s).Ok? {
      var x, r := ParseUint32(s).value, ParseUint32(s).rest;
      hide BigEndian, EncodeUint32;
      ParseUint32Inverts(s, x, r);
      EncodeUint32Value(x);
      assert s[..4] == EncodeUint32(x) && s[4..] == r;
    }
  }

  /** Reading the body of a HELLO succeeds exactly if flag and key are there. Any flag but 0 means friend-only,
      and the map is that of as many addresses as follow. */
  lemma {:induction false} ReadHelloOnWire(s: Bytes)
    ensures Consumes(ParseTransportAddress)
    ensures ParseHello(s).Ok? <==> 36 <= |s|
    ensures 36 <= |s| ==>
              var (addresses, rest) := Many(ParseTransportAddress, s[36..]);
              && ParseHello(s).value.friendOnly == (BigEndian(s[..4]) != 0) && ParseHello(s).value.publicKey == s[4..36]
              && ParseHello(s).value.transportAddresses == TransportAddressesMap(addresses)
              && ParseHello(s).rest == rest
  {
    hide ParseUint32, BigEndian, ParseTransportAddress, NoneOrMore, Many, TransportAddressesMap;
    AddressesConsume();
    ReadUint32(s);
    if 36 <= |s| {
      NoneOrMoreIsMany(ParseTransportAddress, s[36..]);
      assert s[4..][..32] == s[4..36] && s[4..][32..] == s[36..];
    }
  }
}
