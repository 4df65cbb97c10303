/** The algebra of address maps: what transport-addresses-map keeps, and merge-hello as a join. */
module HelloAlgebra {
  import opened Octets
  import opened DataStructures
  import opened Hello

  // ---------------------------------------------------------------- the latest expiration

  /** The order on [msw lsw] vectors is the order of the 64-bit numbers they stand for. */
  lemma {:induction false} VectorOrderIsNumeric(x: Expiration, y: Expiration)
    ensures AtMost(x, y) <==> x.Microseconds() <= y.Microseconds()
    ensures AtMost(x, y) && AtMost(y, x) ==> x == y
  {
    if x.msw < y.msw { assert x.Microseconds() < y.msw * TWO_TO_THE_32; }
    if y.msw < x.msw { assert y.Microseconds() < x.msw * TWO_TO_THE_32; }
  }

  ghost predicate Sorted(xs: seq<Expiration>) {
    forall i, j | 0 <= i < j < |xs| :: AtMost(xs[i], xs[j])
  }

  lemma {:induction false} InsertSorts(x: Expiration, xs: seq<Expiration>)
    requires Sorted(xs)
    ensures Sorted(Insert(x, xs))
  {
    if xs != [] && !AtMost(x, xs[0]) {
      InsertSorts(x, xs[1..]);
      InsertKeeps(x, xs[1..]);
      var tail := Insert(x, xs[1..]);
      forall y | y in tail ensures AtMost(xs[0], y) {
        assert y in multiset(tail);
        assert y == x || y in xs[1..];
      }
    }
  }

  lemma {:induction false} SortSorts(xs: seq<Expiration>)
    ensures Sorted(Sort(xs))
  {
    if xs != [] {
      SortSorts(xs[1..]);
      InsertSorts(xs[0], Sort(xs[1..]));
    }
  }

  ghost predicate IsLatest(e: Expiration, xs: seq<TransportAddress>) {
    && (exists x :: x in xs && x.expiration == e)
    && forall x | x in xs :: AtMost(x.expiration, e)
  }

  lemma {:induction false} ExpirationsHold(xs: seq<TransportAddress>, e: Expiration)
    ensures e in Expirations(xs) <==> exists x :: x in xs && x.expiration == e
    ensures |Expirations(xs)| == |xs|
  {
    if xs != [] {
      ExpirationsHold(xs[1..], e);
      assert xs == [xs[0]] + xs[1..];
    }
  }

  /** The first element of the reversed sort is the latest expiration of the group. */
  lemma {:induction false} LatestIsLatest(xs: seq<TransportAddress>)
    requires xs != []
    ensures |LatestExpiration(xs)| == 1 && IsLatest(LatestExpiration(xs)[0], xs)
  {
    var all := Expirations(xs);
    var sorted := Sort(all);
    SortKeeps(all);
    SortSorts(all);
    ReverseKeeps(sorted);
    ExpirationsHold(xs, sorted[0]);
    var e := sorted[|sorted| - 1];
    assert e in multiset(sorted);
    ExpirationsHold(xs, e);
    forall x | x in xs ensures AtMost(x.expiration, e) {
      ExpirationsHold(xs, x.expiration);
      assert x.expiration in multiset(sorted);
    }
  }

  lemma {:induction false} LatestIsUnique(e: Expiration, f: Expiration, xs: seq<TransportAddress>,
          ys: seq<TransportAddress>)
    requires IsLatest(e, xs) && IsLatest(f, ys)
    requires forall x :: x in xs <==> x in ys
    ensures e == f
  {
    VectorOrderIsNumeric(e, f);
  }

  /** The latest expiration of a group, if there is one. */
  function LatestOf(xs: seq<TransportAddress>): seq<Expiration> {
    if xs == [] then [] else LatestExpiration(xs)
  }

  /** The later of two expirations either of which may be missing. */
  function Later(xs: seq<Expiration>, ys: seq<Expiration>): seq<Expiration> {
    if xs == [] then ys else if ys == [] then xs else if AtMost(xs[0], ys[0]) then ys else xs
  }

  lemma {:induction false} LatestOfSame(xs: seq<TransportAddress>, ys: seq<TransportAddress>)
    requires forall x :: x in xs <==> x in ys
    ensures LatestOf(xs) == LatestOf(ys)
  {
    hide LatestExpiration;
    assert xs != [] ==> xs[0] in ys;
    assert ys != [] ==> ys[0] in xs;
    if xs != [] {
      LatestIsLatest(xs);
      LatestIsLatest(ys);
      LatestIsUnique(LatestExpiration(xs)[0], LatestExpiration(ys)[0], xs, ys);
    }
  }

  lemma {:induction false} LatestOfConcat(xs: seq<TransportAddress>, ys: seq<TransportAddress>)
    ensures LatestOf(xs + ys) == Later(LatestOf(xs), LatestOf(ys))
  {
    hide LatestExpiration;
    if xs == [] {
      assert xs + ys == ys;
    } else if ys == [] {
      assert xs + ys == xs;
    } else {
      LatestIsLatest(xs);
      LatestIsLatest(ys);
      LatestIsLatest(xs + ys);
      var e, f := LatestExpiration(xs)[0], LatestExpiration(ys)[0];
      var g := Later([e], [f])[0];
      assert IsLatest(g, xs + ys);
      LatestIsUnique(g, LatestExpiration(xs + ys)[0], xs + ys, xs + ys);
    }
  }

  // ---------------------------------------------------------------- what an address map holds

  /** Two levels, transport names then addresses, with one expiration under each address. */
  ghost predicate NormalMap(t: AddressMap) {
    && WellNested(t, 2)
    && forall path: seq<Key> | Lookup(t, path) != [] ::
         |path| == 2 && path[0].Name? && path[1].Place? && |Lookup(t, path)| == 1
  }

  /** At each address the map holds the latest expiration listed for it, and nothing elsewhere. */
  lemma {:induction false} MapAt(xs: seq<TransportAddress>, path: seq<Key>)
    ensures Lookup(TransportAddressesMap(xs), path) == LatestOf(Matching(FIELDS, path, xs))
  {
    GroupAt(FIELDS, LatestExpiration, xs, path);
  }

  lemma {:induction false} KeysOfFields(x: TransportAddress)
    ensures KeysOf(FIELDS, x) == [Name(x.transport), Place(x.encodedAddress)]
  {
    assert FIELDS[1..] == [PlaceOf] && [PlaceOf][1..] == [];
    assert KeysOf(FIELDS[1..], x) == [PlaceOf(x)];
  }

  lemma {:induction false} MatchingHolds(path: seq<Key>, xs: seq<TransportAddress>)
    ensures forall x :: x in Matching(FIELDS, path, xs) <==> x in xs && KeysOf(FIELDS, x) == path
  {
    if xs != [] {
      MatchingHolds(path, xs[1..]);
    }
  }

  lemma {:induction false} MapIsNormal(xs: seq<TransportAddress>)
    ensures NormalMap(TransportAddressesMap(xs))
  {
    GroupWellNested(FIELDS, LatestExpiration, xs);
    forall path: seq<Key> | Lookup(TransportAddressesMap(xs), path) != []
      ensures |path| == 2 && path[0].Name? && path[1].Place? && |Lookup(TransportAddressesMap(xs), path)| == 1
    {
      MapAt(xs, path);
      MatchingHolds(path, xs);
      var group := Matching(FIELDS, path, xs);
      KeysOfFields(group[0]);
      assert group[0] in group;
    }
  }

  lemma {:induction false} ValuesAtHolds<K, V>(xs: seq<(seq<K>, V)>, x: (seq<K>, V))
    requires x in xs
    ensures ValuesAt(xs, x.0) != []
  {
    if xs[0] != x { ValuesAtHolds(xs[1..], x); }
  }

  /** The addresses of a flattened map have their own keys. */
  lemma {:induction false} LabelsAreKeys(t: AddressMap, order: Order<Key>)
    requires ValidOrder(order) && NormalMap(t)
    ensures forall x | x in FlattenNestedMaps(t, order, []) ::
              |x.0| == 2 && KeysOf(FIELDS, FromLabel(x)) == x.0 && Lookup(t, x.0) != []
  {
    var flat := FlattenNestedMaps(t, order, []);
    forall x | x in flat ensures |x.0| == 2 && KeysOf(FIELDS, FromLabel(x)) == x.0 && Lookup(t, x.0) != [] {
      ValuesAtHolds(flat, x);
      FlattenAt(t, order, [], x.0);
      assert x.0[0..] == x.0;
      KeysOfFields(FromLabel(x));
    }
  }

  lemma {:induction false} MatchingFromLabels(xs: seq<(seq<Key>, Expiration)>, path: seq<Key>)
    requires forall x | x in xs :: |x.0| == 2 && KeysOf(FIELDS, FromLabel(x)) == x.0
    ensures Expirations(Matching(FIELDS, path, FromLabels(xs))) == ValuesAt(xs, path)
  {
    if xs != [] {
      MatchingFromLabels(xs[1..], path);
      var x, rest := FromLabel(xs[0]), Matching(FIELDS, path, FromLabels(xs[1..]));
      assert FromLabels(xs)[1..] == FromLabels(xs[1..]);
      assert ([x] + rest)[1..] == rest;
      assert [] + rest == rest;
    }
  }

  /** Flattening a normal map lists, for each address, exactly the expiration it holds. */
  lemma {:induction false} FlattenMatching(t: AddressMap, order: Order<Key>, path: seq<Key>)
    requires ValidOrder(order) && NormalMap(t)
    ensures Expirations(Matching(FIELDS, path, FlattenTransportAddresses(t, order))) == Lookup(t, path)
  {
    LabelsAreKeys(t, order);
    MatchingFromLabels(FlattenNestedMaps(t, order, []), path);
    FlattenAt(t, order, [], path);
    assert path[0..] == path;
  }

  /** Flattening a normal map and grouping again changes nothing at any address. */
  lemma {:induction false} LatestOfFlattened(t: AddressMap, order: Order<Key>, path: seq<Key>)
    requires ValidOrder(order) && NormalMap(t)
    ensures LatestOf(Matching(FIELDS, path, FlattenTransportAddresses(t, order))) == Lookup(t, path)
  {
    var group := Matching(FIELDS, path, FlattenTransportAddresses(t, order));
    hide LatestExpiration, NormalMap;
    FlattenMatching(t, order, path);
    if group != [] {
      LatestIsLatest(group);
      OneExpiration(t, path, group);
    }
  }

  lemma {:induction false} OneExpiration(t: AddressMap, path: seq<Key>, group: seq<TransportAddress>)
    requires NormalMap(t) && Expirations(group) == Lookup(t, path) && group != []
    ensures |group| == 1 && Lookup(t, path) == [group[0].expiration]
  {
    ExpirationsHold(group, group[0].expiration);
  }

  lemma {:induction false} MapOfFlattened(t: AddressMap, order: Order<Key>)
    requires ValidOrder(order) && NormalMap(t)
    ensures TransportAddressesMap(FlattenTransportAddresses(t, order)) == t
  {
    var flat := FlattenTransportAddresses(t, order);
    MapIsNormal(flat);
    forall path ensures Lookup(TransportAddressesMap(flat), path) == Lookup(t, path) {
      MapAt(flat, path);
      LatestOfFlattened(t, order, path);
    }
    SameLookups(TransportAddressesMap(flat), t, 2);
  }

  // ---------------------------------------------------------------- merging

  ghost predicate NormalHello(h: Hello) {
    NormalMap(h.transportAddresses)
  }

  /** What a HELLO says about an address: its expiration, if it has it. */
  function Held(h: Hello, path: seq<Key>): seq<Expiration> {
    Lookup(h.transportAddresses, path)
  }

  /** `b` knows at least what `a` knows: the same peer, every address, expiring no earlier. */
  ghost predicate Below(a: Hello, b: Hello) {
    && a.publicKey == b.publicKey && (a.friendOnly ==> b.friendOnly)
    && forall path {:trigger Held(a, path)} :: Later(Held(a, path), Held(b, path)) == Held(b, path)
  }

  /** A merged HELLO has each address of either one, with the later expiration. */
  lemma {:induction false} MergeAt(a: Hello, b: Hello, orderA: Order<Key>, orderB: Order<Key>, path: seq<Key>)
    requires ValidOrder(orderA) && NormalHello(a) && ValidOrder(orderB) && NormalHello(b)
    ensures Held(MergeHello(a, b, orderA, orderB), path) == Later(Held(a, path), Held(b, path))
    ensures NormalHello(MergeHello(a, b, orderA, orderB))
    ensures MergeHello(a, b, orderA, orderB).publicKey == a.publicKey
    ensures MergeHello(a, b, orderA, orderB).friendOnly <==> a.friendOnly || b.friendOnly
  {
    hide LatestOf;
    var xs := FlattenTransportAddresses(a.transportAddresses, orderA);
    var ys := FlattenTransportAddresses(b.transportAddresses, orderB);
    MapIsNormal(xs + ys);
    MapAt(xs + ys, path);
    MatchingConcat(FIELDS, path, xs, ys);
    LatestOfConcat(Matching(FIELDS, path, xs), Matching(FIELDS, path, ys));
    LatestOfFlattened(a.transportAddresses, orderA, path);
    LatestOfFlattened(b.transportAddresses, orderB, path);
  }

  lemma {:induction false} SameHello(a: Hello, b: Hello)
    requires NormalHello(a) && NormalHello(b) && a.publicKey == b.publicKey && a.friendOnly == b.friendOnly
    requires forall path :: Held(a, path) == Held(b, path)
    ensures a == b
  {
    forall path ensures Lookup(a.transportAddresses, path) == Lookup(b.transportAddresses, path) {
      assert Held(a, path) == Held(b, path);
    }
    SameLookups(a.transportAddresses, b.transportAddresses, 2);
  }

  lemma {:induction false} MergeCommutes(a: Hello, b: Hello, o1: Order<Key>, o2: Order<Key>, o3: Order<Key>,
          o4: Order<Key>)
    requires ValidOrder(o1) && ValidOrder(o2) && ValidOrder(o3) && ValidOrder(o4)
    requires NormalHello(a) && NormalHello(b) && a.publicKey == b.publicKey
    ensures MergeHello(a, b, o1, o2) == MergeHello(b, a, o3, o4)
  {
    var m, n := MergeHello(a, b, o1, o2), MergeHello(b, a, o3, o4);
    MergeAt(a, b, o1, o2, []);
    MergeAt(b, a, o3, o4, []);
    forall path ensures Held(m, path) == Held(n, path) {
      MergeAt(a, b, o1, o2, path);
      MergeAt(b, a, o3, o4, path);
      LaterCommutes(Held(a, path), Held(b, path));
    }
    SameHello(m, n);
  }

  lemma {:induction false} LaterCommutes(xs: seq<Expiration>, ys: seq<Expiration>)
    requires |xs| <= 1 && |ys| <= 1
    ensures Later(xs, ys) == Later(ys, xs)
  {
    if xs != [] && ys != [] { VectorOrderIsNumeric(xs[0], ys[0]); }
  }

  lemma {:induction false} LaterAssociates(xs: seq<Expiration>, ys: seq<Expiration>, zs: seq<Expiration>)
    ensures Later(Later(xs, ys), zs) == Later(xs, Later(ys, zs))
  {
  }

  /** What a merge is: the same peer, friend-only if either is, and at each address the later expiration. */
  ghost predicate IsMerge(a: Hello, b: Hello, m: Hello) {
    && NormalHello(m) && m.publicKey == a.publicKey && m.friendOnly == (a.friendOnly || b.friendOnly)
    && forall path {:trigger Held(m, path)} :: Held(m, path) == Later(Held(a, path), Held(b, path))
  }

  lemma {:induction false} MergeIsMerge(a: Hello, b: Hello, o1: Order<Key>, o2: Order<Key>)
    requires ValidOrder(o1) && ValidOrder(o2) && NormalHello(a) && NormalHello(b)
    ensures IsMerge(a, b, MergeHello(a, b, o1, o2))
  {
    forall path ensures Held(MergeHello(a, b, o1, o2), path) == Later(Held(a, path), Held(b, path)) {
      MergeAt(a, b, o1, o2, path);
    }
    MergeAt(a, b, o1, o2, []);
  }

  /** The order in which the maps are walked does not matter, so one order stands for all below. */
  lemma {:induction false} MergeIgnoresMapOrder(a: Hello, b: Hello, o1: Order<Key>, o2: Order<Key>, o3: Order<Key>,
          o4: Order<Key>)
    requires ValidOrder(o1) && ValidOrder(o2) && ValidOrder(o3) && ValidOrder(o4)
    requires NormalHello(a) && NormalHello(b)
    ensures MergeHello(a, b, o1, o2) == MergeHello(a, b, o3, o4)
  {
    MergeIsMerge(a, b, o1, o2);
    MergeIsMerge(a, b, o3, o4);
    SameHello(MergeHello(a, b, o1, o2), MergeHello(a, b, o3, o4));
  }

  lemma {:induction false} MergesAssociate(a: Hello, b: Hello, c: Hello, ab: Hello, bc: Hello, m: Hello, n: Hello)
    requires IsMerge(a, b, ab) && IsMerge(b, c, bc) && IsMerge(ab, c, m) && IsMerge(a, bc, n)
    ensures m == n
  {
    forall path ensures Held(m, path) == Held(n, path) {
      LaterAssociates(Held(a, path), Held(b, path), Held(c, path));
      assert Held(ab, path) == Later(Held(a, path), Held(b, path));
      assert Held(bc, path) == Later(Held(b, path), Held(c, path));
    }
    SameHello(m, n);
  }

  lemma {:induction false} MergeAssociates(a: Hello, b: Hello, c: Hello, o: Order<Key>)
    requires ValidOrder(o) && NormalHello(a) && NormalHello(b) && NormalHello(c)
    ensures NormalHello(MergeHello(a, b, o, o)) && NormalHello(MergeHello(b, c, o, o))
    ensures MergeHello(MergeHello(a, b, o, o), c, o, o) == MergeHello(a, MergeHello(b, c, o, o), o, o)
  {
    MergeIsMerge(a, b, o, o);
    MergeIsMerge(b, c, o, o);
    var ab, bc := MergeHello(a, b, o, o), MergeHello(b, c, o, o);
    MergeIsMerge(ab, c, o, o);
    MergeIsMerge(a, bc, o, o);
    MergesAssociate(a, b, c, ab, bc, MergeHello(ab, c, o, o), MergeHello(a, bc, o, o));
  }

  lemma {:induction false} MergeIdempotent(a: Hello, o1: Order<Key>, o2: Order<Key>)
    requires ValidOrder(o1) && ValidOrder(o2) && NormalHello(a)
    ensures MergeHello(a, a, o1, o2) == a
  {
    var m := MergeHello(a, a, o1, o2);
    MergeAt(a, a, o1, o2, []);
    forall path ensures Held(m, path) == Held(a, path) {
      MergeAt(a, a, o1, o2, path);
    }
    SameHello(m, a);
  }

  /** The merge is the least HELLO that knows what both know. */
  lemma {:induction false} MergeIsJoin(a: Hello, b: Hello, c: Hello, o1: Order<Key>, o2: Order<Key>)
    requires ValidOrder(o1) && ValidOrder(o2) && a.publicKey == b.publicKey
    requires NormalHello(a) && NormalHello(b) && NormalHello(c)
    ensures Below(a, MergeHello(a, b, o1, o2)) && Below(b, MergeHello(a, b, o1, o2))
    ensures Below(MergeHello(a, b, o1, o2), c) <==> Below(a, c) && Below(b, c)
  {
    var m := MergeHello(a, b, o1, o2);
    forall path {:trigger Held(m, path)}
      ensures var x, y, z := Held(a, path), Held(b, path), Held(c, path);
              && Held(m, path) == Later(x, y)
              && Later(x, Later(x, y)) == Later(x, y) && Later(y, Later(x, y)) == Later(x, y)
              && (Later(Later(x, y), z) == z <==> Later(x, z) == z && Later(y, z) == z)
    {
      MergeAt(a, b, o1, o2, path);
      var x, y, z := Held(a, path), Held(b, path), Held(c, path);
      LaterIsJoin(x, y, z);
    }
    if Below(m, c) {
      forall path
        ensures Later(Held(a, path), Held(c, path)) == Held(c, path)
        ensures Later(Held(b, path), Held(c, path)) == Held(c, path)
      {
        assert Later(Held(m, path), Held(c, path)) == Held(c, path);
      }
    }
  }

  lemma {:induction false} LaterIsJoin(x: seq<Expiration>, y: seq<Expiration>, z: seq<Expiration>)
    requires |x| <= 1 && |y| <= 1 && |z| <= 1
    ensures Later(x, Later(x, y)) == Later(x, y) && Later(y, Later(x, y)) == Later(x, y)
    ensures Later(Later(x, y), z) == z <==> Later(x, z) == z && Later(y, z) == z
  {
    if x != [] && y != [] { VectorOrderIsNumeric(x[0], y[0]); }
    if x != [] && z != [] { VectorOrderIsNumeric(x[0], z[0]); }
    if y != [] && z != [] { VectorOrderIsNumeric(y[0], z[0]); }
  }

  // ---------------------------------------------------------------- lists of addresses

  /** The map of a list depends only on which addresses are in it, not on their order or number. */
  lemma {:induction false} MapIgnoresOrderAndRepetition(xs: seq<TransportAddress>, ys: seq<TransportAddress>)
    requires forall x :: x in xs <==> x in ys
    ensures TransportAddressesMap(xs) == TransportAddressesMap(ys)
  {
    MapIsNormal(xs);
    MapIsNormal(ys);
    forall path ensures Lookup(TransportAddressesMap(xs), path) == Lookup(TransportAddressesMap(ys), path) {
      MapAt(xs, path);
      MapAt(ys, path);
      MatchingHolds(path, xs);
      MatchingHolds(path, ys);
      LatestOfSame(Matching(FIELDS, path, xs), Matching(FIELDS, path, ys));
    }
    SameLookups(TransportAddressesMap(xs), TransportAddressesMap(ys), 2);
  }

  /** Reading two lists one after the other is merging what each of them gives. */
  lemma {:induction false} MapOfConcatIsMerge(f: bool, key: Bytes, xs: seq<TransportAddress>,
          ys: seq<TransportAddress>, o1: Order<Key>, o2: Order<Key>)
    requires ValidOrder(o1) && ValidOrder(o2)
    ensures NormalMap(TransportAddressesMap(xs)) && NormalMap(TransportAddressesMap(ys))
    ensures Hello(f, key, TransportAddressesMap(xs + ys)) ==
              MergeHello(Hello(f, key, TransportAddressesMap(xs)), Hello(f, key, TransportAddressesMap(ys)), o1, o2)
  {
    MapIsNormal(xs);
    MapIsNormal(ys);
    MapIsNormal(xs + ys);
    var a, b := Hello(f, key, TransportAddressesMap(xs)), Hello(f, key, TransportAddressesMap(ys));
    var m := MergeHello(a, b, o1, o2);
    MergeAt(a, b, o1, o2, []);
    forall path ensures Lookup(TransportAddressesMap(xs + ys), path) == Held(m, path) {
      MergeAt(a, b, o1, o2, path);
      MapAt(xs, path);
      MapAt(ys, path);
      MapAt(xs + ys, path);
      MatchingConcat(FIELDS, path, xs, ys);
      LatestOfConcat(Matching(FIELDS, path, xs), Matching(FIELDS, path, ys));
    }
    SameHello(Hello(f, key, TransportAddressesMap(xs + ys)), m);
  }
}
