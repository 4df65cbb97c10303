/** What the datastore plugin does to its records, by filters over the record map; and what its index ranges
    select. */
module Datastore {
  import opened Wrappers
  import opened IndexedDb

  type Uid = nat

  datatype Record = Record(key: seq<int>, data: seq<int>, kind: nat, priority: nat, anonymity: nat, replication: nat,
          expiry: nat)

  type Records = map<Uid, Record>

  /** An object store with its key generator. */
  datatype Store = Store(records: Records, nextUid: Uid)

  const TWO_TO_THE_53 := 0x20_0000_0000_0000

  /** Number.MAX_VALUE. */
  const MAX_VALUE: nat := (TWO_TO_THE_53 - 1) * PowerOfTwo(971)

  function PowerOfTwo(n: nat): (r: nat)
    ensures r > 0
  {
    if n == 0 then 1 else 2 * PowerOfTwo(n - 1)
  }

  lemma {:induction false} MaxValueIsLarge()
    ensures TWO_TO_THE_53 < MAX_VALUE
  {
    assert PowerOfTwo(971) >= 2;
    assert (TWO_TO_THE_53 - 1) * PowerOfTwo(971) >= (TWO_TO_THE_53 - 1) * 2;
  }

  /** A key generator gives no number above 2^53. */
  predicate GeneratorFits(store: Store) {
    && 1 <= store.nextUid <= TWO_TO_THE_53 + 1
    && forall u | u in store.records :: 1 <= u < store.nextUid
  }

  predicate UidsFit(records: Records) {
    forall u | u in records :: u <= TWO_TO_THE_53
  }

  // ---------------------------------------------------------------- the indexes of the schema

  function OctetsKey(octets: seq<int>): Key {
    Array(seq(|octets|, i requires 0 <= i < |octets| => Number(octets[i])))
  }

  lemma {:induction false} OctetsKeyIsInjective(a: seq<int>, b: seq<int>)
    ensures OctetsKey(a) == OctetsKey(b) <==> a == b
  {
    if OctetsKey(a) == OctetsKey(b) {
      assert |OctetsKey(a).elements| == |OctetsKey(b).elements|;
      forall i | 0 <= i < |a| ensures a[i] == b[i] {
        assert OctetsKey(a).elements[i] == OctetsKey(b).elements[i];
      }
    }
  }

  function ByUid(records: Records): Index { map u | u in records :: Number(u) }

  function ByKey(records: Records): Index { map u | u in records :: Array([OctetsKey(records[u].key), Number(u)]) }

  function ByAnonType(records: Records): Index {
    map u | u in records :: Array([Number(records[u].anonymity), Number(records[u].kind), Number(u)])
  }

  function ByReplication(records: Records): Index { map u | u in records :: Number(records[u].replication) }

  function ByExpiry(records: Records): Index { map u | u in records :: Number(records[u].expiry) }

  /** The range from [key] to [key, MAX_VALUE]. */
  function WholeKeyRange(key: seq<int>): Range {
    Bound(Array([OctetsKey(key)]), Array([OctetsKey(key), Number(MAX_VALUE)]))
  }

  function KeyRange(key: seq<int>, lo: nat): Range {
    Bound(Array([OctetsKey(key), Number(lo)]), Array([OctetsKey(key), Number(MAX_VALUE)]))
  }

  function AnonTypeRange(kind: nat, lo: nat): Range {
    Bound(Array([Number(0), Number(kind), Number(lo)]), Array([Number(0), Number(kind), Number(MAX_VALUE)]))
  }

  // ---------------------------------------------------------------- what the ranges select

  lemma {:induction false} CompareFirst(a: Key, x: seq<Key>, b: Key, y: seq<Key>)
    ensures CompareElements([a] + x, [b] + y) == if a == b then CompareElements(x, y) else Compare(a, b)
    ensures Compare(a, b) == 0 <==> a == b
  {
    CompareIsEquality(a, b);
    assert ([a] + x)[1..] == x && ([b] + y)[1..] == y;
  }

  lemma {:induction false} ComparePairs(a: Key, x: Key, b: Key, y: Key)
    ensures Compare(Array([a, x]), Array([b, y])) == if a == b then Compare(x, y) else Compare(a, b)
    ensures Compare(a, b) == 0 <==> a == b
  {
    CompareFirst(a, [x], b, [y]);
    CompareFirst(x, [], y, []);
    assert [a, x] == [a] + [x] && [b, y] == [b] + [y] && [x] == [x] + [] && [y] == [y] + [];
  }

  lemma {:induction false} ComparePrefix(a: Key, b: Key, y: Key)
    ensures Compare(Array([a]), Array([b, y])) == if a == b then -1 else Compare(a, b)
    ensures Compare(a, b) == 0 <==> a == b
  {
    CompareFirst(a, [], b, [y]);
    assert [a] == [a] + [] && [b, y] == [b] + [y];
  }

  lemma {:induction false} CompareTriples(a: Key, b: Key, x: Key, c: Key, d: Key, y: Key)
    ensures Compare(Array([a, b, x]), Array([c, d, y])) ==
              if a == c && b == d then Compare(x, y) else if a == c then Compare(b, d) else Compare(a, c)
    ensures (Compare(a, c) == 0 <==> a == c) && (Compare(b, d) == 0 <==> b == d)
  {
    CompareFirst(a, [b, x], c, [d, y]);
    ComparePairs(b, x, d, y);
    assert [a, b, x] == [a] + [b, x] && [c, d, y] == [c] + [d, y];
  }

  /** The range of a key holds exactly that key's records from uid lo on. */
  lemma {:induction false} KeyRangeSelects(key: seq<int>, lo: nat, other: seq<int>, u: nat)
    requires u <= TWO_TO_THE_53
    ensures InRange(KeyRange(key, lo), Array([OctetsKey(other), Number(u)])) <==> other == key && lo <= u
    ensures InRange(WholeKeyRange(key), Array([OctetsKey(other), Number(u)])) <==> other == key
  {
    var k, o := OctetsKey(key), OctetsKey(other);
    MaxValueIsLarge();
    OctetsKeyIsInjective(key, other);
    ComparePairs(k, Number(lo), o, Number(u));
    ComparePairs(o, Number(u), k, Number(MAX_VALUE));
    ComparePrefix(k, o, Number(u));
    CompareIsAntisymmetric(k, o);
    hide Compare, OctetsKey, MAX_VALUE;
    assert Compare(Number(lo), Number(u)) <= 0 <==> lo <= u by { CompareNumbers(lo, u); }
    assert Compare(Number(u), Number(MAX_VALUE)) <= 0 by { CompareNumbers(u, MAX_VALUE); }
  }

  lemma {:induction false} CompareNumbers(x: int, y: int)
    ensures Compare(Number(x), Number(y)) <= 0 <==> x <= y
  {
  }

  lemma {:induction false} AnonTypeRangeSelects(kind: nat, lo: nat, anonymity: nat, other: nat, u: nat)
    requires u <= TWO_TO_THE_53
    ensures InRange(AnonTypeRange(kind, lo), Array([Number(anonymity), Number(other), Number(u)])) <==>
            anonymity == 0 && other == kind && lo <= u
  {
    MaxValueIsLarge();
    CompareTriples(Number(0), Number(kind), Number(lo), Number(anonymity), Number(other), Number(u));
    CompareTriples(Number(anonymity), Number(other), Number(u), Number(0), Number(kind), Number(MAX_VALUE));
    hide MAX_VALUE;
  }

  // ---------------------------------------------------------------- what a cursor finds there

  ghost predicate IsLeast(s: set<nat>, m: nat) {
    m in s && forall x | x in s :: m <= x
  }

  lemma {:induction false} LeastExists(s: set<nat>)
    requires s != {}
    ensures exists m :: IsLeast(s, m)
    decreases |s|
  {
    var x :| x in s;
    var rest := s - {x};
    assert forall y | y in s :: y == x || y in rest;
    if rest == {} {
      assert IsLeast(s, x);
    } else {
      LeastExists(rest);
      var m :| IsLeast(rest, m);
      assert IsLeast(s, if x < m then x else m);
    }
  }

  ghost function Least(s: set<nat>): (m: Option<nat>)
    ensures m.None? <==> s == {}
    ensures m.Some? ==> IsLeast(s, m.value)
  {
    if s == {} then None else
    LeastExists(s);
    var m :| IsLeast(s, m);
    Some(m)
  }

  /** Where records of a range are listed by uid, a cursor finds the least uid. */
  lemma {:induction false} CursorFindsLeast(index: Index, range: Range, after: Option<nat>, s: set<nat>)
    requires (after.Some? ==> after.value in index) && Ahead(index, range, Next, after) == s
    requires forall u, v | u in s && v in s :: Before(index, Next, u, v) ==> u < v
    ensures Iterate(index, range, Next, after) == Least(s)
  {
    if s != {} {
      var u, m := First(index, Next, s), Least(s).value;
      assert IsFirst(index, Next, s, u) && IsLeast(s, m);
    }
  }

  ghost function OfKey(records: Records, key: seq<int>, lo: nat, after: Option<Uid>): set<Uid> {
    set u | u in records && records[u].key == key && lo <= u && (after.Some? ==> after.value < u)
  }

  /** Two records of one key are listed by uid. */
  lemma {:induction false} KeyOrder(records: Records, u: Uid, v: Uid)
    requires u in records && v in records && records[u].key == records[v].key
    ensures Before(ByKey(records), Next, u, v) <==> u < v
  {
    ComparePairs(OctetsKey(records[u].key), Number(u), OctetsKey(records[v].key), Number(v));
    hide OctetsKey;
  }

  lemma {:induction false} KeyCursor(records: Records, key: seq<int>, lo: nat, after: Option<Uid>)
    requires UidsFit(records) && (after.Some? ==> after.value in records && records[after.value].key == key)
    ensures Iterate(ByKey(records), KeyRange(key, lo), Next, after) == Least(OfKey(records, key, lo, after))
    ensures Iterate(ByKey(records), WholeKeyRange(key), Next, after) == Least(OfKey(records, key, 0, after))
  {
    hide InRange, OctetsKey, Before, Iterate, KeyRange, WholeKeyRange;
    var index := ByKey(records);
    forall u | u in records
      ensures InRange(KeyRange(key, lo), index[u]) <==> records[u].key == key && lo <= u
      ensures InRange(WholeKeyRange(key), index[u]) <==> records[u].key == key
    {
      KeyRangeSelects(key, lo, records[u].key, u);
    }
    forall u, v | u in records && v in records && records[u].key == records[v].key
      ensures Before(index, Next, u, v) <==> u < v
    {
      KeyOrder(records, u, v);
    }
    hide ByKey, UidsFit;
    CursorFindsLeast(index, KeyRange(key, lo), after, OfKey(records, key, lo, after));
    CursorFindsLeast(index, WholeKeyRange(key), after, OfKey(records, key, 0, after));
  }

  ghost function OfAnonType(records: Records, kind: nat, lo: nat): set<Uid> {
    set u | u in records && records[u].anonymity == 0 && records[u].kind == kind && lo <= u
  }

  lemma {:induction false} AnonTypeOrder(records: Records, u: Uid, v: Uid)
    requires u in records && v in records && records[u].kind == records[v].kind
             && records[u].anonymity == records[v].anonymity
    ensures Before(ByAnonType(records), Next, u, v) <==> u < v
  {
    CompareTriples(Number(records[u].anonymity), Number(records[u].kind), Number(u), Number(records[v].anonymity),
        Number(records[v].kind), Number(v));
  }

  lemma {:induction false} AnonTypeCursor(records: Records, kind: nat, lo: nat)
    requires UidsFit(records)
    ensures Iterate(ByAnonType(records), AnonTypeRange(kind, lo), Next, None) == Least(OfAnonType(records, kind, lo))
  {
    hide InRange, Before, Iterate, AnonTypeRange;
    var index := ByAnonType(records);
    forall u | u in records
      ensures InRange(AnonTypeRange(kind, lo), index[u]) <==> u in OfAnonType(records, kind, lo)
    {
      AnonTypeRangeSelects(kind, lo, records[u].anonymity, records[u].kind, u);
    }
    forall u, v | u in OfAnonType(records, kind, lo) && v in OfAnonType(records, kind, lo)
      ensures Before(index, Next, u, v) <==> u < v
    {
      AnonTypeOrder(records, u, v);
    }
    hide ByAnonType, UidsFit;
    CursorFindsLeast(index, AnonTypeRange(kind, lo), None, OfAnonType(records, kind, lo));
  }

  ghost function AfterUid(records: Records, after: Option<Uid>): set<Uid> {
    set u | u in records && (after.Some? ==> after.value < u)
  }

  lemma {:induction false} UidCursor(records: Records, after: Option<Uid>)
    requires after.Some? ==> after.value in records
    ensures Iterate(ByUid(records), All, Next, after) == Least(AfterUid(records, after))
  {
    CursorFindsLeast(ByUid(records), All, after, AfterUid(records, after));
  }
}
