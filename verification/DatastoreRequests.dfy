/** The requests of the datastore as filters over the record map, and what they promise together. */
module DatastoreRequests {
  import opened Wrappers
  import opened Datastore

  datatype Outcome = Outcome(store: Store, status: int)

  ghost function Matching(records: Records, key: seq<int>, data: seq<int>): set<Uid> {
    set u | u in records && records[u].key == key && records[u].data == data
  }

  /** A record that was put again: amounts add up, the later expiry wins, type and anonymity stay. */
  function Merged(kept: Record, r: Record): Record {
    kept.(
      priority := kept.priority + r.priority,
      replication := kept.replication + r.replication,
      expiry := if kept.expiry < r.expiry then r.expiry else kept.expiry)
  }

  /** The key generator gives the uid, unless it is exhausted. */
  function Insert(store: Store, r: Record): Outcome {
    if store.nextUid > TWO_TO_THE_53 then Outcome(store, -1)
    else Outcome(Store(store.records[store.nextUid := r], store.nextUid + 1), 1)
  }

  ghost function Put(store: Store, absent: bool, r: Record): Outcome {
    var m := Least(Matching(store.records, r.key, r.data));
    if absent || m.None? then Insert(store, r)
    else Outcome(store.(records := store.records[m.value := Merged(store.records[m.value], r)]), 0)
  }

  ghost function Remove(store: Store, key: seq<int>, data: seq<int>): Outcome {
    var m := Least(Matching(store.records, key, data));
    if m.None? then Outcome(store, 0) else Outcome(store.(records := store.records - {m.value}), 1)
  }

  // ---------------------------------------------------------------- one record per key and data

  ghost predicate Unique(records: Records) {
    forall u, v | u in records && v in records ::
      records[u].key == records[v].key && records[u].data == records[v].data ==> u == v
  }

  /** The store as its clients see it: the record kept for a key and data. */
  ghost function Kept(records: Records, key: seq<int>, data: seq<int>): Option<Record> {
    var m := Least(Matching(records, key, data));
    if m.None? then None else Some(records[m.value])
  }

  lemma {:induction false} KeptIsRecord(records: Records, u: Uid)
    requires Unique(records) && u in records
    ensures Kept(records, records[u].key, records[u].data) == Some(records[u])
  {
    assert u in Matching(records, records[u].key, records[u].data);
  }

  /** Uniqueness is lost exactly by inserting a record as absent when it is present. */
  lemma {:induction false} PutKeepsUniqueIff(store: Store, absent: bool, r: Record)
    requires GeneratorFits(store) && Unique(store.records)
    ensures GeneratorFits(Put(store, absent, r).store)
    ensures Unique(Put(store, absent, r).store.records) <==>
              !(absent && Matching(store.records, r.key, r.data) != {} && store.nextUid <= TWO_TO_THE_53)
  {
    var records, next := store.records, store.nextUid;
    var matching := Matching(records, r.key, r.data);
    if matching != {} {
      var u :| u in matching;
      var inserted := records[next := r];
      assert u in inserted && next in inserted && inserted[u] == records[u] && u != next;
      assert !Unique(inserted);
      UpdateKeepsUnique(records, Least(matching).value, Merged(records[Least(matching).value], r));
    } else {
      InsertKeepsUnique(records, next, r);
    }
  }

  lemma {:induction false} UpdateKeepsUnique(records: Records, u: Uid, r: Record)
    requires Unique(records) && u in records && r.key == records[u].key && r.data == records[u].data
    ensures Unique(records[u := r])
  {
    var records' := records[u := r];
    assert forall v | v in records' ::
             v in records && records'[v].key == records[v].key && records'[v].data == records[v].data;
  }

  lemma {:induction false} InsertKeepsUnique(records: Records, next: Uid, r: Record)
    requires Unique(records) && Matching(records, r.key, r.data) == {}
    ensures Unique(records[next := r])
  {
    forall v | v in records ensures !(records[v].key == r.key && records[v].data == r.data) {
      assert v !in Matching(records, r.key, r.data);
    }
  }

  /** put refines insert-or-merge on what clients see, and a fresh record gets a larger uid than any. */
  lemma {:induction false} PutInsertsOrMerges(store: Store, absent: bool, r: Record, key: seq<int>, data: seq<int>)
    requires GeneratorFits(store) && (absent ==> Kept(store.records, r.key, r.data).None?)
    ensures var o, before := Put(store, absent, r), Kept(store.records, r.key, r.data);
            && o.status == (if before.Some? then 0 else if store.nextUid <= TWO_TO_THE_53 then 1 else -1)
            && Kept(o.store.records, key, data) ==
                 (if (key, data) != (r.key, r.data) || o.status == -1 then Kept(store.records, key, data)
                  else if before.Some? then Some(Merged(before.value, r))
                  else Some(r))
    ensures forall u, v | u in Put(store, absent, r).store.records && u !in store.records && v in store.records ::
              v < u
  {
    var records, next := store.records, store.nextUid;
    var before := Matching(records, r.key, r.data);
    if before != {} {
      var u := Least(before).value;
      var records' := records[u := Merged(records[u], r)];
      assert Matching(records', key, data) == Matching(records, key, data);
    } else if next <= TWO_TO_THE_53 {
      var records' := records[next := r];
      assert Matching(records', key, data) ==
             if (key, data) == (r.key, r.data) then {next} else Matching(records, key, data);
    }
  }

  ghost function PutAll(store: Store, rs: seq<Record>): Store
    decreases |rs|
  {
    if rs == [] then store else PutAll(Put(store, false, rs[0]).store, rs[1..])
  }

  function SumOf(rs: seq<Record>, amount: Record -> nat): nat {
    if rs == [] then 0 else amount(rs[0]) + SumOf(rs[1..], amount)
  }

  function LatestExpiry(rs: seq<Record>): nat {
    if rs == [] then 0 else if rs[0].expiry < LatestExpiry(rs[1..]) then LatestExpiry(rs[1..]) else rs[0].expiry
  }

  function PriorityOf(r: Record): nat { r.priority }

  function ReplicationOf(r: Record): nat { r.replication }

  /** What many puts of one pair add to a record. */
  function Accumulated(first: Record, rs: seq<Record>): Record {
    first.(
      priority := first.priority + SumOf(rs, PriorityOf),
      replication := first.replication + SumOf(rs, ReplicationOf),
      expiry := if first.expiry < LatestExpiry(rs) then LatestExpiry(rs) else first.expiry)
  }

  ghost predicate AllOf(rs: seq<Record>, key: seq<int>, data: seq<int>) {
    forall i | 0 <= i < |rs| :: rs[i].key == key && rs[i].data == data
  }

  /** Putting one pair again and again leaves one record: priorities and replications add up, the latest expiry
      wins, type and anonymity are those of the first, and other pairs are untouched. */
  lemma {:induction false} PutsAccumulate(store: Store, rs: seq<Record>, key: seq<int>, data: seq<int>)
    requires GeneratorFits(store) && store.nextUid <= TWO_TO_THE_53 && rs != [] && AllOf(rs, rs[0].key, rs[0].data)
    requires Kept(store.records, rs[0].key, rs[0].data).None?
    ensures Kept(PutAll(store, rs).records, key, data) ==
              if (key, data) == (rs[0].key, rs[0].data) then Some(Accumulated(rs[0], rs[1..]))
                  else Kept(store.records, key, data)
  {
    var store1 := Put(store, false, rs[0]).store;
    PutInsertsOrMerges(store, false, rs[0], key, data);
    PutInsertsOrMerges(store, false, rs[0], rs[0].key, rs[0].data);
    PutKeepsGenerator(store, false, rs[0]);
    hide Kept, Put;
    PutsAdd(store1, rs[1..], rs[0].key, rs[0].data, rs[0], key, data);
  }

  lemma {:induction false} PutKeepsGenerator(store: Store, absent: bool, r: Record)
    requires GeneratorFits(store)
    ensures GeneratorFits(Put(store, absent, r).store)
  {
  }

  lemma {:induction false} PutsAdd(store: Store, rs: seq<Record>, k: seq<int>, d: seq<int>, first: Record,
          key: seq<int>, data: seq<int>)
    requires GeneratorFits(store) && AllOf(rs, k, d) && first.key == k && first.data == d
             && Kept(store.records, k, d) == Some(first)
    ensures Kept(PutAll(store, rs).records, key, data) ==
              if (key, data) == (k, d) then Some(Accumulated(first, rs)) else Kept(store.records, key, data)
    decreases |rs|
  {
    if rs != [] {
      PutInsertsOrMerges(store, false, rs[0], key, data);
      PutInsertsOrMerges(store, false, rs[0], k, d);
      PutKeepsGenerator(store, false, rs[0]);
      hide Kept, Put;
      PutsAdd(Put(store, false, rs[0]).store, rs[1..], k, d, Merged(first, rs[0]), key, data);
    }
  }

  /** remove_key takes exactly the pair away, and says whether it was there. */
  lemma {:induction false} RemoveTakesPair(store: Store, key: seq<int>, data: seq<int>, otherKey: seq<int>,
          otherData: seq<int>)
    requires GeneratorFits(store) && Unique(store.records)
    ensures var o := Remove(store, key, data);
            && GeneratorFits(o.store) && Unique(o.store.records)
            && o.status == (if Kept(store.records, key, data).Some? then 1 else 0)
            && Kept(o.store.records, otherKey, otherData) ==
                 (if (otherKey, otherData) == (key, data) then None else Kept(store.records, otherKey, otherData))
  {
    var records := store.records;
    var matching := Matching(records, key, data);
    if matching != {} {
      var u := Least(matching).value;
      assert matching == {u};
      assert Matching(records - {u}, otherKey, otherData) ==
             if (otherKey, otherData) == (key, data) then {} else Matching(records, otherKey, otherData);
    }
  }

  // ---------------------------------------------------------------- cyclic enumeration

  /** The records that get_key may return. */
  ghost function Candidates(records: Records, key: Option<seq<int>>, kind: nat): set<Uid> {
    set u | u in records && (key.Some? ==> records[u].key == key.value) && (kind == 0 || records[u].kind == kind)
  }

  ghost function From(s: set<nat>, lo: nat): set<nat> {
    set u | u in s && lo <= u
  }

  /** The least element from lo on, else the least of all, else none. */
  ghost function NextCyclic(s: set<nat>, lo: nat): (u: Option<nat>)
    ensures u.None? <==> s == {}
    ensures u.Some? ==> u.value in s
  {
    if From(s, lo) != {} then Least(From(s, lo)) else Least(s)
  }

  /** What get_key returns; without a key the uid asked for plays no part. */
  ghost function Lookup(records: Records, next: nat, key: Option<seq<int>>, kind: nat): Option<Uid> {
    var s := Candidates(records, key, kind);
    if key.Some? then NextCyclic(s, next) else Least(s)
  }

  /** The record passes the tests of get_key: the key, if one is given, and the type, unless that is 0. */
  predicate Passes(r: Record, key: Option<seq<int>>, kind: nat) {
    (key.Some? ==> r.key == key.value) && (kind == 0 || r.kind == kind)
  }

  /** Counting up from `next` and then from 0, u comes no later than v. */
  predicate NoLater(next: nat, u: nat, v: nat) {
    if next <= v then next <= u <= v else next <= u || u <= v
  }

  /** get_key finds a record exactly if one passes its tests: with a key the first from the uid asked for on,
      before starting over; without a key the first of all. */
  lemma {:induction false} LookupFinds(records: Records, next: nat, key: Option<seq<int>>, kind: nat)
    ensures var found := Lookup(records, next, key, kind);
            && (found.None? <==> forall v | v in records :: !Passes(records[v], key, kind))
            && (found.Some? ==>
                  && found.value in records && Passes(records[found.value], key, kind)
                  && forall v | v in records && Passes(records[v], key, kind) ::
                       NoLater(if key.Some? then next else 0, found.value, v))
  {
    var s := Candidates(records, key, kind);
    assert forall v :: v in s <==> v in records && Passes(records[v], key, kind);
    hide Candidates, Passes;
    if s != {} { assert forall v | v in s :: next <= v ==> v in From(s, next); }
  }

  /** The answers to n questions, the first from lo on and each later one from the last answer plus one. */
  ghost function Visits(s: set<nat>, lo: nat, n: nat): (v: seq<nat>)
    requires s != {}
    ensures |v| == n
    decreases n
  {
    if n == 0 then []
    else
      var u := NextCyclic(s, lo).value;
      [u] + Visits(s, u + 1, n - 1)
  }

  predicate Ascending(v: seq<nat>) {
    forall i, j | 0 <= i < j < |v| :: v[i] < v[j]
  }

  /** The elements from lo on are visited once each, in increasing order. */
  lemma {:induction false} VisitsAscend(s: set<nat>, lo: nat)
    requires s != {}
    ensures var v := Visits(s, lo, |From(s, lo)|); Ascending(v) && forall u :: u in From(s, lo) <==> u in v
    decreases |From(s, lo)|
  {
    var from := From(s, lo);
    if from != {} {
      var u := Least(from).value;
      assert From(s, u + 1) == from - {u};
      VisitsAscend(s, u + 1);
      var rest := Visits(s, u + 1, |from| - 1);
      assert Visits(s, lo, |from|) == [u] + rest;
      AscendingFrom(u, rest);
      forall x ensures x in from <==> x in [u] + rest {
        assert x in from <==> x == u || x in From(s, u + 1);
      }
    }
  }

  lemma {:induction false} AscendingFrom(u: nat, rest: seq<nat>)
    requires Ascending(rest) && forall x | x in rest :: u < x
    ensures Ascending([u] + rest)
  {
    forall i, j | 0 <= i < j < |rest| + 1 ensures ([u] + rest)[i] < ([u] + rest)[j] {
      assert rest[j - 1] in rest;
    }
  }

  /** After the last element the answers are those from 0 on. */
  lemma {:induction false} VisitsStartOver(s: set<nat>, lo: nat, n: nat)
    requires s != {} && From(s, lo) == {}
    ensures Visits(s, lo, n) == Visits(s, 0, n)
  {
    assert From(s, 0) == s;
  }

  lemma {:induction false} VisitsThenStartOver(s: set<nat>, lo: nat, n: nat)
    requires s != {}
    ensures Visits(s, lo, |From(s, lo)| + n) == Visits(s, lo, |From(s, lo)|) + Visits(s, 0, n)
    decreases |From(s, lo)|
  {
    var from := From(s, lo);
    if from == {} {
      VisitsStartOver(s, lo, n);
    } else {
      var u := Least(from).value;
      assert From(s, u + 1) == from - {u};
      VisitsThenStartOver(s, u + 1, n);
    }
  }

  /** One round visits every element once, in increasing order; then the answers start over. */
  ghost predicate Cycles(s: set<nat>, n: nat)
    requires s != {}
  {
    var round := Visits(s, 0, |s|);
    && Ascending(round) && (forall u :: u in s <==> u in round)
    && Visits(s, 0, |s| + n) == round + Visits(s, 0, n)
  }

  lemma {:induction false} VisitsCycle(s: set<nat>, n: nat)
    requires s != {}
    ensures Cycles(s, n)
  {
    assert From(s, 0) == s;
    VisitsAscend(s, 0);
    VisitsThenStartOver(s, 0, n);
  }

  /** Asking get_key from 0 with the last uid plus one visits every match once, in increasing order, before it
      starts over, and so on forever. */
  lemma {:induction false} CyclicEnumeration(records: Records, key: seq<int>, kind: nat, n: nat)
    requires Candidates(records, Some(key), kind) != {}
    ensures Cycles(Candidates(records, Some(key), kind), n)
    ensures var s := Candidates(records, Some(key), kind);
            && (forall next :: Lookup(records, next, Some(key), kind) == NextCyclic(s, next))
            && forall u :: u in s <==> u in records && records[u].key == key && (kind == 0 || records[u].kind == kind)
  {
    VisitsCycle(Candidates(records, Some(key), kind), n);
  }

  /** So does get_zero_anonymity, over the records of anonymity 0 and one type. */
  lemma {:induction false} ZeroAnonymityEnumeration(records: Records, kind: nat, n: nat)
    requires OfAnonType(records, kind, 0) != {}
    ensures Cycles(OfAnonType(records, kind, 0), n)
    ensures forall u :: u in OfAnonType(records, kind, 0) <==>
              u in records && records[u].anonymity == 0 && records[u].kind == kind
  {
    VisitsCycle(OfAnonType(records, kind, 0), n);
  }
}
