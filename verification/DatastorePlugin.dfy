/** The datastore plugin as the source runs it: cursors that continue, update and delete. Each request is one
    atomic transaction that succeeds. */
module DatastorePlugin {
  import opened Wrappers
  import opened IndexedDb
  import opened Datastore
  import opened DatastoreRequests
  import opened DatastoreSweeps

  class Plugin {
    var records: Records
    var nextUid: Uid

    ghost function View(): Store
      reads this
    {
      Store(records, nextUid)
    }

    ghost predicate Valid()
      reads this
    {
      GeneratorFits(View())
    }

    constructor ()
      ensures Valid() && View() == Store(map[], 1)
    {
      records, nextUid := map[], 1;
    }

    method DoPut(r: Record) returns (status: int)
      requires Valid()
      modifies this
      ensures Valid() && Outcome(View(), status) == Insert(old(View()), r)
    {
      if nextUid > TWO_TO_THE_53 { return -1; }
      var uid := nextUid;
      nextUid := uid + 1;
      records := records[uid := r];
      status := 1;
    }

    method Put(key: seq<int>, absent: bool, data: seq<int>, kind: nat, priority: nat, anonymity: nat,
            replication: nat, expiry: nat)
      returns (status: int)
      requires Valid()
      modifies this
      ensures Valid()
      ensures Outcome(View(), status) ==
              DatastoreRequests.Put(old(View()), absent,
                  Record(key, data, kind, priority, anonymity, replication, expiry))
    {
      var r := Record(key, data, kind, priority, anonymity, replication, expiry);
      if absent { status := DoPut(r); return; }
      hide Compare, InRange, Before, Iterate, WholeKeyRange, OctetsKey;
      var position: Option<Uid> := None;
      while true
        invariant records == old(records) && nextUid == old(nextUid)
        invariant position.Some? ==> position.value in records && records[position.value].key == key
        invariant forall u | u in Matching(records, key, data) :: position.Some? ==> position.value < u
        decreases |OfKey(records, key, 0, position)|
      {
        var cursor := Iterate(ByKey(records), WholeKeyRange(key), Next, position);
        KeyCursor(records, key, 0, position);
        assert Matching(records, key, data) <= OfKey(records, key, 0, position);
        if cursor.None? { break; }
        var value := records[cursor.value];
        if |data| != |value.data| || value.data != data {
          LookupPassed(records, Some(key), 0, position, cursor.value);
          position := cursor;
          continue;
        }
        assert cursor.value in Matching(records, key, data);
        value := value.(priority := value.priority + priority, replication := value.replication + replication);
        if value.expiry < expiry { value := value.(expiry := expiry); }
        records := records[cursor.value := value];
        return 0;
      }
      status := DoPut(r);
    }

    method RemoveKey(key: seq<int>, data: seq<int>) returns (status: int)
      requires Valid()
      modifies this
      ensures Valid() && Outcome(View(), status) == Remove(old(View()), key, data)
    {
      hide Compare, InRange, Before, Iterate, WholeKeyRange, OctetsKey;
      var position: Option<Uid> := None;
      while true
        invariant records == old(records) && nextUid == old(nextUid)
        invariant position.Some? ==> position.value in records && records[position.value].key == key
        invariant forall u | u in Matching(records, key, data) :: position.Some? ==> position.value < u
        decreases |OfKey(records, key, 0, position)|
      {
        var cursor := Iterate(ByKey(records), WholeKeyRange(key), Next, position);
        KeyCursor(records, key, 0, position);
        assert Matching(records, key, data) <= OfKey(records, key, 0, position);
        if cursor.None? { return 0; }
        var value := records[cursor.value];
        if |data| != |value.data| || value.data != data {
          LookupPassed(records, Some(key), 0, position, cursor.value);
          position := cursor;
          continue;
        }
        assert cursor.value in Matching(records, key, data);
        records := records - {cursor.value};
        return 1;
      }
    }

    method GetKey(next: nat, key: Option<seq<int>>, kind: nat) returns (found: Option<(Uid, Record)>)
      requires Valid()
      ensures found.None? <==> Lookup(records, next, key, kind).None?
      ensures found.Some? ==> Lookup(records, next, key, kind) == Some(found.value.0)
                              && found.value.0 in records && found.value.1 == records[found.value.0]
      ensures found.Some? ==>
                (key.Some? ==> found.value.1.key == key.value) && (kind == 0 || found.value.1.kind == kind)
      ensures found.None? <==> forall u | u in records :: !Passes(records[u], key, kind)
      decreases if next == 0 then 0 else 1
    {
      LookupFinds(records, next, key, kind);
      ghost var candidates := Candidates(records, key, kind);
      ghost var lo := if key.Some? then next else 0;
      var position: Option<Uid> := None;
      while true
        invariant position.Some? ==> position.value in InLookup(records, key, lo, None)
        invariant forall u | u in From(candidates, lo) :: position.Some? ==> position.value < u
        decreases |InLookup(records, key, lo, position)|
      {
        var cursor :=
          if key.Some? then Iterate(ByKey(records), KeyRange(key.value, next), Next, position)
          else Iterate(ByUid(records), All, Next, position);
        LookupCursor(records, next, key, position);
        assert From(candidates, lo) <= InLookup(records, key, lo, position);
        if cursor.None? { break; }
        var value := records[cursor.value];
        if kind != 0 && kind != value.kind {
          LookupPassed(records, key, lo, position, cursor.value);
          position := cursor;
          continue;
        }
        assert cursor.value in From(candidates, lo);
        assert key.None? ==> From(candidates, lo) == candidates;
        return Some((cursor.value, value));
      }
      assert From(candidates, lo) == {};
      assert From(candidates, 0) == candidates;
      if next != 0 {
        found := GetKey(0, key, kind);
        return;
      }
      found := None;
    }

    method GetReplication() returns (found: Option<(Uid, Record)>)
      requires Valid()
      modifies this
      ensures Valid() && nextUid == old(nextUid) && records == Spend(old(records))
      ensures found.None? <==> NextReplication(old(records)).None?
      ensures found.Some? ==>
                NextReplication(old(records)) == Some(found.value.0) && found.value.1 == records[found.value.0]
      ensures found.None? <==> old(records) == map[]
      ensures found.Some? ==>
                var (u, r) := found.value;
                && u in old(records) && records == old(records)[u := r]
                && var before := old(records)[u];
                   r == before.(replication := if before.replication == 0 then 0 else before.replication - 1)
    {
      TakesMostReplicated(records);
      var cursor := Iterate(ByReplication(records), All, Prev, None);
      if cursor.None? { return None; }
      var value := records[cursor.value];
      if value.replication > 0 { value := value.(replication := value.replication - 1); }
      records := records[cursor.value := value];
      found := Some((cursor.value, value));
    }

    /** `processor` is the answer of the caller's callback; 0 asks for the record to be deleted. */
    method GetExpiration(now: int, processor: (Uid, Record) -> int) returns (found: Option<(Uid, Record)>)
      requires Valid()
      modifies this
      ensures Valid() && nextUid == old(nextUid)
      ensures found.None? <==> NextExpired(old(records), now).None?
      ensures found.None? ==> records == old(records)
      ensures found.Some? ==>
                var u := found.value.0;
                && NextExpired(old(records), now) == Some(u) && found.value.1 == old(records)[u]
                && records == if processor(u, old(records)[u]) == 0 then old(records) - {u} else old(records)
    {
      var cursor := Iterate(ByExpiry(records), Below(Number(now)), Next, None);
      if cursor.None? { return None; }
      var value := records[cursor.value];
      found := Some((cursor.value, value));
      var ret := processor(cursor.value, value);
      if ret == 0 { records := records - {cursor.value}; }
    }

    method GetZeroAnonymity(next: nat, kind: nat) returns (found: Option<(Uid, Record)>)
      requires Valid()
      ensures var matches := OfAnonType(records, kind, 0);
              && (found.None? <==> NextCyclic(matches, next).None?)
              && (found.Some? ==> NextCyclic(matches, next) == Some(found.value.0) && found.value.0 in records
                                  && found.value.1 == records[found.value.0])
      ensures found.Some? ==> found.value.1.anonymity == 0 && found.value.1.kind == kind
      ensures found.None? <==> forall u | u in records :: !(records[u].anonymity == 0 && records[u].kind == kind)
      decreases if next == 0 then 0 else 1
    {
      var cursor := Iterate(ByAnonType(records), AnonTypeRange(kind, next), Next, None);
      AnonTypeCursor(records, kind, next);
      ghost var matches := OfAnonType(records, kind, 0);
      assert From(matches, next) == OfAnonType(records, kind, next);
      assert From(matches, 0) == matches;
      assert forall u | u in records && records[u].anonymity == 0 && records[u].kind == kind :: u in matches;
      if cursor.Some? { return Some((cursor.value, records[cursor.value])); }
      if next != 0 {
        found := GetZeroAnonymity(0, kind);
        return;
      }
      found := None;
    }
  }

  /** The records that the cursor of get_key has ahead. */
  ghost function InLookup(records: Records, key: Option<seq<int>>, lo: nat, position: Option<Uid>): set<Uid> {
    if key.Some? then OfKey(records, key.value, lo, position) else AfterUid(records, position)
  }

  lemma {:induction false} LookupCursor(records: Records, next: nat, key: Option<seq<int>>, position: Option<Uid>)
    requires UidsFit(records)
    requires position.Some? ==> position.value in InLookup(records, key, if key.Some? then next else 0, None)
    ensures var lo := if key.Some? then next else 0;
            (if key.Some? then Iterate(ByKey(records), KeyRange(key.value, next), Next, position)
             else Iterate(ByUid(records), All, Next, position)) == Least(InLookup(records, key, lo, position))
  {
    if key.Some? { KeyCursor(records, key.value, next, position); } else { UidCursor(records, position); }
  }

  /** A cursor that continues has fewer records ahead. */
  lemma {:induction false} LookupPassed(records: Records, key: Option<seq<int>>, lo: nat, position: Option<Uid>,
          cursor: Uid)
    requires Least(InLookup(records, key, lo, position)) == Some(cursor)
    ensures |InLookup(records, key, lo, Some(cursor))| < |InLookup(records, key, lo, position)|
  {
    var before, now := InLookup(records, key, lo, position), InLookup(records, key, lo, Some(cursor));
    assert now <= before - {cursor};
    assert before - {cursor} == now + (before - {cursor} - now);
  }
}
