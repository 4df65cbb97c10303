/** Every store that the datastore's requests can reach. */
module DatastoreRuns {
  import opened Wrappers
  import opened Datastore
  import opened DatastoreRequests
  import opened DatastoreSweeps

  datatype Request =
    | DoPut(absent: bool, r: Record)
    | DoRemove(key: seq<int>, data: seq<int>)
    | DoReplicate
    | DoExpire(now: int, answer: int)

  ghost function Apply(store: Store, request: Request): Store {
    match request
    case DoPut(absent, r) => Put(store, absent, r).store
    case DoRemove(key, data) => Remove(store, key, data).store
    case DoReplicate => store.(records := Spend(store.records))
    case DoExpire(now, answer) =>
      var u := NextExpired(store.records, now);
      if u.Some? && answer == 0 then store.(records := store.records - {u.value}) else store
  }

  ghost function ApplyAll(store: Store, requests: seq<Request>): Store
    decreases |requests|
  {
    if requests == [] then store else ApplyAll(Apply(store, requests[0]), requests[1..])
  }

  /** `absent` is passed only when the pair is absent. */
  ghost predicate Honest(store: Store, requests: seq<Request>)
    decreases |requests|
  {
    requests == [] ||
    ((requests[0].DoPut? && requests[0].absent ==> Matching(store.records, requests[0].r.key, requests[0].r.data) == {})
     && Honest(Apply(store, requests[0]), requests[1..]))
  }

  ghost predicate Sound(store: Store) {
    GeneratorFits(store) && Unique(store.records)
  }

  lemma {:induction false} SpendKeepsSound(store: Store)
    requires Sound(store)
    ensures Sound(store.(records := Spend(store.records)))
  {
    TakesMostReplicated(store.records);
    var u := NextReplication(store.records);
    hide NextReplication;
    if u.Some? { UpdateKeepsUnique(store.records, u.value, Spent(store.records[u.value])); }
  }

  lemma {:induction false} RequestKeepsSound(store: Store, request: Request)
    requires Sound(store)
    requires request.DoPut? && request.absent ==> Matching(store.records, request.r.key, request.r.data) == {}
    ensures Sound(Apply(store, request))
  {
    hide NextExpired, NextReplication, Spend;
    match request
    case DoPut(absent, r) => PutKeepsUniqueIff(store, absent, r);
    case DoRemove(key, data) => RemoveTakesPair(store, key, data, key, data);
    case DoReplicate => SpendKeepsSound(store);
    case DoExpire(_, _) =>
  }

  /** From the empty store, honest requests only reach stores with at most one record per key and data, in which
      every record is the one that clients see for its pair. */
  lemma {:induction false} UniqueRuns(requests: seq<Request>)
    requires Honest(Store(map[], 1), requests)
    ensures var store := ApplyAll(Store(map[], 1), requests);
            && Sound(store)
            && forall u | u in store.records ::
                 var r := store.records[u]; Kept(store.records, r.key, r.data) == Some(r)
  {
    SoundRuns(Store(map[], 1), requests);
    var records := ApplyAll(Store(map[], 1), requests).records;
    hide ApplyAll, Honest, Kept;
    forall u | u in records ensures Kept(records, records[u].key, records[u].data) == Some(records[u]) {
      KeptIsRecord(records, u);
    }
  }

  lemma {:induction false} SoundRuns(store: Store, requests: seq<Request>)
    requires Sound(store) && Honest(store, requests)
    ensures Sound(ApplyAll(store, requests))
    decreases |requests|
  {
    hide Sound, Apply;
    if requests != [] {
      RequestKeepsSound(store, requests[0]);
      SoundRuns(Apply(store, requests[0]), requests[1..]);
    }
  }
}
