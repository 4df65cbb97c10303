/** What repeated requests for replication and expiration do to the whole store. */
module DatastoreSweeps {
  import opened Wrappers
  import opened IndexedDb
  import opened Datastore

  // ---------------------------------------------------------------- replication

  /** The record that get_replication takes: the last of its index. */
  function NextReplication(records: Records): Option<Uid> {
    Iterate(ByReplication(records), All, Prev, None)
  }

  /** Its counter goes down, but not below zero. */
  function Spent(r: Record): Record {
    if r.replication > 0 then r.(replication := r.replication - 1) else r
  }

  function Spend(records: Records): Records {
    var u := NextReplication(records);
    if u.None? then records else records[u.value := Spent(records[u.value])]
  }

  /** No counter is greater than that of the record taken, and among equal ones it has the greatest uid. */
  lemma {:induction false} TakesMostReplicated(records: Records)
    ensures var u := NextReplication(records);
            if u.None? then records == map[]
            else u.value in records && forall v | v in records ::
                   || records[v].replication < records[u.value].replication
                   || (records[v].replication == records[u.value].replication && v <= u.value)
  {
    var index := ByReplication(records);
    var s := Ahead(index, All, Prev, None);
    assert s == records.Keys;
    if s != {} {
      var u := First(index, Prev, s);
      assert IsFirst(index, Prev, s, u);
    }
  }

  /** The sum of all counters. */
  ghost function Total(records: Records): nat
    decreases |records|
  {
    if records == map[] then 0 else
    var u :| u in records;
    records[u].replication + Total(records - {u})
  }

  lemma {:induction false} TotalSplits(records: Records, u: Uid)
    requires u in records
    ensures Total(records) == records[u].replication + Total(records - {u})
    decreases |records|
  {
    var v :| v in records && Total(records) == records[v].replication + Total(records - {v});
    if u != v {
      TotalSplits(records - {v}, u);
      TotalSplits(records - {u}, v);
      assert records - {v} - {u} == records - {u} - {v};
    }
  }

  lemma {:induction false} SpendLowersTotal(records: Records)
    ensures Total(Spend(records)) == if Total(records) > 0 then Total(records) - 1 else 0
    ensures Total(records) > 0 ==>
              NextReplication(records).Some? && records[NextReplication(records).value].replication > 0
    ensures Total(records) == 0 ==> Spend(records) == records && forall u | u in records :: records[u].replication == 0
  {
    TakesMostReplicated(records);
    forall u | u in records ensures Total(records) >= records[u].replication { TotalSplits(records, u); }
    if records != map[] {
      var u := NextReplication(records).value;
      hide NextReplication;
      TotalSplits(records, u);
      TotalSplits(Spend(records), u);
      assert Spend(records) - {u} == records - {u};
      if records[u].replication == 0 { NothingLeft(records); }
    }
  }

  lemma {:induction false} NothingLeft(records: Records)
    requires forall u | u in records :: records[u].replication == 0
    ensures Total(records) == 0
    decreases |records|
  {
    if records != map[] {
      var v :| v in records && Total(records) == records[v].replication + Total(records - {v});
      NothingLeft(records - {v});
    }
  }

  /** n calls of get_replication: the records returned, their counters before, and the store after. */
  datatype Spending = Spending(returned: seq<Uid>, counters: seq<nat>, records: Records)

  function SpendTimes(records: Records, n: nat): Spending
    decreases n
  {
    if n == 0 then Spending([], [], records) else
    var u := NextReplication(records);
    var rest := SpendTimes(Spend(records), n - 1);
    if u.None? then rest else
    Spending([u.value] + rest.returned, [records[u.value].replication] + rest.counters, rest.records)
  }

  predicate NonIncreasing(s: seq<nat>) {
    forall i, j | 0 <= i < j < |s| :: s[i] >= s[j]
  }

  ghost predicate CountersWithin(s: seq<nat>, bound: nat) {
    forall i | 0 <= i < |s| :: 0 < s[i] <= bound
  }

  /** Every counter has gone down by as often as its record was returned, and nothing else has changed. */
  ghost predicate PaidFor(records: Records, run: Spending) {
    && run.records.Keys == records.Keys
    && (forall u | u in run.returned :: u in records)
    && forall u | u in records ::
         && multiset(run.returned)[u] <= records[u].replication
         && run.records[u] == records[u].(replication := records[u].replication - multiset(run.returned)[u])
  }

  /** While counters are left, each call spends one of the greatest. */
  lemma {:induction false} SpendingPays(records: Records, n: nat, bound: nat)
    requires n <= Total(records) && forall u | u in records :: records[u].replication <= bound
    ensures var run := SpendTimes(records, n);
            && |run.returned| == n && PaidFor(records, run) && Total(run.records) == Total(records) - n
            && CountersWithin(run.counters, bound) && NonIncreasing(run.counters)
    decreases n
  {
    hide Total, NextReplication, Spend, PaidFor, CountersWithin, NonIncreasing;
    NothingPaid(records, bound);
    if n > 0 {
      FirstSpend(records, bound);
      var u := NextReplication(records).value;
      var top := records[u].replication;
      SpendingPays(Spend(records), n - 1, top);
      var rest := SpendTimes(Spend(records), n - 1);
      PaidOneMore(records, u, rest);
      CountersOneMore(rest.counters, top, bound);
    }
  }

  lemma {:induction false} FirstSpend(records: Records, bound: nat)
    requires Total(records) > 0 && forall u | u in records :: records[u].replication <= bound
    ensures NextReplication(records).Some? && Total(Spend(records)) == Total(records) - 1
    ensures var u := NextReplication(records).value;
            && u in records && 0 < records[u].replication <= bound && Spend(records) == records[u := Spent(records[u])]
            && forall v | v in Spend(records) :: Spend(records)[v].replication <= records[u].replication
  {
    SpendLowersTotal(records);
    TakesMostReplicated(records);
    hide Total, NextReplication;
  }

  lemma {:induction false} NothingPaid(records: Records, bound: nat)
    ensures PaidFor(records, Spending([], [], records)) && CountersWithin([], bound) && NonIncreasing([])
  {
  }

  lemma {:induction false} PaidOneMore(records: Records, u: Uid, rest: Spending)
    requires u in records && records[u].replication > 0 && PaidFor(records[u := Spent(records[u])], rest)
    ensures PaidFor(records, Spending([u] + rest.returned, [records[u].replication] + rest.counters, rest.records))
  {
    var returned := [u] + rest.returned;
    forall v | v in records
      ensures multiset(returned)[v] <= records[v].replication
      ensures rest.records[v] == records[v].(replication := records[v].replication - multiset(returned)[v])
    {
      assert multiset(returned)[v] == multiset(rest.returned)[v] + (if v == u then 1 else 0);
    }
    assert forall v | v in returned :: v == u || v in rest.returned;
  }

  lemma {:induction false} CountersOneMore(rest: seq<nat>, top: nat, bound: nat)
    requires CountersWithin(rest, top) && NonIncreasing(rest) && 0 < top <= bound
    ensures CountersWithin([top] + rest, bound) && NonIncreasing([top] + rest)
  {
  }

  lemma {:induction false} SomeBound(records: Records) returns (bound: nat)
    ensures forall u | u in records :: records[u].replication <= bound
  {
    forall u | u in records ensures Total(records) >= records[u].replication { TotalSplits(records, u); }
    bound := Total(records);
  }

  /** Over the first calls, as many as the counters sum to, each record is returned as often as its counter
      said and the counters before each decrement never rise; afterwards all counters are and stay zero,
      and no field but the counters ever changes. */
  lemma {:induction false} ReplicationSpending(records: Records, n: nat)
    ensures var run := SpendTimes(records, Total(records));
            && |run.returned| == Total(records) && NonIncreasing(run.counters)
            && (forall u | u in records :: multiset(run.returned)[u] == records[u].replication)
            && run.records == (map u | u in records :: records[u].(replication := 0))
            && SpendTimes(run.records, n).records == run.records
  {
    var bound := SomeBound(records);
    SpendingPays(records, Total(records), bound);
    var run := SpendTimes(records, Total(records));
    hide SpendTimes;
    SpendLowersTotal(run.records);
    ZeroStays(run.records, n);
    forall u | u in records ensures multiset(run.returned)[u] == records[u].replication {
      assert run.records[u].replication == 0;
    }
  }

  lemma {:induction false} ZeroStays(records: Records, n: nat)
    requires Total(records) == 0
    ensures SpendTimes(records, n).records == records
    decreases n
  {
    if n > 0 {
      SpendLowersTotal(records);
      ZeroStays(records, n - 1);
    }
  }

  // ---------------------------------------------------------------- expiration

  /** The record that get_expiration offers: the first of its index, if that has expired. */
  function NextExpired(records: Records, now: int): Option<Uid> {
    Iterate(ByExpiry(records), Below(Number(now)), Next, None)
  }

  /** It has the earliest expiry of all, before now. */
  lemma {:induction false} OffersEarliest(records: Records, now: int)
    ensures var u := NextExpired(records, now);
            if u.None? then (forall v | v in records :: records[v].expiry >= now)
            else
              && u.value in records && records[u.value].expiry < now
              && forall v | v in records :: records[u.value].expiry <= records[v].expiry
  {
    var index := ByExpiry(records);
    var s := Ahead(index, Below(Number(now)), Next, None);
    assert forall v | v in records :: v in s <==> records[v].expiry < now;
    if s != {} {
      var u := First(index, Next, s);
      assert IsFirst(index, Next, s, u);
      forall v | v in records ensures records[u].expiry <= records[v].expiry {
        if v in s { assert v == u || Before(index, Next, u, v); }
      }
    }
  }

  /** get_expiration repeated with a processor that answers 0, until nothing is offered. */
  function Sweep(records: Records, now: int): (seq<Uid>, Records)
    decreases |records|
  {
    var u := NextExpired(records, now);
    if u.None? then ([], records) else
    var (swept, left) := Sweep(records - {u.value}, now);
    ([u.value] + swept, left)
  }

  predicate Swept(records: Records, now: int, swept: seq<Uid>, left: Records) {
    && left == (map u | u in records && records[u].expiry >= now :: records[u])
    && (forall u | u in swept :: u in records && records[u].expiry < now)
    && (forall u | u in records && records[u].expiry < now :: u in swept)
    && (forall i, j | 0 <= i < j < |swept| ::
          swept[i] != swept[j] && records[swept[i]].expiry <= records[swept[j]].expiry)
  }

  /** The sweep deletes exactly the expired records, each once and in the order of their expiry. */
  lemma {:induction false} SweepDeletesExpired(records: Records, now: int)
    ensures var (swept, left) := Sweep(records, now); Swept(records, now, swept, left)
    decreases |records|
  {
    OffersEarliest(records, now);
    var u := NextExpired(records, now);
    hide NextExpired;
    if u.Some? {
      SweepDeletesExpired(records - {u.value}, now);
      var (swept, left) := Sweep(records - {u.value}, now);
      SweptOneMore(records, now, u.value, swept, left);
    }
  }

  lemma {:induction false} SweptOneMore(records: Records, now: int, u: Uid, swept: seq<Uid>, left: Records)
    requires u in records && records[u].expiry < now
             && (forall v | v in records :: records[u].expiry <= records[v].expiry)
    requires Swept(records - {u}, now, swept, left)
    ensures Swept(records, now, [u] + swept, left)
  {
    var rest := records - {u};
    assert forall i | 0 <= i < |swept| :: swept[i] in swept && swept[i] in rest;
    assert forall v | v in records && records[v].expiry < now :: v == u || v in swept;
    forall i, j | 0 <= i < j < |swept| + 1
      ensures ([u] + swept)[i] != ([u] + swept)[j]
              && records[([u] + swept)[i]].expiry <= records[([u] + swept)[j]].expiry
    {
      if i > 0 { assert swept[i - 1] != swept[j - 1] && rest[swept[i - 1]].expiry <= rest[swept[j - 1]].expiry; }
    }
  }
}
