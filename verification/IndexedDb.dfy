/** The part of Indexed Database API 2.0 that the datastore relies on: keys and their order (section 2.4), key
    ranges (section 2.9) and cursors over an index (section 2.10). */
module IndexedDb {
  import opened Wrappers

  /** Dates, strings and binary keys do not occur. */
  datatype Key = Number(value: int) | Array(elements: seq<Key>)

  function Compare(a: Key, b: Key): int
    decreases a
  {
    if a.Array? && b.Number? then 1
    else if a.Number? && b.Array? then -1
    else if a.Number? then (if a.value > b.value then 1 else if a.value < b.value then -1 else 0)
    else CompareElements(a.elements, b.elements)
  }

  /** The first difference decides; without one, the longer array is the greater. */
  function CompareElements(a: seq<Key>, b: seq<Key>): int
    decreases a
  {
    if a == [] && b == [] then 0
    else if b == [] then 1
    else if a == [] then -1
    else if Compare(a[0], b[0]) != 0 then Compare(a[0], b[0])
    else CompareElements(a[1..], b[1..])
  }

  // ---------------------------------------------------------------- the order of keys is total

  lemma {:induction false} CompareIsEquality(a: Key, b: Key)
    ensures Compare(a, b) == 0 <==> a == b
    decreases a
  {
    if a.Array? && b.Array? { ElementsEqual(a.elements, b.elements); }
  }

  lemma {:induction false} ElementsEqual(a: seq<Key>, b: seq<Key>)
    ensures CompareElements(a, b) == 0 <==> a == b
    decreases a
  {
    if a != [] && b != [] {
      CompareIsEquality(a[0], b[0]);
      ElementsEqual(a[1..], b[1..]);
      assert a == [a[0]] + a[1..] && b == [b[0]] + b[1..];
    }
  }

  lemma {:induction false} CompareIsAntisymmetric(a: Key, b: Key)
    ensures Compare(a, b) == -Compare(b, a) && -1 <= Compare(a, b) <= 1
    decreases a
  {
    if a.Array? && b.Array? { ElementsAntisymmetric(a.elements, b.elements); }
  }

  lemma {:induction false} ElementsAntisymmetric(a: seq<Key>, b: seq<Key>)
    ensures CompareElements(a, b) == -CompareElements(b, a) && -1 <= CompareElements(a, b) <= 1
    decreases a
  {
    if a != [] && b != [] {
      CompareIsAntisymmetric(a[0], b[0]);
      ElementsAntisymmetric(a[1..], b[1..]);
    }
  }

  lemma {:induction false} CompareIsTransitive(a: Key, b: Key, c: Key)
    requires Compare(a, b) <= 0 && Compare(b, c) <= 0
    ensures Compare(a, c) <= 0 && (Compare(a, c) == 0 ==> a == b && b == c)
    decreases a
  {
    CompareIsEquality(a, c);
    if a.Array? && b.Array? && c.Array? { ElementsTransitive(a.elements, b.elements, c.elements); }
  }

  lemma {:induction false} ElementsTransitive(a: seq<Key>, b: seq<Key>, c: seq<Key>)
    requires CompareElements(a, b) <= 0 && CompareElements(b, c) <= 0
    ensures CompareElements(a, c) <= 0 && (CompareElements(a, c) == 0 ==> a == b && b == c)
    decreases a
  {
    if a != [] && b != [] && c != [] {
      CompareIsTransitive(a[0], b[0], c[0]);
      CompareIsEquality(a[0], b[0]);
      CompareIsEquality(b[0], c[0]);
      CompareIsEquality(a[0], c[0]);
      if a[0] == b[0] == c[0] { ElementsTransitive(a[1..], b[1..], c[1..]); }
      assert a == [a[0]] + a[1..] && b == [b[0]] + b[1..] && c == [c[0]] + c[1..];
    }
  }

  // ---------------------------------------------------------------- ranges and cursors

  datatype Range = All | Bound(lower: Key, upper: Key) | Below(upper: Key)

  predicate InRange(range: Range, key: Key) {
    match range
    case All => true
    case Bound(lower, upper) => Compare(lower, key) <= 0 && Compare(key, upper) <= 0
    case Below(upper) => Compare(key, upper) < 0
  }

  datatype Direction = Next | Prev

  /** The list of an index: its key for each primary key. */
  type Index = map<nat, Key>

  /** An index lists its records by key, and those with one key by primary key. */
  predicate Before(index: Index, dir: Direction, u: nat, v: nat)
    requires u in index && v in index
  {
    var order := Compare(index[u], index[v]);
    if dir == Next then order < 0 || (order == 0 && u < v) else order > 0 || (order == 0 && u > v)
  }

  lemma {:induction false} BeforeIsTotal(index: Index, dir: Direction, u: nat, v: nat)
    requires u in index && v in index
    ensures Before(index, dir, u, v) || Before(index, dir, v, u) || u == v
    ensures !(Before(index, dir, u, v) && Before(index, dir, v, u)) && !Before(index, dir, u, u)
  {
    CompareIsAntisymmetric(index[u], index[v]);
    CompareIsAntisymmetric(index[u], index[u]);
  }

  lemma {:induction false} BeforeIsTransitive(index: Index, dir: Direction, u: nat, v: nat, w: nat)
    requires u in index && v in index && w in index && Before(index, dir, u, v) && Before(index, dir, v, w)
    ensures Before(index, dir, u, w)
  {
    var a, b, c := index[u], index[v], index[w];
    CompareIsEquality(a, c);
    if dir == Next {
      CompareIsTransitive(a, b, c);
    } else {
      CompareIsAntisymmetric(a, b);
      CompareIsAntisymmetric(b, c);
      CompareIsAntisymmetric(a, c);
      CompareIsTransitive(c, b, a);
    }
  }

  /** The records of a range that a cursor has not passed; it stands on `after`. */
  function Ahead(index: Index, range: Range, dir: Direction, after: Option<nat>): (s: set<nat>)
    requires after.Some? ==> after.value in index
  {
    set u | u in index && InRange(range, index[u]) && (after.Some? ==> Before(index, dir, after.value, u))
  }

  predicate IsFirst(index: Index, dir: Direction, s: set<nat>, u: nat)
    requires s <= index.Keys
  {
    u in s && forall v | v in s :: v == u || Before(index, dir, u, v)
  }

  lemma {:induction false} EarlierIsFirst(index: Index, dir: Direction, s: set<nat>, u: nat, v: nat)
    requires s <= index.Keys && v in s && IsFirst(index, dir, s - {v}, u) && Before(index, dir, v, u)
    ensures IsFirst(index, dir, s, v)
  {
    forall w: nat | w in s && w != v && w != u ensures Before(index, dir, v, w) {
      assert w in s - {v};
      BeforeIsTransitive(index, dir, v, u, w);
    }
  }

  lemma {:induction false} FirstExists(index: Index, dir: Direction, s: set<nat>)
    requires s != {} && s <= index.Keys
    ensures exists u :: IsFirst(index, dir, s, u)
    decreases |s|
  {
    var v :| v in s;
    var rest := s - {v};
    assert forall w | w in s :: w == v || w in rest;
    if rest == {} {
      assert IsFirst(index, dir, s, v);
    } else {
      FirstExists(index, dir, rest);
      var u :| IsFirst(index, dir, rest, u);
      BeforeIsTotal(index, dir, u, v);
      if Before(index, dir, v, u) {
        EarlierIsFirst(index, dir, s, u, v);
      } else {
        assert IsFirst(index, dir, s, u);
      }
    }
  }

  lemma {:induction false} FirstIsUnique(index: Index, dir: Direction, s: set<nat>, u: nat, v: nat)
    requires s <= index.Keys && IsFirst(index, dir, s, u) && IsFirst(index, dir, s, v)
    ensures u == v
  {
    BeforeIsTotal(index, dir, u, v);
  }

  function First(index: Index, dir: Direction, s: set<nat>): (u: nat)
    requires s != {} && s <= index.Keys
    ensures IsFirst(index, dir, s, u)
  {
    FirstExists(index, dir, s);
    assert forall u, v | IsFirst(index, dir, s, u) && IsFirst(index, dir, s, v) :: u == v by {
      forall u, v | IsFirst(index, dir, s, u) && IsFirst(index, dir, s, v) ensures u == v {
        FirstIsUnique(index, dir, s, u, v);
      }
    }
    var u :| IsFirst(index, dir, s, u);
    u
  }

  /** Where a cursor stands after it is opened (`after` is None) or continued from `after`; None at the end. */
  function Iterate(index: Index, range: Range, dir: Direction, after: Option<nat>): (position: Option<nat>)
    requires after.Some? ==> after.value in index
  {
    var s := Ahead(index, range, dir, after);
    if s == {} then None else Some(First(index, dir, s))
  }
}
