/** nested-group-by and flatten-nested-maps of datastructures.cljs, at any depth. */
module DataStructures {
  /** A map nested to some depth. At depth 0 stands what the inner function made of a group. */
  datatype Tree<K, V> = Leaf(items: seq<V>) | Node(children: map<K, Tree<K, V>>)

  /** The items whose key under `f` is `k`, in their order: one entry of `(group-by f coll)`. */
  function Select<T, K(==)>(f: T -> K, k: K, coll: seq<T>): seq<T> {
    if coll == [] then []
    else (if f(coll[0]) == k then [coll[0]] else []) + Select(f, k, coll[1..])
  }

  function GroupBy<T, K(==)>(f: T -> K, coll: seq<T>): (groups: map<K, seq<T>>)
    ensures groups.Keys == set i | 0 <= i < |coll| :: f(coll[i])
    ensures forall k | k in groups :: groups[k] == Select(f, k, coll) && groups[k] != []
  {
    var keys := set i | 0 <= i < |coll| :: f(coll[i]);
    forall k | k in keys ensures Select(f, k, coll) != [] { SelectNonEmpty(f, k, coll); }
    map k | k in keys :: Select(f, k, coll)
  }

  /** `inner` is only ever given the whole collection or one of its groups, and groups are not empty. */
  ghost predicate AcceptsGroups<T(!new), V>(inner: seq<T> --> seq<V>) {
    forall coll: seq<T> | coll != [] :: inner.requires(coll)
  }

  ghost predicate KeepsGroups<T(!new), V>(inner: seq<T> --> seq<V>)
    requires AcceptsGroups(inner)
  {
    forall coll: seq<T> | coll != [] :: inner(coll) != []
  }

  function NestedGroupBy<T(!new), K(==), V>(fs: seq<T -> K>, inner: seq<T> --> seq<V>, coll: seq<T>): Tree<K, V>
    requires AcceptsGroups(inner) && (fs == [] ==> inner.requires(coll))
    decreases |fs|
  {
    if fs == [] then Leaf(inner(coll))
    else
      var groups := GroupBy(fs[0], coll);
      Node(map k | k in groups :: NestedGroupBy(fs[1..], inner, groups[k]))
  }

  /** The order in which maps are walked. The platform leaves it open, and equal maps may be walked
      differently, so it may depend on the place of the map in the tree as well as on its keys. */
  type Order<!K> = (seq<K>, set<K>) -> seq<K>

  ghost predicate Enumerates<K>(ks: seq<K>, s: set<K>) {
    && (forall k | k in ks :: k in s)
    && (forall k | k in s :: k in ks)
    && (forall i, j | 0 <= i < j < |ks| :: ks[i] != ks[j])
  }

  ghost predicate ValidOrder<K(!new)>(order: Order<K>) {
    forall path, s :: Enumerates(order(path, s), s)
  }

  /** Each item labelled with the keys that lead to it: the values of the level keys, outermost first. */
  function FlattenNestedMaps<K(!new, ==), V>(t: Tree<K, V>, order: Order<K>, path: seq<K>): seq<(seq<K>, V)>
    requires ValidOrder(order)
    decreases t, 1, 0
  {
    match t
    case Leaf(items) => LabelAll(path, items)
    case Node(children) =>
      var ks := order(path, children.Keys);
      assert Enumerates(ks, children.Keys);
      FlattenChildren(t, ks, order, path)
  }

  function FlattenChildren<K(!new, ==), V>(t: Tree<K, V>, ks: seq<K>, order: Order<K>, path: seq<K>): seq<(seq<K>, V)>
    requires ValidOrder(order) && t.Node? && forall k | k in ks :: k in t.children
    decreases t, 0, |ks|
  {
    if ks == [] then []
    else FlattenNestedMaps(t.children[ks[0]], order, path + [ks[0]]) + FlattenChildren(t, ks[1..], order, path)
  }

  function LabelAll<K, V>(path: seq<K>, items: seq<V>): seq<(seq<K>, V)> {
    if items == [] then [] else [(path, items[0])] + LabelAll(path, items[1..])
  }

  // ---------------------------------------------------------------- what a tree holds at a path

  function Lookup<K(==), V>(t: Tree<K, V>, path: seq<K>): seq<V> {
    match t
    case Leaf(items) => if path == [] then items else []
    case Node(children) =>
      if path != [] && path[0] in children then Lookup(children[path[0]], path[1..]) else []
  }

  /** The values labelled with `path`, in order. */
  function ValuesAt<K(==), V>(xs: seq<(seq<K>, V)>, path: seq<K>): seq<V> {
    if xs == [] then []
    else (if xs[0].0 == path then [xs[0].1] else []) + ValuesAt(xs[1..], path)
  }

  /** Every branch is `depth` long and no map or collection inside the tree is empty. */
  ghost predicate WellNested<K, V>(t: Tree<K, V>, depth: nat) {
    match t
    case Leaf(_) => depth == 0
    case Node(children) =>
      depth > 0 && forall k | k in children :: NonEmpty(children[k]) && WellNested(children[k], depth - 1)
  }

  predicate NonEmpty<K, V>(t: Tree<K, V>) {
    match t
    case Leaf(items) => items != []
    case Node(children) => children != map[]
  }

  /** The keys of one item, one per key function. */
  function KeysOf<T, K>(fs: seq<T -> K>, x: T): seq<K> {
    if fs == [] then [] else [fs[0](x)] + KeysOf(fs[1..], x)
  }

  /** The items whose keys are `path`, in their order. */
  function Matching<T, K(==)>(fs: seq<T -> K>, path: seq<K>, coll: seq<T>): seq<T> {
    if coll == [] then []
    else (if KeysOf(fs, coll[0]) == path then [coll[0]] else []) + Matching(fs, path, coll[1..])
  }

  /** Each item with its keys, in the order of the collection. */
  function Labelled<T, K>(fs: seq<T -> K>, coll: seq<T>): seq<(seq<K>, T)> {
    if coll == [] then [] else [(KeysOf(fs, coll[0]), coll[0])] + Labelled(fs, coll[1..])
  }

  // ---------------------------------------------------------------- lemmas on selections

  lemma {:induction false} SelectNonEmpty<T, K>(f: T -> K, k: K, coll: seq<T>)
    ensures Select(f, k, coll) != [] <==> exists i :: 0 <= i < |coll| && f(coll[i]) == k
  {
    if coll != [] {
      SelectNonEmpty(f, k, coll[1..]);
      if f(coll[0]) != k && exists i :: 0 <= i < |coll| && f(coll[i]) == k {
        var i :| 0 <= i < |coll| && f(coll[i]) == k;
        assert f(coll[1..][i - 1]) == k;
      }
      if i :| 0 <= i < |coll[1..]| && f(coll[1..][i]) == k {
        assert f(coll[i + 1]) == k;
      }
    }
  }

  lemma {:induction false} MatchingNone<T, K>(path: seq<K>, coll: seq<T>)
    ensures Matching([], path, coll) == if path == [] then coll else []
  {
    if coll != [] {
      MatchingNone(path, coll[1..]);
      assert [coll[0]] + coll[1..] == coll;
    }
  }

  lemma {:induction false} MatchingStep<T, K>(fs: seq<T -> K>, path: seq<K>, coll: seq<T>)
    requires fs != []
    ensures path == [] ==> Matching(fs, path, coll) == []
    ensures path != [] ==> Matching(fs, path, coll) == Matching(fs[1..], path[1..], Select(fs[0], path[0], coll))
  {
    if coll != [] {
      MatchingStep(fs, path, coll[1..]);
      if path != [] {
        var x, sub := coll[0], Select(fs[0], path[0], coll[1..]);
        assert [path[0]] + path[1..] == path;
        if fs[0](x) == path[0] {
          assert ([x] + sub)[1..] == sub;
          if KeysOf(fs[1..], x) != path[1..] {
            assert KeysOf(fs, x)[1..] == KeysOf(fs[1..], x);
          }
        } else {
          assert KeysOf(fs, x)[0] != path[0];
          assert [] + sub == sub;
        }
      }
    }
  }

  lemma {:induction false} MatchingConcat<T, K>(fs: seq<T -> K>, path: seq<K>, xs: seq<T>, ys: seq<T>)
    ensures Matching(fs, path, xs + ys) == Matching(fs, path, xs) + Matching(fs, path, ys)
  {
    if xs == [] {
      assert xs + ys == ys;
    } else {
      MatchingConcat(fs, path, xs[1..], ys);
      assert (xs + ys)[1..] == xs[1..] + ys && (xs + ys)[0] == xs[0];
      var head := if KeysOf(fs, xs[0]) == path then [xs[0]] else [];
      assert head + (Matching(fs, path, xs[1..]) + Matching(fs, path, ys)) ==
             head + Matching(fs, path, xs[1..]) + Matching(fs, path, ys);
    }
  }

  lemma {:induction false} ValuesAtConcat<K, V>(xs: seq<(seq<K>, V)>, ys: seq<(seq<K>, V)>, path: seq<K>)
    ensures ValuesAt(xs + ys, path) == ValuesAt(xs, path) + ValuesAt(ys, path)
  {
    if xs == [] {
      assert xs + ys == ys;
    } else {
      ValuesAtConcat(xs[1..], ys, path);
      assert (xs + ys)[1..] == xs[1..] + ys && (xs + ys)[0] == xs[0];
      var head := if xs[0].0 == path then [xs[0].1] else [];
      assert head + (ValuesAt(xs[1..], path) + ValuesAt(ys, path)) ==
             head + ValuesAt(xs[1..], path) + ValuesAt(ys, path);
    }
  }

  lemma {:induction false} ValuesAtLabelAll<K, V>(path: seq<K>, items: seq<V>, q: seq<K>)
    ensures ValuesAt(LabelAll(path, items), q) == if path == q then items else []
  {
    if items != [] {
      ValuesAtLabelAll(path, items[1..], q);
      var all := LabelAll(path, items);
      assert all[1..] == LabelAll(path, items[1..]);
      assert [items[0]] + items[1..] == items;
    }
  }

  // ---------------------------------------------------------------- flattening is given by lookups

  /** Flattening lists, under each label, exactly the values at that path, in their order, whatever
      order the maps are walked in. */
  lemma {:induction false} FlattenAt<K(!new), V>(t: Tree<K, V>, order: Order<K>, path: seq<K>, q: seq<K>)
    requires ValidOrder(order)
    ensures ValuesAt(FlattenNestedMaps(t, order, path), q) ==
            if path <= q then Lookup(t, q[|path|..]) else []
    decreases t, 1, 0
  {
    match t
    case Leaf(items) => ValuesAtLabelAll(path, items, q);
    case Node(children) =>
      var ks := order(path, children.Keys);
      assert Enumerates(ks, children.Keys);
      FlattenChildrenAt(t, ks, order, path, q);
      if path <= q && |path| < |q| {
        assert q[|path|..][0] == q[|path|] && q[|path|..][1..] == q[|path| + 1..];
      }
  }

  lemma {:induction false} FlattenChildrenAt<K(!new), V>(t: Tree<K, V>, ks: seq<K>, order: Order<K>, path: seq<K>,
          q: seq<K>)
    requires ValidOrder(order) && t.Node? && forall k | k in ks :: k in t.children
    requires forall i, j | 0 <= i < j < |ks| :: ks[i] != ks[j]
    ensures ValuesAt(FlattenChildren(t, ks, order, path), q) ==
            if path < q && q[|path|] in ks then Lookup(t.children[q[|path|]], q[|path| + 1..]) else []
    decreases t, 0, |ks|
  {
    if ks != [] {
      var k := ks[0];
      var head := FlattenNestedMaps(t.children[k], order, path + [k]);
      ValuesAtConcat(head, FlattenChildren(t, ks[1..], order, path), q);
      FlattenAt(t.children[k], order, path + [k], q);
      FlattenChildrenAt(t, ks[1..], order, path, q);
      PrefixStep(path, k, q);
      assert k !in ks[1..];
    }
  }

  lemma {:induction false} PrefixStep<K>(path: seq<K>, k: K, q: seq<K>)
    ensures path + [k] <= q <==> path < q && q[|path|] == k
  {
    if path < q && q[|path|] == k {
      assert q == path + q[|path|..];
    }
  }

  lemma {:induction false} GroupAt<T(!new), K, V>(fs: seq<T -> K>, inner: seq<T> --> seq<V>, coll: seq<T>, path: seq<K>)
    requires AcceptsGroups(inner) && (fs == [] ==> inner.requires(coll))
    ensures var group := Matching(fs, path, coll);
            Lookup(NestedGroupBy(fs, inner, coll), path) ==
            if (fs == [] && path == []) || group != [] then inner(group) else []
    decreases |fs|
  {
    if fs == [] {
      MatchingNone(path, coll);
    } else {
      MatchingStep(fs, path, coll);
      if path != [] {
        SelectNonEmpty(fs[0], path[0], coll);
        var group := Select(fs[0], path[0], coll);
        if group != [] {
          GroupAt(fs[1..], inner, group, path[1..]);
          if fs[1..] == [] { MatchingNone(path[1..], group); }
        }
      }
    }
  }

  lemma {:induction false} GroupWellNested<T(!new), K, V>(fs: seq<T -> K>, inner: seq<T> --> seq<V>, coll: seq<T>)
    requires AcceptsGroups(inner) && (fs == [] ==> inner.requires(coll))
    requires KeepsGroups(inner)
    ensures WellNested(NestedGroupBy(fs, inner, coll), |fs|)
    ensures coll != [] ==> NonEmpty(NestedGroupBy(fs, inner, coll))
    decreases |fs|, 1
  {
    if fs != [] {
      var groups := GroupBy(fs[0], coll);
      var children := NestedGroupBy(fs, inner, coll).children;
      assert children.Keys == groups.Keys;
      forall k | k in children ensures NonEmpty(children[k]) && WellNested(children[k], |fs| - 1) {
        assert children[k] == NestedGroupBy(fs[1..], inner, groups[k]);
        GroupChildWellNested(fs, inner, groups[k]);
      }
      if coll != [] { assert fs[0](coll[0]) in groups; }
    }
  }

  lemma {:induction false} GroupChildWellNested<T(!new), K, V>(fs: seq<T -> K>, inner: seq<T> --> seq<V>, group: seq<T>)
    requires AcceptsGroups(inner) && KeepsGroups(inner) && fs != [] && group != []
    ensures var child := NestedGroupBy(fs[1..], inner, group); WellNested(child, |fs| - 1) && NonEmpty(child)
    decreases |fs|, 0
  {
    assert inner.requires(group);
    hide *;
    GroupWellNested(fs[1..], inner, group);
  }

  /** A tree without empty inner levels is determined by what it holds at each path. */
  lemma {:induction false} SameLookups<K(!new), V>(t: Tree<K, V>, u: Tree<K, V>, depth: nat)
    requires WellNested(t, depth) && WellNested(u, depth)
    requires forall path :: Lookup(t, path) == Lookup(u, path)
    ensures t == u
    decreases depth
  {
    if depth == 0 {
      assert Lookup(t, []) == Lookup(u, []);
    } else {
      SameKeys(t, u, depth);
      SameKeys(u, t, depth);
      forall k | k in t.children ensures t.children[k] == u.children[k] {
        forall path ensures Lookup(t.children[k], path) == Lookup(u.children[k], path) {
          assert ([k] + path)[1..] == path;
          assert Lookup(t, [k] + path) == Lookup(u, [k] + path);
        }
        SameLookups(t.children[k], u.children[k], depth - 1);
      }
      assert t.children == u.children;
    }
  }

  lemma {:induction false} SameKeys<K(!new), V>(t: Tree<K, V>, u: Tree<K, V>, depth: nat)
    requires depth > 0 && WellNested(t, depth) && WellNested(u, depth)
    requires forall path :: Lookup(t, path) == Lookup(u, path)
    ensures t.children.Keys <= u.children.Keys
  {
    forall k | k in t.children ensures k in u.children {
      var path := SomePath(t.children[k], depth - 1);
      assert ([k] + path)[1..] == path;
      assert Lookup(t, [k] + path) == Lookup(u, [k] + path);
    }
  }

  lemma {:induction false} SomePath<K, V>(t: Tree<K, V>, depth: nat) returns (path: seq<K>)
    requires WellNested(t, depth) && NonEmpty(t)
    ensures Lookup(t, path) != []
    decreases depth
  {
    if depth == 0 {
      path := [];
    } else {
      var k :| k in t.children;
      var tail := SomePath(t.children[k], depth - 1);
      path := [k] + tail;
      assert path[1..] == tail;
    }
  }

  // ---------------------------------------------------------------- grouping and flattening undo each other

  function Same<T>(coll: seq<T>): seq<T> { coll }

  /** Flattening a nested grouping returns a permutation of the items, each under its own keys. */
  lemma {:induction false} FlattenOfGroup<T(!new), K(!new)>(fs: seq<T -> K>, coll: seq<T>, order: Order<K>)
    requires ValidOrder(order)
    ensures multiset(FlattenNestedMaps(NestedGroupBy(fs, Same<T>, coll), order, [])) == multiset(Labelled(fs, coll))
  {
    var flat := FlattenNestedMaps(NestedGroupBy(fs, Same<T>, coll), order, []);
    var labelled := Labelled(fs, coll);
    forall x: (seq<K>, T) ensures multiset(flat)[x] == multiset(labelled)[x] {
      CountAt(flat, x.0, x.1);
      CountAt(labelled, x.0, x.1);
      FlattenAt(NestedGroupBy(fs, Same<T>, coll), order, [], x.0);
      assert x.0[0..] == x.0;
      GroupAt(fs, Same<T>, coll, x.0);
      ValuesAtLabelled(fs, coll, x.0);
    }
  }

  lemma {:induction false} ValuesAtLabelled<T, K>(fs: seq<T -> K>, coll: seq<T>, path: seq<K>)
    ensures ValuesAt(Labelled(fs, coll), path) == Matching(fs, path, coll)
  {
    if coll != [] {
      ValuesAtLabelled(fs, coll[1..], path);
      assert Labelled(fs, coll)[1..] == Labelled(fs, coll[1..]);
    }
  }

  lemma {:induction false} CountFirst<T>(x: T, rest: seq<T>, y: T)
    ensures multiset([x] + rest)[y] == multiset(rest)[y] + if x == y then 1 else 0
  {
  }

  lemma {:induction false} CountAt<K, V>(xs: seq<(seq<K>, V)>, path: seq<K>, v: V)
    ensures multiset(xs)[(path, v)] == multiset(ValuesAt(xs, path))[v]
  {
    if xs != [] {
      CountAt(xs[1..], path, v);
      CountFirst(xs[0], xs[1..], (path, v));
      CountFirst(xs[0].1, ValuesAt(xs[1..], path), v);
      assert xs == [xs[0]] + xs[1..];
      assert [] + ValuesAt(xs[1..], path) == ValuesAt(xs[1..], path);
    }
  }

  /** The key functions that read a label, level by level, from `level` on. */
  function LevelKeys<K, V>(level: nat, depth: nat, default: K): (fs: seq<((seq<K>, V)) -> K>)
    ensures |fs| == depth
    decreases depth
  {
    if depth == 0 then []
    else [(x: (seq<K>, V)) => if level < |x.0| then x.0[level] else default] + LevelKeys(level + 1, depth - 1, default)
  }

  function Values<K, V>(xs: seq<(seq<K>, V)>): seq<V> {
    if xs == [] then [] else [xs[0].1] + Values(xs[1..])
  }

  /** Grouping a flattened tree by its labels, and dropping the labels, gives the tree back. */
  lemma {:induction false} GroupOfFlatten<K(!new), V(!new)>(t: Tree<K, V>, depth: nat, order: Order<K>, default: K)
    requires ValidOrder(order) && WellNested(t, depth)
    ensures NestedGroupBy(LevelKeys(0, depth, default), Values<K, V>, FlattenNestedMaps(t, order, [])) == t
  {
    var fs: seq<((seq<K>, V)) -> K> := LevelKeys(0, depth, default);
    var flat := FlattenNestedMaps(t, order, []);
    var u := NestedGroupBy(fs, Values<K, V>, flat);
    GroupWellNested(fs, Values<K, V>, flat);
    FlattenLabels(t, depth, order, []);
    forall path ensures Lookup(u, path) == Lookup(t, path) {
      GroupAt(fs, Values<K, V>, flat, path);
      MatchingLabels(fs, flat, depth, default, path);
      FlattenAt(t, order, [], path);
      assert path[0..] == path;
    }
    SameLookups(u, t, depth);
  }

  lemma {:induction false} FlattenLabels<K(!new), V>(t: Tree<K, V>, depth: nat, order: Order<K>, path: seq<K>)
    requires ValidOrder(order) && WellNested(t, depth)
    ensures forall x | x in FlattenNestedMaps(t, order, path) :: |x.0| == |path| + depth
    decreases t, 1, 0
  {
    match t
    case Leaf(items) => LabelAllLabels(path, items);
    case Node(children) =>
      var ks := order(path, children.Keys);
      assert Enumerates(ks, children.Keys);
      FlattenChildrenLabels(t, ks, depth, order, path);
  }

  lemma {:induction false} LabelAllLabels<K, V>(path: seq<K>, items: seq<V>)
    ensures forall x | x in LabelAll(path, items) :: x.0 == path
  {
    if items != [] { LabelAllLabels(path, items[1..]); }
  }

  lemma {:induction false} FlattenChildrenLabels<K(!new), V>(t: Tree<K, V>, ks: seq<K>, depth: nat, order: Order<K>,
          path: seq<K>)
    requires ValidOrder(order) && t.Node? && WellNested(t, depth) && forall k | k in ks :: k in t.children
    ensures forall x | x in FlattenChildren(t, ks, order, path) :: |x.0| == |path| + depth
    decreases t, 0, |ks|
  {
    if ks != [] {
      FlattenLabels(t.children[ks[0]], depth - 1, order, path + [ks[0]]);
      FlattenChildrenLabels(t, ks[1..], depth, order, path);
    }
  }

  lemma {:induction false} LevelKeysRead<K, V>(level: nat, depth: nat, default: K, x: (seq<K>, V))
    requires |x.0| == level + depth
    ensures KeysOf(LevelKeys(level, depth, default), x) == x.0[level..]
    decreases depth
  {
    if depth > 0 {
      LevelKeysRead(level + 1, depth - 1, default, x);
      assert x.0[level..] == [x.0[level]] + x.0[level + 1..];
      var fs: seq<((seq<K>, V)) -> K> := LevelKeys(level, depth, default);
      assert fs[1..] == LevelKeys(level + 1, depth - 1, default);
    }
  }

  lemma {:induction false} MatchingLabels<K, V>(fs: seq<((seq<K>, V)) -> K>, xs: seq<(seq<K>, V)>, depth: nat,
          default: K, path: seq<K>)
    requires fs == LevelKeys(0, depth, default) && forall x | x in xs :: |x.0| == depth
    ensures Values(Matching(fs, path, xs)) == ValuesAt(xs, path)
    ensures Matching(fs, path, xs) == [] <==> ValuesAt(xs, path) == []
  {
    if xs != [] {
      MatchingLabels(fs, xs[1..], depth, default, path);
      LevelKeysRead(0, depth, default, xs[0]);
      hide KeysOf, LevelKeys;
      var x, rest := xs[0], Matching(fs, path, xs[1..]);
      assert KeysOf(fs, x) == x.0;
      if x.0 == path {
        assert Matching(fs, path, xs) == [x] + rest && ([x] + rest)[1..] == rest;
      } else {
        assert Matching(fs, path, xs) == [] + rest == rest;
        assert ValuesAt(xs, path) == [] + ValuesAt(xs[1..], path) == ValuesAt(xs[1..], path);
      }
    }
  }
}
