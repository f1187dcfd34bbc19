/**
 * A run that merges below a full parent, for every degree: keys inserted in descending order
 * leave leaves as small as they may be under a root that fills up, and removing the greatest
 * key then merges the last two of them.
 */
module FullRoots {
  import opened Basics
  import opened Entries
  import opened Shapes
  import opened BTrees
  import opened Skeletons
  import opened FullParents

  ghost function Leaf<K, V>(es: seq<Entry<K, V>>): Bare<K, V> {
    Bare(es, Nothings(|es| + 1))
  }

  ghost function Nothings<K, V>(n: nat): (r: seq<Bare<K, V>>)
    ensures |r| == n && forall i :: 0 <= i < n ==> r[i] == Nothing
  {
    seq(n, _ => Nothing)
  }

  lemma LeafParts<K, V>(es: seq<Entry<K, V>>, e: Entry<K, V>, m: nat)
    requires m < |es|
    ensures InsertAt(Leaf(es).kids, 1, Nothing) == Leaf([e] + es).kids
    ensures Leaf(es).kids[..m + 1] == Leaf(es[..m]).kids && Leaf(es).kids[m + 1..] == Leaf(es[m + 1..]).kids
  {
  }

  lemma LowSlot<V>(cmp: (int, int) -> int, es: seq<Entry<int, V>>, key: int)
    requires TotalOrder(cmp) && es != [] && Less(cmp, key, es[0].key)
    ensures Slot(cmp, es, key) == 0 && es[0].key != key
  {
    assert OrderAt(cmp, key, es[0].key, key) && OrderAt(cmp, es[0].key, key, key);
  }

  /** A new least key in a tree of one leaf. */
  lemma LowLeaf<V>(cmp: (int, int) -> int, es: seq<Entry<int, V>>, e: Entry<int, V>, b: nat)
    requires TotalOrder(cmp) && b > 1 && 0 < |es| < 2 * b && Less(cmp, e.key, es[0].key) && Formed(Leaf(es))
    ensures var ks := [e] + es;
      InsertBare(cmp, Leaf(es), e, b) ==
      if |ks| < 2 * b then Leaf(ks) else Bare([ks[b]], [Leaf(ks[..b]), Leaf(ks[b + 1..])])
  {
    var ks := [e] + es;
    LowSlot(cmp, es, e.key);
    LeafParts(es, e, 0);
    assert InsertAt(es, 0, e) == ks;
    if |ks| == 2 * b {
      LeafParts(ks, e, b);
    }
  }

  /** The search for a new least key ends in the first leaf. */
  lemma LowFound<V>(cmp: (int, int) -> int, rents: seq<Entry<int, V>>, es: seq<Entry<int, V>>, rest: seq<Bare<int, V>>, key: int)
    requires TotalOrder(cmp) && es != [] && Less(cmp, key, es[0].key) && |rents| == |rest|
    requires rents != [] && Less(cmp, key, rents[0].key) && Formed(Bare(rents, [Leaf(es)] + rest))
    ensures Locate(cmp, Whole, Bare(rents, [Leaf(es)] + rest), key) == Spot(Around(Whole, [], [], rents, rest), Leaf(es), -1)
  {
    var w := Bare(rents, [Leaf(es)] + rest);
    LowSlot(cmp, es, key);
    LowSlot(cmp, rents, key);
    var a := Enter(Whole, w, 0);
    assert a == Around(Whole, [], [], rents, rest) && w.kids[0] == Leaf(es);
    assert Locate(cmp, a, Leaf(es), key) == Spot(a, Leaf(es), -1);
  }

  /** A new least key in a tree of a root above leaves. */
  lemma LowTwo<V>(cmp: (int, int) -> int, rents: seq<Entry<int, V>>, es: seq<Entry<int, V>>, rest: seq<Bare<int, V>>, e: Entry<int, V>, b: nat)
    requires TotalOrder(cmp) && b > 1 && 0 < |es| < 2 * b && Less(cmp, e.key, es[0].key)
    requires 0 < |rents| == |rest| < 2 * b - 1 && Less(cmp, e.key, rents[0].key) && Formed(Bare(rents, [Leaf(es)] + rest))
    ensures var ks := [e] + es;
      InsertBare(cmp, Bare(rents, [Leaf(es)] + rest), e, b) ==
      if |ks| < 2 * b then Bare(rents, [Leaf(ks)] + rest)
      else Bare([ks[b]] + rents, [Leaf(ks[..b]), Leaf(ks[b + 1..])] + rest)
  {
    hide Locate;
    var ks, w := [e] + es, Bare(rents, [Leaf(es)] + rest);
    var a := Around(Whole, [], [], rents, rest);
    LowFound(cmp, rents, es, rest, e.key);
    LeafParts(es, e, 0);
    assert InsertAt(es, 0, e) == ks;
    if |ks| == 2 * b {
      LeafParts(ks, e, b);
      var lower, upper := Leaf(ks[..b]), Leaf(ks[b + 1..]);
      var n := Bare(rents, [lower] + rest);
      assert FillBare(a, lower) == n;
      assert InsertAt(rents, 0, ks[b]) == [ks[b]] + rents && InsertAt([lower] + rest, 1, upper) == [lower, upper] + rest;
      assert Raised(a, Leaf(es), Nothing, e, 0, b) == Raised(Whole, n, upper, ks[b], 0, b);
    } else {
      assert FillBare(a, Leaf(ks)) == Bare(rents, [Leaf(ks)] + rest);
      assert PlugBare(a, Leaf(ks)) == PlugBare(Whole, FillBare(a, Leaf(ks)));
    }
  }

  /* ---- descending keys ---- */

  function Minus(x: int, y: int): int {
    x - y
  }

  lemma MinusOrders()
    ensures TotalOrder(Minus)
  {
    forall a: int, b: int, c: int ensures OrderAt(Minus, a, b, c) {}
  }

  ghost predicate Consecutive<V>(es: seq<Entry<int, V>>, first: int) {
    forall j :: 0 <= j < |es| ==> es[j].key == first + j
  }

  /** The tree after inserting 0, -1, .., 1 - i while the root is a leaf. */
  ghost predicate Early<V>(w: Bare<int, V>, i: int, b: nat, es: seq<Entry<int, V>>) {
    |es| == i < 2 * b && Consecutive(es, 1 - i) && w == if i == 0 then Nothing else Leaf(es)
  }

  /** The tree after that: only the first leaf has more keys than it must. */
  ghost predicate Late<V>(w: Bare<int, V>, i: int, b: nat, es: seq<Entry<int, V>>, rents: seq<Entry<int, V>>, rest: seq<Bare<int, V>>) {
    && b <= |es| < 2 * b && |rents| == |rest| > 0 && w == Bare(rents, [Leaf(es)] + rest)
    && i == b * |rents| + |es| && Consecutive(es, 1 - i)
    && (forall j :: 0 <= j < |rents| ==> -i < rents[j].key < 0)
    && (forall j :: 0 <= j < |rest| ==> rest[j].Bare? && |rest[j].ents| == b - 1)
    && Greatest(rest[|rest| - 1], b)
  }

  ghost predicate Greatest<V>(n: Bare<int, V>, b: nat) {
    n.Bare? && n == Leaf(n.ents) && |n.ents| == b - 1 && Consecutive(n.ents, 2 - b)
  }

  lemma FirstAbove<V>(es: seq<Entry<int, V>>, i: int, e: Entry<int, V>)
    requires es != [] && Consecutive(es, 1 - i) && e.key == -i
    ensures Less(Minus, e.key, es[0].key)
  {
  }

  lemma Smallest<V>(z: seq<Entry<int, V>>, b: nat)
    requires |z| == b - 1 && Consecutive(z, 2 - b)
    ensures Greatest(Leaf(z), b)
  {
  }

  /** One more key while the root has a free slot. */
  lemma EarlyMore<V>(w: Bare<int, V>, i: int, b: nat, es: seq<Entry<int, V>>, e: Entry<int, V>)
    requires b > 1 && Formed(w) && Early(w, i, b, es) && i + 1 < 2 * b && e.key == -i
    ensures Early(InsertBare(Minus, w, e, b), i + 1, b, [e] + es)
  {
    MinusOrders();
    if i > 0 {
      LowLeaf(Minus, es, e, b);
    } else {
      assert Leaf([e]).kids == [Nothing, Nothing];
      assert [e] + es == [e];
    }
  }

  /** The row of keys cut where a full leaf splits. */
  lemma SplitKeys<V>(ks: seq<Entry<int, V>>, first: int, b: nat)
    requires |ks| == 2 * b && b > 1 && Consecutive(ks, first) && first + 2 * b <= 1
    ensures Consecutive(ks[..b], first) && Consecutive(ks[b + 1..], first + b + 1) && first <= ks[b].key < 0
  {
  }

  lemma MoreKeys<V>(es: seq<Entry<int, V>>, e: Entry<int, V>, first: int)
    requires Consecutive(es, first) && e.key == first - 1
    ensures Consecutive([e] + es, first - 1)
  {
  }

  /** The first split. */
  lemma EarlySplit<V>(w: Bare<int, V>, i: int, b: nat, es: seq<Entry<int, V>>, e: Entry<int, V>)
    requires b > 1 && Formed(w) && Early(w, i, b, es) && i + 1 == 2 * b && e.key == -i
    ensures var ks := [e] + es;
      Late(InsertBare(Minus, w, e, b), i + 1, b, ks[..b], [ks[b]], [Leaf(ks[b + 1..])])
  {
    hide Consecutive, TotalOrder, InsertBare, Formed;
    MinusOrders();
    FirstAbove(es, i, e);
    LowLeaf(Minus, es, e, b);
    var ks := [e] + es;
    MoreKeys(es, e, 1 - i);
    SplitKeys(ks, -i, b);
    Smallest(ks[b + 1..], b);
    assert [Leaf(ks[..b]), Leaf(ks[b + 1..])] == [Leaf(ks[..b])] + [Leaf(ks[b + 1..])];
  }

  lemma Times(b: nat, x: int, y: int)
    requires x <= y
    ensures b * x <= b * y
  {
    assert b * y - b * x == b * (y - x);
  }

  /** The root has a free slot until 2b * b keys are in, and then it has none. */
  lemma RootHasRoom(i: int, b: nat, m: int, k: int)
    requires b > 1 && i == b * m + k && b <= k < 2 * b
    ensures i < 2 * (b * b) ==> m < 2 * b - 1
    ensures i == 2 * (b * b) ==> m == 2 * b - 1
  {
    var q, p := b * b, b * m;
    assert b * (2 * b) == 2 * q && b * (2 * b - 1) == 2 * q - b && b * (m + 2) == p + 2 * b;
    if m >= 2 * b {
      Times(b, 2 * b, m);
    } else if m == 2 * b - 1 {
      assert p == 2 * q - b;
    } else {
      Times(b, m + 2, 2 * b);
    }
  }

  lemma LateMore<V>(w: Bare<int, V>, i: int, b: nat, es: seq<Entry<int, V>>, rents: seq<Entry<int, V>>, rest: seq<Bare<int, V>>, e: Entry<int, V>)
    requires b > 1 && Formed(w) && Late(w, i, b, es, rents, rest) && i < 2 * (b * b) && |es| + 1 < 2 * b && e.key == -i
    ensures Late(InsertBare(Minus, w, e, b), i + 1, b, [e] + es, rents, rest)
  {
    MinusOrders();
    RootHasRoom(i, b, |rents|, |es|);
    LowTwo(Minus, rents, es, rest, e, b);
  }

  /** The leaf split off joins leaves of the same size in front of the last. */
  lemma RestMore<V>(rest: seq<Bare<int, V>>, z: seq<Entry<int, V>>, b: nat)
    requires rest != [] && |z| == b - 1 && forall j :: 0 <= j < |rest| ==> rest[j].Bare? && |rest[j].ents| == b - 1
    ensures forall j :: 0 <= j < |rest| + 1 ==> ([Leaf(z)] + rest)[j].Bare? && |([Leaf(z)] + rest)[j].ents| == b - 1
    ensures ([Leaf(z)] + rest)[|rest|] == rest[|rest| - 1]
  {
  }

  lemma LateSplit<V>(w: Bare<int, V>, i: int, b: nat, es: seq<Entry<int, V>>, rents: seq<Entry<int, V>>, rest: seq<Bare<int, V>>, e: Entry<int, V>)
    requires b > 1 && Formed(w) && Late(w, i, b, es, rents, rest) && i < 2 * (b * b) && |es| + 1 == 2 * b && e.key == -i
    ensures var ks := [e] + es;
      Late(InsertBare(Minus, w, e, b), i + 1, b, ks[..b], [ks[b]] + rents, [Leaf(ks[b + 1..])] + rest)
  {
    hide Consecutive, TotalOrder, InsertBare, Formed, Greatest, Leaf;
    MinusOrders();
    RootHasRoom(i, b, |rents|, |es|);
    FirstAbove(es, i, e);
    LowTwo(Minus, rents, es, rest, e, b);
    var ks := [e] + es;
    MoreKeys(es, e, 1 - i);
    SplitKeys(ks, -i, b);
    assert [Leaf(ks[..b]), Leaf(ks[b + 1..])] + rest == [Leaf(ks[..b])] + ([Leaf(ks[b + 1..])] + rest);
    Distribute(|rents| + 1, b);
    RestMore(rest, ks[b + 1..], b);
  }

  /** Removing the greatest key of the tree reached merges below a full root. */
  lemma LateMerges<V>(w: Bare<int, V>, b: nat, es: seq<Entry<int, V>>, rents: seq<Entry<int, V>>, rest: seq<Bare<int, V>>)
    requires b > 1 && Formed(w) && Late(w, 2 * (b * b), b, es, rents, rest)
    ensures MergesFull(Minus, w, 0, b)
  {
    MinusOrders();
    var m := |rents|;
    RootHasRoom(2 * (b * b), b, m, |es|);
    var a, z := Enter(Whole, w, m), w.kids[m];
    assert z == rest[m - 1] && a.left[m - 1] == w.kids[m - 1] == rest[m - 2];
    SlotIs(Minus, rents, 0, m);
    SlotIs(Minus, z.ents, 0, b - 2);
    assert z.kids[0] == Nothing && z.kids[b - 2] == Nothing;
    assert Locate(Minus, a, z, 0) == Spot(a, z, b - 2);
    assert Overruns(a, b - 2, b);
  }

  ghost predicate Stage<V>(w: Bare<int, V>, i: int, b: nat, es: seq<Entry<int, V>>, rents: seq<Entry<int, V>>, rest: seq<Bare<int, V>>) {
    if i < 2 * b then Early(w, i, b, es) else Late(w, i, b, es, rents, rest)
  }

  lemma NextStage<V>(w: Bare<int, V>, i: int, b: nat, es: seq<Entry<int, V>>, rents: seq<Entry<int, V>>, rest: seq<Bare<int, V>>,
      e: Entry<int, V>, w2: Bare<int, V>)
    returns (es2: seq<Entry<int, V>>, rents2: seq<Entry<int, V>>, rest2: seq<Bare<int, V>>)
    requires b > 1 && Formed(w) && Stage(w, i, b, es, rents, rest) && 0 <= i < 2 * (b * b) && e.key == -i
    requires w2 == InsertBare(Minus, w, e, b)
    ensures Stage(w2, i + 1, b, es2, rents2, rest2)
  {
    hide Early, Late, Formed, InsertBare, Leaf;
    EarlySize(w, i, b, es, rents, rest);
    var ks := [e] + es;
    es2, rents2, rest2 := ks, rents, rest;
    if i + 1 < 2 * b {
      EarlyMore(w, i, b, es, e);
    } else if i + 1 == 2 * b {
      EarlySplit(w, i, b, es, e);
      es2, rents2, rest2 := ks[..b], [ks[b]], [Leaf(ks[b + 1..])];
    } else if |ks| < 2 * b {
      LateMore(w, i, b, es, rents, rest, e);
    } else {
      LateSplit(w, i, b, es, rents, rest, e);
      es2, rents2, rest2 := ks[..b], [ks[b]] + rents, [Leaf(ks[b + 1..])] + rest;
    }
  }

  lemma EarlySize<V>(w: Bare<int, V>, i: int, b: nat, es: seq<Entry<int, V>>, rents: seq<Entry<int, V>>, rest: seq<Bare<int, V>>)
    requires Stage(w, i, b, es, rents, rest)
    ensures if i < 2 * b then |es| == i else b <= |es| < 2 * b
  {
  }

  lemma LastStage<V>(w: Bare<int, V>, b: nat, es: seq<Entry<int, V>>, rents: seq<Entry<int, V>>, rest: seq<Bare<int, V>>)
    requires b > 1 && Formed(w) && Stage(w, 2 * (b * b), b, es, rents, rest)
    ensures MergesFull(Minus, w, 0, b)
  {
    Times(b, 1, b);
    LateMerges(w, b, es, rents, rest);
  }

  /** The keys 0, -1, .., 1 - i, each with value `v`. */
  ghost function Stored<V>(i: int, v: V): (m: map<int, V>)
    ensures forall k :: k in m <==> -i < k <= 0
    ensures forall k :: k in m ==> m[k] == v
    decreases i
  {
    if i <= 0 then map[] else Stored(i - 1, v)[1 - i := v]
  }

  lemma StageNone<V(0)>(s: Tree<int, V>, b: nat, v: V)
    requires b > 1 && Objs(s) == {}
    ensures Formed(Strip(s)) && Stage(Strip(s), 0, b, [], [], []) && map[] == Stored(0, v)
  {
    assert s.Tree? ==> s.ref in Own(s.ref);
  }

  /** Inserts the next key below all stored ones. */
  method InsertNext<V(0)>(tree: BTree<int, V>, i: int, v: V,
      ghost es: seq<Entry<int, V>>, ghost rents: seq<Entry<int, V>>, ghost rest: seq<Bare<int, V>>)
    returns (ghost added: set<object>, ghost es2: seq<Entry<int, V>>, ghost rents2: seq<Entry<int, V>>, ghost rest2: seq<Bare<int, V>>)
    requires tree.Valid() && tree.cmp == Minus && 0 <= i < 2 * (tree.t * tree.t) && tree.Map() == Stored(i, v)
    requires Formed(Strip(tree.shape)) && Stage(Strip(tree.shape), i, tree.t, es, rents, rest)
    modifies tree, Objs(tree.shape)
    ensures tree.Valid() && fresh(added) && Objs(tree.shape) <= old(Objs(tree.shape)) + added && tree.Map() == Stored(i + 1, v)
    ensures Formed(Strip(tree.shape)) && Stage(Strip(tree.shape), i + 1, tree.t, es2, rents2, rest2)
  {
    hide Objs, Flat, Rep, Sep, Sorted, TotalOrder, Stage, Formed, Strip, InsertBare;
    ghost var was := Strip(tree.shape);
    var _ := tree.InsertInner(Entry(-i, v), false);
    added := Objs(tree.shape) - old(Objs(tree.shape));
    StripFormed(tree.shape, tree.height, 1, tree.t);
    es2, rents2, rest2 := NextStage(was, i, tree.t, es, rents, rest, Entry(-i, v), Strip(tree.shape));
  }

  /**
   * Whatever the degree, 2t * t insertions in descending order and the removal of the greatest
   * key merge below a root with 2t - 1 keys.
   */
  method MergeBelowFullRoot<V(0)>(t: nat, v: V) returns (tree: BTree<int, V>, r: Option<V>, ghost overran: bool)
    requires t > 1
    ensures overran && r == Some(v) && fresh(tree) && tree.Valid() && tree.t == t && tree.Map() == Stored(2 * (t * t), v) - {0}
  {
    hide Objs, Flat, Rep, Sep, Balanced, Sorted, TotalOrder, Stage, Formed, Strip, MergesFull, InsertBare;
    MinusOrders();
    tree := new BTree(t, Minus);
    ghost var added, es, rents, rest, grown := {}, [], [], [], {};
    var i := 0;
    StageNone(tree.shape, t, v);
    while i < 2 * (t * t)
      invariant 0 <= i <= 2 * (t * t) && tree.Valid() && tree.t == t && tree.cmp == Minus && tree.Map() == Stored(i, v)
      invariant fresh(tree) && fresh(grown) && Objs(tree.shape) <= grown
      invariant Formed(Strip(tree.shape)) && Stage(Strip(tree.shape), i, t, es, rents, rest)
    {
      added, es, rents, rest := InsertNext(tree, i, v, es, rents, rest);
      grown := grown + added;
      assert fresh(grown);
      i := i + 1;
    }
    LastStage(Strip(tree.shape), t, es, rents, rest);
    r, overran := tree.Dispose(0);
  }
}
