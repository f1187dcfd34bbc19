/** Reducing the removal of an inner key to that of the greatest key of its left subtree. */
module Predecessor {
  import opened Basics
  import opened Entries
  import opened Shapes
  import opened Search
  import opened Surgery
  import opened Thinning

  /** The context `chain`, continued above its top by `base`. */
  ghost function Graft<K(0, !new), V(0)>(chain: Context<K, V>, base: Context<K, V>): Context<K, V> {
    match chain
    case Top => base
    case Hole(up, ref, left, lents, rents, right) => Hole(Graft(up, base), ref, left, lents, rents, right)
  }

  lemma {:induction false} PlugGraft<K(0, !new), V(0)>(chain: Context<K, V>, base: Context<K, V>, s: Tree<K, V>)
    ensures Plug(Graft(chain, base), s) == Plug(base, Plug(chain, s))
  {
    if chain.Hole? {
      PlugGraft(chain.up, base, Fill(chain, s));
    }
  }

  lemma {:induction false} AroundGraft<K(0, !new), V(0)>(chain: Context<K, V>, base: Context<K, V>)
    ensures Before(Graft(chain, base)) == Before(base) + Before(chain)
    ensures After(Graft(chain, base)) == After(chain) + After(base)
  {
    hide Flat, FlatLeft, FlatRight;
    if chain.Hole? {
      AroundGraft(chain.up, base);
      var l, r := FlatLeft(chain.left, chain.lents), FlatRight(chain.rents, chain.right);
      Assoc(Before(base), Before(chain.up), l);
      Assoc(r, After(chain.up), After(base));
    }
  }

  lemma {:induction false} BalancedGraft<K(0, !new), V(0)>(chain: Context<K, V>, base: Context<K, V>, other: Context<K, V>, h: nat, b: nat)
    requires BalancedContext(Graft(chain, base), h, b) && base.Hole? && other.Hole?
    requires BalancedContext(other, h + Depth(chain), b)
    ensures BalancedContext(Graft(chain, other), h, b)
  {
    if chain.Hole? {
      BalancedGraft(chain.up, base, other, h + 1, b);
    }
  }

  lemma {:induction false} TrailGraft<K(0, !new), V(0)>(path: seq<Step<K, V>>, chain: Context<K, V>, base: Context<K, V>, other: Context<K, V>)
    requires Trail(path, Graft(chain, base)) && base.Hole? && other.Hole?
    requires other.ref == base.ref && |other.left| == |base.left| && other.up == base.up
    ensures Trail(path, Graft(chain, other))
  {
    if chain.Hole? {
      TrailGraft(path[..|path| - 1], chain.up, base, other);
    }
  }

  /** The walk along last subtrees has come to `s`, of height `h`, below `base`. */
  ghost predicate Walking<K(0, !new), V(0)>(shape: Tree<K, V>, base: Context<K, V>, k: Tree<K, V>,
      chain: Context<K, V>, s: Tree<K, V>, h: nat, b: nat)
  {
    && base.Hole? && Plug(base, k) == shape && Plug(chain, s) == k && After(chain) == []
    && BalancedContext(Graft(chain, base), h, b) && Balanced(s, h, Min(b), b)
  }

  ghost function Last<K(0, !new), V(0)>(chain: Context<K, V>, s: Tree<K, V>): Context<K, V>
    requires s.Tree? && s.kids != []
  {
    Hole(chain, s.ref, s.kids[..|s.kids| - 1], s.ents, [], [])
  }

  lemma LastFill<K(0, !new), V(0)>(chain: Context<K, V>, s: Tree<K, V>)
    requires s.Tree? && |s.kids| == |s.ents| + 1
    ensures Last(chain, s).Hole? && Last(chain, s).up == chain
    ensures s.kids[|s.ents|].Nil? ==> Fill(Last(chain, s), Nil) == s
  {
    assert s.kids == s.kids[..|s.ents|] + [s.kids[|s.ents|]] + [] && s.ents == s.ents + [];
  }

  lemma WalkStep<K(0, !new), V(0)>(shape: Tree<K, V>, base: Context<K, V>, k: Tree<K, V>,
      chain: Context<K, V>, s: Tree<K, V>, h: nat, b: nat)
    requires Walking(shape, base, k, chain, s, h, b) && s.Tree? && b > 1
    ensures h > 0 && |s.kids| == |s.ents| + 1
    ensures Walking(shape, base, k, Last(chain, s), s.kids[|s.ents|], h - 1, b)
  {
    var d, n := Last(chain, s), |s.ents|;
    assert BalancedAll(s.kids, h - 1, b);
    assert Fill(d, s.kids[n]) == s by {
      assert s.kids == s.kids[..n] + [s.kids[n]] + [] && s.ents == s.ents + [];
    }
  }

  /** What the heap shows of a node on the walk. */
  lemma WalkNode<K(0, !new), V(0)>(shape: Tree<K, V>, base: Context<K, V>, k: Tree<K, V>,
      chain: Context<K, V>, s: Tree<K, V>, h: nat, b: nat)
    requires Walking(shape, base, k, chain, s, h, b) && Sep(shape) && Rep(shape, b) && s.Tree?
    ensures Holds(Graft(chain, base), s, b) && Objs(shape) == ContextObjs(Graft(chain, base)) + Objs(s)
    ensures s.ref.Fits() && s.ref.Keys() == s.ents && s.ref.Kids() == Roots(s.kids) && s.ref.size == |s.ents|
    ensures |s.ents| < s.ref.subtrees.Length && |s.ents| < |s.kids| && s.ref.subtrees[|s.ents|] == Root(s.kids[|s.ents|])
    ensures h > 0 && |s.kids| == |s.ents| + 1 && Balanced(s, h, Min(b), b)
  {
    var c := Graft(chain, base);
    PlugGraft(chain, base, s);
    BalancedMatched(c, h, b);
    DescendAll(c, s, b);
    AscendAll(c, s, b);
    assert s.ref.subtrees[|s.ents|] == s.ref.Kids()[|s.ents|];
  }

  lemma RootIs<K(0, !new), V(0)>(s: Tree<K, V>)
    ensures Root(s) == null <==> s.Nil?
    ensures s.Tree? ==> Root(s) == s.ref
  {
  }

  /** The context of subtree `i` of `s`. */
  ghost function At<K(0, !new), V(0)>(c: Context<K, V>, s: Tree<K, V>, i: nat): Context<K, V>
    requires s.Tree? && i <= |s.ents| && |s.kids| == |s.ents| + 1
  {
    Hole(c, s.ref, s.kids[..i], s.ents[..i], s.ents[i..], s.kids[i + 1..])
  }

  lemma FillAt<K(0, !new), V(0)>(c: Context<K, V>, s: Tree<K, V>, i: nat)
    requires s.Tree? && i <= |s.ents| && |s.kids| == |s.ents| + 1
    ensures Fill(At(c, s, i), s.kids[i]) == s && Plug(At(c, s, i), s.kids[i]) == Plug(c, s)
  {
    assert s.kids == s.kids[..i] + [s.kids[i]] + s.kids[i + 1..] && s.ents == s.ents[..i] + s.ents[i..];
  }

  lemma AroundAt<K(0, !new), V(0)>(c: Context<K, V>, s: Tree<K, V>, i: nat)
    requires s.Tree? && i < |s.ents| && |s.kids| == |s.ents| + 1
    ensures After(At(c, s, i)) == [s.ents[i]] + Following(c, s, i)
    ensures Before(At(c, s, i)) == Before(c) + FlatLeft(s.kids[..i], s.ents[..i])
  {
    hide Flat, FlatLeft, FlatRight;
    SplitAt(s.ents, i);
    assert s.kids[i + 1..] == [s.kids[i + 1]] + s.kids[i + 2..];
    FlatRightCons(s.ents[i], s.kids[i + 1], s.ents[i + 1..], s.kids[i + 2..]);
  }

  lemma BalancedAt<K(0, !new), V(0)>(c: Context<K, V>, s: Tree<K, V>, h: nat, b: nat, i: nat, y: Entry<K, V>)
    requires b > 1 && BalancedContext(c, h, b) && Balanced(s, h, Least(c, b), b) && h > 0 && i < |s.ents|
    ensures |s.kids| == |s.ents| + 1
    ensures BalancedContext(At(c, s, i), h - 1, b) && Balanced(s.kids[i], h - 1, Min(b), b)
    ensures BalancedContext(At(c, SetEntry(s, i, y), i), h - 1, b)
  {
    BalancedChild(c, s, h, b, i);
    assert Balanced(SetEntry(s, i, y), h, Least(c, b), b);
    BalancedChild(c, SetEntry(s, i, y), h, b, i);
  }

  /** A leaf without the entry at `j`. */
  ghost function Without<K(0, !new), V(0)>(n: Tree<K, V>, j: nat): Tree<K, V>
    requires n.Tree? && j < |n.ents| && |n.kids| == |n.ents| + 1
  {
    Tree(n.ref, RemoveAt(n.ents, j), n.kids[..|n.ents|])
  }

  lemma LeafThin<K(0, !new), V(0)>(c: Context<K, V>, n: Tree<K, V>, j: nat, b: nat)
    requires BalancedContext(c, 1, b) && Balanced(n, 1, Least(c, b), b) && b > 1 && n.Tree? && j < |n.ents|
    ensures |n.kids| == |n.ents| + 1 && Flat(n) == n.ents
    ensures Thin(c, Without(n, j), 1, b, Before(c) + RemoveAt(n.ents, j) + After(c))
  {
    forall i | 0 <= i < |n.kids| ensures n.kids[i].Nil? {
      assert Balanced(n.kids[i], 0, Min(b), b);
    }
    LeafFlat(n);
    LeafFlat(Without(n, j));
  }

  /** Exchanging an inner key with the greatest key on its left reduces its removal to a leaf. */
  lemma Exchanged<K(0, !new), V(0)>(shape: Tree<K, V>, c: Context<K, V>, s: Tree<K, V>, h: nat, b: nat, i: nat,
      chain: Context<K, V>, leaf: Tree<K, V>) returns (g: Context<K, V>, p: nat, goal: seq<Entry<K, V>>)
    requires b > 1 && BalancedContext(c, h, b) && Balanced(s, h, Least(c, b), b) && s.Tree? && i < |s.ents|
    requires |s.kids| == |s.ents| + 1 && leaf.Tree? && leaf.ents != [] && Depth(chain) + 2 == h
    requires Walking(shape, At(c, s, i), s.kids[i], chain, leaf, 1, b)
    ensures var n := |leaf.ents| - 1; var y := leaf.ents[n];
      && g == Graft(chain, At(c, SetEntry(s, i, y), i)) && Plug(g, leaf) == Plug(c, SetEntry(s, i, y))
      && BalancedContext(g, 1, b) && g.Hole? && Balanced(leaf, 1, Min(b), b)
      && p < |Flat(shape)| && Flat(shape)[p] == s.ents[i] && goal == RemoveAt(Flat(shape), p)
      && goal == Before(g) + leaf.ents[..n] + After(g)
  {
    hide Flat, FlatLeft, FlatRight, Following, Before, After, RemoveAt;
    var n := |leaf.ents| - 1;
    var y := leaf.ents[n];
    var s2, base := SetEntry(s, i, y), At(c, s, i);
    var base2 := At(c, s2, i);
    g := Graft(chain, base2);
    BalancedAt(c, s, h, b, i, y);
    BalancedGraft(chain, base, base2, 1, b);
    FillAt(c, s2, i);
    PlugGraft(chain, base2, leaf);
    AroundGraft(chain, base);
    AroundGraft(chain, base2);
    AroundAt(c, s, i);
    AroundAt(c, s2, i);
    AroundSame(c, s, i, y);
    PlugGraft(chain, base, leaf);
    BalancedMatched(Graft(chain, base), 1, b);
    FlatPlug(Graft(chain, base), leaf);
    BalancedLeaf(leaf, b);
    assert s2.ents[..i] == s.ents[..i];
    var before := Before(base) + Before(chain);
    PopSeq(before, leaf.ents, s.ents[i], Following(c, s, i));
    p := |before| + |leaf.ents|;
    goal := RemoveAt(Flat(shape), p);
    EmptyFront([y] + Following(c, s, i));
    EmptyFront([s.ents[i]] + Following(c, s, i));
  }

  lemma BalancedLeaf<K(0, !new), V(0)>(n: Tree<K, V>, b: nat)
    requires Balanced(n, 1, Min(b), b)
    ensures n.Tree? && |n.kids| == |n.ents| + 1 && Flat(n) == n.ents && (b > 1 ==> n.ents != [])
  {
    forall i | 0 <= i < |n.kids| ensures n.kids[i].Nil? {
      assert Balanced(n.kids[i], 0, Min(b), b);
    }
    LeafFlat(n);
  }

  lemma SameRoot<K(0, !new), V(0)>(c: Context<K, V>, n: Tree<K, V>, r: Tree<K, V>)
    requires n.Tree? && r.Tree? && n.ref == r.ref
    ensures Root(Plug(c, n)) == Root(Plug(c, r))
  {
    RootPlug(c, n, r);
  }

  lemma WithoutIs<K(0, !new), V(0)>(n: Tree<K, V>, j: nat, r: Tree<K, V>)
    requires n.Tree? && j < |n.ents| && |n.kids| == |n.ents| + 1
    requires r == Tree(n.ref, RemoveAt(n.ents, j), n.kids[..|n.ents|])
    ensures r == Without(n, j)
  {
  }

  lemma WalkTrail<K(0, !new), V(0)>(path: seq<Step<K, V>>, base: Context<K, V>, chain: Context<K, V>, s: Tree<K, V>)
    requires Trail(path, Graft(chain, base)) && s.Tree? && |s.kids| == |s.ents| + 1
    ensures Trail(path + [Step(s.ref, -|s.ents| - 1)], Graft(Last(chain, s), base))
    ensures Depth(Last(chain, s)) == Depth(chain) + 1
  {
    var step := Step(s.ref, -|s.ents| - 1);
    assert (path + [step])[..|path|] == path;
  }

  /** Past the last leaf the walk has its parent frame on top: that frame is the leaf. */
  lemma WalkEnd<K(0, !new), V(0)>(shape: Tree<K, V>, base: Context<K, V>, k: Tree<K, V>,
      chain: Context<K, V>, h: nat, b: nat, path: seq<Step<K, V>>) returns (leaf: Tree<K, V>)
    requires Walking(shape, base, k, chain, Nil, h, b) && k.Tree? && Trail(path, Graft(chain, base)) && b > 1
    ensures h == 0 && chain.Hole? && leaf.Tree? && leaf == Fill(chain, Nil) && Walking(shape, base, k, chain.up, leaf, 1, b)
    ensures path != [] && path[|path| - 1].node == leaf.ref && Trail(path[..|path| - 1], Graft(chain.up, base))
    ensures Depth(chain) == Depth(chain.up) + 1
  {
    leaf := Fill(chain, Nil);
    assert After(chain) == FlatRight(chain.rents, chain.right) + After(chain.up);
    assert BalancedContext(Graft(chain.up, base), 1, b);
    assert Graft(chain.up, base).Hole?;
    assert Balanced(leaf, 1, Min(b), b);
  }

  lemma WalkStart<K(0, !new), V(0)>(base: Context<K, V>)
    ensures Graft(Top, base) == base && Depth<K, V>(Top) == 0
  {
  }

  /** The same tree in the heap, opened at another place. */
  lemma Reopen<K(0, !new), V(0)>(c: Context<K, V>, s: Tree<K, V>, g: Context<K, V>, n: Tree<K, V>, h: nat, b: nat)
    requires Holds(c, s, b) && Plug(g, n) == Plug(c, s) && BalancedContext(g, h, b)
    ensures Holds(g, n, b) && ContextObjs(g) + Objs(n) == ContextObjs(c) + Objs(s)
    ensures n.Tree? ==> Own(n.ref) <= Objs(n) && n.ref.Fits() && n.ref.Keys() == n.ents && n.ref.size == |n.ents|
  {
    AscendAll(c, s, b);
    BalancedMatched(g, h, b);
    DescendAll(g, n, b);
    AscendAll(g, n, b);
  }

  /** Both nodes of the exchange as the heap has them. */
  lemma OpenExchange<K(0, !new), V(0)>(shape: Tree<K, V>, c: Context<K, V>, s: Tree<K, V>, h: nat, b: nat, i: nat,
      chain: Context<K, V>, leaf: Tree<K, V>)
    requires b > 1 && Sep(shape) && Rep(shape, b) && Plug(c, s) == shape && BalancedContext(c, h, b)
    requires s.Tree? && i < |s.ents| && |s.kids| == |s.ents| + 1 && leaf.Tree?
    requires Walking(shape, At(c, s, i), s.kids[i], chain, leaf, 1, b)
    ensures Holds(c, s, b) && ContextObjs(c) + Objs(s) == Objs(shape) && Own(s.ref) <= Objs(s)
    ensures s.ref.keys in Objs(shape) && i < s.ref.keys.Length && s.ref.keys[i] == s.ents[i]
    ensures leaf.ents != [] && leaf.ref.keys in Objs(shape) && leaf.ref.size == |leaf.ents| <= leaf.ref.keys.Length
    ensures leaf.ref.keys[|leaf.ents| - 1] == leaf.ents[|leaf.ents| - 1]
    ensures Own(leaf.ref) <= Objs(leaf)
  {
    hide Objs, ContextObjs, Sep, Rep, RepContext, SepContext, BalancedContext, Flat, Graft, Balanced, Walking,
      Holds, Plug, Roots, ObjsAll;
    WholeHolds(shape, b);
    Reopen(Top, shape, c, s, h, b);
    WalkNode(shape, At(c, s, i), s.kids[i], chain, leaf, 1, b);
    BalancedLeaf(leaf, b);
    NothingPending(c, leaf, b);
    assert s.ref.keys[i] == s.ref.Keys()[i];
    assert leaf.ref.keys[|leaf.ents| - 1] == leaf.ref.Keys()[|leaf.ents| - 1];
  }

  lemma WholeHolds<K(0, !new), V(0)>(shape: Tree<K, V>, b: nat)
    requires Sep(shape) && Rep(shape, b)
    ensures Holds(Top, shape, b) && ContextObjs<K, V>(Top) == {} && Plug(Top, shape) == shape
  {
  }

  /** After the exchange the leaf has the key to remove as its last. */
  lemma CloseExchange<K(0, !new), V(0)>(c: Context<K, V>, s: Tree<K, V>, i: nat, y: Entry<K, V>,
      g: Context<K, V>, leaf: Tree<K, V>, x: Entry<K, V>, b: nat) returns (r: Tree<K, V>)
    requires s.Tree? && i < |s.ents| && leaf.Tree? && leaf.ents != [] && g.Hole?
    requires Balanced(leaf, 1, Min(b), b) && Plug(g, leaf) == Plug(c, SetEntry(s, i, y))
    ensures r == Tree(leaf.ref, leaf.ents[|leaf.ents| - 1 := x], leaf.kids)
    ensures Root(Plug(g, r)) == Root(Plug(c, s)) && Balanced(r, 1, Least(g, b), b)
    ensures RemoveAt(r.ents, |r.ents| - 1) == leaf.ents[..|leaf.ents| - 1]
  {
    hide Plug;
    r := Tree(leaf.ref, leaf.ents[|leaf.ents| - 1 := x], leaf.kids);
    RootPlug(c, s, SetEntry(s, i, y));
    RootPlug(g, leaf, r);
  }

  lemma SetTree<K(0, !new), V(0)>(s: Tree<K, V>, i: nat, e: Entry<K, V>) returns (w: Tree<K, V>)
    requires s.Tree? && i < |s.ents|
    ensures w == SetEntry(s, i, e) == Tree(s.ref, s.ents[i := e], s.kids)
  {
    w := SetEntry(s, i, e);
  }

  /** The node the search landed on, as the heap has it. */
  lemma FoundNode<K(0, !new), V(0)>(cmp: (K, K) -> int, key: K, shape: Tree<K, V>, c: Context<K, V>, s: Tree<K, V>, h: nat, b: nat, i: nat)
    requires b > 1 && Sep(shape) && Rep(shape, b) && Seeking(cmp, key, shape, c, s, h, b) && Landed(cmp, key, s, i)
    ensures s.Tree? && i < |s.ents| && |s.kids| == |s.ents| + 1 && Plug(c, s) == shape
    ensures Holds(c, s, b) && ContextObjs(c) + Objs(s) == Objs(shape)
    ensures BalancedContext(c, h, b) && Balanced(s, h, Least(c, b), b)
    ensures i < s.ref.keys.Length && s.ref.keys[i] == s.ents[i]
    ensures s.ref.subtrees.Length > i && s.ref.subtrees[0] == Root(s.kids[0]) && s.ref.subtrees[i] == Root(s.kids[i])
  {
    Opened(cmp, key, shape, c, s, h, b);
    ReachedMatched(c, s, h, b);
    assert s.ref.Kids() == Roots(s.kids) && s.ref.Keys() == s.ents;
    assert s.ref.keys[i] == s.ref.Keys()[i];
    assert s.ref.subtrees[0] == s.ref.Kids()[0] && s.ref.subtrees[i] == s.ref.Kids()[i];
  }

  /** A node is a leaf or has only proper subtrees, and its first slot tells which. */
  lemma FoundKind<K(0, !new), V(0)>(shape: Tree<K, V>, c: Context<K, V>, s: Tree<K, V>, h: nat, b: nat, i: nat)
    requires b > 1 && s.Tree? && i < |s.ents| && |s.kids| == |s.ents| + 1 && Plug(c, s) == shape
    requires BalancedContext(c, h, b) && Balanced(s, h, Least(c, b), b)
    ensures Root(s.kids[0]) == null ==> h == 1
    ensures Root(s.kids[0]) != null ==>
      h > 1 && s.kids[i].Tree? && Root(s.kids[i]) == s.kids[i].ref && Walking(shape, At(c, s, i), s.kids[i], Top, s.kids[i], h - 1, b)
  {
    assert BalancedAll(s.kids, h - 1, b);
    if s.kids[0].Tree? {
      FillAt(c, s, i);
      BalancedAt(c, s, h, b, i, s.ents[i]);
    }
  }

  lemma TrailAt<K(0, !new), V(0)>(path: seq<Step<K, V>>, c: Context<K, V>, s: Tree<K, V>, i: int, down: seq<Step<K, V>>)
    requires path != [] && Trail(path[..|path| - 1], c) && s.Tree? && 0 <= i < |s.ents| && |s.kids| == |s.ents| + 1
    requires down == path[..|path| - 1] + [Step(s.ref, -i - 1)]
    ensures Trail(down, At(c, s, i))
  {
    assert down[..|down| - 1] == path[..|path| - 1];
  }

  /** Removing the entry found removes its key from the map and keeps the order. */
  lemma RemovedGoal<K(!new), V>(cmp: (K, K) -> int, s: seq<Entry<K, V>>, p: nat)
    requires TotalOrder(cmp) && Sorted(cmp, s) && p < |s|
    ensures Sorted(cmp, RemoveAt(s, p)) && AsMap(RemoveAt(s, p)) == AsMap(s) - {s[p].key}
  {
    SortedDistinct(cmp, s);
    AsMapRemove(s, p);
  }

  /** Removal in a leaf, in the order of the whole. */
  lemma LeafGoal<K(0, !new), V(0)>(shape: Tree<K, V>, c: Context<K, V>, s: Tree<K, V>, b: nat, j: nat)
    returns (p: nat, goal: seq<Entry<K, V>>)
    requires b > 1 && Plug(c, s) == shape && BalancedContext(c, 1, b) && Balanced(s, 1, Least(c, b), b)
    requires s.Tree? && j < |s.ents|
    ensures p < |Flat(shape)| && Flat(shape)[p] == s.ents[j] && goal == RemoveAt(Flat(shape), p)
    ensures goal == Before(c) + RemoveAt(s.ents, j) + After(c)
  {
    LeafThin(c, s, j, b);
    BalancedMatched(c, 1, b);
    FlatPlug(c, s);
    p := |Before(c)| + j;
    goal := RemoveAt(Flat(shape), p);
    DropMiddle(Before(c), s.ents, After(c), j);
  }

  lemma TrailSwap<K(0, !new), V(0)>(path: seq<Step<K, V>>, chain: Context<K, V>, c: Context<K, V>, s: Tree<K, V>, i: nat, y: Entry<K, V>)
    requires s.Tree? && i < |s.ents| && |s.kids| == |s.ents| + 1 && Trail(path, Graft(chain, At(c, s, i)))
    ensures Trail(path, Graft(chain, At(c, SetEntry(s, i, y), i)))
  {
    TrailGraft(path, chain, At(c, s, i), At(c, SetEntry(s, i, y), i));
  }
}
