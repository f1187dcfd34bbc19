/** Why binary search inside nodes finds a key of the whole tree. */
module Search {
  import opened Basics
  import opened Entries
  import opened Nodes
  import opened Shapes

  lemma SliceSorted<K, V>(cmp: (K, K) -> int, a: seq<Entry<K, V>>, s: seq<Entry<K, V>>, b: seq<Entry<K, V>>)
    requires Sorted(cmp, a + s + b)
    ensures Sorted(cmp, a) && Sorted(cmp, s) && Sorted(cmp, b)
  {
    var all := a + s + b;
    forall i, j | 0 <= i < j < |a| ensures Less(cmp, a[i].key, a[j].key) {
      assert all[i] == a[i] && all[j] == a[j];
    }
    forall i, j | 0 <= i < j < |s| ensures Less(cmp, s[i].key, s[j].key) {
      assert all[|a| + i] == s[i] && all[|a| + j] == s[j];
    }
    forall i, j | 0 <= i < j < |b| ensures Less(cmp, b[i].key, b[j].key) {
      assert all[|a| + |s| + i] == b[i] && all[|a| + |s| + j] == b[j];
    }
  }

  lemma {:induction false} SeparatorsAbove<K(0, !new), V(0)>(cmp: (K, K) -> int, es: seq<Entry<K, V>>, ts: seq<Tree<K, V>>, key: K)
    requires |es| == |ts| && AllAbove(cmp, FlatRight(es, ts), key)
    ensures AllAbove(cmp, es, key)
  {
    if es != [] {
      var head, rest := [es[0]] + Flat(ts[0]), FlatRight(es[1..], ts[1..]);
      assert FlatRight(es, ts) == head + rest;
      assert (head + rest)[0] == es[0];
      forall i | 0 <= i < |rest| ensures Less(cmp, key, rest[i].key) {
        assert (head + rest)[|head| + i] == rest[i];
      }
      SeparatorsAbove(cmp, es[1..], ts[1..], key);
    }
  }

  lemma {:induction false} SeparatorsSorted<K(0, !new), V(0)>(cmp: (K, K) -> int, es: seq<Entry<K, V>>, ts: seq<Tree<K, V>>)
    requires |es| == |ts| && Sorted(cmp, FlatRight(es, ts))
    ensures Sorted(cmp, es)
  {
    if es != [] {
      var head, rest := [es[0]] + Flat(ts[0]), FlatRight(es[1..], ts[1..]);
      var all := FlatRight(es, ts);
      assert all == head + rest && all[0] == es[0];
      SliceSorted(cmp, head, rest, []);
      forall i | 0 <= i < |rest| ensures Less(cmp, es[0].key, rest[i].key) {
        assert all[|head| + i] == rest[i];
      }
      SeparatorsAbove(cmp, es[1..], ts[1..], es[0].key);
      SeparatorsSorted(cmp, es[1..], ts[1..]);
    }
  }

  /** The keys of one node are sorted when the tree's contents are. */
  lemma NodeSorted<K(0, !new), V(0)>(cmp: (K, K) -> int, t: Tree<K, V>)
    requires t.Tree? && |t.kids| == |t.ents| + 1 && Sorted(cmp, Flat(t))
    ensures Sorted(cmp, t.ents)
  {
    SliceSorted(cmp, Flat(t.kids[0]), FlatRight(t.ents, t.kids[1..]), []);
    assert Flat(t) == Flat(t.kids[0]) + FlatRight(t.ents, t.kids[1..]) + [];
    SeparatorsSorted(cmp, t.ents, t.kids[1..]);
  }

  lemma {:induction false} FlatLeftLast<K(0, !new), V(0)>(ts: seq<Tree<K, V>>, es: seq<Entry<K, V>>)
    requires |ts| == |es| > 0
    ensures |FlatLeft(ts, es)| > 0
    ensures FlatLeft(ts, es)[|FlatLeft(ts, es)| - 1] == es[|es| - 1]
  {
    if |es| > 1 {
      FlatLeftLast(ts[1..], es[1..]);
    }
  }

  /** What lies left and right of the subtree chosen by the search is below and above the key. */
  lemma AroundChild<K(0, !new), V(0)>(cmp: (K, K) -> int, t: Tree<K, V>, i: nat, key: K)
    requires TotalOrder(cmp) && t.Tree? && i <= |t.ents| && |t.kids| == |t.ents| + 1 && Sorted(cmp, Flat(t))
    requires AllBelow(cmp, t.ents[..i], key) && AllAbove(cmp, t.ents[i..], key)
    ensures Flat(t) == FlatLeft(t.kids[..i], t.ents[..i]) + Flat(t.kids[i]) + FlatRight(t.ents[i..], t.kids[i + 1..])
    ensures AllBelow(cmp, FlatLeft(t.kids[..i], t.ents[..i]), key)
    ensures AllAbove(cmp, FlatRight(t.ents[i..], t.kids[i + 1..]), key)
  {
    var a, s, b := FlatLeft(t.kids[..i], t.ents[..i]), Flat(t.kids[i]), FlatRight(t.ents[i..], t.kids[i + 1..]);
    assert t.kids == t.kids[..i] + [t.kids[i]] + t.kids[i + 1..] && t.ents == t.ents[..i] + t.ents[i..];
    FlatFill(t.ref, t.kids[..i], t.ents[..i], t.kids[i], t.ents[i..], t.kids[i + 1..]);
    SliceSorted(cmp, a, s, b);
    if i > 0 {
      FlatLeftLast(t.kids[..i], t.ents[..i]);
    }
    assert i < |t.ents| ==> b[0] == t.ents[i..][0];
    PrefixBelow(cmp, a, |a|, key);
    SuffixAbove(cmp, b, 0, key);
    assert a[..|a|] == a && b[0..] == b;
  }

  /** One entry of the search stack: the index found, or minus one minus the subtree entered. */
  datatype Step<K(0, !new), V(0)> = Step(node: Node?<K, V>, index: int)

  /** The stack records exactly the nodes and subtree numbers of the context. */
  ghost predicate Trail<K(0, !new), V(0)>(path: seq<Step<K, V>>, c: Context<K, V>)
    decreases c
  {
    if c.Top? then path == []
    else path != [] && path[|path| - 1] == Step(c.ref, -|c.left| - 1) && Trail(path[..|path| - 1], c.up)
  }

  /** The top of the stack is the parent of the hole. */
  lemma TopTrail<K(0, !new), V(0)>(path: seq<Step<K, V>>, c: Context<K, V>)
    requires Trail(path, c)
    ensures path == [] <==> c.Top?
    ensures c.Hole? ==> path[|path| - 1] == Step(c.ref, -|c.left| - 1) && Trail(path[..|path| - 1], c.up)
  {
  }

  /** Popping the stack moves from the hole's frame to the one above. */
  lemma PopTrail<K(0, !new), V(0)>(path: seq<Step<K, V>>, c: Context<K, V>)
    requires path != [] && Trail(path[..|path| - 1], c)
    ensures |path| == 1 <==> c.Top?
    ensures c.Hole? ==>
      var rest := path[..|path| - 1];
      rest != [] && rest[|rest| - 1] == Step(c.ref, -|c.left| - 1) && Trail(rest[..|rest| - 1], c.up)
  {
  }

  /** The search for `key` has come to subtree `s` of height `h`. */
  ghost predicate Reached<K(0, !new), V(0)>(cmp: (K, K) -> int, key: K, c: Context<K, V>, s: Tree<K, V>, h: nat, b: nat) {
    && BalancedContext(c, h, b) && Balanced(s, h, Least(c, b), b)
    && Sorted(cmp, Before(c) + Flat(s) + After(c))
    && AllBelow(cmp, Before(c), key) && AllAbove(cmp, After(c), key)
  }

  lemma BalancedChild<K(0, !new), V(0)>(c: Context<K, V>, t: Tree<K, V>, h: nat, b: nat, i: nat)
    requires b > 1 && BalancedContext(c, h, b) && Balanced(t, h, Least(c, b), b) && h > 0 && i <= |t.ents|
    ensures BalancedContext(Hole(c, t.ref, t.kids[..i], t.ents[..i], t.ents[i..], t.kids[i + 1..]), h - 1, b)
    ensures Balanced(t.kids[i], h - 1, Min(b), b)
  {
  }

  lemma BelowConcat<K, V>(cmp: (K, K) -> int, a: seq<Entry<K, V>>, s: seq<Entry<K, V>>, key: K)
    ensures AllBelow(cmp, a, key) && AllBelow(cmp, s, key) ==> AllBelow(cmp, a + s, key)
    ensures AllAbove(cmp, a, key) && AllAbove(cmp, s, key) ==> AllAbove(cmp, a + s, key)
  {
  }

  lemma ReachChild<K(0, !new), V(0)>(cmp: (K, K) -> int, key: K, c: Context<K, V>, t: Tree<K, V>, h: nat, b: nat, i: nat)
    requires TotalOrder(cmp) && b > 1 && Reached(cmp, key, c, t, h, b) && h > 0 && i <= |t.ents|
    requires AllBelow(cmp, t.ents[..i], key) && AllAbove(cmp, t.ents[i..], key)
    ensures Reached(cmp, key, Hole(c, t.ref, t.kids[..i], t.ents[..i], t.ents[i..], t.kids[i + 1..]), t.kids[i], h - 1, b)
  {
    var d := Hole(c, t.ref, t.kids[..i], t.ents[..i], t.ents[i..], t.kids[i + 1..]);
    BalancedChild(c, t, h, b, i);
    SliceSorted(cmp, Before(c), Flat(t), After(c));
    AroundChild(cmp, t, i, key);
    BelowConcat(cmp, Before(c), FlatLeft(d.left, d.lents), key);
    BelowConcat(cmp, FlatRight(d.rents, d.right), After(c), key);
    Regroup(Before(c), FlatLeft(d.left, d.lents), Flat(t.kids[i]), FlatRight(d.rents, d.right), After(c));
  }

  /** The search for `key` in the tree `shape` stands at subtree `s`. */
  ghost predicate Seeking<K(0, !new), V(0)>(cmp: (K, K) -> int, key: K, shape: Tree<K, V>,
      c: Context<K, V>, s: Tree<K, V>, h: nat, b: nat)
  {
    Matched(c) && Plug(c, s) == shape && Reached(cmp, key, c, s, h, b)
  }

  /** What the heap shows the search at a node on its path. */
  lemma SeekingNode<K(0, !new), V(0)>(cmp: (K, K) -> int, key: K, shape: Tree<K, V>, c: Context<K, V>, s: Tree<K, V>, h: nat, b: nat)
    requires TotalOrder(cmp) && b > 1 && Seeking(cmp, key, shape, c, s, h, b) && s.Tree? && Holds(Top, shape, b)
    ensures h > 0 && s.ref.Fits() && s.ref.size > 0 && s.ref.Keys() == s.ents && Sorted(cmp, s.ents)
    ensures |s.kids| == |s.ents| + 1 && s.ref.Kids() == Roots(s.kids)
  {
    DescendAll(c, s, b);
    SliceSorted(cmp, Before(c), Flat(s), After(c));
    NodeSorted(cmp, s);
  }

  lemma SeekChild<K(0, !new), V(0)>(cmp: (K, K) -> int, key: K, shape: Tree<K, V>, c: Context<K, V>, s: Tree<K, V>, h: nat, b: nat, i: nat)
    returns (d: Context<K, V>)
    requires TotalOrder(cmp) && b > 1 && Seeking(cmp, key, shape, c, s, h, b) && h > 0 && i <= |s.ents|
    requires AllBelow(cmp, s.ents[..i], key) && AllAbove(cmp, s.ents[i..], key)
    ensures d == Hole(c, s.ref, s.kids[..i], s.ents[..i], s.ents[i..], s.kids[i + 1..])
    ensures Seeking(cmp, key, shape, d, s.kids[i], h - 1, b)
  {
    d := Hole(c, s.ref, s.kids[..i], s.ents[..i], s.ents[i..], s.kids[i + 1..]);
    assert Fill(d, s.kids[i]) == s by {
      assert s.kids == s.kids[..i] + [s.kids[i]] + s.kids[i + 1..] && s.ents == s.ents[..i] + s.ents[i..];
    }
    ReachChild(cmp, key, c, s, h, b, i);
  }

  /* ---- where a node's entries stand in the whole ---- */

  /** `s` with its entry at `i` replaced. */
  ghost function SetEntry<K(0, !new), V(0)>(s: Tree<K, V>, i: nat, e: Entry<K, V>): Tree<K, V>
    requires s.Tree? && i < |s.ents|
  {
    Tree(s.ref, s.ents[i := e], s.kids)
  }

  ghost function Preceding<K(0, !new), V(0)>(c: Context<K, V>, s: Tree<K, V>, i: nat): seq<Entry<K, V>>
    requires s.Tree? && i < |s.ents| && |s.kids| == |s.ents| + 1
  {
    Before(c) + (FlatLeft(s.kids[..i], s.ents[..i]) + Flat(s.kids[i]))
  }

  ghost function Following<K(0, !new), V(0)>(c: Context<K, V>, s: Tree<K, V>, i: nat): seq<Entry<K, V>>
    requires s.Tree? && i < |s.ents| && |s.kids| == |s.ents| + 1
  {
    Flat(s.kids[i + 1]) + FlatRight(s.ents[i + 1..], s.kids[i + 2..]) + After(c)
  }

  /** A node around one of its entries. */
  lemma FlatEntry<K(0, !new), V(0)>(s: Tree<K, V>, i: nat)
    requires s.Tree? && i < |s.ents| && |s.kids| == |s.ents| + 1
    ensures Flat(s) == FlatLeft(s.kids[..i], s.ents[..i]) + Flat(s.kids[i])
      + ([s.ents[i]] + (Flat(s.kids[i + 1]) + FlatRight(s.ents[i + 1..], s.kids[i + 2..])))
  {
    hide Flat, FlatLeft, FlatRight;
    SplitAt(s.kids, i);
    SplitAt(s.kids, i + 1);
    SplitAt(s.ents, i);
    FlatFill(s.ref, s.kids[..i], s.ents[..i], s.kids[i], s.ents[i..], s.kids[i + 1..]);
    FlatRightCons(s.ents[i], s.kids[i + 1], s.ents[i + 1..], s.kids[i + 2..]);
  }

  /** The whole tree around one entry of one node. */
  lemma FlatAround<K(0, !new), V(0)>(c: Context<K, V>, s: Tree<K, V>, i: nat)
    requires Matched(c) && s.Tree? && i < |s.ents| && |s.kids| == |s.ents| + 1
    ensures Flat(Plug(c, s)) == Preceding(c, s, i) + [s.ents[i]] + Following(c, s, i)
  {
    hide Flat, FlatLeft, FlatRight, Before, After, Matched, Plug;
    FlatPlug(c, s);
    FlatEntry(s, i);
    var b := Flat(s.kids[i + 1]) + FlatRight(s.ents[i + 1..], s.kids[i + 2..]);
    RegroupEntry(Before(c), FlatLeft(s.kids[..i], s.ents[..i]), Flat(s.kids[i]), [s.ents[i]], b, After(c));
  }

  lemma AroundSame<K(0, !new), V(0)>(c: Context<K, V>, s: Tree<K, V>, i: nat, e: Entry<K, V>)
    requires s.Tree? && i < |s.ents| && |s.kids| == |s.ents| + 1
    ensures Preceding(c, SetEntry(s, i, e), i) == Preceding(c, s, i)
    ensures Following(c, SetEntry(s, i, e), i) == Following(c, s, i)
  {
    var r := SetEntry(s, i, e);
    assert r.ents[..i] == s.ents[..i] && r.ents[i + 1..] == s.ents[i + 1..];
  }

  /** Replacing one entry replaces one element of the whole. */
  lemma FlatSet<K(0, !new), V(0)>(c: Context<K, V>, s: Tree<K, V>, i: nat, e: Entry<K, V>)
    requires Matched(c) && s.Tree? && i < |s.ents| && |s.kids| == |s.ents| + 1
    ensures var p := |Preceding(c, s, i)|;
      && p < |Flat(Plug(c, s))| && Flat(Plug(c, s))[p] == s.ents[i]
      && Flat(Plug(c, SetEntry(s, i, e))) == Flat(Plug(c, s))[p := e]
  {
    hide Preceding, Following, Flat, Plug, Matched;
    AroundSame(c, s, i, e);
    FlatAround(c, s, i);
    FlatAround(c, SetEntry(s, i, e), i);
    Replaced(Preceding(c, s, i), s.ents[i], Following(c, s, i), e);
  }

  lemma {:induction false} FlatRightNil<K(0, !new), V(0)>(es: seq<Entry<K, V>>, ts: seq<Tree<K, V>>)
    requires |es| == |ts| && forall i :: 0 <= i < |ts| ==> ts[i].Nil?
    ensures FlatRight(es, ts) == es
  {
    if es != [] {
      FlatRightNil(es[1..], ts[1..]);
    }
  }

  /** A leaf stores just its own entries. */
  lemma LeafFlat<K(0, !new), V(0)>(s: Tree<K, V>)
    requires s.Tree? && |s.kids| == |s.ents| + 1 && forall i :: 0 <= i < |s.kids| ==> s.kids[i].Nil?
    ensures Flat(s) == s.ents
  {
    FlatRightNil(s.ents, s.kids[1..]);
  }

  /** In a balanced tree one empty subtree makes a leaf. */
  lemma LeafKids<K(0, !new), V(0)>(s: Tree<K, V>, h: nat, lo: nat, b: nat, p: nat)
    requires Balanced(s, h, lo, b) && s.Tree? && p < |s.kids| && s.kids[p].Nil?
    ensures h == 1 && forall i :: 0 <= i < |s.kids| ==> s.kids[i].Nil?
  {
    assert Balanced(s.kids[p], h - 1, Min(b), b);
    forall i | 0 <= i < |s.kids| ensures s.kids[i].Nil? {
      assert Balanced(s.kids[i], h - 1, Min(b), b);
    }
  }

  /** The search ended in node `s`: on the key, or at the leaf slot where it belongs. */
  ghost predicate Landed<K(0, !new), V(0)>(cmp: (K, K) -> int, key: K, s: Tree<K, V>, index: int) {
    match s
    case Nil => false
    case Tree(_, ents, kids) =>
      if 0 <= index then index < |ents| && ents[index].key == key
      else
        var p := -index - 1;
        && p <= |ents| && p < |kids| && kids[p].Nil?
        && AllBelow(cmp, ents[..p], key) && AllAbove(cmp, ents[p..], key)
  }

  lemma ReachedMatched<K(0, !new), V(0)>(c: Context<K, V>, s: Tree<K, V>, h: nat, b: nat)
    requires BalancedContext(c, h, b) && Balanced(s, h, Least(c, b), b) && s.Tree?
    ensures Matched(c) && |s.kids| == |s.ents| + 1 && h > 0
  {
    BalancedMatched(c, h, b);
  }

  lemma SeekingSorted<K(0, !new), V(0)>(cmp: (K, K) -> int, key: K, shape: Tree<K, V>, c: Context<K, V>, s: Tree<K, V>, h: nat, b: nat)
    requires Seeking(cmp, key, shape, c, s, h, b)
    ensures Flat(shape) == Before(c) + Flat(s) + After(c) && Sorted(cmp, Flat(shape))
  {
    FlatPlug(c, s);
  }

  /** A search that lands on the key has found its value. */
  lemma SearchFound<K(0, !new), V(0)>(cmp: (K, K) -> int, key: K, shape: Tree<K, V>, c: Context<K, V>, s: Tree<K, V>, h: nat, b: nat, i: nat)
    returns (p: nat)
    requires TotalOrder(cmp) && Seeking(cmp, key, shape, c, s, h, b) && Landed(cmp, key, s, i)
    ensures p < |Flat(shape)| && i < |s.ents| && |s.kids| == |s.ents| + 1 && Flat(shape)[p] == s.ents[i]
    ensures forall e :: Flat(Plug(c, SetEntry(s, i, e))) == Flat(shape)[p := e]
    ensures key in AsMap(Flat(shape)) && AsMap(Flat(shape))[key] == s.ents[i].value
  {
    ReachedMatched(c, s, h, b);
    p := |Preceding(c, s, i)|;
    FlatSet(c, s, i, s.ents[i]);
    forall e ensures Flat(Plug(c, SetEntry(s, i, e))) == Flat(shape)[p := e] {
      FlatSet(c, s, i, e);
    }
    SeekingSorted(cmp, key, shape, c, s, h, b);
    SortedDistinct(cmp, Flat(shape));
    AsMapLookup(Flat(shape), p);
  }

  /** The heap of the whole tree, seen from the place the search has reached. */
  lemma Opened<K(0, !new), V(0)>(cmp: (K, K) -> int, key: K, shape: Tree<K, V>, c: Context<K, V>, s: Tree<K, V>, h: nat, b: nat)
    requires Sep(shape) && Rep(shape, b) && Seeking(cmp, key, shape, c, s, h, b)
    ensures Holds(c, s, b) && Objs(shape) == ContextObjs(c) + Objs(s) && Plug(c, s) == shape
    ensures s.Tree? ==> Own(s.ref) <= Objs(s)
  {
    DescendAll(c, s, b);
    AscendAll(c, s, b);
  }

  /** Nothing is stored in an empty tree. */
  lemma EmptyMap<K(0, !new), V(0)>(shape: Tree<K, V>, key: K)
    requires shape.Nil?
    ensures key !in AsMap(Flat(shape)) && Flat(shape) == []
  {
  }

  lemma SetSorted<K, V>(cmp: (K, K) -> int, s: seq<Entry<K, V>>, p: nat, e: Entry<K, V>)
    requires Sorted(cmp, s) && p < |s| && s[p].key == e.key
    ensures Sorted(cmp, s[p := e])
  {
  }

  /** Replacing an entry keeps the shape. */
  lemma SetBalanced<K(0, !new), V(0)>(c: Context<K, V>, s: Tree<K, V>, h: nat, b: nat, i: nat, e: Entry<K, V>)
    returns (whole: Tree<K, V>, height: nat)
    requires b > 1 && BalancedContext(c, h, b) && Balanced(s, h, Least(c, b), b) && s.Tree? && i < |s.ents|
    ensures whole == Plug(c, SetEntry(s, i, e)) && Root(whole) == Root(Plug(c, s)) && Balanced(whole, height, 1, b)
  {
    var r := SetEntry(s, i, e);
    whole, height := Plug(c, r), h + Depth(c);
    assert Balanced(r, h, Least(c, b), b);
    BalancedPlug(c, r, h, b);
    RootPlug(c, r, s);
  }

  lemma SetMap<K(!new), V>(cmp: (K, K) -> int, s: seq<Entry<K, V>>, p: nat, e: Entry<K, V>)
    requires TotalOrder(cmp) && Sorted(cmp, s) && p < |s| && s[p].key == e.key
    ensures Sorted(cmp, s[p := e]) && AsMap(s[p := e]) == AsMap(s)[e.key := e.value]
  {
    SetSorted(cmp, s, p, e);
    SortedDistinct(cmp, s);
    AsMapUpdate(s, p, e.value);
  }

  /** Replacing the value where the search landed keeps order and balance. */
  lemma SetFound<K(0, !new), V(0)>(cmp: (K, K) -> int, shape: Tree<K, V>, c: Context<K, V>, s: Tree<K, V>,
      h: nat, b: nat, i: nat, e: Entry<K, V>) returns (whole: Tree<K, V>, height: nat)
    requires TotalOrder(cmp) && b > 1 && Seeking(cmp, e.key, shape, c, s, h, b) && Landed(cmp, e.key, s, i)
    ensures whole == Plug(c, Tree(s.ref, s.ents[i := e], s.kids)) && Root(whole) == Root(shape)
    ensures Sorted(cmp, Flat(whole)) && Balanced(whole, height, 1, b)
    ensures AsMap(Flat(whole)) == AsMap(Flat(shape))[e.key := e.value]
  {
    hide TotalOrder, Sorted, Flat, AsMap, Balanced, BalancedContext, Root, Plug;
    SeekingSorted(cmp, e.key, shape, c, s, h, b);
    var p := SearchFound(cmp, e.key, shape, c, s, h, b, i);
    SetMap(cmp, Flat(shape), p, e);
    whole, height := SetBalanced(c, s, h, b, i, e);
  }

  lemma StartSeeking<K(0, !new), V(0)>(cmp: (K, K) -> int, key: K, shape: Tree<K, V>, h: nat, b: nat)
    requires Balanced(shape, h, 1, b) && Sorted(cmp, Flat(shape))
    ensures Seeking(cmp, key, shape, Top, shape, h, b)
  {
    assert Before<K, V>(Top) + Flat(shape) + After<K, V>(Top) == Flat(shape);
  }
}
