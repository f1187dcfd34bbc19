/** How many keys a tree of a given height must hold. */
module Heights {
  import opened Basics
  import opened Entries
  import opened Shapes
  import opened Search

  function Power(b: nat, n: nat): (r: nat)
    ensures b > 0 ==> r > 0
  {
    if n == 0 then 1 else b * Power(b, n - 1)
  }

  lemma {:induction false} LeftLong<K(0, !new), V(0)>(es: seq<Entry<K, V>>, ts: seq<Tree<K, V>>, least: nat)
    requires |es| == |ts| && forall i :: 0 <= i < |ts| ==> least <= |Flat(ts[i])|
    ensures |ts| * (least + 1) <= |FlatRight(es, ts)|
  {
    if ts != [] {
      LeftLong(es[1..], ts[1..], least);
      Distribute(|ts|, least + 1);
    }
  }

  /** `n` keys and `n + 1` subtrees of at least `least` keys each. */
  lemma NodeLong<K(0, !new), V(0)>(s: Tree<K, V>, n: nat, least: nat)
    requires s.Tree? && |s.kids| == |s.ents| + 1 && n <= |s.ents|
    requires forall i :: 0 <= i < |s.kids| ==> least <= |Flat(s.kids[i])|
    ensures (n + 1) * (least + 1) - 1 <= |Flat(s)|
  {
    LeftLong(s.ents, s.kids[1..], least);
    Widen(n, |s.ents|, least + 1);
    Distribute(n + 1, least + 1);
  }

  /** A subtree below the root holds at least b^h - 1 keys. */
  lemma {:induction false} SubtreeLong<K(0, !new), V(0)>(s: Tree<K, V>, h: nat, b: nat)
    requires b > 1 && Balanced(s, h, Min(b), b)
    ensures Power(b, h) - 1 <= |Flat(s)|
    decreases h
  {
    if h > 0 {
      assert BalancedAll(s.kids, h - 1, b);
      forall i | 0 <= i < |s.kids| ensures Power(b, h - 1) - 1 <= |Flat(s.kids[i])| {
        SubtreeLong(s.kids[i], h - 1, b);
      }
      NodeLong(s, b - 1, Power(b, h - 1) - 1);
    }
  }

  /** A tree of height `h` holds at least 2 b^(h-1) - 1 keys. */
  lemma TreeLong<K(0, !new), V(0)>(s: Tree<K, V>, h: nat, b: nat)
    requires b > 1 && h > 0 && Balanced(s, h, 1, b)
    ensures 2 * Power(b, h - 1) - 1 <= |Flat(s)|
  {
    assert BalancedAll(s.kids, h - 1, b);
    forall i | 0 <= i < |s.kids| ensures Power(b, h - 1) - 1 <= |Flat(s.kids[i])| {
      SubtreeLong(s.kids[i], h - 1, b);
    }
    NodeLong(s, 1, Power(b, h - 1) - 1);
  }

  lemma {:induction false} TrailLength<K(0, !new), V(0)>(path: seq<Step<K, V>>, c: Context<K, V>)
    requires Trail(path, c)
    ensures |path| == Depth(c)
  {
    if c.Hole? {
      TrailLength(path[..|path| - 1], c.up);
    }
  }

  lemma PowerMonotone(b: nat, m: nat, n: nat)
    requires b > 0 && m <= n
    ensures Power(b, m) <= Power(b, n)
  {
    if m < n {
      PowerMonotone(b, m, n - 1);
      Widen(1, b, Power(b, n - 1));
    }
  }

  /** A search path of h + 1 nodes means at least 2 b^h - 1 stored keys: paths are logarithmic. */
  lemma PathBound<K(0, !new), V(0)>(cmp: (K, K) -> int, key: K, shape: Tree<K, V>, c: Context<K, V>, s: Tree<K, V>,
      h: nat, b: nat, path: seq<Step<K, V>>)
    requires b > 1 && s.Tree? && Seeking(cmp, key, shape, c, s, h, b)
    requires path != [] && Trail(path[..|path| - 1], c)
    ensures 2 * Power(b, |path| - 1) - 1 <= |Flat(shape)|
  {
    hide Flat, Power, Balanced, BalancedContext, Plug, Trail, AllBelow, AllAbove, Sorted, Before, After, Depth;
    ReachedMatched(c, s, h, b);
    TrailLength(path[..|path| - 1], c);
    BalancedPlug(c, s, h, b);
    TreeLong(shape, h + Depth(c), b);
    PowerMonotone(b, |path| - 1, h + Depth(c) - 1);
  }
}
