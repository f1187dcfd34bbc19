/**
 * The tree a removal leaves, as a function of the tree it starts from, and what that means at the
 * node that lost a key: the left neighbour is asked for a key first, then the right one, and a
 * merge prefers the left.
 */
module Repairs {
  import opened Basics
  import opened Entries
  import opened Shapes
  import opened Search
  import opened Removal
  import opened Thinning
  import opened Predecessor
  import opened Skeletons
  import opened FullParents

  /** Two nodes and the entry between them in one. */
  ghost function JoinBare<K, V>(x: Bare<K, V>, e: Entry<K, V>, y: Bare<K, V>): Bare<K, V>
    requires x.Bare? && y.Bare?
  {
    Bare(x.ents + [e] + y.ents, x.kids + y.kids)
  }

  /** The parent after `n` took a key from its left neighbour. */
  ghost function LeftLent<K, V>(a: Around<K, V>, n: Bare<K, V>): Bare<K, V>
    requires Shaped(a) && a.Around? && n.Bare? && a.left != [] && Rich(a.left[|a.left| - 1], 1)
  {
    var l, x := |a.left| - 1, a.left[|a.left| - 1];
    var m := |x.ents| - 1;
    Bare(a.lents[..l] + [x.ents[m]] + a.rents,
         a.left[..l] + [Bare(x.ents[..m], x.kids[..m + 1]), Bare([a.lents[l]] + n.ents, [x.kids[m + 1]] + n.kids)] + a.right)
  }

  /** The parent after `n` took a key from its right neighbour. */
  ghost function RightLent<K, V>(a: Around<K, V>, n: Bare<K, V>): Bare<K, V>
    requires Shaped(a) && a.Around? && n.Bare? && a.right != [] && Rich(a.right[0], 1)
  {
    var y := a.right[0];
    Bare(a.lents + [y.ents[0]] + a.rents[1..],
         a.left + [Bare(n.ents + [a.rents[0]], n.kids + [y.kids[0]]), Bare(y.ents[1..], y.kids[1..])] + a.right[1..])
  }

  /** The parent after `n` and a neighbour, the left one if there is one, became one node. */
  ghost function Fused<K, V>(a: Around<K, V>, n: Bare<K, V>): Bare<K, V>
    requires Shaped(a) && a.Around? && n.Bare?
    requires if a.left != [] then a.left[|a.left| - 1].Bare? else a.right != [] && a.right[0].Bare?
  {
    if a.left != [] then
      var l := |a.left| - 1;
      Bare(a.lents[..l] + a.rents, a.left[..l] + [JoinBare(a.left[l], a.lents[l], n)] + a.right)
    else Bare(a.rents[1..], [JoinBare(n, a.rents[0], a.right[0])] + a.right[1..])
  }

  ghost predicate AsksLeft<K, V>(a: Around<K, V>, b: nat) {
    a.Around? && a.left != [] && Rich(a.left[|a.left| - 1], b)
  }

  ghost predicate AsksRight<K, V>(a: Around<K, V>, b: nat) {
    a.Around? && a.right != [] && Rich(a.right[0], b) && !AsksLeft(a, b)
  }

  /** There is a neighbour to merge with. */
  ghost predicate Paired<K, V>(a: Around<K, V>) {
    a.Around? && if a.left != [] then a.left[|a.left| - 1].Bare? else a.right != [] && a.right[0].Bare?
  }

  /** The tree after the repair that starts at `n`. */
  ghost function Repaired<K, V>(a: Around<K, V>, n: Bare<K, V>, b: nat): Bare<K, V>
    requires Shaped(a) && n.Bare? && |n.kids| == |n.ents| + 1 && b > 1
    decreases a
  {
    if |n.ents| >= b - 1 then PlugBare(a, n)
    else if a.Whole? then if n.ents == [] then n.kids[0] else n
    else if AsksLeft(a, b) then PlugBare(a.up, LeftLent(a, n))
    else if AsksRight(a, b) then PlugBare(a.up, RightLent(a, n))
    else if Paired(a) then Repaired(a.up, Fused(a, n), b)
    else PlugBare(a, n)
  }

  /** The leaf that loses a key, without it, after the exchange that brings the key there. */
  ghost function Shortened<K, V>(s: Spot<K, V>): (r: Spot<K, V>)
    requires s.node.Bare? && Formed(s.node) && Shaped(s.around) && 0 <= s.index < |s.node.ents|
    ensures Shaped(r.around) && r.node.Bare? && |r.node.kids| == |r.node.ents| + 1
  {
    var n, i := s.node, s.index;
    if n.kids[0].Nothing? || n.kids[i].Nothing? then Spot(s.around, Bare(RemoveAt(n.ents, i), n.kids[..|n.ents|]), i)
    else
      var leaf := LastLeaf(Enter(s.around, n, i), n.kids[i]).node;
      if leaf.ents == [] then s
      else
        var m := |leaf.ents| - 1;
        var g := LastLeaf(Enter(s.around, Bare(n.ents[i := leaf.ents[m]], n.kids), i), n.kids[i]).around;
        Spot(g, Bare(leaf.ents[..m], leaf.kids[..m + 1]), m)
  }

  /** The tree without the key. */
  ghost function RemoveBare<K, V>(cmp: (K, K) -> int, w: Bare<K, V>, key: K, b: nat): Bare<K, V>
    requires Formed(w) && b > 1
  {
    if w.Nothing? then w
    else
      var s := Locate(cmp, Whole, w, key);
      if s.index < 0 then w else
        var q := Shortened(s);
        Repaired(q.around, q.node, b)
  }

  /* ---- the loop of removal ---- */

  /** The repair from here on ends in `target`. */
  ghost predicate Mending<K(0, !new), V(0)>(c: Context<K, V>, n: Tree<K, V>, b: nat, target: Bare<K, V>) {
    && b > 1 && n.Tree? && |n.kids| == |n.ents| + 1 && Shaped(StripContext(c))
    && Repaired(StripContext(c), Strip(n), b) == target
  }

  lemma MendDone<K(0, !new), V(0)>(c: Context<K, V>, n: Tree<K, V>, b: nat, target: Bare<K, V>)
    requires Mending(c, n, b, target) && |n.ents| >= b - 1
    ensures Strip(Plug(c, n)) == target
  {
    StripPlug(c, n);
  }

  /** A root that is short stays, or gives way to its only subtree. */
  lemma MendRoot<K(0, !new), V(0)>(n: Tree<K, V>, b: nat, target: Bare<K, V>)
    requires Mending(Top, n, b, target) && |n.ents| < b - 1
    ensures target == if n.ents == [] then Strip(n.kids[0]) else Strip(n)
  {
  }

  lemma StripConcat<K(0, !new), V(0)>(ts: seq<Tree<K, V>>, us: seq<Tree<K, V>>)
    ensures StripAll(ts + us) == StripAll(ts) + StripAll(us)
  {
  }

  lemma StripRow<K(0, !new), V(0)>(left: seq<Tree<K, V>>, x: Tree<K, V>, y: Tree<K, V>, right: seq<Tree<K, V>>)
    ensures StripAll(left + [x, y] + right) == StripAll(left) + [Strip(x), Strip(y)] + StripAll(right)
    ensures StripAll(left + [x] + right) == StripAll(left) + [Strip(x)] + StripAll(right)
  {
  }

  lemma MendLeft<K(0, !new), V(0)>(c: Context<K, V>, n: Tree<K, V>, b: nat, target: Bare<K, V>, w: Twin<K, V>)
    requires Mending(c, n, b, target) && |n.ents| < b - 1 && c.Hole? && RichLeft(c, b)
    requires |c.left| == |c.lents| && w == WithLeft(c, n) && TwinFormed(w)
    ensures |w.a.ents| > 0 && Strip(Plug(c.up, Parent(FromLeft(w)))) == target
  {
    hide Strip, StripAll, StripContext;
    var v := FromLeft(w);
    ContextSame(c);
    StripSame(n);
    StripSame(w.a);
    LentLeft(c, n, w, v);
    StripPlug(c.up, Parent(v));
  }

  /** The three nodes of a loan from the left, without their references. */
  lemma LentLeft<K(0, !new), V(0)>(c: Context<K, V>, n: Tree<K, V>, w: Twin<K, V>, v: Twin<K, V>)
    requires c.Hole? && n.Tree? && Shaped(StripContext(c)) && RichLeft(c, 1) && |c.left| == |c.lents|
    requires w == WithLeft(c, n) && TwinFormed(w) && |w.a.ents| > 0 && v == FromLeft(w)
    ensures Strip(Parent(v)) == LeftLent(StripContext(c), Strip(n))
  {
    hide Strip, StripAll, StripContext, Shaped;
    var x, m := w.a, |w.a.ents| - 1;
    ContextSame(c);
    StripSame(x);
    StripSame(n);
    StripSame(v.a);
    StripSame(v.b);
    StripSame(Parent(v));
    StripSlices(x.kids, m + 1);
    StripSlices(c.left, |c.left| - 1);
    StripConcat([x.kids[m + 1]], n.kids);
    StripRow(w.left, v.a, v.b, w.right);
    assert StripAll([x.kids[m + 1]]) == [Strip(x).kids[m + 1]];
  }

  lemma MendRight<K(0, !new), V(0)>(c: Context<K, V>, n: Tree<K, V>, b: nat, target: Bare<K, V>, w: Twin<K, V>)
    requires Mending(c, n, b, target) && |n.ents| < b - 1 && c.Hole? && !RichLeft(c, b) && RichRight(c, b)
    requires |c.right| == |c.rents| && w == WithRight(c, n) && TwinFormed(w)
    ensures |w.b.ents| > 0 && Strip(Plug(c.up, Parent(FromRight(w)))) == target
  {
    hide Strip, StripAll, StripContext;
    var v := FromRight(w);
    ContextSame(c);
    StripSame(n);
    StripSame(w.b);
    NotRich(c, b);
    LentRight(c, n, w, v);
    StripPlug(c.up, Parent(v));
  }

  lemma NotRich<K(0, !new), V(0)>(c: Context<K, V>, b: nat)
    requires c.Hole?
    ensures AsksLeft(StripContext(c), b) <==> RichLeft(c, b)
    ensures AsksRight(StripContext(c), b) <==> RichRight(c, b) && !RichLeft(c, b)
  {
  }

  lemma LentRight<K(0, !new), V(0)>(c: Context<K, V>, n: Tree<K, V>, w: Twin<K, V>, v: Twin<K, V>)
    requires c.Hole? && n.Tree? && Shaped(StripContext(c)) && RichRight(c, 1) && |c.right| == |c.rents|
    requires w == WithRight(c, n) && TwinFormed(w) && |w.b.ents| > 0 && v == FromRight(w)
    ensures Strip(Parent(v)) == RightLent(StripContext(c), Strip(n))
  {
    hide Strip, StripAll, StripContext, Shaped;
    var y := w.b;
    ContextSame(c);
    StripSame(y);
    StripSame(n);
    StripSame(v.a);
    StripSame(v.b);
    StripSame(Parent(v));
    StripSlices(y.kids, 1);
    StripSlices(c.right, 1);
    StripConcat(n.kids, [y.kids[0]]);
    StripRow(w.left, v.a, v.b, w.right);
    assert StripAll([y.kids[0]]) == [Strip(y).kids[0]];
  }

  /** A merge hands the target on to the parent. */
  lemma MendMerge<K(0, !new), V(0)>(c: Context<K, V>, n: Tree<K, V>, b: nat, target: Bare<K, V>, w: Twin<K, V>)
    requires Mending(c, n, b, target) && |n.ents| < b - 1 && c.Hole? && !RichLeft(c, b) && !RichRight(c, b)
    requires |c.left| == |c.lents| && |c.right| == |c.rents| && |c.left| + |c.right| > 0
    requires w == (if |c.left| > 0 then WithLeft(c, n) else WithRight(c, n)) && TwinFormed(w)
    ensures Mending(c.up, Merged(w), b, target)
  {
    hide Strip, StripAll, StripContext;
    ContextSame(c);
    StripSame(n);
    NotRich(c, b);
    StripSame(w.a);
    StripSame(w.b);
    Merges(c, n, w);
  }

  lemma Merges<K(0, !new), V(0)>(c: Context<K, V>, n: Tree<K, V>, w: Twin<K, V>)
    requires c.Hole? && n.Tree? && Shaped(StripContext(c)) && Paired(StripContext(c))
    requires |c.left| == |c.lents| && |c.right| == |c.rents| && |c.left| + |c.right| > 0
    requires w == (if |c.left| > 0 then WithLeft(c, n) else WithRight(c, n)) && TwinFormed(w)
    ensures Merged(w).Tree? && |Merged(w).kids| == |Merged(w).ents| + 1 && Strip(Merged(w)) == Fused(StripContext(c), Strip(n))
  {
    hide Strip, StripAll, StripContext, Shaped;
    ContextSame(c);
    StripSame(n);
    StripSame(w.a);
    StripSame(w.b);
    StripSame(Joined(w));
    StripSame(Merged(w));
    StripConcat(w.a.kids, w.b.kids);
    StripRow(w.left, Joined(w), Joined(w), w.right);
    if |c.left| > 0 {
      StripSlices(c.left, |c.left| - 1);
    } else {
      StripSlices(c.right, 1);
    }
  }

  lemma MendStart<K(0, !new), V(0)>(c: Context<K, V>, n: Tree<K, V>, h: nat, b: nat, goal: seq<Entry<K, V>>) returns (target: Bare<K, V>)
    requires b > 1 && Thin(c, n, h, b, goal)
    ensures Mending(c, n, b, target)
  {
    StripShaped(c, h, b);
    target := Repaired(StripContext(c), Strip(n), b);
  }

  /* ---- the way down ---- */

  /** The frames of `x` below those of `a`. */
  ghost function Over<K, V>(x: Around<K, V>, a: Around<K, V>): Around<K, V> {
    match x
    case Whole => a
    case Around(up, left, lents, rents, right) => Around(Over(up, a), left, lents, rents, right)
  }

  lemma {:induction false} LastOver<K, V>(x: Around<K, V>, a: Around<K, V>, n: Bare<K, V>)
    requires n.Bare? && Formed(n)
    ensures var l := LastLeaf(x, n); LastLeaf(Over(x, a), n) == Spot(Over(l.around, a), l.node, l.index)
    decreases n
  {
    var m := |n.ents|;
    if n.kids[m].Bare? {
      LastOver(Enter(x, n, m), a, n.kids[m]);
    }
  }

  lemma {:induction false} StripGraft<K(0, !new), V(0)>(chain: Context<K, V>, base: Context<K, V>)
    ensures StripContext(Graft(chain, base)) == Over(StripContext(chain), StripContext(base))
    ensures Graft(chain, Top) == chain
  {
    if chain.Hole? {
      StripGraft(chain.up, base);
    }
  }

  /** Where the walk ends does not depend on what it started below. */
  lemma EndsBelow<K(0, !new), V(0)>(base: Context<K, V>, k: Tree<K, V>, chain: Context<K, V>, leaf: Tree<K, V>)
    requires EndsIn(Top, k, chain, leaf)
    ensures EndsIn(base, k, chain, leaf)
  {
    StripGraft(chain, base);
    StripGraft(chain, Top);
    LastOver(Whole, StripContext(base), Strip(k));
  }

  /* ---- the whole removal ---- */

  lemma StripWithout<K(0, !new), V(0)>(n: Tree<K, V>, j: nat)
    requires n.Tree? && j < |n.ents| && |n.kids| == |n.ents| + 1
    ensures Strip(Without(n, j)) == Bare(RemoveAt(n.ents, j), Strip(n).kids[..|n.ents|])
  {
    StripSlices(n.kids, |n.ents|);
  }

  /** A key of a leaf. */
  lemma LeafRemoved<K(0, !new), V(0)>(cmp: (K, K) -> int, key: K, shape: Tree<K, V>, c: Context<K, V>, s: Tree<K, V>, i: nat, b: nat, target: Bare<K, V>)
    requires Formed(Strip(shape)) && LeadsTo(cmp, key, shape, c, s, i) && s.Tree? && |s.kids| == |s.ents| + 1 && s.kids[0].Nil?
    requires i < |s.ents| && Mending(c, Without(s, i), b, target)
    ensures target == RemoveBare(cmp, Strip(shape), key, b)
  {
    hide Locate, RemoveAt, Repaired;
    StripWithout(s, i);
  }

  /** A key above the leaves is exchanged with the last of its left subtree. */
  lemma InnerShortened<K(0, !new), V(0)>(c: Context<K, V>, s: Tree<K, V>, i: nat, chain: Context<K, V>, leaf: Tree<K, V>, m: nat)
    requires s.Tree? && |s.kids| == |s.ents| + 1 && i < |s.ents| && Formed(Strip(s)) && Shaped(StripContext(c))
    requires s.kids[0].Tree? && s.kids[i].Tree? && EndsIn(Top, s.kids[i], chain, leaf)
    requires leaf.Tree? && |leaf.ents| == m + 1 && |leaf.kids| == m + 2
    ensures var g := Graft(chain, At(c, SetEntry(s, i, leaf.ents[m]), i));
      Shortened(Spot(StripContext(c), Strip(s), i)) == Spot(StripContext(g), Bare(leaf.ents[..m], Strip(leaf).kids[..m + 1]), m)
  {
    hide LastLeaf, Formed, Shaped, StripAll;
    var s2 := SetEntry(s, i, leaf.ents[m]);
    EndsBelow(At(c, s, i), s.kids[i], chain, leaf);
    EndsBelow(At(c, s2, i), s.kids[i], chain, leaf);
    StripEnter(c, s, At(c, s, i), i);
    StripEnter(c, s2, At(c, s2, i), i);
    StripSame(s);
    StripSame(s2);
    StripSame(leaf);
  }

  lemma InnerRemoved<K(0, !new), V(0)>(cmp: (K, K) -> int, key: K, shape: Tree<K, V>, c: Context<K, V>, s: Tree<K, V>, i: nat, b: nat,
      chain: Context<K, V>, leaf: Tree<K, V>, r: Tree<K, V>, target: Bare<K, V>)
    requires Formed(Strip(shape)) && LeadsTo(cmp, key, shape, c, s, i) && s.Tree? && |s.kids| == |s.ents| + 1 && i < |s.ents|
    requires s.kids[0].Tree? && s.kids[i].Tree? && EndsIn(Top, s.kids[i], chain, leaf)
    requires leaf.Tree? && leaf.ents != [] && |leaf.kids| == |leaf.ents| + 1
    requires r == Tree(leaf.ref, leaf.ents[|leaf.ents| - 1 := s.ents[i]], leaf.kids)
    requires Mending(Graft(chain, At(c, SetEntry(s, i, leaf.ents[|leaf.ents| - 1]), i)), Without(r, |r.ents| - 1), b, target)
    ensures target == RemoveBare(cmp, Strip(shape), key, b)
  {
    hide Locate, Repaired, LastLeaf, EndsIn, Shortened, StripAll, Graft, At, SetEntry, RemoveAt;
    var m := |leaf.ents| - 1;
    InnerShortened(c, s, i, chain, leaf, m);
    StripWithout(r, m);
    DropLast(leaf.ents, m, s.ents[i]);
    StripSame(leaf);
    StripSame(r);
  }

  lemma DropLast<T>(s: seq<T>, m: nat, x: T)
    requires |s| == m + 1
    ensures RemoveAt(s[m := x], m) == s[..m]
  {
  }

  /* ---- what the repair means ---- */

  ghost predicate Occurs<K, V>(w: Bare<K, V>, x: Bare<K, V>) {
    w == x || (w.Bare? && exists i :: 0 <= i < |w.kids| && Occurs(w.kids[i], x))
  }

  /** The subtree of `w` where `a` has its hole. */
  ghost function Facing<K, V>(w: Bare<K, V>, a: Around<K, V>): Bare<K, V> {
    if a.Whole? then w
    else
      var p := Facing(w, a.up);
      if p.Bare? && |a.left| < |p.kids| then p.kids[|a.left|] else Nothing
  }

  lemma {:induction false} FacingPlug<K, V>(a: Around<K, V>, n: Bare<K, V>)
    ensures Facing(PlugBare(a, n), a) == n
  {
    if a.Around? {
      FacingPlug(a.up, FillBare(a, n));
    }
  }

  /** In parent `p` the left neighbour's last key became the separator, and the separator the first key of `n`. */
  ghost predicate GaveLeft<K, V>(a: Around<K, V>, n: Bare<K, V>, p: Bare<K, V>) {
    && a.Around? && n.Bare? && p.Bare? && 0 < |a.left| == |a.lents| && |p.kids| == |a.left| + 1 + |a.right| && |p.ents| == |a.lents| + |a.rents|
    && var l := |a.left| - 1;
      && a.left[l].Bare? && p.kids[l].Bare? && p.kids[l + 1].Bare?
      && p.kids[..l] == a.left[..l] && p.kids[l + 2..] == a.right && p.ents == (a.lents + a.rents)[l := p.ents[l]]
      && p.kids[l].ents + [p.ents[l]] == a.left[l].ents && p.kids[l + 1].ents == [a.lents[l]] + n.ents
      && |p.kids[l].kids| == |a.left[l].kids| - 1 && p.kids[l].kids + p.kids[l + 1].kids == a.left[l].kids + n.kids
  }

  /** In parent `p` the right neighbour's first key became the separator, and the separator the last key of `n`. */
  ghost predicate GaveRight<K, V>(a: Around<K, V>, n: Bare<K, V>, p: Bare<K, V>) {
    && a.Around? && n.Bare? && p.Bare? && 0 < |a.right| == |a.rents| && |p.kids| == |a.left| + 1 + |a.right|
    && |p.ents| == |a.lents| + |a.rents| && |a.left| == |a.lents|
    && var l := |a.left|;
      && a.right[0].Bare? && p.kids[l].Bare? && p.kids[l + 1].Bare?
      && p.kids[..l] == a.left && p.kids[l + 2..] == a.right[1..] && p.ents == (a.lents + a.rents)[l := p.ents[l]]
      && [p.ents[l]] + p.kids[l + 1].ents == a.right[0].ents && p.kids[l].ents == n.ents + [a.rents[0]]
      && |p.kids[l].kids| == |n.kids| + 1 && p.kids[l].kids + p.kids[l + 1].kids == n.kids + a.right[0].kids
  }

  /**
   * What has become of `n` and its neighbours in the tree `whole`: with enough keys, or as the root,
   * `n` stays; short of one it takes a key from a left neighbour of at least `b`, else from such a
   * right one, else it is joined with the left neighbour, or with the right one if there is no left.
   */
  ghost predicate Mended<K, V>(a: Around<K, V>, n: Bare<K, V>, b: nat, whole: Bare<K, V>)
    requires Shaped(a) && n.Bare? && |n.kids| == |n.ents| + 1
  {
    if |n.ents| >= b - 1 then whole == PlugBare(a, n)
    else match a
      case Whole => whole == if n.ents == [] then n.kids[0] else n
      case Around(up, left, lents, rents, right) =>
        if left != [] && Rich(left[|left| - 1], b) then GaveLeft(a, n, Facing(whole, up)) && whole == PlugBare(up, Facing(whole, up))
        else if right != [] && Rich(right[0], b) then GaveRight(a, n, Facing(whole, up)) && whole == PlugBare(up, Facing(whole, up))
        else if left != [] then left[|left| - 1].Bare? ==> Occurs(whole, JoinBare(left[|left| - 1], lents[|left| - 1], n))
        else right != [] && right[0].Bare? ==> Occurs(whole, JoinBare(n, rents[0], right[0]))
  }

  lemma {:induction false} OccursPlug<K, V>(a: Around<K, V>, n: Bare<K, V>, x: Bare<K, V>)
    requires Occurs(n, x)
    ensures Occurs(PlugBare(a, n), x)
  {
    if a.Around? {
      var p := FillBare(a, n);
      assert p.kids[|a.left|] == n;
      OccursPlug(a.up, p, x);
    }
  }

  lemma OccursBelow<K, V>(w: Bare<K, V>, i: nat, j: nat, x: Bare<K, V>)
    requires w.Bare? && i < |w.kids| && w.kids[i].Bare? && j < |w.kids[i].kids| && Occurs(w.kids[i].kids[j], x)
    ensures Occurs(w.kids[i], x) && Occurs(w, x)
  {
  }

  /** Whatever the repair does above, it moves subtrees whole. */
  lemma {:induction false} OccursRepaired<K, V>(a: Around<K, V>, n: Bare<K, V>, b: nat, i: nat, x: Bare<K, V>)
    requires Shaped(a) && n.Bare? && |n.kids| == |n.ents| + 1 && b > 1 && i < |n.kids| && Occurs(n.kids[i], x)
    ensures Occurs(Repaired(a, n, b), x)
    decreases a
  {
    assert Occurs(n, x);
    if |n.ents| >= b - 1 {
      OccursPlug(a, n, x);
    } else if a.Whole? {
    } else if AsksLeft(a, b) {
      var p := LeftLent(a, n);
      OccursBelow(p, |a.left|, i + 1, x);
      OccursPlug(a.up, p, x);
    } else if AsksRight(a, b) {
      var p := RightLent(a, n);
      OccursBelow(p, |a.left|, i, x);
      OccursPlug(a.up, p, x);
    } else if Paired(a) {
      var p := Fused(a, n);
      if a.left != [] {
        OccursBelow(p, |a.left| - 1, |a.left[|a.left| - 1].kids| + i, x);
        OccursRepaired(a.up, p, b, |a.left| - 1, x);
      } else {
        OccursBelow(p, 0, i, x);
        OccursRepaired(a.up, p, b, 0, x);
      }
    } else {
      OccursPlug(a, n, x);
    }
  }

  lemma LeftGives<K, V>(a: Around<K, V>, n: Bare<K, V>)
    requires Shaped(a) && a.Around? && n.Bare? && a.left != [] && Rich(a.left[|a.left| - 1], 1)
    ensures GaveLeft(a, n, LeftLent(a, n))
  {
  }

  lemma RightGives<K, V>(a: Around<K, V>, n: Bare<K, V>)
    requires Shaped(a) && a.Around? && n.Bare? && a.right != [] && Rich(a.right[0], 1)
    ensures GaveRight(a, n, RightLent(a, n))
  {
  }

  lemma RepairMends<K, V>(a: Around<K, V>, n: Bare<K, V>, b: nat)
    requires Shaped(a) && n.Bare? && |n.kids| == |n.ents| + 1 && b > 1
    ensures Mended(a, n, b, Repaired(a, n, b))
  {
    if |n.ents| < b - 1 && a.Around? {
      if AsksLeft(a, b) {
        LeftGives(a, n);
        FacingPlug(a.up, LeftLent(a, n));
      } else if AsksRight(a, b) {
        RightGives(a, n);
        FacingPlug(a.up, RightLent(a, n));
      } else if Paired(a) {
        var p := Fused(a, n);
        var i := if a.left != [] then |a.left| - 1 else 0;
        OccursRepaired(a.up, p, b, i, p.kids[i]);
      }
    }
  }

  lemma MendingMeans<K(0, !new), V(0)>(c: Context<K, V>, n: Tree<K, V>, b: nat, target: Bare<K, V>)
    requires Mending(c, n, b, target)
    ensures n.Tree? && Shaped(StripContext(c)) && |Strip(n).kids| == |Strip(n).ents| + 1
    ensures Mended(StripContext(c), Strip(n), b, target)
  {
    RepairMends(StripContext(c), Strip(n), b);
  }

  /** What removing `key` from `w` means where the key, or the one exchanged with it, was taken from a leaf. */
  ghost predicate RemovalMends<K, V>(cmp: (K, K) -> int, w: Bare<K, V>, key: K, b: nat, whole: Bare<K, V>)
    requires Formed(w)
  {
    if w.Nothing? then whole == w
    else
      var s := Locate(cmp, Whole, w, key);
      if s.index < 0 then whole == w
      else
        var q := Shortened(s);
        Mended(q.around, q.node, b, whole)
  }

  lemma RemoveMends<K, V>(cmp: (K, K) -> int, w: Bare<K, V>, key: K, b: nat)
    requires Formed(w) && b > 1
    ensures RemovalMends(cmp, w, key, b, RemoveBare(cmp, w, key, b))
  {
    if w.Bare? {
      var s := Locate(cmp, Whole, w, key);
      if s.index >= 0 {
        var q := Shortened(s);
        RepairMends(q.around, q.node, b);
      }
    }
  }

  lemma MissesRemoved<K(0, !new), V(0)>(cmp: (K, K) -> int, key: K, shape: Tree<K, V>, c: Context<K, V>, s: Tree<K, V>, index: int, b: nat)
    requires Formed(Strip(shape)) && (shape.Tree? ==> LeadsTo(cmp, key, shape, c, s, index)) && index < 0 && b > 1
    ensures Strip(shape) == RemoveBare(cmp, Strip(shape), key, b)
  {
  }
}
