/** The bottom-up loop of removal: a node that may have one key too few, and what restores it. */
module Thinning {
  import opened Basics
  import opened Entries
  import opened Shapes
  import opened Surgery
  import opened Removal

  /** Node `n` of height `h` may be one key short; the whole tree holds `goal`. */
  ghost predicate Thin<K(0, !new), V(0)>(c: Context<K, V>, n: Tree<K, V>, h: nat, b: nat, goal: seq<Entry<K, V>>) {
    match n
    case Nil => false
    case Tree(_, ents, kids) =>
      && BalancedContext(c, h, b) && h > 0
      && Least(c, b) <= |ents| + 1 <= 2 * b && |kids| == |ents| + 1 && BalancedAll(kids, h - 1, b)
      && Before(c) + Flat(n) + After(c) == goal
  }

  /** What the heap and the shape show of a node that may be short. */
  lemma ThinNode<K(0, !new), V(0)>(c: Context<K, V>, n: Tree<K, V>, h: nat, b: nat, goal: seq<Entry<K, V>>)
    requires Thin(c, n, h, b, goal) && Holds(c, n, b)
    ensures n.Tree? && n.ref.size == |n.ents| && Own(n.ref) <= Objs(n) && |n.kids| == |n.ents| + 1
    ensures n.ref.Fits() && n.ref.Kids() == Roots(n.kids)
  {
  }

  lemma ThinSize<K(0, !new), V(0)>(c: Context<K, V>, n: Tree<K, V>, h: nat, b: nat, goal: seq<Entry<K, V>>)
    requires Thin(c, n, h, b, goal) && b > 1
    ensures |n.ents| < 2 * b && Least(c, b) <= |n.ents| + 1 && (|n.ents| >= b - 1 ==> Least(c, b) <= |n.ents|)
    ensures c.Hole? ==> |n.ents| >= b - 2
  {
  }

  /** Enough keys: the tree is balanced again. */
  lemma ThinDone<K(0, !new), V(0)>(c: Context<K, V>, n: Tree<K, V>, h: nat, b: nat, goal: seq<Entry<K, V>>)
    returns (whole: Tree<K, V>, height: nat)
    requires Thin(c, n, h, b, goal) && b > 1 && Least(c, b) <= |n.ents| < 2 * b
    ensures whole == Plug(c, n) && Flat(whole) == goal && Balanced(whole, height, 1, b)
  {
    whole, height := Plug(c, n), h + Depth(c);
    assert Balanced(n, h, Least(c, b), b);
    BalancedPlug(c, n, h, b);
    BalancedMatched(c, h, b);
    FlatPlug(c, n);
  }

  /** A root without keys gives way to its only subtree. */
  lemma ThinRoot<K(0, !new), V(0)>(n: Tree<K, V>, h: nat, b: nat, goal: seq<Entry<K, V>>)
    requires Thin(Top, n, h, b, goal) && b > 1 && n.ents == []
    ensures |n.kids| == 1 && Flat(n.kids[0]) == goal && Balanced(n.kids[0], h - 1, 1, b)
  {
    assert Balanced(n.kids[0], h - 1, Min(b), b);
    FlatSingle(n.ref, n.kids[0]);
    assert n.kids == [n.kids[0]];
  }

  lemma TopPlug<K(0, !new), V(0)>(n: Tree<K, V>, b: nat)
    requires Holds(Top, n, b)
    ensures Plug(Top, n) == n && Sep(n) && Rep(n, b)
  {
  }

  /** The subtree that replaces the root, as the heap has it. */
  lemma OnlyKid<K(0, !new), V(0)>(n: Tree<K, V>, h: nat, b: nat, goal: seq<Entry<K, V>>) returns (kid: Tree<K, V>)
    requires Holds(Top, n, b) && Thin(Top, n, h, b, goal) && b > 1 && n.ents == []
    ensures n.kids == [kid] && n.ref.subtrees[0] == Root(kid) && Sep(kid) && Rep(kid, b) && Objs(kid) <= Objs(n)
    ensures Flat(kid) == goal && Balanced(kid, h - 1, 1, b) && h > 0
    ensures forall o | o in Objs(kid) :: allocated(o)
  {
    ThinRoot(n, h, b, goal);
    kid := n.kids[0];
    assert RepAll(n.kids, b) && SepAll(n.kids);
    assert n.ref.subtrees[0] == n.ref.Kids()[0] == Roots(n.kids)[0];
    Allocated(kid);
  }

  ghost function WithLeft<K(0, !new), V(0)>(c: Context<K, V>, n: Tree<K, V>): Twin<K, V>
    requires c.Hole? && |c.left| == |c.lents| > 0
  {
    var k := |c.left| - 1;
    Twin(c.up, c.ref, c.left[..k], c.lents[..k], c.left[k], c.lents[k], n, c.rents, c.right)
  }

  ghost function WithRight<K(0, !new), V(0)>(c: Context<K, V>, n: Tree<K, V>): Twin<K, V>
    requires c.Hole? && |c.right| == |c.rents| > 0
  {
    Twin(c.up, c.ref, c.left, c.lents, n, c.rents[0], c.right[0], c.rents[1..], c.right[1..])
  }

  /** Two neighbours of height `h`, one of them possibly a key short. */
  ghost predicate ThinTwin<K(0, !new), V(0)>(w: Twin<K, V>, h: nat, b: nat, goal: seq<Entry<K, V>>) {
    && TwinFormed(w) && h > 0 && BalancedContext(w.up, h + 1, b)
    && Least(w.up, b) <= |w.lents| + 1 + |w.rents| < 2 * b
    && BalancedAll(w.left, h, b) && BalancedAll(w.right, h, b) && BalancedAll(w.a.kids + w.b.kids, h - 1, b)
    && b <= |w.a.ents| + 2 <= 2 * b + 1 && b <= |w.b.ents| + 2 <= 2 * b + 1
    && Before(w.up) + Flat(Parent(w)) + After(w.up) == goal
  }

  lemma BalancedConcat<K(0, !new), V(0)>(ts: seq<Tree<K, V>>, us: seq<Tree<K, V>>, h: nat, b: nat)
    ensures BalancedAll(ts + us, h, b) <==> BalancedAll(ts, h, b) && BalancedAll(us, h, b)
  {
    var all := ts + us;
    if BalancedAll(all, h, b) {
      forall i | 0 <= i < |ts| ensures Balanced(ts[i], h, Min(b), b) { assert all[i] == ts[i]; }
      forall i | 0 <= i < |us| ensures Balanced(us[i], h, Min(b), b) { assert all[|ts| + i] == us[i]; }
    }
  }

  /** The order of everything stored, seen from the parent. */
  lemma FlatUp<K(0, !new), V(0)>(c: Context<K, V>, n: Tree<K, V>)
    requires c.Hole? && |c.left| == |c.lents| && |c.right| == |c.rents|
    ensures Before(c.up) + Flat(Fill(c, n)) + After(c.up) == Before(c) + Flat(n) + After(c)
  {
    hide Flat, FlatLeft, FlatRight;
    FlatFill(c.ref, c.left, c.lents, n, c.rents, c.right);
    Regroup(Before(c.up), FlatLeft(c.left, c.lents), Flat(n), FlatRight(c.rents, c.right), After(c.up));
  }

  lemma ThinTwinShape<K(0, !new), V(0)>(c: Context<K, V>, n: Tree<K, V>, h: nat, b: nat, goal: seq<Entry<K, V>>, w: Twin<K, V>)
    requires Thin(c, n, h, b, goal) && b > 1 && c.Hole? && w.up == c.up && Parent(w) == Fill(c, n)
    requires |w.left| == |w.lents| && |w.right| == |w.rents|
    requires BalancedAll(w.left, h, b) && BalancedAll(w.right, h, b)
    requires (w.a == n && Balanced(w.b, h, Min(b), b)) || (w.b == n && Balanced(w.a, h, Min(b), b))
    ensures ThinTwin(w, h, b, goal)
  {
    hide Flat;
    FlatUp(c, n);
    BalancedConcat(w.a.kids, w.b.kids, h - 1, b);
    assert |Parent(w).ents| == |Fill(c, n).ents|;
  }

  lemma ThinWithLeft<K(0, !new), V(0)>(c: Context<K, V>, n: Tree<K, V>, h: nat, b: nat, goal: seq<Entry<K, V>>)
    requires Thin(c, n, h, b, goal) && b > 1 && c.Hole? && |c.left| > 0
    ensures |c.lents| == |c.left| && ThinTwin(WithLeft(c, n), h, b, goal) && Parent(WithLeft(c, n)) == Fill(c, n)
    ensures |WithLeft(c, n).a.ents| + 1 >= b
  {
    hide Flat, ThinTwin, Before, After;
    var w, k := WithLeft(c, n), |c.left| - 1;
    assert c.left == w.left + [w.a] && c.lents == w.lents + [w.x];
    assert Balanced(c.left[k], h, Min(b), b);
    assert Parent(w).kids == Fill(c, n).kids && Parent(w).ents == Fill(c, n).ents;
    ThinTwinShape(c, n, h, b, goal, w);
  }

  lemma ThinWithRight<K(0, !new), V(0)>(c: Context<K, V>, n: Tree<K, V>, h: nat, b: nat, goal: seq<Entry<K, V>>)
    requires Thin(c, n, h, b, goal) && b > 1 && c.Hole? && |c.right| > 0
    ensures |c.rents| == |c.right| && ThinTwin(WithRight(c, n), h, b, goal) && Parent(WithRight(c, n)) == Fill(c, n)
    ensures |WithRight(c, n).b.ents| + 1 >= b
  {
    hide Flat, ThinTwin, Before, After;
    var w := WithRight(c, n);
    assert c.right == [w.b] + w.right && c.rents == [w.x] + w.rents;
    assert Balanced(c.right[0], h, Min(b), b);
    assert Parent(w).kids == Fill(c, n).kids && Parent(w).ents == Fill(c, n).ents;
    ThinTwinShape(c, n, h, b, goal, w);
  }

  /** A parent whose two neighbours have enough keys is whole. */
  lemma TwinDone<K(0, !new), V(0)>(w: Twin<K, V>, h: nat, b: nat, goal: seq<Entry<K, V>>)
    returns (whole: Tree<K, V>, height: nat)
    requires ThinTwin(w, h, b, goal) && b > 1 && b - 1 <= |w.a.ents| < 2 * b && b - 1 <= |w.b.ents| < 2 * b
    ensures whole == Plug(w.up, Parent(w)) && Flat(whole) == goal && Balanced(whole, height, 1, b)
  {
    hide Flat;
    var p := Parent(w);
    whole, height := Plug(w.up, p), h + 1 + Depth(w.up);
    BalancedConcat(w.a.kids, w.b.kids, h - 1, b);
    assert Balanced(w.a, h, Min(b), b) && Balanced(w.b, h, Min(b), b);
    assert Balanced(p, h + 1, Least(w.up, b), b);
    BalancedPlug(w.up, p, h + 1, b);
    BalancedMatched(w.up, h + 1, b);
    FlatPlug(w.up, p);
  }

  lemma ThinFromLeft<K(0, !new), V(0)>(w: Twin<K, V>, h: nat, b: nat, goal: seq<Entry<K, V>>) returns (v: Twin<K, V>)
    requires ThinTwin(w, h, b, goal) && b > 1 && |w.a.ents| >= b && |w.b.ents| + 2 == b
    ensures TwinFormed(w) && |w.a.ents| > 0 && v == FromLeft(w) && ThinTwin(v, h, b, goal)
    ensures TwinFormed(v) && b - 1 <= |v.a.ents| && b - 1 <= |v.b.ents|
    ensures v.ref == w.ref && v.a.ref == w.a.ref && v.b.ref == w.b.ref && v.up == w.up
    ensures Root(Parent(v)) == Root(Parent(w))
  {
    hide Flat, Before, After;
    v := FromLeft(w);
    assert v.a.kids + v.b.kids == w.a.kids + w.b.kids;
    FlatFromLeft(w);
    FlatParent(w, v);
  }

  lemma ThinFromRight<K(0, !new), V(0)>(w: Twin<K, V>, h: nat, b: nat, goal: seq<Entry<K, V>>) returns (v: Twin<K, V>)
    requires ThinTwin(w, h, b, goal) && b > 1 && |w.b.ents| >= b && |w.a.ents| + 2 == b
    ensures TwinFormed(w) && |w.b.ents| > 0 && v == FromRight(w) && ThinTwin(v, h, b, goal)
    ensures TwinFormed(v) && b - 1 <= |v.a.ents| && b - 1 <= |v.b.ents|
    ensures v.ref == w.ref && v.a.ref == w.a.ref && v.b.ref == w.b.ref && v.up == w.up
    ensures Root(Parent(v)) == Root(Parent(w))
  {
    hide Flat, Before, After;
    v := FromRight(w);
    assert v.a.kids + v.b.kids == w.a.kids + w.b.kids;
    FlatFromRight(w);
    FlatParent(w, v);
  }

  /** Merging moves the possible shortage to the parent. */
  lemma ThinMerged<K(0, !new), V(0)>(w: Twin<K, V>, h: nat, b: nat, goal: seq<Entry<K, V>>)
    requires ThinTwin(w, h, b, goal) && b > 1 && |w.a.ents| + |w.b.ents| + 3 == 2 * b
    ensures Thin(w.up, Merged(w), h + 1, b, goal) && Root(Merged(w)) == Root(Parent(w))
  {
    hide Flat, Before, After;
    FlatMerged(w);
    var m := Merged(w);
    assert Balanced(Joined(w), h, Min(b), b);
    forall i | 0 <= i < |m.kids| ensures Balanced(m.kids[i], h, Min(b), b) {
      if i > |w.left| {
        assert m.kids[i] == w.right[i - |w.left| - 1];
      }
    }
  }

  /* ---- together with the heap ---- */

  /** All objects of the parent's view. */
  ghost function Reach<K(0, !new), V(0)>(w: Twin<K, V>): set<object>
    requires TwinFormed(w)
  {
    Outside(w) + Own(w.ref) + Own(w.a.ref) + Own(w.b.ref)
  }

  lemma OpenTwin<K(0, !new), V(0)>(c: Context<K, V>, n: Tree<K, V>, b: nat, w: Twin<K, V>)
    requires Holds(c, n, b) && c.Hole? && TwinFormed(w) && w.up == c.up && Parent(w) == Fill(c, n)
    ensures TwinHolds(w, b) && Reach(w) == ContextObjs(c) + Objs(n)
    ensures Root(Plug(w.up, Parent(w))) == Root(Plug(c, n))
  {
    hide TwinHolds, Holds, Objs, ContextObjs, Outside, Own, Fill, Parent;
    PendingUpWhole(c, n, Fill(c, n), b);
    TwinView(w, b);
  }

  lemma PendingUpWhole<K(0, !new), V(0)>(c: Context<K, V>, s: Tree<K, V>, p: Tree<K, V>, b: nat)
    requires Holds(c, s, b) && c.Hole? && p == Fill(c, s)
    ensures Holds(c.up, p, b) && ContextObjs(c.up) + Objs(p) == ContextObjs(c) + Objs(s)
    ensures Plug(c, s) == Plug(c.up, p)
  {
    NothingPending(c, p, b);
    assert Pending(c, s, Nil, b);
    PendingUp(c, s, Nil, p, b);
  }

  lemma OpenLeft<K(0, !new), V(0)>(c: Context<K, V>, n: Tree<K, V>, h: nat, b: nat, goal: seq<Entry<K, V>>) returns (w: Twin<K, V>)
    requires Holds(c, n, b) && Thin(c, n, h, b, goal) && b > 1 && c.Hole? && |c.left| > 0
    ensures TwinFormed(w) && TwinHolds(w, b) && ThinTwin(w, h, b, goal) && Reach(w) == ContextObjs(c) + Objs(n)
    ensures |c.left| == |c.lents| && w == WithLeft(c, n)
    ensures w.ref == c.ref && w.b == n && w.up == c.up && |w.left| + 1 == |c.left| && w.a == c.left[|c.left| - 1]
    ensures |w.a.ents| + 1 >= b && |w.right| == |w.rents|
    ensures Root(Plug(w.up, Parent(w))) == Root(Plug(c, n))
    ensures Own(w.ref) <= Reach(w) && Own(w.a.ref) <= Reach(w)
  {
    hide Holds, Thin, Fill, Parent, ContextObjs, Objs, TwinHolds, Own;
    ThinWithLeft(c, n, h, b, goal);
    w := WithLeft(c, n);
    OpenTwin(c, n, b, w);
  }

  lemma OpenRight<K(0, !new), V(0)>(c: Context<K, V>, n: Tree<K, V>, h: nat, b: nat, goal: seq<Entry<K, V>>) returns (w: Twin<K, V>)
    requires Holds(c, n, b) && Thin(c, n, h, b, goal) && b > 1 && c.Hole? && |c.right| > 0
    ensures TwinFormed(w) && TwinHolds(w, b) && ThinTwin(w, h, b, goal) && Reach(w) == ContextObjs(c) + Objs(n)
    ensures |c.right| == |c.rents| && w == WithRight(c, n)
    ensures w.ref == c.ref && w.a == n && w.up == c.up && w.left == c.left && w.b == c.right[0]
    ensures |w.b.ents| + 1 >= b && |w.right| == |w.rents|
    ensures Root(Plug(w.up, Parent(w))) == Root(Plug(c, n))
    ensures Own(w.ref) <= Reach(w) && Own(w.a.ref) <= Reach(w)
  {
    hide Holds, Thin, Fill, Parent, ContextObjs, Objs, TwinHolds, Own;
    ThinWithRight(c, n, h, b, goal);
    w := WithRight(c, n);
    OpenTwin(c, n, b, w);
  }

  /** Two full enough neighbours: the whole tree is represented and balanced. */
  lemma CloseTwin<K(0, !new), V(0)>(w: Twin<K, V>, h: nat, b: nat, goal: seq<Entry<K, V>>)
    returns (whole: Tree<K, V>, height: nat)
    requires TwinHolds(w, b) && ThinTwin(w, h, b, goal) && b > 1
    requires b - 1 <= |w.a.ents| && b - 1 <= |w.b.ents|
    ensures whole == Plug(w.up, Parent(w)) && Sep(whole) && Rep(whole, b) && Objs(whole) == Reach(w)
    ensures Flat(whole) == goal && Balanced(whole, height, 1, b)
  {
    hide TwinHolds, Objs, ContextObjs, Outside, Own, Parent, Flat, Sep, Rep;
    TwinView(w, b);
    whole, height := TwinDone(w, h, b, goal);
    AscendAll(w.up, Parent(w), b);
  }

  /** What the parent's slots show: its keys, the hole and the roots on either side. */
  lemma Neighbours<K(0, !new), V(0)>(c: Context<K, V>, n: Tree<K, V>, h: nat, b: nat, goal: seq<Entry<K, V>>)
    requires Holds(c, n, b) && Thin(c, n, h, b, goal) && b > 1 && c.Hole?
    ensures var p, i := c.ref, |c.left|;
      && p.Fits() && i <= p.size && |c.right| == p.size - i && p.size == |c.lents| + |c.rents| && Own(p) <= ContextObjs(c)
      && |c.left| + |c.right| > 0 && |c.left| == |c.lents| && |c.right| == |c.rents|
      && (i > 0 ==> c.left[i - 1].Tree? && p.subtrees[i - 1] == c.left[i - 1].ref
                    && c.left[i - 1].ref.size == |c.left[i - 1].ents|)
      && (i < p.size ==> c.right[0].Tree? && p.subtrees[i + 1] == c.right[0].ref
                         && c.right[0].ref.size == |c.right[0].ents|)
  {
    var p, i := c.ref, |c.left|;
    var roots := Roots(c.left) + [Root(n)] + Roots(c.right);
    assert p.Kids() == roots;
    if i > 0 {
      assert Balanced(c.left[i - 1], h, Min(b), b) && Rep(c.left[i - 1], b);
      assert p.subtrees[i - 1] == roots[i - 1];
    }
    if i < p.size {
      assert Balanced(c.right[0], h, Min(b), b) && Rep(c.right[0], b);
      assert p.subtrees[i + 1] == roots[i + 1];
    }
  }
}