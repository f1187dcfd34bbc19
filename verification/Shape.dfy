/**
 * The mathematical shape of a tree in memory: what it stores in order, which objects it
 * occupies, when the heap represents it, and its balance. A `Context` is the rest of a tree
 * around one subtree, innermost ancestor first, the order in which the search path is popped.
 */
module Shapes {
  import opened Basics
  import opened Entries
  import opened Nodes

  datatype Tree<K(0, !new), V(0)> =
    | Nil
    | Tree(ref: Node<K, V>, ents: seq<Entry<K, V>>, kids: seq<Tree<K, V>>)

  datatype Context<K(0, !new), V(0)> =
    | Top
    | Hole(up: Context<K, V>, ref: Node<K, V>,
           left: seq<Tree<K, V>>, lents: seq<Entry<K, V>>, rents: seq<Entry<K, V>>, right: seq<Tree<K, V>>)

  ghost function Root<K(0, !new), V(0)>(t: Tree<K, V>): Node?<K, V> {
    if t.Nil? then null else t.ref
  }

  ghost function Roots<K(0, !new), V(0)>(ts: seq<Tree<K, V>>): (r: seq<Node?<K, V>>)
    ensures |r| == |ts|
    ensures forall i :: 0 <= i < |ts| ==> r[i] == Root(ts[i])
  {
    seq(|ts|, i requires 0 <= i < |ts| => Root(ts[i]))
  }

  /* ---- contents ---- */

  /** The stored entries from left to right. */
  ghost function Flat<K(0, !new), V(0)>(t: Tree<K, V>): seq<Entry<K, V>>
    decreases t, 1
  {
    if t.Nil? || t.kids == [] then [] else Flat(t.kids[0]) + FlatRight(t.ents, t.kids[1..])
  }

  /** Subtrees each followed by a separator. */
  ghost function FlatLeft<K(0, !new), V(0)>(ts: seq<Tree<K, V>>, es: seq<Entry<K, V>>): seq<Entry<K, V>>
    decreases ts, 0
  {
    if ts == [] || es == [] then [] else Flat(ts[0]) + [es[0]] + FlatLeft(ts[1..], es[1..])
  }

  /** Subtrees each preceded by a separator. */
  ghost function FlatRight<K(0, !new), V(0)>(es: seq<Entry<K, V>>, ts: seq<Tree<K, V>>): seq<Entry<K, V>>
    decreases ts, 0
  {
    if ts == [] || es == [] then [] else [es[0]] + Flat(ts[0]) + FlatRight(es[1..], ts[1..])
  }

  ghost function Before<K(0, !new), V(0)>(c: Context<K, V>): seq<Entry<K, V>> {
    if c.Top? then [] else Before(c.up) + FlatLeft(c.left, c.lents)
  }

  ghost function After<K(0, !new), V(0)>(c: Context<K, V>): seq<Entry<K, V>> {
    if c.Top? then [] else FlatRight(c.rents, c.right) + After(c.up)
  }

  /** The parent of the hole with `s` put back into it. */
  ghost function Fill<K(0, !new), V(0)>(c: Context<K, V>, s: Tree<K, V>): Tree<K, V>
    requires c.Hole?
  {
    Tree(c.ref, c.lents + c.rents, c.left + [s] + c.right)
  }

  ghost function Plug<K(0, !new), V(0)>(c: Context<K, V>, s: Tree<K, V>): Tree<K, V> {
    if c.Top? then s else Plug(c.up, Fill(c, s))
  }

  lemma FlatTail<K(0, !new), V(0)>(ref: Node<K, V>, ents: seq<Entry<K, V>>, kids: seq<Tree<K, V>>)
    requires |kids| == |ents| > 0
    ensures FlatRight(ents, kids) == [ents[0]] + Flat(Tree(ref, ents[1..], kids))
  {
  }

  lemma {:induction false} FlatFill<K(0, !new), V(0)>(ref: Node<K, V>, left: seq<Tree<K, V>>, lents: seq<Entry<K, V>>,
      s: Tree<K, V>, rents: seq<Entry<K, V>>, right: seq<Tree<K, V>>)
    requires |left| == |lents| && |right| == |rents|
    ensures Flat(Tree(ref, lents + rents, left + [s] + right)) == FlatLeft(left, lents) + Flat(s) + FlatRight(rents, right)
    decreases |left|
  {
    var kids, ents := left + [s] + right, lents + rents;
    if left == [] {
      assert kids[1..] == right && ents == rents;
    } else {
      var rest := left[1..] + [s] + right;
      assert kids[1..] == rest && ents[1..] == lents[1..] + rents;
      FlatFill(ref, left[1..], lents[1..], s, rents, right);
      FlatTail(ref, ents, rest);
      AssocFront(Flat(left[0]), [lents[0]], FlatLeft(left[1..], lents[1..]), Flat(s), FlatRight(rents, right));
    }
  }

  lemma FlatRightCons<K(0, !new), V(0)>(e: Entry<K, V>, t: Tree<K, V>, es: seq<Entry<K, V>>, ts: seq<Tree<K, V>>)
    ensures FlatRight([e] + es, [t] + ts) == [e] + Flat(t) + FlatRight(es, ts)
  {
    assert ([e] + es)[1..] == es && ([t] + ts)[1..] == ts;
  }

  /** A node with two neighbouring subtrees singled out. */
  lemma FlatPair<K(0, !new), V(0)>(ref: Node<K, V>, left: seq<Tree<K, V>>, lents: seq<Entry<K, V>>,
      a: Tree<K, V>, e: Entry<K, V>, b: Tree<K, V>, rents: seq<Entry<K, V>>, right: seq<Tree<K, V>>)
    requires |left| == |lents| && |right| == |rents|
    ensures Flat(Tree(ref, lents + [e] + rents, left + [a, b] + right)) ==
      FlatLeft(left, lents) + (Flat(a) + [e] + Flat(b)) + FlatRight(rents, right)
  {
    hide Flat, FlatLeft, FlatRight;
    Assoc(lents, [e], rents);
    PairBetween(left, a, b, right);
    FlatFill(ref, left, lents, a, [e] + rents, [b] + right);
    FlatRightCons(e, b, rents, right);
    Regroup(FlatLeft(left, lents), Flat(a), [e], Flat(b), FlatRight(rents, right));
  }

  lemma {:induction false} RootPlug<K(0, !new), V(0)>(c: Context<K, V>, s: Tree<K, V>, r: Tree<K, V>)
    requires Root(s) == Root(r)
    ensures Root(Plug(c, s)) == Root(Plug(c, r))
  {
    if c.Hole? {
      RootPlug(c.up, Fill(c, s), Fill(c, r));
    }
  }

  /* ---- objects occupied ---- */

  ghost function Own<K(0, !new), V(0)>(n: Node<K, V>): set<object> {
    {n, n.keys, n.subtrees}
  }

  ghost function Objs<K(0, !new), V(0)>(t: Tree<K, V>): set<object>
    decreases t, 1
  {
    if t.Nil? then {} else Own(t.ref) + ObjsAll(t.kids)
  }

  ghost function ObjsAll<K(0, !new), V(0)>(ts: seq<Tree<K, V>>): set<object>
    decreases ts, 0
  {
    set i, o | 0 <= i < |ts| && o in Objs(ts[i]) :: o
  }

  ghost function ContextObjs<K(0, !new), V(0)>(c: Context<K, V>): set<object> {
    if c.Top? then {} else ContextObjs(c.up) + Own(c.ref) + ObjsAll(c.left) + ObjsAll(c.right)
  }

  lemma ObjsConcat<K(0, !new), V(0)>(ts: seq<Tree<K, V>>, us: seq<Tree<K, V>>)
    ensures ObjsAll(ts + us) == ObjsAll(ts) + ObjsAll(us)
  {
    forall o | o in ObjsAll(ts) + ObjsAll(us) ensures o in ObjsAll(ts + us) {
      if o in ObjsAll(ts) {
        var i :| 0 <= i < |ts| && o in Objs(ts[i]);
        assert (ts + us)[i] == ts[i];
      } else {
        var i :| 0 <= i < |us| && o in Objs(us[i]);
        assert (ts + us)[|ts| + i] == us[i];
      }
    }
  }

  lemma ObjsFill<K(0, !new), V(0)>(left: seq<Tree<K, V>>, s: Tree<K, V>, right: seq<Tree<K, V>>)
    ensures ObjsAll(left + [s] + right) == ObjsAll(left) + Objs(s) + ObjsAll(right)
  {
    ObjsConcat(left + [s], right);
    ObjsConcat(left, [s]);
    assert [s][0] == s;
  }

  /* ---- separation: no object is used twice ---- */

  ghost predicate Sep<K(0, !new), V(0)>(t: Tree<K, V>)
    decreases t, 1
  {
    match t
    case Nil => true
    case Tree(ref, _, kids) => Own(ref) !! ObjsAll(kids) && SepAll(kids)
  }

  ghost predicate SepAll<K(0, !new), V(0)>(ts: seq<Tree<K, V>>)
    decreases ts, 0
  {
    && (forall i :: 0 <= i < |ts| ==> Sep(ts[i]))
    && (forall i, j :: 0 <= i < j < |ts| ==> Objs(ts[i]) !! Objs(ts[j]))
  }

  ghost predicate SepContext<K(0, !new), V(0)>(c: Context<K, V>) {
    match c
    case Top => true
    case Hole(up, ref, left, _, _, right) =>
      && SepContext(up)
      && SepAll(left) && SepAll(right) && ObjsAll(left) !! ObjsAll(right)
      && Own(ref) !! ObjsAll(left) + ObjsAll(right)
      && ContextObjs(up) !! Own(ref) + ObjsAll(left) + ObjsAll(right)
  }

  lemma SepSplit<K(0, !new), V(0)>(ts: seq<Tree<K, V>>, us: seq<Tree<K, V>>)
    requires SepAll(ts + us)
    ensures SepAll(ts) && SepAll(us) && ObjsAll(ts) !! ObjsAll(us)
  {
    var all := ts + us;
    forall i | 0 <= i < |ts| ensures Sep(ts[i]) { assert all[i] == ts[i]; }
    forall i | 0 <= i < |us| ensures Sep(us[i]) { assert all[|ts| + i] == us[i]; }
    forall i, j | 0 <= i < j < |ts| ensures Objs(ts[i]) !! Objs(ts[j]) { assert all[i] == ts[i] && all[j] == ts[j]; }
    forall i, j | 0 <= i < j < |us| ensures Objs(us[i]) !! Objs(us[j]) { assert all[|ts| + i] == us[i] && all[|ts| + j] == us[j]; }
    forall i, j | 0 <= i < |ts| && 0 <= j < |us| ensures Objs(ts[i]) !! Objs(us[j]) { assert all[i] == ts[i] && all[|ts| + j] == us[j]; }
  }

  lemma SepJoin<K(0, !new), V(0)>(ts: seq<Tree<K, V>>, us: seq<Tree<K, V>>)
    requires SepAll(ts) && SepAll(us) && ObjsAll(ts) !! ObjsAll(us)
    ensures SepAll(ts + us)
  {
    var all := ts + us;
    forall i, j | 0 <= i < j < |all| ensures Objs(all[i]) !! Objs(all[j]) {
      if i < |ts| <= j {
        assert Objs(ts[i]) <= ObjsAll(ts) && Objs(us[j - |ts|]) <= ObjsAll(us);
      }
    }
  }

  lemma SepConcat<K(0, !new), V(0)>(ts: seq<Tree<K, V>>, us: seq<Tree<K, V>>)
    ensures SepAll(ts + us) <==> SepAll(ts) && SepAll(us) && ObjsAll(ts) !! ObjsAll(us)
  {
    if SepAll(ts + us) {
      SepSplit(ts, us);
    }
    if SepAll(ts) && SepAll(us) && ObjsAll(ts) !! ObjsAll(us) {
      SepJoin(ts, us);
    }
  }

  lemma SepFill<K(0, !new), V(0)>(left: seq<Tree<K, V>>, s: Tree<K, V>, right: seq<Tree<K, V>>)
    ensures SepAll(left + [s] + right) <==>
      && SepAll(left) && Sep(s) && SepAll(right)
      && ObjsAll(left) !! Objs(s) && ObjsAll(left) !! ObjsAll(right) && Objs(s) !! ObjsAll(right)
  {
    SepConcat(left + [s], right);
    SepConcat(left, [s]);
    ObjsConcat(left, [s]);
    assert [s][0] == s;
    assert ObjsAll([s]) == Objs(s);
  }

  /* ---- representation in the heap ---- */

  /** One node's live slots, with slot arrays sized for degree `b`. */
  ghost predicate Local<K(0, !new), V(0)>(n: Node<K, V>, ents: seq<Entry<K, V>>, roots: seq<Node?<K, V>>, b: nat)
    reads Own(n)
  {
    && n.keys.Length == 2 * b && n.subtrees.Length == 2 * b + 1
    && n.size == |ents| < 2 * b
    && n.Keys() == ents && n.Kids() == roots
  }

  ghost predicate Rep<K(0, !new), V(0)>(t: Tree<K, V>, b: nat)
    reads Objs(t)
    decreases t, 1
  {
    match t
    case Nil => true
    case Tree(ref, ents, kids) => Local(ref, ents, Roots(kids), b) && RepAll(kids, b)
  }

  ghost predicate RepAll<K(0, !new), V(0)>(ts: seq<Tree<K, V>>, b: nat)
    reads ObjsAll(ts)
    decreases ts, 0
  {
    forall i :: 0 <= i < |ts| ==> Rep(ts[i], b)
  }

  /** The heap represents the context, whose hole is a slot pointing at `hole`. */
  ghost predicate RepContext<K(0, !new), V(0)>(c: Context<K, V>, hole: Node?<K, V>, b: nat)
    reads ContextObjs(c)
  {
    match c
    case Top => true
    case Hole(up, ref, left, lents, rents, right) =>
      && Local(ref, lents + rents, Roots(left) + [hole] + Roots(right), b)
      && |left| == |lents| && |right| == |rents|
      && RepAll(left, b) && RepAll(right, b)
      && RepContext(up, ref, b)
  }

  lemma RepConcat<K(0, !new), V(0)>(ts: seq<Tree<K, V>>, us: seq<Tree<K, V>>, b: nat)
    ensures RepAll(ts + us, b) <==> RepAll(ts, b) && RepAll(us, b)
    ensures Roots(ts + us) == Roots(ts) + Roots(us)
  {
    var all := ts + us;
    if RepAll(all, b) {
      forall i | 0 <= i < |ts| ensures Rep(ts[i], b) { assert all[i] == ts[i]; }
      forall i | 0 <= i < |us| ensures Rep(us[i], b) { assert all[|ts| + i] == us[i]; }
    }
  }

  lemma RepFill<K(0, !new), V(0)>(left: seq<Tree<K, V>>, s: Tree<K, V>, right: seq<Tree<K, V>>, b: nat)
    ensures RepAll(left + [s] + right, b) <==> RepAll(left, b) && Rep(s, b) && RepAll(right, b)
    ensures Roots(left + [s] + right) == Roots(left) + [Root(s)] + Roots(right)
  {
    RepConcat(left + [s], right, b);
    RepConcat(left, [s], b);
    assert [s][0] == s;
  }

  /** The heap holds the tree made of `s` and its context, with no object used twice. */
  ghost predicate Holds<K(0, !new), V(0)>(c: Context<K, V>, s: Tree<K, V>, b: nat)
    reads ContextObjs(c), Objs(s)
  {
    && SepContext(c) && Sep(s) && ContextObjs(c) !! Objs(s)
    && RepContext(c, Root(s), b) && Rep(s, b)
  }

  /** Everything reachable from an existing shape exists. */
  lemma Allocated<K(0, !new), V(0)>(t: Tree<K, V>)
    ensures forall o | o in Objs(t) :: allocated(o)
    decreases t, 1
  {
    if t.Tree? {
      AllAllocated(t.kids);
    }
  }

  lemma AllAllocated<K(0, !new), V(0)>(ts: seq<Tree<K, V>>)
    ensures forall o | o in ObjsAll(ts) :: allocated(o)
    decreases ts, 0
  {
    forall i | 0 <= i < |ts| ensures forall o | o in Objs(ts[i]) :: allocated(o) {
      Allocated(ts[i]);
    }
  }

  lemma ContextAllocated<K(0, !new), V(0)>(c: Context<K, V>)
    ensures forall o | o in ContextObjs(c) :: allocated(o)
  {
    if c.Hole? {
      ContextAllocated(c.up);
      AllAllocated(c.left);
      AllAllocated(c.right);
    }
  }

  /** Stepping down into subtree `i` keeps the representation. */
  lemma Descend<K(0, !new), V(0)>(c: Context<K, V>, t: Tree<K, V>, i: nat, b: nat) returns (d: Context<K, V>)
    requires Holds(c, t, b) && t.Tree? && i <= |t.ents|
    ensures |t.kids| == |t.ents| + 1
    ensures d == Hole(c, t.ref, t.kids[..i], t.ents[..i], t.ents[i..], t.kids[i + 1..])
    ensures Holds(d, t.kids[i], b) && Fill(d, t.kids[i]) == t
  {
    assert |t.ref.Kids()| == |t.kids|;
    var left, right := t.kids[..i], t.kids[i + 1..];
    d := Hole(c, t.ref, left, t.ents[..i], t.ents[i..], right);
    assert t.kids == left + [t.kids[i]] + right;
    assert t.ents == t.ents[..i] + t.ents[i..];
    SepFill(left, t.kids[i], right);
    ObjsFill(left, t.kids[i], right);
    RepFill(left, t.kids[i], right, b);
  }

  lemma AscendSep<K(0, !new), V(0)>(c: Context<K, V>, s: Tree<K, V>)
    requires c.Hole? && SepContext(c) && Sep(s) && ContextObjs(c) !! Objs(s)
    ensures Objs(Fill(c, s)) == Own(c.ref) + ObjsAll(c.left) + Objs(s) + ObjsAll(c.right)
    ensures SepContext(c.up) && Sep(Fill(c, s)) && ContextObjs(c.up) !! Objs(Fill(c, s))
  {
    hide ObjsAll, SepAll;
    SepFill(c.left, s, c.right);
    ObjsFill(c.left, s, c.right);
  }

  lemma AscendRep<K(0, !new), V(0)>(c: Context<K, V>, s: Tree<K, V>, b: nat)
    requires c.Hole? && RepContext(c, Root(s), b) && Rep(s, b)
    ensures RepContext(c.up, c.ref, b) && Rep(Fill(c, s), b)
  {
    hide RepAll, Roots, Local;
    RepFill(c.left, s, c.right, b);
  }

  /** Stepping back up from the hole keeps the representation. */
  lemma Ascend<K(0, !new), V(0)>(c: Context<K, V>, s: Tree<K, V>, b: nat)
    requires Holds(c, s, b) && c.Hole?
    ensures Holds(c.up, Fill(c, s), b)
    ensures Objs(Fill(c, s)) == Own(c.ref) + ObjsAll(c.left) + Objs(s) + ObjsAll(c.right)
  {
    hide Own, ObjsAll, Sep, SepContext, ContextObjs, Objs, RepContext, Rep;
    AscendSep(c, s);
    AscendRep(c, s, b);
  }

  lemma {:induction false} AscendAll<K(0, !new), V(0)>(c: Context<K, V>, s: Tree<K, V>, b: nat)
    requires Holds(c, s, b)
    ensures Holds(Top, Plug(c, s), b)
    ensures Objs(Plug(c, s)) == ContextObjs(c) + Objs(s)
  {
    if c.Hole? {
      Ascend(c, s, b);
      AscendAll(c.up, Fill(c, s), b);
    }
  }

  /** Conversely, a represented tree is represented around each of its subtrees. */
  lemma {:induction false} DescendAll<K(0, !new), V(0)>(c: Context<K, V>, s: Tree<K, V>, b: nat)
    requires Matched(c) && Holds(Top, Plug(c, s), b)
    ensures Holds(c, s, b)
  {
    if c.Hole? {
      var t := Fill(c, s);
      DescendAll(c.up, t, b);
      var i := |c.left|;
      var d := Descend(c.up, t, i, b);
      assert t.kids[..i] == c.left && t.kids[i] == s && t.kids[i + 1..] == c.right;
      assert t.ents[..i] == c.lents && t.ents[i..] == c.rents;
    }
  }

  lemma {:induction false} FlatPlug<K(0, !new), V(0)>(c: Context<K, V>, s: Tree<K, V>)
    requires Matched(c)
    ensures Flat(Plug(c, s)) == Before(c) + Flat(s) + After(c)
  {
    if c.Hole? {
      FlatPlug(c.up, Fill(c, s));
      FlatFill(c.ref, c.left, c.lents, s, c.rents, c.right);
      Regroup(Before(c.up), FlatLeft(c.left, c.lents), Flat(s), FlatRight(c.rents, c.right), After(c.up));
    }
  }

  /** Every frame has as many separators on each side as subtrees. */
  ghost predicate Matched<K(0, !new), V(0)>(c: Context<K, V>) {
    match c
    case Top => true
    case Hole(up, _, left, lents, rents, right) => |left| == |lents| && |right| == |rents| && Matched(up)
  }

  /* ---- balance ---- */

  /** The fewest keys of a node other than the root. */
  ghost function Min(b: nat): nat {
    if b == 0 then 0 else b - 1
  }

  /** All leaves at depth `h`; the root holds `lo..2b-1` keys, every other node `b-1..2b-1`. */
  ghost predicate Balanced<K(0, !new), V(0)>(t: Tree<K, V>, h: nat, lo: nat, b: nat)
    decreases t, 1
  {
    match t
    case Nil => h == 0
    case Tree(_, ents, kids) => h > 0 && lo <= |ents| < 2 * b && |kids| == |ents| + 1 && BalancedAll(kids, h - 1, b)
  }

  ghost predicate BalancedAll<K(0, !new), V(0)>(ts: seq<Tree<K, V>>, h: nat, b: nat)
    decreases ts, 0
  {
    forall i :: 0 <= i < |ts| ==> Balanced(ts[i], h, Min(b), b)
  }

  /** The context is balanced around a hole of height `h`. */
  ghost predicate BalancedContext<K(0, !new), V(0)>(c: Context<K, V>, h: nat, b: nat) {
    match c
    case Top => true
    case Hole(up, _, left, lents, rents, right) =>
      && |left| == |lents| && |right| == |rents|
      && Least(up, b) <= |lents| + |rents| < 2 * b
      && BalancedAll(left, h, b) && BalancedAll(right, h, b)
      && BalancedContext(up, h + 1, b)
  }

  /** The fewest keys allowed at a node in this context: the root may go down to one. */
  ghost function Least<K(0, !new), V(0)>(c: Context<K, V>, b: nat): nat {
    if c.Top? then 1 else Min(b)
  }

  ghost function Depth<K(0, !new), V(0)>(c: Context<K, V>): nat {
    if c.Top? then 0 else 1 + Depth(c.up)
  }

  lemma {:induction false} BalancedPlug<K(0, !new), V(0)>(c: Context<K, V>, s: Tree<K, V>, h: nat, b: nat)
    requires BalancedContext(c, h, b) && Balanced(s, h, Least(c, b), b) && b > 0
    ensures Balanced(Plug(c, s), h + Depth(c), 1, b)
  {
    if c.Hole? {
      BalancedPlug(c.up, Fill(c, s), h + 1, b);
    }
  }

  lemma BalancedMatched<K(0, !new), V(0)>(c: Context<K, V>, h: nat, b: nat)
    requires BalancedContext(c, h, b)
    ensures Matched(c)
  {
  }
}
