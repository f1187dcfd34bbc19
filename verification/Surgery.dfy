/** The structural steps of insertion and removal, each on one node and its neighbours. */
module Surgery {
  import opened Basics
  import opened Entries
  import opened Nodes
  import opened Shapes
  import opened Search

  /** `t` with an entry at `i` and a subtree right of it. */
  ghost function Inserted<K(0, !new), V(0)>(t: Tree<K, V>, i: nat, e: Entry<K, V>, r: Tree<K, V>): Tree<K, V>
    requires t.Tree? && i <= |t.ents| && i + 1 <= |t.kids|
  {
    Tree(t.ref, InsertAt(t.ents, i, e), InsertAt(t.kids, i + 1, r))
  }

  /** The nodes left and right of the key at `m`. */
  ghost function LowerPart<K(0, !new), V(0)>(ref: Node<K, V>, t: Tree<K, V>, m: nat): Tree<K, V>
    requires t.Tree? && m < |t.ents| && |t.kids| == |t.ents| + 1
  {
    Tree(ref, t.ents[..m], t.kids[..m + 1])
  }

  ghost function UpperPart<K(0, !new), V(0)>(ref: Node<K, V>, t: Tree<K, V>, m: nat): Tree<K, V>
    requires t.Tree? && m < |t.ents| && |t.kids| == |t.ents| + 1
  {
    Tree(ref, t.ents[m + 1..], t.kids[m + 1..])
  }

  lemma PartsShow<K(0, !new), V(0)>(ref: Node<K, V>, sib: Node<K, V>, t: Tree<K, V>, m: nat)
    requires t.Tree? && m < |t.ents| && |t.kids| == |t.ents| + 1
    ensures LowerPart(ref, t, m).Tree? && LowerPart(ref, t, m).ents == t.ents[..m] && LowerPart(ref, t, m).kids == t.kids[..m + 1]
    ensures UpperPart(sib, t, m).Tree? && UpperPart(sib, t, m).ents == t.ents[m + 1..] && UpperPart(sib, t, m).kids == t.kids[m + 1..]
  {
  }

  lemma InsertedShow<K(0, !new), V(0)>(t: Tree<K, V>, i: nat, e: Entry<K, V>, r: Tree<K, V>)
    requires t.Tree? && i <= |t.ents| && |t.kids| == |t.ents| + 1
    ensures Inserted(t, i, e, r).Tree? && |Inserted(t, i, e, r).ents| == |t.ents| + 1 && |Inserted(t, i, e, r).kids| == |t.ents| + 2
  {
  }

  lemma CutRow<S, T>(ts: seq<S>, es: seq<T>, m: nat)
    requires m < |es| && |ts| == |es| + 1
    ensures ts == ts[..m] + [ts[m], ts[m + 1]] + ts[m + 2..] && es == es[..m] + [es[m]] + es[m + 1..]
    ensures ts[..m + 1] == ts[..m] + [ts[m]] && ts[m + 1..] == [ts[m + 1]] + ts[m + 2..]
  {
  }

  lemma FlatLower<K(0, !new), V(0)>(p: Node<K, V>, ts: seq<Tree<K, V>>, es: seq<Entry<K, V>>, a: Tree<K, V>)
    requires |ts| == |es|
    ensures Flat(Tree(p, es, ts + [a])) == FlatLeft(ts, es) + Flat(a)
  {
    hide Flat, FlatLeft;
    FlatFill(p, ts, es, a, [], []);
    assert ts + [a] + [] == ts + [a] && es + [] == es;
    assert FlatRight<K, V>([], []) == [];
  }

  lemma FlatUpper<K(0, !new), V(0)>(q: Node<K, V>, b: Tree<K, V>, es: seq<Entry<K, V>>, ts: seq<Tree<K, V>>)
    ensures Flat(Tree(q, es, [b] + ts)) == Flat(b) + FlatRight(es, ts)
  {
    assert ([b] + ts)[1..] == ts;
  }

  /** Cutting a node at a key keeps the order of everything stored. */
  lemma FlatCut<K(0, !new), V(0)>(t: Tree<K, V>, m: nat, p: Node<K, V>, q: Node<K, V>)
    requires t.Tree? && m < |t.ents| && |t.kids| == |t.ents| + 1
    ensures Flat(t) == Flat(LowerPart(p, t, m)) + [t.ents[m]] + Flat(UpperPart(q, t, m))
  {
    hide Flat, FlatLeft, FlatRight;
    var left, right, es := t.kids[..m], t.kids[m + 2..], t.ents;
    var a, b := t.kids[m], t.kids[m + 1];
    CutRow(t.kids, es, m);
    FlatPair(t.ref, left, es[..m], a, es[m], b, es[m + 1..], right);
    FlatLower(p, left, es[..m], a);
    FlatUpper(q, b, es[m + 1..], right);
    Regroup(FlatLeft(left, es[..m]), Flat(a), [es[m]], Flat(b), FlatRight(es[m + 1..], right));
  }

  /** A subtree waiting to be linked in. */
  ghost predicate Pending<K(0, !new), V(0)>(c: Context<K, V>, t: Tree<K, V>, r: Tree<K, V>, b: nat)
    reads Objs(r)
  {
    Sep(r) && Rep(r, b) && Objs(r) !! Objs(t) && Objs(r) !! ContextObjs(c)
  }

  lemma InsertedSep<K(0, !new), V(0)>(t: Tree<K, V>, i: nat, e: Entry<K, V>, r: Tree<K, V>)
    requires t.Tree? && i <= |t.ents| && i + 1 <= |t.kids|
    requires Sep(t) && Sep(r) && Objs(r) !! Objs(t)
    ensures Sep(Inserted(t, i, e, r)) && Objs(Inserted(t, i, e, r)) == Objs(t) + Objs(r)
  {
    assert t.kids == t.kids[..i + 1] + t.kids[i + 1..];
    ObjsConcat(t.kids[..i + 1], t.kids[i + 1..]);
    SepConcat(t.kids[..i + 1], t.kids[i + 1..]);
    ObjsFill(t.kids[..i + 1], r, t.kids[i + 1..]);
    SepFill(t.kids[..i + 1], r, t.kids[i + 1..]);
  }

  lemma InsertedRep<K(0, !new), V(0)>(kids: seq<Tree<K, V>>, i: nat, r: Tree<K, V>, b: nat)
    requires i < |kids| && RepAll(kids, b) && Rep(r, b)
    ensures RepAll(InsertAt(kids, i + 1, r), b)
    ensures Roots(InsertAt(kids, i + 1, r)) == InsertAt(Roots(kids), i + 1, Root(r))
  {
    assert kids == kids[..i + 1] + kids[i + 1..];
    RepConcat(kids[..i + 1], kids[i + 1..], b);
    RepFill(kids[..i + 1], r, kids[i + 1..], b);
  }

  /** What the heap shows at one node, and what stays out of reach of changes to that node. */
  lemma NodeFacts<K(0, !new), V(0)>(c: Context<K, V>, t: Tree<K, V>, b: nat)
    requires Holds(c, t, b) && t.Tree?
    ensures Local(t.ref, t.ents, Roots(t.kids), b) && RepAll(t.kids, b) && RepContext(c, t.ref, b)
    ensures Own(t.ref) <= Objs(t) && ObjsAll(t.kids) <= Objs(t) && Own(t.ref) !! ObjsAll(t.kids)
    ensures Own(t.ref) !! ContextObjs(c)
    ensures forall o | o in ObjsAll(t.kids) :: allocated(o)
    ensures forall o | o in ContextObjs(c) :: allocated(o)
  {
    AllAllocated(t.kids);
    ContextAllocated(c);
  }

  lemma InsertedHolds<K(0, !new), V(0)>(c: Context<K, V>, t: Tree<K, V>, i: nat, e: Entry<K, V>, r: Tree<K, V>, b: nat)
    requires t.Tree? && i <= |t.ents| && |t.kids| == |t.ents| + 1
    requires SepContext(c) && Sep(t) && Sep(r) && Objs(r) !! Objs(t)
    requires ContextObjs(c) !! Objs(t) && ContextObjs(c) !! Objs(r)
    requires RepAll(t.kids, b) && Rep(r, b) && RepContext(c, t.ref, b)
    requires Local(t.ref, InsertAt(t.ents, i, e), InsertAt(Roots(t.kids), i + 1, Root(r)), b)
    ensures Holds(c, Inserted(t, i, e, r), b) && Objs(Inserted(t, i, e, r)) == Objs(t) + Objs(r)
  {
    InsertedSep(t, i, e, r);
    InsertedRep(t.kids, i, r, b);
  }

  /** Inserting into a node with a free slot. */
  method InsertHere<K(0, !new), V(0)>(ghost c: Context<K, V>, ghost t: Tree<K, V>, node: Node<K, V>,
      e: Entry<K, V>, i: nat, right: Node?<K, V>, ghost r: Tree<K, V>, ghost b: nat)
    requires Holds(c, t, b) && Pending(c, t, r, b) && b > 1
    requires t.Tree? && node == t.ref && right == Root(r)
    requires i <= |t.ents| < 2 * b - 1 && |t.kids| == |t.ents| + 1
    modifies Own(node)
    ensures Holds(c, Inserted(t, i, e, r), b)
    ensures Objs(Inserted(t, i, e, r)) == Objs(t) + Objs(r)
  {
    hide Objs, ObjsAll, ContextObjs, Sep, SepContext, Rep, RepAll, RepContext, Roots, Root, Inserted;
    NodeFacts(c, t, b);
    Allocated(r);
    node.Insert(e, i, right);
    ghost var framed := RepAll(t.kids, b) && Rep(r, b) && RepContext(c, node, b);
    assert framed;
    InsertedHolds(c, t, i, e, r, b);
  }

  lemma PartsSep<K(0, !new), V(0)>(n: Tree<K, V>, m: nat, sib: Node<K, V>)
    requires n.Tree? && m < |n.ents| && |n.kids| == |n.ents| + 1
    requires Sep(n) && Own(sib) !! Objs(n)
    ensures var lower, upper := LowerPart(n.ref, n, m), UpperPart(sib, n, m);
      && Sep(lower) && Sep(upper) && Objs(lower) !! Objs(upper)
      && Objs(lower) + Objs(upper) == Objs(n) + Own(sib)
  {
    var low, high := n.kids[..m + 1], n.kids[m + 1..];
    assert n.kids == low + high;
    ObjsConcat(low, high);
    SepSplit(low, high);
  }

  lemma PartsRep<K(0, !new), V(0)>(kids: seq<Tree<K, V>>, m: nat, b: nat)
    requires m < |kids| && RepAll(kids, b)
    ensures RepAll(kids[..m + 1], b) && RepAll(kids[m + 1..], b)
    ensures Roots(kids[..m + 1]) == Roots(kids)[..m + 1] && Roots(kids[m + 1..]) == Roots(kids)[m + 1..]
  {
  }

  lemma PartsHold<K(0, !new), V(0)>(c: Context<K, V>, n: Tree<K, V>, m: nat, sib: Node<K, V>, b: nat)
    returns (lower: Tree<K, V>, upper: Tree<K, V>)
    requires n.Tree? && m < |n.ents| && |n.kids| == |n.ents| + 1
    requires SepContext(c) && Sep(n) && ContextObjs(c) !! Objs(n) && Own(sib) !! Objs(n) && Own(sib) !! ContextObjs(c)
    requires RepContext(c, n.ref, b) && RepAll(n.kids, b)
    requires Local(n.ref, n.ents[..m], Roots(n.kids)[..m + 1], b)
    requires Local(sib, n.ents[m + 1..], Roots(n.kids)[m + 1..], b)
    ensures lower == LowerPart(n.ref, n, m) && upper == UpperPart(sib, n, m)
    ensures lower.Tree? && lower.ref == n.ref && upper.Tree? && upper.ref == sib == Root(upper)
    ensures Holds(c, lower, b) && Pending(c, lower, upper, b)
    ensures Objs(lower) + Objs(upper) == Objs(n) + Own(sib)
  {
    PartsRep(n.kids, m, b);
    PartsSep(n, m, sib);
    lower, upper := LowerPart(n.ref, n, m), UpperPart(sib, n, m);
  }

  /** Splitting a full node around a pending entry: the node keeps the lower part. */
  method SplitHere<K(0, !new), V(0)>(ghost c: Context<K, V>, ghost t: Tree<K, V>, node: Node<K, V>,
      e: Entry<K, V>, i: nat, right: Node?<K, V>, ghost r: Tree<K, V>, ghost b: nat)
    returns (sibling: Node<K, V>, median: Entry<K, V>, ghost lower: Tree<K, V>, ghost upper: Tree<K, V>,
      ghost added: set<object>)
    requires Holds(c, t, b) && Pending(c, t, r, b) && b > 1
    requires t.Tree? && node == t.ref && right == Root(r)
    requires i <= |t.ents| == 2 * b - 1 && |t.kids| == |t.ents| + 1
    modifies Own(node)
    ensures median == Inserted(t, i, e, r).ents[b]
    ensures lower == LowerPart(node, Inserted(t, i, e, r), b) && upper == UpperPart(sibling, Inserted(t, i, e, r), b)
    ensures Holds(c, lower, b) && Pending(c, lower, upper, b)
    ensures lower.Tree? && lower.ref == node && upper.Tree? && upper.ref == sibling == Root(upper)
    ensures fresh(added) && Objs(lower) + Objs(upper) <= Objs(t) + Objs(r) + added
  {
    hide Objs, ObjsAll, ContextObjs, Sep, SepContext, Rep, RepAll, RepContext, Roots, Root, LowerPart, UpperPart;
    ghost var n := Inserted(t, i, e, r);
    NodeFacts(c, t, b);
    Allocated(t);
    Allocated(r);
    InsertedSep(t, i, e, r);
    ghost var used := Objs(n) + ContextObjs(c);
    sibling, median := node.Split(b, e, i, right);
    added := Own(sibling);
    assert added !! used;
    ghost var framed := RepAll(t.kids, b) && Rep(r, b) && RepContext(c, node, b);
    assert framed;
    InsertedRep(t.kids, i, r, b);
    lower, upper := PartsHold(c, n, b, sibling, b);
  }

  /** A new root above the two halves of the old one. */
  method NewRoot<K(0, !new), V(0)>(ghost lower: Tree<K, V>, m: Entry<K, V>, ghost upper: Tree<K, V>,
      left: Node<K, V>, right: Node<K, V>, b: nat) returns (top: Node<K, V>, ghost t: Tree<K, V>)
    requires Holds(Top, lower, b) && Pending(Top, lower, upper, b) && b > 1
    requires lower.Tree? && upper.Tree? && left == lower.ref && right == upper.ref
    ensures t == Tree(top, [m], [lower, upper]) && Root(t) == top && Sep(t) && Rep(t, b)
    ensures fresh(Own(top)) && Objs(t) == Objs(lower) + Objs(upper) + Own(top)
  {
    hide Objs, ObjsAll, Sep, SepAll, Rep, RepAll, Roots, ContextObjs, SepContext, RepContext;
    Allocated(lower);
    Allocated(upper);
    top := new Node(b);
    top.keys[0] := m;
    top.size := 1;
    top.subtrees[0] := left;
    top.subtrees[1] := right;
    assert Local(top, [m], [left, right], b);
    t := Tree(top, [m], [lower, upper]);
    ghost var framed := Rep(lower, b) && Rep(upper, b);
    assert framed;
    PairHolds(t, lower, upper, b);
  }

  lemma Pair<K(0, !new), V(0)>(x: Tree<K, V>, y: Tree<K, V>, b: nat)
    ensures ObjsAll([x, y]) == Objs(x) + Objs(y) && Roots([x, y]) == [Root(x), Root(y)]
    ensures Sep(x) && Sep(y) && Objs(x) !! Objs(y) ==> SepAll([x, y])
    ensures Rep(x, b) && Rep(y, b) ==> RepAll([x, y], b)
  {
    var ts := [x, y];
    forall o | o in Objs(x) + Objs(y) ensures o in ObjsAll(ts) {
      assert ts[0] == x && ts[1] == y;
    }
  }

  lemma TreeObjs<K(0, !new), V(0)>(t: Tree<K, V>)
    requires t.Tree?
    ensures Objs(t) == Own(t.ref) + ObjsAll(t.kids)
  {
  }

  lemma PairHolds<K(0, !new), V(0)>(t: Tree<K, V>, lower: Tree<K, V>, upper: Tree<K, V>, b: nat)
    requires t.Tree? && t.kids == [lower, upper] && Local(t.ref, t.ents, [Root(lower), Root(upper)], b)
    requires Sep(lower) && Sep(upper) && Objs(lower) !! Objs(upper) && Rep(lower, b) && Rep(upper, b)
    requires Own(t.ref) !! Objs(lower) && Own(t.ref) !! Objs(upper)
    ensures Sep(t) && Rep(t, b) && Root(t) == t.ref && Objs(t) == Objs(lower) + Objs(upper) + Own(t.ref)
  {
    hide Objs, ObjsAll, SepAll, RepAll, Roots, Local;
    Pair(lower, upper, b);
    TreeObjs(t);
  }

  /** Moving the view from a subtree to its parent, with a subtree still to be linked in. */
  lemma PendingUp<K(0, !new), V(0)>(c: Context<K, V>, s: Tree<K, V>, r: Tree<K, V>, p: Tree<K, V>, b: nat)
    requires Holds(c, s, b) && Pending(c, s, r, b) && c.Hole? && p == Fill(c, s)
    ensures Holds(c.up, p, b) && Pending(c.up, p, r, b)
    ensures ContextObjs(c.up) + Objs(p) == ContextObjs(c) + Objs(s)
    ensures ContextObjs(c.up) + Own(c.ref) <= ContextObjs(c)
  {
    hide Objs, ObjsAll, Sep, SepAll, Rep, RepContext, SepContext, Fill;
    Ascend(c, s, b);
  }

  /** At the leaf nothing is pending yet. */
  lemma NothingPending<K(0, !new), V(0)>(c: Context<K, V>, s: Tree<K, V>, b: nat)
    requires s.Tree?
    ensures Pending(c, s, Nil, b) && Objs<K, V>(Nil) == {} && Own(s.ref) <= Objs(s) && Root<K, V>(Nil) == null
  {
  }

  /** Overwriting one entry in place. */
  method Overwrite<K(0, !new), V(0)>(ghost c: Context<K, V>, ghost t: Tree<K, V>, node: Node<K, V>,
      i: nat, e: Entry<K, V>, ghost b: nat)
    requires Holds(c, t, b) && t.Tree? && node == t.ref && i < |t.ents|
    requires Own(node) <= Objs(t)
    modifies node.keys
    ensures Holds(c, Tree(t.ref, t.ents[i := e], t.kids), b)
    ensures Objs(Tree(t.ref, t.ents[i := e], t.kids)) == Objs(t)
  {
    hide Objs, ObjsAll, ContextObjs, Sep, SepContext, Rep, RepAll, RepContext, Roots, Root;
    NodeFacts(c, t, b);
    node.keys[i] := e;
    ghost var framed := RepAll(t.kids, b) && RepContext(c, node, b);
    assert framed;
    SameKidsHold(c, t, t.ents[i := e], b);
  }

  lemma SameKidsHold<K(0, !new), V(0)>(c: Context<K, V>, t: Tree<K, V>, ents: seq<Entry<K, V>>, b: nat)
    requires t.Tree? && SepContext(c) && Sep(t) && ContextObjs(c) !! Objs(t)
    requires Local(t.ref, ents, Roots(t.kids), b) && RepAll(t.kids, b) && RepContext(c, t.ref, b)
    ensures Holds(c, Tree(t.ref, ents, t.kids), b) && Objs(Tree(t.ref, ents, t.kids)) == Objs(t)
  {
  }

  lemma LeafHolds<K(0, !new), V(0)>(t: Tree<K, V>, b: nat)
    requires t.Tree? && |t.ents| == 1 && t.kids == [Nil, Nil] && Local(t.ref, t.ents, [null, null], b)
    ensures Sep(t) && Rep(t, b) && Root(t) == t.ref && Objs(t) == Own(t.ref) && Flat(t) == t.ents
    ensures b > 1 ==> Balanced(t, 1, 1, b)
  {
    assert Roots(t.kids) == [null, null];
    assert ObjsAll(t.kids) == {} by {
      assert forall i :: 0 <= i < |t.kids| ==> Objs(t.kids[i]) == {};
    }
    LeafFlat(t);
  }

  /** Removing a key of a leaf. */
  method RemoveHere<K(0, !new), V(0)>(ghost c: Context<K, V>, ghost n: Tree<K, V>, node: Node<K, V>, j: nat, ghost b: nat)
    returns (ghost r: Tree<K, V>)
    requires Holds(c, n, b) && n.Tree? && node == n.ref && j < |n.ents| && |n.kids| == |n.ents| + 1
    modifies Own(node)
    ensures r == Tree(n.ref, RemoveAt(n.ents, j), n.kids[..|n.ents|])
    ensures Holds(c, r, b) && Objs(r) <= Objs(n) && node.size == |n.ents| - 1
  {
    hide Objs, ObjsAll, ContextObjs, Sep, SepContext, Rep, RepAll, RepContext, Roots, Root, RemoveAt;
    NodeFacts(c, n, b);
    node.RemoveKey(j);
    ghost var framed := RepAll(n.kids, b) && RepContext(c, node, b);
    assert framed;
    r := FewerKidsHold(c, n, RemoveAt(n.ents, j), |n.ents|, b);
  }

  lemma FewerKidsHold<K(0, !new), V(0)>(c: Context<K, V>, t: Tree<K, V>, ents: seq<Entry<K, V>>, m: nat, b: nat)
    returns (r: Tree<K, V>)
    requires t.Tree? && SepContext(c) && Sep(t) && ContextObjs(c) !! Objs(t) && m <= |t.kids|
    requires Local(t.ref, ents, Roots(t.kids)[..m], b) && RepAll(t.kids, b) && RepContext(c, t.ref, b)
    ensures r == Tree(t.ref, ents, t.kids[..m]) && Holds(c, r, b) && Objs(r) <= Objs(t)
  {
    r := Tree(t.ref, ents, t.kids[..m]);
    assert Roots(t.kids[..m]) == Roots(t.kids)[..m];
    assert t.kids == t.kids[..m] + t.kids[m..];
    ObjsConcat(t.kids[..m], t.kids[m..]);
    SepSplit(t.kids[..m], t.kids[m..]);
  }
}
