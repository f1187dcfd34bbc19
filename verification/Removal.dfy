/** Rebalancing after a removal: two neighbouring subtrees of one parent and the key between them. */
module Removal {
  import opened Basics
  import opened Entries
  import opened Nodes
  import opened Shapes
  import opened Surgery

  /** A parent node seen around two neighbouring subtrees `a` and `b` with key `x` between them. */
  datatype Twin<K(0, !new), V(0)> =
    Twin(up: Context<K, V>, ref: Node<K, V>, left: seq<Tree<K, V>>, lents: seq<Entry<K, V>>,
         a: Tree<K, V>, x: Entry<K, V>, b: Tree<K, V>, rents: seq<Entry<K, V>>, right: seq<Tree<K, V>>)

  /** The parent's subtree with `p`, `y`, `q` between the outer neighbours. */
  ghost function Parent<K(0, !new), V(0)>(w: Twin<K, V>): Tree<K, V> {
    Tree(w.ref, w.lents + [w.x] + w.rents, w.left + [w.a, w.b] + w.right)
  }

  ghost predicate TwinFormed<K(0, !new), V(0)>(w: Twin<K, V>) {
    && |w.left| == |w.lents| && |w.right| == |w.rents|
    && w.a.Tree? && w.b.Tree? && |w.a.kids| == |w.a.ents| + 1 && |w.b.kids| == |w.b.ents| + 1
  }

  /** The last key of `a` moves up, `x` moves down in front of `b`. */
  ghost function FromLeft<K(0, !new), V(0)>(w: Twin<K, V>): Twin<K, V>
    requires TwinFormed(w) && |w.a.ents| > 0
  {
    var m := |w.a.ents| - 1;
    w.(a := Tree(w.a.ref, w.a.ents[..m], w.a.kids[..m + 1]),
       x := w.a.ents[m],
       b := Tree(w.b.ref, [w.x] + w.b.ents, [w.a.kids[m + 1]] + w.b.kids))
  }

  /** The first key of `b` moves up, `x` moves down behind `a`. */
  ghost function FromRight<K(0, !new), V(0)>(w: Twin<K, V>): Twin<K, V>
    requires TwinFormed(w) && |w.b.ents| > 0
  {
    w.(a := Tree(w.a.ref, w.a.ents + [w.x], w.a.kids + [w.b.kids[0]]),
       x := w.b.ents[0],
       b := Tree(w.b.ref, w.b.ents[1..], w.b.kids[1..]))
  }

  /** Both subtrees and the key between them in one node. */
  ghost function Joined<K(0, !new), V(0)>(w: Twin<K, V>): Tree<K, V>
    requires TwinFormed(w)
  {
    Tree(w.a.ref, w.a.ents + [w.x] + w.b.ents, w.a.kids + w.b.kids)
  }

  ghost function Merged<K(0, !new), V(0)>(w: Twin<K, V>): Tree<K, V>
    requires TwinFormed(w)
  {
    Tree(w.ref, w.lents + w.rents, w.left + [Joined(w)] + w.right)
  }

  /* ---- the order of everything stored ---- */

  lemma FlatSingle<K(0, !new), V(0)>(ref: Node<K, V>, k: Tree<K, V>)
    ensures Flat(Tree(ref, [], [k])) == Flat(k)
  {
    assert Flat(Tree(ref, [], [k])) == Flat(k) + FlatRight([], [k][1..]);
  }

  lemma FlatCons<K(0, !new), V(0)>(t: Tree<K, V>, k: Tree<K, V>, x: Entry<K, V>)
    requires t.Tree? && |t.kids| == |t.ents| + 1
    ensures Flat(Tree(t.ref, [x] + t.ents, [k] + t.kids)) == Flat(k) + [x] + Flat(t)
  {
    var ents, kids := [x] + t.ents, [k] + t.kids;
    assert kids[1..] == t.kids && ents[1..] == t.ents;
    FlatTail(t.ref, ents, t.kids);
  }

  lemma FlatFromLeft<K(0, !new), V(0)>(w: Twin<K, V>)
    requires TwinFormed(w) && |w.a.ents| > 0
    ensures var v := FromLeft(w); Flat(v.a) + [v.x] + Flat(v.b) == Flat(w.a) + [w.x] + Flat(w.b)
  {
    hide Flat, FlatRight;
    var m, k := |w.a.ents| - 1, w.a.kids[|w.a.ents|];
    var v := FromLeft(w);
    FlatCut(w.a, m, w.a.ref, w.a.ref);
    assert UpperPart(w.a.ref, w.a, m) == Tree(w.a.ref, [], [k]);
    FlatSingle(w.a.ref, k);
    FlatCons(w.b, k, w.x);
    RegroupThird(Flat(v.a), [v.x], Flat(k), [w.x], Flat(w.b));
  }

  lemma FlatFromRight<K(0, !new), V(0)>(w: Twin<K, V>)
    requires TwinFormed(w) && |w.b.ents| > 0
    ensures var v := FromRight(w); Flat(v.a) + [v.x] + Flat(v.b) == Flat(w.a) + [w.x] + Flat(w.b)
  {
    hide Flat, FlatRight;
    var m, k := |w.a.ents|, w.b.kids[0];
    var v := FromRight(w);
    FlatCut(v.a, m, w.a.ref, w.a.ref);
    assert LowerPart(w.a.ref, v.a, m) == w.a && UpperPart(w.a.ref, v.a, m) == Tree(w.a.ref, [], [k]);
    FlatSingle(w.a.ref, k);
    FlatCons(v.b, k, v.x);
    assert [v.x] + v.b.ents == w.b.ents && [k] + v.b.kids == w.b.kids;
    RegroupThird(Flat(w.a), [w.x], Flat(k), [v.x], Flat(v.b));
  }

  lemma FlatJoined<K(0, !new), V(0)>(w: Twin<K, V>)
    requires TwinFormed(w)
    ensures Flat(Joined(w)) == Flat(w.a) + [w.x] + Flat(w.b)
  {
    hide Flat;
    var t, m := Joined(w), |w.a.ents|;
    FlatCut(t, m, w.a.ref, w.b.ref);
    assert LowerPart(w.a.ref, t, m) == w.a && UpperPart(w.b.ref, t, m) == w.b;
  }

  lemma FlatParent<K(0, !new), V(0)>(w: Twin<K, V>, v: Twin<K, V>)
    requires TwinFormed(w) && v.left == w.left && v.lents == w.lents && v.rents == w.rents && v.right == w.right
    requires Flat(v.a) + [v.x] + Flat(v.b) == Flat(w.a) + [w.x] + Flat(w.b)
    ensures Flat(Parent(v)) == Flat(Parent(w))
  {
    hide Flat;
    FlatPair(w.ref, w.left, w.lents, w.a, w.x, w.b, w.rents, w.right);
    FlatPair(v.ref, v.left, v.lents, v.a, v.x, v.b, v.rents, v.right);
  }

  lemma FlatMerged<K(0, !new), V(0)>(w: Twin<K, V>)
    requires TwinFormed(w)
    ensures Flat(Merged(w)) == Flat(Parent(w))
  {
    hide Flat;
    FlatPair(w.ref, w.left, w.lents, w.a, w.x, w.b, w.rents, w.right);
    FlatFill(w.ref, w.left, w.lents, Joined(w), w.rents, w.right);
    FlatJoined(w);
  }

  /* ---- the heap around the two subtrees ---- */

  /** All objects but the three nodes' own. The subtrees of `a` and `b` together are one row. */
  ghost function Outside<K(0, !new), V(0)>(w: Twin<K, V>): set<object>
    requires TwinFormed(w)
  {
    ContextObjs(w.up) + ObjsAll(w.left) + ObjsAll(w.a.kids + w.b.kids) + ObjsAll(w.right)
  }

  ghost predicate TwinSep<K(0, !new), V(0)>(w: Twin<K, V>)
    requires TwinFormed(w)
  {
    && SepContext(w.up) && SepAll(w.left) && SepAll(w.right) && SepAll(w.a.kids + w.b.kids)
    && ContextObjs(w.up) !! ObjsAll(w.left) !! ObjsAll(w.right) !! ObjsAll(w.a.kids + w.b.kids)
    && Own(w.ref) !! Own(w.a.ref) !! Own(w.b.ref)
    && Own(w.ref) + Own(w.a.ref) + Own(w.b.ref) !! Outside(w)
  }

  ghost predicate TwinRest<K(0, !new), V(0)>(w: Twin<K, V>, b: nat)
    requires TwinFormed(w)
    reads Outside(w)
  {
    RepContext(w.up, w.ref, b) && RepAll(w.left, b) && RepAll(w.right, b) && RepAll(w.a.kids + w.b.kids, b)
  }

  ghost predicate TwinNodes<K(0, !new), V(0)>(w: Twin<K, V>, b: nat)
    requires TwinFormed(w)
    reads Own(w.ref), Own(w.a.ref), Own(w.b.ref)
  {
    && Local(w.ref, w.lents + [w.x] + w.rents, Roots(w.left) + [w.a.ref, w.b.ref] + Roots(w.right), b)
    && Local(w.a.ref, w.a.ents, Roots(w.a.kids), b)
    && Local(w.b.ref, w.b.ents, Roots(w.b.kids), b)
  }

  ghost predicate TwinHolds<K(0, !new), V(0)>(w: Twin<K, V>, b: nat)
    reads if TwinFormed(w) then Outside(w) + Own(w.ref) + Own(w.a.ref) + Own(w.b.ref) else {}
  {
    TwinFormed(w) && TwinSep(w) && TwinRest(w, b) && TwinNodes(w, b)
  }

  /** A row of subtrees with two neighbours singled out. */
  lemma RowSep<K(0, !new), V(0)>(left: seq<Tree<K, V>>, a: Tree<K, V>, b: Tree<K, V>, right: seq<Tree<K, V>>)
    ensures ObjsAll(left + [a, b] + right) == ObjsAll(left) + Objs(a) + Objs(b) + ObjsAll(right)
    ensures SepAll(left + [a, b] + right) <==>
      && SepAll(left) && Sep(a) && Sep(b) && SepAll(right)
      && ObjsAll(left) !! Objs(a) !! Objs(b) !! ObjsAll(right)
  {
    hide ObjsAll, SepAll, Objs, Sep;
    assert left + [a, b] + right == (left + [a]) + [b] + right && left + [a] + [] == left + [a];
    SepFill(left + [a], b, right);
    ObjsFill(left + [a], b, right);
    SepFill(left, a, []);
    ObjsFill(left, a, []);
    NoObjs<K, V>();
  }

  lemma NoObjs<K(0, !new), V(0)>()
    ensures ObjsAll<K, V>([]) == {} && SepAll<K, V>([])
  {
  }

  lemma RowRep<K(0, !new), V(0)>(left: seq<Tree<K, V>>, a: Tree<K, V>, b: Tree<K, V>, right: seq<Tree<K, V>>, d: nat)
    ensures RepAll(left + [a, b] + right, d) <==> RepAll(left, d) && Rep(a, d) && Rep(b, d) && RepAll(right, d)
    ensures Roots(left + [a, b] + right) == Roots(left) + [Root(a), Root(b)] + Roots(right)
  {
    hide Rep, Root;
    assert left + [a, b] + right == (left + [a]) + [b] + right && left + [a] + [] == left + [a];
    RepFill(left + [a], b, right, d);
    RepFill(left, a, [], d);
  }

  lemma KidsSep<K(0, !new), V(0)>(a: Tree<K, V>, b: Tree<K, V>)
    requires a.Tree? && b.Tree?
    ensures Objs(a) == Own(a.ref) + ObjsAll(a.kids) && Objs(b) == Own(b.ref) + ObjsAll(b.kids)
    ensures ObjsAll(a.kids + b.kids) == ObjsAll(a.kids) + ObjsAll(b.kids)
    ensures SepAll(a.kids + b.kids) <==> SepAll(a.kids) && SepAll(b.kids) && ObjsAll(a.kids) !! ObjsAll(b.kids)
    ensures Sep(a) <==> Own(a.ref) !! ObjsAll(a.kids) && SepAll(a.kids)
    ensures Sep(b) <==> Own(b.ref) !! ObjsAll(b.kids) && SepAll(b.kids)
  {
    ObjsConcat(a.kids, b.kids);
    SepConcat(a.kids, b.kids);
  }

  lemma DisjointPieces(c: set<object>, p: set<object>, l: set<object>, r: set<object>,
      oa: set<object>, ka: set<object>, ob: set<object>, kb: set<object>)
    ensures
      (c !! l !! r !! ka + kb) && ka !! kb && (p !! oa !! ob) && p + oa + ob !! c + l + (ka + kb) + r
      <==>
      p !! l + (oa + ka) + (ob + kb) + r && oa !! ka && ob !! kb && (l !! oa + ka !! ob + kb !! r)
      && c !! p + (l + (oa + ka) + (ob + kb) + r)
  {
  }

  /** The separation of the parent's subtree, in the pieces the three nodes leave. */
  lemma TwinParentSep<K(0, !new), V(0)>(w: Twin<K, V>)
    requires TwinFormed(w)
    ensures TwinSep(w) <==> SepContext(w.up) && Sep(Parent(w)) && ContextObjs(w.up) !! Objs(Parent(w))
    ensures ContextObjs(w.up) + Objs(Parent(w)) == Outside(w) + Own(w.ref) + Own(w.a.ref) + Own(w.b.ref)
  {
    hide ObjsAll, SepAll, SepContext, ContextObjs, Own, Objs, Sep;
    RowSep(w.left, w.a, w.b, w.right);
    KidsSep(w.a, w.b);
    TreeSep(Parent(w));
    DisjointPieces(ContextObjs(w.up), Own(w.ref), ObjsAll(w.left), ObjsAll(w.right),
                   Own(w.a.ref), ObjsAll(w.a.kids), Own(w.b.ref), ObjsAll(w.b.kids));
  }

  lemma TreeSep<K(0, !new), V(0)>(t: Tree<K, V>)
    requires t.Tree?
    ensures Objs(t) == Own(t.ref) + ObjsAll(t.kids)
    ensures Sep(t) <==> Own(t.ref) !! ObjsAll(t.kids) && SepAll(t.kids)
  {
  }

  lemma TwinParentRep<K(0, !new), V(0)>(w: Twin<K, V>, b: nat)
    requires TwinFormed(w)
    ensures TwinRest(w, b) && TwinNodes(w, b) <==> RepContext(w.up, w.ref, b) && Rep(Parent(w), b)
  {
    hide RepContext, Local;
    RowRep(w.left, w.a, w.b, w.right, b);
    RepConcat(w.a.kids, w.b.kids, b);
  }

  /** Looking at a parent around two neighbouring subtrees, and back. */
  lemma TwinView<K(0, !new), V(0)>(w: Twin<K, V>, b: nat)
    requires TwinFormed(w)
    ensures TwinHolds(w, b) <==> Holds(w.up, Parent(w), b)
    ensures ContextObjs(w.up) + Objs(Parent(w)) == Outside(w) + Own(w.ref) + Own(w.a.ref) + Own(w.b.ref)
  {
    hide TwinSep, TwinRest, TwinNodes, SepContext, Sep, RepContext, Rep, Objs, ContextObjs, Outside, Own;
    TwinParentSep(w);
    TwinParentRep(w, b);
  }

  /** What changes at the three nodes cannot reach. */
  lemma TwinFacts<K(0, !new), V(0)>(w: Twin<K, V>, b: nat)
    requires TwinHolds(w, b)
    ensures Own(w.ref) !! Own(w.a.ref) && Own(w.ref) !! Own(w.b.ref) && Own(w.a.ref) !! Own(w.b.ref)
    ensures Own(w.ref) !! Outside(w) && Own(w.a.ref) !! Outside(w) && Own(w.b.ref) !! Outside(w)
    ensures forall o | o in Outside(w) :: allocated(o)
    ensures |w.left| == |w.lents| && Roots(w.left) + [w.a.ref, w.b.ref] + Roots(w.right) == Roots(w.left + [w.a, w.b] + w.right)
  {
    ContextAllocated(w.up);
    AllAllocated(w.left);
    AllAllocated(w.a.kids + w.b.kids);
    AllAllocated(w.right);
  }

  lemma FromLeftHolds<K(0, !new), V(0)>(w: Twin<K, V>, b: nat)
    requires TwinFormed(w) && TwinSep(w) && TwinRest(w, b) && |w.a.ents| > 0
    requires Local(w.ref, (w.lents + [w.x] + w.rents)[|w.left| := w.a.ents[|w.a.ents| - 1]],
                   Roots(w.left) + [w.a.ref, w.b.ref] + Roots(w.right), b)
    requires Local(w.a.ref, w.a.ents[..|w.a.ents| - 1], Roots(w.a.kids)[..|w.a.ents|], b)
    requires Local(w.b.ref, [w.x] + w.b.ents, [Roots(w.a.kids)[|w.a.ents|]] + Roots(w.b.kids), b)
    ensures TwinHolds(FromLeft(w), b) && Outside(FromLeft(w)) == Outside(w)
  {
    hide Local, RepContext, RepAll, SepContext, SepAll, ObjsAll, ContextObjs;
    var v := FromLeft(w);
    assert v.a.kids + v.b.kids == w.a.kids + w.b.kids;
    assert v.lents + [v.x] + v.rents == (w.lents + [w.x] + w.rents)[|w.left| := v.x];
    assert Roots(v.a.kids) == Roots(w.a.kids)[..|w.a.ents|];
    assert Roots(v.b.kids) == [Roots(w.a.kids)[|w.a.ents|]] + Roots(w.b.kids);
  }

  /** Taking a key from the left neighbour, through the parent. */
  method BorrowFromLeft<K(0, !new), V(0)>(ghost w: Twin<K, V>, parent: Node<K, V>, index: nat, target: Node<K, V>, ghost b: nat)
    requires TwinHolds(w, b) && parent == w.ref && index == |w.left| + 1 && target == w.b.ref
    requires |w.a.ents| > 0 && |w.b.ents| < 2 * b - 1
    modifies Own(w.ref), Own(w.a.ref), Own(w.b.ref)
    ensures TwinHolds(FromLeft(w), b) && Outside(FromLeft(w)) == Outside(w)
  {
    hide Outside, TwinSep, TwinRest, Roots, FromLeft;
    TwinFacts(w, b);
    var brother := parent.subtrees[index - 1];
    assert brother == parent.Kids()[index - 1] == w.a.ref;
    PassRight(parent, index - 1, brother, target);
    ghost var framed := TwinRest(w, b);
    assert framed;
    FromLeftHolds(w, b);
  }

  lemma FromRightHolds<K(0, !new), V(0)>(w: Twin<K, V>, b: nat)
    requires TwinFormed(w) && TwinSep(w) && TwinRest(w, b) && |w.b.ents| > 0
    requires Local(w.ref, (w.lents + [w.x] + w.rents)[|w.left| := w.b.ents[0]],
                   Roots(w.left) + [w.a.ref, w.b.ref] + Roots(w.right), b)
    requires Local(w.a.ref, w.a.ents + [w.x], Roots(w.a.kids) + [Roots(w.b.kids)[0]], b)
    requires Local(w.b.ref, w.b.ents[1..], Roots(w.b.kids)[1..], b)
    ensures TwinHolds(FromRight(w), b) && Outside(FromRight(w)) == Outside(w)
  {
    hide Local, RepContext, RepAll, SepContext, SepAll, ObjsAll, ContextObjs;
    var v := FromRight(w);
    assert v.a.kids + v.b.kids == w.a.kids + w.b.kids;
    assert v.lents + [v.x] + v.rents == (w.lents + [w.x] + w.rents)[|w.left| := v.x];
    assert Roots(v.a.kids) == Roots(w.a.kids) + [Roots(w.b.kids)[0]];
    assert Roots(v.b.kids) == Roots(w.b.kids)[1..];
  }

  /** Taking a key from the right neighbour, through the parent. */
  method BorrowFromRight<K(0, !new), V(0)>(ghost w: Twin<K, V>, parent: Node<K, V>, index: nat, target: Node<K, V>, ghost b: nat)
    requires TwinHolds(w, b) && parent == w.ref && index == |w.left| && target == w.a.ref
    requires |w.b.ents| > 0 && |w.a.ents| < 2 * b - 1
    modifies Own(w.ref), Own(w.a.ref), Own(w.b.ref)
    ensures TwinHolds(FromRight(w), b) && Outside(FromRight(w)) == Outside(w)
  {
    hide Outside, TwinSep, TwinRest, Roots, FromRight;
    TwinFacts(w, b);
    var brother := parent.subtrees[index + 1];
    assert brother == parent.Kids()[index + 1] == w.b.ref;
    PassLeft(parent, index, brother, target);
    ghost var framed := TwinRest(w, b);
    assert framed;
    FromRightHolds(w, b);
  }

  lemma MergedHolds<K(0, !new), V(0)>(w: Twin<K, V>, b: nat)
    requires TwinFormed(w) && TwinSep(w) && TwinRest(w, b) && |w.left| == |w.lents| && |w.right| == |w.rents|
    requires Local(w.ref, w.lents + w.rents, Roots(w.left) + [w.a.ref] + Roots(w.right), b)
    requires Local(w.a.ref, w.a.ents + [w.x] + w.b.ents, Roots(w.a.kids) + Roots(w.b.kids), b)
    ensures Holds(w.up, Merged(w), b)
    ensures Objs(Merged(w)) == Own(w.ref) + ObjsAll(w.left) + Own(w.a.ref) + ObjsAll(w.a.kids + w.b.kids) + ObjsAll(w.right)
  {
    hide Local, RepContext, RepAll, SepContext, SepAll, ObjsAll, ContextObjs;
    var m := Joined(w);
    assert Roots(m.kids) == Roots(w.a.kids) + Roots(w.b.kids);
    SepFill(w.left, m, w.right);
    ObjsFill(w.left, m, w.right);
    RepFill(w.left, m, w.right, b);
  }

  /** Merging two neighbours and the key between them into the left one. */
  method Merge<K(0, !new), V(0)>(ghost w: Twin<K, V>, parent: Node<K, V>, index: nat, ghost b: nat) returns (ok: bool)
    requires TwinHolds(w, b) && parent == w.ref && index == |w.left| && |w.right| == |w.rents|
    requires |w.a.ents| + 1 + |w.b.ents| < 2 * b
    modifies Own(w.ref), Own(w.a.ref)
    ensures ok && Holds(w.up, Merged(w), b) && w.a.ref != w.ref
    ensures Objs(Merged(w)) == Own(w.ref) + ObjsAll(w.left) + Own(w.a.ref) + ObjsAll(w.a.kids + w.b.kids) + ObjsAll(w.right)
  {
    hide Outside, TwinSep, TwinRest, Merged, Objs, ObjsAll, RemoveAt, Roots;
    TwinFacts(w, b);
    RemoveMiddle(w.lents, w.x, w.rents);
    RemoveSecond(Roots(w.left), w.a.ref, w.b.ref, Roots(w.right));
    assert parent.Keys()[index] == w.x && parent.Kids()[index] == w.a.ref && parent.Kids()[index + 1] == w.b.ref;
    ok := MergeSubtrees(parent, index);
    ghost var framed := TwinRest(w, b);
    assert framed;
    MergedHolds(w, b);
  }
}
