/** Copying a tree node by node into fresh memory. */
module Copies {
  import opened Entries
  import opened Nodes
  import opened Shapes

  /** Two trees of one shape storing the same pairs, possibly in different nodes. */
  ghost predicate Alike<K(0, !new), V(0)>(s: Tree<K, V>, r: Tree<K, V>)
    decreases s, 1
  {
    match s
    case Nil => r.Nil?
    case Tree(_, ents, kids) => r.Tree? && r.ents == ents && AlikeAll(kids, r.kids)
  }

  ghost predicate AlikeAll<K(0, !new), V(0)>(ts: seq<Tree<K, V>>, us: seq<Tree<K, V>>)
    decreases ts, 0
  {
    |ts| == |us| && forall i :: 0 <= i < |ts| ==> Alike(ts[i], us[i])
  }

  lemma {:induction false} AlikeFlat<K(0, !new), V(0)>(s: Tree<K, V>, r: Tree<K, V>)
    requires Alike(s, r)
    ensures Flat(s) == Flat(r)
    decreases s, 1
  {
    if s.Tree? && s.kids != [] {
      AlikeFlat(s.kids[0], r.kids[0]);
      assert AlikeAll(s.kids[1..], r.kids[1..]);
      AlikeRight(s.ents, s.kids[1..], r.kids[1..]);
    }
  }

  lemma {:induction false} AlikeRight<K(0, !new), V(0)>(es: seq<Entry<K, V>>, ts: seq<Tree<K, V>>, us: seq<Tree<K, V>>)
    requires AlikeAll(ts, us)
    ensures FlatRight(es, ts) == FlatRight(es, us)
    decreases ts, 0
  {
    if ts != [] && es != [] {
      AlikeFlat(ts[0], us[0]);
      assert AlikeAll(ts[1..], us[1..]);
      AlikeRight(es[1..], ts[1..], us[1..]);
    }
  }

  lemma {:induction false} AlikeBalanced<K(0, !new), V(0)>(s: Tree<K, V>, r: Tree<K, V>, h: nat, lo: nat, b: nat)
    requires Alike(s, r) && Balanced(s, h, lo, b)
    ensures Balanced(r, h, lo, b)
    decreases s
  {
    if s.Tree? {
      forall i | 0 <= i < |r.kids| ensures Balanced(r.kids[i], h - 1, Min(b), b) {
        AlikeBalanced(s.kids[i], r.kids[i], h - 1, Min(b), b);
      }
    }
  }

  /** The subtrees copied so far hang from the first slots of the new node. */
  ghost predicate Hung<K(0, !new), V(0)>(n: Node<K, V>, kids: seq<Tree<K, V>>, b: nat)
    reads Own(n), ObjsAll(kids)
  {
    && n.keys.Length == 2 * b && n.subtrees.Length == 2 * b + 1 && |kids| <= n.subtrees.Length
    && n.subtrees[..|kids|] == Roots(kids)
    && SepAll(kids) && RepAll(kids, b) && Own(n) !! ObjsAll(kids)
  }

  /** One more copied subtree, sharing nothing with the others, goes into the next slot. */
  lemma HungOne<K(0, !new), V(0)>(n: Node<K, V>, kids: seq<Tree<K, V>>, k: Tree<K, V>, b: nat)
    requires n.keys.Length == 2 * b && n.subtrees.Length == 2 * b + 1 && |kids| < n.subtrees.Length
    requires n.subtrees[..|kids|] == Roots(kids) && n.subtrees[|kids|] == Root(k)
    requires SepAll(kids) && RepAll(kids, b) && Own(n) !! ObjsAll(kids)
    requires Sep(k) && Rep(k, b) && Objs(k) !! ObjsAll(kids) && Objs(k) !! Own(n)
    ensures Hung(n, kids + [k], b) && ObjsAll(kids + [k]) == ObjsAll(kids) + Objs(k)
  {
    hide Own, Sep, Rep, SepAll, RepAll, ObjsAll, Roots;
    SepFill(kids, k, []);
    ObjsFill(kids, k, []);
    RepFill(kids, k, [], b);
    Empty<K, V>(b);
    assert kids + [k] + [] == kids + [k];
    assert n.subtrees[..|kids| + 1] == n.subtrees[..|kids|] + [n.subtrees[|kids|]];
    assert Roots(kids) + [Root(k)] + [] == Roots(kids) + [Root(k)];
  }

  lemma Empty<K(0, !new), V(0)>(b: nat)
    ensures SepAll<K, V>([]) && ObjsAll<K, V>([]) == {} && RepAll<K, V>([], b) && Roots<K, V>([]) == [] && AlikeAll<K, V>([], [])
  {
  }

  lemma RepSize<K(0, !new), V(0)>(s: Tree<K, V>, b: nat)
    requires s.Tree? && Rep(s, b)
    ensures s.ref.size < 2 * b && Own(s.ref) <= Objs(s)
  {
  }

  /** What a represented node shows. */
  lemma RepNode<K(0, !new), V(0)>(s: Tree<K, V>, b: nat)
    requires s.Tree? && Rep(s, b)
    ensures s.ref.Fits() && s.ref.size == |s.ents| < 2 * b && |s.kids| == |s.ents| + 1 && s.ref.keys[..s.ref.size] == s.ents
    ensures s.ref.keys.Length == 2 * b && s.ref.subtrees.Length == 2 * b + 1
    ensures forall i :: 0 <= i < |s.kids| ==> s.ref.subtrees[i] == Root(s.kids[i]) && Rep(s.kids[i], b)
  {
    assert s.ref.Kids() == Roots(s.kids);
    forall i | 0 <= i < |s.kids| ensures s.ref.subtrees[i] == Root(s.kids[i]) {
      assert s.ref.Kids()[i] == s.ref.subtrees[i];
    }
  }

  lemma Slots<K(0, !new), V(0)>(n: Node<K, V>, kids: seq<Tree<K, V>>, b: nat)
    requires Hung(n, kids, b)
    ensures n.keys.Length == 2 * b && n.subtrees.Length == 2 * b + 1 && |kids| <= n.subtrees.Length
    ensures n.subtrees[..|kids|] == Roots(kids)
    ensures SepAll(kids) && RepAll(kids, b) && Own(n) !! ObjsAll(kids)
  {
  }

  /** A node filled with the pairs and the copied subtrees is a copy. */
  lemma Built<K(0, !new), V(0)>(n: Node<K, V>, s: Tree<K, V>, kids: seq<Tree<K, V>>, b: nat)
    requires s.Tree? && AlikeAll(s.kids, kids) && |s.kids| == |s.ents| + 1 && |s.ents| < 2 * b
    requires n.keys.Length == 2 * b && n.subtrees.Length == 2 * b + 1 && n.size == |s.ents|
    requires n.keys[..n.size] == s.ents && |kids| == |s.kids| && n.subtrees[..|kids|] == Roots(kids)
    requires SepAll(kids) && RepAll(kids, b) && Own(n) !! ObjsAll(kids)
    ensures var r := Tree(n, s.ents, kids); Alike(s, r) && Sep(r) && Rep(r, b) && Objs(r) == Own(n) + ObjsAll(kids)
  {
    hide RepAll, SepAll, ObjsAll;
  }

  /** Copies the subtrees of a node into the slots of a new one. */
  method CopySubtrees<K(0, !new), V(0)>(node: Node<K, V>, copied: Node<K, V>, b: nat, ghost s: Tree<K, V>)
    returns (ghost kids: seq<Tree<K, V>>)
    requires s.Tree? && node == s.ref && Rep(s, b) && Own(copied) !! Objs(s)
    requires copied.keys.Length == 2 * b && copied.subtrees.Length == 2 * b + 1
    modifies copied.subtrees
    ensures Hung(copied, kids, b) && AlikeAll(s.kids, kids) && fresh(ObjsAll(kids))
    decreases s, 0
  {
    hide Objs, Rep, ObjsAll, SepAll, RepAll, Alike, Sep, Roots;
    RepNode(s, b);
    Allocated(s);
    Empty<K, V>(b);
    kids := [];
    var i := 0;
    while i <= node.size
      invariant i == |kids| <= node.size + 1 && Rep(s, b) && node.size == |s.ents|
      invariant Hung(copied, kids, b) && fresh(ObjsAll(kids))
      invariant AlikeAll(s.kids[..i], kids)
    {
      RepNode(s, b);
      AllAllocated(kids);
      ghost var k;
      var kid;
      ghost var before := kids;
      kid, k := Copy(node.subtrees[i], b, s.kids[i]);
      ghost var still := Rep(s, b) && RepAll(kids, b);
      assert still;
      copied.subtrees[i] := kid;
      ghost var held := Rep(s, b) && RepAll(kids, b) && Rep(k, b);
      assert held;
      HungOne(copied, kids, k, b);
      kids := kids + [k];
      assert s.kids[..i + 1] == s.kids[..i] + [s.kids[i]];
      i := i + 1;
    }
    assert s.kids[..i] == s.kids;
  }

  /** Copies the pairs of a node and with them completes the copy. */
  method CopyKeys<K(0, !new), V(0)>(node: Node<K, V>, made: Node<K, V>, b: nat, ghost s: Tree<K, V>, ghost kids: seq<Tree<K, V>>)
    returns (ghost r: Tree<K, V>)
    requires s.Tree? && node == s.ref && Rep(s, b) && Own(made) !! Objs(s)
    requires Hung(made, kids, b) && AlikeAll(s.kids, kids) && made.size == node.size
    modifies made.keys
    ensures r == Tree(made, s.ents, kids) && Alike(s, r) && Sep(r) && Rep(r, b) && Objs(r) == Own(made) + ObjsAll(kids)
  {
    hide Objs, Rep, ObjsAll, SepAll, RepAll, Alike, Sep, Roots, AlikeAll, Hung;
    RepNode(s, b);
    Slots(made, kids, b);
    assert |kids| == |s.kids| by { Length(s.kids, kids); }
    var i := 0;
    while i < node.size
      invariant 0 <= i <= node.size == made.size == |s.ents| && made.subtrees[..|kids|] == Roots(kids)
      invariant Rep(s, b) && RepAll(kids, b) && made.keys[..i] == s.ents[..i]
    {
      RepNode(s, b);
      assert node.keys[..node.size][i] == node.keys[i];
      made.keys[i] := node.keys[i];
      i := i + 1;
      ghost var still := Rep(s, b) && RepAll(kids, b);
      assert still;
    }
    r := Tree(made, s.ents, kids);
    Built(made, s, kids, b);
  }

  lemma Length<K(0, !new), V(0)>(ts: seq<Tree<K, V>>, us: seq<Tree<K, V>>)
    requires AlikeAll(ts, us)
    ensures |ts| == |us|
  {
  }

  /** A fresh node of the same size with no subtrees yet. */
  method Blank<K(0, !new), V(0)>(size: nat, b: nat) returns (made: Node<K, V>)
    requires size < 2 * b
    ensures fresh(Own(made)) && made.keys.Length == 2 * b && made.subtrees.Length == 2 * b + 1 && made.size == size
  {
    made := new Node(b);
    made.size := size;
    var i := 0;
    while i <= size
      invariant 0 <= i <= size + 1
      modifies made.subtrees
    {
      made.subtrees[i] := null;
      i := i + 1;
    }
  }

  /** Copies a subtree; the copy shares no node with anything that existed before. */
  method Copy<K(0, !new), V(0)>(node: Node?<K, V>, b: nat, ghost s: Tree<K, V>) returns (copied: Node?<K, V>, ghost r: Tree<K, V>)
    requires b > 0 && node == Root(s) && Rep(s, b)
    ensures copied == Root(r) && Alike(s, r) && Sep(r) && Rep(r, b) && fresh(Objs(r))
    decreases s, 1
  {
    if node == null {
      return null, Nil;
    }
    hide Objs, Rep, ObjsAll, SepAll, RepAll, Alike, Sep, Roots, AlikeAll, Hung;
    Allocated(s);
    RepSize(s, b);
    copied := Blank(node.size, b);
    ghost var still := Rep(s, b);
    assert still;
    ghost var kids := CopySubtrees(node, copied, b, s);
    still := Rep(s, b);
    assert still;
    r := CopyKeys(node, copied, b, s, kids);
  }
}
