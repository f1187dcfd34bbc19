/** The B-tree: a mutable ordered container over nodes in the heap. */
module BTrees {
  import opened Basics
  import opened Entries
  import opened Nodes
  import opened Shapes
  import opened Search
  import opened Surgery
  import opened Insertion
  import opened Removal
  import opened Thinning
  import opened Predecessor
  import opened Cursors
  import opened Ranges
  import opened Heights
  import opened Copies
  import opened Skeletons
  import opened FullParents
  import opened Repairs

  class BTree<K(0, !new), V(0)> {
    const t: nat
    const cmp: (K, K) -> int
    var root: Node?<K, V>
    ghost var shape: Tree<K, V>
    ghost var height: nat

    ghost predicate Valid()
      reads this, Objs(shape)
    {
      && t > 1 && TotalOrder(cmp) && this !in Objs(shape)
      && root == Root(shape) && Sep(shape) && Rep(shape, t)
      && Balanced(shape, height, 1, t)
      && Sorted(cmp, Flat(shape))
    }

    /** The stored pairs in key order. */
    ghost function Contents(): seq<Entry<K, V>>
      reads this
    {
      Flat(shape)
    }

    /** The finite map the tree stands for. */
    ghost function Map(): map<K, V>
      reads this
    {
      AsMap(Flat(shape))
    }

    constructor (t: nat, cmp: (K, K) -> int)
      requires t > 1 && TotalOrder(cmp)
      ensures Valid() && Contents() == [] && this.t == t && this.cmp == cmp && Objs(shape) == {}
    {
      this.t, this.cmp := t, cmp;
      root, shape, height := null, Nil, 0;
    }

    /** A copy in memory of its own: nothing done to one tree reaches the other. */
    constructor Copy(other: BTree<K, V>)
      requires other.Valid()
      ensures Valid() && fresh(Objs(shape)) && other.Valid()
      ensures Contents() == other.Contents() && t == other.t && cmp == other.cmp
      ensures Alike(other.shape, shape) && height == other.height
    {
      hide Objs, Rep, Sep, Flat, Balanced, Alike, Sorted, TotalOrder;
      Allocated(other.shape);
      t, cmp, root, shape, height := other.t, other.cmp, null, Nil, 0;
      new;
      ghost var s := other.shape;
      ghost var still := Rep(s, t);
      assert still;
      ghost var r;
      root, r := Copies.Copy(other.root, t, s);
      still := Rep(s, t);
      assert still;
      AlikeFlat(s, r);
      AlikeBalanced(s, r, other.height, 1, t);
      Adopt(r, other.height);
      still := Rep(s, t);
      assert still;
    }

    lemma Heap()
      requires Valid()
      ensures t > 1 && Sep(shape) && Rep(shape, t) && root == Root(shape) && this !in Objs(shape)
      ensures Sorted(cmp, Flat(shape)) && TotalOrder(cmp)
    {
    }

    /** One step of the search: look into a node, then at the subtree to enter next. */
    method Look(node: Node<K, V>, key: K, ghost c: Context<K, V>, ghost s: Tree<K, V>, ghost h: nat)
      returns (index: int, child: Node?<K, V>, ghost d: Context<K, V>)
      requires Valid() && s.Tree? && node == s.ref && Seeking(cmp, key, shape, c, s, h, t)
      ensures Valid() && h > 0 && |s.kids| == |s.ents| + 1
      ensures 0 <= index ==> Landed(cmp, key, s, index)
      ensures index < 0 ==> var p := -index - 1;
        && p <= |s.ents| && child == Root(s.kids[p])
        && Seeking(cmp, key, shape, d, s.kids[p], h - 1, t)
        && d == Hole(c, s.ref, s.kids[..p], s.ents[..p], s.ents[p..], s.kids[p + 1..])
        && (child == null ==> Landed(cmp, key, s, index))
        && (LeadsOn(cmp, key, shape, c, s) && child != null ==> LeadsOn(cmp, key, shape, d, s.kids[p]))
      ensures LeadsOn(cmp, key, shape, c, s) && (0 <= index || child == null) ==> LeadsTo(cmp, key, shape, c, s, index)
    {
      hide Objs, Sep, Rep, Sorted, Balanced, Seeking, Flat, LeadsOn, LeadsTo, TotalOrder;
      SeekingNode(cmp, key, shape, c, s, h, t);
      Allocated(shape);
      index := node.FindPath(cmp, key);
      ghost var still := Valid();
      assert still;
      SeekingNode(cmp, key, shape, c, s, h, t);
      child, d := null, c;
      if index < 0 {
        child := node.subtrees[-index - 1];
        d := SeekChild(cmp, key, shape, c, s, h, t, -index - 1);
        if LeadsOn(cmp, key, shape, c, s) {
          LeadsMissed(cmp, key, shape, c, s, -index - 1, d);
        }
      } else if LeadsOn(cmp, key, shape, c, s) {
        LeadsFound(cmp, key, shape, c, s, index);
      }
    }

    method FindPath(key: K) returns (path: seq<Step<K, V>>, ghost c: Context<K, V>, ghost s: Tree<K, V>, ghost h: nat)
      requires Valid()
      ensures Valid()
      ensures path != [] && Trail(path[..|path| - 1], c) && path[|path| - 1].node == Root(s)
      ensures Seeking(cmp, key, shape, c, s, h, t)
      ensures shape.Nil? ==> s.Nil? && c.Top? && path == [Step(null, -1)]
      ensures shape.Tree? ==> Landed(cmp, key, s, path[|path| - 1].index)
      ensures shape.Tree? ==> 2 * Power(t, |path| - 1) - 1 <= |Contents()|
      ensures shape.Tree? ==> LeadsTo(cmp, key, shape, c, s, path[|path| - 1].index)
    {
      hide Seeking, Landed, Objs, Sep, Rep, Balanced, Flat, TotalOrder, Sorted, Power, LeadsOn, LeadsTo;
      var index := -1;
      StartSeeking(cmp, key, shape, height, t);
      if root == null {
        return [Step(null, index)], Top, shape, height;
      }
      var node := root;
      path := [];
      c, s, h := Top, shape, height;
      ghost var d, r := c, s;
      ghost var k: nat := h;
      LeadsStart(cmp, key, shape, height, t);
      while node != null && index < 0
        invariant Valid()
        invariant index < 0 ==> Seeking(cmp, key, shape, d, r, k, t) && node == Root(r) && Trail(path, d)
        invariant path == [] ==> index < 0 && r.Tree?
        invariant path != [] ==> s.Tree? && Seeking(cmp, key, shape, c, s, h, t) && Trail(path[..|path| - 1], c)
        invariant path != [] ==> path[|path| - 1] == Step(Root(s), index)
        invariant path != [] && (0 <= index || node == null) ==> Landed(cmp, key, s, index) && LeadsTo(cmp, key, shape, c, s, index)
        invariant index < 0 && node != null ==> LeadsOn(cmp, key, shape, d, r)
        decreases k, if index < 0 then 1 else 0
      {
        c, s, h := d, r, k;
        var child;
        index, child, d := Look(node, key, c, s, h);
        path := path + [Step(node, index)];
        if index < 0 {
          node := child;
          r, k := s.kids[-index - 1], h - 1;
        }
      }
      PathBound(cmp, key, shape, c, s, h, t, path);
    }

    /** Records the shape a whole operation has reached. */
    ghost method Adopt(s: Tree<K, V>, h: nat)
      requires t > 1 && TotalOrder(cmp) && this !in Objs(s)
      requires Sep(s) && Rep(s, t) && root == Root(s) && Balanced(s, h, 1, t) && Sorted(cmp, Flat(s))
      modifies `shape, `height
      ensures Valid() && shape == s && height == h && Contents() == Flat(s)
    {
      shape, height := s, h;
      var still := Rep(s, t);
      assert still;
    }

    /** A free slot ends the loop: the pending entry goes in and the tree is whole again. */
    method Settle(node: Node<K, V>, e: Entry<K, V>, i: nat, right: Node?<K, V>,
        ghost c: Context<K, V>, ghost n: Tree<K, V>, ghost r: Tree<K, V>, ghost h: nat, ghost goal: seq<Entry<K, V>>, ghost target: Bare<K, V>)
      requires t > 1 && TotalOrder(cmp) && Sorted(cmp, goal) && root == Root(Plug(c, n))
      requires Holds(c, n, t) && Pending(c, n, r, t) && Carry(c, n, r, e, i, h, t, goal) && Aims(c, n, r, e, i, t, target)
      requires n.Tree? && node == n.ref && right == Root(r) && node.size < 2 * t - 1
      requires this !in ContextObjs(c) + Objs(n) + Objs(r)
      modifies `shape, `height, Own(node)
      ensures Valid() && Contents() == goal && Strip(shape) == target
      ensures Objs(shape) == ContextObjs(c) + Objs(n) + Objs(r)
    {
      hide *;
      CarryNode(c, n, r, e, i, h, t, goal);
      InsertHere(c, n, node, e, i, right, r, t);
      ghost var s := Inserted(n, i, e, r);
      ghost var w, k := CarryDone(c, n, r, e, i, h, t, goal);
      AimsDone(c, n, r, e, i, t, target);
      AscendAll(c, s, t);
      Adopt(w, k);
    }

    /** Splitting the root makes the tree one level higher. */
    method Grow(node: Node<K, V>, e: Entry<K, V>, i: nat, right: Node?<K, V>,
        ghost n: Tree<K, V>, ghost r: Tree<K, V>, ghost h: nat, ghost goal: seq<Entry<K, V>>, ghost target: Bare<K, V>)
      returns (ghost added: set<object>)
      requires t > 1 && TotalOrder(cmp) && Sorted(cmp, goal)
      requires Holds(Top, n, t) && Pending(Top, n, r, t) && Carry(Top, n, r, e, i, h, t, goal) && Aims(Top, n, r, e, i, t, target)
      requires n.Tree? && node == n.ref && right == Root(r) && node.size == 2 * t - 1
      requires this !in Objs(n) + Objs(r)
      modifies this, Own(node)
      ensures Valid() && Contents() == goal && Strip(shape) == target
      ensures fresh(added) && Objs(shape) <= Objs(n) + Objs(r) + added
    {
      hide *;
      ghost var lower, upper, w;
      CarryNode(Top, n, r, e, i, h, t, goal);
      var sibling, median;
      sibling, median, lower, upper, added := SplitHere(Top, n, node, e, i, right, r, t);
      root, w := NewRoot(lower, median, upper, node, sibling, t);
      added := added + Own(root);
      CarryRoot(n, r, e, i, h, t, goal, sibling, lower, upper, w);
      InsertedShow(n, i, e, r);
      PartsShow(node, sibling, Inserted(n, i, e, r), t);
      AimsRoot(n, r, e, i, t, target, lower, upper, w);
      Adopt(w, h + 1);
    }

    /** Splits one full node that has a parent; the median and the sibling move up. */
    method Climb(node: Node<K, V>, e: Entry<K, V>, i: nat, right: Node?<K, V>,
        ghost c: Context<K, V>, ghost n: Tree<K, V>, ghost r: Tree<K, V>, ghost h: nat, ghost goal: seq<Entry<K, V>>, ghost target: Bare<K, V>)
      returns (sibling: Node<K, V>, median: Entry<K, V>, ghost p: Tree<K, V>, ghost upper: Tree<K, V>, ghost added: set<object>)
      requires t > 1 && c.Hole?
      requires Holds(c, n, t) && Pending(c, n, r, t) && Carry(c, n, r, e, i, h, t, goal) && Aims(c, n, r, e, i, t, target)
      requires n.Tree? && node == n.ref && right == Root(r) && node.size == 2 * t - 1
      modifies Own(node)
      ensures p.Tree? && p.ref == c.ref && sibling == Root(upper) && Root(Plug(c.up, p)) == Root(Plug(c, n))
      ensures Holds(c.up, p, t) && Pending(c.up, p, upper, t) && Carry(c.up, p, upper, median, |c.left|, h + 1, t, goal)
      ensures Aims(c.up, p, upper, median, |c.left|, t, target)
      ensures fresh(added) && ContextObjs(c.up) + Objs(p) + Objs(upper) <= ContextObjs(c) + Objs(n) + Objs(r) + added
      ensures ContextObjs(c.up) + Own(c.ref) <= ContextObjs(c)
    {
      hide *;
      ghost var lower;
      CarryNode(c, n, r, e, i, h, t, goal);
      sibling, median, lower, upper, added := SplitHere(c, n, node, e, i, right, r, t);
      p := CarryUp(c, n, r, e, i, h, t, goal, sibling, lower, median, upper);
      InsertedShow(n, i, e, r);
      PartsShow(node, sibling, Inserted(n, i, e, r), t);
      AimsUp(c, n, r, e, i, t, target, lower, upper, p);
      PendingUp(c, lower, upper, p, t);
    }

    /** The loop of insertion: split full nodes from the leaf up until a node has a free slot. */
    method InsertUp(path0: seq<Step<K, V>>, e0: Entry<K, V>,
        ghost c0: Context<K, V>, ghost n0: Tree<K, V>, ghost h0: nat, ghost goal: seq<Entry<K, V>>, ghost target: Bare<K, V>)
      returns (ghost added: set<object>)
      requires t > 1 && TotalOrder(cmp) && Sorted(cmp, goal) && root == Root(Plug(c0, n0))
      requires path0 != [] && Trail(path0[..|path0| - 1], c0) && n0.Tree?
      requires path0[|path0| - 1].node == n0.ref && path0[|path0| - 1].index < 0
      requires Holds(c0, n0, t) && Carry(c0, n0, Nil, e0, -path0[|path0| - 1].index - 1, h0, t, goal)
      requires Aims(c0, n0, Nil, e0, -path0[|path0| - 1].index - 1, t, target)
      requires this !in ContextObjs(c0) + Objs(n0)
      modifies this, ContextObjs(c0), Objs(n0)
      ensures Valid() && Contents() == goal && Strip(shape) == target
      ensures fresh(added) && Objs(shape) <= ContextObjs(c0) + Objs(n0) + added
    {
      hide *;
      ghost var before := ContextObjs(c0) + Objs(n0);
      NothingPending(c0, n0, t);
      var path, e := path0, e0;
      var node: Node<K, V> := path[|path| - 1].node;
      var right: Node?<K, V> := null;
      var i := -path[|path| - 1].index - 1;
      ghost var c, n, r := c0, n0, Nil;
      ghost var h: nat := h0;
      ghost var grown: set<object> := {};
      while true
        invariant root == Root(Plug(c, n)) && path != [] && Trail(path[..|path| - 1], c)
        invariant n.Tree? && node == n.ref && right == Root(r) && i >= 0
        invariant Holds(c, n, t) && Pending(c, n, r, t) && Carry(c, n, r, e, i, h, t, goal) && Aims(c, n, r, e, i, t, target)
        invariant ContextObjs(c) + Objs(n) + Objs(r) <= before + grown && fresh(grown) && this !in before + grown
        invariant ContextObjs(c) + Own(node) <= before
        decreases c
      {
        CarryNode(c, n, r, e, i, h, t, goal);
        PopTrail(path, c);
        if node.size < 2 * t - 1 {
          Settle(node, e, i, right, c, n, r, h, goal, target);
          return grown;
        }
        if |path| == 1 {
          added := Grow(node, e, i, right, n, r, h, goal, target);
          return added + grown;
        }
        ghost var p, upper, more;
        var sibling, median;
        sibling, median, p, upper, more := Climb(node, e, i, right, c, n, r, h, goal, target);
        grown := grown + more;
        assert fresh(grown);
        right, e, n, r := sibling, median, p, upper;
        path := path[..|path| - 1];
        node := path[|path| - 1].node;
        i := -path[|path| - 1].index - 1;
        c, h := c.up, h + 1;
      }
    }

    /** The first entry of an empty tree. */
    method Plant(e: Entry<K, V>)
      requires Valid() && shape.Nil?
      modifies this
      ensures Valid() && Map() == old(Map())[e.key := e.value] && fresh(Objs(shape))
      ensures Strip(shape) == InsertBare(cmp, Nothing, e, t)
    {
      var node := new Node(t);
      node.keys[0] := e;
      node.size := 1;
      root := node;
      ghost var leaf := Tree(node, [e], [Nil, Nil]);
      assert Local(node, [e], [null, null], t);
      LeafHolds(leaf, t);
      Adopt(leaf, 1);
    }

    /** Replaces the entry the search landed on. */
    method Replace(node: Node<K, V>, i: nat, e: Entry<K, V>, ghost c: Context<K, V>, ghost s: Tree<K, V>, ghost h: nat)
      requires Valid() && s.Tree? && node == s.ref
      requires Seeking(cmp, e.key, shape, c, s, h, t) && Landed(cmp, e.key, s, i) && LeadsTo(cmp, e.key, shape, c, s, i)
      modifies this, Objs(shape)
      ensures Valid() && Objs(shape) == old(Objs(shape))
      ensures Map() == old(Map())[e.key := e.value]
      ensures Formed(Strip(old(shape))) && Strip(shape) == UpdateBare(cmp, Strip(old(shape)), e)
    {
      hide LeadsTo, Strip, UpdateBare;
      StripFormed(shape, height, 1, t);
      UpdateShows(cmp, e, shape, c, s, i);
      Opened(cmp, e.key, shape, c, s, h, t);
      ghost var w, k := SetFound(cmp, shape, c, s, h, t, i, e);
      Overwrite(c, s, node, i, e, t);
      AscendAll(c, Tree(s.ref, s.ents[i := e], s.kids), t);
      Adopt(w, k);
    }

    /** Insertion of a new key, or replacement of the value of a stored one. */
    method InsertInner(e: Entry<K, V>, isUpdate: bool) returns (r: Outcome)
      requires Valid()
      modifies this, Objs(shape)
      ensures Valid() && fresh(Objs(shape) - old(Objs(shape)))
      ensures r == if isUpdate then (if e.key in old(Map()) then Done else KeyMissing)
                   else (if e.key in old(Map()) then KeyExists else Done)
      ensures if r == Done then Map() == old(Map())[e.key := e.value] else Contents() == old(Contents())
      ensures Formed(Strip(old(shape))) && (r == Done && !isUpdate ==> Strip(shape) == InsertBare(cmp, Strip(old(shape)), e, t))
      ensures if r != Done then shape == old(shape) else isUpdate ==> Strip(shape) == UpdateBare(cmp, Strip(old(shape)), e)
    {
      hide UpdateBare, Objs, ContextObjs, Sep, Rep, Flat, AsMap, Sorted, Balanced, TotalOrder, Seeking, Trail, LeadsTo, Aims, Strip, InsertBare;
      StripFormed(shape, height, 1, t);
      ghost var c, s, h;
      var path;
      path, c, s, h := FindPath(e.key);
      var top := path[|path| - 1];
      if 0 <= top.index {
        ghost var p := SearchFound(cmp, e.key, shape, c, s, h, t, top.index);
        if isUpdate {
          Replace(top.node, top.index, e, c, s, h);
          return Done;
        }
        return KeyExists;
      }
      if shape.Nil? {
        EmptyMap(shape, e.key);
        StripNil(shape);
      }
      if isUpdate {
        if shape.Tree? {
          ghost var _ := SearchMissed(cmp, shape, c, s, h, t, top.index, e);
        }
        return KeyMissing;
      }
      if top.node == null && |path| == 1 {
        Plant(e);
        return Done;
      }
      ghost var goal := SearchMissed(cmp, shape, c, s, h, t, top.index, e);
      ghost var target := AimsStart(cmp, e, shape, c, s, h, t, top.index);
      Opened(cmp, e.key, shape, c, s, h, t);
      ghost var added := InsertUp(path, e, c, s, h, goal, target);
      return Done;
    }

    /** The short node takes a key from its left neighbour. */
    method TakeLeft(parent: Node<K, V>, index: nat, target: Node<K, V>,
        ghost c: Context<K, V>, ghost n: Tree<K, V>, ghost h: nat, ghost goal: seq<Entry<K, V>>, ghost result: Bare<K, V>)
      requires t > 1 && TotalOrder(cmp) && Sorted(cmp, goal) && root == Root(Plug(c, n))
      requires Holds(c, n, t) && Thin(c, n, h, t, goal) && c.Hole? && |c.left| > 0 && n.Tree?
      requires parent == c.ref && index == |c.left| && target == n.ref
      requires |n.ents| + 2 == t && c.left[index - 1].Tree? && |c.left[index - 1].ents| >= t
      requires Mending(c, n, t, result) && RichLeft(c, t)
      requires this !in ContextObjs(c) + Objs(n)
      modifies `shape, `height, ContextObjs(c) + Objs(n)
      ensures Valid() && Contents() == goal && Objs(shape) == ContextObjs(c) + Objs(n) && Strip(shape) == result
    {
      hide Holds, Thin, ThinTwin, TwinHolds, ContextObjs, Objs, Plug, Parent, Root, FromLeft, Flat, Sorted,
        TotalOrder, Balanced, Own, Outside, Mending, Strip, RichLeft;
      ghost var w := OpenLeft(c, n, h, t, goal);
      ghost var v := ThinFromLeft(w, h, t, goal);
      MendLeft(c, n, t, result, w);
      BorrowFromLeft(w, parent, index, target, t);
      RootPlug(w.up, Parent(v), Parent(w));
      ghost var whole, k := CloseTwin(v, h, t, goal);
      Adopt(whole, k);
    }

    /** The short node takes a key from its right neighbour. */
    method TakeRight(parent: Node<K, V>, index: nat, target: Node<K, V>,
        ghost c: Context<K, V>, ghost n: Tree<K, V>, ghost h: nat, ghost goal: seq<Entry<K, V>>, ghost result: Bare<K, V>)
      requires t > 1 && TotalOrder(cmp) && Sorted(cmp, goal) && root == Root(Plug(c, n))
      requires Holds(c, n, t) && Thin(c, n, h, t, goal) && c.Hole? && |c.right| > 0 && n.Tree?
      requires parent == c.ref && index == |c.left| && target == n.ref
      requires |n.ents| + 2 == t && c.right[0].Tree? && |c.right[0].ents| >= t
      requires Mending(c, n, t, result) && RichRight(c, t) && !RichLeft(c, t)
      requires this !in ContextObjs(c) + Objs(n)
      modifies `shape, `height, ContextObjs(c) + Objs(n)
      ensures Valid() && Contents() == goal && Objs(shape) == ContextObjs(c) + Objs(n) && Strip(shape) == result
    {
      hide Holds, Thin, ThinTwin, TwinHolds, ContextObjs, Objs, Plug, Parent, Root, FromRight, Flat, Sorted,
        TotalOrder, Balanced, Own, Outside, Mending, Strip, RichRight, RichLeft;
      ghost var w := OpenRight(c, n, h, t, goal);
      ghost var v := ThinFromRight(w, h, t, goal);
      MendRight(c, n, t, result, w);
      BorrowFromRight(w, parent, index, target, t);
      RootPlug(w.up, Parent(v), Parent(w));
      ghost var whole, k := CloseTwin(v, h, t, goal);
      Adopt(whole, k);
    }

    /** The short node and a neighbour become one; the parent loses a key. */
    method Fuse(parent: Node<K, V>, index: nat, ghost w: Twin<K, V>, ghost h: nat, ghost goal: seq<Entry<K, V>>)
      requires t > 1 && TwinFormed(w) && TwinHolds(w, t) && ThinTwin(w, h, t, goal)
      requires parent == w.ref && index == |w.left| && |w.a.ents| + |w.b.ents| + 3 == 2 * t
      modifies Own(w.ref), Own(w.a.ref)
      ensures Holds(w.up, Merged(w), t) && Thin(w.up, Merged(w), h + 1, t, goal)
      ensures Merged(w).ref == parent && Root(Plug(w.up, Merged(w))) == Root(Plug(w.up, Parent(w)))
      ensures ContextObjs(w.up) + Objs(Merged(w)) <= Reach(w)
      ensures Own(parent) <= Objs(Merged(w)) && |Merged(w).ents| + 1 == old(parent.size) == |w.lents| + 1 + |w.rents|
    {
      ThinMerged(w, h, t, goal);
      RootPlug(w.up, Merged(w), Parent(w));
      var _ := Merge(w, parent, index, t);
    }

    /** The root is the only node that may lose its last key; then its subtree replaces it. */
    method Collapse(node: Node<K, V>, ghost n: Tree<K, V>, ghost h: nat, ghost goal: seq<Entry<K, V>>, ghost result: Bare<K, V>)
      requires t > 1 && TotalOrder(cmp) && Sorted(cmp, goal) && root == Root(n)
      requires Holds(Top, n, t) && Thin(Top, n, h, t, goal) && n.Tree? && node == n.ref
      requires this !in Objs(n) && node.size < t - 1 && Mending(Top, n, t, result)
      modifies this
      ensures Valid() && Contents() == goal && Objs(shape) <= Objs(n) && Strip(shape) == result
    {
      hide Objs, Sep, Rep, Balanced, Flat, Sorted, TotalOrder, Root, ContextObjs, Mending, Strip;
      ThinNode(Top, n, h, t, goal);
      ThinSize(Top, n, h, t, goal);
      TopPlug(n, t);
      MendRoot(n, t, result);
      if node.size == 0 {
        ghost var kid := OnlyKid(n, h, t, goal);
        root := node.subtrees[0];
        ghost var still := Rep(kid, t);
        assert still;
        Adopt(kid, h - 1);
      } else {
        ghost var whole, k := ThinDone(Top, n, h, t, goal);
        Adopt(whole, k);
      }
    }

    /**
     * The loop of removal: borrow or merge from the leaf up until no node is short. `overran` tells
     * whether a merge took place below a full parent.
     */
    method RemoveUp(path0: seq<Step<K, V>>, target0: Node<K, V>,
        ghost c0: Context<K, V>, ghost n0: Tree<K, V>, ghost h0: nat, ghost goal: seq<Entry<K, V>>)
      returns (ghost overran: bool)
      requires t > 1 && TotalOrder(cmp) && Sorted(cmp, goal) && root == Root(Plug(c0, n0))
      requires Trail(path0, c0) && n0.Tree? && target0 == n0.ref
      requires Holds(c0, n0, t) && Thin(c0, n0, h0, t, goal)
      requires this !in ContextObjs(c0) + Objs(n0)
      modifies this, ContextObjs(c0) + Objs(n0)
      ensures Valid() && Contents() == goal && Objs(shape) <= ContextObjs(c0) + Objs(n0)
      ensures Mending(c0, n0, t, Strip(shape)) && Mended(StripContext(c0), Strip(n0), t, Strip(shape))
      ensures overran == Overruns(StripContext(c0), |n0.ents|, t)
    {
      hide *;
      ghost var before := ContextObjs(c0) + Objs(n0);
      var path, target := path0, target0;
      ghost var c, n := c0, n0;
      ghost var h: nat := h0;
      overran := false;
      ghost var result := MendStart(c, n, h, t, goal);
      MendingMeans(c, n, t, result);
      while true
        invariant root == Root(Plug(c, n)) && Trail(path, c) && n.Tree? && target == n.ref
        invariant Holds(c, n, t) && Thin(c, n, h, t, goal) && Mending(c, n, t, result)
        invariant ContextObjs(c) + Objs(n) <= before
        invariant Overruns(StripContext(c0), |n0.ents|, t) == (overran || Overruns(StripContext(c), |n.ents|, t))
        decreases c
      {
        ThinNode(c, n, h, t, goal);
        ThinSize(c, n, h, t, goal);
        TopTrail(path, c);
        if target.size >= t - 1 {
          OverrunsEnd(c, n, t);
          Rest(target, c, n, h, goal, result);
          return;
        }
        if |path| == 0 {
          OverrunsEnd(c, n, t);
          TopPlug(n, t);
          Collapse(target, n, h, goal, result);
          return;
        }
        Neighbours(c, n, h, t, goal);
        RichMeans(c, t);
        var parent: Node<K, V> := path[|path| - 1].node;
        var index := -path[|path| - 1].index - 1;
        path := path[..|path| - 1];
        var leftExists := index != 0;
        var canTakeFromLeft := leftExists && parent.subtrees[index - 1].size > t - 1;
        var rightExists := index != parent.size;
        var canTakeFromRight := rightExists && parent.subtrees[index + 1].size > t - 1;
        if canTakeFromLeft {
          OverrunsBorrow(c, n, t);
          TakeLeft(parent, index, target, c, n, h, goal, result);
          return;
        }
        if canTakeFromRight {
          OverrunsBorrow(c, n, t);
          TakeRight(parent, index, target, c, n, h, goal, result);
          return;
        }
        ghost var w;
        if leftExists {
          w := OpenLeft(c, n, h, t, goal);
        } else {
          w := OpenRight(c, n, h, t, goal);
        }
        overran := overran || parent.size == 2 * t - 1;
        Fuse(parent, index - (if leftExists then 1 else 0), w, h, goal);
        OverrunsMerge(c, n, t, Merged(w));
        MendMerge(c, n, t, result, w);
        target := parent;
        c, n, h := w.up, Merged(w), h + 1;
      }
    }

    /** Nothing is short any more. */
    ghost method Rest(node: Node<K, V>, c: Context<K, V>, n: Tree<K, V>, h: nat, goal: seq<Entry<K, V>>, result: Bare<K, V>)
      requires t > 1 && TotalOrder(cmp) && Sorted(cmp, goal) && root == Root(Plug(c, n))
      requires Holds(c, n, t) && Thin(c, n, h, t, goal) && n.Tree? && node == n.ref && node.size >= t - 1
      requires Mending(c, n, t, result)
      requires this !in ContextObjs(c) + Objs(n)
      modifies `shape, `height
      ensures Valid() && Contents() == goal && Objs(shape) == ContextObjs(c) + Objs(n) && Strip(shape) == result
    {
      hide Holds, Plug, ContextObjs, Objs, Root, Sorted, TotalOrder, Balanced, Own, Flat, Thin, Mending, Strip;
      ThinNode(c, n, h, t, goal);
      ThinSize(c, n, h, t, goal);
      var whole, k := ThinDone(c, n, h, t, goal);
      MendDone(c, n, t, result);
      AscendAll(c, n, t);
      Adopt(whole, k);
    }

    /** Removes a key of a leaf and repairs the tree upward. */
    method DisposeInLeaf(path: seq<Step<K, V>>, node: Node<K, V>, j: nat,
        ghost c: Context<K, V>, ghost n: Tree<K, V>, ghost goal: seq<Entry<K, V>>)
      returns (ghost overran: bool)
      requires t > 1 && TotalOrder(cmp) && Sorted(cmp, goal) && root == Root(Plug(c, n))
      requires Trail(path, c) && n.Tree? && node == n.ref && j < |n.ents|
      requires Holds(c, n, t) && BalancedContext(c, 1, t) && Balanced(n, 1, Least(c, t), t)
      requires goal == Before(c) + RemoveAt(n.ents, j) + After(c)
      requires this !in ContextObjs(c) + Objs(n)
      modifies this, ContextObjs(c) + Objs(n)
      ensures Valid() && Contents() == goal && Objs(shape) <= ContextObjs(c) + Objs(n)
      ensures |n.kids| == |n.ents| + 1 && Mending(c, Without(n, j), t, Strip(shape))
      ensures overran == Overruns(StripContext(c), |n.ents| - 1, t)
    {
      hide *;
      LeafThin(c, n, j, t);
      NothingPending(c, n, t);
      ghost var r := RemoveHere(c, n, node, j, t);
      SameRoot(c, n, r);
      WithoutIs(n, j, r);
      overran := RemoveUp(path, node, c, r, 1, goal);
    }

    /** Walks to the last leaf of a subtree, recording the path. */
    method DescendMax(path0: seq<Step<K, V>>, start: Node?<K, V>, ghost base: Context<K, V>, ghost k: Tree<K, V>, ghost hk: nat)
      returns (path: seq<Step<K, V>>, ghost chain: Context<K, V>, ghost leaf: Tree<K, V>)
      requires Valid() && Trail(path0, base) && k.Tree? && start == k.ref
      requires Walking(shape, base, k, Top, k, hk, t)
      ensures Valid() && path != [] && leaf.Tree? && path[|path| - 1].node == leaf.ref
      ensures Trail(path[..|path| - 1], Graft(chain, base))
      ensures Walking(shape, base, k, chain, leaf, 1, t) && Depth(chain) + 1 == hk
      ensures EndsIn(Top, k, chain, leaf) && |leaf.kids| == |leaf.ents| + 1
    {
      hide *;
      Heap();
      path := path0;
      var node := start;
      ghost var s := k;
      ghost var h: nat := hk;
      chain := Top;
      WalkStart(base);
      RootIs(s);
      WalkNode(shape, base, k, chain, s, h, t);
      EndsStart(Top, k, h, Min(t), t);
      while node != null
        invariant Valid() && node == Root(s) && Walking(shape, base, k, chain, s, h, t) && Depth(chain) + h == hk
        invariant Trail(path, Graft(chain, base))
        invariant Ending(Top, k, chain, s)
        decreases h
      {
        Heap();
        RootIs(s);
        WalkNode(shape, base, k, chain, s, h, t);
        WalkStep(shape, base, k, chain, s, h, t);
        WalkTrail(path, base, chain, s);
        var index: int := node.size;
        path := path + [Step(node, -index - 1)];
        node := node.subtrees[index];
        EndsStep(Top, k, chain, s);
        chain, s, h := Last(chain, s), s.kids[index], h - 1;
      }
      RootIs(s);
      leaf := WalkEnd(shape, base, k, chain, h, t, path);
      EndsDone(Top, k, chain, leaf);
      chain := chain.up;
      Heap();
      WalkNode(shape, base, k, chain, leaf, 1, t);
    }

    /** Exchanges the key found in an inner node with the greatest key on its left. */
    method ExchangeLast(node: Node<K, V>, i: nat, leafNode: Node<K, V>,
        ghost c: Context<K, V>, ghost s: Tree<K, V>, ghost h: nat, ghost chain: Context<K, V>, ghost leaf: Tree<K, V>)
      returns (ghost g: Context<K, V>, ghost r: Tree<K, V>, ghost p: nat, ghost goal: seq<Entry<K, V>>)
      requires Valid() && Plug(c, s) == shape && BalancedContext(c, h, t) && Balanced(s, h, Least(c, t), t)
      requires s.Tree? && i < |s.ents| && |s.kids| == |s.ents| + 1 && node == s.ref && leaf.Tree? && leafNode == leaf.ref
      requires Walking(shape, At(c, s, i), s.kids[i], chain, leaf, 1, t) && Depth(chain) + 2 == h
      modifies Objs(shape)
      ensures leaf.ents != [] && leafNode.size == |leaf.ents| && r == Tree(leafNode, leaf.ents[|leaf.ents| - 1 := s.ents[i]], leaf.kids)
      ensures g == Graft(chain, At(c, SetEntry(s, i, leaf.ents[|leaf.ents| - 1]), i))
      ensures Holds(g, r, t) && ContextObjs(g) + Objs(r) == Objs(shape) && Root(Plug(g, r)) == root
      ensures BalancedContext(g, 1, t) && Balanced(r, 1, Least(g, t), t)
      ensures p < |Flat(shape)| && Flat(shape)[p] == s.ents[i] && goal == RemoveAt(Flat(shape), p)
      ensures goal == Before(g) + RemoveAt(r.ents, |r.ents| - 1) + After(g)
    {
      hide *;
      Heap();
      OpenExchange(shape, c, s, h, t, i, chain, leaf);
      ghost var w := SetTree(s, i, leaf.ents[|leaf.ents| - 1]);
      g, p, goal := Exchanged(shape, c, s, h, t, i, chain, leaf);
      var last := leafNode.size - 1;
      var x, y := node.keys[i], leafNode.keys[last];
      Overwrite(c, s, node, i, y, t);
      Reopen(c, w, g, leaf, 1, t);
      Overwrite(g, leaf, leafNode, last, x, t);
      r := CloseExchange(c, s, i, y, g, leaf, x, t);
    }

    /** The value stored under a key. */
    method Obtain(key: K) returns (r: Option<V>)
      requires Valid()
      ensures Valid() && r == if key in Map() then Some(Map()[key]) else None
    {
      hide Objs, Sep, Rep, Flat, AsMap, Sorted, Balanced, TotalOrder, Seeking, Trail;
      ghost var c, s, h;
      var path;
      path, c, s, h := FindPath(key);
      var top := path[|path| - 1];
      if top.index < 0 {
        Absent(key, c, s, h, top.index);
        return None;
      }
      ghost var p := SearchFound(cmp, key, shape, c, s, h, t, top.index);
      FoundNode(cmp, key, shape, c, s, h, t, top.index);
      return Some(top.node.keys[top.index].value);
    }

    /** A search that did not land on the key proves it absent. */
    lemma Absent(key: K, c: Context<K, V>, s: Tree<K, V>, h: nat, index: int)
      requires Valid() && index < 0 && Seeking(cmp, key, shape, c, s, h, t)
      requires shape.Tree? ==> Landed(cmp, key, s, index)
      ensures key !in Map()
    {
      if shape.Nil? {
        EmptyMap(shape, key);
      } else {
        var v: V := *;
        var _ := SearchMissed(cmp, shape, c, s, h, t, index, Entry(key, v));
      }
    }

    /** Removes a key, if it is there, and returns its value. */
    method Dispose(key: K) returns (r: Option<V>, ghost overran: bool)
      requires Valid()
      modifies this, Objs(shape)
      ensures Valid() && Objs(shape) <= old(Objs(shape))
      ensures r == if key in old(Map()) then Some(old(Map())[key]) else None
      ensures Map() == old(Map()) - {key}
      ensures r == None ==> Contents() == old(Contents())
      ensures Formed(Strip(old(shape))) && overran == MergesFull(cmp, Strip(old(shape)), key, t)
      ensures Strip(shape) == RemoveBare(cmp, Strip(old(shape)), key, t) && RemovalMends(cmp, Strip(old(shape)), key, t, Strip(shape))
    {
      hide RemovalMends, RemoveBare, Mending, LeadsTo, Strip, StripContext, Overruns, MergesFull, EndsIn,
        Objs, ContextObjs, Sep, Rep, Flat, AsMap, Sorted, Balanced, BalancedContext, TotalOrder, Seeking,
        Trail, Walking, Graft, Holds, Plug, RemoveAt, At, Before, After, Depth;
      StripFormed(shape, height, 1, t);
      RemoveMends(cmp, Strip(shape), key, t);
      ghost var c, s, h;
      var path;
      path, c, s, h := FindPath(key);
      var i := path[|path| - 1].index;
      if i < 0 {
        Absent(key, c, s, h, i);
        MissesRemoved(cmp, key, shape, c, s, i, t);
        MissesFull(cmp, key, shape, c, s, i, t);
        return None, false;
      }
      var node: Node<K, V> := path[|path| - 1].node;
      ghost var q := SearchFound(cmp, key, shape, c, s, h, t, i);
      FoundNode(cmp, key, shape, c, s, h, t, i);
      FoundKind(shape, c, s, h, t, i);
      r := Some(node.keys[i].value);
      if node.subtrees[0] != null {
        var down := path[..|path| - 1] + [Step(node, -i - 1)];
        TrailAt(path, c, s, i, down);
        overran := DisposeInner(down, node, i, c, s, h, key);
      } else {
        ghost var p, goal := LeafGoal(shape, c, s, t, i);
        RemovedGoal(cmp, Flat(shape), p);
        LeafFull(cmp, key, shape, c, s, i, t);
        ghost var was := shape;
        overran := DisposeInLeaf(path[..|path| - 1], node, i, c, s, goal);
        LeafRemoved(cmp, key, was, c, s, i, t, Strip(shape));
      }
    }

    /** Removes a key of an inner node by way of its predecessor. */
    method DisposeInner(down: seq<Step<K, V>>, node: Node<K, V>, i: nat, ghost c: Context<K, V>, ghost s: Tree<K, V>, ghost h: nat, ghost key: K)
      returns (ghost overran: bool)
      requires Valid() && Plug(c, s) == shape && BalancedContext(c, h, t) && Balanced(s, h, Least(c, t), t)
      requires s.Tree? && i < |s.ents| && |s.kids| == |s.ents| + 1 && node == s.ref && h > 1
      requires Trail(down, At(c, s, i)) && s.kids[i].Tree? && i < node.subtrees.Length && node.subtrees[i] == s.kids[i].ref
      requires Walking(shape, At(c, s, i), s.kids[i], Top, s.kids[i], h - 1, t)
      requires Formed(Strip(shape)) && LeadsTo(cmp, key, shape, c, s, i) && s.kids[0].Tree?
      modifies this, Objs(shape)
      ensures Valid() && Objs(shape) <= old(Objs(shape))
      ensures Map() == old(Map()) - {s.ents[i].key}
      ensures overran == MergesFull(cmp, Strip(old(shape)), key, t) && Strip(shape) == RemoveBare(cmp, Strip(old(shape)), key, t)
    {
      hide RemoveBare, Mending, LeadsTo, Strip, StripContext, Overruns, MergesFull, EndsIn,
        Objs, ContextObjs, Sep, Rep, Flat, AsMap, Sorted, Balanced, BalancedContext, TotalOrder, Seeking,
        Trail, Walking, Graft, Holds, Plug, RemoveAt, At, Before, After, Root, Depth, SetEntry;
      ghost var chain, leaf, g, r, p, goal;
      var path;
      path, chain, leaf := DescendMax(down, node.subtrees[i], At(c, s, i), s.kids[i], h - 1);
      EndsBelow(At(c, s, i), s.kids[i], chain, leaf);
      InnerFull(cmp, key, shape, c, s, i, t, chain, leaf);
      var leafNode: Node<K, V> := path[|path| - 1].node;
      ghost var flat, was := Flat(shape), shape;
      g, r, p, goal := ExchangeLast(node, i, leafNode, c, s, h, chain, leaf);
      RemovedGoal(cmp, flat, p);
      OverrunsSwap(chain, c, s, i, leaf.ents[|leaf.ents| - 1], |leaf.ents| - 1, t);
      TrailSwap(path[..|path| - 1], chain, c, s, i, leaf.ents[|leaf.ents| - 1]);
      overran := DisposeInLeaf(path[..|path| - 1], leafNode, leafNode.size - 1, g, r, goal);
      InnerRemoved(cmp, key, was, c, s, i, t, chain, leaf, r, Strip(shape));
    }

    /** The path to a lower bound, in the cursor's own terms. */
    method SeekLower(lower: K) returns (path: seq<Step<K, V>>, ghost c: Context<K, V>, ghost s: Tree<K, V>, ghost h: nat, ghost found: int)
      requires Valid() && root != null
      ensures Valid() && path != [] && CursorTrail(path[..|path| - 1], c) && s.Tree?
      ensures path[|path| - 1] == Step(s.ref, if found >= 0 then found else -found - 2)
      ensures Seeking(cmp, lower, shape, c, s, h, t) && Landed(cmp, lower, s, found)
    {
      hide Seeking, Landed, Objs, Sep, Rep, Balanced, Flat, TotalOrder, Sorted, CursorTrail;
      StartSeeking(cmp, lower, shape, height, t);
      var node := root;
      path := [];
      found := 0;
      c, s, h := Top, shape, height;
      ghost var d, r := c, s;
      ghost var k: nat := h;
      BottomTrail<K, V>();
      while node != null
        invariant Valid() && node == Root(r)
        invariant Seeking(cmp, lower, shape, d, r, k, t) && CursorTrail(path, d)
        invariant path == [] ==> r.Tree?
        invariant path != [] ==> s.Tree? && Seeking(cmp, lower, shape, c, s, h, t) && CursorTrail(path[..|path| - 1], c)
        invariant path != [] ==> found < 0 && path[|path| - 1] == Step(s.ref, -found - 2)
        invariant path != [] && node == null ==> Landed(cmp, lower, s, found)
        decreases k
      {
        c, s, h := d, r, k;
        ghost var before := path;
        var index, child;
        index, child, d := Look(node, lower, c, s, h);
        found := index;
        if index >= 0 {
          path := path + [Step(node, index)];
          assert path[..|path| - 1] == before;
          return;
        }
        SeekTrail(path, c, d);
        path := path + [Step(node, -index - 2)];
        assert path[..|path| - 1] == before;
        node := child;
        r, k := s.kids[-index - 1], h - 1;
      }
    }

    /** Collects from the cursor on while the keys stay within the upper bound. */
    method Scan(iter: Cursor<K, V>, upper: K, inclusive: bool) returns (range: seq<Entry<K, V>>, ghost n: nat)
      requires Valid() && iter.Valid(shape, t)
      modifies iter
      ensures Valid()
      ensures n <= |old(iter.Rest())| && range == old(iter.Rest())[..n]
      ensures forall i :: 0 <= i < n ==> AtMost(cmp, upper, inclusive, old(iter.Rest())[i].key)
      ensures n < |old(iter.Rest())| ==> !AtMost(cmp, upper, inclusive, old(iter.Rest())[n].key)
      ensures forall i :: 0 <= i < n ==>
        Less(cmp, old(iter.Rest())[i].key, upper) || (old(iter.Rest())[i].key == upper && inclusive)
      ensures n < |old(iter.Rest())| ==>
        !Less(cmp, old(iter.Rest())[n].key, upper) && !(old(iter.Rest())[n].key == upper && inclusive)
    {
      hide Sep, Rep, Flat, Balanced, Objs, Remaining, BalancedContext, Plug, Sorted, TotalOrder, AtMost, CursorTrail;
      ghost var all := iter.Rest();
      range, n := [], 0;
      var current := iter.Current(shape, t);
      while current.Some? && AtMost(cmp, upper, inclusive, current.value.2.key)
        invariant Valid() && iter.Valid(shape, t)
        invariant n <= |all| && range == all[..n] && iter.Rest() == all[n..]
        invariant current == None <==> iter.Rest() == []
        invariant current.Some? ==> current.value.2 == iter.Rest()[0]
        invariant forall i :: 0 <= i < n ==> AtMost(cmp, upper, inclusive, all[i].key)
        decreases |all| - n
      {
        range := range + [current.value.2];
        iter.Advance(shape, t);
        n := n + 1;
        ghost var still := Valid();
        assert still;
        current := iter.Current(shape, t);
      }
      forall i | 0 <= i < |all| ensures AtMost(cmp, upper, inclusive, all[i].key) <==>
        Less(cmp, all[i].key, upper) || (all[i].key == upper && inclusive)
      {
        Heap();
        AtMostMeans(cmp, upper, inclusive, all[i].key);
      }
    }

    /** The pairs whose keys lie between two bounds, in key order. */
    method ObtainBetween(lower: K, upper: K, lowerInclusive: bool, upperInclusive: bool) returns (range: seq<Entry<K, V>>)
      requires Valid() && root != null
      ensures Valid()
      ensures range == Select(cmp, Interval(lower, upper, lowerInclusive, upperInclusive), Contents())
      ensures forall e :: e in range <==>
        && e in Contents()
        && (Less(cmp, lower, e.key) || (e.key == lower && lowerInclusive))
        && (Less(cmp, e.key, upper) || (e.key == upper && upperInclusive))
      ensures Sorted(cmp, range)
    {
      hide Sep, Rep, Flat, Balanced, Objs, Remaining, BalancedContext, Plug, Sorted, TotalOrder, AtMost,
        CursorTrail, Seeking, Landed, StartsAt, Compare, Select;
      ghost var c, s, h, found, n;
      var path;
      path, c, s, h, found := SeekLower(lower);
      var last := |path| - 1;
      if path[last].index == -1 {
        path := path[..last] + [Step(path[last].node, 0)];
      }
      ghost var a, y := SeekStart(cmp, lower, shape, c, s, h, t, found);
      SeekPoints(cmp, lower, shape, c, s, h, t, found, path);
      SeekingNode(cmp, lower, shape, c, s, h, t);
      Allocated(shape);
      assert s.ref.keys[StartIndex(found)] == s.ref.Keys()[StartIndex(found)];
      var foundKey := path[last].node.keys[path[last].index].key;
      var iter := new Cursor.FromPath(path, On(c, s, h, StartIndex(found)), shape, t);
      ghost var still := Valid();
      assert still;
      if Compare(cmp, foundKey, lower) < (if lowerInclusive then 0 else 1) {
        iter.Advance(shape, t);
      }
      ghost var rest := iter.Rest();
      range, n := Scan(iter, upper, upperInclusive);
      Selected(cmp, Interval(lower, upper, lowerInclusive, upperInclusive), a, y, rest, n);
      Heap();
      SelectBetween(cmp, Interval(lower, upper, lowerInclusive, upperInclusive), Contents());
      SelectSorted(cmp, Interval(lower, upper, lowerInclusive, upperInclusive), Contents());
    }

    /** Every stored pair once, in key order, by stepping a cursor from the first to the end. */
    method Traverse() returns (all: seq<Entry<K, V>>)
      requires Valid()
      ensures Valid() && all == Contents()
    {
      hide Sep, Rep, Flat, Balanced, Objs, Remaining, BalancedContext, Plug, Sorted, TotalOrder, CursorTrail;
      Allocated(shape);
      ghost var n := 0;
      all := [];
      var iter := new Cursor.Begin(root, shape, height, t);
      ghost var still := Valid();
      assert still;
      var current := iter.Current(shape, t);
      while current.Some?
        invariant Valid() && iter.Valid(shape, t) && n <= |Contents()|
        invariant all == Contents()[..n] && iter.Rest() == Contents()[n..]
        invariant current == None <==> iter.Rest() == []
        invariant current.Some? ==> current.value.2 == iter.Rest()[0]
        decreases |Contents()| - n
      {
        all := all + [current.value.2];
        iter.Advance(shape, t);
        n := n + 1;
        ghost var held := Valid();
        assert held;
        current := iter.Current(shape, t);
      }
    }

    /** The pair with the least key, or nothing. */
    method First() returns (r: Option<Entry<K, V>>)
      requires Valid()
      ensures Valid() && r == if Contents() == [] then None else Some(Contents()[0])
    {
      hide Sep, Rep, Flat, Balanced, Objs, Remaining, BalancedContext, Plug, Sorted, TotalOrder, CursorTrail;
      Allocated(shape);
      var iter := new Cursor.Begin(root, shape, height, t);
      ghost var still := Valid();
      assert still;
      var current := iter.Current(shape, t);
      return if current.None? then None else Some(current.value.2);
    }

    /** The pair with the greatest key, or nothing. */
    method Greatest() returns (r: Option<Entry<K, V>>)
      requires Valid()
      ensures Valid() && r == if Contents() == [] then None else Some(Contents()[|Contents()| - 1])
    {
      hide Sep, Rep, Flat, Balanced, Objs, Remaining, BalancedContext, Plug, Sorted, TotalOrder, CursorTrail;
      Allocated(shape);
      var iter := new Cursor.RBegin(root, shape, height, t);
      ghost var still := Valid();
      assert still;
      var current := iter.Current(shape, t);
      return if current.None? then None else Some(current.value.2);
    }

    /**
     * The pair after `key`: the scan stops only on the key itself, so an absent key is an error
     * even when greater keys exist, and the greatest key is its own successor.
     */
    method ObtainNext(key: K) returns (r: Option<Entry<K, V>>, ghost i: nat)
      requires Valid()
      ensures Valid() && (r == None <==> !HasKey(Contents(), key))
      ensures r.Some? ==> i < |Contents()| && Contents()[i].key == key
      ensures r.Some? ==> r.value == Contents()[if i + 1 < |Contents()| then i + 1 else i]
    {
      hide Sep, Rep, Flat, Balanced, Objs, Remaining, BalancedContext, Plug, Sorted, CursorTrail, TotalOrder;
      Allocated(shape);
      i := 0;
      var iter := new Cursor.Begin(root, shape, height, t);
      ghost var still := Valid();
      assert still;
      var current := iter.Current(shape, t);
      while current.Some? && Compare(cmp, key, current.value.2.key) != 0
        invariant Valid() && iter.Valid(shape, t) && i <= |Contents()| && iter.Rest() == Contents()[i..]
        invariant current == None <==> iter.Rest() == []
        invariant current.Some? ==> current.value.2 == iter.Rest()[0]
        invariant forall j :: 0 <= j < i ==> Contents()[j].key != key
        decreases |Contents()| - i
      {
        SameKey(cmp, key, current.value.2.key);
        iter.Advance(shape, t);
        i := i + 1;
        ghost var held := Valid();
        assert held;
        current := iter.Current(shape, t);
      }
      if current.None? {
        return None, i;
      }
      SameKey(cmp, key, current.value.2.key);
      r := Some(current.value.2);
      iter.Advance(shape, t);
      ghost var kept := Valid();
      assert kept;
      current := iter.Current(shape, t);
      if current.Some? {
        r := Some(current.value.2);
      }
    }
  }

  /** Building a tree fails for a degree below two. */
  method Create<K(0, !new), V(0)>(t: nat, cmp: (K, K) -> int) returns (r: Option<BTree<K, V>>)
    requires TotalOrder(cmp)
    ensures r.Some? <==> t >= 2
    ensures r.Some? ==> fresh(r.value) && r.value.Valid() && r.value.Map() == map[] && r.value.t == t && r.value.cmp == cmp
  {
    if t < 2 {
      return None;
    }
    var tree := new BTree(t, cmp);
    r := Some(tree);
  }
}
