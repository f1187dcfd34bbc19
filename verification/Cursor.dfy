/** The forward in-order cursor over a tree, and what it has still to visit. */
module Cursors {
  import opened Basics
  import opened Entries
  import opened Nodes
  import opened Shapes
  import opened Search
  import opened Thinning
  import opened Predecessor

  /** Past the end, or at key `p` of node `s`. */
  datatype Place<K(0, !new), V(0)> =
    | End
    | On(c: Context<K, V>, s: Tree<K, V>, h: nat, p: nat)

  /** The entries from the current one on. */
  ghost function Remaining<K(0, !new), V(0)>(w: Place<K, V>): seq<Entry<K, V>>
    requires w.On? ==> w.s.Tree? && w.p < |w.s.ents| && |w.s.kids| == |w.s.ents| + 1
  {
    if w.End? then [] else [w.s.ents[w.p]] + Following(w.c, w.s, w.p)
  }

  /** Below the top, entry `(node, p)` means that the walk is inside subtree `p + 1`. */
  ghost predicate CursorTrail<K(0, !new), V(0)>(state: seq<Step<K, V>>, c: Context<K, V>)
    decreases c
  {
    match c
    case Top => state == []
    case Hole(up, ref, left, _, _, _) =>
      state != [] && state[|state| - 1] == Step(ref, |left| - 1) && CursorTrail(state[..|state| - 1], up)
  }

  lemma BottomTrail<K(0, !new), V(0)>()
    ensures CursorTrail<K, V>([], Top)
  {
  }

  ghost predicate Points<K(0, !new), V(0)>(w: Place<K, V>, state: seq<Step<K, V>>, shape: Tree<K, V>, b: nat) {
    match w
    case End => state == []
    case On(c, s, h, p) =>
      && s.Tree? && p < |s.ents| && |s.kids| == |s.ents| + 1
      && state != [] && state[|state| - 1] == Step(s.ref, p) && CursorTrail(state[..|state| - 1], c)
      && Plug(c, s) == shape && BalancedContext(c, h, b) && Balanced(s, h, Least(c, b), b)
  }

  /** A walk to the leftmost leaf of `k`, where the remaining entries will be `goal`. */
  ghost predicate Lefting<K(0, !new), V(0)>(shape: Tree<K, V>, d: Context<K, V>, k: Tree<K, V>, h: nat, b: nat, goal: seq<Entry<K, V>>) {
    && b > 1 && k.Tree? && Plug(d, k) == shape && BalancedContext(d, h, b) && Balanced(k, h, Least(d, b), b)
    && Flat(k) + After(d) == goal
  }

  /** A walk up from a finished subtree of height `h`, after which `goal` remains. */
  ghost predicate Rising<K(0, !new), V(0)>(shape: Tree<K, V>, d: Context<K, V>, k: Tree<K, V>, h: nat, b: nat, goal: seq<Entry<K, V>>) {
    && b > 1 && Plug(d, k) == shape && BalancedContext(d, h, b) && Balanced(k, h, Min(b), b)
    && After(d) == goal
  }

  /** What the heap shows of a node inside the tree. */
  lemma NodeInside<K(0, !new), V(0)>(shape: Tree<K, V>, c: Context<K, V>, s: Tree<K, V>, h: nat, lo: nat, b: nat)
    requires Sep(shape) && Rep(shape, b) && Plug(c, s) == shape && BalancedContext(c, h, b)
    requires Balanced(s, h, lo, b) && s.Tree?
    ensures h > 0 && |s.kids| == |s.ents| + 1 && s.ref.Fits() && s.ref.size == |s.ents| && s.ref.Keys() == s.ents
    ensures |s.kids| == s.ref.size + 1 && forall i :: 0 <= i < |s.kids| ==> s.ref.subtrees[i] == Root(s.kids[i])
    ensures s.kids[0].Tree? ==> h > 1 && forall i :: 0 <= i < |s.kids| ==> s.kids[i].Tree?
    ensures s.kids[0].Nil? ==> h == 1 && forall i :: 0 <= i < |s.kids| ==> s.kids[i].Nil?
  {
    WholeHolds(shape, b);
    Reopen(Top, shape, c, s, h, b);
    assert s.ref.Kids() == Roots(s.kids);
    forall i | 0 <= i < |s.kids| ensures s.ref.subtrees[i] == Root(s.kids[i]) {
      assert s.ref.Kids()[i] == s.ref.subtrees[i];
    }
    assert BalancedAll(s.kids, h - 1, b);
  }

  lemma LeftStep<K(0, !new), V(0)>(shape: Tree<K, V>, d: Context<K, V>, k: Tree<K, V>, h: nat, b: nat,
      goal: seq<Entry<K, V>>, state: seq<Step<K, V>>)
    requires Lefting(shape, d, k, h, b, goal) && CursorTrail(state, d) && h > 1
    ensures |k.kids| == |k.ents| + 1 && Lefting(shape, At(d, k, 0), k.kids[0], h - 1, b, goal)
    ensures CursorTrail(state + [Step(k.ref, -1)], At(d, k, 0))
  {
    assert BalancedAll(k.kids, h - 1, b);
    FillAt(d, k, 0);
    BalancedChild(d, k, h, b, 0);
    assert k.kids[..0] == [] && k.ents[0..] == k.ents;
    assert (state + [Step(k.ref, -1)])[..|state|] == state;
    Assoc(Flat(k.kids[0]), FlatRight(k.ents, k.kids[1..]), After(d));
  }

  lemma LeftEnd<K(0, !new), V(0)>(shape: Tree<K, V>, d: Context<K, V>, k: Tree<K, V>, b: nat,
      goal: seq<Entry<K, V>>, state: seq<Step<K, V>>)
    requires Lefting(shape, d, k, 1, b, goal) && CursorTrail(state, d)
    ensures Points(On(d, k, 1, 0), state + [Step(k.ref, 0)], shape, b) && Remaining(On(d, k, 1, 0)) == goal
  {
    assert (state + [Step(k.ref, 0)])[..|state|] == state;
    assert BalancedAll(k.kids, 0, b);
    assert k.kids[0].Nil?;
    AroundAt(d, k, 0);
    assert k.ents[0..] == k.ents;
    assert Flat(k) == [] + FlatRight(k.ents, k.kids[1..]);
    assert After(At(d, k, 0)) == FlatRight(k.ents, k.kids[1..]) + After(d);
  }

  /** From an inner key the walk goes down into the subtree on its right. */
  lemma InnerNext<K(0, !new), V(0)>(shape: Tree<K, V>, c: Context<K, V>, s: Tree<K, V>, h: nat, b: nat, p: nat, state: seq<Step<K, V>>)
    requires b > 1 && h > 1 && Points(On(c, s, h, p), state, shape, b)
    ensures Lefting(shape, At(c, s, p + 1), s.kids[p + 1], h - 1, b, Following(c, s, p))
    ensures CursorTrail(state, At(c, s, p + 1))
  {
    assert BalancedAll(s.kids, h - 1, b);
    FillAt(c, s, p + 1);
    BalancedChild(c, s, h, b, p + 1);
    Assoc(Flat(s.kids[p + 1]), FlatRight(s.ents[p + 1..], s.kids[p + 2..]), After(c));
  }

  /** From a key of a leaf the finished subtree is the empty one on its right. */
  lemma LeafNext<K(0, !new), V(0)>(shape: Tree<K, V>, c: Context<K, V>, s: Tree<K, V>, b: nat, p: nat, state: seq<Step<K, V>>)
    requires b > 1 && Points(On(c, s, 1, p), state, shape, b)
    ensures Rising(shape, At(c, s, p + 1), Nil, 0, b, Following(c, s, p)) && CursorTrail(state, At(c, s, p + 1))
    ensures s.kids[p + 1].Nil?
  {
    hide Plug;
    assert BalancedAll(s.kids, 0, b);
    assert s.kids[p + 1].Nil?;
    FillAt(c, s, p + 1);
    BalancedChild(c, s, 1, b, p + 1);
    EmptyFront(FlatRight(s.ents[p + 1..], s.kids[p + 2..]));
  }

  /** The finished subtree was its parent's last: the parent's subtree is finished too. */
  lemma RiseOn<K(0, !new), V(0)>(shape: Tree<K, V>, d: Context<K, V>, k: Tree<K, V>, h: nat, b: nat,
      goal: seq<Entry<K, V>>)
    requires Rising(shape, d, k, h, b, goal) && d.Hole? && d.rents == [] && d.up.Hole?
    ensures Rising(shape, d.up, Fill(d, k), h + 1, b, goal)
  {
    hide Flat;
    BalancedFill(d, k, h, b);
    assert After(d) == FlatRight([], d.right) + After(d.up);
    EmptyFront(After(d.up));
  }

  lemma BalancedFill<K(0, !new), V(0)>(d: Context<K, V>, k: Tree<K, V>, h: nat, b: nat)
    requires d.Hole? && BalancedContext(d, h, b) && Balanced(k, h, Min(b), b)
    ensures Balanced(Fill(d, k), h + 1, Least(d.up, b), b)
  {
    BalancedConcat(d.left + [k], d.right, h, b);
    BalancedConcat(d.left, [k], h, b);
  }

  lemma RiseEnd<K(0, !new), V(0)>(shape: Tree<K, V>, d: Context<K, V>, k: Tree<K, V>, h: nat, b: nat, goal: seq<Entry<K, V>>)
    requires Rising(shape, d, k, h, b, goal) && d.Hole? && d.rents == [] && d.up.Top?
    ensures goal == []
  {
    assert FlatRight(d.rents, d.right) == [] && After(d.up) == [];
  }

  /** The finished subtree has a key on its right: that key is next. */
  lemma RiseStop<K(0, !new), V(0)>(shape: Tree<K, V>, d: Context<K, V>, k: Tree<K, V>, h: nat, b: nat,
      goal: seq<Entry<K, V>>, state: seq<Step<K, V>>) returns (w: Place<K, V>)
    requires Rising(shape, d, k, h, b, goal) && CursorTrail(state, d) && d.Hole? && d.rents != []
    ensures w == On(d.up, Fill(d, k), h + 1, |d.left|)
    ensures Points(w, state[..|state| - 1] + [Step(d.ref, |d.left|)], shape, b) && Remaining(w) == goal
  {
    var p := Fill(d, k);
    w := On(d.up, p, h + 1, |d.left|);
    BalancedFill(d, k, h, b);
    assert p.kids[..|d.left|] == d.left && p.kids[|d.left| + 1..] == d.right;
    assert p.ents[..|d.left|] == d.lents && p.ents[|d.left|..] == d.rents;
    assert At(d.up, p, |d.left|) == d;
    AroundAt(d.up, p, |d.left|);
    var rest := state[..|state| - 1];
    assert (rest + [Step(d.ref, |d.left|)])[..|rest|] == rest;
  }

  /** What the heap shows of the parent of a finished subtree. */
  lemma RiseNode<K(0, !new), V(0)>(shape: Tree<K, V>, d: Context<K, V>, k: Tree<K, V>, h: nat, b: nat,
      goal: seq<Entry<K, V>>, state: seq<Step<K, V>>)
    requires Sep(shape) && Rep(shape, b) && Rising(shape, d, k, h, b, goal) && CursorTrail(state, d) && d.Hole?
    ensures state != [] && state[|state| - 1] == Step(d.ref, |d.left| - 1)
    ensures d.ref.size == |d.left| + |d.rents| && d.up.Top? == (|state| == 1)
    ensures d.up.Hole? ==> state[..|state| - 1][|state| - 2] == Step(d.up.ref, |d.up.left| - 1)
  {
    WholeHolds(shape, b);
    BalancedMatched(d, h, b);
    DescendAll(d, k, b);
  }

  lemma RemainingEmpty<K(0, !new), V(0)>(w: Place<K, V>, state: seq<Step<K, V>>, shape: Tree<K, V>, b: nat)
    requires Points(w, state, shape, b)
    ensures state == [] <==> w.End?
    ensures state == [] <==> Remaining(w) == []
    ensures w.On? ==> state[|state| - 1] == Step(w.s.ref, w.p) && Remaining(w)[0] == w.s.ents[w.p]
  {
  }

  lemma RemainingTail<K(0, !new), V(0)>(w: Place<K, V>)
    requires w.On? && w.s.Tree? && w.p < |w.s.ents| && |w.s.kids| == |w.s.ents| + 1
    ensures Remaining(w)[1..] == Following(w.c, w.s, w.p)
  {
  }

  class Cursor<K(0, !new), V(0)> {
    var state: seq<Step<K, V>>
    ghost var place: Place<K, V>

    /** The cursor stands in the tree `shape`, which the heap holds. */
    ghost predicate Valid(shape: Tree<K, V>, b: nat)
      reads this, Objs(shape)
    {
      b > 1 && Sep(shape) && Rep(shape, b) && Points(place, state, shape, b) && this !in Objs(shape)
    }

    /** The entries still to visit, the current one first. */
    ghost function Rest(): seq<Entry<K, V>>
      requires place.On? ==> place.s.Tree? && place.p < |place.s.ents| && |place.s.kids| == |place.s.ents| + 1
      reads this
    {
      Remaining(place)
    }

    /** Goes down first subtrees, recording the nodes passed, and stops on the leaf's first key. */
    method ToLeftmost(start: Node<K, V>, ghost shape: Tree<K, V>, ghost d0: Context<K, V>, ghost k0: Tree<K, V>,
        ghost h0: nat, ghost b: nat, ghost goal: seq<Entry<K, V>>)
      requires Sep(shape) && Rep(shape, b) && this !in Objs(shape)
      requires Lefting(shape, d0, k0, h0, b, goal) && start == Root(k0) && CursorTrail(state, d0)
      modifies this
      ensures Valid(shape, b) && Rest() == goal
    {
      hide Lefting, Points, Sep, Rep, Objs, Flat, After, Remaining, CursorTrail, At, Plug;
      var node: Node<K, V> := start;
      ghost var d, k := d0, k0;
      ghost var h: nat := h0;
      LeftNode(shape, d, k, h, b, goal);
      while node.subtrees[0] != null
        invariant Sep(shape) && Rep(shape, b) && this !in Objs(shape)
        invariant Lefting(shape, d, k, h, b, goal) && k.Tree? && node == k.ref && CursorTrail(state, d)
        invariant node.subtrees.Length > 0 && |k.kids| > 0 && node.subtrees[0] == Root(k.kids[0])
        invariant if node.subtrees[0] != null then h > 1 else h == 1
        decreases h
      {
        LeftStep(shape, d, k, h, b, goal, state);
        state := state + [Step(node, -1)];
        node := node.subtrees[0];
        d, k, h := At(d, k, 0), k.kids[0], h - 1;
        ghost var still := Rep(shape, b);
        assert still;
        LeftNode(shape, d, k, h, b, goal);
      }
      LeftEnd(shape, d, k, b, goal, state);
      state := state + [Step(node, 0)];
      place := On(d, k, 1, 0);
      ghost var still := Rep(shape, b);
      assert still;
    }

    /** The cursor at the first key of a tree, or past the end of an empty one. */
    constructor Begin(root: Node?<K, V>, ghost shape: Tree<K, V>, ghost h: nat, ghost b: nat)
      requires b > 1 && Sep(shape) && Rep(shape, b) && root == Root(shape) && Balanced(shape, h, 1, b)
      ensures Valid(shape, b) && Rest() == Flat(shape)
    {
      hide Sep, Rep, Flat, Balanced, Objs, Points, Remaining, Lefting, CursorTrail;
      Allocated(shape);
      state, place := [], End;
      new;
      ghost var still := Rep(shape, b);
      assert still;
      if root == null {
        EmptyPlace(shape, b);
        return;
      }
      StartLefting(shape, h, b);
      ToLeftmost(root, shape, Top, shape, h, b, Flat(shape));
    }

    /** Goes down last subtrees: the cursor stands on the greatest key. */
    constructor RBegin(root: Node?<K, V>, ghost shape: Tree<K, V>, ghost h: nat, ghost b: nat)
      requires b > 1 && Sep(shape) && Rep(shape, b) && root == Root(shape) && Balanced(shape, h, 1, b)
      ensures Valid(shape, b) && Rest() == Flat(shape)[if Flat(shape) == [] then 0 else |Flat(shape)| - 1..]
    {
      hide Sep, Rep, Flat, Balanced, Objs, Points, Remaining, Righting, CursorTrail;
      Allocated(shape);
      state, place := [], End;
      new;
      ghost var still := Rep(shape, b);
      assert still;
      if root == null {
        EmptyPlace(shape, b);
        return;
      }
      StartRighting(shape, h, b);
      var node: Node<K, V> := root;
      ghost var d, k := Top, shape;
      ghost var hk: nat := h;
      RightNode(shape, d, k, hk, b);
      while node.subtrees[node.size] != null
        invariant Sep(shape) && Rep(shape, b) && this !in Objs(shape)
        invariant Righting(shape, d, k, hk, b) && k.Tree? && node == k.ref && CursorTrail(state, d)
        invariant node.size < node.subtrees.Length && node.size == |k.ents| && |k.kids| == |k.ents| + 1
        invariant node.subtrees[node.size] == Root(k.kids[|k.ents|])
        invariant if node.subtrees[node.size] != null then hk > 1 else hk == 1
        decreases hk
      {
        RightStep(shape, d, k, hk, b, state);
        state := state + [Step(node, node.size - 1)];
        node := node.subtrees[node.size];
        d, k, hk := Last(d, k), k.kids[|k.ents|], hk - 1;
        ghost var still := Rep(shape, b);
        assert still;
        RightNode(shape, d, k, hk, b);
      }
      RightEnd(shape, d, k, b, state);
      state := state + [Step(node, node.size - 1)];
      place := On(d, k, 1, |k.ents| - 1);
      ghost var held := Rep(shape, b);
      assert held;
    }

    /** A cursor on a search path. */
    constructor FromPath(path: seq<Step<K, V>>, ghost place: Place<K, V>, ghost shape: Tree<K, V>, ghost b: nat)
      requires b > 1 && Sep(shape) && Rep(shape, b) && Points(place, path, shape, b)
      ensures Valid(shape, b) && state == path && this.place == place
    {
      Allocated(shape);
      state, this.place := path, place;
      new;
      ghost var still := Rep(shape, b);
      assert still;
    }

    /** The depth, the position in its node and the entry under the cursor; nothing at the end. */
    method Current(ghost shape: Tree<K, V>, ghost b: nat) returns (r: Option<(nat, nat, Entry<K, V>)>)
      requires Valid(shape, b)
      ensures Valid(shape, b)
      ensures r == None <==> Rest() == []
      ensures r.Some? ==> r.value.2 == Rest()[0] && r.value.0 == |state| - 1 && r.value.1 == place.p
    {
      hide Sep, Rep, Flat, Balanced, Objs, Remaining, BalancedContext, Plug;
      RemainingEmpty(place, state, shape, b);
      if state == [] {
        return None;
      }
      PlaceNode(place, state, shape, b);
      var top := state[|state| - 1];
      return Some((|state| - 1, top.index, top.node.keys[top.index]));
    }

    /** Moves to the next key in order; at the end it stays. */
    method Advance(ghost shape: Tree<K, V>, ghost b: nat)
      requires Valid(shape, b)
      modifies this
      ensures Valid(shape, b)
      ensures Rest() == if old(Rest()) == [] then [] else old(Rest())[1..]
    {
      hide Sep, Rep, Flat, Balanced, Objs, Remaining, BalancedContext, Plug, Points, Lefting, Rising, CursorTrail,
        Following;
      RemainingEmpty(place, state, shape, b);
      if state == [] {
        return;
      }
      PlaceNode(place, state, shape, b);
      var node: Node<K, V> := state[|state| - 1].node;
      var pos := state[|state| - 1].index;
      ghost var c, s, h, p := place.c, place.s, place.h, place.p;
      RemainingTail(place);
      ghost var goal := Following(c, s, p);
      if node.subtrees[0] != null {
        InnerNext(shape, c, s, h, b, p, state);
        ToLeftmost(node.subtrees[pos + 1], shape, At(c, s, p + 1), s.kids[p + 1], h - 1, b, goal);
        return;
      }
      LeafNext(shape, c, s, b, p, state);
      ghost var d, k := At(c, s, p + 1), Nil;
      ghost var hk: nat := 0;
      RiseNode(shape, d, k, hk, b, goal, state);
      if pos + 1 < node.size {
        Increment(d, k, hk, shape, b, goal);
        return;
      }
      while pos + 1 == node.size
        invariant Sep(shape) && Rep(shape, b) && this !in Objs(shape)
        invariant Rising(shape, d, k, hk, b, goal) && CursorTrail(state, d) && d.Hole?
        invariant node == d.ref && pos == |d.left| - 1 && node.size == |d.left| + |d.rents|
        decreases d
      {
        RiseNode(shape, d, k, hk, b, goal, state);
        TrailUp(state, d);
        state := state[..|state| - 1];
        ghost var still := Rep(shape, b);
        assert still;
        if state == [] {
          RiseEnd(shape, d, k, hk, b, goal);
          place := End;
          EmptyPlace(shape, b);
          ghost var kept := Rep(shape, b);
          assert kept;
          return;
        }
        RiseOn(shape, d, k, hk, b, goal);
        node := state[|state| - 1].node;
        pos := state[|state| - 1].index;
        k, hk, d := Fill(d, k), hk + 1, d.up;
        RiseNode(shape, d, k, hk, b, goal, state);
      }
      Increment(d, k, hk, shape, b, goal);
    }

    /** The key right of the finished subtree becomes the current one. */
    method Increment(ghost d: Context<K, V>, ghost k: Tree<K, V>, ghost hk: nat, ghost shape: Tree<K, V>, ghost b: nat, ghost goal: seq<Entry<K, V>>)
      requires Sep(shape) && Rep(shape, b) && this !in Objs(shape) && d.Hole?
      requires Rising(shape, d, k, hk, b, goal) && CursorTrail(state, d) && d.rents != []
      modifies this
      ensures Valid(shape, b) && Rest() == goal
    {
      hide Sep, Rep, Flat, Balanced, Objs, Remaining, BalancedContext, Plug, Points, Rising, CursorTrail, At, Following;
      RiseNode(shape, d, k, hk, b, goal, state);
      ghost var w := RiseStop(shape, d, k, hk, b, goal, state);
      var top := state[|state| - 1];
      state := state[..|state| - 1] + [Step(top.node, top.index + 1)];
      place := w;
      RisingDegree(shape, d, k, hk, b, goal);
      ghost var still := Rep(shape, b);
      assert still;
    }
  }

  lemma RisingDegree<K(0, !new), V(0)>(shape: Tree<K, V>, d: Context<K, V>, k: Tree<K, V>, h: nat, b: nat, goal: seq<Entry<K, V>>)
    requires Rising(shape, d, k, h, b, goal)
    ensures b > 1
  {
  }

  lemma EmptyPlace<K(0, !new), V(0)>(shape: Tree<K, V>, b: nat)
    ensures Points(End, [], shape, b) && Remaining<K, V>(End) == []
    ensures shape.Nil? ==> Flat(shape) == []
  {
  }

  lemma StartLefting<K(0, !new), V(0)>(shape: Tree<K, V>, h: nat, b: nat)
    requires b > 1 && Balanced(shape, h, 1, b) && shape.Tree?
    ensures Lefting(shape, Top, shape, h, b, Flat(shape)) && CursorTrail<K, V>([], Top)
  {
  }

  lemma TrailUp<K(0, !new), V(0)>(state: seq<Step<K, V>>, d: Context<K, V>)
    requires CursorTrail(state, d) && d.Hole?
    ensures CursorTrail(state[..|state| - 1], d.up)
  {
  }

  /** The node under the cursor as the heap has it. */
  lemma PlaceNode<K(0, !new), V(0)>(w: Place<K, V>, state: seq<Step<K, V>>, shape: Tree<K, V>, b: nat)
    requires Sep(shape) && Rep(shape, b) && Points(w, state, shape, b) && state != []
    ensures w.On? && w.s.Tree? && w.p < |w.s.ents| == w.s.ref.size && |w.s.kids| == |w.s.ents| + 1
    ensures state[|state| - 1] == Step(w.s.ref, w.p)
    ensures w.p < w.s.ref.keys.Length && w.s.ref.keys[w.p] == w.s.ents[w.p] == Remaining(w)[0]
    ensures w.s.ref.size + 1 <= w.s.ref.subtrees.Length
    ensures w.s.ref.subtrees[0] == null ==> w.h == 1
    ensures w.s.ref.subtrees[0] != null ==> w.h > 1 && w.s.ref.subtrees[w.p + 1] == Root(w.s.kids[w.p + 1]) && w.s.kids[w.p + 1].Tree?
  {
    NodeInside(shape, w.c, w.s, w.h, Least(w.c, b), b);
    assert w.s.ref.keys[w.p] == w.s.ref.Keys()[w.p];
  }

  lemma LeftNode<K(0, !new), V(0)>(shape: Tree<K, V>, d: Context<K, V>, k: Tree<K, V>, h: nat, b: nat, goal: seq<Entry<K, V>>)
    requires Sep(shape) && Rep(shape, b) && Lefting(shape, d, k, h, b, goal)
    ensures k.Tree? && Root(k) == k.ref && k.ref.subtrees.Length > 0 && |k.kids| > 0 && k.ref.subtrees[0] == Root(k.kids[0])
    ensures b > 1 && if Root(k.kids[0]) != null then h > 1 else h == 1
  {
    NodeInside(shape, d, k, h, Least(d, b), b);
  }

  /** A walk along last subtrees has come to `k`: nothing lies after it. */
  ghost predicate Righting<K(0, !new), V(0)>(shape: Tree<K, V>, d: Context<K, V>, k: Tree<K, V>, h: nat, b: nat) {
    && b > 1 && k.Tree? && Plug(d, k) == shape && BalancedContext(d, h, b) && Balanced(k, h, Least(d, b), b)
    && After(d) == []
  }

  lemma StartRighting<K(0, !new), V(0)>(shape: Tree<K, V>, h: nat, b: nat)
    requires b > 1 && Balanced(shape, h, 1, b) && shape.Tree?
    ensures Righting(shape, Top, shape, h, b) && CursorTrail<K, V>([], Top)
  {
  }

  lemma RightNode<K(0, !new), V(0)>(shape: Tree<K, V>, d: Context<K, V>, k: Tree<K, V>, h: nat, b: nat)
    requires Sep(shape) && Rep(shape, b) && Righting(shape, d, k, h, b)
    ensures k.Tree? && k.ref.Fits() && k.ref.size == |k.ents| && |k.kids| == |k.ents| + 1 && h > 0
    ensures k.ref.subtrees[k.ref.size] == Root(k.kids[|k.ents|])
    ensures if Root(k.kids[|k.ents|]) != null then h > 1 else h == 1
  {
    NodeInside(shape, d, k, h, Least(d, b), b);
  }

  lemma RightStep<K(0, !new), V(0)>(shape: Tree<K, V>, d: Context<K, V>, k: Tree<K, V>, h: nat, b: nat, state: seq<Step<K, V>>)
    requires Righting(shape, d, k, h, b) && CursorTrail(state, d) && h > 1 && |k.kids| == |k.ents| + 1
    ensures Righting(shape, Last(d, k), k.kids[|k.ents|], h - 1, b)
    ensures CursorTrail(state + [Step(k.ref, |k.ents| - 1)], Last(d, k))
  {
    var n := |k.ents|;
    assert BalancedAll(k.kids, h - 1, b);
    FillAt(d, k, n);
    BalancedChild(d, k, h, b, n);
    assert k.kids[..n] == k.kids[..|k.kids| - 1] && k.ents[..n] == k.ents && k.ents[n..] == [] && k.kids[n + 1..] == [];
    assert (state + [Step(k.ref, n - 1)])[..|state|] == state;
  }

  lemma RightEnd<K(0, !new), V(0)>(shape: Tree<K, V>, d: Context<K, V>, k: Tree<K, V>, b: nat, state: seq<Step<K, V>>)
    requires Righting(shape, d, k, 1, b) && CursorTrail(state, d)
    ensures k.ents != [] && Points(On(d, k, 1, |k.ents| - 1), state + [Step(k.ref, |k.ents| - 1)], shape, b)
    ensures Flat(shape) != [] && Remaining(On(d, k, 1, |k.ents| - 1)) == Flat(shape)[|Flat(shape)| - 1..]
  {
    hide Flat;
    var p := |k.ents| - 1;
    assert (state + [Step(k.ref, p)])[..|state|] == state;
    assert BalancedAll(k.kids, 0, b);
    BalancedMatched(d, 1, b);
    FlatPlug(d, k);
    LeafFlat(k);
    LastOf(Before(d), k.ents);
    EmptyPlace(k.kids[p + 1], b);
    assert Following(d, k, p) == [];
  }
}
