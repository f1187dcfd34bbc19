/** The bottom-up loop of insertion: what is carried from a split to the parent. */
module Insertion {
  import opened Basics
  import opened Entries
  import opened Nodes
  import opened Shapes
  import opened Search
  import opened Surgery

  /**
   * Node `n` of height `h` still has to take entry `e` at `i` with subtree `r` right of it;
   * once it has, the tree holds `goal`.
   */
  ghost predicate Carry<K(0, !new), V(0)>(c: Context<K, V>, n: Tree<K, V>, r: Tree<K, V>, e: Entry<K, V>, i: nat,
      h: nat, b: nat, goal: seq<Entry<K, V>>)
  {
    match n
    case Nil => false
    case Tree(_, ents, _) =>
      && BalancedContext(c, h, b) && Balanced(n, h, Least(c, b), b) && h > 0
      && Balanced(r, h - 1, Min(b), b) && i <= |ents|
      && Before(c) + Flat(Inserted(n, i, e, r)) + After(c) == goal
  }

  /** What the node itself shows of the state carried. */
  lemma CarryNode<K(0, !new), V(0)>(c: Context<K, V>, n: Tree<K, V>, r: Tree<K, V>, e: Entry<K, V>, i: nat,
      h: nat, b: nat, goal: seq<Entry<K, V>>)
    requires Holds(c, n, b) && Carry(c, n, r, e, i, h, b, goal)
    ensures n.Tree? && i <= |n.ents| == n.ref.size < 2 * b && |n.kids| == |n.ents| + 1 && Own(n.ref) <= Objs(n)
  {
  }

  /** With a free slot the tree is complete. */
  lemma CarryDone<K(0, !new), V(0)>(c: Context<K, V>, n: Tree<K, V>, r: Tree<K, V>, e: Entry<K, V>, i: nat,
      h: nat, b: nat, goal: seq<Entry<K, V>>) returns (whole: Tree<K, V>, height: nat)
    requires Carry(c, n, r, e, i, h, b, goal) && |n.ents| < 2 * b - 1 && b > 1
    ensures whole == Plug(c, Inserted(n, i, e, r)) && Root(whole) == Root(Plug(c, n))
    ensures Flat(whole) == goal && Balanced(whole, height, 1, b)
  {
    var s := Inserted(n, i, e, r);
    whole, height := Plug(c, s), h + Depth(c);
    BalancedInserted(n, i, e, r, h, Least(c, b), b);
    BalancedPlug(c, s, h, b);
    BalancedMatched(c, h, b);
    FlatPlug(c, s);
    RootPlug(c, s, n);
  }

  lemma BalancedInserted<K(0, !new), V(0)>(n: Tree<K, V>, i: nat, e: Entry<K, V>, r: Tree<K, V>, h: nat, lo: nat, b: nat)
    requires h > 0 && Balanced(n, h, lo, b) && Balanced(r, h - 1, Min(b), b) && i <= |n.ents|
    ensures var s := Inserted(n, i, e, r);
      |s.ents| == |n.ents| + 1 && |s.kids| == |s.ents| + 1 && BalancedAll(s.kids, h - 1, b)
  {
  }

  /** Splitting a full node leaves two balanced halves. */
  lemma BalancedParts<K(0, !new), V(0)>(n: Tree<K, V>, i: nat, e: Entry<K, V>, r: Tree<K, V>, h: nat, lo: nat, b: nat, sib: Node<K, V>)
    requires h > 0 && b > 1 && Balanced(n, h, lo, b) && Balanced(r, h - 1, Min(b), b) && i <= |n.ents| == 2 * b - 1
    ensures var s := Inserted(n, i, e, r);
      && Balanced(LowerPart(n.ref, s, b), h, Min(b), b) && Balanced(UpperPart(sib, s, b), h, Min(b), b)
  {
    BalancedInserted(n, i, e, r, h, lo, b);
  }

  /** After a split the median and the new sibling are carried to the parent. */
  lemma CarryUp<K(0, !new), V(0)>(c: Context<K, V>, n: Tree<K, V>, r: Tree<K, V>, e: Entry<K, V>, i: nat,
      h: nat, b: nat, goal: seq<Entry<K, V>>, sib: Node<K, V>, lower: Tree<K, V>, m: Entry<K, V>, upper: Tree<K, V>)
    returns (p: Tree<K, V>)
    requires Carry(c, n, r, e, i, h, b, goal) && |n.ents| == 2 * b - 1 && b > 1 && c.Hole?
    requires lower == LowerPart(n.ref, Inserted(n, i, e, r), b) && upper == UpperPart(sib, Inserted(n, i, e, r), b)
    requires m == Inserted(n, i, e, r).ents[b]
    ensures p == Fill(c, lower) && p.Tree? && p.ref == c.ref && Carry(c.up, p, upper, m, |c.left|, h + 1, b, goal)
    ensures Root(Plug(c.up, p)) == Root(Plug(c, n))
  {
    var s := Inserted(n, i, e, r);
    p := Fill(c, lower);
    BalancedParts(n, i, e, r, h, Least(c, b), b, sib);
    FlatCut(s, b, n.ref, sib);
    RootPlug(c, lower, n);
    var q := Inserted(p, |c.left|, m, upper);
    assert q.ents == c.lents + [m] + c.rents;
    assert q.kids == c.left + [lower, upper] + c.right;
    FlatPair(c.ref, c.left, c.lents, lower, m, upper, c.rents, c.right);
    Regroup(Before(c.up), FlatLeft(c.left, c.lents), Flat(s), FlatRight(c.rents, c.right), After(c.up));
  }

  /** Splitting the root puts a new root with one key above the halves. */
  lemma CarryRoot<K(0, !new), V(0)>(n: Tree<K, V>, r: Tree<K, V>, e: Entry<K, V>, i: nat,
      h: nat, b: nat, goal: seq<Entry<K, V>>, sib: Node<K, V>, lower: Tree<K, V>, upper: Tree<K, V>, t: Tree<K, V>)
    requires Carry(Top, n, r, e, i, h, b, goal) && |n.ents| == 2 * b - 1 && b > 1
    requires lower == LowerPart(n.ref, Inserted(n, i, e, r), b) && upper == UpperPart(sib, Inserted(n, i, e, r), b)
    requires t.Tree? && t.ents == [Inserted(n, i, e, r).ents[b]] && t.kids == [lower, upper]
    ensures Flat(t) == goal && Balanced(t, h + 1, 1, b)
  {
    var s := Inserted(n, i, e, r);
    BalancedParts(n, i, e, r, h, 1, b, sib);
    FlatCut(s, b, n.ref, sib);
    FlatPair(t.ref, [], [], lower, s.ents[b], upper, [], []);
    assert [] + [s.ents[b]] + [] == [s.ents[b]] && [] + [lower, upper] + [] == [lower, upper];
    assert Before<K, V>(Top) + Flat(s) + After<K, V>(Top) == Flat(s);
  }

  /** Linking an entry into a leaf inserts it into the whole. */
  lemma LeafInsert<K(0, !new), V(0)>(c: Context<K, V>, s: Tree<K, V>, h: nat, b: nat, i: nat, e: Entry<K, V>)
    requires BalancedContext(c, h, b) && Balanced(s, h, Least(c, b), b) && b > 1
    requires s.Tree? && i <= |s.ents| && i < |s.kids| && s.kids[i].Nil?
    ensures |s.kids| == |s.ents| + 1 && Flat(s) == s.ents
    ensures Carry(c, s, Nil, e, i, h, b, Before(c) + InsertAt(s.ents, i, e) + After(c))
  {
    LeafKids(s, h, Least(c, b), b, i);
    LeafFlat(s);
    LeafFlat(Inserted(s, i, e, Nil));
  }

  /** Inserting into the middle piece, at a place that fits the order. */
  lemma InsertWhole<K(!new), V>(cmp: (K, K) -> int, x: seq<Entry<K, V>>, s: seq<Entry<K, V>>, y: seq<Entry<K, V>>, i: nat, e: Entry<K, V>)
    requires TotalOrder(cmp) && i <= |s| && Sorted(cmp, x + s + y)
    requires AllBelow(cmp, x, e.key) && AllBelow(cmp, s[..i], e.key)
    requires AllAbove(cmp, s[i..], e.key) && AllAbove(cmp, y, e.key)
    ensures Sorted(cmp, x + InsertAt(s, i, e) + y)
    ensures e.key !in AsMap(x + s + y) && AsMap(x + InsertAt(s, i, e) + y) == AsMap(x + s + y)[e.key := e.value]
  {
    hide TotalOrder, Sorted, AllBelow, AllAbove, AsMap, InsertAt;
    var flat, p := x + s + y, |x| + i;
    InsertMiddle(x, s, i, e, y);
    BelowConcat(cmp, x, s[..i], e.key);
    BelowConcat(cmp, s[i..], y, e.key);
    InsertSorted(cmp, flat, p, e);
    AsMapInsert(flat, p, e);
    AsMapDomain(flat, e.key);
  }

  /** A search that lands at a leaf slot proves the key absent; putting it there is what to do. */
  lemma SearchMissed<K(0, !new), V(0)>(cmp: (K, K) -> int, shape: Tree<K, V>, c: Context<K, V>, s: Tree<K, V>,
      h: nat, b: nat, index: int, e: Entry<K, V>) returns (goal: seq<Entry<K, V>>)
    requires TotalOrder(cmp) && b > 1 && Seeking(cmp, e.key, shape, c, s, h, b)
    requires index < 0 && Landed(cmp, e.key, s, index)
    ensures Carry(c, s, Nil, e, -index - 1, h, b, goal) && Sorted(cmp, goal)
    ensures e.key !in AsMap(Flat(shape)) && AsMap(goal) == AsMap(Flat(shape))[e.key := e.value]
  {
    hide TotalOrder, Sorted, AllBelow, AllAbove, AsMap, Carry, Flat, BalancedContext, Balanced;
    var i := -index - 1;
    SeekingSorted(cmp, e.key, shape, c, s, h, b);
    LeafInsert(c, s, h, b, i, e);
    InsertWhole(cmp, Before(c), s.ents, After(c), i, e);
    goal := Before(c) + InsertAt(s.ents, i, e) + After(c);
  }
}
