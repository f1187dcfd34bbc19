/**
 * When removal merges below a full parent. The program shifts the parent's slots one position
 * past the live ones, which a parent with 2t - 1 keys does not have (`Nodes.ShiftOut`).
 */
module FullParents {
  import opened Entries
  import opened Shapes
  import opened Search
  import opened Predecessor
  import opened Skeletons

  ghost predicate Rich<K, V>(n: Bare<K, V>, b: nat) {
    n.Bare? && |n.ents| >= b
  }

  /**
   * With `k` keys left in the node, the repair of the tree around it comes to a merge below a
   * parent that has all the keys its slots can hold.
   */
  ghost predicate Overruns<K, V>(a: Around<K, V>, k: int, b: nat)
    decreases a
  {
    match a
    case Whole => false
    case Around(up, left, lents, rents, right) =>
      && k < b - 1
      && !(left != [] && Rich(left[|left| - 1], b)) && !(right != [] && Rich(right[0], b))
      && (|lents| + |rents| == 2 * b - 1 || Overruns(up, |lents| + |rents| - 1, b))
  }

  /** The leaf that loses a key when the key at `i` of `n` goes: `n` itself or its predecessor's leaf. */
  ghost function LastLeaf<K, V>(a: Around<K, V>, n: Bare<K, V>): (r: Spot<K, V>)
    requires n.Bare? && Formed(n)
    ensures r.node.Bare? && Formed(r.node) && (Shaped(a) ==> Shaped(r.around))
    decreases n
  {
    if n.kids[|n.ents|].Bare? then LastLeaf(Enter(a, n, |n.ents|), n.kids[|n.ents|]) else Spot(a, n, |n.ents| - 1)
  }

  ghost function Loser<K, V>(s: Spot<K, V>): Spot<K, V>
    requires s.node.Bare? && Formed(s.node) && 0 <= s.index < |s.node.ents|
  {
    if s.node.kids[0].Bare? && s.node.kids[s.index].Bare? then LastLeaf(Enter(s.around, s.node, s.index), s.node.kids[s.index]) else s
  }

  /** Whether removing the key merges two subtrees of a full node. */
  ghost predicate MergesFull<K, V>(cmp: (K, K) -> int, w: Bare<K, V>, key: K, b: nat)
    requires Formed(w)
  {
    && w.Bare?
    && var s := Locate(cmp, Whole, w, key);
      s.index >= 0 && var l := Loser(s); l.node.Bare? && Overruns(l.around, |l.node.ents| - 1, b)
  }

  /* ---- the loop of removal ---- */

  /** A root, or a node with enough keys, ends the repair. */
  lemma OverrunsEnd<K(0, !new), V(0)>(c: Context<K, V>, n: Tree<K, V>, b: nat)
    requires n.Tree? && (c.Top? || |n.ents| >= b - 1)
    ensures !Overruns(StripContext(c), |n.ents|, b)
  {
  }

  ghost predicate RichLeft<K(0, !new), V(0)>(c: Context<K, V>, b: nat) {
    c.Hole? && c.left != [] && c.left[|c.left| - 1].Tree? && |c.left[|c.left| - 1].ents| >= b
  }

  ghost predicate RichRight<K(0, !new), V(0)>(c: Context<K, V>, b: nat) {
    c.Hole? && c.right != [] && c.right[0].Tree? && |c.right[0].ents| >= b
  }

  lemma RichMeans<K(0, !new), V(0)>(c: Context<K, V>, b: nat)
    requires c.Hole?
    ensures RichLeft(c, b) <==> |c.left| > 0 && c.left[|c.left| - 1].Tree? && |c.left[|c.left| - 1].ents| >= b
    ensures RichRight(c, b) <==> |c.right| > 0 && c.right[0].Tree? && |c.right[0].ents| >= b
  {
  }

  /** A neighbour with a key to spare ends it, too. */
  lemma OverrunsBorrow<K(0, !new), V(0)>(c: Context<K, V>, n: Tree<K, V>, b: nat)
    requires n.Tree? && (RichLeft(c, b) || RichRight(c, b))
    ensures !Overruns(StripContext(c), |n.ents|, b)
  {
    ContextSame(c);
  }

  /** Otherwise the node is merged, and what follows depends on the parent. */
  lemma OverrunsMerge<K(0, !new), V(0)>(c: Context<K, V>, n: Tree<K, V>, b: nat, m: Tree<K, V>)
    requires n.Tree? && c.Hole? && |n.ents| < b - 1 && !RichLeft(c, b) && !RichRight(c, b)
    requires m.Tree? && |m.ents| + 1 == |c.lents| + |c.rents|
    ensures Overruns(StripContext(c), |n.ents|, b) == (|m.ents| + 1 == 2 * b - 1 || Overruns(StripContext(c.up), |m.ents|, b))
  {
    ContextSame(c);
  }

  /** The exchange of entries leaves every count as it was. */
  lemma {:induction false} OverrunsGraft<K(0, !new), V(0)>(chain: Context<K, V>, base: Context<K, V>, other: Context<K, V>, k: int, b: nat)
    requires base.Hole? && other.Hole? && base.up == other.up && base.left == other.left && base.right == other.right
    requires |base.lents| == |other.lents| && |base.rents| == |other.rents|
    ensures Overruns(StripContext(Graft(chain, base)), k, b) == Overruns(StripContext(Graft(chain, other)), k, b)
  {
    if chain.Hole? {
      OverrunsGraft(chain.up, base, other, |chain.lents| + |chain.rents| - 1, b);
    }
  }

  lemma OverrunsSwap<K(0, !new), V(0)>(chain: Context<K, V>, c: Context<K, V>, s: Tree<K, V>, i: nat, y: Entry<K, V>, k: int, b: nat)
    requires s.Tree? && i < |s.ents| && |s.kids| == |s.ents| + 1
    ensures Overruns(StripContext(Graft(chain, At(c, SetEntry(s, i, y), i))), k, b)
         == Overruns(StripContext(Graft(chain, At(c, s, i))), k, b)
  {
    OverrunsGraft(chain, At(c, s, i), At(c, SetEntry(s, i, y), i), k, b);
  }

  /* ---- the way down to the leaf ---- */

  /** The walk along last subtrees below `base` goes on at `s`. */
  ghost predicate EndsAt<K(0, !new), V(0)>(base: Context<K, V>, k: Tree<K, V>, chain: Context<K, V>, s: Tree<K, V>) {
    && k.Tree? && s.Tree? && Formed(Strip(k)) && Formed(Strip(s))
    && LastLeaf(StripContext(base), Strip(k)) == LastLeaf(StripContext(Graft(chain, base)), Strip(s))
  }

  /** It has ended at the leaf. */
  ghost predicate EndsIn<K(0, !new), V(0)>(base: Context<K, V>, k: Tree<K, V>, chain: Context<K, V>, leaf: Tree<K, V>) {
    && k.Tree? && leaf.Tree? && Formed(Strip(k))
    && LastLeaf(StripContext(base), Strip(k)) == Spot(StripContext(Graft(chain, base)), Strip(leaf), |leaf.ents| - 1)
  }

  ghost predicate Ending<K(0, !new), V(0)>(base: Context<K, V>, k: Tree<K, V>, chain: Context<K, V>, s: Tree<K, V>) {
    if s.Tree? then EndsAt(base, k, chain, s) else chain.Hole? && EndsIn(base, k, chain.up, Fill(chain, Nil))
  }

  lemma EndsStart<K(0, !new), V(0)>(base: Context<K, V>, k: Tree<K, V>, h: nat, lo: nat, b: nat)
    requires k.Tree? && Balanced(k, h, lo, b)
    ensures Ending(base, k, Top, k)
  {
    StripFormed(k, h, lo, b);
  }

  lemma EndsStep<K(0, !new), V(0)>(base: Context<K, V>, k: Tree<K, V>, chain: Context<K, V>, s: Tree<K, V>)
    requires Ending(base, k, chain, s) && s.Tree? && |s.kids| == |s.ents| + 1
    ensures Ending(base, k, Last(chain, s), s.kids[|s.ents|])
  {
    var n := |s.ents|;
    var d := Graft(Last(chain, s), base);
    assert s.ents[..n] == s.ents && s.ents[n..] == [] && s.kids[n + 1..] == [];
    StripEnter(Graft(chain, base), s, d, n);
    LastFill(chain, s);
  }

  lemma EndsDone<K(0, !new), V(0)>(base: Context<K, V>, k: Tree<K, V>, chain: Context<K, V>, leaf: Tree<K, V>)
    requires Ending(base, k, chain, Nil) && chain.Hole? && leaf == Fill(chain, Nil)
    ensures EndsIn(base, k, chain.up, leaf)
  {
  }

  /* ---- the whole removal ---- */

  lemma MissesFull<K(0, !new), V(0)>(cmp: (K, K) -> int, key: K, shape: Tree<K, V>, c: Context<K, V>, s: Tree<K, V>, index: int, b: nat)
    requires Formed(Strip(shape)) && (shape.Tree? ==> LeadsTo(cmp, key, shape, c, s, index)) && index < 0
    ensures !MergesFull(cmp, Strip(shape), key, b)
  {
  }

  /** A key found in a leaf goes from that leaf. */
  lemma LeafFull<K(0, !new), V(0)>(cmp: (K, K) -> int, key: K, shape: Tree<K, V>, c: Context<K, V>, s: Tree<K, V>, i: nat, b: nat)
    requires Formed(Strip(shape)) && LeadsTo(cmp, key, shape, c, s, i) && s.Tree? && |s.kids| == |s.ents| + 1 && s.kids[0].Nil?
    ensures MergesFull(cmp, Strip(shape), key, b) == Overruns(StripContext(c), |s.ents| - 1, b)
  {
  }

  /** One found above the leaves goes from the leaf of its predecessor. */
  lemma InnerFull<K(0, !new), V(0)>(cmp: (K, K) -> int, key: K, shape: Tree<K, V>, c: Context<K, V>, s: Tree<K, V>, i: nat, b: nat,
      chain: Context<K, V>, leaf: Tree<K, V>)
    requires Formed(Strip(shape)) && LeadsTo(cmp, key, shape, c, s, i) && s.Tree? && |s.kids| == |s.ents| + 1 && i < |s.ents|
    requires s.kids[0].Tree? && EndsIn(At(c, s, i), s.kids[i], chain, leaf)
    ensures MergesFull(cmp, Strip(shape), key, b) == Overruns(StripContext(Graft(chain, At(c, s, i))), |leaf.ents| - 1, b)
  {
    StripEnter(c, s, At(c, s, i), i);
  }
}
