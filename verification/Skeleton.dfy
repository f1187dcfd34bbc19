/**
 * Trees without their nodes. What insertion builds is a function of the tree it starts from,
 * whatever nodes the pieces live in, and so is the way removal goes.
 */
module Skeletons {
  import opened Basics
  import opened Entries
  import opened Shapes
  import opened Surgery

  datatype Bare<K, V> = Nothing | Bare(ents: seq<Entry<K, V>>, kids: seq<Bare<K, V>>)

  /** The rest of a tree around one subtree. */
  datatype Around<K, V> =
    | Whole
    | Around(up: Around<K, V>, left: seq<Bare<K, V>>, lents: seq<Entry<K, V>>, rents: seq<Entry<K, V>>, right: seq<Bare<K, V>>)

  ghost function Strip<K(0, !new), V(0)>(s: Tree<K, V>): Bare<K, V>
    decreases s, 1
  {
    match s
    case Nil => Nothing
    case Tree(_, ents, kids) => Bare(ents, StripAll(kids))
  }

  ghost function StripAll<K(0, !new), V(0)>(ts: seq<Tree<K, V>>): (r: seq<Bare<K, V>>)
    ensures |r| == |ts| && forall i :: 0 <= i < |ts| ==> r[i] == Strip(ts[i])
    decreases ts, 0
  {
    seq(|ts|, i requires 0 <= i < |ts| => Strip(ts[i]))
  }

  ghost function StripContext<K(0, !new), V(0)>(c: Context<K, V>): Around<K, V> {
    match c
    case Top => Whole
    case Hole(up, _, left, lents, rents, right) => Around(StripContext(up), StripAll(left), lents, rents, StripAll(right))
  }

  ghost function FillBare<K, V>(a: Around<K, V>, n: Bare<K, V>): Bare<K, V>
    requires a.Around?
  {
    Bare(a.lents + a.rents, a.left + [n] + a.right)
  }

  ghost function PlugBare<K, V>(a: Around<K, V>, n: Bare<K, V>): Bare<K, V> {
    if a.Whole? then n else PlugBare(a.up, FillBare(a, n))
  }

  lemma StripFill<K(0, !new), V(0)>(c: Context<K, V>, s: Tree<K, V>)
    requires c.Hole?
    ensures Strip(Fill(c, s)) == FillBare(StripContext(c), Strip(s))
  {
    assert StripAll(c.left + [s] + c.right) == StripAll(c.left) + [Strip(s)] + StripAll(c.right);
  }

  lemma {:induction false} StripPlug<K(0, !new), V(0)>(c: Context<K, V>, s: Tree<K, V>)
    ensures Strip(Plug(c, s)) == PlugBare(StripContext(c), Strip(s))
  {
    if c.Hole? {
      StripFill(c, s);
      StripPlug(c.up, Fill(c, s));
    }
  }

  lemma StripNil<K(0, !new), V(0)>(s: Tree<K, V>)
    requires s.Nil?
    ensures Strip(s) == Nothing
  {
  }

  /** Every node has one subtree more than keys. */
  ghost predicate Formed<K, V>(n: Bare<K, V>) {
    match n
    case Nothing => true
    case Bare(ents, kids) => |kids| == |ents| + 1 && forall i :: 0 <= i < |kids| ==> Formed(kids[i])
  }

  ghost predicate Shaped<K, V>(a: Around<K, V>) {
    match a
    case Whole => true
    case Around(up, left, lents, rents, right) =>
      && |left| == |lents| && |right| == |rents| && Shaped(up)
      && (forall i :: 0 <= i < |left| ==> Formed(left[i])) && forall i :: 0 <= i < |right| ==> Formed(right[i])
  }

  lemma {:induction false} StripFormed<K(0, !new), V(0)>(s: Tree<K, V>, h: nat, lo: nat, b: nat)
    requires Balanced(s, h, lo, b)
    ensures Formed(Strip(s))
    decreases s
  {
    if s.Tree? {
      forall i | 0 <= i < |s.kids| ensures Formed(Strip(s.kids[i])) {
        StripFormed(s.kids[i], h - 1, Min(b), b);
      }
    }
  }

  lemma {:induction false} StripShaped<K(0, !new), V(0)>(c: Context<K, V>, h: nat, b: nat)
    requires BalancedContext(c, h, b)
    ensures Shaped(StripContext(c))
  {
    if c.Hole? {
      StripShaped(c.up, h + 1, b);
      forall i | 0 <= i < |c.left| ensures Formed(StripAll(c.left)[i]) { StripFormed(c.left[i], h, Min(b), b); }
      forall i | 0 <= i < |c.right| ensures Formed(StripAll(c.right)[i]) { StripFormed(c.right[i], h, Min(b), b); }
    }
  }

  /* ---- where a search ends ---- */

  datatype Spot<K, V> = Spot(around: Around<K, V>, node: Bare<K, V>, index: int)

  ghost function Enter<K, V>(a: Around<K, V>, n: Bare<K, V>, p: nat): Around<K, V>
    requires n.Bare? && p <= |n.ents| && |n.kids| == |n.ents| + 1
  {
    Around(a, n.kids[..p], n.ents[..p], n.ents[p..], n.kids[p + 1..])
  }

  /** The node that holds the key, or the leaf slot where it belongs, encoded as the search encodes it. */
  ghost function Locate<K, V>(cmp: (K, K) -> int, a: Around<K, V>, n: Bare<K, V>, key: K): (r: Spot<K, V>)
    requires n.Bare? && Formed(n) && Shaped(a)
    ensures r.node.Bare? && Formed(r.node) && Shaped(r.around) && -|r.node.ents| - 1 <= r.index < |r.node.ents|
    decreases n
  {
    var p: int := Slot(cmp, n.ents, key);
    if p < |n.ents| && n.ents[p].key == key then Spot(a, n, p)
    else if n.kids[p].Bare? then Locate(cmp, Enter(a, n, p), n.kids[p], key)
    else Spot(a, n, -p - 1)
  }

  lemma StripEnter<K(0, !new), V(0)>(c: Context<K, V>, s: Tree<K, V>, d: Context<K, V>, p: nat)
    requires s.Tree? && p <= |s.ents| && |s.kids| == |s.ents| + 1
    requires d == Hole(c, s.ref, s.kids[..p], s.ents[..p], s.ents[p..], s.kids[p + 1..])
    ensures StripContext(d) == Enter(StripContext(c), Strip(s), p) && Strip(s.kids[p]) == Strip(s).kids[p]
  {
    assert StripAll(s.kids[..p]) == StripAll(s.kids)[..p] && StripAll(s.kids[p + 1..]) == StripAll(s.kids)[p + 1..];
  }

  /** The search for the key from the whole tree goes on at `s`. */
  ghost predicate LeadsOn<K(0, !new), V(0)>(cmp: (K, K) -> int, key: K, shape: Tree<K, V>, c: Context<K, V>, s: Tree<K, V>) {
    && shape.Tree? && s.Tree? && Formed(Strip(shape)) && Formed(Strip(s)) && Shaped(StripContext(c))
    && Locate(cmp, Whole, Strip(shape), key) == Locate(cmp, StripContext(c), Strip(s), key)
  }

  /** The search for the key from the whole tree ends at `s` with result `index`. */
  ghost predicate LeadsTo<K(0, !new), V(0)>(cmp: (K, K) -> int, key: K, shape: Tree<K, V>, c: Context<K, V>, s: Tree<K, V>, index: int) {
    shape.Tree? && Formed(Strip(shape)) && Locate(cmp, Whole, Strip(shape), key) == Spot(StripContext(c), Strip(s), index)
  }

  lemma LeadsStart<K(0, !new), V(0)>(cmp: (K, K) -> int, key: K, shape: Tree<K, V>, h: nat, b: nat)
    requires shape.Tree? && Balanced(shape, h, 1, b)
    ensures LeadsOn(cmp, key, shape, Top, shape)
  {
    StripFormed(shape, h, 1, b);
  }

  /** A node that has the key ends the search. */
  lemma LeadsFound<K(0, !new), V(0)>(cmp: (K, K) -> int, key: K, shape: Tree<K, V>, c: Context<K, V>, s: Tree<K, V>, i: nat)
    requires TotalOrder(cmp) && LeadsOn(cmp, key, shape, c, s) && Sorted(cmp, s.ents) && i < |s.ents| && s.ents[i].key == key
    ensures LeadsTo(cmp, key, shape, c, s, i)
  {
    FoundSlot(cmp, s.ents, key, i);
  }

  lemma FoundSlot<K(!new), V>(cmp: (K, K) -> int, es: seq<Entry<K, V>>, key: K, i: nat)
    requires TotalOrder(cmp) && Sorted(cmp, es) && i < |es| && es[i].key == key
    ensures Slot(cmp, es, key) == i
  {
    PrefixBelow(cmp, es, i, key);
    SlotIs(cmp, es, key, i);
  }

  lemma MissedSlot<K(!new), V>(cmp: (K, K) -> int, es: seq<Entry<K, V>>, key: K, p: nat)
    requires TotalOrder(cmp) && p <= |es| && AllBelow(cmp, es[..p], key) && AllAbove(cmp, es[p..], key)
    ensures Slot(cmp, es, key) == p && (p < |es| ==> es[p].key != key)
  {
    assert p < |es| ==> es[p..][0] == es[p];
    if p < |es| {
      assert OrderAt(cmp, key, es[p].key, key);
    }
    SlotIs(cmp, es, key, p);
  }

  /** A node that does not have it sends the search into a subtree, or ends it at an empty one. */
  lemma LeadsMissed<K(0, !new), V(0)>(cmp: (K, K) -> int, key: K, shape: Tree<K, V>, c: Context<K, V>, s: Tree<K, V>, p: int, d: Context<K, V>)
    requires TotalOrder(cmp) && LeadsOn(cmp, key, shape, c, s) && 0 <= p <= |s.ents| && |s.kids| == |s.ents| + 1
    requires AllBelow(cmp, s.ents[..p], key) && AllAbove(cmp, s.ents[p..], key)
    requires d == Hole(c, s.ref, s.kids[..p], s.ents[..p], s.ents[p..], s.kids[p + 1..])
    ensures s.kids[p].Tree? ==> LeadsOn(cmp, key, shape, d, s.kids[p])
    ensures s.kids[p].Nil? ==> LeadsTo(cmp, key, shape, c, s, -p - 1)
  {
    MissedSlot(cmp, s.ents, key, p);
    StripEnter(c, s, d, p);
  }

  /* ---- what insertion builds ---- */

  /** Entry `e` at `i`, with subtree `r` on its right, goes into `n` and splits full nodes upward. */
  ghost function Raised<K, V>(a: Around<K, V>, n: Bare<K, V>, r: Bare<K, V>, e: Entry<K, V>, i: nat, b: nat): Bare<K, V>
    requires Shaped(a) && n.Bare? && |n.kids| == |n.ents| + 1 && i <= |n.ents| && b > 1
    decreases a
  {
    var ks, ns := InsertAt(n.ents, i, e), InsertAt(n.kids, i + 1, r);
    if |ks| < 2 * b then PlugBare(a, Bare(ks, ns))
    else
      var lower, upper := Bare(ks[..b], ns[..b + 1]), Bare(ks[b + 1..], ns[b + 1..]);
      if a.Whole? then Bare([ks[b]], [lower, upper])
      else Raised(a.up, FillBare(a, lower), upper, ks[b], |a.left|, b)
  }

  ghost function InsertBare<K, V>(cmp: (K, K) -> int, w: Bare<K, V>, e: Entry<K, V>, b: nat): Bare<K, V>
    requires Formed(w) && b > 1
  {
    if w.Nothing? then Bare([e], [Nothing, Nothing])
    else
      var s := Locate(cmp, Whole, w, e.key);
      if s.index >= 0 then w else Raised(s.around, s.node, Nothing, e, -s.index - 1, b)
  }

  /** An update leaves every node where it was. */
  ghost function UpdateBare<K, V>(cmp: (K, K) -> int, w: Bare<K, V>, e: Entry<K, V>): Bare<K, V>
    requires Formed(w)
  {
    if w.Nothing? then w
    else
      var s := Locate(cmp, Whole, w, e.key);
      if s.index < 0 then w else PlugBare(s.around, Bare(s.node.ents[s.index := e], s.node.kids))
  }

  lemma UpdateShows<K(0, !new), V(0)>(cmp: (K, K) -> int, e: Entry<K, V>, shape: Tree<K, V>, c: Context<K, V>, s: Tree<K, V>, i: nat)
    requires LeadsTo(cmp, e.key, shape, c, s, i) && s.Tree? && i < |s.ents|
    ensures Strip(Plug(c, Tree(s.ref, s.ents[i := e], s.kids))) == UpdateBare(cmp, Strip(shape), e)
  {
    hide Locate;
    StripPlug(c, Tree(s.ref, s.ents[i := e], s.kids));
  }

  /** Carrying the pending entry on from here ends in `target`. */
  ghost predicate Aims<K(0, !new), V(0)>(c: Context<K, V>, n: Tree<K, V>, r: Tree<K, V>, e: Entry<K, V>, i: nat, b: nat, target: Bare<K, V>) {
    && Matched(c) && n.Tree? && |n.kids| == |n.ents| + 1 && i <= |n.ents| && b > 1
    && Shaped(StripContext(c)) && Raised(StripContext(c), Strip(n), Strip(r), e, i, b) == target
  }

  /** An insertion aims from the leaf slot the search has found at what `InsertBare` builds. */
  lemma AimsStart<K(0, !new), V(0)>(cmp: (K, K) -> int, e: Entry<K, V>, shape: Tree<K, V>, c: Context<K, V>, s: Tree<K, V>,
      h: nat, b: nat, index: int) returns (target: Bare<K, V>)
    requires b > 1 && LeadsTo(cmp, e.key, shape, c, s, index) && s.Tree? && index < 0
    requires BalancedContext(c, h, b) && Balanced(s, h, Least(c, b), b)
    ensures target == InsertBare(cmp, Strip(shape), e, b) && Aims(c, s, Nil, e, -index - 1, b, target)
  {
    BalancedMatched(c, h, b);
    StripShaped(c, h, b);
    target := InsertBare(cmp, Strip(shape), e, b);
  }

  lemma StripInserted<K(0, !new), V(0)>(n: Tree<K, V>, i: nat, e: Entry<K, V>, r: Tree<K, V>)
    requires n.Tree? && i <= |n.ents| && |n.kids| == |n.ents| + 1
    ensures Strip(Inserted(n, i, e, r)) == Bare(InsertAt(n.ents, i, e), InsertAt(Strip(n).kids, i + 1, Strip(r)))
  {
    assert StripAll(InsertAt(n.kids, i + 1, r)) == InsertAt(StripAll(n.kids), i + 1, Strip(r));
  }

  lemma AimsDone<K(0, !new), V(0)>(c: Context<K, V>, n: Tree<K, V>, r: Tree<K, V>, e: Entry<K, V>, i: nat, b: nat, target: Bare<K, V>)
    requires Aims(c, n, r, e, i, b, target) && |n.ents| < 2 * b - 1
    ensures Strip(Plug(c, Inserted(n, i, e, r))) == target
  {
    StripInserted(n, i, e, r);
    StripPlug(c, Inserted(n, i, e, r));
  }

  lemma StripSlices<K(0, !new), V(0)>(ts: seq<Tree<K, V>>, m: nat)
    requires m <= |ts|
    ensures StripAll(ts[..m]) == StripAll(ts)[..m] && StripAll(ts[m..]) == StripAll(ts)[m..]
  {
  }

  lemma StripParts<K(0, !new), V(0)>(s: Tree<K, V>, b: nat, lower: Tree<K, V>, upper: Tree<K, V>)
    requires s.Tree? && b < |s.ents| && |s.kids| == |s.ents| + 1 && lower.Tree? && upper.Tree?
    requires lower.ents == s.ents[..b] && lower.kids == s.kids[..b + 1]
    requires upper.ents == s.ents[b + 1..] && upper.kids == s.kids[b + 1..]
    ensures Strip(lower) == Bare(s.ents[..b], Strip(s).kids[..b + 1])
    ensures Strip(upper) == Bare(s.ents[b + 1..], Strip(s).kids[b + 1..])
  {
    StripSlices(s.kids, b + 1);
  }

  /** A split hands the aim on to the parent. */
  lemma AimsUp<K(0, !new), V(0)>(c: Context<K, V>, n: Tree<K, V>, r: Tree<K, V>, e: Entry<K, V>, i: nat, b: nat, target: Bare<K, V>,
      lower: Tree<K, V>, upper: Tree<K, V>, p: Tree<K, V>)
    requires Aims(c, n, r, e, i, b, target) && |n.ents| == 2 * b - 1 && c.Hole? && lower.Tree? && upper.Tree?
    requires lower.ents == Inserted(n, i, e, r).ents[..b] && lower.kids == Inserted(n, i, e, r).kids[..b + 1]
    requires upper.ents == Inserted(n, i, e, r).ents[b + 1..] && upper.kids == Inserted(n, i, e, r).kids[b + 1..]
    requires p == Fill(c, lower)
    ensures Aims(c.up, p, upper, Inserted(n, i, e, r).ents[b], |c.left|, b, target)
  {
    hide Strip, StripAll;
    var s := Inserted(n, i, e, r);
    StripInserted(n, i, e, r);
    StripParts(s, b, lower, upper);
    StripFill(c, lower);
    StripSame(n);
    ContextSame(c);
  }

  lemma StripSame<K(0, !new), V(0)>(n: Tree<K, V>)
    requires n.Tree?
    ensures Strip(n) == Bare(n.ents, StripAll(n.kids))
  {
  }

  lemma ContextSame<K(0, !new), V(0)>(c: Context<K, V>)
    requires c.Hole?
    ensures StripContext(c) == Around(StripContext(c.up), StripAll(c.left), c.lents, c.rents, StripAll(c.right))
  {
  }

  /** Splitting the root meets the aim. */
  lemma AimsRoot<K(0, !new), V(0)>(n: Tree<K, V>, r: Tree<K, V>, e: Entry<K, V>, i: nat, b: nat, target: Bare<K, V>,
      lower: Tree<K, V>, upper: Tree<K, V>, w: Tree<K, V>)
    requires Aims(Top, n, r, e, i, b, target) && |n.ents| == 2 * b - 1 && lower.Tree? && upper.Tree?
    requires lower.ents == Inserted(n, i, e, r).ents[..b] && lower.kids == Inserted(n, i, e, r).kids[..b + 1]
    requires upper.ents == Inserted(n, i, e, r).ents[b + 1..] && upper.kids == Inserted(n, i, e, r).kids[b + 1..]
    requires w.Tree? && w.ents == [Inserted(n, i, e, r).ents[b]] && w.kids == [lower, upper]
    ensures Strip(w) == target
  {
    hide Strip, StripAll;
    var s := Inserted(n, i, e, r);
    StripInserted(n, i, e, r);
    StripParts(s, b, lower, upper);
    StripSame(n);
    StripSame(w);
    assert StripAll(w.kids) == [Strip(lower), Strip(upper)];
  }
}
