/** The interval query: what it must return, and where the scan for it starts. */
module Ranges {
  import opened Basics
  import opened Entries
  import opened Shapes
  import opened Search
  import opened Cursors

  /** The test the scan applies to the lower bound, negated: the key is not left of the interval. */
  predicate AtLeast<K>(cmp: (K, K) -> int, lower: K, inclusive: bool, key: K) {
    !(Compare(cmp, key, lower) < (if inclusive then 0 else 1))
  }

  predicate AtMost<K>(cmp: (K, K) -> int, upper: K, inclusive: bool, key: K) {
    Compare(cmp, key, upper) < (if inclusive then 1 else 0)
  }

  datatype Interval<K> = Interval(lower: K, upper: K, lowerInclusive: bool, upperInclusive: bool)

  predicate Inside<K>(cmp: (K, K) -> int, r: Interval<K>, key: K) {
    AtLeast(cmp, r.lower, r.lowerInclusive, key) && AtMost(cmp, r.upper, r.upperInclusive, key)
  }

  /** The pairs of `s` whose keys lie in the interval, in the order of `s`. */
  function Select<K, V>(cmp: (K, K) -> int, r: Interval<K>, s: seq<Entry<K, V>>): seq<Entry<K, V>> {
    if |s| == 0 then []
    else (if Inside(cmp, r, s[0].key) then [s[0]] else []) + Select(cmp, r, s[1..])
  }

  lemma {:induction false} SelectPrefix<K, V>(cmp: (K, K) -> int, r: Interval<K>, s: seq<Entry<K, V>>, n: nat)
    requires n <= |s|
    requires forall i :: 0 <= i < n ==> Inside(cmp, r, s[i].key)
    requires forall i :: n <= i < |s| ==> !Inside(cmp, r, s[i].key)
    ensures Select(cmp, r, s) == s[..n]
  {
    if s != [] {
      if n == 0 {
        SelectPrefix(cmp, r, s[1..], 0);
      } else {
        SelectPrefix(cmp, r, s[1..], n - 1);
        assert s[..n] == [s[0]] + s[1..][..n - 1];
      }
    }
  }

  lemma {:induction false} SelectSkip<K, V>(cmp: (K, K) -> int, r: Interval<K>, a: seq<Entry<K, V>>, s: seq<Entry<K, V>>)
    requires forall i :: 0 <= i < |a| ==> !Inside(cmp, r, a[i].key)
    ensures Select(cmp, r, a + s) == Select(cmp, r, s)
  {
    if a == [] {
      assert a + s == s;
    } else {
      assert (a + s)[1..] == a[1..] + s;
      SelectSkip(cmp, r, a[1..], s);
    }
  }

  /** Keys right of one beyond the upper bound are beyond it too. */
  lemma BeyondUpper<K(!new), V>(cmp: (K, K) -> int, s: seq<Entry<K, V>>, upper: K, inclusive: bool)
    requires TotalOrder(cmp) && Sorted(cmp, s) && s != [] && !AtMost(cmp, upper, inclusive, s[0].key)
    ensures forall i :: 0 <= i < |s| ==> !AtMost(cmp, upper, inclusive, s[i].key)
  {
    forall i | 0 < i < |s| ensures !AtMost(cmp, upper, inclusive, s[i].key) {
      assert Less(cmp, s[0].key, s[i].key);
      assert OrderAt(cmp, s[0].key, s[i].key, upper) && OrderAt(cmp, s[i].key, upper, upper);
      assert OrderAt(cmp, s[0].key, upper, upper);
    }
  }

  lemma BelowOrAbove<K(!new)>(cmp: (K, K) -> int, lower: K, inclusive: bool, key: K)
    requires TotalOrder(cmp)
    ensures Less(cmp, key, lower) ==> !AtLeast(cmp, lower, inclusive, key)
    ensures Less(cmp, lower, key) ==> AtLeast(cmp, lower, inclusive, key)
    ensures key == lower ==> AtLeast(cmp, lower, inclusive, key) == inclusive
  {
    assert OrderAt(cmp, key, lower, key) && OrderAt(cmp, lower, key, lower);
  }

  /** The mirror for the upper bound. */
  lemma AboveOrBelow<K(!new)>(cmp: (K, K) -> int, upper: K, inclusive: bool, key: K)
    requires TotalOrder(cmp)
    ensures Less(cmp, key, upper) ==> AtMost(cmp, upper, inclusive, key)
    ensures Less(cmp, upper, key) ==> !AtMost(cmp, upper, inclusive, key)
    ensures key == upper ==> AtMost(cmp, upper, inclusive, key) == inclusive
  {
    assert OrderAt(cmp, key, upper, key) && OrderAt(cmp, upper, key, upper);
  }

  lemma AtMostMeans<K(!new)>(cmp: (K, K) -> int, upper: K, inclusive: bool, key: K)
    requires TotalOrder(cmp)
    ensures AtMost(cmp, upper, inclusive, key) <==> Less(cmp, key, upper) || (key == upper && inclusive)
  {
    AboveOrBelow(cmp, upper, inclusive, key);
    assert OrderAt(cmp, key, upper, key);
  }

  /** The interval in the order's own terms: strictly between the bounds, or on one that is included. */
  lemma InsideMeans<K(!new)>(cmp: (K, K) -> int, r: Interval<K>, key: K)
    requires TotalOrder(cmp)
    ensures Inside(cmp, r, key) <==>
      && (Less(cmp, r.lower, key) || (key == r.lower && r.lowerInclusive))
      && (Less(cmp, key, r.upper) || (key == r.upper && r.upperInclusive))
  {
    BelowOrAbove(cmp, r.lower, r.lowerInclusive, key);
    AtMostMeans(cmp, r.upper, r.upperInclusive, key);
    assert OrderAt(cmp, key, r.lower, key) && OrderAt(cmp, r.lower, key, key);
  }

  /** Selecting keeps exactly the pairs inside. */
  lemma {:induction false} SelectMeans<K, V>(cmp: (K, K) -> int, r: Interval<K>, s: seq<Entry<K, V>>, e: Entry<K, V>)
    ensures e in Select(cmp, r, s) <==> e in s && Inside(cmp, r, e.key)
  {
    if s != [] {
      assert s == [s[0]] + s[1..];
      SelectMeans(cmp, r, s[1..], e);
    }
  }

  /** It keeps their order. */
  lemma {:induction false} SelectSorted<K, V>(cmp: (K, K) -> int, r: Interval<K>, s: seq<Entry<K, V>>)
    requires Sorted(cmp, s)
    ensures Sorted(cmp, Select(cmp, r, s))
  {
    if s != [] {
      var rest := Select(cmp, r, s[1..]);
      SelectSorted(cmp, r, s[1..]);
      forall j | 0 <= j < |rest| ensures Less(cmp, s[0].key, rest[j].key) {
        SelectMeans(cmp, r, s[1..], rest[j]);
        var k :| 0 <= k < |s[1..]| && s[1..][k] == rest[j];
        assert s[k + 1] == rest[j];
      }
    }
  }

  /** The answer to an interval query, without the function that computes it. */
  lemma SelectBetween<K(!new), V>(cmp: (K, K) -> int, r: Interval<K>, s: seq<Entry<K, V>>)
    requires TotalOrder(cmp)
    ensures forall e :: e in Select(cmp, r, s) <==>
      && e in s
      && (Less(cmp, r.lower, e.key) || (e.key == r.lower && r.lowerInclusive))
      && (Less(cmp, e.key, r.upper) || (e.key == r.upper && r.upperInclusive))
  {
    hide TotalOrder, Inside, Select;
    forall e: Entry<K, V> ensures e in Select(cmp, r, s) <==>
      && e in s
      && (Less(cmp, r.lower, e.key) || (e.key == r.lower && r.lowerInclusive))
      && (Less(cmp, e.key, r.upper) || (e.key == r.upper && r.upperInclusive))
    {
      SelectMeans(cmp, r, s, e);
      InsideMeans(cmp, r, e.key);
    }
  }

  /** `a` fails the lower bound, `s` after its head meets it, and the head decides itself. */
  ghost predicate StartsAt<K, V>(cmp: (K, K) -> int, lower: K, a: seq<Entry<K, V>>, s: seq<Entry<K, V>>) {
    AllBelow(cmp, a, lower) && s != [] && AllAbove(cmp, s[1..], lower)
  }

  /** Skipping the head when it fails the lower bound leaves exactly the keys that meet it. */
  lemma LowerSplit<K(!new), V>(cmp: (K, K) -> int, r: Interval<K>, a: seq<Entry<K, V>>, s: seq<Entry<K, V>>)
    requires TotalOrder(cmp) && StartsAt(cmp, r.lower, a, s)
    ensures var rest := if Compare(cmp, s[0].key, r.lower) < (if r.lowerInclusive then 0 else 1) then s[1..] else s;
      && Select(cmp, r, a + s) == Select(cmp, r, rest)
      && forall i :: 0 <= i < |rest| ==> AtLeast(cmp, r.lower, r.lowerInclusive, rest[i].key)
  {
    forall i | 0 <= i < |a| ensures !Inside(cmp, r, a[i].key) {
      BelowOrAbove(cmp, r.lower, r.lowerInclusive, a[i].key);
    }
    SelectSkip(cmp, r, a, s);
    forall i | 0 <= i < |s[1..]| ensures AtLeast(cmp, r.lower, r.lowerInclusive, s[1..][i].key) {
      BelowOrAbove(cmp, r.lower, r.lowerInclusive, s[1..][i].key);
    }
    assert s == [s[0]] + s[1..];
  }

  /** Around position `q` of a sorted sequence, everything before lies below and everything after lies above. */
  lemma SplitsAt<K(!new), V>(cmp: (K, K) -> int, lower: K, a: seq<Entry<K, V>>, e: Entry<K, V>, y: seq<Entry<K, V>>)
    requires TotalOrder(cmp) && Sorted(cmp, a + [e] + y)
    ensures !Less(cmp, lower, e.key) ==> AllBelow(cmp, a, lower)
    ensures !Less(cmp, e.key, lower) ==> AllAbove(cmp, y, lower)
  {
    var s := a + [e] + y;
    assert OrderAt(cmp, lower, e.key, lower) && OrderAt(cmp, e.key, lower, lower);
    forall i | 0 <= i < |a| && !Less(cmp, lower, e.key) ensures Less(cmp, a[i].key, lower) {
      assert s[i] == a[i] && s[|a|] == e && Less(cmp, s[i].key, s[|a|].key);
      assert OrderAt(cmp, a[i].key, e.key, lower);
    }
    forall i | 0 <= i < |y| && !Less(cmp, e.key, lower) ensures Less(cmp, lower, y[i].key) {
      assert s[|a| + 1 + i] == y[i] && s[|a|] == e && Less(cmp, s[|a|].key, s[|a| + 1 + i].key);
      assert OrderAt(cmp, lower, e.key, y[i].key);
    }
  }

  /** The key under the cursor the search leaves: the one found, the greatest smaller one of the leaf, or its first. */
  ghost function StartIndex(index: int): int {
    if index >= 0 then index else if index == -1 then 0 else -index - 2
  }

  lemma LeafSides<K(0, !new), V(0)>(c: Context<K, V>, s: Tree<K, V>, h: nat, lo: nat, b: nat, p: nat)
    requires Balanced(s, h, lo, b) && s.Tree? && p < |s.ents| && |s.kids| == |s.ents| + 1 && s.kids[0].Nil?
    ensures Following(c, s, p) == s.ents[p + 1..] + After(c)
    ensures p == 0 ==> Preceding(c, s, p) == Before(c)
  {
    LeafKids(s, h, lo, b, 0);
    FlatRightNil(s.ents[p + 1..], s.kids[p + 2..]);
    assert Following(c, s, p) == [] + s.ents[p + 1..] + After(c);
  }

  lemma SeekingRoom<K(0, !new), V(0)>(cmp: (K, K) -> int, key: K, shape: Tree<K, V>, c: Context<K, V>, s: Tree<K, V>, h: nat, b: nat)
    requires b > 1 && Seeking(cmp, key, shape, c, s, h, b) && s.Tree?
    ensures |s.ents| > 0 && |s.kids| == |s.ents| + 1 && Matched(c)
  {
    ReachedMatched(c, s, h, b);
  }

  lemma Irreflexive<K(!new)>(cmp: (K, K) -> int, x: K, y: K)
    requires TotalOrder(cmp)
    ensures !Less(cmp, x, x) && (Less(cmp, x, y) ==> !Less(cmp, y, x))
  {
    assert OrderAt(cmp, x, x, x) && OrderAt(cmp, x, y, x) && OrderAt(cmp, y, x, y);
  }

  /** A bound the leaf does not hold falls into one of its slots. */
  lemma SlotSides<K(0, !new), V(0)>(cmp: (K, K) -> int, lower: K, c: Context<K, V>, s: Tree<K, V>, h: nat, b: nat, index: int)
    requires TotalOrder(cmp) && b > 1 && Reached(cmp, lower, c, s, h, b) && Landed(cmp, lower, s, index) && index < 0
    requires |s.ents| > 0 && |s.kids| == |s.ents| + 1
    ensures index == -1 ==> AllBelow(cmp, Preceding(c, s, 0), lower) && Less(cmp, lower, s.ents[0].key)
    ensures index < -1 ==> 0 <= -index - 2 < |s.ents| && Less(cmp, s.ents[-index - 2].key, lower)
    ensures index < -1 ==> AllAbove(cmp, Following(c, s, -index - 2), lower)
  {
    hide TotalOrder, Flat, Sorted, Balanced, BalancedContext, Before, After, Preceding, Following;
    LeafKids(s, h, Least(c, b), b, -index - 1);
    if index == -1 {
      LeafSides(c, s, h, Least(c, b), b, 0);
    } else {
      LeafSides(c, s, h, Least(c, b), b, -index - 2);
      BelowConcat(cmp, s.ents[-index - 1..], After(c), lower);
    }
  }

  /** The search for the lower bound leaves a place that splits the whole tree at that bound. */
  lemma SeekStart<K(0, !new), V(0)>(cmp: (K, K) -> int, lower: K, shape: Tree<K, V>, c: Context<K, V>, s: Tree<K, V>,
      h: nat, b: nat, index: int) returns (a: seq<Entry<K, V>>, y: seq<Entry<K, V>>)
    requires TotalOrder(cmp) && b > 1 && Seeking(cmp, lower, shape, c, s, h, b) && Landed(cmp, lower, s, index)
    ensures s.Tree? && 0 <= StartIndex(index) < |s.ents| && |s.kids| == |s.ents| + 1
    ensures y == Remaining(On(c, s, h, StartIndex(index))) && Flat(shape) == a + y
    ensures y != [] && y[0] == s.ents[StartIndex(index)]
    ensures StartsAt(cmp, lower, a, y)
  {
    hide TotalOrder, Flat, Sorted, Balanced, BalancedContext, Reached, Preceding, Following, Plug, Less, AllBelow,
      AllAbove, Matched;
    SeekingRoom(cmp, lower, shape, c, s, h, b);
    if index < 0 {
      SlotSides(cmp, lower, c, s, h, b, index);
    }
    var p := StartIndex(index);
    var e := s.ents[p];
    SeekingSorted(cmp, lower, shape, c, s, h, b);
    FlatAround(c, s, p);
    Irreflexive(cmp, lower, e.key);
    Irreflexive(cmp, e.key, lower);
    SplitsAt(cmp, lower, Preceding(c, s, p), e, Following(c, s, p));
    a, y := Preceding(c, s, p), [e] + Following(c, s, p);
    Glue(a, e, Following(c, s, p));
  }

  /** Collecting until the upper bound fails collects exactly the interval. */
  lemma UpperSplit<K(!new), V>(cmp: (K, K) -> int, r: Interval<K>, s: seq<Entry<K, V>>, n: nat)
    requires TotalOrder(cmp) && Sorted(cmp, s) && n <= |s|
    requires forall i :: 0 <= i < |s| ==> AtLeast(cmp, r.lower, r.lowerInclusive, s[i].key)
    requires forall i :: 0 <= i < n ==> AtMost(cmp, r.upper, r.upperInclusive, s[i].key)
    requires n < |s| ==> !AtMost(cmp, r.upper, r.upperInclusive, s[n].key)
    ensures Select(cmp, r, s) == s[..n]
    ensures forall i :: 0 <= i < |s| ==> (i < n <==> Less(cmp, s[i].key, r.upper) || (s[i].key == r.upper && r.upperInclusive))
  {
    hide AtLeast, AtMost, TotalOrder;
    forall i | 0 <= i < |s| ensures AtMost(cmp, r.upper, r.upperInclusive, s[i].key) <==>
      Less(cmp, s[i].key, r.upper) || (s[i].key == r.upper && r.upperInclusive)
    {
      AtMostMeans(cmp, r.upper, r.upperInclusive, s[i].key);
    }
    if n < |s| {
      BeyondUpper(cmp, s[n..], r.upper, r.upperInclusive);
      forall i | n <= i < |s| ensures !Inside(cmp, r, s[i].key) {
        assert s[n..][i - n] == s[i];
      }
    }
    SelectPrefix(cmp, r, s, n);
  }

  /** The whole query: skip to the lower bound, then collect up to the upper one. */
  lemma Selected<K(!new), V>(cmp: (K, K) -> int, r: Interval<K>, a: seq<Entry<K, V>>, s: seq<Entry<K, V>>, rest: seq<Entry<K, V>>, n: nat)
    requires TotalOrder(cmp) && StartsAt(cmp, r.lower, a, s) && Sorted(cmp, a + s)
    requires rest == if Compare(cmp, s[0].key, r.lower) < (if r.lowerInclusive then 0 else 1) then s[1..] else s
    requires n <= |rest| && forall i :: 0 <= i < n ==> AtMost(cmp, r.upper, r.upperInclusive, rest[i].key)
    requires n < |rest| ==> !AtMost(cmp, r.upper, r.upperInclusive, rest[n].key)
    ensures rest[..n] == Select(cmp, r, a + s)
  {
    hide AtLeast, AtMost, TotalOrder, Inside, Select, Compare;
    LowerSplit(cmp, r, a, s);
    SortedSuffix(cmp, a + s, |a + s| - |rest|);
    assert (a + s)[|a + s| - |rest|..] == rest;
    UpperSplit(cmp, r, rest, n);
  }

  lemma SortedSuffix<K, V>(cmp: (K, K) -> int, s: seq<Entry<K, V>>, n: nat)
    requires Sorted(cmp, s) && n <= |s|
    ensures Sorted(cmp, s[n..])
  {
  }

  /** The place where the scan starts is a valid cursor position. */
  lemma SeekPoints<K(0, !new), V(0)>(cmp: (K, K) -> int, lower: K, shape: Tree<K, V>, c: Context<K, V>, s: Tree<K, V>,
      h: nat, b: nat, index: int, path: seq<Step<K, V>>)
    requires b > 1 && Seeking(cmp, lower, shape, c, s, h, b) && s.Tree? && 0 <= StartIndex(index) < |s.ents| && |s.kids| == |s.ents| + 1
    requires path != [] && CursorTrail(path[..|path| - 1], c) && path[|path| - 1] == Step(s.ref, StartIndex(index))
    ensures Points(On(c, s, h, StartIndex(index)), path, shape, b)
  {
  }

  /** Entering subtree `p` extends the stack by one entry. */
  lemma SeekTrail<K(0, !new), V(0)>(path: seq<Step<K, V>>, c: Context<K, V>, d: Context<K, V>)
    requires CursorTrail(path, c) && d.Hole? && d.up == c
    ensures CursorTrail(path + [Step(d.ref, |d.left| - 1)], d)
  {
    assert (path + [Step(d.ref, |d.left| - 1)])[..|path|] == path;
  }

  lemma {:induction false} SelectConcat<K, V>(cmp: (K, K) -> int, r: Interval<K>, a: seq<Entry<K, V>>, b: seq<Entry<K, V>>)
    ensures Select(cmp, r, a + b) == Select(cmp, r, a) + Select(cmp, r, b)
  {
    if a == [] {
      assert a + b == b;
    } else {
      assert (a + b)[1..] == a[1..] + b;
      SelectConcat(cmp, r, a[1..], b);
    }
  }
}
