/** The arithmetic of a redistribution: targets, prefix sums of the surplus, and what flows over each border. */
module Plans {
  import opened Basics

  ghost function Sum(c: seq<nat>): nat {
    if c == [] then 0 else Sum(c[..|c| - 1]) + c[|c| - 1]
  }

  /** What server `i` of `n` should hold out of `sum` records. */
  function Target(sum: nat, n: nat, i: nat): nat
    requires n > 0
  {
    sum / n + (if i < sum % n then 1 else 0)
  }

  /** The targets differ by at most one, greater ones first. */
  lemma TargetsLevel(sum: nat, n: nat, i: nat, j: nat)
    requires n > 0 && i <= j
    ensures Target(sum, n, j) <= Target(sum, n, i) <= Target(sum, n, j) + 1
  {
  }

  /** The targets add up to the number of records; with `TargetsLevel` that determines them. */
  lemma TargetsAdd(c: seq<nat>, targets: seq<nat>)
    requires c != [] && |targets| == |c| && forall i :: 0 <= i < |c| ==> targets[i] == Target(Sum(c), |c|, i)
    ensures Sum(targets) == Sum(c)
  {
    SurplusSum(c, targets, |c|);
    NothingLeft(c);
    assert targets[..|c|] == targets && c[..|c|] == c;
  }

  lemma {:induction false} SurplusSum(c: seq<nat>, targets: seq<nat>, k: nat)
    requires k <= |c| == |targets| && forall i :: 0 <= i < |c| ==> targets[i] == Target(Sum(c), |c|, i)
    ensures Surplus(c, k) == Sum(c[..k]) - Sum(targets[..k])
  {
    hide Target;
    if k > 0 {
      SurplusSum(c, targets, k - 1);
      assert c[..k][..k - 1] == c[..k - 1] && targets[..k][..k - 1] == targets[..k - 1];
    }
  }

  /** The surplus of the first `k` servers: how many records must leave them to the right. */
  ghost function Surplus(c: seq<nat>, k: nat): int
    requires k <= |c|
  {
    if k == 0 then 0 else Surplus(c, k - 1) + c[k - 1] - Target(Sum(c), |c|, k - 1)
  }

  /** The surplus at every border; the last one is the right end. */
  ghost function Borders(c: seq<nat>): (p: seq<int>)
    ensures |p| == |c|
    ensures forall i :: 0 <= i < |c| ==> p[i] == Surplus(c, i + 1)
  {
    seq(|c|, i requires 0 <= i < |c| => Surplus(c, i + 1))
  }

  lemma {:induction false} SurplusIs(c: seq<nat>, k: nat)
    requires k <= |c| && c != []
    ensures Surplus(c, k) == Sum(c[..k]) - (Sum(c) / |c|) * k - (if k < Sum(c) % |c| then k else Sum(c) % |c|)
  {
    if k > 0 {
      SurplusIs(c, k - 1);
      assert c[..k][..k - 1] == c[..k - 1];
      Distribute(k, Sum(c) / |c|);
    }
  }

  /** The targets add up to the whole, so nothing flows over the right end. */
  lemma NothingLeft(c: seq<nat>)
    requires c != []
    ensures Surplus(c, |c|) == 0
  {
    SurplusIs(c, |c|);
    assert c[..|c|] == c;
  }

  /** A server's own surplus. */
  ghost function Own(p: seq<int>, k: nat): int
    requires k < |p|
  {
    p[k] - (if k > 0 then p[k - 1] else 0)
  }

  /** A server's count, from the borders on both sides. */
  lemma CountIs(c: seq<nat>, i: nat)
    requires i < |c|
    ensures c[i] == Target(Sum(c), |c|, i) + Own(Borders(c), i)
  {
    hide Target, Sum, Borders;
    assert Borders(c)[i] == Surplus(c, i + 1);
    assert i > 0 ==> Borders(c)[i - 1] == Surplus(c, i);
  }

  /* ---- what the transfer loop does over each border ---- */

  /** At `i` a run of borders with a deficit on their left has just ended. */
  ghost predicate RunEnd(p: seq<int>, i: int) {
    0 < i < |p| && p[i] >= 0 && p[i - 1] < 0
  }

  /** The negative borders form at most one contiguous run. */
  ghost predicate SingleRun(p: seq<int>) {
    forall a, b, e :: 0 <= a < b < e < |p| && p[a] < 0 && p[b] >= 0 ==> p[e] >= 0
  }

  /** The flow over negative border `k` before step `i`: every end of a run replays it. */
  ghost function LeftFlow(p: seq<int>, k: nat, i: nat): int
    requires k < |p| && i <= |p|
  {
    if i <= k + 1 then 0 else LeftFlow(p, k, i - 1) + (if RunEnd(p, i - 1) then p[k] else 0)
  }

  /** The flow over border `k` before step `i`, to the right where positive. */
  ghost function Flow(p: seq<int>, k: nat, i: nat): int
    requires k < |p| && i <= |p|
  {
    if p[k] < 0 then LeftFlow(p, k, i) else if k < i then p[k] else 0
  }

  ghost function Flows(p: seq<int>, i: nat): (f: seq<int>)
    requires i <= |p|
    ensures |f| == |p| && forall k :: 0 <= k < |p| ==> f[k] == Flow(p, k, i)
  {
    seq(|p|, k requires 0 <= k < |p| => Flow(p, k, i))
  }

  /** What server `j` holds after the flows `f`. */
  ghost function Level(c: seq<nat>, f: seq<int>, j: nat): int
    requires |f| == |c| && j < |c|
  {
    c[j] + (if j > 0 then f[j - 1] else 0) - f[j]
  }

  ghost predicate Levelled(c: seq<nat>, f: seq<int>, held: seq<nat>) {
    |f| == |c| == |held| && forall j :: 0 <= j < |c| ==> held[j] == Level(c, f, j)
  }

  /** With a single run each negative border is crossed once, at the run's end. */
  lemma {:induction false} OnceInRun(p: seq<int>, k: nat, i: nat)
    requires SingleRun(p) && k < i <= |p| && p[k] < 0
    ensures LeftFlow(p, k, i) == if p[i - 1] >= 0 then p[k] else 0
    decreases i
  {
    if i > k + 1 {
      OnceInRun(p, k, i - 1);
      if p[i - 2] >= 0 {
        assert 0 <= k < i - 2 < i - 1 < |p|;
      }
    }
  }

  lemma {:induction false} LeftFlowDown(p: seq<int>, k: nat, i: nat, j: nat)
    requires k < |p| && i <= j <= |p| && p[k] < 0
    ensures LeftFlow(p, k, j) <= LeftFlow(p, k, i) <= 0
    decreases j
  {
    if i < j {
      LeftFlowDown(p, k, i, j - 1);
    } else if i > 0 {
      LeftFlowDown(p, k, i - 1, i - 1);
    }
  }

  /** Going from a negative border to one that is not means an end of a run, and one more crossing. */
  lemma {:induction false} CrossUp(p: seq<int>, k: nat, x: nat, y: nat)
    requires k <= x < y < |p| && p[k] < 0 && p[x] < 0 && p[y] >= 0
    ensures LeftFlow(p, k, y + 1) <= LeftFlow(p, k, x + 1) + p[k]
    decreases y
  {
    if p[y - 1] < 0 {
      assert RunEnd(p, y);
      LeftFlowDown(p, k, x + 1, y);
    } else {
      CrossUp(p, k, x, y - 1);
    }
  }

  /** With two runs the first server of the first run ends with more than its target. */
  lemma Overshoots(c: seq<nat>) returns (a: nat)
    requires c != [] && !SingleRun(Borders(c))
    ensures a < |c| && Level(c, Flows(Borders(c), |c|), a) > Target(Sum(c), |c|, a)
  {
    hide Target, Sum, Borders, Surplus, LeftFlow;
    var p := Borders(c);
    var x, y, z :| 0 <= x < y < z < |p| && p[x] < 0 && p[y] >= 0 && p[z] < 0;
    a := FirstNegative(p, x);
    NothingLeft(c);
    assert p[|c| - 1] == Surplus(c, |c|);
    CrossUp(p, a, a, y);
    LeftFlowDown(p, a, y + 1, z + 1);
    CrossUp(p, a, z, |p| - 1);
    LeftFlowDown(p, a, 0, a + 1);
    CountIs(c, a);
  }

  lemma {:induction false} FirstNegative(p: seq<int>, x: nat) returns (a: nat)
    requires x < |p| && p[x] < 0
    ensures a <= x && p[a] < 0 && forall i :: 0 <= i < a ==> p[i] >= 0
    decreases x
  {
    if i: nat :| i < x && p[i] < 0 {
      a := FirstNegative(p, i);
    } else {
      a := x;
    }
  }

  /** With at most one run exactly the surplus of each border flows over it. */
  lemma FlowMeets(p: seq<int>, k: nat)
    requires k < |p| && SingleRun(p) && p[|p| - 1] >= 0
    ensures Flow(p, k, |p|) == p[k]
  {
    hide LeftFlow, SingleRun;
    if p[k] < 0 {
      OnceInRun(p, k, |p|);
    }
  }

  /** So the flows are the surpluses. */
  lemma FlowsMeet(p: seq<int>)
    requires SingleRun(p) && p != [] && p[|p| - 1] >= 0
    ensures Flows(p, |p|) == p
  {
    hide SingleRun, Flow;
    forall k | 0 <= k < |p| ensures Flow(p, k, |p|) == p[k] { FlowMeets(p, k); }
  }

  lemma LastBorderZero(c: seq<nat>)
    requires c != []
    ensures Borders(c)[|c| - 1] == 0
  {
    NothingLeft(c);
  }

  /** With at most one run every server ends exactly at its target. */
  lemma Meets(c: seq<nat>, j: nat)
    requires j < |c| && SingleRun(Borders(c))
    ensures Level(c, Flows(Borders(c), |c|), j) == Target(Sum(c), |c|, j)
  {
    hide Target, Sum, Borders, Flows, SingleRun;
    LastBorderZero(c);
    CountIs(c, j);
    FlowsMeet(Borders(c));
  }

  /** The flow over border `k` changed by `x`: one neighbour gains what the other loses. */
  lemma LevelShift(c: seq<nat>, f: seq<int>, held: seq<nat>, held': seq<nat>, k: nat, x: int)
    requires Levelled(c, f, held) && k + 1 < |c| && |held'| == |c|
    requires held'[k] == held[k] - x && held'[k + 1] == held[k + 1] + x
    requires forall j :: 0 <= j < |c| && j != k && j != k + 1 ==> held'[j] == held[j]
    ensures Levelled(c, f[k := f[k] + x], held')
  {
  }

  /** What the transfer loop has made of the prefix sums before step `i`: those served are cleared. */
  ghost predicate Cleared(p: seq<int>, prefix: seq<int>, i: nat) {
    |prefix| == |p| && forall k :: 0 <= k < |p| ==> prefix[k] == if k < i && p[k] >= 0 then 0 else p[k]
  }

  /** The flows `f` plus those over the negative borders from `j` up to `i`. */
  ghost predicate Pulled(f: seq<int>, g: seq<int>, prefix: seq<int>, j: int, i: int) {
    |g| == |f| == |prefix| && forall k :: 0 <= k < |f| ==> g[k] == f[k] + (if j <= k < i then prefix[k] else 0)
  }

  /** Before server `j` is drawn on, it holds what border `j - 1` still needs. */
  ghost predicate Enough(c: seq<nat>, f: seq<int>, prefix: seq<int>, j: nat, i: nat)
    requires |c| == |f| == |prefix| && 0 < j <= i < |c|
  {
    -prefix[j - 1] <= Level(c, f, j) + (if j < i then -prefix[j] else 0)
  }

  lemma PulledLevel(c: seq<nat>, f: seq<int>, g: seq<int>, prefix: seq<int>, held: seq<nat>, j: nat, i: nat)
    requires Pulled(f, g, prefix, j, i) && Levelled(c, g, held) && 0 < j <= i < |c|
    ensures |c| == |f| == |prefix| && held[j] == Level(c, f, j) + (if j < i then -prefix[j] else 0)
  {
  }

  lemma PulledStep(f: seq<int>, g: seq<int>, prefix: seq<int>, j: nat, i: nat)
    requires Pulled(f, g, prefix, j, i) && 0 < j <= i < |f|
    ensures Pulled(f, g[j - 1 := g[j - 1] + prefix[j - 1]], prefix, j - 1, i)
  {
  }

  /** In a single run no server is asked for more than it holds. */
  lemma EnoughInRun(c: seq<nat>, prefix: seq<int>, j: nat, i: nat)
    requires SingleRun(Borders(c)) && RunEnd(Borders(c), i) && Cleared(Borders(c), prefix, i) && 0 < j <= i < |c|
    ensures Enough(c, Flows(Borders(c), i), prefix, j, i)
  {
    hide Target, Sum, Borders, Surplus, LeftFlow;
    var p := Borders(c);
    CountIs(c, j);
    if p[j - 1] < 0 {
      OnceInRun(p, j - 1, i);
      if j < i {
        assert p[i - 1] < 0;
        if p[j] < 0 {
          OnceInRun(p, j, i);
        }
      }
    } else {
      FlowStart(p, j - 1, i);
      if p[j] < 0 && j < i {
        LeftFlowDown(p, j, 0, i);
      }
      LevelFloor(c, j, i);
    }
  }

  lemma FlowStart(p: seq<int>, k: nat, i: nat)
    requires k < i <= |p| && p[k] >= 0
    ensures Flow(p, k, i) == p[k]
  {
  }

  /** A server holds at least nothing, once what its right neighbour has not taken is counted. */
  lemma LevelFloor(c: seq<nat>, j: nat, i: nat)
    requires 0 < j <= i < |c| && RunEnd(Borders(c), i) && SingleRun(Borders(c)) && Borders(c)[j - 1] >= 0
    ensures 0 <= Level(c, Flows(Borders(c), i), j) + (if j < i && Borders(c)[j] < 0 then -Borders(c)[j] else 0)
  {
    hide Target, Sum, Borders, Surplus, LeftFlow;
    var p := Borders(c);
    CountIs(c, j);
    if p[j] < 0 {
      OnceInRun(p, j, i);
    }
  }

  /** The flows after step `i`. */
  lemma FlowsStep(p: seq<int>, prefix: seq<int>, g: seq<int>, i: nat)
    requires i < |p| && Cleared(p, prefix, i)
    requires if RunEnd(p, i) then Pulled(Flows(p, i), g, prefix, 0, i) else g == Flows(p, i)
    ensures |g| == |p| && g[i] == 0
    ensures p[i] < 0 ==> Flows(p, i + 1) == g
    ensures p[i] >= 0 ==> Flows(p, i + 1) == g[i := p[i]]
  {
    hide LeftFlow;
    forall k | 0 <= k < |p| ensures Flow(p, k, i + 1) == if k == i && p[i] >= 0 then p[i] else g[k] {
      if p[k] < 0 {
        LeftFlowStep(p, k, i);
      }
    }
    LeftFlowStep(p, i, i);
  }

  lemma LeftFlowStep(p: seq<int>, k: nat, i: nat)
    requires k < |p| && i < |p|
    ensures LeftFlow(p, k, i + 1) == if i <= k then 0 else LeftFlow(p, k, i) + (if RunEnd(p, i) then p[k] else 0)
    ensures i <= k + 1 ==> LeftFlow(p, k, i) == 0
  {
  }

  /** What server `i` holds at its step, before and after the borders on its left are served. */
  lemma LevelAtStep(c: seq<nat>, prefix: seq<int>, g: seq<int>, i: nat)
    requires i < |c| && Borders(c)[i] >= 0 && Cleared(Borders(c), prefix, i)
    requires if RunEnd(Borders(c), i) then Pulled(Flows(Borders(c), i), g, prefix, 0, i) else g == Flows(Borders(c), i)
    ensures |g| == |c| && Level(c, g, i) == Target(Sum(c), |c|, i) + Borders(c)[i]
    ensures RunEnd(Borders(c), i) ==>
      Level(c, Flows(Borders(c), i), i) == Target(Sum(c), |c|, i) + Borders(c)[i] - Borders(c)[i - 1]
  {
    hide Target, Sum, Borders, Surplus, LeftFlow;
    var p := Borders(c);
    CountIs(c, i);
    LeftFlowStep(p, i, i);
    if i > 0 {
      LeftFlowStep(p, i - 1, i);
    }
  }

  lemma TargetPositive(sum: nat, n: nat, i: nat)
    requires 0 < n <= sum
    ensures Target(sum, n, i) >= 1
  {
    QuotientPositive(sum, n);
  }

  /** What the transfer loop has made of the differences before step `i`: the surplus from the left has arrived. */
  ghost predicate Arrived(p: seq<int>, differ: seq<int>, i: nat) {
    |differ| == |p| && forall k :: i <= k < |p| ==> differ[k] == if k == i && k > 0 && p[k - 1] >= 0 then p[k] else Own(p, k)
  }

  lemma ArrivedFirst(c: seq<nat>, differ: seq<int>)
    requires |differ| == |c| && forall i :: 0 <= i < |c| ==> differ[i] == Surplus(c, i + 1) - Surplus(c, i)
    ensures Arrived(Borders(c), differ, 0)
  {
    hide Sum, Target;
    var p := Borders(c);
    forall k | 0 <= k < |p| ensures differ[k] == Own(p, k) {
      assert p[k] == Surplus(c, k + 1) && (k > 0 ==> p[k - 1] == Surplus(c, k));
      assert Surplus(c, 0) == 0;
    }
  }

  lemma ArrivedStep(p: seq<int>, differ: seq<int>, differ': seq<int>, i: nat)
    requires Arrived(p, differ, i) && i < |p| && |differ'| == |p|
    requires forall k :: i + 1 < k < |p| ==> differ'[k] == differ[k]
    requires i + 1 < |p| ==> differ'[i + 1] == differ[i + 1] + (if p[i] > 0 then p[i] else 0)
    ensures Arrived(p, differ', i + 1)
  {
  }

  lemma ClearedStep(p: seq<int>, prefix: seq<int>, i: nat)
    requires Cleared(p, prefix, i) && i < |p|
    ensures Cleared(p, if p[i] >= 0 then prefix[i := 0] else prefix, i + 1)
  {
  }

  lemma ClearedAt(p: seq<int>, prefix: seq<int>, i: nat)
    requires Cleared(p, prefix, i) && i < |p|
    ensures |prefix| == |p| && prefix[i] == p[i] && forall k :: 0 <= k < i ==> prefix[k] <= 0
    ensures i > 0 ==> (prefix[i - 1] < 0 <==> p[i - 1] < 0) && (p[i - 1] < 0 ==> prefix[i - 1] == p[i - 1])
  {
  }

  lemma FlowsFirst(c: seq<nat>)
    requires c != []
    ensures Levelled(c, Flows(Borders(c), 0), c)
  {
  }

  /** Some border needs a flow to the left. */
  ghost predicate Deficit(p: seq<int>, i: nat) {
    exists k :: 0 <= k < i && k < |p| && p[k] < 0
  }

  lemma DeficitStep(p: seq<int>, i: nat)
    requires i < |p|
    ensures Deficit(p, i + 1) <==> Deficit(p, i) || p[i] < 0
    ensures !Deficit(p, 0)
    ensures p[i] >= 0 && !RunEnd(p, i) && i > 0 ==> p[i - 1] >= 0
    ensures RunEnd(p, i) ==> Deficit(p, i)
  {
  }

  /** Two runs: of the counts 0, 2, 0, 2 the first server ends with two records instead of one. */
  lemma TwoRuns() returns (c: seq<nat>)
    ensures c == [0, 2, 0, 2] && Borders(c) == [-1, 0, -1, 0] && !SingleRun(Borders(c))
    ensures Target(Sum(c), |c|, 0) == 1 && Level(c, Flows(Borders(c), |c|), 0) == 2
  {
    c := [0, 2, 0, 2];
    assert c[..3] == [0, 2, 0] && [0, 2, 0][..2] == [0, 2] && [0, 2][..1] == [0] && [0][..0] == [];
    assert Sum([0]) == 0 && Sum([0, 2]) == 2;
    assert Sum([0, 2, 0]) == 2;
    assert Sum(c) == 4;
    assert Surplus(c, 1) == -1 && Surplus(c, 2) == 0 && Surplus(c, 3) == -1 && Surplus(c, 4) == 0;
    var p := Borders(c);
    assert p == [-1, 0, -1, 0];
    assert p[0] < 0 && p[1] >= 0 && p[2] < 0;
    assert LeftFlow(p, 0, 1) == 0 && LeftFlow(p, 0, 2) == -1 && LeftFlow(p, 0, 3) == -1 && LeftFlow(p, 0, 4) == -2;
  }
}
