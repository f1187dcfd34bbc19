/** The manager of a sharded collection: routing, transfers between neighbours, redistribution. */
module Clusters {
  import opened Basics
  import opened Entries
  import opened Ranges
  import opened Shards
  import opened Plans

  /** A key sits at position `p`. */
  lemma KeyAt<K(!new), V>(cmp: (K, K) -> int, s: seq<Entry<K, V>>, p: nat, q: nat)
    requires TotalOrder(cmp) && Sorted(cmp, s) && p < |s| && q < |s| && s[p].key == s[q].key
    ensures p == q
  {
    SortedDistinct(cmp, s);
  }

  class Cluster<K(!new, ==), V> {
    const cmp: (K, K) -> int
    var servers: seq<seq<Entry<K, V>>>
    var separators: seq<K>

    ghost predicate Valid()
      reads this
    {
      && TotalOrder(cmp) && |servers| == |separators| + 1
      && AllSorted(cmp, servers) && OneHome(servers)
    }

    /** Every key is where its route leads, and the separators ascend. */
    ghost predicate Orderly()
      reads this
    {
      Routed(cmp, servers, separators) && Ascending(cmp, separators)
    }

    /** One server and nothing stored. */
    constructor (cmp: (K, K) -> int)
      requires TotalOrder(cmp)
      ensures Valid() && Orderly() && servers == [[]] && separators == [] && this.cmp == cmp
    {
      this.cmp, servers, separators := cmp, [[]], [];
    }

    /** The server a key belongs to. */
    method GetIdForKey(key: K) returns (id: nat)
      ensures id == Route(cmp, separators, key)
    {
      id := 0;
      var i := 0;
      while i < |separators| && Compare(cmp, key, separators[i]) >= 0
        invariant id == i <= |separators| && forall j :: 0 <= j < i ==> !Less(cmp, key, separators[j])
      {
        id := id + 1;
        i := i + 1;
      }
      RouteIs(cmp, separators, key, id);
    }

    /** A storage server adds a record unless it has the key. */
    method Add(id: nat, e: Entry<K, V>) returns (ok: bool)
      requires id < |servers|
      modifies `servers
      ensures ok <==> !HasKey(old(servers)[id], e.key)
      ensures servers == if ok then old(servers)[id := Put(cmp, old(servers)[id], e)] else old(servers)
    {
      ok := !(exists i :: 0 <= i < |servers[id]| && servers[id][i].key == e.key);
      if ok {
        servers := servers[id := Put(cmp, servers[id], e)];
      }
    }

    /** A storage server removes a key, if it has it. */
    method Discard(id: nat, key: K) returns (ok: bool, ghost p: nat)
      requires id < |servers|
      modifies `servers
      ensures ok <==> HasKey(old(servers)[id], key)
      ensures ok ==> p < |old(servers)[id]| && old(servers)[id][p].key == key
      ensures servers == if ok then old(servers)[id := RemoveAt(old(servers)[id], p)] else old(servers)
    {
      var i := Find(id, key);
      p := i;
      ok := i < |servers[id]|;
      if ok {
        servers := servers[id := RemoveAt(servers[id], i)];
      }
    }

    /** A storage server's answer for a key: the position of its record, or one past the end. */
    method Find(id: nat, key: K) returns (p: nat)
      requires id < |servers|
      ensures p <= |servers[id]| && (p < |servers[id]| ==> servers[id][p].key == key)
      ensures p == |servers[id]| <==> !HasKey(servers[id], key)
    {
      p := 0;
      while p < |servers[id]| && servers[id][p].key != key
        invariant p <= |servers[id]| && forall j :: 0 <= j < p ==> servers[id][j].key != key
      {
        p := p + 1;
      }
    }

    /** A request for a key goes to the server its route names: the key is found there if it is stored anywhere. */
    method Obtain(key: K) returns (r: Option<Entry<K, V>>)
      requires Valid()
      ensures r.Some? ==> r.value.key == key && r.value in Records(servers)
      ensures Routed(cmp, servers, separators) ==> (r.Some? <==> exists i :: Stored(servers, key, i))
    {
      hide Sorted, TotalOrder, AllSorted, OneHome, Routed, Records, HasKey;
      var id := GetIdForKey(key);
      var p := Find(id, key);
      if Routed(cmp, servers, separators) {
        RoutedLookup(cmp, servers, separators, key);
      }
      if p == |servers[id]| {
        return None;
      }
      Recorded(servers, id, p);
      r := Some(servers[id][p]);
    }

    /** A storage server's answer for the record after a key; the greatest key is its own successor. */
    method ObtainNext(id: nat, key: K) returns (r: Option<Entry<K, V>>, ghost i: nat)
      requires id < |servers|
      ensures r == None <==> !HasKey(servers[id], key)
      ensures r.Some? ==> i < |servers[id]| && servers[id][i].key == key
      ensures r.Some? ==> r.value == servers[id][if i + 1 < |servers[id]| then i + 1 else i]
    {
      var k := Find(id, key);
      i := k;
      if k == |servers[id]| {
        return None, i;
      }
      r := Some(servers[id][if k + 1 < |servers[id]| then k + 1 else k]);
    }

    /** Adds record `p` of server `a` to server `b` and drops it from `a`. */
    method Move(a: nat, e: Entry<K, V>, b: nat, ghost p: nat) returns (ok: bool)
      requires Valid() && a < |servers| && b < |servers| && a != b && p < |servers[a]| && e == servers[a][p]
      modifies `servers
      ensures ok && servers == Moved(cmp, old(servers), a, p, b) && Valid() && Records(servers) == Records(old(servers))
      ensures |servers[a]| == |old(servers)[a]| - 1 && |servers[b]| == |old(servers)[b]| + 1
    {
      hide Sorted, TotalOrder, AllSorted, OneHome, Put, RemoveAt, Records, Moved;
      MovedKeeps(cmp, servers, a, p, b);
      ghost var was := servers;
      ok := Add(b, e);
      if !ok {
        return;
      }
      Has(was[a], p);
      var gone;
      ghost var q;
      gone, q := Discard(a, e.key);
      SortedAt(cmp, was, a);
      KeyAt(cmp, was[a], p, q);
      MovedIs(cmp, was, a, p, b);
    }

    /**
     * Takes the least record's successor, or the least record itself when it is the only one,
     * to the left neighbour, and makes its key the separator.
     */
    method TransferLeft(id: nat) returns (res: int)
      requires Valid() && 0 < id < |servers|
      modifies this
      ensures Valid() && Records(servers) == Records(old(servers))
      ensures res == 0 <==> old(servers)[id] != []
      ensures res != 0 ==> res == -1 && servers == old(servers) && separators == old(separators)
      ensures res == 0 ==>
        var p := if |old(servers)[id]| > 1 then 1 else 0;
        servers == Moved(cmp, old(servers), id, p, id - 1) && separators == old(separators)[id - 1 := old(servers)[id][p].key]
      ensures res == 0 ==> |servers[id]| == |old(servers)[id]| - 1 && |servers[id - 1]| == |old(servers)[id - 1]| + 1
      ensures old(Routed(cmp, servers, separators)) ==> (Routed(cmp, servers, separators) <==> res != 0)
    {
      hide Sorted, TotalOrder, AllSorted, OneHome, Put, RemoveAt, Records, Moved, Routed;
      var least := if servers[id] == [] then None else Some(servers[id][0]);
      if least.None? {
        return -1;
      }
      Has(servers[id], 0);
      ghost var i;
      var record;
      record, i := ObtainNext(id, least.value.key);
      if record.None? {
        return -1;
      }
      SortedAt(cmp, servers, id);
      KeyAt(cmp, servers[id], 0, i);
      var newSeparator := record.value.key;
      if Routed(cmp, servers, separators) {
        LeftUnrouted(cmp, servers, separators, id, if |servers[id]| > 1 then 1 else 0);
      }
      var ok := Move(id, record.value, id - 1, if |servers[id]| > 1 then 1 else 0);
      if !ok {
        return -1;
      }
      separators := separators[id - 1 := newSeparator];
      return 0;
    }

    /** Takes the greatest record to the right neighbour and makes its key the separator. */
    method TransferRight(id: nat) returns (res: int)
      requires Valid() && id + 1 < |servers|
      modifies this
      ensures Valid() && Records(servers) == Records(old(servers))
      ensures res == 0 <==> old(servers)[id] != []
      ensures res != 0 ==> res == -1 && servers == old(servers) && separators == old(separators)
      ensures res == 0 ==>
        var p := |old(servers)[id]| - 1;
        servers == Moved(cmp, old(servers), id, p, id + 1) && separators == old(separators)[id := old(servers)[id][p].key]
      ensures res == 0 ==> |servers[id]| == |old(servers)[id]| - 1 && |servers[id + 1]| == |old(servers)[id + 1]| + 1
      ensures old(Orderly()) ==> Orderly()
    {
      hide Sorted, TotalOrder, AllSorted, OneHome, Put, RemoveAt, Records, Moved, Routed, Ascending;
      var record := if servers[id] == [] then None else Some(servers[id][|servers[id]| - 1]);
      if record.None? {
        return -1;
      }
      var newSeparator := record.value.key;
      if Routed(cmp, servers, separators) && Ascending(cmp, separators) {
        RightRouted(cmp, servers, separators, id);
      }
      var ok := Move(id, record.value, id + 1, |servers[id]| - 1);
      if !ok {
        return -1;
      }
      separators := separators[id := newSeparator];
      return 0;
    }

    /** Repeats the transfer to the left; stops when the server runs empty. */
    method TransferLeftN(id: nat, n: nat) returns (res: int)
      requires Valid() && 0 < id < |servers|
      modifies this
      ensures Valid() && Records(servers) == Records(old(servers)) && |servers| == |old(servers)|
      ensures res == 0 <==> n <= |old(servers)[id]|
      ensures Shifted(old(servers), servers, id, id - 1, if n <= |old(servers)[id]| then n else |old(servers)[id]|)
      ensures OthersKept(old(separators), separators, id - 1)
      ensures var s, m := old(servers)[id], if n <= |old(servers)[id]| then n else |old(servers)[id]|;
        && servers[id] == (if m == |s| then [] else if m == 0 then s else [s[0]] + s[m + 1..])
        && (0 < m < |s| ==> separators[id - 1] == s[m].key) && (0 < m == |s| ==> separators[id - 1] == s[0].key)
      ensures 0 < n < |old(servers)[id]| ==> Stranded(cmp, servers, separators, id)
      ensures n == 0 || old(servers)[id] == [] ==> servers == old(servers) && separators == old(separators)
      ensures old(Routed(cmp, servers, separators)) ==>
        (Routed(cmp, servers, separators) <==> n == 0 || old(servers)[id] == [])
    {
      hide Sorted, TotalOrder, AllSorted, OneHome, Records, Moved, Stranded, Routed, Misplaced, StoredWithin, RemoveAt, LeftBehind;
      LeftBehindStart(servers[id]);
      WithinItself(servers, id);
      var i := 0;
      while i < n
        invariant i <= n && Valid() && Records(servers) == Records(old(servers)) && i <= |old(servers)[id]|
        invariant Shifted(old(servers), servers, id, id - 1, i) && OthersKept(old(separators), separators, id - 1)
        invariant LeftBehind(old(servers)[id], i, servers[id]) && (0 < i ==> separators[id - 1] == LeftKey(old(servers)[id], i))
        invariant i > 0 && servers[id] != [] ==> Stranded(cmp, servers, separators, id)
        invariant i == 0 ==> servers == old(servers) && separators == old(separators)
        invariant StoredWithin(old(servers), servers, id)
        invariant 0 < i && old(Routed(cmp, servers, separators)) ==> Misplaced(cmp, servers, separators, id - 1)
      {
        ghost var was := servers;
        res := TransferLeft(id);
        if res != 0 {
          LeftBehindEnd(old(servers)[id], i, servers[id]);
          if 0 < i && old(Routed(cmp, servers, separators)) {
            MisplacedUnrouted(cmp, servers, separators, id - 1);
          }
          return;
        }
        LeftWithin(cmp, old(servers), was, id, if |was[id]| > 1 then 1 else 0);
        if old(Routed(cmp, servers, separators)) {
          LeftMisplaced(cmp, old(servers), old(separators), was, separators, id, if |was[id]| > 1 then 1 else 0);
        }
        MovedIs(cmp, was, id, if |was[id]| > 1 then 1 else 0, id - 1);
        LeftBehindStep(old(servers)[id], i, was[id]);
        MovedSides(cmp, was, id, if |was[id]| > 1 then 1 else 0, id - 1);
        if |was[id]| > 1 {
          LeftStrands(cmp, was, separators, id);
        }
        i := i + 1;
      }
      LeftBehindEnd(old(servers)[id], i, servers[id]);
      if 0 < i && old(Routed(cmp, servers, separators)) {
        MisplacedUnrouted(cmp, servers, separators, id - 1);
      }
      return 0;
    }

    /** Repeats the transfer to the right; stops when the server runs empty. */
    method TransferRightN(id: nat, n: nat) returns (res: int)
      requires Valid() && id + 1 < |servers|
      modifies this
      ensures Valid() && Records(servers) == Records(old(servers)) && |servers| == |old(servers)|
      ensures res == 0 <==> n <= |old(servers)[id]|
      ensures res == 0 ==> Shifted(old(servers), servers, id, id + 1, n) && OthersKept(old(separators), separators, id)
      ensures var s, m := old(servers)[id], if n <= |old(servers)[id]| then n else |old(servers)[id]|;
        servers[id] == s[..|s| - m] && (0 < m ==> separators[id] == s[|s| - m].key)
      ensures res == 0 && n < |old(servers)[id]| ==> servers[id] != [] && servers[id][0] == old(servers)[id][0]
      ensures old(Orderly()) ==> Orderly()
    {
      hide Sorted, TotalOrder, AllSorted, OneHome, Records, Moved, Routed, Ascending, RemoveAt;
      var i := 0;
      while i < n
        invariant i <= n && Valid() && Records(servers) == Records(old(servers)) && i <= |old(servers)[id]|
        invariant Shifted(old(servers), servers, id, id + 1, i) && OthersKept(old(separators), separators, id)
        invariant servers[id] == old(servers)[id][..|old(servers)[id]| - i]
        invariant 0 < i ==> separators[id] == old(servers)[id][|old(servers)[id]| - i].key
        invariant i < |old(servers)[id]| ==> servers[id] != [] && servers[id][0] == old(servers)[id][0]
        invariant old(Orderly()) ==> Orderly()
      {
        ghost var was := servers;
        res := TransferRight(id);
        if res != 0 {
          return;
        }
        MovedIs(cmp, was, id, |was[id]| - 1, id + 1);
        RemoveLast(was[id]);
        MovedSides(cmp, was, id, |was[id]| - 1, id + 1);
        i := i + 1;
      }
      return 0;
    }

    /** How many records each server holds. */
    ghost function Held(): seq<nat>
      reads this
    {
      Counts(servers)
    }

    /** Serves one border from the right: `n` records cross it to the left. */
    method PullOne(j: nat, n: int, ghost c: seq<nat>, ghost g: seq<int>) returns (res: int)
      requires Valid() && 0 < j < |servers| && n >= 0 && Levelled(c, g, Held())
      modifies this
      ensures Valid() && Records(servers) == Records(old(servers)) && |servers| == |old(servers)|
      ensures res == 0 <==> n <= |old(servers)[j]|
      ensures res == 0 ==> j <= |g| && Levelled(c, g[j - 1 := g[j - 1] - n], Held())
      ensures 0 < n < |old(servers)[j]| ==> Stranded(cmp, servers, separators, j)
      ensures forall i :: i > j && old(Stranded(cmp, servers, separators, i)) ==> Stranded(cmp, servers, separators, i)
    {
      hide Sorted, TotalOrder, AllSorted, OneHome, Records, Stranded, Levelled, Routed;
      ghost var was, seps := servers, separators;
      res := TransferLeftN(j, n);
      StrandedWithin(cmp, was, seps);
      forall i | i > j && Stranded(cmp, was, seps, i) ensures Stranded(cmp, servers, separators, i) {
        StillStranded(cmp, was, seps, servers, separators, i);
      }
      if res == 0 {
        ShiftedLevel(c, g, was, servers, j - 1, -n);
      }
    }

    /** Serves the borders on the left of `i`, from the nearest to the farthest. */
    method PullLeft(i: nat, prefix: seq<int>, ghost c: seq<nat>, ghost f: seq<int>) returns (res: int, ghost g: seq<int>)
      requires Valid() && 0 < i < |servers| == |prefix| && (forall k :: 0 <= k < i ==> prefix[k] <= 0) && prefix[i - 1] < 0
      requires Levelled(c, f, Held())
      modifies this
      ensures Valid() && Records(servers) == Records(old(servers)) && |servers| == |old(servers)|
      ensures res == 0 ==> Levelled(c, g, Held()) && Pulled(f, g, prefix, 0, i)
      ensures res != 0 ==> exists j :: 0 < j <= i && !Enough(c, f, prefix, j, i)
      ensures -prefix[i - 1] < |old(servers)[i]| ==> Stranded(cmp, servers, separators, i)
    {
      hide Sorted, TotalOrder, AllSorted, OneHome, Records, Stranded, Levelled, Pulled, Enough, Routed;
      g := f;
      Sizes(c, f, servers);
      PulledNone(f, prefix, i);
      var j := i;
      while j > 0
        invariant 0 <= j <= i && Valid() && Records(servers) == Records(old(servers)) && |servers| == |old(servers)|
        invariant |c| == |f| == |prefix| == |servers| && Levelled(c, g, Held()) && Pulled(f, g, prefix, j, i)
        invariant j == i ==> servers == old(servers)
        invariant j < i && -prefix[i - 1] < |old(servers)[i]| ==> Stranded(cmp, servers, separators, i)
      {
        PulledLevel(c, f, g, prefix, Held(), j, i);
        assert Enough(c, f, prefix, j, i) <==> -prefix[j - 1] <= |servers[j]| by { EnoughIs(c, f, prefix, j, i); }
        res := PullOne(j, -prefix[j - 1], c, g);
        if res != 0 {
          return;
        }
        PulledStep(f, g, prefix, j, i);
        g := g[j - 1 := g[j - 1] + prefix[j - 1]];
        j := j - 1;
      }
      return 0, g;
    }

    /** The surplus of each server and its prefix sums. */
    method Differences(cnts: seq<nat>, sum: nat) returns (differ: seq<int>, prefix: seq<int>)
      requires cnts != [] && sum == Sum(cnts)
      ensures prefix == Plans.Borders(cnts) && |differ| == |cnts|
      ensures forall i :: 0 <= i < |cnts| ==> differ[i] == Surplus(cnts, i + 1) - Surplus(cnts, i)
    {
      hide Sum, Target;
      differ, prefix := [], [];
      var i := 0;
      while i < |cnts|
        invariant 0 <= i <= |cnts| && |differ| == |prefix| == i
        invariant forall k :: 0 <= k < i ==> prefix[k] == Surplus(cnts, k + 1)
        invariant forall k :: 0 <= k < i ==> differ[k] == Surplus(cnts, k + 1) - Surplus(cnts, k)
      {
        var before := if i > 0 then prefix[i - 1] else 0;
        differ := differ + [cnts[i] - Target(sum, |cnts|, i)];
        prefix := prefix + [before + differ[i]];
        assert Surplus(cnts, i + 1) == Surplus(cnts, i) + differ[i];
        i := i + 1;
      }
      assert prefix == Plans.Borders(cnts);
    }

    /** Serves the border on the right of `i`, and before it those of a run that ends at `i`. */
    method Serve(i: nat, surplus: int, prefix: seq<int>, ghost c: seq<nat>) returns (res: int, moved: int)
      requires Valid() && i < |servers| == |c| <= Sum(c) && Cleared(Plans.Borders(c), prefix, i) && Plans.Borders(c)[i] >= 0
      requires Levelled(c, Flows(Plans.Borders(c), i), Held())
      requires surplus == Plans.Borders(c)[i] - (if RunEnd(Plans.Borders(c), i) then Plans.Borders(c)[i - 1] else 0)
      modifies this
      ensures Valid() && Records(servers) == Records(old(servers)) && |servers| == |old(servers)|
      ensures SingleRun(Plans.Borders(c)) ==> res == 0
      ensures res == 0 ==> moved == Plans.Borders(c)[i] && Levelled(c, Flows(Plans.Borders(c), i + 1), Held())
      ensures !RunEnd(Plans.Borders(c), i) && old(Orderly()) ==> Orderly()
      ensures RunEnd(Plans.Borders(c), i) ==> Stranded(cmp, servers, separators, i)
      ensures res != 0 ==> RunEnd(Plans.Borders(c), i)
      ensures res == 0 && !RunEnd(Plans.Borders(c), i) ==>
        forall e :: e < i && old(Stranded(cmp, servers, separators, e)) ==> Stranded(cmp, servers, separators, e)
    {
      hide Sorted, TotalOrder, AllSorted, OneHome, Records, Stranded, Levelled, Pulled, Enough, Routed, Ascending,
        Sum, Target, Surplus, Flows, Plans.Borders, Cleared, SingleRun;
      ghost var p := Plans.Borders(c);
      ghost var g := Flows(p, i);
      ClearedAt(p, prefix, i);
      TargetPositive(Sum(c), |c|, i);
      moved := surplus;
      if i > 0 && prefix[i - 1] < 0 {
        LevelAtStep(c, prefix, PulledAll(g, prefix, i), i);
        HeldIs(c, g, servers, i);
        if SingleRun(p) {
          forall j | 0 < j <= i ensures Enough(c, g, prefix, j, i) { EnoughInRun(c, prefix, j, i); }
        }
        res, g := PullLeft(i, prefix, c, g);
        if res != 0 {
          return;
        }
        moved := moved + prefix[i - 1];
      }
      LevelAtStep(c, prefix, g, i);
      HeldIs(c, g, servers, i);
      FlowsStep(p, prefix, g, i);
      NothingLeft(c);
      if i + 1 < |servers| && moved > 0 {
        ghost var was, seps := servers, separators;
        res := TransferRightN(i, moved);
        ShiftedLevel(c, g, was, servers, i, moved);
        forall e | e <= i && Stranded(cmp, was, seps, e) ensures Stranded(cmp, servers, separators, e) {
          StillAfterRight(cmp, was, seps, servers, separators, e, i);
        }
      } else {
        assert p[i] == Surplus(c, i + 1) && g[i := p[i]] == g;
      }
      res := 0;
    }

    /** Serves all borders from left to right. */
    method ServeAll(differ0: seq<int>, prefix0: seq<int>, ghost c: seq<nat>) returns (res: int)
      requires Valid() && c == Held() && |c| <= Sum(c) && prefix0 == Plans.Borders(c) && |differ0| == |c| && Arrived(prefix0, differ0, 0)
      modifies this
      ensures Valid() && Records(servers) == Records(old(servers)) && |servers| == |old(servers)|
      ensures SingleRun(Plans.Borders(c)) ==> res == 0
      ensures res == 0 ==> Levelled(c, Flows(Plans.Borders(c), |c|), Held())
      ensures old(Orderly()) && !Deficit(Plans.Borders(c), |c|) ==> Orderly()
      ensures Deficit(Plans.Borders(c), |c|) ==> !Routed(cmp, servers, separators)
    {
      hide Sorted, TotalOrder, AllSorted, OneHome, Records, Stranded, Levelled, Routed, Ascending, Sum, Target,
        Surplus, Flows, Plans.Borders, Cleared, Arrived, SingleRun, Deficit;
      var differ, prefix := differ0, prefix0;
      ghost var p, e := prefix0, 0;
      FlowsFirst(c);
      NotCleared(p);
      var i := 0;
      NoDeficit(p);
      while i < |servers|
        invariant i <= |servers| == |c| && Valid() && Records(servers) == Records(old(servers)) && |differ| == |p| == |c|
        invariant Cleared(p, prefix, i) && Arrived(p, differ, i) && Levelled(c, Flows(p, i), Held())
        invariant old(Orderly()) && !Deficit(p, i) ==> Orderly()
        invariant 0 < e ==> e < i && Stranded(cmp, servers, separators, e)
        invariant 0 < i && p[i - 1] >= 0 && Deficit(p, i) ==> 0 < e
        invariant i == |c| ==> p[i - 1] == 0
      {
        ClearedAt(p, prefix, i);
        ClearedStep(p, prefix, i);
        DeficitStep(p, i);
        LastBorder(c, i);
        ghost var was := differ;
        if prefix[i] >= 0 {
          ArrivedAt(p, differ, i);
          var moved;
          res, moved := Serve(i, differ[i], prefix, c);
          if res != 0 {
            StrandedUnrouted(cmp, servers, separators, i);
            return;
          }
          differ := differ[i := moved];
          if i + 1 < |servers| && moved > 0 {
            differ := differ[i + 1 := differ[i + 1] + moved];
          }
          prefix := prefix[i := 0];
          if RunEnd(p, i) {
            e := i;
          }
        } else {
          FlowsIdle(p, prefix, i);
        }
        ArrivedStep(p, was, differ, i);
        i := i + 1;
      }
      if Deficit(p, |c|) {
        StrandedUnrouted(cmp, servers, separators, e);
      }
      return 0;
    }

    /**
     * Evens out the servers' record counts when some server is empty or more than a factor off.
     * Whatever happens, no record is lost. It succeeds and meets the targets exactly when the
     * negative borders form at most one run. Whether it succeeds or not, a routed cluster stays
     * routed exactly when no border is negative.
     */
    method Redistribute() returns (res: int)
      requires Valid()
      modifies this
      ensures Valid() && Records(servers) == Records(old(servers)) && |servers| == |old(servers)|
      ensures Sum(old(Held())) < |old(servers)| || !Uneven(old(Held())) ==>
        res == 0 && servers == old(servers) && separators == old(separators)
      ensures var c := old(Held());
        Sum(c) >= |c| ==> (Uneven(c) <==>
          exists i :: 0 <= i < |c| && (c[i] == 0 || Target(Sum(c), |c|, i) >= 3 * c[i] || c[i] >= 3 * Target(Sum(c), |c|, i)))
      ensures Sum(old(Held())) >= |old(servers)| && Uneven(old(Held())) ==>
        (res == 0 && Even(old(Held()), Held()) <==> SingleRun(Plans.Borders(old(Held()))))
      ensures Sum(old(Held())) >= |old(servers)| && Uneven(old(Held())) && old(Orderly()) ==>
        && (Routed(cmp, servers, separators) <==> !Deficit(Plans.Borders(old(Held())), |old(servers)|))
        && (Routed(cmp, servers, separators) ==> Ascending(cmp, separators))
    {
      hide Sorted, TotalOrder, AllSorted, OneHome, Records, Levelled, Routed, Ascending, Sum, Target, Surplus,
        Flows, Plans.Borders, SingleRun, Deficit;
      ghost var c := Held();
      var cnts, sum := CountRecords();
      if sum < |servers| {
        return 0;
      }
      UnevenMeans(c);
      var needed := NeedsRedistribution(cnts, sum);
      if !needed {
        return 0;
      }
      var differ, prefix := Differences(cnts, sum);
      ArrivedFirst(c, differ);
      res := ServeAll(differ, prefix, c);
      EvenIff(c, Held(), res);
    }

    /** Asks every server for its number of records. */
    method CountRecords() returns (cnts: seq<nat>, sum: nat)
      ensures cnts == Held() && sum == Sum(cnts)
    {
      cnts, sum := [], 0;
      var i := 0;
      while i < |servers|
        invariant 0 <= i <= |servers| && cnts == Held()[..i] && sum == Sum(cnts)
      {
        cnts := cnts + [|servers[i]|];
        assert cnts[..i] == Held()[..i];
        sum := sum + cnts[i];
        i := i + 1;
      }
      assert Held()[..i] == Held();
    }

    /** A new server starts empty behind a sentinel separator; then the records are redistributed. */
    method AddServer(sentinel: K) returns (res: int)
      requires Valid()
      modifies this
      ensures Valid() && Records(servers) == Records(old(servers)) && |servers| == |old(servers)| + 1
      ensures var c := Counts(old(servers)) + [0];
        if Sum(c) < |c| then res == 0 && servers == old(servers) + [[]] && separators == old(separators) + [sentinel]
        else res == 0 && Even(c, Held()) <==> SingleRun(Plans.Borders(c))
      ensures old(Orderly() && Below(cmp, servers, separators, sentinel)) ==>
        var c := Counts(old(servers)) + [0];
        && (Routed(cmp, servers, separators) <==> Sum(c) < |c| || !Deficit(Plans.Borders(c), |c|))
        && (Routed(cmp, servers, separators) ==> Ascending(cmp, separators))
    {
      hide Sorted, TotalOrder, AllSorted, OneHome, Records, Routed, Ascending, Sum, Uneven, Even, SingleRun,
        Deficit, Plans.Borders;
      AddedRecords(cmp, servers);
      AddedOneHome(servers);
      if Orderly() && Below(cmp, servers, separators, sentinel) {
        AddedRouted(cmp, servers, separators, sentinel);
        AddedAscending(cmp, servers, separators, sentinel);
      }
      assert Counts(servers + [[]]) == Counts(servers) + [0];
      UnevenAdded(Counts(servers));
      servers := servers + [[]];
      separators := separators + [sentinel];
      res := Redistribute();
    }

    /** A range query goes to the servers between the routes of its bounds; their answers follow each other. */
    method ObtainBetween(r: Interval<K>) returns (answer: seq<Entry<K, V>>)
      requires Valid()
      ensures Routed(cmp, servers, separators) ==> answer == Select(cmp, r, Flatten(servers)) && Sorted(cmp, Flatten(servers))
      ensures Routed(cmp, servers, separators) ==> Sorted(cmp, answer) && forall e ::
        e in answer <==>
          && (exists i :: 0 <= i < |servers| && e in servers[i])
          && (Less(cmp, r.lower, e.key) || (e.key == r.lower && r.lowerInclusive))
          && (Less(cmp, e.key, r.upper) || (e.key == r.upper && r.upperInclusive))
    {
      hide Sorted, TotalOrder, AllSorted, OneHome, Routed, Select, Flatten;
      answer := [];
      var leftId := GetIdForKey(r.lower);
      var rightId := GetIdForKey(r.upper);
      var id := leftId;
      while id <= rightId
        invariant leftId <= id && (id <= rightId + 1 || id == leftId)
        invariant id <= |servers| && answer == Answers(cmp, r, servers, leftId, id)
      {
        answer := answer + Select(cmp, r, servers[id]);
        id := id + 1;
      }
      assert servers[..|servers|] == servers;
      if Routed(cmp, servers, separators) {
        RangeAnswers(cmp, r, servers, separators, |servers|);
        FlattenSorted(cmp, servers, separators, |servers|);
        SelectBetween(cmp, r, Flatten(servers));
        SelectSorted(cmp, r, Flatten(servers));
        forall e ensures e in Flatten(servers) <==> exists i :: 0 <= i < |servers| && e in servers[i] {
          FlattenHas(servers, e);
        }
      }
    }
  }

  lemma SortedAt<K, V>(cmp: (K, K) -> int, servers: seq<seq<Entry<K, V>>>, a: nat)
    requires AllSorted(cmp, servers) && a < |servers|
    ensures Sorted(cmp, servers[a])
  {
  }

  lemma MovedIs<K, V>(cmp: (K, K) -> int, servers: seq<seq<Entry<K, V>>>, a: nat, p: nat, b: nat)
    requires a < |servers| && b < |servers| && a != b && p < |servers[a]|
    ensures Moved(cmp, servers, a, p, b) == servers[b := Put(cmp, servers[b], servers[a][p])][a := RemoveAt(servers[a], p)]
  {
  }

  /** What `m` transfers to the left leave of `s`: the record after the least goes each time. */
  ghost predicate LeftBehind<K, V>(s: seq<Entry<K, V>>, m: nat, rest: seq<Entry<K, V>>) {
    m <= |s| && rest == if m == |s| then [] else if m == 0 then s else [s[0]] + s[m + 1..]
  }

  /** The key of the record the `m`-th of them took. */
  ghost function LeftKey<K, V>(s: seq<Entry<K, V>>, m: nat): K
    requires 0 < m <= |s|
  {
    if m == |s| then s[0].key else s[m].key
  }

  lemma LeftBehindStart<K, V>(s: seq<Entry<K, V>>)
    ensures LeftBehind(s, 0, s)
  {
  }

  lemma LeftBehindEnd<K, V>(s: seq<Entry<K, V>>, m: nat, rest: seq<Entry<K, V>>)
    requires LeftBehind(s, m, rest)
    ensures m <= |s| && rest == if m == |s| then [] else if m == 0 then s else [s[0]] + s[m + 1..]
  {
  }

  lemma LeftBehindStep<K, V>(s: seq<Entry<K, V>>, m: nat, rest: seq<Entry<K, V>>)
    requires LeftBehind(s, m, rest) && rest != []
    ensures var p := if |rest| > 1 then 1 else 0;
      LeftBehind(s, m + 1, RemoveAt(rest, p)) && rest[p].key == LeftKey(s, m + 1)
  {
    if |rest| > 1 {
      assert RemoveAt(rest, 1) == [s[0]] + s[m + 2..];
    }
  }

  lemma RemoveLast<T>(s: seq<T>)
    requires s != []
    ensures RemoveAt(s, |s| - 1) == s[..|s| - 1]
  {
  }

  /** `n` records have left server `a` for server `b`; the other servers are as they were. */
  ghost predicate Shifted<K, V>(was: seq<seq<Entry<K, V>>>, now: seq<seq<Entry<K, V>>>, a: int, b: int, n: int) {
    && |now| == |was| && 0 <= a < |was| && 0 <= b < |was| && a != b
    && |now[a]| == |was[a]| - n && |now[b]| == |was[b]| + n
    && forall j :: 0 <= j < |was| && j != a && j != b ==> now[j] == was[j]
  }

  /** Only separator `k` may differ. */
  ghost predicate OthersKept<K>(was: seq<K>, now: seq<K>, k: int) {
    |now| == |was| && forall j :: 0 <= j < |was| && j != k ==> now[j] == was[j]
  }

  lemma MovedSides<K, V>(cmp: (K, K) -> int, servers: seq<seq<Entry<K, V>>>, a: nat, p: nat, b: nat)
    requires a < |servers| && b < |servers| && a != b && p < |servers[a]|
    ensures var now := Moved(cmp, servers, a, p, b);
      Shifted(servers, now, a, b, 1) && now[a] == RemoveAt(servers[a], p) && (p > 0 ==> now[a][0] == servers[a][0])
  {
  }

  /** The least record stays behind, below the key of its successor that moved. */
  lemma LeftStrands<K(!new), V>(cmp: (K, K) -> int, was: seq<seq<Entry<K, V>>>, seps: seq<K>, id: nat)
    requires AllSorted(cmp, was) && 0 < id < |was| && |was[id]| > 1 && id - 1 < |seps| && seps[id - 1] == was[id][1].key
    ensures Stranded(cmp, Moved(cmp, was, id, 1, id - 1), seps, id)
  {
    assert Less(cmp, was[id][0].key, was[id][1].key);
  }

  ghost function Counts<K, V>(servers: seq<seq<Entry<K, V>>>): (r: seq<nat>)
    ensures |r| == |servers| && forall i :: 0 <= i < |servers| ==> r[i] == |servers[i]|
  {
    seq(|servers|, i requires 0 <= i < |servers| => |servers[i]|)
  }

  lemma PulledNone(f: seq<int>, prefix: seq<int>, i: nat)
    requires |f| == |prefix|
    ensures Pulled(f, f, prefix, i, i)
  {
  }

  lemma Sizes<K, V>(c: seq<nat>, f: seq<int>, servers: seq<seq<Entry<K, V>>>)
    requires Levelled(c, f, Counts(servers))
    ensures |c| == |f| == |servers|
  {
  }

  lemma EnoughIs(c: seq<nat>, f: seq<int>, prefix: seq<int>, j: nat, i: nat)
    requires |c| == |f| == |prefix| && 0 < j <= i < |c|
    ensures Enough(c, f, prefix, j, i) <==> -prefix[j - 1] <= Level(c, f, j) + (if j < i then -prefix[j] else 0)
  {
  }

  lemma StillStranded<K, V>(cmp: (K, K) -> int, was: seq<seq<Entry<K, V>>>, seps: seq<K>, now: seq<seq<Entry<K, V>>>, seps': seq<K>, a: int)
    requires Stranded(cmp, was, seps, a) && |now| == |was| && |seps'| == |seps| && now[a] == was[a] && seps'[a - 1] == seps[a - 1]
    ensures Stranded(cmp, now, seps', a)
  {
  }

  lemma StrandedWithin<K, V>(cmp: (K, K) -> int, servers: seq<seq<Entry<K, V>>>, seps: seq<K>)
    ensures forall i :: Stranded(cmp, servers, seps, i) ==> 0 < i < |servers| && i <= |seps|
  {
  }

  /** A shift over border `k` changes the levels on both sides. */
  lemma ShiftedLevel<K, V>(c: seq<nat>, g: seq<int>, was: seq<seq<Entry<K, V>>>, now: seq<seq<Entry<K, V>>>, k: nat, x: int)
    requires Levelled(c, g, Counts(was)) && k + 1 < |was|
    requires if x < 0 then Shifted(was, now, k + 1, k, -x) else (x == 0 && now == was) || Shifted(was, now, k, k + 1, x)
    ensures k < |g| && Levelled(c, g[k := g[k] + x], Counts(now))
  {
    LevelShift(c, g, Counts(was), Counts(now), k, x);
  }

  ghost function PulledAll(f: seq<int>, prefix: seq<int>, i: nat): (g: seq<int>)
    requires |f| == |prefix|
    ensures Pulled(f, g, prefix, 0, i)
  {
    seq(|f|, k requires 0 <= k < |f| => f[k] + (if k < i then prefix[k] else 0))
  }

  lemma HeldIs<K, V>(c: seq<nat>, f: seq<int>, servers: seq<seq<Entry<K, V>>>, j: nat)
    requires Levelled(c, f, Counts(servers)) && j < |servers|
    ensures |c| == |f| == |servers| && |servers[j]| == Level(c, f, j)
  {
  }

  lemma StillAfterRight<K, V>(cmp: (K, K) -> int, was: seq<seq<Entry<K, V>>>, seps: seq<K>,
      now: seq<seq<Entry<K, V>>>, seps': seq<K>, e: int, i: nat)
    requires Stranded(cmp, was, seps, e) && e <= i && i + 1 < |was| && OthersKept(seps, seps', i)
    requires |now| == |was| && (forall j :: 0 <= j < i ==> now[j] == was[j]) && now[i] != [] && was[i] != [] && now[i][0] == was[i][0]
    ensures Stranded(cmp, now, seps', e)
  {
  }

  lemma NotCleared(p: seq<int>)
    ensures Cleared(p, p, 0)
  {
  }

  lemma NoDeficit(p: seq<int>)
    ensures !Deficit(p, 0) && (!Deficit(p, |p|) ==> SingleRun(p))
  {
  }

  lemma LastBorder(c: seq<nat>, i: nat)
    requires i < |c|
    ensures i + 1 == |c| ==> Plans.Borders(c)[i] == 0
  {
    LastBorderZero(c);
  }

  lemma ArrivedAt(p: seq<int>, differ: seq<int>, i: nat)
    requires Arrived(p, differ, i) && i < |p| && p[i] >= 0
    ensures i < |differ| && differ[i] == p[i] - (if RunEnd(p, i) then p[i - 1] else 0)
  {
    assert i <= i < |p| ==> differ[i] == if i > 0 && p[i - 1] >= 0 then p[i] else Own(p, i);
  }

  lemma FlowsIdle(p: seq<int>, prefix: seq<int>, i: nat)
    requires Cleared(p, prefix, i) && i < |p| && p[i] < 0
    ensures Flows(p, i + 1) == Flows(p, i)
  {
    FlowsStep(p, prefix, Flows(p, i), i);
  }

  /** Some server is empty, or its count and its target differ by a factor above two. */
  ghost predicate UnevenAt(c: seq<nat>, i: nat)
    requires i < |c|
  {
    var target := Target(Sum(c), |c|, i);
    c[i] == 0 || target / c[i] > 2 || (target > 0 && c[i] / target > 2)
  }

  ghost predicate Uneven(c: seq<nat>) {
    exists i :: 0 <= i < |c| && UnevenAt(c, i)
  }

  /** A quotient above two is a factor of three. */
  lemma FactorThree(a: nat, b: nat)
    requires b > 0
    ensures a / b > 2 <==> a >= 3 * b
  {
    var q := a / b;
    assert a == b * q + a % b;
    if q > 2 {
      assert b * q >= b * 3;
    } else {
      assert b * q <= b * 2;
    }
  }

  /** Unevenness without division: some server is empty, or one of count and target is three times the other. */
  lemma UnevenMeans(c: seq<nat>)
    requires 0 < |c| <= Sum(c)
    ensures Uneven(c) <==>
      exists i :: 0 <= i < |c| && (c[i] == 0 || Target(Sum(c), |c|, i) >= 3 * c[i] || c[i] >= 3 * Target(Sum(c), |c|, i))
  {
    hide Sum, Target;
    forall i | 0 <= i < |c|
      ensures UnevenAt(c, i) <==> c[i] == 0 || Target(Sum(c), |c|, i) >= 3 * c[i] || c[i] >= 3 * Target(Sum(c), |c|, i)
    {
      TargetPositive(Sum(c), |c|, i);
      FactorThree(c[i], Target(Sum(c), |c|, i));
      if c[i] > 0 {
        FactorThree(Target(Sum(c), |c|, i), c[i]);
      }
    }
    if i :| 0 <= i < |c| && (c[i] == 0 || Target(Sum(c), |c|, i) >= 3 * c[i] || c[i] >= 3 * Target(Sum(c), |c|, i)) {
      assert UnevenAt(c, i);
    }
  }

  method NeedsRedistribution(cnts: seq<nat>, sum: nat) returns (needed: bool)
    requires sum == Sum(cnts) && 0 < |cnts| <= sum
    ensures needed <==> Uneven(cnts)
  {
    hide Sum, Target;
    var i := 0;
    while i < |cnts|
      invariant 0 <= i <= |cnts| && forall k :: 0 <= k < i ==> !UnevenAt(cnts, k)
    {
      TargetPositive(sum, |cnts|, i);
      var target := Target(sum, |cnts|, i);
      if cnts[i] == 0 || target / cnts[i] > 2 || cnts[i] / target > 2 {
        assert UnevenAt(cnts, i);
        return true;
      }
      i := i + 1;
    }
    return false;
  }

  /** Every server holds its target. */
  ghost predicate Even(c: seq<nat>, held: seq<nat>) {
    |held| == |c| && forall i :: 0 <= i < |c| ==> held[i] == Target(Sum(c), |c|, i)
  }

  lemma EvenIff(c: seq<nat>, held: seq<nat>, res: int)
    requires c != [] && (SingleRun(Borders(c)) ==> res == 0) && (res == 0 ==> Levelled(c, Flows(Borders(c), |c|), held))
    ensures res == 0 && Even(c, held) <==> SingleRun(Borders(c))
  {
    hide Sum, Target, Borders, Flows, Level, SingleRun;
    if SingleRun(Borders(c)) {
      forall j | 0 <= j < |c| ensures held[j] == Target(Sum(c), |c|, j) { Meets(c, j); }
    } else {
      var a := Overshoots(c);
      if res == 0 {
        assert held[a] == Level(c, Flows(Borders(c), |c|), a);
      }
    }
  }

  /** All keys of the last server, and all separators, are below or at the sentinel. */
  ghost predicate Below<K(!new), V>(cmp: (K, K) -> int, servers: seq<seq<Entry<K, V>>>, seps: seq<K>, sentinel: K) {
    && (forall key :: Stored(servers, key, |seps|) ==> Less(cmp, key, sentinel))
    && forall i :: 0 <= i < |seps| ==> !Less(cmp, sentinel, seps[i])
  }

  lemma AddedRecords<K, V>(cmp: (K, K) -> int, servers: seq<seq<Entry<K, V>>>)
    requires AllSorted(cmp, servers)
    ensures AllSorted(cmp, servers + [[]]) && Records(servers + [[]]) == Records(servers)
  {
    RecordsConcat(servers);
  }

  lemma {:induction false} RecordsConcat<K, V>(servers: seq<seq<Entry<K, V>>>)
    ensures Records(servers + [[]]) == Records(servers)
  {
    if servers != [] {
      assert (servers + [[]])[1..] == servers[1..] + [[]];
      RecordsConcat(servers[1..]);
    }
  }

  lemma AddedOneHome<K(!new), V>(servers: seq<seq<Entry<K, V>>>)
    requires OneHome(servers)
    ensures OneHome(servers + [[]])
  {
    var more := servers + [[]];
    forall key, i ensures Stored(more, key, i) <==> Stored(servers, key, i) {
    }
    OneHomeSame(servers, more);
  }

  lemma AddedAscending<K(!new), V>(cmp: (K, K) -> int, servers: seq<seq<Entry<K, V>>>, seps: seq<K>, sentinel: K)
    requires Ascending(cmp, seps) && Below(cmp, servers, seps, sentinel)
    ensures Ascending(cmp, seps + [sentinel])
  {
  }

  /** An empty server always calls for redistribution. */
  lemma UnevenAdded(c: seq<nat>)
    ensures Uneven(c + [0])
  {
    assert UnevenAt(c + [0], |c|);
  }

  /** What server `id` still stores it stored before. */
  ghost predicate StoredWithin<K(!new), V>(was: seq<seq<Entry<K, V>>>, now: seq<seq<Entry<K, V>>>, id: int) {
    forall key :: Stored(now, key, id) ==> Stored(was, key, id)
  }

  lemma WithinItself<K(!new), V>(servers: seq<seq<Entry<K, V>>>, id: int)
    ensures StoredWithin(servers, servers, id)
  {
  }

  lemma LeftWithin<K(!new), V>(cmp: (K, K) -> int, first: seq<seq<Entry<K, V>>>, was: seq<seq<Entry<K, V>>>, id: nat, p: nat)
    requires TotalOrder(cmp) && AllSorted(cmp, was) && OneHome(was) && 0 < id < |was| && p < |was[id]|
    requires StoredWithin(first, was, id)
    ensures StoredWithin(first, Moved(cmp, was, id, p, id - 1), id)
  {
    hide TotalOrder, AllSorted, OneHome, Stored, Moved;
    MovedKeeps(cmp, was, id, p, id - 1);
  }

  /** Some key stored on server `b` is not below any of the separators up to `b`. */
  ghost predicate Misplaced<K(!new), V>(cmp: (K, K) -> int, servers: seq<seq<Entry<K, V>>>, seps: seq<K>, b: int) {
    exists key :: Stored(servers, key, b) && 0 <= b < |seps| && forall j :: 0 <= j <= b ==> !Less(cmp, key, seps[j])
  }

  lemma MisplacedUnrouted<K(!new), V>(cmp: (K, K) -> int, servers: seq<seq<Entry<K, V>>>, seps: seq<K>, b: int)
    requires Misplaced(cmp, servers, seps, b)
    ensures !Routed(cmp, servers, seps)
  {
    var key :| Stored(servers, key, b) && 0 <= b < |seps| && forall j :: 0 <= j <= b ==> !Less(cmp, key, seps[j]);
    assert !Less(cmp, key, seps[b]);
    assert Route(cmp, seps, key) != b;
  }

  /** A record of a routed server that moves left with its key as separator is misplaced there. */
  lemma LeftMisplaced<K(!new), V>(cmp: (K, K) -> int, first: seq<seq<Entry<K, V>>>, seps0: seq<K>,
      was: seq<seq<Entry<K, V>>>, seps: seq<K>, id: nat, p: nat)
    requires TotalOrder(cmp) && AllSorted(cmp, was) && OneHome(was) && 0 < id < |was| && p < |was[id]|
    requires Routed(cmp, first, seps0) && StoredWithin(first, was, id) && |seps0| + 1 == |was|
    requires OthersKept(seps0, seps, id - 1) && seps[id - 1] == was[id][p].key
    ensures Misplaced(cmp, Moved(cmp, was, id, p, id - 1), seps, id - 1)
  {
    hide TotalOrder, AllSorted, OneHome, Moved, Route;
    var x := was[id][p].key;
    MovedKeeps(cmp, was, id, p, id - 1);
    Has(was[id], p);
    assert Stored(was, x, id);
    assert Stored(first, x, id) && Route(cmp, seps0, x) == id;
    Orders(cmp, x, x, x);
    forall j | 0 <= j <= id - 1 ensures !Less(cmp, x, seps[j]) {
      if j < id - 1 {
        assert seps[j] == seps0[j];
      }
    }
    assert Stored(Moved(cmp, was, id, p, id - 1), x, id - 1);
  }

  lemma {:induction false} Recorded<K, V>(servers: seq<seq<Entry<K, V>>>, id: nat, p: nat)
    requires id < |servers| && p < |servers[id]|
    ensures servers[id][p] in Records(servers)
  {
    if id > 0 {
      Recorded(servers[1..], id - 1, p);
    }
  }
}
