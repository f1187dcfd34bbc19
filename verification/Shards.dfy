/**
 * Records of one collection spread over storage servers. Each server's records are the pairs
 * of its tree in key order; separators say which server a key belongs to.
 */
module Shards {
  import opened Basics
  import opened Entries
  import opened Ranges

  /** The number of leading separators that are not above the key. */
  ghost function Route<K>(cmp: (K, K) -> int, seps: seq<K>, key: K): (id: nat)
    ensures id <= |seps|
    ensures forall i :: 0 <= i < id ==> !Less(cmp, key, seps[i])
    ensures id < |seps| ==> Less(cmp, key, seps[id])
  {
    if seps == [] || Less(cmp, key, seps[0]) then 0 else 1 + Route(cmp, seps[1..], key)
  }

  /** The route is determined by the two facts a caller can see. */
  lemma RouteIs<K>(cmp: (K, K) -> int, seps: seq<K>, key: K, id: nat)
    requires id <= |seps| && (forall i :: 0 <= i < id ==> !Less(cmp, key, seps[i]))
    requires id < |seps| ==> Less(cmp, key, seps[id])
    ensures Route(cmp, seps, key) == id
  {
  }

  /** A greater key is never routed further left, in whatever order the separators are. */
  lemma {:induction false} RouteMonotone<K(!new)>(cmp: (K, K) -> int, seps: seq<K>, a: K, b: K)
    requires TotalOrder(cmp) && !Less(cmp, b, a)
    ensures Route(cmp, seps, a) <= Route(cmp, seps, b)
  {
    if seps != [] && !Less(cmp, a, seps[0]) {
      assert OrderAt(cmp, b, seps[0], a) && OrderAt(cmp, a, b, seps[0]) && OrderAt(cmp, b, a, seps[0]) && OrderAt(cmp, seps[0], a, b);
      RouteMonotone(cmp, seps[1..], a, b);
    }
  }

  ghost predicate AllSorted<K, V>(cmp: (K, K) -> int, servers: seq<seq<Entry<K, V>>>) {
    forall i :: 0 <= i < |servers| ==> Sorted(cmp, servers[i])
  }

  ghost predicate Stored<K, V>(servers: seq<seq<Entry<K, V>>>, key: K, i: int) {
    0 <= i < |servers| && HasKey(servers[i], key)
  }

  /** Every key is stored on at most one server. */
  ghost predicate OneHome<K(!new), V>(servers: seq<seq<Entry<K, V>>>) {
    forall key, i, j :: Stored(servers, key, i) && Stored(servers, key, j) ==> i == j
  }

  /** Every key is stored on the server its route names. */
  ghost predicate Routed<K(!new), V>(cmp: (K, K) -> int, servers: seq<seq<Entry<K, V>>>, seps: seq<K>) {
    forall key, i :: Stored(servers, key, i) ==> Route(cmp, seps, key) == i
  }

  /** Separators in ascending order, repetitions allowed. */
  ghost predicate Ascending<K>(cmp: (K, K) -> int, seps: seq<K>) {
    forall i, j :: 0 <= i < j < |seps| ==> !Less(cmp, seps[j], seps[i])
  }

  /** All records of all servers. */
  ghost function Records<K, V>(servers: seq<seq<Entry<K, V>>>): multiset<Entry<K, V>> {
    if servers == [] then multiset{} else multiset(servers[0]) + Records(servers[1..])
  }

  /** A new record enters at its place. */
  lemma PutSorted<K(!new), V>(cmp: (K, K) -> int, s: seq<Entry<K, V>>, e: Entry<K, V>)
    requires TotalOrder(cmp) && Sorted(cmp, s) && !HasKey(s, e.key)
    ensures Sorted(cmp, Put(cmp, s, e)) && |Put(cmp, s, e)| == |s| + 1
    ensures multiset(Put(cmp, s, e)) == multiset(s) + multiset{e}
    ensures forall key :: HasKey(Put(cmp, s, e), key) <==> key == e.key || HasKey(s, key)
  {
    var p := Slot(cmp, s, e.key);
    SlotSplits(cmp, s, e.key);
    InsertSorted(cmp, s, p, e);
    InsertKeys(s, p, e);
  }

  /** On the map a sequence stands for, putting a record is adding a pair. */
  lemma PutMap<K(!new), V>(cmp: (K, K) -> int, s: seq<Entry<K, V>>, e: Entry<K, V>)
    requires !HasKey(s, e.key)
    ensures AsMap(Put(cmp, s, e)) == AsMap(s)[e.key := e.value]
  {
    AsMapInsert(s, Slot(cmp, s, e.key), e);
  }

  lemma InsertKeys<K, V>(s: seq<Entry<K, V>>, p: nat, e: Entry<K, V>)
    requires p <= |s|
    ensures multiset(InsertAt(s, p, e)) == multiset(s) + multiset{e}
    ensures forall key :: HasKey(InsertAt(s, p, e), key) <==> key == e.key || HasKey(s, key)
  {
    var r := InsertAt(s, p, e);
    assert s == s[..p] + s[p..];
    assert r[p] == e;
    forall key | HasKey(s, key) ensures HasKey(r, key) {
      var i :| 0 <= i < |s| && s[i].key == key;
      assert r[if i < p then i else i + 1] == s[i];
    }
    forall key | HasKey(r, key) && key != e.key ensures HasKey(s, key) {
      var i :| 0 <= i < |r| && r[i].key == key;
      assert r[i] == s[if i < p then i else i - 1];
    }
  }

  /** A record leaves. */
  lemma DropSorted<K(!new), V>(cmp: (K, K) -> int, s: seq<Entry<K, V>>, p: nat)
    requires TotalOrder(cmp) && Sorted(cmp, s) && p < |s|
    ensures Sorted(cmp, RemoveAt(s, p)) && multiset(RemoveAt(s, p)) + multiset{s[p]} == multiset(s)
    ensures forall key :: HasKey(RemoveAt(s, p), key) <==> key != s[p].key && HasKey(s, key)
  {
    var r := RemoveAt(s, p);
    SortedDistinct(cmp, s);
    RemovedKey(s, p);
    assert InsertAt(r, p, s[p]) == s;
    InsertKeys(r, p, s[p]);
    forall i, j | 0 <= i < j < |r| ensures Less(cmp, r[i].key, r[j].key) {
      assert r[i] == s[if i < p then i else i + 1] && r[j] == s[if j < p then j else j + 1];
    }
  }

  /** The servers after record `p` of server `a` has been added to server `b` and dropped from `a`. */
  ghost function Moved<K, V>(cmp: (K, K) -> int, servers: seq<seq<Entry<K, V>>>, a: nat, p: nat, b: nat): seq<seq<Entry<K, V>>>
    requires a < |servers| && b < |servers| && a != b && p < |servers[a]|
  {
    servers[b := Put(cmp, servers[b], servers[a][p])][a := RemoveAt(servers[a], p)]
  }

  lemma {:induction false} RecordsUpdate<K, V>(servers: seq<seq<Entry<K, V>>>, i: nat, s: seq<Entry<K, V>>)
    requires i < |servers|
    ensures Records(servers[i := s]) + multiset(servers[i]) == Records(servers) + multiset(s)
  {
    var first, rest := multiset(servers[0]), Records(servers[1..]);
    if i == 0 {
      assert servers[0 := s][1..] == servers[1..];
      SwapBags(rest, multiset(s), first);
    } else {
      RecordsUpdate(servers[1..], i - 1, s);
      assert servers[i := s][1..] == servers[1..][i - 1 := s];
      RegroupBags(first, Records(servers[1..][i - 1 := s]), multiset(servers[i]), rest, multiset(s));
    }
  }

  lemma SwapBags<T>(r: multiset<T>, a: multiset<T>, b: multiset<T>)
    ensures (a + r) + b == (b + r) + a
  {
  }

  lemma RegroupBags<T>(f: multiset<T>, x: multiset<T>, a: multiset<T>, y: multiset<T>, b: multiset<T>)
    requires x + a == y + b
    ensures (f + x) + a == (f + y) + b
  {
    assert f + (x + a) == (f + x) + a && f + (y + b) == (f + y) + b;
  }

  /** No record is lost, duplicated or changed by a move, and no key gets a second home. */
  lemma MovedKeeps<K(!new), V>(cmp: (K, K) -> int, servers: seq<seq<Entry<K, V>>>, a: nat, p: nat, b: nat)
    requires TotalOrder(cmp) && AllSorted(cmp, servers) && OneHome(servers)
    requires a < |servers| && b < |servers| && a != b && p < |servers[a]|
    ensures !HasKey(servers[b], servers[a][p].key)
    ensures AllSorted(cmp, Moved(cmp, servers, a, p, b)) && OneHome(Moved(cmp, servers, a, p, b))
    ensures Records(Moved(cmp, servers, a, p, b)) == Records(servers)
    ensures forall key, i :: Stored(Moved(cmp, servers, a, p, b), key, i) <==>
      if key == servers[a][p].key then i == b else Stored(servers, key, i)
    ensures |Moved(cmp, servers, a, p, b)[a]| == |servers[a]| - 1 && |Moved(cmp, servers, a, p, b)[b]| == |servers[b]| + 1
  {
    hide Sorted, TotalOrder, RemoveAt, Put, Records;
    var e := servers[a][p];
    assert Stored(servers, e.key, a);
    assert Stored(servers, e.key, b) <==> HasKey(servers[b], e.key);
    PutSorted(cmp, servers[b], e);
    DropSorted(cmp, servers[a], p);
    MovedRecords(servers, a, RemoveAt(servers[a], p), b, Put(cmp, servers[b], e), e);
    MovedStored(cmp, servers, a, p, b);
    var r := Moved(cmp, servers, a, p, b);
    forall key, i, j | Stored(r, key, i) && Stored(r, key, j) ensures i == j {
      assert key == e.key || (Stored(servers, key, i) && Stored(servers, key, j));
    }
  }

  lemma MovedRecords<K, V>(servers: seq<seq<Entry<K, V>>>, a: nat, x: seq<Entry<K, V>>, b: nat, y: seq<Entry<K, V>>, e: Entry<K, V>)
    requires a < |servers| && b < |servers| && a != b
    requires multiset(x) + multiset{e} == multiset(servers[a]) && multiset(y) == multiset(servers[b]) + multiset{e}
    ensures Records(servers[b := y][a := x]) == Records(servers)
  {
    RecordsUpdate(servers, b, y);
    RecordsUpdate(servers[b := y], a, x);
    Exchange(Records(servers), Records(servers[b := y]), Records(servers[b := y][a := x]),
      multiset(servers[a]), multiset(servers[b]), multiset(x), multiset(y), multiset{e});
  }

  lemma Exchange<T>(r: multiset<T>, s: multiset<T>, t: multiset<T>,
      a: multiset<T>, b: multiset<T>, x: multiset<T>, y: multiset<T>, e: multiset<T>)
    requires s + b == r + y && t + a == s + x && x + e == a && y == b + e
    ensures t == r
  {
    forall o: T ensures t[o] == r[o] {
      assert (s + b)[o] == (r + y)[o] && (t + a)[o] == (s + x)[o] && (x + e)[o] == a[o] && (b + e)[o] == y[o];
    }
  }

  /** Where each key is stored after a move. */
  lemma MovedStored<K(!new), V>(cmp: (K, K) -> int, servers: seq<seq<Entry<K, V>>>, a: nat, p: nat, b: nat)
    requires a < |servers| && b < |servers| && a != b && p < |servers[a]| && OneHome(servers)
    requires forall key :: HasKey(Put(cmp, servers[b], servers[a][p]), key) <==> key == servers[a][p].key || HasKey(servers[b], key)
    requires forall key :: HasKey(RemoveAt(servers[a], p), key) <==> key != servers[a][p].key && HasKey(servers[a], key)
    ensures forall key, i :: Stored(Moved(cmp, servers, a, p, b), key, i) <==>
      if key == servers[a][p].key then i == b else Stored(servers, key, i)
  {
    hide Put, RemoveAt, HasKey;
    var e, r := servers[a][p], Moved(cmp, servers, a, p, b);
    assert HasKey(servers[a], e.key) by { Has(servers[a], p); }
    assert Stored(servers, e.key, a);
    forall key, i ensures Stored(r, key, i) <==> if key == e.key then i == b else Stored(servers, key, i) {
      if 0 <= i < |servers| && i != a && i != b && key == e.key {
        assert !Stored(servers, key, i);
      }
    }
  }

  lemma Has<K, V>(s: seq<Entry<K, V>>, p: nat)
    requires p < |s|
    ensures HasKey(s, s[p].key)
  {
  }

  /** Total-order facts about three keys. */
  lemma Orders<K(!new)>(cmp: (K, K) -> int, a: K, b: K, c: K)
    requires TotalOrder(cmp)
    ensures !Less(cmp, a, a) && (!Less(cmp, a, b) && !Less(cmp, b, a) ==> a == b)
    ensures Less(cmp, a, b) && !Less(cmp, c, b) ==> Less(cmp, a, c)
    ensures !Less(cmp, b, a) && Less(cmp, b, c) ==> Less(cmp, a, c)
    ensures Less(cmp, a, b) && Less(cmp, b, c) ==> Less(cmp, a, c)
    ensures Less(cmp, a, b) ==> !Less(cmp, b, a)
  {
    assert OrderAt(cmp, a, b, c) && OrderAt(cmp, a, a, a) && OrderAt(cmp, b, a, c) && OrderAt(cmp, b, c, a);
    assert OrderAt(cmp, a, c, b) && OrderAt(cmp, c, b, a);
    assert OrderAt(cmp, c, a, b) && OrderAt(cmp, a, b, b);
  }

  /** Moving the greatest record right and making its key the separator keeps every route right. */
  lemma RightRouted<K(!new), V>(cmp: (K, K) -> int, servers: seq<seq<Entry<K, V>>>, seps: seq<K>, a: nat)
    requires TotalOrder(cmp) && AllSorted(cmp, servers) && OneHome(servers)
    requires |seps| + 1 == |servers| && a < |seps| && servers[a] != []
    requires Routed(cmp, servers, seps) && Ascending(cmp, seps)
    ensures var p := |servers[a]| - 1;
      Routed(cmp, Moved(cmp, servers, a, p, a + 1), seps[a := servers[a][p].key])
    ensures Ascending(cmp, seps[a := servers[a][|servers[a]| - 1].key])
  {
    hide TotalOrder, Moved, Route, OneHome;
    var p := |servers[a]| - 1;
    var x, seps' := servers[a][p].key, seps[a := servers[a][p].key];
    MovedKeeps(cmp, servers, a, p, a + 1);
    Has(servers[a], p);
    assert Stored(servers, x, a) && Route(cmp, seps, x) == a;
    forall i | 0 <= i < |seps| ensures (i < a ==> !Less(cmp, x, seps[i])) && (i > a ==> Less(cmp, x, seps[i])) {
      Orders(cmp, x, seps[a], seps[i]);
    }
    forall i | a < i < |seps| ensures !Less(cmp, seps[i], x) { Orders(cmp, x, seps[i], x); }
    RouteEdge(cmp, seps, x, a);
    forall key, i | Stored(servers, key, i) && key != x ensures Route(cmp, seps', key) == i {
      RouteKept(cmp, servers, seps, a, key, i);
    }
  }

  lemma RouteEdge<K(!new)>(cmp: (K, K) -> int, seps: seq<K>, x: K, a: nat)
    requires TotalOrder(cmp) && a < |seps|
    requires forall i :: 0 <= i < |seps| ==> (i < a ==> !Less(cmp, x, seps[i])) && (i > a ==> Less(cmp, x, seps[i]))
    ensures Route(cmp, seps[a := x], x) == a + 1
  {
    Orders(cmp, x, x, x);
    RouteIs(cmp, seps[a := x], x, a + 1);
  }

  lemma RouteKept<K(!new), V>(cmp: (K, K) -> int, servers: seq<seq<Entry<K, V>>>, seps: seq<K>, a: nat, key: K, i: nat)
    requires TotalOrder(cmp) && AllSorted(cmp, servers) && a < |seps| && |seps| + 1 == |servers| && servers[a] != []
    requires Stored(servers, key, i) && Route(cmp, seps, key) == i
    requires Route(cmp, seps, servers[a][|servers[a]| - 1].key) == a && key != servers[a][|servers[a]| - 1].key
    ensures Route(cmp, seps[a := servers[a][|servers[a]| - 1].key], key) == i
  {
    hide TotalOrder, Route;
    var x := servers[a][|servers[a]| - 1].key;
    Orders(cmp, x, seps[a], key);
    Orders(cmp, key, x, x);
    if i == a {
      var j :| 0 <= j < |servers[a]| && servers[a][j].key == key;
      assert Less(cmp, servers[a][j].key, x);
    }
    RouteIs(cmp, seps[a := x], key, i);
  }

  /** Whatever record moves left and gives its key to the separator, its route leads back right. */
  lemma LeftUnrouted<K(!new), V>(cmp: (K, K) -> int, servers: seq<seq<Entry<K, V>>>, seps: seq<K>, a: nat, p: nat)
    requires TotalOrder(cmp) && AllSorted(cmp, servers) && OneHome(servers) && Routed(cmp, servers, seps)
    requires |seps| + 1 == |servers| && 0 < a < |servers| && p < |servers[a]|
    ensures !Routed(cmp, Moved(cmp, servers, a, p, a - 1), seps[a - 1 := servers[a][p].key])
  {
    hide TotalOrder, Moved, OneHome, Route;
    var x := servers[a][p].key;
    MovedKeeps(cmp, servers, a, p, a - 1);
    Has(servers[a], p);
    assert Stored(servers, x, a) && Stored(Moved(cmp, servers, a, p, a - 1), x, a - 1);
    Orders(cmp, x, x, x);
    assert seps[a - 1 := x][a - 1] == x;
    assert Route(cmp, seps[a - 1 := x], x) != a - 1;
  }

  /** A first record below the separator on its left is not where its route leads. */
  ghost predicate Stranded<K, V>(cmp: (K, K) -> int, servers: seq<seq<Entry<K, V>>>, seps: seq<K>, a: int) {
    0 < a < |servers| && a - 1 < |seps| && servers[a] != [] && Less(cmp, servers[a][0].key, seps[a - 1])
  }

  lemma StrandedUnrouted<K(!new), V>(cmp: (K, K) -> int, servers: seq<seq<Entry<K, V>>>, seps: seq<K>, a: int)
    requires Stranded(cmp, servers, seps, a)
    ensures !Routed(cmp, servers, seps)
  {
    Has(servers[a], 0);
    var x := servers[a][0].key;
    assert Stored(servers, x, a);
    assert Less(cmp, x, seps[a - 1]);
    assert Route(cmp, seps, x) != a;
  }

  /** A key is found, if anywhere, on the server its route names. */
  lemma RoutedLookup<K(!new), V>(cmp: (K, K) -> int, servers: seq<seq<Entry<K, V>>>, seps: seq<K>, key: K)
    requires Routed(cmp, servers, seps) && |servers| == |seps| + 1
    ensures HasKey(servers[Route(cmp, seps, key)], key) <==> exists i :: Stored(servers, key, i)
  {
    var id := Route(cmp, seps, key);
    assert Stored(servers, key, id) <==> HasKey(servers[id], key);
  }

  /** An empty server behind a new separator: routing survives just when the last server's keys are below it. */
  lemma AddedRouted<K(!new), V>(cmp: (K, K) -> int, servers: seq<seq<Entry<K, V>>>, seps: seq<K>, sentinel: K)
    requires Routed(cmp, servers, seps) && |servers| == |seps| + 1 && OneHome(servers)
    ensures OneHome(servers + [[]])
    ensures Routed(cmp, servers + [[]], seps + [sentinel]) <==>
      forall key :: Stored(servers, key, |seps|) ==> Less(cmp, key, sentinel)
  {
    hide OneHome, HasKey;
    var more, seps' := servers + [[]], seps + [sentinel];
    forall key, i ensures Stored(more, key, i) <==> Stored(servers, key, i) {
      if 0 <= i < |servers| {
        assert more[i] == servers[i];
      } else {
        EmptyServer<K, V>(key);
      }
    }
    forall key ensures Route(cmp, seps', key) ==
      if Route(cmp, seps, key) == |seps| && !Less(cmp, key, sentinel) then |seps| + 1 else Route(cmp, seps, key)
    {
      RouteAppended(cmp, seps, sentinel, key);
    }
    OneHomeSame(servers, more);
    if Routed(cmp, more, seps') {
      forall key | Stored(servers, key, |seps|) ensures Less(cmp, key, sentinel) {
        assert Stored(more, key, |seps|);
      }
    }
  }

  lemma EmptyServer<K, V>(key: K)
    ensures !HasKey<K, V>([], key)
  {
  }

  lemma OneHomeSame<K(!new), V>(servers: seq<seq<Entry<K, V>>>, more: seq<seq<Entry<K, V>>>)
    requires OneHome(servers) && forall key, i :: Stored(more, key, i) <==> Stored(servers, key, i)
    ensures OneHome(more)
  {
    forall key, i, j | Stored(more, key, i) && Stored(more, key, j) ensures i == j {
      assert Stored(servers, key, i) && Stored(servers, key, j);
    }
  }

  lemma {:induction false} RouteAppended<K>(cmp: (K, K) -> int, seps: seq<K>, sentinel: K, key: K)
    ensures Route(cmp, seps + [sentinel], key) ==
      if Route(cmp, seps, key) == |seps| && !Less(cmp, key, sentinel) then |seps| + 1 else Route(cmp, seps, key)
  {
    if seps == [] {
      assert seps + [sentinel] == [sentinel] && [sentinel][1..] == [];
    } else {
      assert (seps + [sentinel])[1..] == seps[1..] + [sentinel];
      RouteAppended(cmp, seps[1..], sentinel, key);
    }
  }

  /** All records, server by server. */
  ghost function Flatten<K, V>(servers: seq<seq<Entry<K, V>>>): seq<Entry<K, V>> {
    if servers == [] then [] else Flatten(servers[..|servers| - 1]) + servers[|servers| - 1]
  }

  lemma {:induction false} FlattenHas<K, V>(servers: seq<seq<Entry<K, V>>>, e: Entry<K, V>)
    ensures e in Flatten(servers) <==> exists i :: 0 <= i < |servers| && e in servers[i]
  {
    if servers != [] {
      var n := |servers| - 1;
      FlattenHas(servers[..n], e);
      if i :| 0 <= i < |servers[..n]| && e in servers[..n][i] {
        assert e in servers[i];
      }
      if i :| 0 <= i < |servers| && e in servers[i] {
        assert i < n ==> e in servers[..n][i];
      }
    }
  }

  /** The answers of the first `n` servers to a range query, concatenated. */
  ghost function Answers<K, V>(cmp: (K, K) -> int, r: Interval<K>, servers: seq<seq<Entry<K, V>>>, from: nat, to: nat): seq<Entry<K, V>>
    requires to <= |servers|
  {
    if to <= from then [] else Answers(cmp, r, servers, from, to - 1) + Select(cmp, r, servers[to - 1])
  }

  /** A server outside the range of routes holds nothing in the interval. */
  lemma OutsideRange<K(!new), V>(cmp: (K, K) -> int, r: Interval<K>, servers: seq<seq<Entry<K, V>>>, seps: seq<K>, i: nat)
    requires TotalOrder(cmp) && Routed(cmp, servers, seps) && i < |servers|
    requires i < Route(cmp, seps, r.lower) || Route(cmp, seps, r.upper) < i
    ensures Select(cmp, r, servers[i]) == []
  {
    hide TotalOrder, Route, AtLeast, AtMost;
    forall j | 0 <= j < |servers[i]| ensures !Inside(cmp, r, servers[i][j].key) {
      var key := servers[i][j].key;
      Has(servers[i], j);
      assert Stored(servers, key, i);
      if i < Route(cmp, seps, r.lower) {
        if !Less(cmp, key, r.lower) {
          RouteMonotone(cmp, seps, r.lower, key);
        }
        BelowOrAbove(cmp, r.lower, r.lowerInclusive, key);
      } else {
        if !Less(cmp, r.upper, key) {
          RouteMonotone(cmp, seps, key, r.upper);
        }
        AboveUpper(cmp, r.upper, r.upperInclusive, key);
      }
    }
    SelectPrefix(cmp, r, servers[i], 0);
  }

  lemma AboveUpper<K(!new)>(cmp: (K, K) -> int, upper: K, inclusive: bool, key: K)
    requires TotalOrder(cmp) && Less(cmp, upper, key)
    ensures !AtMost(cmp, upper, inclusive, key)
  {
    assert OrderAt(cmp, upper, key, upper) && OrderAt(cmp, key, upper, key);
  }

  /** Asking only the servers between the routes of the two bounds gives the whole answer, in key order. */
  lemma {:induction false} RangeAnswers<K(!new), V>(cmp: (K, K) -> int, r: Interval<K>, servers: seq<seq<Entry<K, V>>>, seps: seq<K>, n: nat)
    requires TotalOrder(cmp) && Routed(cmp, servers, seps) && n <= |servers| == |seps| + 1
    ensures var left, right := Route(cmp, seps, r.lower), Route(cmp, seps, r.upper);
      Select(cmp, r, Flatten(servers[..n])) == Answers(cmp, r, servers, left, if n <= right then n else right + 1)
  {
    hide TotalOrder, Routed, Select;
    if n == 0 {
      SelectPrefix<K, V>(cmp, r, [], 0);
    } else {
      RangeAnswers(cmp, r, servers, seps, n - 1);
      assert servers[..n][..n - 1] == servers[..n - 1];
      SelectConcat(cmp, r, Flatten(servers[..n - 1]), servers[n - 1]);
      var left, right := Route(cmp, seps, r.lower), Route(cmp, seps, r.upper);
      if n - 1 < left || right < n - 1 {
        OutsideRange(cmp, r, servers, seps, n - 1);
      }
    }
  }

  /** Under routing the servers in order hold all records in key order. */
  lemma {:induction false} FlattenSorted<K(!new), V>(cmp: (K, K) -> int, servers: seq<seq<Entry<K, V>>>, seps: seq<K>, n: nat)
    requires TotalOrder(cmp) && Routed(cmp, servers, seps) && AllSorted(cmp, servers) && n <= |servers|
    ensures Sorted(cmp, Flatten(servers[..n]))
    ensures forall j :: 0 <= j < |Flatten(servers[..n])| ==> Route(cmp, seps, Flatten(servers[..n])[j].key) < n
  {
    hide TotalOrder, Route;
    if n > 0 {
      var a, b := Flatten(servers[..n - 1]), servers[n - 1];
      FlattenSorted(cmp, servers, seps, n - 1);
      assert servers[..n][..n - 1] == servers[..n - 1];
      forall j | 0 <= j < |b| ensures Route(cmp, seps, b[j].key) == n - 1 {
        Has(b, j);
        assert Stored(servers, b[j].key, n - 1);
      }
      forall i, j | 0 <= i < |a| && 0 <= j < |b| ensures Less(cmp, a[i].key, b[j].key) {
        if !Less(cmp, a[i].key, b[j].key) {
          RouteMonotone(cmp, seps, b[j].key, a[i].key);
        }
      }
    }
  }
}
