/** Keys, values and the comparer a search tree is built with. */
module Entries {
  import opened Basics

  /** One stored pair. */
  datatype Entry<K, V> = Entry(key: K, value: V)

  datatype Option<T> = None | Some(value: T)

  /** How an insertion or update ends: the exceptions of the container are the last two cases. */
  datatype Outcome = Done | KeyExists | KeyMissing

  /** The result of the comparer on two keys: negative, zero or positive. */
  function Compare<K>(cmp: (K, K) -> int, a: K, b: K): int {
    cmp(a, b)
  }

  ghost predicate Less<K>(cmp: (K, K) -> int, a: K, b: K) {
    Compare(cmp, a, b) < 0
  }

  /** The comparer is transitive at three keys, and antisymmetric at the first two. */
  ghost predicate OrderAt<K>(cmp: (K, K) -> int, a: K, b: K, c: K) {
    && (Compare(cmp, a, b) == 0 <==> a == b)
    && (Compare(cmp, a, b) < 0 <==> Compare(cmp, b, a) > 0)
    && (Less(cmp, a, b) && Less(cmp, b, c) ==> Less(cmp, a, c))
  }

  /** What the tree asks of its comparer: a strict total order on the keys. */
  ghost predicate TotalOrder<K(!new)>(cmp: (K, K) -> int) {
    forall a, b, c :: OrderAt(cmp, a, b, c)
  }

  lemma SameKey<K(!new)>(cmp: (K, K) -> int, a: K, b: K)
    requires TotalOrder(cmp)
    ensures Compare(cmp, a, b) == 0 <==> a == b
  {
    assert OrderAt(cmp, a, b, a);
  }

  ghost predicate Sorted<K, V>(cmp: (K, K) -> int, s: seq<Entry<K, V>>) {
    forall i, j :: 0 <= i < j < |s| ==> Less(cmp, s[i].key, s[j].key)
  }

  /** Every key of `s` lies strictly below `key`. */
  ghost predicate AllBelow<K, V>(cmp: (K, K) -> int, s: seq<Entry<K, V>>, key: K) {
    forall i :: 0 <= i < |s| ==> Less(cmp, s[i].key, key)
  }

  /** Every key of `s` lies strictly above `key`. */
  ghost predicate AllAbove<K, V>(cmp: (K, K) -> int, s: seq<Entry<K, V>>, key: K) {
    forall i :: 0 <= i < |s| ==> Less(cmp, key, s[i].key)
  }

  lemma PrefixBelow<K(!new), V>(cmp: (K, K) -> int, s: seq<Entry<K, V>>, n: nat, key: K)
    requires TotalOrder(cmp) && Sorted(cmp, s) && n <= |s|
    requires n > 0 ==> Less(cmp, s[n - 1].key, key)
    ensures AllBelow(cmp, s[..n], key)
  {
    forall i | 0 <= i < n ensures Less(cmp, s[i].key, key) {
      assert OrderAt(cmp, s[i].key, s[n - 1].key, key);
    }
  }

  lemma SuffixAbove<K(!new), V>(cmp: (K, K) -> int, s: seq<Entry<K, V>>, n: nat, key: K)
    requires TotalOrder(cmp) && Sorted(cmp, s) && n <= |s|
    requires n < |s| ==> Less(cmp, key, s[n].key)
    ensures AllAbove(cmp, s[n..], key)
  {
    forall i | n <= i < |s| ensures Less(cmp, key, s[i].key) {
      assert OrderAt(cmp, key, s[n].key, s[i].key);
    }
  }

  /** The finite map a sequence of pairs denotes, later pairs winning. */
  ghost function AsMap<K, V>(s: seq<Entry<K, V>>): map<K, V> {
    if s == [] then map[] else AsMap(s[..|s| - 1])[s[|s| - 1].key := s[|s| - 1].value]
  }

  ghost predicate HasKey<K, V>(s: seq<Entry<K, V>>, key: K) {
    exists i :: 0 <= i < |s| && s[i].key == key
  }

  ghost predicate DistinctKeys<K, V>(s: seq<Entry<K, V>>) {
    forall i, j :: 0 <= i < j < |s| ==> s[i].key != s[j].key
  }

  lemma SortedDistinct<K(!new), V>(cmp: (K, K) -> int, s: seq<Entry<K, V>>)
    requires TotalOrder(cmp) && Sorted(cmp, s)
    ensures DistinctKeys(s)
  {
    forall i, j | 0 <= i < j < |s| ensures s[i].key != s[j].key {
      assert Less(cmp, s[i].key, s[j].key);
      assert OrderAt(cmp, s[i].key, s[j].key, s[j].key);
    }
  }

  lemma {:induction false} AsMapDomain<K, V>(s: seq<Entry<K, V>>, k: K)
    ensures k in AsMap(s) <==> HasKey(s, k)
  {
    if s != [] {
      var n := |s| - 1;
      AsMapDomain(s[..n], k);
      if HasKey(s[..n], k) {
        var i :| 0 <= i < n && s[..n][i].key == k;
        assert s[i].key == k;
      }
      if HasKey(s, k) && k != s[n].key {
        var i :| 0 <= i < |s| && s[i].key == k;
        assert s[..n][i].key == k;
      }
    }
  }

  lemma {:induction false} AsMapConcat<K, V>(s: seq<Entry<K, V>>, r: seq<Entry<K, V>>)
    ensures AsMap(s + r) == AsMap(s) + AsMap(r)
  {
    if r == [] {
      assert s + r == s;
    } else {
      AsMapConcat(s, r[..|r| - 1]);
      assert (s + r)[..|s + r| - 1] == s + r[..|r| - 1];
    }
  }

  /** The map of a sequence around one of its pairs. */
  lemma AsMapAround<K, V>(s: seq<Entry<K, V>>, p: nat, e: Entry<K, V>)
    requires p <= |s|
    ensures AsMap(InsertAt(s, p, e)) == AsMap(s[..p])[e.key := e.value] + AsMap(s[p..])
    ensures AsMap(s) == AsMap(s[..p]) + AsMap(s[p..])
  {
    AsMapConcat(s[..p], s[p..]);
    AsMapConcat(s[..p] + [e], s[p..]);
    assert s == s[..p] + s[p..];
    assert (s[..p] + [e])[..p] == s[..p];
  }

  lemma AsMapInsert<K, V>(s: seq<Entry<K, V>>, p: nat, e: Entry<K, V>)
    requires p <= |s| && !HasKey(s, e.key)
    ensures AsMap(InsertAt(s, p, e)) == AsMap(s)[e.key := e.value]
  {
    AsMapAround(s, p, e);
    AsMapDomain(s, e.key);
  }

  lemma RemovedKey<K, V>(s: seq<Entry<K, V>>, p: nat)
    requires p < |s| && DistinctKeys(s)
    ensures !HasKey(RemoveAt(s, p), s[p].key) && s == InsertAt(RemoveAt(s, p), p, s[p])
  {
    var r := RemoveAt(s, p);
    forall i | 0 <= i < |r| ensures r[i].key != s[p].key {
      assert r[i] == s[if i < p then i else i + 1];
    }
  }

  lemma AsMapRemove<K, V>(s: seq<Entry<K, V>>, p: nat)
    requires p < |s| && DistinctKeys(s)
    ensures AsMap(RemoveAt(s, p)) == AsMap(s) - {s[p].key}
    ensures !HasKey(RemoveAt(s, p), s[p].key)
  {
    hide AsMap, HasKey, DistinctKeys, RemoveAt, InsertAt;
    var r := RemoveAt(s, p);
    RemovedKey(s, p);
    AsMapInsert(r, p, s[p]);
    AsMapDomain(r, s[p].key);
  }

  lemma AsMapUpdate<K, V>(s: seq<Entry<K, V>>, p: nat, v: V)
    requires p < |s| && DistinctKeys(s)
    ensures AsMap(s[p := Entry(s[p].key, v)]) == AsMap(s)[s[p].key := v]
  {
    var r, e := RemoveAt(s, p), Entry(s[p].key, v);
    AsMapRemove(s, p);
    AsMapInsert(r, p, e);
    AsMapInsert(r, p, s[p]);
    assert s == InsertAt(r, p, s[p]) && s[p := e] == InsertAt(r, p, e);
  }

  lemma AsMapLookup<K, V>(s: seq<Entry<K, V>>, i: nat)
    requires DistinctKeys(s) && i < |s|
    ensures s[i].key in AsMap(s) && AsMap(s)[s[i].key] == s[i].value
  {
    AsMapUpdate(s, i, s[i].value);
    assert s[i := Entry(s[i].key, s[i].value)] == s;
  }

  /** Inserting between the smaller and the greater keys keeps the order. */
  lemma InsertSorted<K(!new), V>(cmp: (K, K) -> int, s: seq<Entry<K, V>>, p: nat, e: Entry<K, V>)
    requires TotalOrder(cmp) && p <= |s| && Sorted(cmp, s)
    requires AllBelow(cmp, s[..p], e.key) && AllAbove(cmp, s[p..], e.key)
    ensures Sorted(cmp, InsertAt(s, p, e)) && !HasKey(s, e.key)
  {
    forall i | 0 <= i < |s| ensures s[i].key != e.key {
      assert OrderAt(cmp, s[i].key, e.key, e.key) && OrderAt(cmp, e.key, s[i].key, e.key);
      if i < p {
        assert s[..p][i] == s[i];
      } else {
        assert s[p..][i - p] == s[i];
      }
    }
    forall i | 0 <= i < p ensures Less(cmp, s[i].key, e.key) { assert s[..p][i] == s[i]; }
    forall i | p <= i < |s| ensures Less(cmp, e.key, s[i].key) { assert s[p..][i - p] == s[i]; }
  }

  /** The slot of a key in a sorted sequence. */
  function Slot<K, V>(cmp: (K, K) -> int, s: seq<Entry<K, V>>, key: K): (p: nat)
    ensures p <= |s|
  {
    if |s| == 0 || Compare(cmp, s[0].key, key) >= 0 then 0 else 1 + Slot(cmp, s[1..], key)
  }

  function Put<K, V>(cmp: (K, K) -> int, s: seq<Entry<K, V>>, e: Entry<K, V>): seq<Entry<K, V>> {
    InsertAt(s, Slot(cmp, s, e.key), e)
  }

  lemma {:induction false} SlotSplits<K(!new), V>(cmp: (K, K) -> int, s: seq<Entry<K, V>>, key: K)
    requires TotalOrder(cmp) && Sorted(cmp, s) && !HasKey(s, key)
    ensures AllBelow(cmp, s[..Slot(cmp, s, key)], key) && AllAbove(cmp, s[Slot(cmp, s, key)..], key)
  {
    if s != [] {
      var p := Slot(cmp, s, key);
      assert OrderAt(cmp, s[0].key, key, key) && OrderAt(cmp, key, s[0].key, key);
      if Less(cmp, s[0].key, key) {
        forall i | 0 <= i < |s[1..]| ensures s[1..][i].key != key { assert s[i + 1].key != key; }
        SlotSplits(cmp, s[1..], key);
        assert s[..p] == [s[0]] + s[1..][..p - 1] && s[p..] == s[1..][p - 1..];
      } else {
        SuffixAbove(cmp, s, 0, key);
      }
    }
  }

  /** The slot is where the smaller keys end. */
  lemma {:induction false} SlotIs<K(!new), V>(cmp: (K, K) -> int, s: seq<Entry<K, V>>, key: K, p: nat)
    requires TotalOrder(cmp) && p <= |s| && AllBelow(cmp, s[..p], key)
    requires p < |s| ==> s[p].key == key || Less(cmp, key, s[p].key)
    ensures Slot(cmp, s, key) == p
  {
    if p > 0 {
      assert s[..p][0] == s[0] && s[1..][..p - 1] == s[..p][1..];
      SlotIs(cmp, s[1..], key, p - 1);
    } else if s != [] {
      assert OrderAt(cmp, s[0].key, key, key) && OrderAt(cmp, key, s[0].key, key);
    }
  }

  /** Sorted sequences with the same map start with the same key. */
  lemma FirstSame<K(!new), V>(cmp: (K, K) -> int, s: seq<Entry<K, V>>, r: seq<Entry<K, V>>)
    requires TotalOrder(cmp) && Sorted(cmp, s) && Sorted(cmp, r) && s != [] && r != []
    requires HasKey(s, r[0].key) && HasKey(r, s[0].key)
    ensures s[0].key == r[0].key
  {
    var j :| 0 <= j < |r| && r[j].key == s[0].key;
    var i :| 0 <= i < |s| && s[i].key == r[0].key;
    var x, y := s[0].key, r[0].key;
    assert i > 0 ==> Less(cmp, x, y);
    assert j > 0 ==> Less(cmp, y, x);
    assert OrderAt(cmp, x, y, x) && OrderAt(cmp, y, x, x);
  }

  lemma FirstHas<K, V>(s: seq<Entry<K, V>>, r: seq<Entry<K, V>>)
    requires s != [] && AsMap(s) == AsMap(r)
    ensures HasKey(r, s[0].key)
  {
    AsMapDomain(s, s[0].key);
    AsMapDomain(r, s[0].key);
    assert s[0].key == s[0].key && HasKey(s, s[0].key);
  }

  lemma RestSorted<K, V>(cmp: (K, K) -> int, s: seq<Entry<K, V>>)
    requires Sorted(cmp, s) && s != []
    ensures Sorted(cmp, RemoveAt(s, 0)) && s == [s[0]] + RemoveAt(s, 0)
  {
  }

  /** A sorted sequence of pairs is determined by the map it denotes. */
  lemma {:induction false} SortedUnique<K(!new), V>(cmp: (K, K) -> int, s: seq<Entry<K, V>>, r: seq<Entry<K, V>>)
    requires TotalOrder(cmp) && Sorted(cmp, s) && Sorted(cmp, r) && AsMap(s) == AsMap(r)
    ensures s == r
    decreases |s|
  {
    hide TotalOrder, Sorted, AsMap, HasKey, DistinctKeys, RemoveAt;
    if s != [] {
      FirstHas(s, r);
    }
    if r != [] {
      FirstHas(r, s);
    }
    if s != [] && r != [] {
      FirstSame(cmp, s, r);
      SortedDistinct(cmp, s);
      SortedDistinct(cmp, r);
      AsMapLookup(s, 0);
      AsMapLookup(r, 0);
      AsMapRemove(s, 0);
      AsMapRemove(r, 0);
      RestSorted(cmp, s);
      RestSorted(cmp, r);
      SortedUnique(cmp, RemoveAt(s, 0), RemoveAt(r, 0));
    } else {
      NoKeys<K, V>();
    }
  }

  lemma NoKeys<K(!new), V>()
    ensures forall key :: !HasKey<K, V>([], key)
  {
  }
}
