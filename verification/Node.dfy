/** Tree nodes and the in-place operations on their slot arrays. */
module Nodes {
  import opened Basics
  import opened Entries

  /** `s` with the element at `hi` moved down to `lo` and those between pushed up by one. */
  function RotateUp<T>(s: seq<T>, lo: nat, hi: nat): (r: seq<T>)
    requires lo <= hi < |s|
    ensures |r| == |s|
  {
    seq(|s|, k requires 0 <= k < |s| => if k == lo then s[hi] else if lo < k <= hi then s[k - 1] else s[k])
  }

  /** `s` with the element at `lo` moved up to `hi` and those between pushed down by one. */
  function RotateDown<T>(s: seq<T>, lo: nat, hi: nat): (r: seq<T>)
    requires lo <= hi < |s|
    ensures |r| == |s|
  {
    seq(|s|, k requires 0 <= k < |s| => if k == hi then s[lo] else if lo <= k < hi then s[k + 1] else s[k])
  }

  lemma IsRotatedUp<T>(s: seq<T>, r: seq<T>, lo: nat, hi: nat)
    requires lo <= hi < |s| == |r|
    requires r[lo] == s[hi]
    requires forall k :: 0 <= k < lo ==> r[k] == s[k]
    requires forall k :: hi < k < |s| ==> r[k] == s[k]
    requires forall k :: lo < k <= hi ==> r[k] == s[k - 1]
    ensures r == RotateUp(s, lo, hi)
  {
  }

  lemma IsRotatedDown<T>(s: seq<T>, r: seq<T>, lo: nat, hi: nat)
    requires lo <= hi < |s| == |r|
    requires r[hi] == s[lo]
    requires forall k :: 0 <= k < lo ==> r[k] == s[k]
    requires forall k :: hi < k < |s| ==> r[k] == s[k]
    requires forall k :: lo <= k < hi ==> r[k] == s[k + 1]
    ensures r == RotateDown(s, lo, hi)
  {
  }

  /** Rotating in front of the cut: the element displaced at the cut is the one insertion would put there. */
  lemma PlacedLeft<T>(s: seq<T>, n: nat, i: nat, cut: nat, x: T)
    requires i < cut <= n <= |s|
    ensures var ins := InsertAt(s[..n], i, x);
      RotateUp(s[cut - 1 := x], i, cut - 1)[..n] == RemoveAt(ins, cut) && ins[cut] == s[cut - 1]
  {
  }

  /** Rotating behind the cut. */
  lemma PlacedRight<T>(s: seq<T>, n: nat, i: nat, cut: nat, x: T)
    requires cut < i <= n <= |s|
    ensures var ins := InsertAt(s[..n], i, x);
      RotateDown(s[cut := x], cut, i - 1)[..n] == RemoveAt(ins, cut) && ins[cut] == s[cut]
  {
  }

  /**
   * Adjacent swaps bring slot `hi` down to `lo`. The program runs one loop over the key slots
   * and the subtree slots of a node; the two arrays are distinct, so each gets a call of its own.
   */
  method BubbleDown<T>(a: array<T>, lo: nat, hi: nat)
    requires lo <= hi < a.Length
    modifies a
    ensures a[..] == RotateUp(old(a[..]), lo, hi)
  {
    var i := hi;
    while i > lo
      invariant lo <= i <= hi
      invariant a[i] == old(a[hi])
      invariant forall k :: 0 <= k < i ==> a[k] == old(a[k])
      invariant forall k :: hi < k < a.Length ==> a[k] == old(a[k])
      invariant forall k :: i < k <= hi ==> a[k] == old(a[k - 1])
    {
      a[i], a[i - 1] := a[i - 1], a[i];
      i := i - 1;
    }
    IsRotatedUp(old(a[..]), a[..], lo, hi);
  }

  /** Adjacent swaps bring slot `lo` up to `hi`. */
  method BubbleUp<T>(a: array<T>, lo: nat, hi: nat)
    requires lo <= hi < a.Length
    modifies a
    ensures a[..] == RotateDown(old(a[..]), lo, hi)
  {
    var i := lo;
    while i < hi
      invariant lo <= i <= hi
      invariant a[i] == old(a[lo])
      invariant forall k :: 0 <= k < lo ==> a[k] == old(a[k])
      invariant forall k :: i < k < a.Length ==> a[k] == old(a[k])
      invariant forall k :: lo <= k < i ==> a[k] == old(a[k + 1])
    {
      a[i], a[i + 1] := a[i + 1], a[i];
      i := i + 1;
    }
    IsRotatedDown(old(a[..]), a[..], lo, hi);
  }

  /**
   * Exchanges the pending element for the one a full row of slots sheds at `cut`: afterwards
   * the row holds everything insertion at `i` would give except the element at `cut`.
   */
  method PlaceAround<T>(a: array<T>, n: nat, cut: nat, i: nat, x: T) returns (spare: T)
    requires i <= n <= a.Length && 0 < cut < n
    modifies a
    ensures a[..n] == RemoveAt(InsertAt(old(a[..n]), i, x), cut)
    ensures spare == InsertAt(old(a[..n]), i, x)[cut]
  {
    hide RotateUp, RotateDown;
    spare := x;
    if i < cut {
      PlacedLeft(a[..], n, i, cut, x);
      a[cut - 1], spare := spare, a[cut - 1];
      BubbleDown(a, i, cut - 1);
    } else if i > cut {
      PlacedRight(a[..], n, i, cut, x);
      a[cut], spare := spare, a[cut];
      BubbleUp(a, cut, i - 1);
    }
  }

  /** The two halves of a row left after the element at `cut` was taken out of `ins`. */
  lemma Cut<T>(row: seq<T>, n: nat, ins: seq<T>, cut: nat)
    requires cut < |ins| == n + 1 && n <= |row|
    requires row[..n] == RemoveAt(ins, cut)
    ensures row[..cut] == ins[..cut] && row[cut..n] == ins[cut + 1..]
  {
    assert row[..cut] == row[..n][..cut] && row[cut..n] == row[..n][cut..];
  }

  /** Moves `n` slots of `a` from `from` on to the slots of `b` from `to` on. */
  method MoveSlots<T>(a: array<T>, from: nat, b: array<T>, to: nat, n: nat)
    requires a != b && from + n <= a.Length && to + n <= b.Length
    modifies b
    ensures b[..] == old(b[..to]) + a[from..from + n] + old(b[to + n..])
  {
    var i := 0;
    while i < n
      invariant 0 <= i <= n
      invariant forall k :: to <= k < to + i ==> b[k] == a[from + (k - to)]
      invariant forall k :: 0 <= k < to ==> b[k] == old(b[k])
      invariant forall k :: to + i <= k < b.Length ==> b[k] == old(b[k])
    {
      b[to + i] := a[from + i];
      i := i + 1;
    }
  }

  lemma InsertedSlot<T>(s: seq<T>, n: nat, i: nat, x: T)
    requires i <= n < |s|
    ensures RotateUp(s[n := x], i, n)[..n + 1] == InsertAt(s[..n], i, x)
  {
  }

  lemma RemovedSlot<T>(s: seq<T>, n: nat, i: nat, hi: nat)
    requires i < n <= hi + 1 <= n + 1 && hi < |s|
    ensures RotateDown(s, i, hi)[..n - 1] == RemoveAt(s[..n], i)
  {
  }

  lemma PushedFront<T>(s: seq<T>, n: nat, x: T)
    requires 0 < n < |s|
    ensures RotateUp(s[n := s[n - 1]][n - 1 := x], 0, n - 1)[..n + 1] == [x] + s[..n]
  {
    var r, q := RotateUp(s[n := s[n - 1]][n - 1 := x], 0, n - 1)[..n + 1], [x] + s[..n];
    forall k | 0 <= k <= n ensures r[k] == q[k] {
      if 0 < k {
        assert q[k] == s[k - 1];
      }
    }
  }

  /** Puts `x` behind the first `n` slots and bubbles it down to `i`. */
  method InsertSlot<T>(a: array<T>, n: nat, i: nat, x: T)
    requires i <= n < a.Length
    modifies a
    ensures a[..n + 1] == InsertAt(old(a[..n]), i, x)
  {
    hide RotateUp, InsertAt;
    InsertedSlot(a[..], n, i, x);
    a[n] := x;
    BubbleDown(a, i, n);
  }

  /** Bubbles slot `i` up to `hi`, the last of the first `n` slots or the one after it. */
  method RemoveSlot<T>(a: array<T>, n: nat, i: nat, hi: nat)
    requires i < n <= hi + 1 <= n + 1 && hi < a.Length
    modifies a
    ensures a[..n - 1] == RemoveAt(old(a[..n]), i)
  {
    hide RotateDown, RemoveAt;
    RemovedSlot(a[..], n, i, hi);
    BubbleUp(a, i, hi);
  }

  /** Puts `x` before the last of the first `n` slots and bubbles it down to the front. */
  method PushFrontSlot<T>(a: array<T>, n: nat, x: T)
    requires 0 < n < a.Length
    modifies a
    ensures a[..n + 1] == [x] + old(a[..n])
  {
    hide RotateUp;
    PushedFront(a[..], n, x);
    a[n] := a[n - 1];
    a[n - 1] := x;
    BubbleDown(a, 0, n - 1);
  }

  /** Copies each of the slots `1..n` one position down. */
  method ShiftDown<T>(a: array<T>, n: nat)
    requires n < a.Length
    modifies a
    ensures a[..n] == old(a[1..n + 1])
  {
    var i := 0;
    while i < n
      invariant 0 <= i <= n
      invariant forall k :: 0 <= k < i ==> a[k] == old(a[k + 1])
      invariant forall k :: i <= k < a.Length ==> a[k] == old(a[k])
    {
      a[i] := a[i + 1];
      i := i + 1;
    }
  }

  /** One row of a split: `a` keeps the slots before the cut, `b` receives those after it from `to` on. */
  method SplitRow<T>(a: array<T>, n: nat, cut: nat, i: nat, x: T, b: array<T>, to: nat) returns (spare: T)
    requires i <= n <= a.Length && 0 < cut < n && a != b && to + (n - cut) <= b.Length
    modifies a, b
    ensures var ins := InsertAt(old(a[..n]), i, x);
      a[..cut] == ins[..cut] && spare == ins[cut] && b[to..to + (n - cut)] == ins[cut + 1..]
  {
    spare := PlaceAround(a, n, cut, i, x);
    Cut(a[..], n, InsertAt(old(a[..n]), i, x), cut);
    MoveSlots(a, cut, b, to, n - cut);
  }

  /** Like `SplitRow`, but the slot at the cut goes with the slots after it. */
  method SplitRowKeeping<T>(a: array<T>, n: nat, cut: nat, i: nat, x: T, b: array<T>)
    requires i <= n <= a.Length && 0 < cut < n && a != b && 1 + (n - cut) <= b.Length
    modifies a, b
    ensures var ins := InsertAt(old(a[..n]), i, x);
      a[..cut] == ins[..cut] && b[..1 + (n - cut)] == ins[cut..]
  {
    b[0] := SplitRow(a, n, cut, i, x, b, 1);
    assert b[..1 + (n - cut)] == [b[0]] + b[1..1 + (n - cut)];
  }

  /**
   * A node owns two fixed-size slot arrays; only the first `size` keys and the first
   * `size + 1` subtrees are live. Each array has one slot more than the program allocates:
   * merging shifts one position past the live prefix, and a full parent has none to spare
   * (`ShiftOut` is that shift on the arrays as they are allocated).
   */
  class Node<K(0, !new), V(0)> {
    const keys: array<Entry<K, V>>
    const subtrees: array<Node?<K, V>>
    var size: nat

    ghost predicate Fits()
      reads this
    {
      size < keys.Length && size + 1 < subtrees.Length
    }

    ghost function Keys(): seq<Entry<K, V>>
      requires Fits()
      reads this, keys
    {
      keys[..size]
    }

    ghost function Kids(): seq<Node?<K, V>>
      requires Fits()
      reads this, subtrees
    {
      subtrees[..size + 1]
    }

    ghost predicate Blank()
      reads subtrees
    {
      forall i :: 0 <= i < subtrees.Length ==> subtrees[i] == null
    }

    constructor (t: nat)
      requires t > 0
      ensures fresh(keys) && fresh(subtrees)
      ensures keys.Length == 2 * t && subtrees.Length == 2 * t + 1
      ensures size == 0 && Blank()
    {
      keys := new Entry<K, V>[2 * t];
      subtrees := new Node?<K, V>[2 * t + 1](_ => null);
      size := 0;
    }

    /** Binary search among the live keys; a negative result encodes the insertion point. */
    method FindPath(cmp: (K, K) -> int, key: K) returns (r: int)
      requires TotalOrder(cmp)
      requires Fits() && size > 0 && Sorted(cmp, Keys())
      ensures 0 <= r ==> r < size && Keys()[r].key == key
      ensures r < 0 ==> var p := -r - 1; p <= size && AllBelow(cmp, Keys()[..p], key) && AllAbove(cmp, Keys()[p..], key)
    {
      var left, right := 0, size - 1;
      while true
        invariant 0 <= left <= right < size
        invariant left > 0 ==> Less(cmp, keys[left - 1].key, key)
        invariant right + 1 < size ==> Less(cmp, key, keys[right].key)
        decreases right - left
      {
        var index := (left + right) / 2;
        var c := Compare(cmp, key, keys[index].key);
        assert OrderAt(cmp, key, keys[index].key, key) && OrderAt(cmp, keys[index].key, key, key);
        if c == 0 {
          return index;
        }
        if left == right {
          ghost var p := index + (if c < 0 then 0 else 1);
          assert c > 0 ==> index + 1 == size;
          PrefixBelow(cmp, Keys(), p, key);
          SuffixAbove(cmp, Keys(), p, key);
          return -(index + (if c < 0 then 0 else 1) + 1);
        }
        if c < 0 {
          right := index;
        } else {
          left := index + 1;
        }
      }
    }

    /** Inserts an entry at `index` and a subtree to its right, bubbling both down from the end. */
    method Insert(e: Entry<K, V>, index: nat, right: Node?<K, V>)
      requires Fits() && index <= size && size + 1 < keys.Length && size + 2 < subtrees.Length
      modifies this, keys, subtrees
      ensures Fits() && size == old(size) + 1
      ensures Keys() == InsertAt(old(Keys()), index, e)
      ensures Kids() == InsertAt(old(Kids()), index + 1, right)
    {
      hide RotateUp, InsertAt;
      InsertSlot(keys, size, index, e);
      InsertSlot(subtrees, size + 1, index + 1, right);
      size := size + 1;
    }

    /**
     * Splits a full node around the pending entry without ever holding the overfull node:
     * the outcome is that of inserting first and cutting the 2t keys into t, a median and t - 1.
     */
    method Split(ghost t: nat, e: Entry<K, V>, index: nat, right: Node?<K, V>)
      returns (sibling: Node<K, V>, median: Entry<K, V>)
      requires Fits() && index <= size == 2 * t - 1 && t > 1
      modifies this, keys, subtrees
      ensures Fits() && fresh(sibling) && fresh(sibling.keys) && fresh(sibling.subtrees)
      ensures sibling.keys.Length == t * 2 && sibling.subtrees.Length == t * 2 + 1 && sibling.Fits()
      ensures var ks := InsertAt(old(Keys()), index, e);
        Keys() == ks[..t] && median == ks[t] && sibling.Keys() == ks[t + 1..]
      ensures var ns := InsertAt(old(Kids()), index + 1, right);
        Kids() == ns[..t + 1] && sibling.Kids() == ns[t + 1..]
    {
      hide InsertAt, Blank;
      var half := (size + 1) / 2;
      sibling := new Node(half);
      median := SplitRow(keys, size, half, index, e, sibling.keys, 0);
      SplitRowKeeping(subtrees, size + 1, half + 1, index + 1, right, sibling.subtrees);
      ghost var ks, ns := InsertAt(old(Keys()), index, e), InsertAt(old(Kids()), index + 1, right);
      assert keys[..half] == ks[..half] && sibling.keys[..half - 1] == ks[half + 1..];
      assert subtrees[..half + 1] == ns[..half + 1] && sibling.subtrees[..half] == ns[half + 1..];
      sibling.size := half - 1;
      size := half;
    }

    /** Removes the key at `index` by swapping it up to the end; the last subtree goes with it. */
    method RemoveKey(index: nat)
      requires Fits() && index < size
      modifies this, keys
      ensures Fits() && size == old(size) - 1
      ensures Keys() == RemoveAt(old(Keys()), index)
      ensures Kids() == old(Kids())[..size + 1]
    {
      RemoveSlot(keys, size, index, size - 1);
      size := size - 1;
    }

    /** Removes a key and the subtree right of it; the swaps run one slot past the live prefix. */
    method Detach(index: nat)
      requires Fits() && index < size
      modifies this, keys, subtrees
      requires size + 2 <= subtrees.Length
      ensures Fits() && size == old(size) - 1
      ensures Keys() == RemoveAt(old(Keys()), index)
      ensures Kids() == RemoveAt(old(Kids()), index + 1)
    {
      hide RemoveAt;
      RemoveSlot(keys, size, index, size);
      RemoveSlot(subtrees, size + 1, index + 1, size + 1);
      size := size - 1;
    }

    /** Appends a separator and everything a right sibling holds. */
    method Absorb(e: Entry<K, V>, right: Node<K, V>)
      requires Fits() && right.Fits() && right != this && right.keys != keys && right.subtrees != subtrees
      requires size + 1 + right.size < keys.Length && size + right.size + 2 < subtrees.Length
      modifies this, keys, subtrees
      ensures Fits() && size == old(size) + 1 + right.size
      ensures Keys() == old(Keys()) + [e] + right.Keys()
      ensures Kids() == old(Kids()) + right.Kids()
    {
      keys[size] := e;
      MoveSlots(right.keys, 0, keys, size + 1, right.size);
      MoveSlots(right.subtrees, 0, subtrees, size + 1, right.size + 1);
      size := size + 1 + right.size;
    }

    /** Puts an entry and a subtree in front of everything the node holds. */
    method PushFront(e: Entry<K, V>, child: Node?<K, V>)
      requires Fits() && size + 1 < keys.Length && size + 2 < subtrees.Length
      modifies this, keys, subtrees
      ensures Fits() && size == old(size) + 1
      ensures Keys() == [e] + old(Keys())
      ensures Kids() == [child] + old(Kids())
    {
      InsertSlot(keys, size, 0, e);
      PushFrontSlot(subtrees, size + 1, child);
      size := size + 1;
    }

    method PopBack()
      requires Fits() && size > 0
      modifies this
      ensures Fits() && size == old(size) - 1
      ensures Keys() == old(Keys())[..size]
      ensures Kids() == old(Kids())[..size + 1]
    {
      size := size - 1;
    }

    method PushBack(e: Entry<K, V>, child: Node?<K, V>)
      requires Fits() && size + 1 < keys.Length && size + 2 < subtrees.Length
      modifies this, keys, subtrees
      ensures Fits() && size == old(size) + 1
      ensures Keys() == old(Keys()) + [e]
      ensures Kids() == old(Kids()) + [child]
    {
      keys[size] := e;
      size := size + 1;
      subtrees[size] := child;
    }

    /** Drops the first key and the first subtree, shifting the rest down. */
    method PopFront()
      requires Fits() && size > 0
      modifies this, keys, subtrees
      ensures Fits() && size == old(size) - 1
      ensures Keys() == old(Keys())[1..]
      ensures Kids() == old(Kids())[1..]
    {
      RemoveSlot(keys, size, 0, size - 1);
      ShiftDown(subtrees, size);
      size := size - 1;
    }
  }

  /** Exchanges a key of one node with a key of another. */
  method SwapKeys<K(0, !new), V(0)>(p: Node<K, V>, i: nat, q: Node<K, V>, j: nat)
    requires p.Fits() && q.Fits() && i < p.size && j < q.size && p.keys != q.keys
    modifies p.keys, q.keys
    ensures p.Keys() == old(p.Keys()[i := q.Keys()[j]])
    ensures q.Keys() == old(q.Keys()[j := p.Keys()[i]])
  {
    p.keys[i], q.keys[j] := q.keys[j], p.keys[i];
  }

  /** No two of the nodes are the same or share an array. */
  ghost predicate Apart<K(0, !new), V(0)>(p: Node<K, V>, q: Node<K, V>) {
    p != q && p.keys != q.keys && p.subtrees != q.subtrees
  }

  /** The last key of `from` replaces key `i` of the parent, which goes in front of `to`. */
  method PassRight<K(0, !new), V(0)>(parent: Node<K, V>, i: nat, from: Node<K, V>, to: Node<K, V>)
    requires Apart(parent, from) && Apart(parent, to) && Apart(from, to)
    requires parent.Fits() && from.Fits() && to.Fits() && i < parent.size && from.size > 0
    requires to.size + 1 < to.keys.Length && to.size + 2 < to.subtrees.Length
    modifies parent.keys, from, from.keys, to, to.keys, to.subtrees
    ensures parent.Fits() && from.Fits() && to.Fits()
    ensures parent.Keys() == old(parent.Keys()[i := from.Keys()[from.size - 1]]) && parent.Kids() == old(parent.Kids())
    ensures from.Keys() == old(from.Keys()[..from.size - 1]) && from.Kids() == old(from.Kids()[..from.size])
    ensures to.Keys() == [old(parent.Keys()[i])] + old(to.Keys())
    ensures to.Kids() == [old(from.Kids()[from.size])] + old(to.Kids())
  {
    SwapKeys(parent, i, from, from.size - 1);
    to.PushFront(from.keys[from.size - 1], from.subtrees[from.size]);
    from.PopBack();
  }

  /** The first key of `from` replaces key `i` of the parent, which goes behind `to`. */
  method PassLeft<K(0, !new), V(0)>(parent: Node<K, V>, i: nat, from: Node<K, V>, to: Node<K, V>)
    requires Apart(parent, from) && Apart(parent, to) && Apart(from, to)
    requires parent.Fits() && from.Fits() && to.Fits() && i < parent.size && from.size > 0
    requires to.size + 1 < to.keys.Length && to.size + 2 < to.subtrees.Length
    modifies parent.keys, from, from.keys, from.subtrees, to, to.keys, to.subtrees
    ensures parent.Fits() && from.Fits() && to.Fits()
    ensures parent.Keys() == old(parent.Keys()[i := from.Keys()[0]]) && parent.Kids() == old(parent.Kids())
    ensures from.Keys() == old(from.Keys()[1..]) && from.Kids() == old(from.Kids()[1..])
    ensures to.Keys() == old(to.Keys()) + [old(parent.Keys()[i])]
    ensures to.Kids() == old(to.Kids()) + [old(from.Kids()[0])]
  {
    ghost var rest, x := from.Keys()[1..], parent.Keys()[i];
    SwapKeys(parent, i, from, 0);
    assert from.Keys()[1..] == rest && from.keys[0] == from.Keys()[0] == x;
    to.PushBack(from.keys[0], from.subtrees[0]);
    from.PopFront();
  }

  lemma RotateNone<T>(s: seq<T>, lo: nat)
    requires lo < |s|
    ensures RotateDown(s, lo, lo) == s
  {
  }

  /** One more swap moves the element one slot further. */
  lemma RotateMore<T>(s: seq<T>, lo: nat, hi: nat)
    requires lo <= hi && hi + 1 < |s|
    ensures var r := RotateDown(s, lo, hi); RotateDown(s, lo, hi + 1) == r[hi := r[hi + 1]][hi + 1 := r[hi]]
  {
  }

  /**
   * The shift of a merge on slot arrays of just the lengths the program allocates, each access
   * checked. Its last step swaps with the slots behind the live ones, so a parent without a
   * free slot is the one case in which it leaves the arrays.
   */
  method ShiftOut<K(0, !new), V(0)>(keys: array<Entry<K, V>>, subtrees: array<Node?<K, V>>, size: nat, index: nat) returns (inside: bool)
    requires index < size <= keys.Length && subtrees.Length == keys.Length + 1
    modifies keys, subtrees
    ensures inside <==> size < keys.Length
    ensures inside ==> keys[..] == RotateDown(old(keys[..]), index, size)
    ensures inside ==> subtrees[..] == RotateDown(old(subtrees[..]), index + 1, size + 1)
    ensures inside ==> keys[..size - 1] == RemoveAt(old(keys[..size]), index)
    ensures inside ==> subtrees[..size] == RemoveAt(old(subtrees[..size + 1]), index + 1)
  {
    hide RotateDown, RemoveAt;
    ghost var ks, ns := keys[..], subtrees[..];
    var i := index;
    RotateNone(ks, index);
    RotateNone(ns, index + 1);
    while i < size
      invariant index <= i <= size && (i < size || i < keys.Length)
      invariant keys[..] == RotateDown(ks, index, i) && subtrees[..] == RotateDown(ns, index + 1, i + 1)
    {
      if i + 1 >= keys.Length || i + 2 >= subtrees.Length {
        return false;
      }
      RotateMore(ks, index, i);
      RotateMore(ns, index + 1, i + 1);
      keys[i], keys[i + 1] := keys[i + 1], keys[i];
      subtrees[i + 1], subtrees[i + 2] := subtrees[i + 2], subtrees[i + 1];
      i := i + 1;
    }
    RemovedSlot(ks, size, index, size);
    RemovedSlot(ns, size + 1, index + 1, size + 1);
    return true;
  }

  /**
   * Merges subtree `i + 1` and key `i` of the parent into subtree `i`; refuses an index
   * without a key. The emptied node is dropped.
   */
  method MergeSubtrees<K(0, !new), V(0)>(parent: Node<K, V>, i: nat) returns (ok: bool)
    requires parent.Fits() && parent.size + 2 <= parent.subtrees.Length
    requires i < parent.size ==> Mergeable(parent, parent.subtrees[i], parent.subtrees[i + 1])
    modifies parent, parent.keys, parent.subtrees
    modifies if parent.Fits() && i < parent.size && parent.subtrees[i] != null
             then {parent.subtrees[i], parent.subtrees[i].keys, parent.subtrees[i].subtrees} else {}
    ensures ok == (i < old(parent.size)) && parent.Fits()
    ensures !ok ==> parent.Keys() == old(parent.Keys()) && parent.Kids() == old(parent.Kids())
    ensures ok ==> parent.Keys() == RemoveAt(old(parent.Keys()), i) && parent.Kids() == RemoveAt(old(parent.Kids()), i + 1)
    ensures ok ==> var left, right := old(parent.subtrees[i]), old(parent.subtrees[i + 1]);
      && left.Fits()
      && left.Keys() == old(left.Keys()) + [old(parent.keys[i])] + old(right.Keys())
      && left.Kids() == old(left.Kids()) + old(right.Kids())
  {
    if i >= parent.size {
      return false;
    }
    var left, right, e := parent.subtrees[i], parent.subtrees[i + 1], parent.keys[i];
    parent.Detach(i);
    left.Absorb(e, right);
    return true;
  }

  ghost predicate Mergeable<K(0, !new), V(0)>(parent: Node<K, V>, left: Node?<K, V>, right: Node?<K, V>)
    reads left, right
  {
    && left != null && right != null && left.Fits() && right.Fits()
    && Apart(parent, left) && Apart(parent, right) && Apart(left, right)
    && left.size + 1 + right.size < left.keys.Length && left.size + right.size + 2 < left.subtrees.Length
  }
}