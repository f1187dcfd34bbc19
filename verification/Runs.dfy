/** Whole runs of tree operations against a finite map. */
module Runs {
  import opened Entries
  import opened Shapes
  import opened BTrees

  datatype Request<K, V> = Insert(entry: Entry<K, V>) | Update(entry: Entry<K, V>) | Obtain(key: K) | Dispose(key: K)

  datatype Answer<V> = Ended(outcome: Outcome) | Value(value: Option<V>)

  ghost function Lookup<K, V>(m: map<K, V>, key: K): Option<V> {
    if key in m then Some(m[key]) else None
  }

  /** The map after one request: rejected requests leave it alone. */
  ghost function Apply<K, V>(m: map<K, V>, q: Request<K, V>): map<K, V> {
    match q
    case Insert(e) => if e.key in m then m else m[e.key := e.value]
    case Update(e) => if e.key in m then m[e.key := e.value] else m
    case Obtain(_) => m
    case Dispose(key) => m - {key}
  }

  ghost function Reply<K, V>(m: map<K, V>, q: Request<K, V>): Answer<V> {
    match q
    case Insert(e) => Ended(if e.key in m then KeyExists else Done)
    case Update(e) => Ended(if e.key in m then Done else KeyMissing)
    case Obtain(key) => Value(Lookup(m, key))
    case Dispose(key) => Value(Lookup(m, key))
  }

  ghost function ApplyAll<K, V>(m: map<K, V>, qs: seq<Request<K, V>>): map<K, V> {
    if qs == [] then m else Apply(ApplyAll(m, qs[..|qs| - 1]), qs[|qs| - 1])
  }

  ghost function ReplyAll<K, V>(m: map<K, V>, qs: seq<Request<K, V>>): seq<Answer<V>> {
    if qs == [] then [] else ReplyAll(m, qs[..|qs| - 1]) + [Reply(ApplyAll(m, qs[..|qs| - 1]), qs[|qs| - 1])]
  }

  /** One request: the tree answers as the map does. */
  method Serve<K(0, !new), V(0)>(tree: BTree<K, V>, q: Request<K, V>) returns (a: Answer<V>, ghost added: set<object>)
    requires tree.Valid()
    modifies tree, Objs(tree.shape)
    ensures tree.Valid() && fresh(added) && Objs(tree.shape) <= old(Objs(tree.shape)) + added
    ensures tree.Map() == Apply(old(tree.Map()), q) && a == Reply(old(tree.Map()), q)
  {
    hide Objs, Flat, AsMap, Rep, Sep, Balanced, Sorted, TotalOrder;
    match q {
      case Insert(e) =>
        var outcome := tree.InsertInner(e, false);
        a := Ended(outcome);
      case Update(e) =>
        var outcome := tree.InsertInner(e, true);
        a := Ended(outcome);
      case Obtain(key) =>
        Allocated(tree.shape);
        var found := tree.Obtain(key);
        a := Value(found);
      case Dispose(key) =>
        var found, _ := tree.Dispose(key);
        a := Value(found);
    }
    added := Objs(tree.shape) - old(Objs(tree.shape));
  }

  /** Any run of requests: every answer and the final contents are those of a finite map. */
  method ServeAll<K(0, !new), V(0)>(tree: BTree<K, V>, qs: seq<Request<K, V>>) returns (answers: seq<Answer<V>>)
    requires tree.Valid()
    modifies tree, Objs(tree.shape)
    ensures tree.Valid() && fresh(Objs(tree.shape) - old(Objs(tree.shape)))
    ensures tree.Map() == ApplyAll(old(tree.Map()), qs) && answers == ReplyAll(old(tree.Map()), qs)
  {
    hide Objs, Flat, AsMap, Rep, Sep, Balanced, Sorted, TotalOrder, Apply, Reply;
    answers := [];
    var i := 0;
    ghost var start, first, added := tree.Map(), Objs(tree.shape), {};
    while i < |qs|
      invariant 0 <= i <= |qs| && tree.Valid() && fresh(added) && Objs(tree.shape) <= first + added
      invariant tree.Map() == ApplyAll(start, qs[..i]) && answers == ReplyAll(start, qs[..i])
    {
      assert qs[..i + 1][..i] == qs[..i];
      ghost var more;
      var a;
      a, more := Serve(tree, qs[i]);
      added := added + more;
      assert fresh(added);
      answers := answers + [a];
      i := i + 1;
    }
    assert qs[..|qs|] == qs;
  }

  /** A run on a copy leaves the original as it was. */
  method ServeCopy<K(0, !new), V(0)>(tree: BTree<K, V>, qs: seq<Request<K, V>>) returns (twin: BTree<K, V>, answers: seq<Answer<V>>)
    requires tree.Valid()
    ensures tree.Valid() && tree.Contents() == old(tree.Contents())
    ensures twin.Valid() && twin.Map() == ApplyAll(old(tree.Map()), qs) && answers == ReplyAll(old(tree.Map()), qs)
  {
    hide Objs, Flat, AsMap, Rep, Sep, Balanced, Sorted, TotalOrder, Apply, Reply;
    Allocated(tree.shape);
    twin := new BTree.Copy(tree);
    Allocated(tree.shape);
    ghost var still := tree.Valid();
    assert still;
    answers := ServeAll(twin, qs);
  }

  /** A run on the original leaves a copy taken before it as it was. */
  method ServeOriginal<K(0, !new), V(0)>(tree: BTree<K, V>, qs: seq<Request<K, V>>) returns (twin: BTree<K, V>, answers: seq<Answer<V>>)
    requires tree.Valid()
    modifies tree, Objs(tree.shape)
    ensures twin.Valid() && twin.Contents() == old(tree.Contents())
    ensures tree.Valid() && tree.Map() == ApplyAll(old(tree.Map()), qs) && answers == ReplyAll(old(tree.Map()), qs)
  {
    hide Objs, Flat, AsMap, Rep, Sep, Balanced, Sorted, TotalOrder, Apply, Reply;
    Allocated(tree.shape);
    twin := new BTree.Copy(tree);
    Allocated(twin.shape);
    Allocated(tree.shape);
    ghost var still := tree.Valid();
    assert still;
    answers := ServeAll(tree, qs);
    still := twin.Valid();
    assert still;
  }
}
