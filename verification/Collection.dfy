/** A collection kept in a file: the tree maps keys to file positions, the file holds the records. */
module Collections {
  import opened Basics
  import opened Entries
  import opened Shards
  import opened Codecs
  import opened Streams

  function CompareText(a: Text, b: Text): int {
    CompareTexts(a, b)
  }

  lemma TextOrder()
    ensures TotalOrder(CompareText)
  {
    forall a: Text, b: Text, c: Text ensures OrderAt(CompareText, a, b, c) {
      TextsOrdered(a, b, c);
    }
  }

  /** Where a record is, or -1 before it has been written. */
  class FileTdata {
    var filePos: int

    constructor ()
      ensures filePos == -1
    {
      filePos := -1;
    }

    /**
     * Appends a record, wherever the stream is positioned; only a fresh handle or an update
     * takes note of where.
     */
    method Serialize(file: seq<byte>, key: Text, value: Person, updateFlag: bool) returns (grown: seq<byte>)
      modifies this
      ensures grown == file + Encode(key, value)
      ensures filePos == if old(filePos) == -1 || updateFlag then |file| else old(filePos)
      ensures |file| != 1 && (old(filePos) == -1 || updateFlag) ==> ReadAt(grown, filePos) == Value(value)
      ensures ReadAt(file, old(filePos)).Value? && !updateFlag ==>
        (ReadAt(grown, filePos) == Value(value) <==> ReadAt(file, old(filePos)) == Value(value))
    {
      if filePos == -1 || updateFlag {
        filePos := |file|;
      }
      grown := file + Encode(key, value);
      ReadBack(file, key, value, []);
      assert file + Encode(key, value) + [] == grown;
      if ReadAt(file, old(filePos)).Value? {
        ReadMore(file, Encode(key, value), old(filePos));
      }
    }

    /**
     * Reads the key's size, skips that many bytes, and reads the id, the name's size and the name.
     * Whether the stream failed is asked once, at the end.
     */
    method Deserialize(file: seq<byte>) returns (r: Reading)
      ensures r == ReadAt(file, filePos)
    {
      hide Take, Unsigned, Offset;
      var stream := new InputStream(file);
      if filePos == 1 {
        return InvalidPointer;
      }
      stream.SeekTo(filePos);
      var loginSize := stream.Read(WORD_SIZE);
      stream.SeekBy(Offset(loginSize));
      var id := stream.Read(WORD_SIZE);
      var nameSize := stream.Read(WORD_SIZE);
      if Unsigned(nameSize) >= 0x8000_0000_0000_0000 {
        return StreamFailure;
      }
      var name := stream.Read(Unsigned(nameSize));
      if stream.failed {
        return StreamFailure;
      }
      r := Value(Person(Unsigned(id), name));
    }
  }

  /** No two keys share a handle. */
  ghost predicate Unshared(index: seq<Entry<Text, FileTdata>>) {
    forall i, j :: 0 <= i < j < |index| ==> index[i].value != index[j].value
  }

  lemma UnsharedPut(index: seq<Entry<Text, FileTdata>>, e: Entry<Text, FileTdata>)
    requires Unshared(index) && forall i :: 0 <= i < |index| ==> index[i].value != e.value
    ensures Unshared(Put(CompareText, index, e))
  {
    hide Slot;
    PutParts(CompareText, index, e);
  }

  /** Sorted keys stand in text order. */
  lemma InTextOrder<V>(s: seq<Entry<Text, V>>)
    requires Sorted(CompareText, s)
    ensures forall i, j :: 0 <= i < j < |s| ==> Precedes(s[i].key, s[j].key)
  {
    forall i, j | 0 <= i < j < |s| ensures Precedes(s[i].key, s[j].key) {
      assert Less(CompareText, s[i].key, s[j].key);
      ComparePrecedes(s[i].key, s[j].key);
    }
  }

  /** Putting a record and its handle in keeps every handle on its record. */
  lemma PutReads(file: seq<byte>, index: seq<Entry<Text, FileTdata>>, records: seq<Entry<Text, Person>>, e: Entry<Text, FileTdata>, value: Person)
    requires |index| == |records| && ReadAt(file, e.value.filePos) == Value(value)
    requires Slot(CompareText, index, e.key) == Slot(CompareText, records, e.key)
    requires forall j :: 0 <= j < |index| ==>
      index[j].key == records[j].key && ReadAt(file, index[j].value.filePos) == Value(records[j].value)
    ensures var index', records' := Put(CompareText, index, e), Put(CompareText, records, Entry(e.key, value));
      && |index'| == |records'| == |index| + 1
      && forall j :: 0 <= j < |index'| ==>
        index'[j].key == records'[j].key && ReadAt(file, index'[j].value.filePos) == Value(records'[j].value)
  {
    hide ReadAt, Slot, Put;
    PutParts(CompareText, index, e);
    PutParts(CompareText, records, Entry(e.key, value));
  }

  lemma UnsharedRemove(index: seq<Entry<Text, FileTdata>>, p: nat)
    requires Unshared(index) && p < |index|
    ensures Unshared(RemoveAt(index, p))
  {
    RemoveParts(index, p);
  }

  lemma KeptSorted<V>(s: seq<Entry<Text, V>>, p: nat, v: V)
    requires Sorted(CompareText, s) && p < |s|
    ensures Sorted(CompareText, s[p := Entry(s[p].key, v)])
  {
  }

  /** The record of one key has changed its value, in place. */
  ghost predicate Revalued(was: seq<Entry<Text, Person>>, now: seq<Entry<Text, Person>>, e: Entry<Text, Person>) {
    exists p :: 0 <= p < |was| && was[p].key == e.key && now == was[p := e]
  }

  /** One record is gone. */
  ghost predicate Dropped(was: seq<Entry<Text, Person>>, now: seq<Entry<Text, Person>>, e: Entry<Text, Person>) {
    exists p :: 0 <= p < |was| && was[p] == e && now == RemoveAt(was, p)
  }

  /** The records one after the other. */
  ghost function Image(s: seq<Entry<Text, Person>>): (r: seq<byte>)
    ensures s == [] ==> r == []
    ensures s != [] ==> |r| >= RECORD_META_SIZE
  {
    if s == [] then [] else Image(s[..|s| - 1]) + Encode(s[|s| - 1].key, s[|s| - 1].value)
  }

  lemma Blank()
    ensures Image([]) == []
  {
  }

  lemma ImageMore(s: seq<Entry<Text, Person>>, i: nat)
    requires i < |s|
    ensures Image(s[..i + 1]) == Image(s[..i]) + Encode(s[i].key, s[i].value)
  {
    assert s[..i + 1][..i] == s[..i];
  }

  class Collection {
    /** The data file. */
    var file: seq<byte>
    /** The tree: keys in order, each with the handle of its record. */
    var index: seq<Entry<Text, FileTdata>>

    ghost function Handles(): set<FileTdata>
      reads this
    {
      set i | 0 <= i < |index| :: index[i].value
    }

    ghost predicate Valid()
      reads this, Handles()
    {
      && |file| != 1 && Sorted(CompareText, index)
      && Unshared(index)
      && forall i :: 0 <= i < |index| ==> ReadAt(file, index[i].value.filePos).Value?
    }

    /** The live records in key order. */
    ghost function Meaning(): (r: seq<Entry<Text, Person>>)
      requires Valid()
      reads this, Handles()
      ensures |r| == |index|
      ensures forall i :: 0 <= i < |index| ==> r[i].key == index[i].key && Value(r[i].value) == ReadAt(file, index[i].value.filePos)
    {
      seq(|index|, i requires 0 <= i < |index| reads this, Handles() requires ReadAt(file, index[i].value.filePos).Value? =>
        Entry(index[i].key, ReadAt(file, index[i].value.filePos).value))
    }

    constructor ()
      ensures Valid() && Meaning() == [] && file == []
    {
      file, index := [], [];
    }

    /**
     * Rewrites the file so that it holds exactly the live records in key order; every handle is
     * moved to its record's new place and every key keeps its value.
     */
    method Consolidate() returns (ok: bool)
      requires Valid()
      modifies this, Handles()
      ensures ok && Valid() && Meaning() == old(Meaning()) && Handles() == old(Handles())
      ensures file == Image(old(Meaning()))
      ensures forall i, j :: 0 <= i < j < |Meaning()| ==> Precedes(Meaning()[i].key, Meaning()[j].key)
    {
      hide ReadAt, Encode, Sorted, Image;
      ghost var records := Meaning();
      Blank();
      var tmp: seq<byte> := [];
      var i := 0;
      while i < |index|
        invariant 0 <= i <= |index| && index == old(index) && file == old(file)
        invariant tmp == Image(records[..i]) && |tmp| != 1
        invariant forall j :: 0 <= j < i ==> ReadAt(tmp, index[j].value.filePos) == Value(records[j].value)
        invariant forall j :: i <= j < |index| ==> index[j].value.filePos == old(index[j].value.filePos)
      {
        var key, data := index[i].key, index[i].value;
        var value := data.Deserialize(file);
        if !value.Value? {
          return false;
        }
        ghost var was := tmp;
        tmp := data.Serialize(tmp, key, value.value, true);
        forall j | 0 <= j < i ensures ReadAt(tmp, index[j].value.filePos) == Value(records[j].value) {
          ReadMore(was, Encode(key, value.value), index[j].value.filePos);
        }
        ImageMore(records, i);
        i := i + 1;
      }
      file := tmp;
      assert records[..i] == records;
      assert forall j :: 0 <= j < |index| ==> Meaning()[j] == records[j];
      ok := true;
      InTextOrder(index);
    }

    /** The meaning, from what each handle reads. */
    lemma Shows(records: seq<Entry<Text, Person>>)
      requires Valid() && |records| == |index|
      requires forall j :: 0 <= j < |index| ==>
        index[j].key == records[j].key && ReadAt(file, index[j].value.filePos) == Value(records[j].value)
      ensures Meaning() == records
    {
      hide ReadAt;
      assert forall j :: 0 <= j < |index| ==> Meaning()[j] == records[j];
    }

    /** Appends a record under a handle of its own; what could be read before still can. */
    method Append(key: Text, value: Person) returns (data: FileTdata)
      requires Valid()
      modifies `file
      ensures Valid() && Meaning() == old(Meaning()) && file == old(file) + Encode(key, value)
      ensures fresh(data) && (forall i :: 0 <= i < |index| ==> index[i].value != data) && ReadAt(file, data.filePos) == Value(value)
    {
      hide ReadAt, Encode, Sorted, Unshared;
      ghost var records, was := Meaning(), file;
      data := new FileTdata();
      file := data.Serialize(file, key, value, false);
      forall j | 0 <= j < |index| ensures ReadAt(file, index[j].value.filePos) == Value(records[j].value) {
        ReadMore(was, Encode(key, value), index[j].value.filePos);
      }
      Shows(records);
    }

    /** Appends a record and remembers it, unless the key is there: then the file has grown for nothing. */
    method Insert(key: Text, value: Person) returns (r: Outcome)
      requires Valid()
      modifies this
      ensures Valid() && fresh(Handles() - old(Handles())) && file == old(file) + Encode(key, value)
      ensures r == if HasKey(old(Meaning()), key) then KeyExists else Done
      ensures Meaning() == if r == Done then Put(CompareText, old(Meaning()), Entry(key, value)) else old(Meaning())
      ensures r == Done ==> AsMap(Meaning()) == AsMap(old(Meaning()))[key := value]
    {
      hide ReadAt, Encode, Sorted, Slot, Put, Unshared, HasKey, AsMap, TotalOrder;
      var data := Append(key, value);
      ghost var records := Meaning();
      SameKeys(records, index, key);
      var p := Find(key);
      if p < |index| {
        return KeyExists;
      }
      TextOrder();
      PutMap(CompareText, records, Entry(key, value));
      Remember(key, data, value);
      r := Done;
    }

    /** Puts a new key and its handle into the index. */
    method Remember(key: Text, data: FileTdata, ghost value: Person)
      requires Valid() && !HasKey(index, key) && ReadAt(file, data.filePos) == Value(value)
      requires forall i :: 0 <= i < |index| ==> index[i].value != data
      modifies `index
      ensures Valid() && Meaning() == Put(CompareText, old(Meaning()), Entry(key, value)) && Handles() <= old(Handles()) + {data}
    {
      hide ReadAt, Sorted, Slot, Put, Unshared, HasKey, TotalOrder;
      ghost var records := Meaning();
      SameKeys(records, index, key);
      TextOrder();
      UnsharedPut(index, Entry(key, data));
      PutSorted(CompareText, index, Entry(key, data));
      PutParts(CompareText, index, Entry(key, data));
      PutReads(file, index, records, Entry(key, data), value);
      index := Put(CompareText, index, Entry(key, data));
      Shows(Put(CompareText, records, Entry(key, value)));
    }

    /** Appends a new record for a key and moves its handle there, unless the key is missing. */
    method Update(key: Text, value: Person) returns (r: Outcome)
      requires Valid()
      modifies this
      ensures Valid() && fresh(Handles() - old(Handles())) && file == old(file) + Encode(key, value)
      ensures r == if HasKey(old(Meaning()), key) then Done else KeyMissing
      ensures r == KeyMissing ==> Meaning() == old(Meaning())
      ensures r == Done ==> Revalued(old(Meaning()), Meaning(), Entry(key, value))
    {
      hide ReadAt, Encode, Sorted, HasKey;
      var data := Append(key, value);
      ghost var records := Meaning();
      SameKeys(records, index, key);
      var p := Find(key);
      if p == |index| {
        return KeyMissing;
      }
      KeptSorted(index, p, data);
      index := index[p := Entry(key, data)];
      Shows(records[p := Entry(key, value)]);
      r := Done;
    }

    /** Where a key is, or one past the end. */
    method Find(key: Text) returns (p: nat)
      ensures p <= |index| && (p < |index| ==> index[p].key == key)
      ensures p == |index| <==> !HasKey(index, key)
    {
      p := 0;
      while p < |index| && index[p].key != key
        invariant p <= |index| && forall j :: 0 <= j < p ==> index[j].key != key
      {
        p := p + 1;
      }
    }

    /** The value of a key, read from the file. */
    method Obtain(key: Text) returns (r: Option<Person>)
      requires Valid()
      ensures r.Some? <==> HasKey(Meaning(), key)
      ensures r.Some? ==> Entry(key, r.value) in Meaning()
    {
      hide ReadAt, Sorted;
      SameKeys(Meaning(), index, key);
      var p := Find(key);
      if p == |index| {
        return None;
      }
      var value := index[p].value.Deserialize(file);
      assert Meaning()[p] == Entry(key, value.value);
      r := Some(value.value);
    }

    /** Forgets a key and returns its value; the record stays in the file until it is consolidated. */
    method Dispose(key: Text) returns (r: Option<Person>)
      requires Valid()
      modifies this
      ensures Valid() && Handles() <= old(Handles()) && file == old(file)
      ensures r.Some? <==> HasKey(old(Meaning()), key)
      ensures r.None? ==> Meaning() == old(Meaning())
      ensures r.Some? ==> Dropped(old(Meaning()), Meaning(), Entry(key, r.value))
    {
      hide ReadAt, Sorted, Unshared, HasKey, RemoveAt, TotalOrder;
      ghost var records := Meaning();
      SameKeys(records, index, key);
      var p := Find(key);
      if p == |index| {
        return None;
      }
      var value := index[p].value.Deserialize(file);
      TextOrder();
      DropSorted(CompareText, index, p);
      UnsharedRemove(index, p);
      RemoveParts(index, p);
      RemoveParts(records, p);
      index := RemoveAt(index, p);
      Shows(RemoveAt(records, p));
      assert records[p] == Entry(key, value.value);
      r := Some(value.value);
    }
  }

  /** Two sequences with the same keys. */
  lemma SameKeys<A, B>(s: seq<Entry<Text, A>>, t: seq<Entry<Text, B>>, key: Text)
    requires |s| == |t| && forall i :: 0 <= i < |s| ==> s[i].key == t[i].key
    ensures HasKey(s, key) <==> HasKey(t, key)
    ensures Slot(CompareText, s, key) == Slot(CompareText, t, key)
  {
    if HasKey(s, key) {
      var i :| 0 <= i < |s| && s[i].key == key;
      assert t[i].key == key;
    }
    if HasKey(t, key) {
      var i :| 0 <= i < |t| && t[i].key == key;
      assert s[i].key == key;
    }
    SameSlot(s, t, key);
  }

  lemma {:induction false} SameSlot<A, B>(s: seq<Entry<Text, A>>, t: seq<Entry<Text, B>>, key: Text)
    requires |s| == |t| && forall i :: 0 <= i < |s| ==> s[i].key == t[i].key
    ensures Slot(CompareText, s, key) == Slot(CompareText, t, key)
  {
    if s != [] {
      SameSlot(s[1..], t[1..], key);
    }
  }

  lemma PutParts<V>(cmp: (Text, Text) -> int, s: seq<Entry<Text, V>>, e: Entry<Text, V>)
    ensures var p, r := Slot(cmp, s, e.key), Put(cmp, s, e);
      |r| == |s| + 1 && r[p] == e && (forall i :: 0 <= i < p ==> r[i] == s[i]) && forall i :: p < i < |r| ==> r[i] == s[i - 1]
  {
  }
}
