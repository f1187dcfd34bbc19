/** The bytes of one stored record, and the order of the keys. */
module Codecs {
  import opened Entries

  type byte = x: int | 0 <= x < 0x100

  /** A std::string: no longer than a pointer difference can say. */
  type Text = s: seq<byte> | |s| < 0x8000_0000_0000_0000

  type uint64 = x: int | 0 <= x < 0x1_0000_0000_0000_0000

  /** A value: the personal id and the name. */
  datatype Person = Person(personalId: uint64, name: Text)

  const WORD_SIZE: nat := 8
  /** The fewest bytes of a record: three words around two empty texts. */
  const RECORD_META_SIZE: nat := 24

  /* ---- machine words, least significant byte first ---- */

  function Bytes(n: nat, size: nat): (r: seq<byte>)
    ensures |r| == size
  {
    if size == 0 then [] else [n % 0x100] + Bytes(n / 0x100, size - 1)
  }

  function Number(bs: seq<byte>): nat {
    if |bs| == 0 then 0 else bs[0] + 0x100 * Number(bs[1..])
  }

  function Limit(size: nat): nat {
    if size == 0 then 1 else 0x100 * Limit(size - 1)
  }

  lemma {:induction false} NumberBytes(n: nat, size: nat)
    requires n < Limit(size)
    ensures Number(Bytes(n, size)) == n
  {
    if size > 0 {
      NumberBytes(n / 0x100, size - 1);
      assert Bytes(n, size)[1..] == Bytes(n / 0x100, size - 1);
    }
  }

  lemma LimitWord()
    ensures Limit(WORD_SIZE) == 0x1_0000_0000_0000_0000
  {
    assert Limit(1) == 0x100 && Limit(2) == 0x1_0000 && Limit(3) == 0x100_0000 && Limit(4) == 0x1_0000_0000;
    assert Limit(5) == 0x100_0000_0000 && Limit(6) == 0x1_0000_0000_0000 && Limit(7) == 0x100_0000_0000_0000;
  }

  function Word(n: nat): (r: seq<byte>)
    ensures |r| == WORD_SIZE
  {
    Bytes(n, WORD_SIZE)
  }

  lemma NumberWord(n: nat)
    requires n < 0x1_0000_0000_0000_0000
    ensures Number(Word(n)) == n
  {
    LimitWord();
    NumberBytes(n, WORD_SIZE);
  }

  lemma {:induction false} NumberSmall(bs: seq<byte>)
    ensures Number(bs) < Limit(|bs|)
  {
    if bs != [] {
      NumberSmall(bs[1..]);
    }
  }

  /** A word read back as an unsigned integer. */
  function Unsigned(bs: seq<byte>): uint64
    requires |bs| == WORD_SIZE
  {
    NumberSmall(bs);
    LimitWord();
    Number(bs)
  }

  /** A word taken for a stream offset, which is signed. */
  function Offset(bs: seq<byte>): int
    requires |bs| == WORD_SIZE
  {
    if Unsigned(bs) < 0x8000_0000_0000_0000 then Unsigned(bs) else Unsigned(bs) - 0x1_0000_0000_0000_0000
  }

  lemma UnsignedWord(n: uint64)
    ensures Unsigned(Word(n)) == n && (n < 0x8000_0000_0000_0000 ==> Offset(Word(n)) == n)
  {
    NumberWord(n);
  }

  lemma Multiple(d: int, k: int)
    requires d > 0
    ensures k >= 1 ==> d * k >= d
    ensures k <= -1 ==> d * k <= -d
  {
    if k >= 1 {
      assert d * k == d + d * (k - 1);
    } else if k <= -1 {
      assert d * k == -d + d * (k + 1);
    }
  }

  lemma SameQuotient(d: int, p: int, r: int, q: int, t: int)
    requires d * p + r == d * q + t && 0 <= r < d && 0 <= t < d
    ensures p == q
  {
    assert d * (p - q) == t - r;
    Multiple(d, p - q);
  }

  lemma Quotient(n: nat, d: nat, q: nat, r: nat)
    requires n == d * q + r && r < d
    ensures n / d == q
  {
    SameQuotient(d, n / d, n % d, q, r);
  }

  lemma QuotientTwice(n: nat, d: nat)
    requires d > 0
    ensures n / 0x100 / d == n / (0x100 * d)
  {
    var m := n / 0x100;
    var q, r := m / d, m % d;
    assert m == d * q + r;
    assert 0x100 * (d * q) == (0x100 * d) * q;
    Quotient(n, 0x100 * d, q, 0x100 * r + n % 0x100);
  }

  /** Byte `j` of a word has the weight 256 to the `j`. */
  lemma {:induction false} BytesAt(n: nat, size: nat, j: nat)
    requires j < size
    ensures Limit(j) > 0 && Bytes(n, size)[j] == n / Limit(j) % 0x100
  {
    if j > 0 {
      BytesAt(n / 0x100, size - 1, j - 1);
      QuotientTwice(n, Limit(j - 1));
    }
  }

  /* ---- records ---- */

  /** What serialization appends: both texts preceded by their sizes, the id between them. */
  function Encode(key: Text, value: Person): (r: seq<byte>)
    ensures |r| == RECORD_META_SIZE + |key| + |value.name|
  {
    Word(|key|) + key + Word(value.personalId) + Word(|value.name|) + value.name
  }

  /** Where the parts of a record lie. */
  lemma RecordLayout(key: Text, value: Person)
    ensures var r, k := Encode(key, value), |key|;
      && r[..8] == Word(k) && r[8..8 + k] == key && r[8 + k..16 + k] == Word(value.personalId)
      && r[16 + k..24 + k] == Word(|value.name|) && r[24 + k..] == value.name
  {
  }

  /** Reading a value: it, a failed stream, or a position the reader refuses. */
  datatype Reading = Value(value: Person) | StreamFailure | InvalidPointer

  /** The next `n` bytes of a file from `cursor` on, unless it ends before. */
  function Take(file: seq<byte>, cursor: nat, n: nat): (r: Option<seq<byte>>)
    ensures r.Some? ==> |r.value| == n
  {
    if cursor + n <= |file| then Some(file[cursor..cursor + n]) else None
  }

  /** What a reader positioned at `at` makes of the bytes: it skips the key. */
  function ReadAt(file: seq<byte>, at: int): Reading {
    if at == 1 then InvalidPointer
    else if at < 0 then StreamFailure
    else
      match Take(file, at, WORD_SIZE)
      case None => StreamFailure
      case Some(loginSize) =>
        var cursor := at + WORD_SIZE + Offset(loginSize);
        if cursor < 0 then StreamFailure else
        match Take(file, cursor, WORD_SIZE)
        case None => StreamFailure
        case Some(id) =>
          match Take(file, cursor + WORD_SIZE, WORD_SIZE)
          case None => StreamFailure
          case Some(nameSize) =>
            match Take(file, cursor + 2 * WORD_SIZE, Unsigned(nameSize))
            case None => StreamFailure
            case Some(name) =>
              if |name| < 0x8000_0000_0000_0000 then Value(Person(Unsigned(id), name)) else StreamFailure
  }

  lemma TakeMiddle(a: seq<byte>, m: seq<byte>, b: seq<byte>)
    ensures Take(a + m + b, |a|, |m|) == Some(m)
  {
    assert (a + m + b)[|a|..|a| + |m|] == m;
  }

  lemma Reassociate(a: seq<byte>, w: seq<byte>, k: seq<byte>, i: seq<byte>, l: seq<byte>, n: seq<byte>, b: seq<byte>)
    ensures var file := a + (w + k + i + l + n) + b;
      && file == a + w + (k + i + l + n + b) && file == (a + w + k) + i + (l + n + b)
      && file == (a + w + k + i) + l + (n + b) && file == (a + w + k + i + l) + n + b
  {
  }

  /** Round trip: a record is read back at its offset whatever stands before and after it. */
  lemma ReadBack(before: seq<byte>, key: Text, value: Person, after: seq<byte>)
    ensures ReadAt(before + Encode(key, value) + after, |before|) == if |before| == 1 then InvalidPointer else Value(value)
  {
    hide Take, Word, Unsigned, Offset;
    var w, i, l := Word(|key|), Word(value.personalId), Word(|value.name|);
    Reassociate(before, w, key, i, l, value.name, after);
    TakeMiddle(before, w, key + i + l + value.name + after);
    UnsignedWord(|key|);
    TakeMiddle(before + w + key, i, l + value.name + after);
    UnsignedWord(value.personalId);
    TakeMiddle(before + w + key + i, l, value.name + after);
    UnsignedWord(|value.name|);
    TakeMiddle(before + w + key + i + l, value.name, after);
  }

  lemma TakeMore(file: seq<byte>, more: seq<byte>, cursor: nat, n: nat)
    requires Take(file, cursor, n).Some?
    ensures Take(file + more, cursor, n) == Take(file, cursor, n)
  {
    assert (file + more)[cursor..cursor + n] == file[cursor..cursor + n];
  }

  /** Appending never changes what can already be read. */
  lemma ReadMore(file: seq<byte>, more: seq<byte>, at: int)
    requires ReadAt(file, at).Value?
    ensures ReadAt(file + more, at) == ReadAt(file, at)
  {
    hide Take, Unsigned, Offset;
    TakeMore(file, more, at, WORD_SIZE);
    var cursor := at + WORD_SIZE + Offset(Take(file, at, WORD_SIZE).value);
    TakeMore(file, more, cursor, WORD_SIZE);
    TakeMore(file, more, cursor + WORD_SIZE, WORD_SIZE);
    TakeMore(file, more, cursor + 2 * WORD_SIZE, Unsigned(Take(file, cursor + WORD_SIZE, WORD_SIZE).value));
  }

  /* ---- the order of the keys ---- */

  /** Texts compare byte by byte, a proper prefix first. */
  function CompareTexts(a: seq<byte>, b: seq<byte>): int {
    if |a| == 0 && |b| == 0 then 0
    else if |a| == 0 then -1
    else if |b| == 0 then 1
    else if a[0] < b[0] then -1
    else if a[0] > b[0] then 1
    else CompareTexts(a[1..], b[1..])
  }

  /** Keys compare by their texts; a missing key comes first. */
  function CompareKeys(a: Option<Text>, b: Option<Text>): int {
    if a.None? || b.None? then (if a == b then 0 else if a.Some? then 1 else -1)
    else CompareTexts(a.value, b.value)
  }

  lemma {:induction false} TextsOrdered(a: seq<byte>, b: seq<byte>, c: seq<byte>)
    ensures CompareTexts(a, b) == 0 <==> a == b
    ensures CompareTexts(a, b) < 0 <==> CompareTexts(b, a) > 0
    ensures CompareTexts(a, b) < 0 && CompareTexts(b, c) < 0 ==> CompareTexts(a, c) < 0
    decreases |a|
  {
    if a != [] && b != [] {
      assert a == [a[0]] + a[1..] && b == [b[0]] + b[1..];
      TextsOrdered(a[1..], b[1..], if c == [] then [] else c[1..]);
    }
  }

  /** Texts in order: at the first difference the smaller byte, or the end, comes first. */
  ghost predicate Precedes(a: seq<byte>, b: seq<byte>) {
    exists k :: 0 <= k <= |a| && k <= |b| && a[..k] == b[..k] && ((k == |a| && k < |b|) || (k < |a| && k < |b| && a[k] < b[k]))
  }

  lemma ComparePrecedes(a: seq<byte>, b: seq<byte>)
    ensures CompareTexts(a, b) < 0 <==> Precedes(a, b)
  {
    TextsCompare(a, b);
  }

  /** Text order without the comparison. */
  lemma {:induction false} TextsCompare(a: seq<byte>, b: seq<byte>)
    ensures CompareTexts(a, b) < 0 <==>
      exists k :: 0 <= k <= |a| && k <= |b| && a[..k] == b[..k] && ((k == |a| && k < |b|) || (k < |a| && k < |b| && a[k] < b[k]))
    ensures -1 <= CompareTexts(a, b) <= 1
  {
    if a == [] || b == [] {
      assert a == [] && b != [] ==> a[..0] == b[..0];
    } else if a[0] != b[0] {
      assert a[..0] == b[..0];
      forall k | 0 < k <= |a| && k <= |b| ensures a[..k] != b[..k] { assert a[..k][0] != b[..k][0]; }
    } else {
      TextsCompare(a[1..], b[1..]);
      var c, d := a[1..], b[1..];
      if k :| 0 <= k <= |c| && k <= |d| && c[..k] == d[..k] && ((k == |c| && k < |d|) || (k < |c| && k < |d| && c[k] < d[k])) {
        assert a[..k + 1] == [a[0]] + c[..k] && b[..k + 1] == [b[0]] + d[..k];
      }
      if k :| 0 <= k <= |a| && k <= |b| && a[..k] == b[..k] && ((k == |a| && k < |b|) || (k < |a| && k < |b| && a[k] < b[k])) {
        assert k > 0;
        assert c[..k - 1] == a[..k][1..] && d[..k - 1] == b[..k][1..];
      }
    }
  }

  /** A missing key comes before every other, and the others in text order. */
  lemma KeysCompare(x: Text, y: Text)
    ensures CompareKeys(None, Some(x)) < 0 < CompareKeys(Some(x), None) && CompareKeys(None, None) == 0
    ensures CompareKeys(Some(x), Some(y)) < 0 <==>
      exists k :: 0 <= k <= |x| && k <= |y| && x[..k] == y[..k] && ((k == |x| && k < |y|) || (k < |x| && k < |y| && x[k] < y[k]))
  {
    TextsCompare(x, y);
  }

  /** The comparer the storage uses is a strict total order, as its tree asks. */
  lemma KeysOrdered()
    ensures TotalOrder(CompareKeys)
  {
    forall a, b, c ensures OrderAt(CompareKeys, a, b, c) {
      if a.Some? && b.Some? {
        TextsOrdered(a.value, b.value, if c.Some? then c.value else []);
      }
    }
  }
}
