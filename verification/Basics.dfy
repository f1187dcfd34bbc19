/** Facts about sequences and products that several modules use. */
module Basics {
  /** `s` with `x` inserted at position `i`. */
  function InsertAt<T>(s: seq<T>, i: nat, x: T): (r: seq<T>)
    requires i <= |s|
    ensures |r| == |s| + 1
  {
    s[..i] + [x] + s[i..]
  }

  /** `s` without the element at position `i`. */
  function RemoveAt<T>(s: seq<T>, i: nat): (r: seq<T>)
    requires i < |s|
    ensures |r| == |s| - 1
  {
    s[..i] + s[i + 1..]
  }

  /* ---- regrouping concatenations ---- */

  lemma Assoc<T>(x: seq<T>, y: seq<T>, z: seq<T>)
    ensures (x + y) + z == x + (y + z)
  {
  }

  lemma AssocFour<T>(a: seq<T>, b: seq<T>, c: seq<T>, d: seq<T>)
    ensures a + b + c + d == a + (b + (c + d)) == a + b + (c + d)
  {
  }

  lemma AssocFive<T>(a: seq<T>, b: seq<T>, c: seq<T>, d: seq<T>, e: seq<T>)
    ensures a + (b + c + (d + e)) == a + b + c + d + e
  {
  }

  lemma AssocFront<T>(x: seq<T>, y: seq<T>, a: seq<T>, s: seq<T>, b: seq<T>)
    ensures x + (y + (a + s + b)) == (x + y + a) + s + b
  {
  }

  lemma Regroup<T>(a: seq<T>, b: seq<T>, c: seq<T>, d: seq<T>, e: seq<T>)
    ensures a + (b + c + d) + e == (a + b) + c + (d + e)
    ensures a + b + (c + d + e) == (a + b + c) + d + e
  {
  }

  lemma RegroupEntry<T>(x: seq<T>, a: seq<T>, k: seq<T>, e: seq<T>, b: seq<T>, y: seq<T>)
    ensures x + (a + k + (e + b)) + y == (x + (a + k)) + e + (b + y)
  {
  }

  lemma RegroupThird<T>(p: seq<T>, y: seq<T>, k: seq<T>, x: seq<T>, q: seq<T>)
    ensures (p + y + k) + x + q == p + y + (k + x + q)
  {
  }

  /** Two elements between two rows, the first one singled out. */
  lemma PairBetween<T>(left: seq<T>, a: T, b: T, right: seq<T>)
    ensures left + [a, b] + right == left + [a] + ([b] + right)
  {
  }

  lemma EmptyFront<T>(x: seq<T>)
    ensures [] + x == x
  {
  }

  lemma Glue<T>(a: seq<T>, e: T, y: seq<T>)
    ensures a + [e] + y == a + ([e] + y) && ([e] + y)[1..] == y
  {
  }

  /* ---- splitting and replacing ---- */

  lemma SplitAt<T>(s: seq<T>, i: nat)
    requires i < |s|
    ensures s == s[..i] + [s[i]] + s[i + 1..] && s == s[..i] + s[i..] && s[i..] == [s[i]] + s[i + 1..]
  {
  }

  lemma SplitWhole<T>(s: seq<T>, k: nat, j: nat)
    requires k < j <= |s|
    ensures s == s[..k] + s[k..j] + s[j..]
  {
  }

  lemma SplitThree<T>(s: seq<T>, k: nat, j: nat)
    requires k < j <= |s|
    ensures s == s[..k] + s[k..j] + s[j..]
    ensures j == k + 1 ==> s[k..j] == [s[k]]
    ensures j == k + 2 ==> s[k..j] == [s[k], s[k + 1]]
    ensures j > k + 1 ==> s[k..j] == [s[k]] + s[k + 1..j]
    ensures s[k..j] + s[j..] == [s[k]] + (s[k + 1..j] + s[j..])
  {
  }

  lemma Middle<T>(a: seq<T>, m: seq<T>, b: seq<T>)
    ensures |a + m| <= |a + m + b| && (m != [] ==> (a + m + b)[|a|] == m[0])
  {
  }

  lemma LastOf<T>(x: seq<T>, s: seq<T>)
    requires s != []
    ensures (x + s + [])[|x + s + []| - 1] == s[|s| - 1] && (x + s + [])[|x + s + []| - 1..] == [s[|s| - 1]]
  {
  }

  lemma Replaced<T>(a: seq<T>, x: T, b: seq<T>, e: T)
    ensures (a + [x] + b)[|a|] == x && a + [e] + b == (a + [x] + b)[|a| := e]
  {
  }

  lemma Replaces<T>(a: seq<T>, x: T, b: seq<T>, y: T, g: seq<T>)
    ensures var s := a + [x] + b; s[|a|] == x && s[..|a|] == a && s[|a| + 1..] == b
    ensures a + ([] + [y] + (g + b)) == a + ([y] + g) + b
  {
  }

  /* ---- inserting and removing ---- */

  lemma InsertedParts<T>(us: seq<T>, i: nat, n: T)
    requires i <= |us|
    ensures var vs := us[..i] + [n] + us[i..]; |vs| == |us| + 1 && vs[..i] == us[..i] && vs[i] == n && vs[i + 1..] == us[i..]
  {
  }

  lemma InsertMiddle<T>(a: seq<T>, s: seq<T>, i: nat, x: T, b: seq<T>)
    requires i <= |s|
    ensures a + InsertAt(s, i, x) + b == InsertAt(a + s + b, |a| + i, x)
    ensures (a + s + b)[..|a| + i] == a + s[..i] && (a + s + b)[|a| + i..] == s[i..] + b
  {
  }

  lemma RemoveParts<T>(s: seq<T>, p: nat)
    requires p < |s|
    ensures |RemoveAt(s, p)| == |s| - 1
    ensures forall i :: 0 <= i < |s| - 1 ==> RemoveAt(s, p)[i] == s[if i < p then i else i + 1]
  {
  }

  lemma RemoveMiddle<T>(l: seq<T>, x: T, r: seq<T>)
    ensures RemoveAt(l + [x] + r, |l|) == l + r
  {
  }

  lemma RemoveSecond<T>(l: seq<T>, x: T, y: T, r: seq<T>)
    ensures RemoveAt(l + [x, y] + r, |l| + 1) == l + [x] + r
  {
  }

  lemma DropMiddle<T>(x: seq<T>, s: seq<T>, y: seq<T>, j: nat)
    requires j < |s|
    ensures (x + s + y)[|x| + j] == s[j] && RemoveAt(x + s + y, |x| + j) == x + RemoveAt(s, j) + y
  {
  }

  lemma PopSeq<T>(p: seq<T>, l: seq<T>, x: T, rest: seq<T>)
    requires l != []
    ensures var f, n := p + l + ([x] + rest), |l| - 1;
      && f[|p| + |l|] == x && RemoveAt(f, |p| + |l|) == p + l[..n] + ([l[n]] + rest)
  {
    var f, n := p + l + ([x] + rest), |l| - 1;
    var r, q := RemoveAt(f, |p| + |l|), p + l[..n] + ([l[n]] + rest);
    assert l == l[..n] + [l[n]];
    assert f == p + l[..n] + [l[n]] + [x] + rest;
  }

  /* ---- products ---- */

  lemma Distribute(n: nat, x: int)
    requires n > 0
    ensures n * x == (n - 1) * x + x
  {
  }

  lemma Widen(n: nat, m: nat, x: nat)
    requires n <= m
    ensures n * x <= m * x
  {
  }

  lemma QuotientPositive(a: nat, n: nat)
    requires 0 < n <= a
    ensures a / n >= 1
  {
    assert a == n * (a / n) + a % n;
  }
}
