/** Blocks of an arena of bytes: how they tile it, and which free block each fit policy picks. */
module Arenas {

  /** A block header's size in bytes: the size word and one pointer word. */
  const BLOCK_META_SIZE: nat := 16

  datatype FitMode = FirstFit | TheBestFit | TheWorstFit

  /** A block header's offset in the arena, or the null pointer. */
  datatype Pointer = Null | At(offset: nat)

  /** A stretch of the arena, header included. */
  datatype Block = Block(at: nat, size: nat, live: bool)

  /** The blocks follow each other without a gap from `start` on, and each holds its header. */
  ghost predicate Tiles(bs: seq<Block>, start: nat) {
    bs == [] || (bs[0].at == start && bs[0].size >= BLOCK_META_SIZE && Tiles(bs[1..], start + bs[0].size))
  }

  /** Where the blocks end. */
  ghost function End(bs: seq<Block>, start: nat): (r: nat)
    ensures start <= r
  {
    if bs == [] then start else End(bs[1..], start + bs[0].size)
  }

  ghost function FreeBytes(bs: seq<Block>): nat {
    if bs == [] then 0 else (if bs[0].live then 0 else bs[0].size) + FreeBytes(bs[1..])
  }

  /** No two neighbouring blocks are both free. */
  ghost predicate Coalesced(bs: seq<Block>) {
    forall i :: 0 < i < |bs| ==> bs[i - 1].live || bs[i].live
  }

  ghost predicate Fits(b: Block, need: nat) {
    !b.live && need <= b.size
  }

  /** Whether `c`, met after `b`, is taken instead of it. */
  predicate Better(mode: FitMode, c: nat, b: nat) {
    (mode == TheBestFit && c < b) || (mode == TheWorstFit && c > b)
  }

  /** The policy's choice: no fitting block beats `k`, and `k` beats every fitting block before it. */
  ghost predicate Picks(bs: seq<Block>, mode: FitMode, need: nat, k: nat) {
    && k < |bs| && Fits(bs[k], need)
    && (forall i :: 0 <= i < |bs| && Fits(bs[i], need) ==> !Better(mode, bs[i].size, bs[k].size))
    && (forall i :: 0 <= i < k && Fits(bs[i], need) ==> Better(mode, bs[k].size, bs[i].size))
  }

  ghost predicate NothingFits(bs: seq<Block>, need: nat) {
    forall i :: 0 <= i < |bs| ==> !Fits(bs[i], need)
  }

  /** Each policy in its own words; ties go to the lowest address. */
  lemma PicksMeans(bs: seq<Block>, mode: FitMode, need: nat, k: nat)
    requires k < |bs| && Fits(bs[k], need)
    ensures mode == FirstFit ==> (Picks(bs, mode, need, k) <==> NothingFits(bs[..k], need))
    ensures mode == TheBestFit ==> (Picks(bs, mode, need, k) <==>
      (forall i :: 0 <= i < |bs| && Fits(bs[i], need) ==> if i < k then bs[k].size < bs[i].size else bs[k].size <= bs[i].size))
    ensures mode == TheWorstFit ==> (Picks(bs, mode, need, k) <==>
      (forall i :: 0 <= i < |bs| && Fits(bs[i], need) ==> if i < k then bs[k].size > bs[i].size else bs[k].size >= bs[i].size))
  {
    if mode == FirstFit && NothingFits(bs[..k], need) {
      forall i | 0 <= i < k ensures !Fits(bs[i], need) { assert bs[..k][i] == bs[i]; }
    }
  }

  lemma FitsSomething(bs: seq<Block>, mode: FitMode, need: nat, k: nat)
    requires Picks(bs, mode, need, k)
    ensures !NothingFits(bs, need)
  {
    assert Fits(bs[k], need);
  }

  lemma {:induction false} TilesConcat(a: seq<Block>, b: seq<Block>, start: nat)
    ensures Tiles(a + b, start) <==> Tiles(a, start) && Tiles(b, End(a, start))
    ensures End(a + b, start) == End(b, End(a, start))
  {
    if a == [] {
      assert a + b == b;
    } else {
      assert (a + b)[1..] == a[1..] + b;
      TilesConcat(a[1..], b, start + a[0].size);
    }
  }

  lemma {:induction false} FreeConcat(a: seq<Block>, b: seq<Block>)
    ensures FreeBytes(a + b) == FreeBytes(a) + FreeBytes(b)
  {
    if a == [] {
      assert a + b == b;
    } else {
      assert (a + b)[1..] == a[1..] + b;
      FreeConcat(a[1..], b);
    }
  }

  /** All blocks lie, with their headers, between the two ends. */
  ghost predicate Within(bs: seq<Block>, lo: nat, hi: nat) {
    forall i :: 0 <= i < |bs| ==> lo <= bs[i].at && bs[i].at + bs[i].size <= hi && bs[i].size >= BLOCK_META_SIZE
  }

  lemma {:induction false} TilesWithin(bs: seq<Block>, start: nat)
    requires Tiles(bs, start)
    ensures Within(bs, start, End(bs, start))
  {
    if bs != [] {
      TilesWithin(bs[1..], start + bs[0].size);
      forall i | 0 <= i < |bs| ensures start <= bs[i].at && bs[i].at + bs[i].size <= End(bs, start) && bs[i].size >= BLOCK_META_SIZE {
        if i > 0 {
          assert bs[1..][i - 1] == bs[i];
        }
      }
    }
  }

  /** Blocks of a tiling are disjoint and come in address order. */
  lemma TilesApart(bs: seq<Block>, start: nat, i: nat, j: nat)
    requires Tiles(bs, start) && i < j < |bs|
    ensures bs[i].at + bs[i].size <= bs[j].at
    ensures j == i + 1 ==> bs[i].at + bs[i].size == bs[j].at
  {
    var a, b := bs[..i + 1], bs[i + 1..];
    assert bs == a + b;
    TilesConcat(a, b, start);
    TilesWithin(b, End(a, start));
    assert b[j - i - 1] == bs[j];
    assert a == bs[..i] + [bs[i]];
    TilesConcat(bs[..i], [bs[i]], start);
  }

  /** The arena around block `k`. */
  lemma TilesAround(bs: seq<Block>, start: nat, k: nat)
    requires Tiles(bs, start) && k < |bs|
    ensures bs == bs[..k] + [bs[k]] + bs[k + 1..]
    ensures Tiles(bs[..k], start) && End(bs[..k], start) == bs[k].at && bs[k].size >= BLOCK_META_SIZE
    ensures Tiles(bs[k + 1..], bs[k].at + bs[k].size)
    ensures End(bs, start) == End(bs[k + 1..], bs[k].at + bs[k].size)
    ensures FreeBytes(bs) == FreeBytes(bs[..k]) + (if bs[k].live then 0 else bs[k].size) + FreeBytes(bs[k + 1..])
  {
    var a, b := bs[..k], bs[k + 1..];
    assert bs == a + ([bs[k]] + b) && bs == a + [bs[k]] + b;
    TilesConcat(a, [bs[k]] + b, start);
    TilesConcat([bs[k]], b, End(a, start));
    FreeConcat(a, [bs[k]] + b);
    FreeConcat([bs[k]], b);
  }

  /** Putting blocks `m` where block `k` was. */
  lemma TilesReplace(a: seq<Block>, m: seq<Block>, b: seq<Block>, start: nat)
    ensures Tiles(a + m + b, start) <==> Tiles(a, start) && Tiles(m, End(a, start)) && Tiles(b, End(m, End(a, start)))
    ensures End(a + m + b, start) == End(b, End(m, End(a, start)))
    ensures FreeBytes(a + m + b) == FreeBytes(a) + FreeBytes(m) + FreeBytes(b)
  {
    TilesConcat(a + m, b, start);
    TilesConcat(a, m, start);
    FreeConcat(a + m, b);
    FreeConcat(a, m);
  }

  /** One line of a report on the blocks. */
  datatype BlockInfo = BlockInfo(blockSize: nat, isBlockOccupied: bool)

  /** What a report on the blocks lists: each one's size and whether it is in use. */
  ghost function Infos(bs: seq<Block>): (r: seq<BlockInfo>)
    ensures |r| == |bs| && forall i :: 0 <= i < |bs| ==> r[i] == BlockInfo(bs[i].size, bs[i].live)
  {
    seq(|bs|, i requires 0 <= i < |bs| => BlockInfo(bs[i].size, bs[i].live))
  }

  /** A choice among the blocks before `n` stays one when no fitting block that beats it follows. */
  lemma PicksOn(bs: seq<Block>, mode: FitMode, need: nat, k: nat, c: nat, n: nat)
    requires c <= n <= |bs| && Picks(bs[..c], mode, need, k)
    requires forall i :: c <= i < n && Fits(bs[i], need) ==> !Better(mode, bs[i].size, bs[k].size)
    ensures Picks(bs[..n], mode, need, k)
  {
    var a, b := bs[..c], bs[..n];
    forall i | 0 <= i < n && Fits(b[i], need) ensures !Better(mode, b[i].size, b[k].size) {
      if i < c { assert a[i] == b[i]; }
    }
    forall i | 0 <= i < k && Fits(b[i], need) ensures Better(mode, b[k].size, b[i].size) { assert a[i] == b[i]; }
  }

  /** The block that beats the choice so far is the new choice. */
  lemma PicksBetter(bs: seq<Block>, mode: FitMode, need: nat, k: nat, c: nat, d: nat)
    requires c <= d < |bs| && Fits(bs[d], need) && forall i :: c <= i < d ==> bs[i].live
    requires if k < c then Picks(bs[..c], mode, need, k) && Better(mode, bs[d].size, bs[k].size) else NothingFits(bs[..c], need)
    ensures Picks(bs[..d + 1], mode, need, d)
  {
    var a, b := bs[..c], bs[..d + 1];
    forall i | 0 <= i < d && Fits(b[i], need) ensures Better(mode, b[d].size, b[i].size) && !Better(mode, b[i].size, b[d].size) {
      assert i < c && a[i] == b[i] && Fits(a[i], need);
      assert !Better(mode, a[i].size, a[k].size);
    }
  }

  lemma NothingOn(bs: seq<Block>, need: nat, c: nat, n: nat)
    requires c <= n <= |bs| && NothingFits(bs[..c], need) && forall i :: c <= i < n ==> !Fits(bs[i], need)
    ensures NothingFits(bs[..n], need)
  {
    forall i | 0 <= i < n ensures !Fits(bs[..n][i], need) {
      if i < c { assert bs[..c][i] == bs[i]; }
    }
  }

  /** What a search knows after the blocks before `n`: its choice among them, or that none fits. */
  ghost predicate Searched(bs: seq<Block>, mode: FitMode, need: nat, found: bool, k: nat, n: nat)
    requires n <= |bs|
  {
    if found then Picks(bs[..n], mode, need, k) else NothingFits(bs[..n], need)
  }

  lemma SearchOn(bs: seq<Block>, mode: FitMode, need: nat, found: bool, k: nat, c: nat, n: nat)
    requires c <= n <= |bs| && Searched(bs, mode, need, found, k, c)
    requires forall i :: c <= i < n && Fits(bs[i], need) ==> found && !Better(mode, bs[i].size, bs[k].size)
    ensures Searched(bs, mode, need, found, k, n)
  {
    if found {
      PicksOn(bs, mode, need, k, c, n);
    } else {
      NothingOn(bs, need, c, n);
    }
  }

  lemma SearchNone(bs: seq<Block>, mode: FitMode, need: nat)
    ensures Searched(bs, mode, need, false, 0, 0)
  {
  }

  /** The first fitting block, or one that beats the choice so far, is the new choice. */
  lemma SearchBetter(bs: seq<Block>, mode: FitMode, need: nat, found: bool, k: nat, c: nat, d: nat)
    requires c <= d < |bs| && Searched(bs, mode, need, found, k, c)
    requires Fits(bs[d], need) && forall i :: c <= i < d ==> bs[i].live
    requires found ==> k < c && Better(mode, bs[d].size, bs[k].size)
    ensures Searched(bs, mode, need, true, d, d + 1)
  {
    PicksBetter(bs, mode, need, if found then k else c, c, d);
  }

  /** One more free block, and what the search makes of it. */
  lemma SearchNext(bs: seq<Block>, mode: FitMode, need: nat, found: bool, k: nat, c: nat, d: nat)
    requires c <= d < |bs| && Searched(bs, mode, need, found, k, c) && (found ==> k < c)
    requires !bs[d].live && forall i :: c <= i < d ==> bs[i].live
    ensures if bs[d].size >= need && (!found || Better(mode, bs[d].size, bs[k].size)) then Searched(bs, mode, need, true, d, d + 1)
            else Searched(bs, mode, need, found, k, d + 1)
  {
    if bs[d].size >= need && (!found || Better(mode, bs[d].size, bs[k].size)) {
      SearchBetter(bs, mode, need, found, k, c, d);
    } else {
      SearchOn(bs, mode, need, found, k, c, d + 1);
    }
  }

  /** The search is over at the end, and under first fit as soon as something is found. */
  lemma SearchDone(bs: seq<Block>, mode: FitMode, need: nat, found: bool, k: nat, n: nat)
    requires n <= |bs| && Searched(bs, mode, need, found, k, n) && (n == |bs| || (mode == FirstFit && found))
    ensures if found then Picks(bs, mode, need, k) else NothingFits(bs, need)
  {
    assert bs[..|bs|] == bs;
    if found {
      PicksOn(bs, mode, need, k, n, |bs|);
    }
  }
}
