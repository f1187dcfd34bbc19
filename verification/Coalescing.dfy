/** What allocation and release do to the blocks of an arena with coalesced free space. */
module Coalescing {
  import opened Basics
  import opened Arenas

  /** The blocks that replace a free block of which `need` bytes are taken: a remainder too short for a header goes along. */
  ghost function Carved(b: Block, need: nat, meta: nat): seq<Block> {
    if need + meta > b.size then [Block(b.at, b.size, true)]
    else [Block(b.at, need, true), Block(b.at + need, b.size - need, false)]
  }

  ghost function Taken(bs: seq<Block>, k: nat, need: nat, meta: nat): seq<Block>
    requires k < |bs|
  {
    bs[..k] + Carved(bs[k], need, meta) + bs[k + 1..]
  }

  /** A freed block swallows a free right neighbour. */
  ghost function JoinRight(f: Block, b: seq<Block>): (r: seq<Block>)
    ensures r != []
  {
    if b != [] && !b[0].live then [Block(f.at, f.size + b[0].size, false)] + b[1..] else [f] + b
  }

  /** A free left neighbour swallows a freed block. */
  ghost function JoinLeft(a: seq<Block>, r: seq<Block>): seq<Block>
    requires r != []
  {
    if a != [] && !a[|a| - 1].live then
      a[..|a| - 1] + [Block(a[|a| - 1].at, a[|a| - 1].size + r[0].size, false)] + r[1..]
    else a + r
  }

  ghost function Released(bs: seq<Block>, k: nat): seq<Block>
    requires k < |bs|
  {
    JoinLeft(bs[..k], JoinRight(Block(bs[k].at, bs[k].size, false), bs[k + 1..]))
  }

  /** The blocks in use, in address order. */
  ghost function Lives(bs: seq<Block>): seq<Block> {
    if bs == [] then [] else (if bs[0].live then [bs[0]] else []) + Lives(bs[1..])
  }

  lemma {:induction false} LivesConcat(a: seq<Block>, b: seq<Block>)
    ensures Lives(a + b) == Lives(a) + Lives(b)
  {
    if a == [] {
      assert a + b == b;
    } else {
      assert (a + b)[1..] == a[1..] + b;
      LivesConcat(a[1..], b);
      Assoc(if a[0].live then [a[0]] else [], Lives(a[1..]), Lives(b));
    }
  }

  lemma LivesReplace(a: seq<Block>, m: seq<Block>, b: seq<Block>)
    ensures Lives(a + m + b) == Lives(a) + Lives(m) + Lives(b)
  {
    LivesConcat(a + m, b);
    LivesConcat(a, m);
  }

  lemma CoalescedReplace(a: seq<Block>, m: seq<Block>, b: seq<Block>)
    requires Coalesced(a) && Coalesced(m) && Coalesced(b) && m != []
    requires a != [] ==> a[|a| - 1].live || m[0].live
    requires b != [] ==> m[|m| - 1].live || b[0].live
    ensures Coalesced(a + m + b)
  {
    var s := a + m + b;
    forall i | 0 < i < |s| ensures s[i - 1].live || s[i].live {
      if i < |a| {
        assert a[i - 1].live || a[i].live;
      } else if |a| < i < |a| + |m| {
        assert m[i - |a| - 1].live || m[i - |a|].live;
      } else if i > |a| + |m| {
        assert b[i - |a| - |m| - 1].live || b[i - |a| - |m|].live;
      }
    }
  }

  lemma CoalescedSplit(bs: seq<Block>, k: nat)
    requires Coalesced(bs) && k < |bs|
    ensures Coalesced(bs[..k]) && Coalesced(bs[k + 1..])
    ensures k > 0 ==> bs[..k][k - 1] == bs[k - 1]
    ensures k + 1 < |bs| ==> bs[k + 1..][0] == bs[k + 1]
  {
  }

  lemma FreeOne(b: Block)
    ensures Lives([b]) == (if b.live then [b] else []) && Coalesced([b])
    ensures FreeBytes([b]) == (if b.live then 0 else b.size)
    ensures forall start: nat :: Tiles([b], start) <==> b.at == start && b.size >= BLOCK_META_SIZE
    ensures forall start: nat :: End([b], start) == start + b.size
  {
  }

  ghost function FreePart(b: Block): nat {
    if b.live then 0 else b.size
  }

  lemma Two(x: Block, y: Block, start: nat)
    ensures Tiles([x, y], start) <==> x.at == start && y.at == start + x.size && x.size >= BLOCK_META_SIZE && y.size >= BLOCK_META_SIZE
    ensures End([x, y], start) == start + x.size + y.size && FreeBytes([x, y]) == FreePart(x) + FreePart(y)
    ensures Lives([x, y]) == Lives([x]) + Lives([y])
    ensures Lives([x]) == (if x.live then [x] else []) && Lives([y]) == (if y.live then [y] else [])
  {
    hide Lives;
    assert [x, y] == [x] + [y];
    TilesConcat([x], [y], start);
    FreeConcat([x], [y]);
    LivesConcat([x], [y]);
    FreeOne(x);
    FreeOne(y);
  }

  lemma CarvedKeeps(b: Block, need: nat, meta: nat)
    requires !b.live && BLOCK_META_SIZE <= need <= b.size && BLOCK_META_SIZE <= meta
    ensures Tiles(Carved(b, need, meta), b.at) && End(Carved(b, need, meta), b.at) == b.at + b.size
    ensures FreeBytes(Carved(b, need, meta)) == b.size - Carved(b, need, meta)[0].size && Coalesced(Carved(b, need, meta))
    ensures Lives(Carved(b, need, meta)) == [Carved(b, need, meta)[0]] && Carved(b, need, meta)[0].live
    ensures need <= Carved(b, need, meta)[0].size
  {
    hide Tiles, End, FreeBytes, Lives;
    if need + meta <= b.size {
      Two(Block(b.at, need, true), Block(b.at + need, b.size - need, false), b.at);
    } else {
      FreeOne(Block(b.at, b.size, true));
    }
  }

  /** Allocation keeps the tiling and the coalescing; exactly the new block is added to those in use. */
  lemma TakenKeeps(bs: seq<Block>, k: nat, need: nat, meta: nat, start: nat) returns (taken: Block)
    requires Tiles(bs, start) && Coalesced(bs) && k < |bs| && Fits(bs[k], need) && need >= BLOCK_META_SIZE && meta >= BLOCK_META_SIZE
    ensures k < |Taken(bs, k, need, meta)| && taken == Taken(bs, k, need, meta)[k]
    ensures taken.live && taken.at == bs[k].at && need <= taken.size < need + meta
    ensures taken.size == need || taken.size == bs[k].size
    ensures Tiles(Taken(bs, k, need, meta), start) && End(Taken(bs, k, need, meta), start) == End(bs, start)
    ensures Coalesced(Taken(bs, k, need, meta))
    ensures FreeBytes(Taken(bs, k, need, meta)) == FreeBytes(bs) - taken.size
    ensures Lives(Taken(bs, k, need, meta)) == Lives(bs[..k]) + [taken] + Lives(bs[k + 1..])
    ensures Lives(bs) == Lives(bs[..k]) + Lives(bs[k + 1..])
  {
    hide Tiles, End, FreeBytes, Lives;
    var m := Carved(bs[k], need, meta);
    taken := m[0];
    TilesAround(bs, start, k);
    TilesReplace(bs[..k], m, bs[k + 1..], start);
    CarvedKeeps(bs[k], need, meta);
    CoalescedSplit(bs, k);
    CoalescedReplace(bs[..k], m, bs[k + 1..]);
    LivesReplace(bs[..k], m, bs[k + 1..]);
    LivesReplace(bs[..k], [bs[k]], bs[k + 1..]);
    FreeOne(bs[k]);
  }

  /** The block the released one becomes part of, and how many neighbours it swallows. */
  lemma ReleasedParts(bs: seq<Block>, k: nat, start: nat) returns (i: nat, j: nat, merged: Block)
    requires Tiles(bs, start) && Coalesced(bs) && k < |bs| && bs[k].live
    ensures i <= k < j <= |bs| && k <= i + 1 && j <= k + 2
    ensures Released(bs, k) == bs[..i] + [merged] + bs[j..] && !merged.live
    ensures i < k <==> k > 0 && !bs[k - 1].live
    ensures j > k + 1 <==> k + 1 < |bs| && !bs[k + 1].live
    ensures merged.at == bs[i].at
    ensures merged.size == (if i < k then bs[k - 1].size else 0) + bs[k].size + (if j > k + 1 then bs[k + 1].size else 0)
  {
    var a, b, f := bs[..k], bs[k + 1..], Block(bs[k].at, bs[k].size, false);
    i, j := k, k + 1;
    if b != [] && !b[0].live {
      j := k + 2;
      assert b[1..] == bs[j..];
    }
    var r := JoinRight(f, b);
    assert r[1..] == bs[j..];
    if a != [] && !a[k - 1].live {
      i := k - 1;
      assert a[..i] == bs[..i];
    } else {
      assert r == [r[0]] + bs[j..];
      assert a + r == a + [r[0]] + bs[j..];
    }
    merged := Released(bs, k)[i];
  }

  /** The stretch of blocks the release replaces. */
  lemma ReleasedMiddle(bs: seq<Block>, k: nat, start: nat, i: nat, j: nat)
    requires Tiles(bs, start) && k < |bs| && bs[k].live && i <= k < j <= |bs| && k <= i + 1 && j <= k + 2
    requires (i < k ==> !bs[k - 1].live) && (j > k + 1 ==> !bs[k + 1].live)
    ensures Lives(bs[i..j]) == [bs[k]] && Tiles(bs[i..j], bs[i].at) && bs[i].at == End(bs[..i], start)
    ensures var before, after := (if i < k then bs[k - 1].size else 0), (if j > k + 1 then bs[k + 1].size else 0);
      End(bs[i..j], bs[i].at) == bs[i].at + before + bs[k].size + after && FreeBytes(bs[i..j]) == before + after
  {
    hide Tiles, End, FreeBytes, Lives;
    TilesAround(bs, start, i);
    var m := bs[i..j];
    assert bs == bs[..i] + m + bs[j..];
    TilesReplace(bs[..i], m, bs[j..], start);
    if j == i + 1 {
      assert m == [bs[i]];
      FreeOne(bs[i]);
    } else if j == i + 2 {
      assert m == [bs[i], bs[i + 1]];
      Two(bs[i], bs[i + 1], bs[i].at);
    } else {
      assert m == [bs[i]] + [bs[k], bs[k + 1]];
      Two(bs[k], bs[k + 1], bs[i].at + bs[i].size);
      TilesConcat([bs[i]], [bs[k], bs[k + 1]], bs[i].at);
      FreeConcat([bs[i]], [bs[k], bs[k + 1]]);
      LivesConcat([bs[i]], [bs[k], bs[k + 1]]);
      FreeOne(bs[i]);
    }
  }

  /** Release keeps the tiling and the coalescing; exactly the released block is no longer in use. */
  lemma ReleasedKeeps(bs: seq<Block>, k: nat, start: nat)
    requires Tiles(bs, start) && Coalesced(bs) && k < |bs| && bs[k].live
    ensures Tiles(Released(bs, k), start) && End(Released(bs, k), start) == End(bs, start) && Coalesced(Released(bs, k))
    ensures FreeBytes(Released(bs, k)) == FreeBytes(bs) + bs[k].size
    ensures Lives(Released(bs, k)) == Lives(bs[..k]) + Lives(bs[k + 1..])
    ensures Lives(bs) == Lives(bs[..k]) + [bs[k]] + Lives(bs[k + 1..])
  {
    hide Tiles, End, FreeBytes, Lives, Released;
    var i, j, merged := ReleasedParts(bs, k, start);
    ReleasedMiddle(bs, k, start, i, j);
    assert bs == bs[..i] + bs[i..j] + bs[j..];
    TilesReplace(bs[..i], bs[i..j], bs[j..], start);
    TilesReplace(bs[..i], [merged], bs[j..], start);
    LivesReplace(bs[..i], [merged], bs[j..]);
    FreeOne(merged);
    assert Tiles([merged], bs[i].at) by { TilesAround(bs, start, k); }
    CoalescedReplace(bs[..i], [merged], bs[j..]);
    LivesSides(bs, k, i, j);
  }

  lemma LivesSides(bs: seq<Block>, k: nat, i: nat, j: nat)
    requires i <= k < j <= |bs| && k <= i + 1 && j <= k + 2 && bs[k].live
    requires (i < k ==> !bs[k - 1].live) && (j > k + 1 ==> !bs[k + 1].live)
    ensures Lives(bs[..k]) == Lives(bs[..i]) && Lives(bs[k + 1..]) == Lives(bs[j..])
    ensures Lives(bs) == Lives(bs[..k]) + [bs[k]] + Lives(bs[k + 1..])
  {
    hide Lives, Coalesced;
    LivesAround(bs, k);
    if i < k {
      assert bs[..k] == bs[..i] + [bs[i]];
      LivesConcat(bs[..i], [bs[i]]);
      FreeOne(bs[i]);
    }
    if j > k + 1 {
      assert bs[k + 1..] == [bs[k + 1]] + bs[j..];
      LivesConcat([bs[k + 1]], bs[j..]);
      FreeOne(bs[k + 1]);
    }
  }

  lemma LivesAround(bs: seq<Block>, k: nat)
    requires k < |bs| && bs[k].live
    ensures Lives(bs) == Lives(bs[..k]) + [bs[k]] + Lives(bs[k + 1..])
  {
    hide Lives;
    SplitAt(bs, k);
    LivesReplace(bs[..k], [bs[k]], bs[k + 1..]);
    FreeOne(bs[k]);
  }

  /** Releasing the block just allocated restores the blocks exactly, whether or not it was carved off. */
  lemma ReleaseTaken(bs: seq<Block>, k: nat, need: nat, meta: nat)
    requires Coalesced(bs) && k < |bs| && Fits(bs[k], need)
    ensures Released(Taken(bs, k, need, meta), k) == bs
  {
    hide Carved, Taken, JoinRight;
    CoalescedSplit(bs, k);
    TakenSides(bs, k, need, meta);
    CarvedJoin(bs[k], need, meta, bs[k + 1..]);
    assert bs == bs[..k] + ([bs[k]] + bs[k + 1..]);
  }

  lemma CarvedJoin(x: Block, need: nat, meta: nat, b: seq<Block>)
    requires !x.live && need <= x.size && (b == [] || b[0].live)
    ensures Carved(x, need, meta) != [] && Carved(x, need, meta)[0].at == x.at
    ensures JoinRight(Block(x.at, Carved(x, need, meta)[0].size, false), Carved(x, need, meta)[1..] + b) == [x] + b
  {
    var m := Carved(x, need, meta);
    if |m| == 2 {
      assert (m[1..] + b)[1..] == b;
    } else {
      assert m[1..] + b == b;
    }
  }

  lemma TakenSides(bs: seq<Block>, k: nat, need: nat, meta: nat)
    requires k < |bs|
    ensures var t, m := Taken(bs, k, need, meta), Carved(bs[k], need, meta);
      t[..k] == bs[..k] && t[k] == m[0] && t[k + 1..] == m[1..] + bs[k + 1..]
  {
    hide Carved;
    var m := Carved(bs[k], need, meta);
    assert m != [] by { Nonempty(bs[k], need, meta); }
    assert bs[..k] + m + bs[k + 1..] == bs[..k] + [m[0]] + (m[1..] + bs[k + 1..]);
  }

  lemma Nonempty(b: Block, need: nat, meta: nat)
    ensures Carved(b, need, meta) != []
  {
  }

  ghost function LiveBytes(bs: seq<Block>): nat {
    if bs == [] then 0 else (if bs[0].live then bs[0].size else 0) + LiveBytes(bs[1..])
  }

  /** Every byte of the arena is either free or in a block in use. */
  lemma {:induction false} Accounting(bs: seq<Block>, start: nat)
    requires Tiles(bs, start)
    ensures FreeBytes(bs) + LiveBytes(bs) == End(bs, start) - start
  {
    if bs != [] {
      Accounting(bs[1..], start + bs[0].size);
    }
  }

  lemma {:induction false} NoLives(bs: seq<Block>)
    requires Lives(bs) == []
    ensures forall i :: 0 <= i < |bs| ==> !bs[i].live
  {
    if bs != [] {
      NoLives(bs[1..]);
      forall i | 0 <= i < |bs| ensures !bs[i].live {
        if i > 0 { assert bs[1..][i - 1] == bs[i]; }
      }
    }
  }

  /** Once every block has been released the arena is one free block again. */
  lemma NothingLeaks(bs: seq<Block>, space: nat)
    requires Tiles(bs, 0) && End(bs, 0) == space > 0 && Coalesced(bs) && Lives(bs) == []
    ensures bs == [Block(0, space, false)]
  {
    NoLives(bs);
    if |bs| > 1 {
      assert false;
    }
    assert bs[1..] == [];
  }

  /** The payloads of two blocks in use never overlap. */
  lemma PayloadsApart(bs: seq<Block>, start: nat, i: nat, j: nat, x: nat)
    requires Tiles(bs, start) && i < |bs| && j < |bs|
    requires bs[i].at + BLOCK_META_SIZE <= x < bs[i].at + bs[i].size && bs[j].at + BLOCK_META_SIZE <= x < bs[j].at + bs[j].size
    ensures i == j
  {
    if i < j {
      TilesApart(bs, start, i, j);
    } else if j < i {
      TilesApart(bs, start, j, i);
    }
  }

  /** A payload starts outside the arena just when it is the empty payload of the last block. */
  lemma PayloadOutside(bs: seq<Block>, k: nat, meta: nat)
    requires Tiles(bs, 0) && k < |bs| && meta <= bs[k].size
    ensures bs[k].at + meta >= End(bs, 0) <==> k + 1 == |bs| && bs[k].size == meta
  {
    TilesAround(bs, 0, k);
    if k + 1 < |bs| {
      TilesApart(bs, 0, k, k + 1);
      TilesWithin(bs, 0);
    } else {
      assert bs[k + 1..] == [];
    }
  }

  /* ---- whole runs ---- */

  datatype Request = Take(k: nat, need: nat) | Release(k: nat)

  /** What the allocators do: carve a fitting free block, or release a block in use. */
  ghost predicate Legal(bs: seq<Block>, q: Request) {
    match q
    case Take(k, need) => k < |bs| && Fits(bs[k], need) && need >= BLOCK_META_SIZE
    case Release(k) => k < |bs| && bs[k].live
  }

  ghost function Applied(bs: seq<Block>, q: Request, meta: nat): seq<Block>
    requires Legal(bs, q)
  {
    match q
    case Take(k, need) => Taken(bs, k, need, meta)
    case Release(k) => Released(bs, k)
  }

  ghost predicate LegalRun(bs: seq<Block>, qs: seq<Request>, meta: nat)
    decreases |qs|
  {
    qs == [] || (Legal(bs, qs[0]) && LegalRun(Applied(bs, qs[0], meta), qs[1..], meta))
  }

  ghost function AfterRun(bs: seq<Block>, qs: seq<Request>, meta: nat): seq<Block>
    requires LegalRun(bs, qs, meta)
    decreases |qs|
  {
    if qs == [] then bs else AfterRun(Applied(bs, qs[0], meta), qs[1..], meta)
  }

  /** After any run the blocks tile the arena, free space is coalesced and every byte is accounted for. */
  lemma {:induction false} RunKeeps(bs: seq<Block>, qs: seq<Request>, meta: nat, space: nat)
    requires Tiles(bs, 0) && End(bs, 0) == space && Coalesced(bs) && meta >= BLOCK_META_SIZE && LegalRun(bs, qs, meta)
    ensures var now := AfterRun(bs, qs, meta);
      Tiles(now, 0) && End(now, 0) == space && Coalesced(now) && FreeBytes(now) + LiveBytes(now) == space
    decreases |qs|
  {
    hide Tiles, End, Coalesced, FreeBytes, LiveBytes, Taken, Released, Lives;
    if qs == [] {
      Accounting(bs, 0);
    } else {
      match qs[0]
      case Take(k, need) =>
        var _ := TakenKeeps(bs, k, need, meta, 0);
        RunKeeps(Applied(bs, qs[0], meta), qs[1..], meta, space);
      case Release(k) =>
        ReleasedKeeps(bs, k, 0);
        RunKeeps(Applied(bs, qs[0], meta), qs[1..], meta, space);
    }
  }
}
