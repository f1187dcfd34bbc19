/** An arena allocator that keeps its free blocks in an address-sorted, coalesced list. */
module SortedLists {
  import opened Entries
  import opened Arenas
  import opened Coalescing
  import opened FreeLists

  class SortedListAllocator {
    const space: nat
    /** The two header words of the block that starts at an offset. */
    const sizes: array<nat>
    const links: array<Link>
    var mode: FitMode
    var head: Pointer
    var freeSpace: nat
    ghost var blocks: seq<Block>

    ghost predicate Valid()
      reads this, sizes, links
    {
      && sizes != links as object && sizes.Length == space && links.Length == space
      && Tiles(blocks, 0) && End(blocks, 0) == space && Coalesced(blocks)
      && Laid(sizes[..], links[..], blocks, Null)
      && head == FirstFree(blocks, Null)
      && freeSpace == FreeBytes(blocks)
    }

    /** One free block fills the arena. */
    constructor (spaceSize: nat, allocateFitMode: FitMode)
      requires spaceSize >= BLOCK_META_SIZE
      ensures Valid() && fresh(sizes) && fresh(links) && space == spaceSize && mode == allocateFitMode
      ensures blocks == [Block(0, spaceSize, false)] && freeSpace == spaceSize
    {
      space := spaceSize;
      sizes := new nat[spaceSize];
      links := new Link[spaceSize](_ => Owner);
      mode, head, freeSpace := allocateFitMode, At(0), spaceSize;
      blocks := [Block(0, spaceSize, false)];
      new;
      sizes[0] := spaceSize;
      links[0] := Next(Null);
      FreeOne(blocks[0]);
    }

    /** Walks the free list for the block the fit policy picks, remembering its predecessor. */
    method Search(need: nat) returns (target: Pointer, prev: Pointer, targetSize: nat, ghost k: nat)
      requires Valid() && head != Null
      ensures target == Null ==> NothingFits(blocks, need)
      ensures target != Null ==> Picks(blocks, mode, need, k) && target == At(blocks[k].at) && targetSize == blocks[k].size
      ensures target != Null ==> prev == LastFree(blocks[..k])
    {
      hide Laid, Tiles, Coalesced, FirstFree, LastFree, FreeBytes, Picks, End, Searched, NothingFits;
      target, prev, targetSize, k := Null, Null, 0, 0;
      ghost var words, chain := sizes[..], links[..];
      var current := head;
      ghost var c := SeekFree(blocks, 0);
      assert blocks[0..] == blocks && blocks[..0] == [];
      NoneFree([], Null);
      SearchNone(blocks, mode, need);
      LaidAround(words, chain, blocks, c);
      SearchNext(blocks, mode, need, false, 0, 0, c);
      var currentSize := sizes[current.offset];
      if currentSize >= need {
        target, targetSize, k := current, currentSize, c;
      }
      while !(mode == FirstFit && target != Null)
        invariant c < |blocks| && !blocks[c].live && current == At(blocks[c].at)
        invariant Searched(blocks, mode, need, target != Null, k, c + 1)
        invariant target != Null ==> k <= c && target == At(blocks[k].at) && targetSize == blocks[k].size && prev == LastFree(blocks[..k])
        decreases |blocks| - c
      {
        var prevBlock := current;
        ghost var d := StepFree(words, chain, blocks, c);
        current := links[current.offset].block;
        if current == Null {
          SearchOn(blocks, mode, need, target != Null, k, c + 1, |blocks|);
          SearchDone(blocks, mode, need, target != Null, k, |blocks|);
          return;
        }
        LaidAround(words, chain, blocks, d);
        SearchNext(blocks, mode, need, target != Null, k, c + 1, d);
        currentSize := sizes[current.offset];
        if currentSize >= need && (target == Null || Better(mode, currentSize, targetSize)) {
          prev := prevBlock;
          target, targetSize, k := current, currentSize, d;
        }
        c := d;
      }
      SearchDone(blocks, mode, need, true, k, c + 1);
    }

    /** Takes the whole target block, or carves the request off its front when a header fits behind it. */
    method Take(target: nat, prev: Pointer, targetSize: nat, need: nat, ghost k: nat)
      requires Valid() && k < |blocks| && Fits(blocks[k], need) && need >= BLOCK_META_SIZE
      requires target == blocks[k].at && targetSize == blocks[k].size && prev == LastFree(blocks[..k])
      modifies this, sizes, links
      ensures Valid() && blocks == Taken(old(blocks), k, need, BLOCK_META_SIZE) && mode == old(mode)
    {
      hide Laid, Tiles, Coalesced, FirstFree, LastFree, FreeBytes, Picks, End;
      ghost var links', next' := LaidTaken(sizes[..], links[..], blocks, k, need);
      ghost var sizes' := CarvedSizes(sizes[..], blocks[k], need);
      ghost var taken := TakenKeeps(blocks, k, need, BLOCK_META_SIZE, 0);
      var blockSize := need;
      var next;
      if need + BLOCK_META_SIZE > targetSize {
        next := links[target].block;
        blockSize := targetSize;
      } else {
        next := At(target + blockSize);
        links[next.offset] := links[target];
        sizes[next.offset] := targetSize - blockSize;
      }
      if prev != Null {
        links[prev.offset] := Next(next);
      } else {
        head := next;
      }
      sizes[target] := blockSize;
      links[target] := Owner;
      freeSpace := freeSpace - blockSize;
      blocks := Taken(blocks, k, need, BLOCK_META_SIZE);
      assert sizes[..] == sizes' && links[..] == links';
    }

    /** The offset of a payload of at least `valueSize * valuesCount` bytes, or nothing when no free block holds it. */
    method Allocate(valueSize: nat, valuesCount: nat) returns (r: Pointer, ghost k: nat)
      requires Valid()
      modifies this, sizes, links
      ensures Valid() && mode == old(mode)
      ensures var need := valueSize * valuesCount + BLOCK_META_SIZE;
        if NothingFits(old(blocks), need) then r == Null && blocks == old(blocks)
        else
          && Picks(old(blocks), mode, need, k) && r == At(old(blocks)[k].at + BLOCK_META_SIZE) && blocks == Taken(old(blocks), k, need, BLOCK_META_SIZE)
    {
      hide Laid, Tiles, Coalesced, FirstFree, LastFree, FreeBytes, End, Taken;
      var need := valueSize * valuesCount + BLOCK_META_SIZE;
      k := 0;
      if head == Null {
        NoneFree(blocks, Null);
        return Null, k;
      }
      var target, prev, targetSize;
      target, prev, targetSize, k := Search(need);
      if target == Null {
        return Null, k;
      }
      Take(target.offset, prev, targetSize, need, k);
      r := At(target.offset + BLOCK_META_SIZE);
    }

    /** The free blocks on either side of a block in use. */
    method Neighbours(at: nat, ghost k: nat) returns (prev: Pointer, next: Pointer)
      requires Valid() && k < |blocks| && blocks[k].live && at == blocks[k].at + BLOCK_META_SIZE
      ensures prev == LastFree(blocks[..k]) && next == FirstFree(blocks[k + 1..], Null)
    {
      hide Laid, Tiles, Coalesced, FirstFree, LastFree, FreeBytes, End;
      prev, next := Null, head;
      ghost var j := 0;
      assert blocks[0..] == blocks && blocks[..0] == [];
      NoneFree([], Null);
      while next != Null && next.offset < at
        invariant j <= k && prev == LastFree(blocks[..j]) && next == FirstFree(blocks[j..], Null)
        decreases k - j
      {
        ghost var d := SeekFree(blocks, j);
        BelowPayload(d, k);
        ghost var _ := StepFree(sizes[..], links[..], blocks, d);
        LaidAround(sizes[..], links[..], blocks, d);
        LastNeighbour(blocks, d + 1);
        prev := next;
        next := links[next.offset].block;
        j := d + 1;
      }
      ghost var d := SeekFree(blocks, j);
      if d < |blocks| {
        BelowPayload(d, k);
      }
      LiveStretch(blocks, j, k);
      LiveStretch(blocks, j, k + 1);
    }

    /** The free blocks below a block's payload are those before the block. */
    lemma BelowPayload(d: nat, k: nat)
      requires Valid() && d < |blocks| && k < |blocks| && blocks[k].live && !blocks[d].live
      ensures blocks[d].at < blocks[k].at + BLOCK_META_SIZE <==> d < k
    {
      if d < k {
        TilesApart(blocks, 0, d, k);
      } else {
        TilesApart(blocks, 0, k, d);
        TilesEnd(blocks, 0, k);
      }
    }

    /** Returns a block to the list, merged with the free blocks that touch it. */
    method Release(x: nat, at: nat, ghost k: nat)
      requires Valid() && k < |blocks| && blocks[k].live && x == blocks[k].at && at == x + BLOCK_META_SIZE
      modifies this, sizes, links
      ensures Valid() && blocks == Released(old(blocks), k) && mode == old(mode)
    {
      hide Laid, Tiles, Coalesced, FirstFree, LastFree, FreeBytes, End, Released;
      ghost var sizes', links', next', prev' := LaidReleased(sizes[..], links[..], blocks, k);
      ReleasedKeeps(blocks, k, 0);
      var size := sizes[x];
      var prev, next := Neighbours(at, k);
      ghost var sizes0, links0 := sizes[..], links[..];
      if next != Null {
        if x + size == next.offset {
          sizes[x] := sizes[x] + sizes[next.offset];
          links[x] := links[next.offset];
        } else {
          links[x] := Next(next);
        }
      } else {
        links[x] := Next(Null);
      }
      assert sizes[..] == RightSizes(sizes0, blocks[k], next) && links[..] == RightLinks(links0, blocks[k], next);
      sizes0, links0 := sizes[..], links[..];
      if prev != Null {
        if prev.offset + sizes[prev.offset] == x {
          sizes[prev.offset] := sizes[prev.offset] + sizes[x];
          links[prev.offset] := links[x];
        } else {
          links[prev.offset] := Next(At(x));
        }
      } else {
        head := At(x);
      }
      assert sizes[..] == LeftSizes(sizes0, x, prev) && links[..] == LeftLinks(sizes0, links0, x, prev);
      freeSpace := freeSpace + size;
      blocks := Released(blocks, k);
    }

    /**
     * Frees the payload at `at`, an offset from the first byte of the arena. The null pointer is
     * ignored; a payload outside the arena or of a block not in use is rejected, and nothing changes.
     */
    method Deallocate(at: Option<int>, ghost k: nat) returns (ok: bool)
      requires Valid()
      requires at.Some? && 0 <= at.value < space ==> k < |blocks| && at.value == blocks[k].at + BLOCK_META_SIZE
      modifies this, sizes, links
      ensures Valid() && mode == old(mode)
      ensures ok <==> at.None? || (0 <= at.value < space && old(blocks)[k].live)
      ensures blocks == if at.Some? && ok then Released(old(blocks), k) else old(blocks)
    {
      hide Laid, Tiles, Coalesced, FirstFree, LastFree, FreeBytes, End, Released;
      if at.None? {
        return true;
      }
      if at.value < 0 || at.value >= space {
        return false;
      }
      LaidAround(sizes[..], links[..], blocks, k);
      var x := at.value - BLOCK_META_SIZE;
      if links[x] != Owner {
        return false;
      }
      Release(x, at.value, k);
      ok := true;
    }

    /** The sizes of the blocks in address order, and which are in use. */
    method CreateBlocksInfo() returns (info: seq<BlockInfo>)
      requires Valid()
      ensures info == Infos(blocks)
    {
      hide Laid, Tiles, Coalesced, FirstFree, LastFree, FreeBytes, End;
      info := [];
      var current, avail := 0, head;
      ghost var i := 0;
      InfoStart();
      while current < space
        invariant i <= |blocks| && current == (if i == |blocks| then space else blocks[i].at)
        invariant avail == FirstFree(blocks[i..], Null) && info == Infos(blocks[..i])
        invariant i < |blocks| ==> blocks[i].at < space
        decreases |blocks| - i
      {
        InfoStep(i);
        var size := sizes[current];
        if avail != Null && current == avail.offset {
          avail := links[avail.offset].block;
          info := info + [BlockInfo(size, false)];
        } else {
          info := info + [BlockInfo(size, true)];
        }
        current := current + size;
        i := i + 1;
      }
      assert blocks[..i] == blocks;
    }

    lemma InfoStart()
      requires Valid()
      ensures blocks == [] ==> space == 0
      ensures blocks != [] ==> blocks[0].at == 0 < space
      ensures blocks[0..] == blocks && Infos(blocks[..0]) == []
    {
      if blocks != [] {
        TilesEnd(blocks, 0, 0);
      }
    }

    lemma InfoStep(i: nat)
      requires Valid() && i < |blocks|
      ensures blocks[i].at < space && sizes[blocks[i].at] == blocks[i].size
      ensures blocks[i].at + blocks[i].size == if i + 1 == |blocks| then space else blocks[i + 1].at
      ensures i + 1 < |blocks| ==> blocks[i + 1].at < space
      ensures FirstFree(blocks[i..], Null) == At(blocks[i].at) <==> !blocks[i].live
      ensures !blocks[i].live ==> links[blocks[i].at] == Next(FirstFree(blocks[i + 1..], Null))
      ensures blocks[i].live ==> FirstFree(blocks[i..], Null) == FirstFree(blocks[i + 1..], Null)
      ensures Infos(blocks[..i + 1]) == Infos(blocks[..i]) + [BlockInfo(blocks[i].size, blocks[i].live)]
    {
      TilesEnd(blocks, 0, i);
      LaidAround(sizes[..], links[..], blocks, i);
      TilesAround(blocks, 0, i);
      if i + 1 < |blocks| {
        StartsAt(blocks, i + 1);
        TilesEnd(blocks, 0, i + 1);
      } else {
        assert blocks[i + 1..] == [];
      }
      assert blocks[i..][1..] == blocks[i + 1..];
      var d := SeekFree(blocks, i);
      if i < d < |blocks| {
        TilesApart(blocks, 0, i, d);
      }
    }
  }

  /** The allocator hands out, and then refuses to take back, an empty payload at the end of its arena. */
  method EmptyPayloadAtEnd() returns (r: Pointer, ok: bool)
    ensures r == At(BLOCK_META_SIZE) && !ok
  {
    var arena := new SortedListAllocator(BLOCK_META_SIZE, FirstFit);
    ghost var k;
    r, k := arena.Allocate(0, 0);
    ok := arena.Deallocate(Some(r.offset), k);
  }

  /** Two requests for two bytes each fill an arena of 36 bytes: a header takes 16, and a payload follows its header. */
  method TwoRequests() returns (first: Pointer, second: Pointer, third: Pointer)
    ensures first == At(16) && second == At(34) && third == Null
  {
    var arena := new SortedListAllocator(36, FirstFit);
    ghost var k;
    ghost var bs := arena.blocks;
    assert Fits(bs[0], 18);
    first, k := arena.Allocate(2, 1);
    assert k == 0 && arena.blocks == [Block(0, 18, true), Block(18, 18, false)];
    assert Fits(arena.blocks[1], 18);
    second, k := arena.Allocate(1, 2);
    assert arena.blocks == [Block(0, 18, true), Block(18, 18, true)];
    third, k := arena.Allocate(0, 0);
  }

  /** Returning what was just allocated restores the blocks, the free list and the counter, under every fit mode. */
  method AllocateAndReturn(arena: SortedListAllocator, valueSize: nat, valuesCount: nat) returns (r: Pointer, ok: bool, ghost k: nat)
    requires arena.Valid()
    modifies arena, arena.sizes, arena.links
    ensures arena.Valid()
    ensures r == Null <==> NothingFits(old(arena.blocks), valueSize * valuesCount + BLOCK_META_SIZE)
    ensures r != Null ==> Picks(old(arena.blocks), old(arena.mode), valueSize * valuesCount + BLOCK_META_SIZE, k)
    ensures !ok <==> r != Null && k + 1 == |old(arena.blocks)| && old(arena.blocks)[k].size == BLOCK_META_SIZE
    ensures !ok ==> valueSize * valuesCount == 0 && r == At(arena.space)
    ensures ok ==> arena.blocks == old(arena.blocks) && arena.head == old(arena.head) && arena.freeSpace == old(arena.freeSpace)
  {
    hide Laid, Tiles, FirstFree, LastFree, FreeBytes, End, Released, Taken, Coalesced, NothingFits;
    ghost var was := arena.blocks;
    r, k := arena.Allocate(valueSize, valuesCount);
    ok := true;
    if r == Null {
      return;
    }
    FitsSomething(was, arena.mode, valueSize * valuesCount + BLOCK_META_SIZE, k);
    PayloadOutside(was, k, BLOCK_META_SIZE);
    TilesEnd(was, 0, k);

    ghost var taken := TakenKeeps(was, k, valueSize * valuesCount + BLOCK_META_SIZE, BLOCK_META_SIZE, 0);
    ok := arena.Deallocate(Some(r.offset), k);
    ReleaseTaken(was, k, valueSize * valuesCount + BLOCK_META_SIZE, BLOCK_META_SIZE);
  }

  /** Building an allocator fails when its arena does not even hold one header. */
  method Create(spaceSize: nat, allocateFitMode: FitMode) returns (r: Option<SortedListAllocator>)
    ensures r.Some? <==> spaceSize >= BLOCK_META_SIZE
    ensures r.Some? ==> fresh(r.value) && r.value.Valid() && r.value.space == spaceSize && r.value.mode == allocateFitMode
    ensures r.Some? ==> r.value.blocks == [Block(0, spaceSize, false)] && r.value.freeSpace == spaceSize
  {
    if spaceSize < BLOCK_META_SIZE {
      return None;
    }
    var arena := new SortedListAllocator(spaceSize, allocateFitMode);
    r := Some(arena);
  }
}
