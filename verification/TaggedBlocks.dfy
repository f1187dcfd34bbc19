/**
 * An arena described by its occupied blocks alone: the free space is what lies between them.
 * `Layout` turns that into the blocks of an arena, and allocation and release mean there
 * exactly what they mean for an arena with a free list.
 */
module TaggedBlocks {
  import opened Basics
  import opened Arenas
  import opened Coalescing

  /** A tag's size in bytes: size word, owner, previous and next block. */
  const TAG_META_SIZE: nat := 32

  /** An occupied block: where its tag starts and how many payload bytes follow the tag. */
  datatype Used = Used(head: nat, size: nat) {
    function Payload(): nat { head + TAG_META_SIZE }
    function End(): nat { head + TAG_META_SIZE + size }
  }

  /** From `x` to `y` there is nothing, or room for a tag. */
  ghost predicate Step(x: nat, y: nat) {
    x == y || x + TAG_META_SIZE <= y
  }

  /** The blocks come in address order, and every gap holds a tag or is empty. */
  ghost predicate Fitted(us: seq<Used>, start: nat) {
    us == [] || (Step(start, us[0].head) && Fitted(us[1..], us[0].End()))
  }

  /** Where the last block ends. */
  ghost function Past(us: seq<Used>, start: nat): nat {
    if us == [] then start else Past(us[1..], us[0].End())
  }

  /** Where the gap before the blocks ends. */
  ghost function Stop(us: seq<Used>, space: nat): nat {
    if us == [] then space else us[0].head
  }

  ghost predicate Placed(us: seq<Used>, start: nat, space: nat) {
    Fitted(us, start) && Step(Past(us, start), space)
  }

  ghost function UsedBytes(us: seq<Used>): nat {
    if us == [] then 0 else TAG_META_SIZE + us[0].size + UsedBytes(us[1..])
  }

  ghost function Gap(x: nat, y: nat): seq<Block> {
    if x < y then [Block(x, y - x, false)] else []
  }

  ghost function Occupied(u: Used): Block {
    Block(u.head, TAG_META_SIZE + u.size, true)
  }

  /** The blocks up to the end of the last occupied one. */
  ghost function Body(us: seq<Used>, start: nat): seq<Block> {
    if us == [] then [] else Gap(start, us[0].head) + [Occupied(us[0])] + Body(us[1..], us[0].End())
  }

  /** All blocks of the arena from `start` on. */
  ghost function Layout(us: seq<Used>, start: nat, space: nat): seq<Block> {
    Body(us, start) + Gap(Past(us, start), space)
  }

  lemma {:induction false} BodyConcat(a: seq<Used>, b: seq<Used>, start: nat)
    ensures Body(a + b, start) == Body(a, start) + Body(b, Past(a, start))
    ensures Past(a + b, start) == Past(b, Past(a, start))
    ensures Fitted(a + b, start) <==> Fitted(a, start) && Fitted(b, Past(a, start))
    ensures UsedBytes(a + b) == UsedBytes(a) + UsedBytes(b)
  {
    if a == [] {
      assert a + b == b;
    } else {
      assert (a + b)[1..] == a[1..] + b;
      BodyConcat(a[1..], b, a[0].End());
    }
  }

  lemma GapTiles(x: nat, y: nat)
    requires Step(x, y)
    ensures Tiles(Gap(x, y), x) && End(Gap(x, y), x) == y && Coalesced(Gap(x, y))
    ensures FreeBytes(Gap(x, y)) == y - x && Lives(Gap(x, y)) == []
    ensures |Gap(x, y)| <= 1 && (Gap(x, y) != [] ==> !Gap(x, y)[0].live)
  {
  }

  /** The occupied blocks, as blocks. */
  ghost function Occupieds(us: seq<Used>): seq<Block> {
    seq(|us|, i requires 0 <= i < |us| => Occupied(us[i]))
  }

  lemma OccupiedsCons(us: seq<Used>)
    requires us != []
    ensures Occupieds(us) == [Occupied(us[0])] + Occupieds(us[1..])
  {
  }

  lemma OccupiedOne(u: Used)
    ensures Tiles([Occupied(u)], u.head) && End([Occupied(u)], u.head) == u.End() && Coalesced([Occupied(u)])
    ensures FreeBytes([Occupied(u)]) == 0 && Lives([Occupied(u)]) == [Occupied(u)]
  {
    FreeOne(Occupied(u));
  }

  /** The layout from one occupied block on. */
  lemma LayoutCons(us: seq<Used>, start: nat, space: nat)
    requires us != []
    ensures Layout(us, start, space) == Gap(start, us[0].head) + [Occupied(us[0])] + Layout(us[1..], us[0].End(), space)
  {
    AssocFour(Gap(start, us[0].head), [Occupied(us[0])], Body(us[1..], us[0].End()), Gap(Past(us, start), space));
  }

  /** The gaps and the occupied blocks tile the arena, gaps never touch, and the sizes add up. */
  lemma {:induction false} LayoutTiles(us: seq<Used>, start: nat, space: nat)
    requires Placed(us, start, space)
    ensures start <= space && Tiles(Layout(us, start, space), start) && End(Layout(us, start, space), start) == space
    ensures Coalesced(Layout(us, start, space)) && Lives(Layout(us, start, space)) == Occupieds(us)
    ensures FreeBytes(Layout(us, start, space)) == space - start - UsedBytes(us)
  {
    hide Layout, Tiles, End, FreeBytes, Lives, Coalesced, Gap, Step;
    if us == [] {
      LayoutNone(start, space);
    } else {
      var u, rest := us[0], Layout(us[1..], us[0].End(), space);
      LayoutCons(us, start, space);
      LayoutTiles(us[1..], u.End(), space);
      GapTiles(start, u.head);
      OccupiedOne(u);
      TilesReplace(Gap(start, u.head), [Occupied(u)], rest, start);
      CoalescedReplace(Gap(start, u.head), [Occupied(u)], rest);
      LivesReplace(Gap(start, u.head), [Occupied(u)], rest);
      OccupiedsCons(us);
    }
  }

  lemma LayoutNone(start: nat, space: nat)
    requires Step(start, space)
    ensures Layout([], start, space) == Gap(start, space) && start <= space
    ensures Tiles(Layout([], start, space), start) && End(Layout([], start, space), start) == space
    ensures Coalesced(Layout([], start, space)) && Lives(Layout([], start, space)) == []
    ensures FreeBytes(Layout([], start, space)) == space - start
  {
    assert [] + Gap(start, space) == Gap(start, space);
    GapTiles(start, space);
  }

  /** What follows the gap before the blocks. */
  ghost function Rest(us: seq<Used>, space: nat): seq<Block> {
    if us == [] then [] else [Occupied(us[0])] + Layout(us[1..], us[0].End(), space)
  }

  lemma LayoutStop(us: seq<Used>, start: nat, space: nat)
    ensures Layout(us, start, space) == Gap(start, Stop(us, space)) + Rest(us, space)
  {
    hide Gap, Layout;
    if us != [] {
      LayoutCons(us, start, space);
      Assoc(Gap(start, us[0].head), [Occupied(us[0])], Layout(us[1..], us[0].End(), space));
    } else {
      LayoutEmpty(start, space);
    }
  }

  lemma LayoutEmpty(start: nat, space: nat)
    ensures Layout([], start, space) == Gap(start, space) + Rest([], space)
  {
  }

  /** The layout around gap `i`, the one before occupied block `i`. */
  lemma LayoutAround(a: seq<Used>, b: seq<Used>, start: nat, space: nat)
    ensures Layout(a + b, start, space) == Body(a, start) + Layout(b, Past(a, start), space)
    ensures Layout(a + b, start, space) == Body(a, start) + Gap(Past(a, start), Stop(b, space)) + Rest(b, space)
  {
    hide Gap, Body, Rest;
    BodyConcat(a, b, start);
    var s := Past(a, start);
    Assoc(Body(a, start), Body(b, s), Gap(Past(b, s), space));
    LayoutStop(b, s, space);
    Assoc(Body(a, start), Gap(s, Stop(b, space)), Rest(b, space));
  }

  /** The block that takes `need` bytes, tag included, from the start of gap `i`. */
  ghost function Placing(us: seq<Used>, i: nat, need: nat, space: nat): Used
    requires i <= |us| && Past(us[..i], 0) + need <= Stop(us[i..], space) && need >= TAG_META_SIZE
  {
    var s, e := Past(us[..i], 0), Stop(us[i..], space);
    Used(s, (if e - s - need < TAG_META_SIZE then e - s else need) - TAG_META_SIZE)
  }

  /** Where gap `i` stands among the blocks of the layout. */
  ghost function GapIndex(us: seq<Used>, i: nat): nat
    requires i <= |us|
  {
    |Body(us[..i], 0)|
  }

  lemma PlacedSplit(a: seq<Used>, b: seq<Used>, space: nat)
    ensures Placed(a + b, 0, space) <==> Fitted(a, 0) && Placed(b, Past(a, 0), space)
    ensures UsedBytes(a + b) == UsedBytes(a) + UsedBytes(b)
    ensures Placed(b, Past(a, 0), space) ==> Step(Past(a, 0), Stop(b, space))
  {
    BodyConcat(a, b, 0);
  }

  lemma PlacedCons(n: Used, b: seq<Used>, start: nat, space: nat, was: nat)
    requires Step(start, n.head) && Placed(b, was, space) && Step(n.End(), Stop(b, space))
    ensures Placed([n] + b, start, space) && UsedBytes([n] + b) == TAG_META_SIZE + n.size + UsedBytes(b)
    ensures Layout([n] + b, start, space) == Gap(start, n.head) + [Occupied(n)] + (Gap(n.End(), Stop(b, space)) + Rest(b, space))
  {
    assert ([n] + b)[1..] == b;
    assert Placed(b, n.End(), space);
    LayoutCons([n] + b, start, space);
    LayoutStop(b, n.End(), space);
  }

  lemma CarvedGap(s: nat, e: nat, need: nat, n: Used)
    requires s + need <= e && need >= TAG_META_SIZE
    requires n == Used(s, (if e - s - need < TAG_META_SIZE then e - s else need) - TAG_META_SIZE)
    ensures Gap(s, e) == [Block(s, e - s, false)] && Gap(s, s) == []
    ensures Carved(Block(s, e - s, false), need, TAG_META_SIZE) == [Occupied(n)] + Gap(n.End(), e)
    ensures Step(n.End(), e)
  {
  }

  /** Allocating in gap `i` is, on the layout, allocating that free block. */
  lemma PlacingTakes(us: seq<Used>, i: nat, need: nat, space: nat)
    returns (n: Used, k: nat)
    requires i <= |us| && Placed(us, 0, space) && Past(us[..i], 0) + need <= Stop(us[i..], space) && need >= TAG_META_SIZE
    ensures n == Placing(us, i, need, space) && k == GapIndex(us, i) < |Layout(us, 0, space)|
    ensures Layout(us, 0, space)[k] == Block(n.head, Stop(us[i..], space) - n.head, false)
    ensures Placed(us[..i] + [n] + us[i..], 0, space)
    ensures UsedBytes(us[..i] + [n] + us[i..]) == UsedBytes(us) + TAG_META_SIZE + n.size
    ensures Layout(us[..i] + [n] + us[i..], 0, space) == Taken(Layout(us, 0, space), k, need, TAG_META_SIZE)
  {
    hide Layout, Gap, Body, Rest, Fitted, Past, Stop, UsedBytes, Carved, Step;
    var a, b := us[..i], us[i..];
    var s, e := Past(a, 0), Stop(b, space);
    n, k := Placing(us, i, need, space), |Body(a, 0)|;
    assert us == a + b && a + [n] + b == a + ([n] + b);
    CarvedGap(s, e, need, n);
    PlacedSplit(a, b, space);
    StepSame(s);
    PlacedCons(n, b, s, space, s);
    PlacedSplit(a, [n] + b, space);
    LayoutAround(a, b, 0, space);
    LayoutAround(a, [n] + b, 0, space);
    Replaces(Body(a, 0), Block(s, e - s, false), Rest(b, space), Occupied(n), Gap(n.End(), e));
  }

  lemma StepSame(x: nat)
    ensures Step(x, x)
  {
  }

  /** The layout around occupied block `i` and the gaps on both sides. */
  lemma LayoutUsed(us: seq<Used>, i: nat, space: nat)
    requires i < |us|
    ensures var s, u, b := Past(us[..i], 0), us[i], us[i + 1..];
      Layout(us, 0, space) == Body(us[..i], 0) + Gap(s, u.head) + [Occupied(u)] + Gap(u.End(), Stop(b, space)) + Rest(b, space)
  {
    hide Layout, Gap, Body, Rest, Past, Stop;
    var a, b, u := us[..i], us[i + 1..], us[i];
    assert us == a + ([u] + b) && ([u] + b)[1..] == b;
    var s := Past(a, 0);
    LayoutAround(a, [u] + b, 0, space);
    LayoutCons([u] + b, s, space);
    LayoutStop(b, u.End(), space);
    AssocFive(Body(a, 0), Gap(s, u.head), [Occupied(u)], Gap(u.End(), Stop(b, space)), Rest(b, space));
  }

  /** Blocks that neither end free before a gap nor start free after one. */
  lemma ReleasedBetween(a: seq<Block>, s: nat, u: Block, e: nat, b: seq<Block>)
    requires u.live && s <= u.at && u.at + u.size <= e && s < e
    requires (a != [] ==> a[|a| - 1].live) && (b != [] ==> b[0].live)
    ensures var bs, k := a + Gap(s, u.at) + [u] + Gap(u.at + u.size, e) + b, |a + Gap(s, u.at)|;
      k < |bs| && bs[k] == u && Released(bs, k) == a + Gap(s, e) + b
  {
    hide JoinLeft, JoinRight;
    var bs, k := a + Gap(s, u.at) + [u] + Gap(u.at + u.size, e) + b, |a + Gap(s, u.at)|;
    assert bs[k] == u && bs[..k] == a + Gap(s, u.at) && bs[k + 1..] == Gap(u.at + u.size, e) + b;
    var r := Block(u.at, e - u.at, false);
    JoinsRight(Block(u.at, u.size, false), e, b);
    JoinsLeft(a, s, r, b);
  }

  lemma JoinsRight(f: Block, e: nat, b: seq<Block>)
    requires f.at + f.size <= e && !f.live && (b != [] ==> b[0].live)
    ensures JoinRight(f, Gap(f.at + f.size, e) + b) == [Block(f.at, e - f.at, false)] + b
  {
    if f.at + f.size < e {
      assert (Gap(f.at + f.size, e) + b)[1..] == b;
    } else {
      assert Gap(f.at + f.size, e) + b == b;
    }
  }

  lemma JoinsLeft(a: seq<Block>, s: nat, r: Block, b: seq<Block>)
    requires s <= r.at && !r.live && (a != [] ==> a[|a| - 1].live) && s < r.at + r.size
    ensures JoinLeft(a + Gap(s, r.at), [r] + b) == a + Gap(s, r.at + r.size) + b
  {
    assert ([r] + b)[1..] == b;
    if s < r.at {
      assert (a + Gap(s, r.at))[..|a + Gap(s, r.at)| - 1] == a;
    } else {
      assert a + Gap(s, r.at) == a;
      assert a + ([r] + b) == a + [r] + b;
    }
  }

  lemma {:induction false} BodyEnds(us: seq<Used>, start: nat)
    ensures Body(us, start) != [] ==> Body(us, start)[|Body(us, start)| - 1].live
  {
    if us != [] {
      BodyEnds(us[1..], us[0].End());
    }
  }

  /** Where occupied block `i` stands among the blocks of the layout. */
  ghost function UsedIndex(us: seq<Used>, i: nat): nat
    requires i < |us|
  {
    |Body(us[..i], 0) + Gap(Past(us[..i], 0), us[i].head)|
  }

  /** A stretch without the block in it still starts and ends where gaps may. */
  lemma StepOver(s: nat, u: Used, e: nat)
    requires Step(s, u.head) && Step(u.End(), e)
    ensures Step(s, e) && s < e && s <= u.head && u.End() <= e
  {
  }

  lemma PlacedTail(u: Used, b: seq<Used>, start: nat, space: nat)
    requires Placed([u] + b, start, space)
    ensures Step(start, u.head) && Placed(b, u.End(), space) && Step(u.End(), Stop(b, space))
    ensures UsedBytes([u] + b) == TAG_META_SIZE + u.size + UsedBytes(b)
  {
    assert ([u] + b)[1..] == b;
  }

  lemma PlacedFrom(b: seq<Used>, was: nat, start: nat, space: nat)
    requires Placed(b, was, space) && Step(start, Stop(b, space))
    ensures Placed(b, start, space)
  {
  }

  /** Removing occupied block `i` is, on the layout, releasing it. */
  lemma RemovalReleases(us: seq<Used>, i: nat, space: nat)
    requires i < |us| && Placed(us, 0, space)
    ensures UsedIndex(us, i) < |Layout(us, 0, space)| && Layout(us, 0, space)[UsedIndex(us, i)] == Occupied(us[i])
    ensures Placed(us[..i] + us[i + 1..], 0, space)
    ensures UsedBytes(us[..i] + us[i + 1..]) + TAG_META_SIZE + us[i].size == UsedBytes(us)
    ensures Layout(us[..i] + us[i + 1..], 0, space) == Released(Layout(us, 0, space), UsedIndex(us, i))
  {
    hide Layout, Gap, Body, Fitted, Past, Stop, UsedBytes, Released, Step;
    var a, b, u := us[..i], us[i + 1..], us[i];
    var s, e := Past(a, 0), Stop(b, space);
    assert us == a + ([u] + b);
    LayoutUsed(us, i, space);
    LayoutAround(a, b, 0, space);
    PlacedSplit(a, [u] + b, space);
    PlacedTail(u, b, s, space);
    StepOver(s, u, e);
    PlacedFrom(b, u.End(), s, space);
    PlacedSplit(a, b, space);
    BodyEnds(a, 0);
    ReleasedBetween(Body(a, 0), s, Occupied(u), e, Rest(b, space));
  }
}
