/** An arena allocator that links its occupied blocks; the gaps between them are the free space. */
module BoundaryTags {
  import opened Basics
  import opened Entries
  import opened Arenas
  import opened Coalescing
  import opened TaggedBlocks

  /** The payload of occupied block `i`, or null past either end. */
  ghost function Pointed(us: seq<Used>, i: int): Pointer {
    if 0 <= i < |us| then At(us[i].Payload()) else Null
  }

  /** The tags in memory, by the offset where each starts. */
  datatype Tags = Tags(sizes: seq<nat>, owned: seq<bool>, prevs: seq<Pointer>, nexts: seq<Pointer>)

  ghost predicate Sized(m: Tags, n: nat) {
    |m.sizes| == |m.owned| == |m.prevs| == |m.nexts| == n
  }

  /** The tags describe the occupied blocks, doubly linked in address order. */
  ghost predicate Linked(m: Tags, us: seq<Used>, n: nat) {
    && Sized(m, n)
    && forall i :: 0 <= i < |us| ==>
      && us[i].head < n && m.sizes[us[i].head] == us[i].size && m.owned[us[i].head]
      && m.prevs[us[i].head] == Pointed(us, i - 1) && m.nexts[us[i].head] == Pointed(us, i + 1)
  }

  /** Occupied blocks are disjoint, tag and payload, and come in address order. */
  lemma {:induction false} UsedApart(us: seq<Used>, start: nat, i: nat, j: nat)
    requires Fitted(us, start) && i < j < |us|
    ensures us[i].End() <= us[j].head
  {
    if i == 0 {
      FittedBelow(us[1..], us[0].End(), j - 1);
    } else {
      UsedApart(us[1..], us[0].End(), i - 1, j - 1);
    }
  }

  lemma {:induction false} FittedBelow(us: seq<Used>, start: nat, j: nat)
    requires Fitted(us, start) && j < |us|
    ensures start <= us[j].head && us[j].End() <= Past(us, start)
  {
    if j > 0 {
      FittedBelow(us[1..], us[0].End(), j - 1);
    } else {
      PastAbove(us[1..], us[0].End());
    }
  }

  lemma {:induction false} PastAbove(us: seq<Used>, start: nat)
    requires Fitted(us, start)
    ensures start <= Past(us, start)
  {
    if us != [] {
      PastAbove(us[1..], us[0].End());
    }
  }

  /** Where the gap before occupied block `i` starts and ends. */
  lemma GapEnds(us: seq<Used>, i: nat, space: nat)
    requires i <= |us|
    ensures Past(us[..i], 0) == if i == 0 then 0 else us[i - 1].End()
    ensures Stop(us[i..], space) == if i == |us| then space else us[i].head
  {
    if i > 0 {
      var a := us[..i - 1];
      assert us[..i] == a + [us[i - 1]];
      BodyConcat(a, [us[i - 1]], 0);
    }
  }

  /** Distinct blocks have distinct tags. */
  ghost predicate Distinct(us: seq<Used>) {
    forall i, j :: 0 <= i < j < |us| ==> us[i].head != us[j].head
  }

  lemma FittedDistinct(us: seq<Used>, start: nat)
    requires Fitted(us, start)
    ensures Distinct(us)
  {
    forall i, j | 0 <= i < j < |us| ensures us[i].head != us[j].head {
      UsedApart(us, start, i, j);
    }
  }

  /** The tags after a new block has been linked in before block `i`. */
  ghost function LinkIn(m: Tags, us: seq<Used>, i: nat, u: Used): Tags
    requires i <= |us| && Linked(m, us, |m.sizes|) && u.head < |m.sizes|
  {
    var nexts := if i > 0 then m.nexts[us[i - 1].head := At(u.Payload())] else m.nexts;
    var prevs := if i < |us| then m.prevs[us[i].head := At(u.Payload())] else m.prevs;
    Tags(m.sizes[u.head := u.size], m.owned[u.head := true],
      prevs[u.head := Pointed(us, i - 1)], nexts[u.head := Pointed(us, i)])
  }

  lemma LinkedIn(m: Tags, us: seq<Used>, i: nat, u: Used, n: nat)
    requires i <= |us| && Linked(m, us, n) && u.head < n && Distinct(us[..i] + [u] + us[i..])
    ensures Linked(LinkIn(m, us, i, u), us[..i] + [u] + us[i..], n)
  {
    var vs, m' := us[..i] + [u] + us[i..], LinkIn(m, us, i, u);
    forall j | 0 <= j < |vs| ensures
      && vs[j].head < n && m'.sizes[vs[j].head] == vs[j].size && m'.owned[vs[j].head]
      && m'.prevs[vs[j].head] == Pointed(vs, j - 1) && m'.nexts[vs[j].head] == Pointed(vs, j + 1)
    {
      LinkedInAt(m, us, i, u, n, j);
    }
  }

  lemma PointedIn(us: seq<Used>, i: nat, u: Used, x: int)
    requires i <= |us|
    ensures Pointed(us[..i] + [u] + us[i..], x) ==
      if x < i then Pointed(us, x) else if x == i then At(u.Payload()) else Pointed(us, x - 1)
  {
  }

  lemma InsertedAt(us: seq<Used>, i: nat, u: Used, j: nat)
    requires i <= |us| && j <= |us|
    ensures (us[..i] + [u] + us[i..])[j] == if j < i then us[j] else if j == i then u else us[j - 1]
  {
  }

  /** The tag of one block apart from every other's. */
  lemma HeadsDiffer(us: seq<Used>, i: nat, u: Used, j: nat)
    requires i <= |us| && Distinct(us[..i] + [u] + us[i..]) && j < |us|
    ensures us[j].head != u.head
    ensures j != i - 1 && 0 < i ==> us[j].head != us[i - 1].head
    ensures j != i && i < |us| ==> us[j].head != us[i].head
  {
    InsertedAt(us, i, u, i);
    InsertedAt(us, i, u, if j < i then j else j + 1);
    if 0 < i {
      InsertedAt(us, i, u, i - 1);
    }
    if i < |us| {
      InsertedAt(us, i, u, i + 1);
    }
  }

  lemma LinkedInAt(m: Tags, us: seq<Used>, i: nat, u: Used, n: nat, j: nat)
    requires i <= |us| && Linked(m, us, n) && u.head < n && Distinct(us[..i] + [u] + us[i..]) && j <= |us|
    ensures var vs, m' := us[..i] + [u] + us[i..], LinkIn(m, us, i, u);
      && vs[j].head < n && m'.sizes[vs[j].head] == vs[j].size && m'.owned[vs[j].head]
      && m'.prevs[vs[j].head] == Pointed(vs, j - 1) && m'.nexts[vs[j].head] == Pointed(vs, j + 1)
  {
    hide Pointed, Distinct;
    InsertedAt(us, i, u, j);
    PointedIn(us, i, u, j - 1);
    PointedIn(us, i, u, j + 1);
    if j < i {
      HeadsDiffer(us, i, u, j);
    } else if j > i {
      HeadsDiffer(us, i, u, j - 1);
    }
  }

  /** The tags after block `i` has been unlinked; its own tag stays as it was. */
  ghost function LinkOut(m: Tags, us: seq<Used>, i: nat): Tags
    requires i < |us| && Linked(m, us, |m.sizes|)
  {
    m.(nexts := if i > 0 then m.nexts[us[i - 1].head := Pointed(us, i + 1)] else m.nexts,
       prevs := if i + 1 < |us| then m.prevs[us[i + 1].head := Pointed(us, i - 1)] else m.prevs)
  }

  /** A pointer that is null or leads to a tag inside the arena. */
  ghost predicate InArena(p: Pointer, n: nat) {
    p == Null || TAG_META_SIZE <= p.offset < n + TAG_META_SIZE
  }

  /** Every tag that names its owner, of a block in use or long released, holds pointers into the arena. */
  ghost predicate Sound(m: Tags, n: nat) {
    Sized(m, n) && forall h :: 0 <= h < n && m.owned[h] ==> InArena(m.prevs[h], n) && InArena(m.nexts[h], n)
  }

  /** The tags after whatever block the tag at `h` speaks of has been unlinked. */
  ghost function Unlinked(m: Tags, h: nat): Tags
    requires Sound(m, |m.sizes|) && h < |m.sizes| && m.owned[h]
  {
    m.(nexts := if m.prevs[h] == Null then m.nexts else m.nexts[m.prevs[h].offset - TAG_META_SIZE := m.nexts[h]],
       prevs := if m.nexts[h] == Null then m.prevs else m.prevs[m.nexts[h].offset - TAG_META_SIZE := m.prevs[h]])
  }

  lemma PointedAt(us: seq<Used>, i: nat, x: int)
    requires i < |us|
    ensures Pointed(us, x) == Null <==> x < 0 || x >= |us|
    ensures 0 <= x < |us| ==> Pointed(us, x).offset - TAG_META_SIZE == us[x].head
    ensures Pointed(us[..i] + us[i + 1..], 0) == Pointed(us, if i == 0 then 1 else 0)
  {
  }

  lemma LinkedAt(m: Tags, us: seq<Used>, i: nat, n: nat)
    requires i < |us| && Linked(m, us, n)
    ensures Sized(m, n) && us[i].head < n && m.owned[us[i].head] && m.sizes[us[i].head] == us[i].size
    ensures m.prevs[us[i].head] == Pointed(us, i - 1) && m.nexts[us[i].head] == Pointed(us, i + 1)
  {
  }

  /** For a block in use that is the block itself. */
  lemma UnlinkedOut(m: Tags, us: seq<Used>, i: nat, n: nat)
    requires i < |us| && Linked(m, us, n) && Sound(m, n)
    ensures us[i].head < n && m.owned[us[i].head] && m.sizes[us[i].head] == us[i].size
    ensures Unlinked(m, us[i].head) == LinkOut(m, us, i)
    ensures (if m.prevs[us[i].head] == Null then m.nexts[us[i].head] else Pointed(us, 0)) == Pointed(us[..i] + us[i + 1..], 0)
  {
    hide Pointed, Linked;
    LinkedAt(m, us, i, n);
    PointedAt(us, i, i - 1);
    PointedAt(us, i, i + 1);
  }

  lemma SoundOut(m: Tags, h: nat, n: nat)
    requires Sound(m, n) && h < n && m.owned[h]
    ensures Sound(Unlinked(m, h), n)
  {
  }

  lemma SoundIn(m: Tags, us: seq<Used>, i: nat, u: Used, n: nat)
    requires i <= |us| && Linked(m, us, n) && Sound(m, n) && u.head < n
    ensures Sound(LinkIn(m, us, i, u), n)
  {
    assert i > 0 ==> us[i - 1].head < n;
    assert i < |us| ==> us[i].head < n;
  }

  lemma LinkedOut(m: Tags, us: seq<Used>, i: nat, n: nat)
    requires i < |us| && Linked(m, us, n) && Distinct(us)
    ensures Linked(LinkOut(m, us, i), us[..i] + us[i + 1..], n)
  {
    var vs, m' := us[..i] + us[i + 1..], LinkOut(m, us, i);
    forall j | 0 <= j < |vs| ensures
      && vs[j].head < n && m'.sizes[vs[j].head] == vs[j].size && m'.owned[vs[j].head]
      && m'.prevs[vs[j].head] == Pointed(vs, j - 1) && m'.nexts[vs[j].head] == Pointed(vs, j + 1)
    {
      if j < i {
        assert vs[j] == us[j];
      } else {
        assert vs[j] == us[j + 1];
      }
    }
  }

  /** The blocks of the layout up to and with gap `g`. */
  ghost function GapEnd(us: seq<Used>, g: nat, space: nat): nat
    requires g <= |us|
  {
    |Body(us[..g], 0) + Gap(Past(us[..g], 0), Stop(us[g..], space))|
  }

  /** What the layout has at gap `g`. */
  lemma AtGap(us: seq<Used>, g: nat, space: nat)
    requires Placed(us, 0, space) && g <= |us|
    ensures GapIndex(us, g) <= GapEnd(us, g, space) <= |Layout(us, 0, space)|
    ensures Past(us[..g], 0) <= Stop(us[g..], space)
    ensures Past(us[..g], 0) == Stop(us[g..], space) <==> GapEnd(us, g, space) == GapIndex(us, g)
    ensures Past(us[..g], 0) < Stop(us[g..], space) ==> GapEnd(us, g, space) == GapIndex(us, g) + 1
    ensures Past(us[..g], 0) < Stop(us[g..], space) ==>
      (Layout(us, 0, space)[GapIndex(us, g)] == Block(Past(us[..g], 0), Stop(us[g..], space) - Past(us[..g], 0), false))
  {
    hide Body, Layout, Rest, Fitted, Past, Stop;
    var a, b := us[..g], us[g..];
    assert us == a + b;
    PlacedSplit(a, b, space);
    LayoutAround(a, b, 0, space);
    Middle(Body(a, 0), Gap(Past(a, 0), Stop(b, space)), Rest(b, space));
  }

  /** Between two gaps stands one occupied block; the last gap ends the layout. */
  lemma NextGap(us: seq<Used>, g: nat, space: nat)
    requires g <= |us|
    ensures g < |us| ==> GapIndex(us, g + 1) == GapEnd(us, g, space) + 1 && GapEnd(us, g, space) < |Layout(us, 0, space)|
    ensures g < |us| ==> Layout(us, 0, space)[GapEnd(us, g, space)] == Occupied(us[g])
    ensures g == |us| ==> GapEnd(us, g, space) == |Layout(us, 0, space)|
    ensures GapIndex(us, 0) == 0
  {
    hide Gap, Fitted, Past, Stop, Layout;
    var a, b := us[..g], us[g..];
    assert us == a + b;
    LayoutAround(a, b, 0, space);
    Middle(Body(a, 0) + Gap(Past(a, 0), Stop(b, space)), Rest(b, space), []);
    if g < |us| {
      StopAt(us, g, space);
      assert us[..g + 1] == a + [us[g]];
      BodyConcat(a, [us[g]], 0);
      assert [us[g]][1..] == [];
      Middle(Body(a, 0), Gap(Past(a, 0), us[g].head), [Occupied(us[g])]);
    }
  }

  lemma StopAt(us: seq<Used>, g: nat, space: nat)
    requires g < |us|
    ensures Stop(us[g..], space) == us[g].head
  {
  }

  /** The next gap, seen from the search: one occupied block, then nothing or one free block. */
  lemma SearchGap(us: seq<Used>, g: nat, space: nat, mode: FitMode, need: nat, found: bool, k: nat)
    returns (size: nat, better: bool)
    requires Placed(us, 0, space) && 0 < g <= |us| && need > 0 && GapEnd(us, g - 1, space) <= |Layout(us, 0, space)|
    requires Searched(Layout(us, 0, space), mode, need, found, k, GapEnd(us, g - 1, space))
    requires found ==> k < GapEnd(us, g - 1, space)
    ensures Past(us[..g], 0) <= Stop(us[g..], space) && size == Stop(us[g..], space) - Past(us[..g], 0)
    ensures better == (size >= need && (!found || Better(mode, size, Layout(us, 0, space)[k].size)))
    ensures GapEnd(us, g, space) <= |Layout(us, 0, space)|
    ensures better ==> Searched(Layout(us, 0, space), mode, need, true, GapIndex(us, g), GapEnd(us, g, space))
    ensures better ==> GapIndex(us, g) < GapEnd(us, g, space) && Layout(us, 0, space)[GapIndex(us, g)].size == size
    ensures !better ==> Searched(Layout(us, 0, space), mode, need, found, k, GapEnd(us, g, space))
    ensures GapEnd(us, g - 1, space) <= GapEnd(us, g, space)
  {
    hide Searched, Layout, GapIndex, GapEnd, Placed, Past, Stop;
    var bs := Layout(us, 0, space);
    NextGap(us, g - 1, space);
    AtGap(us, g, space);
    size := Stop(us[g..], space) - Past(us[..g], 0);
    better := size >= need && (!found || Better(mode, size, bs[k].size));
    if better {
      SearchBetter(bs, mode, need, found, k, GapEnd(us, g - 1, space), GapIndex(us, g));
    } else {
      SearchOn(bs, mode, need, found, k, GapEnd(us, g - 1, space), GapEnd(us, g, space));
    }
  }

  /** The gap before the first occupied block. */
  lemma SearchStart(us: seq<Used>, space: nat, mode: FitMode, need: nat) returns (size: nat)
    requires Placed(us, 0, space) && need > 0
    ensures size == Stop(us, space) && GapEnd(us, 0, space) <= |Layout(us, 0, space)|
    ensures Searched(Layout(us, 0, space), mode, need, size >= need, 0, GapEnd(us, 0, space))
    ensures size >= need ==> 0 < GapEnd(us, 0, space) && Layout(us, 0, space)[0].size == size
    ensures GapIndex(us, 0) == 0 && us[..0] == [] && us[0..] == us
  {
    hide Searched, Layout, GapIndex, GapEnd, Placed, Stop;
    var bs := Layout(us, 0, space);
    NextGap(us, 0, space);
    AtGap(us, 0, space);
    assert us[..0] == [] && us[0..] == us;
    size := Stop(us, space);
    SearchNone(bs, mode, need);
    if size >= need {
      SearchBetter(bs, mode, need, false, 0, 0, 0);
    } else {
      SearchOn(bs, mode, need, false, 0, 0, GapEnd(us, 0, space));
    }
  }

  class BoundaryTagsAllocator {
    const space: nat
    const sizes: array<nat>
    const owned: array<bool>
    const prevs: array<Pointer>
    const nexts: array<Pointer>
    var mode: FitMode
    var head: Pointer
    var available: nat
    ghost var used: seq<Used>

    ghost function Memory(): Tags
      reads sizes, owned, prevs, nexts
    {
      Tags(sizes[..], owned[..], prevs[..], nexts[..])
    }

    ghost predicate Valid()
      reads this, sizes, owned, prevs, nexts
    {
      && prevs != nexts
      && Linked(Memory(), used, space) && Sound(Memory(), space) && Placed(used, 0, space)
      && head == Pointed(used, 0)
      && available + UsedBytes(used) == space
    }

    /** The blocks of the arena, occupied ones and gaps. */
    ghost function Blocks(): seq<Block>
      reads this
    {
      Layout(used, 0, space)
    }

    constructor (spaceSize: nat, allocateFitMode: FitMode)
      requires spaceSize >= TAG_META_SIZE
      ensures Valid() && fresh(sizes) && fresh(owned) && fresh(prevs) && fresh(nexts)
      ensures space == spaceSize && mode == allocateFitMode && used == [] && available == spaceSize
    {
      space := spaceSize;
      sizes := new nat[spaceSize];
      owned := new bool[spaceSize](_ => false);
      prevs := new Pointer[spaceSize](_ => Null);
      nexts := new Pointer[spaceSize](_ => Null);
      mode, head, available := allocateFitMode, Null, spaceSize;
      used := [];
    }

    /** What the tags show at gap `g`: where it ends and where it starts. */
    lemma GapBorders(g: nat)
      requires Valid() && g <= |used|
      ensures head == Pointed(used, 0) && sizes.Length == nexts.Length == space
      ensures Pointed(used, g) == Null <==> g == |used|
      ensures g < |used| ==> Pointed(used, g).offset == used[g].Payload() && used[g].head < space
      ensures g < |used| ==> nexts[used[g].head] == Pointed(used, g + 1) && sizes[used[g].head] == used[g].size
      ensures Stop(used[g..], space) == if g == |used| then space else used[g].head
      ensures Past(used[..g], 0) == if g == 0 then 0 else used[g - 1].End()
    {
      GapEnds(used, g, space);
      assert g < |used| ==> used[g].head < space;
    }

    /** Looks at every gap for the one the fit policy picks, remembering the block before it. */
    method Search(need: nat) returns (prev: Pointer, target: Pointer, targetSize: nat, ghost i: nat)
      requires Valid() && need >= TAG_META_SIZE
      ensures target == Null ==> NothingFits(Blocks(), need)
      ensures target != Null ==> i <= |used| && prev == Pointed(used, i - 1) && Picks(Blocks(), mode, need, GapIndex(used, i))
      ensures target != Null ==> target == At(Past(used[..i], 0) + TAG_META_SIZE) && need <= targetSize
      ensures target != Null ==> Past(used[..i], 0) + targetSize == Stop(used[i..], space)
    {
      hide Searched, Layout, GapIndex, GapEnd, Placed, Stop, Past, Pointed, Linked, Sound, Fitted, UsedBytes, Picks, NothingFits;
      ghost var bs := Blocks();
      GapBorders(0);
      prev, target, targetSize, i := Null, Null, 0, 0;
      var current := head;
      var size := if current == Null then space else current.offset - TAG_META_SIZE;
      ghost var _ := SearchStart(used, space, mode, need);
      if size >= need {
        target, targetSize := At(TAG_META_SIZE), size;
      }
      ghost var g := 0;
      BeforeFirst(used);
      while current != Null
        invariant i <= g <= |used| && current == Pointed(used, g) && GapEnd(used, g, space) <= |bs|
        invariant Searched(bs, mode, need, target != Null, GapIndex(used, i), GapEnd(used, g, space))
        invariant prev == Pointed(used, i - 1)
        invariant target != Null ==> target == At(Past(used[..i], 0) + TAG_META_SIZE) && need <= targetSize
        invariant target != Null ==> Past(used[..i], 0) + targetSize == Stop(used[i..], space)
        invariant target != Null ==> GapIndex(used, i) < GapEnd(used, g, space) && bs[GapIndex(used, i)].size == targetSize
        decreases |used| - g
      {
        GapBorders(g);
        if mode == FirstFit && target != Null {
          break;
        }
        GapBorders(g + 1);
        ghost var s, better := SearchGap(used, g + 1, space, mode, need, target != Null, GapIndex(used, i));
        var next := nexts[current.offset - TAG_META_SIZE];
        var rightBorder := if next == Null then space else next.offset - TAG_META_SIZE;
        var leftBorder := current.offset + sizes[current.offset - TAG_META_SIZE];
        size := rightBorder - leftBorder;
        if size >= need && (target == Null ||
            (mode == TheBestFit && size - need < targetSize - need) ||
            (mode == TheWorstFit && size - need > targetSize - need)) {
          prev := current;
          target, targetSize, i := At(leftBorder + TAG_META_SIZE), size, g + 1;
        }
        current, g := next, g + 1;
      }
      GapBorders(g);
      NextGap(used, g, space);
      SearchDone(bs, mode, need, target != Null, GapIndex(used, i), GapEnd(used, g, space));
    }

    /** Writes a tag at the start of gap `i` and links it between its neighbours. */
    method Link(prev: Pointer, target: nat, blockSize: nat, ghost i: nat, ghost n: Used)
      requires Valid() && i <= |used| && prev == Pointed(used, i - 1) && n.head < space
      requires target == n.Payload() && blockSize == n.size && forall j :: 0 <= j < |used| ==> used[j].head != n.head
      modifies `head, sizes, owned, prevs, nexts
      ensures Memory() == LinkIn(old(Memory()), used, i, n)
      ensures head == if i == 0 then At(target) else old(head)
    {
      hide Layout, Placed, UsedBytes, LinkIn, Linked, Sound, Fitted, Distinct;
      ghost var was := Memory();
      GapBorders(i);
      Borders(i);
      LinkInWords(was, used, i, n);
      var next := head;
      if prev != Null {
        next := nexts[prev.offset - TAG_META_SIZE];
        nexts[prev.offset - TAG_META_SIZE] := At(target);
      }
      if next != Null {
        prevs[next.offset - TAG_META_SIZE] := At(target);
      }
      var tag := target - TAG_META_SIZE;
      sizes[tag], owned[tag], prevs[tag], nexts[tag] := blockSize, true, prev, next;
      if head == Null || head == nexts[tag] {
        head := At(target);
      }
    }

    /** Allocates at the start of gap `i`; a remainder too short for a tag goes along. */
    method Insert(prev: Pointer, target: nat, targetSize: nat, need: nat, ghost i: nat)
      requires Valid() && i <= |used| && need >= TAG_META_SIZE && need <= targetSize
      requires prev == Pointed(used, i - 1) && target == Past(used[..i], 0) + TAG_META_SIZE
      requires Past(used[..i], 0) + targetSize == Stop(used[i..], space)
      modifies this, sizes, owned, prevs, nexts
      ensures Valid() && mode == old(mode)
      ensures used == old(used[..i] + [Placing(used, i, need, space)] + used[i..])
      ensures GapIndex(old(used), i) < |old(Blocks())| && Blocks() == Taken(old(Blocks()), GapIndex(old(used), i), need, TAG_META_SIZE)
    {
      hide Layout, GapIndex, Placed, Stop, Past, Linked, Sound, UsedBytes, Taken, Fitted, Distinct, LinkIn;
      ghost var n, k := PlacingTakes(used, i, need, space);
      ghost var vs, was := used[..i] + [n] + used[i..], Memory();
      PlacedHead(vs, i, space);
      HeadsApart(used, i, n);
      LinkedIn(was, used, i, n, space);
      SoundIn(was, used, i, n, space);
      UsedFits(vs, space);
      var blockSize, commonSize := need - TAG_META_SIZE, need;
      if targetSize - need < TAG_META_SIZE {
        blockSize := targetSize - TAG_META_SIZE;
        commonSize := targetSize;
      }
      Link(prev, target, blockSize, i, n);
      available := available - commonSize;
      used := vs;
    }

    /** The neighbours of gap `i` as the tags show them. */
    lemma Borders(i: nat)
      requires Valid() && i <= |used|
      ensures i > 0 ==> used[i - 1].head < space && nexts[used[i - 1].head] == Pointed(used, i)
      ensures i < |used| ==> used[i].head < space && prevs[used[i].head] == Pointed(used, i - 1)
      ensures i > 0 ==> Pointed(used, 0) != Null && Pointed(used, 0) != Pointed(used, i)
      ensures sizes.Length == owned.Length == prevs.Length == nexts.Length == space && prevs != nexts
    {
      assert i > 0 ==> used[i - 1].head < space;
      assert i < |used| ==> used[i].head < space;
      FittedDistinct(used, 0);
    }

    /** The offset of a payload of at least `valueSize * valuesCount` bytes, or nothing when no gap holds it. */
    method Allocate(valueSize: nat, valuesCount: nat) returns (r: Pointer, ghost i: nat)
      requires Valid()
      modifies this, sizes, owned, prevs, nexts
      ensures Valid() && mode == old(mode)
      ensures var need := valueSize * valuesCount + TAG_META_SIZE;
        if NothingFits(old(Blocks()), need) then r == Null && used == old(used)
        else
          && i <= |old(used)| && Picks(old(Blocks()), mode, need, GapIndex(old(used), i))
          && Blocks() == Taken(old(Blocks()), GapIndex(old(used), i), need, TAG_META_SIZE)
          && |used| == |old(used)| + 1 && used[..i] == old(used)[..i] && used[i + 1..] == old(used)[i..]
          && used[i].head == old(Blocks())[GapIndex(old(used), i)].at && r == At(used[i].Payload())
    {
      hide Layout, GapIndex, Placed, Linked, UsedBytes, Taken, Picks, NothingFits, Past, Stop;
      var need := valueSize * valuesCount + TAG_META_SIZE;
      var prev, target, targetSize;
      prev, target, targetSize, i := Search(need);
      if target == Null {
        return Null, i;
      }
      ghost var n, us := Placing(used, i, need, space), used;
      Insert(prev, target.offset, targetSize, need, i);
      InsertedParts(us, i, n);
      AtGap(us, i, space);
      FitsSomething(old(Blocks()), mode, need, GapIndex(us, i));
      r := target;
    }

    /**
     * Frees the payload at `at`, an offset from the first byte of the arena. The null pointer is
     * ignored and a payload outside the arena rejected. A tag keeps its owner when its block is
     * released, so a second release is accepted like the first: it adds the block's bytes to the
     * available ones again, and the allocator is not valid any more.
     */
    method Deallocate(at: Option<int>, ghost i: nat) returns (ok: bool)
      requires Valid()
      requires at.Some? && 0 <= at.value < space ==> TAG_META_SIZE <= at.value
      requires at.Some? ==> HasPayload(used, i, at.value) || forall j :: !HasPayload(used, j, at.value)
      modifies this, sizes, owned, prevs, nexts
      ensures mode == old(mode) && owned[..] == old(owned[..]) && sizes[..] == old(sizes[..])
      ensures ok <==> at.None? || (0 <= at.value < space && old(owned[at.value - TAG_META_SIZE]))
      ensures at.Some? && 0 <= at.value < space && HasPayload(old(used), i, at.value) ==> ok
      ensures at.None? || !ok ==> Valid() && used == old(used)
      ensures at.Some? && ok && HasPayload(old(used), i, at.value) ==>
        && Valid() && used == old(used)[..i] + old(used)[i + 1..]
        && UsedIndex(old(used), i) < |old(Blocks())| && Blocks() == Released(old(Blocks()), UsedIndex(old(used), i))
      ensures at.Some? && ok && !HasPayload(old(used), i, at.value) ==>
        && !Valid() && used == old(used)
        && available == old(available) + TAG_META_SIZE + old(sizes[at.value - TAG_META_SIZE])
    {
      hide Layout, UsedIndex, Placed, Linked, UsedBytes, Released, Past, Stop, LinkOut, Unlinked, Distinct, Sound;
      if at.None? {
        return true;
      }
      if at.value < 0 || at.value >= space {
        return false;
      }
      Lengths();
      var tag := at.value - TAG_META_SIZE;
      ghost var live, vs, was := HasPayload(used, i, at.value), used, Memory();
      if live {
        UnlinkedOut(was, used, i, space);
        RemovalReleases(used, i, space);
        FittedDistinct(used, 0);
        LinkedOut(was, used, i, space);
        UsedFits(used, space);
        vs := used[..i] + used[i + 1..];
      }
      if !owned[tag] {
        return false;
      }
      SoundOut(was, tag, space);
      var size := sizes[tag];
      Unlink(tag);
      available := available + TAG_META_SIZE + size;
      used := vs;
      ok := true;
    }

    lemma Lengths()
      requires Valid()
      ensures sizes.Length == owned.Length == prevs.Length == nexts.Length == space && head == Pointed(used, 0)
      ensures available + UsedBytes(used) == space && Fitted(used, 0)
    {
    }

    /** Takes the block a tag speaks of out of the list. */
    method Unlink(tag: nat)
      requires prevs != nexts && Sound(Memory(), space) && tag < owned.Length && owned[tag]
      modifies `head, prevs, nexts
      ensures Memory() == Unlinked(old(Memory()), tag)
      ensures head == if old(prevs[tag]) == Null then old(nexts[tag]) else old(head)
    {
      var prevBlock, nextBlock := prevs[tag], nexts[tag];
      if prevBlock == Null {
        head := nextBlock;
      } else {
        nexts[prevBlock.offset - TAG_META_SIZE] := nextBlock;
      }
      if nextBlock != Null {
        prevs[nextBlock.offset - TAG_META_SIZE] := prevBlock;
      }
    }

    /** What the tags show of occupied block `g` and the gap after it, and what the report lists for them. */
    lemma InfoStep(g: nat, report: seq<BlockInfo>) returns (gap: nat)
      requires Valid() && Pointed(used, g) != Null && g <= |used| && GapEnd(used, g, space) <= |Blocks()|
      requires report == Infos(Blocks()[..GapEnd(used, g, space)])
      ensures g < |used| && Pointed(used, g).offset == used[g].head + TAG_META_SIZE && used[g].head < sizes.Length == nexts.Length
      ensures nexts[used[g].head] == Pointed(used, g + 1) && sizes[used[g].head] == used[g].size
      ensures Pointed(used, g + 1) != Null ==> Pointed(used, g + 1).offset == used[g].End() + gap + TAG_META_SIZE
      ensures Pointed(used, g + 1) == Null ==> space == used[g].End() + gap
      ensures GapEnd(used, g + 1, space) <= |Blocks()|
      ensures var next, seen := Infos(Blocks()[..GapEnd(used, g + 1, space)]), report + [BlockInfo(TAG_META_SIZE + used[g].size, true)];
        if gap == 0 then next == seen else next == seen + [BlockInfo(gap, false)]
    {
      hide Layout, GapIndex, GapEnd, Placed, Stop, Past, Pointed, Linked, UsedBytes, Infos;
      GapBorders(g);
      GapBorders(g + 1);
      var next;
      next, gap := InfoGap(used, g + 1, space, report);
      assert gap == 0 ==> next == report + [BlockInfo(TAG_META_SIZE + used[g].size, true)];
    }

    /** The sizes of the blocks in address order, gaps included, and which are in use. */
    method CreateBlocksInfo() returns (info: seq<BlockInfo>)
      requires Valid()
      ensures info == Infos(Blocks())
    {
      hide Layout, GapIndex, GapEnd, Placed, Stop, Past, Pointed, Linked, UsedBytes, Infos;
      ghost var bs := Blocks();
      GapBorders(0);
      info := [];
      var current := head;
      var freeSize := if current == Null then space else current.offset - TAG_META_SIZE;
      ghost var _, _ := InfoGap(used, 0, space, []);
      if freeSize != 0 {
        info := info + [BlockInfo(freeSize, false)];
      }
      ghost var g := 0;
      while current != Null
        invariant g <= |used| && current == Pointed(used, g) && GapEnd(used, g, space) <= |bs|
        invariant info == Infos(bs[..GapEnd(used, g, space)])
        decreases |used| - g
      {
        ghost var gap := InfoStep(g, info);
        var next := nexts[current.offset - TAG_META_SIZE];
        var rightBorder := if next == Null then space else next.offset - TAG_META_SIZE;
        var leftBorder := current.offset + sizes[current.offset - TAG_META_SIZE];
        freeSize := rightBorder - leftBorder;
        var occupiedSize := TAG_META_SIZE + sizes[current.offset - TAG_META_SIZE];
        info := info + [BlockInfo(occupiedSize, true)];
        if freeSize != 0 {
          info := info + [BlockInfo(freeSize, false)];
        }
        current, g := next, g + 1;
      }
      GapBorders(g);
      NextGap(used, g, space);
      assert bs[..|bs|] == bs;
    }
  }

  lemma BeforeFirst(us: seq<Used>)
    ensures Pointed(us, -1) == Null
  {
  }

  lemma PlacedHead(us: seq<Used>, i: nat, space: nat)
    requires Placed(us, 0, space) && i < |us|
    ensures us[i].End() <= space && us[i].head < space && Distinct(us)
  {
    FittedBelow(us, 0, i);
    FittedDistinct(us, 0);
  }

  /** The words a new tag changes, one array at a time. */
  lemma LinkInWords(m: Tags, us: seq<Used>, i: nat, u: Used)
    requires i <= |us| && Linked(m, us, |m.sizes|) && u.head < |m.sizes|
    ensures Sized(m, |m.sizes|) && (i > 0 ==> us[i - 1].head < |m.sizes|) && (i < |us| ==> us[i].head < |m.sizes|)
    ensures LinkIn(m, us, i, u).sizes == m.sizes[u.head := u.size] && LinkIn(m, us, i, u).owned == m.owned[u.head := true]
    ensures LinkIn(m, us, i, u).prevs ==
      (if i < |us| then m.prevs[us[i].head := At(u.Payload())] else m.prevs)[u.head := Pointed(us, i - 1)]
    ensures LinkIn(m, us, i, u).nexts ==
      (if i > 0 then m.nexts[us[i - 1].head := At(u.Payload())] else m.nexts)[u.head := Pointed(us, i)]
  {
  }

  /** Occupied block `i` starts its payload at `x`. */
  ghost predicate HasPayload(us: seq<Used>, i: int, x: int) {
    0 <= i < |us| && us[i].Payload() == x
  }

  lemma HeadsApart(us: seq<Used>, i: nat, u: Used)
    requires i <= |us| && Distinct(us[..i] + [u] + us[i..])
    ensures forall j :: 0 <= j < |us| ==> us[j].head != u.head
  {
    forall j | 0 <= j < |us| ensures us[j].head != u.head {
      HeadsDiffer(us, i, u, j);
    }
  }

  lemma UsedFits(us: seq<Used>, space: nat)
    requires Placed(us, 0, space)
    ensures UsedBytes(us) <= space
  {
    LayoutTiles(us, 0, space);
  }

  lemma InfosConcat(bs: seq<Block>, n: nat)
    requires n < |bs|
    ensures Infos(bs[..n + 1]) == Infos(bs[..n]) + [BlockInfo(bs[n].size, bs[n].live)]
  {
  }

  /** What the report lists up to gap `g`, given what it lists up to the gap before. */
  lemma InfoGap(us: seq<Used>, g: nat, space: nat, report: seq<BlockInfo>) returns (next: seq<BlockInfo>, size: nat)
    requires Placed(us, 0, space) && g <= |us|
    requires g == 0 ==> report == []
    requires g > 0 ==> GapEnd(us, g - 1, space) <= |Layout(us, 0, space)|
    requires g > 0 ==> report == Infos(Layout(us, 0, space)[..GapEnd(us, g - 1, space)])
    ensures Past(us[..g], 0) <= Stop(us[g..], space) && GapEnd(us, g, space) <= |Layout(us, 0, space)|
    ensures size == Stop(us[g..], space) - Past(us[..g], 0)
    ensures next == Infos(Layout(us, 0, space)[..GapEnd(us, g, space)])
    ensures g == 0 ==> next == if size == 0 then [] else [BlockInfo(size, false)]
    ensures g > 0 ==> next == report + [BlockInfo(TAG_META_SIZE + us[g - 1].size, true)] + (if size == 0 then [] else [BlockInfo(size, false)])
  {
    hide Layout, GapIndex, GapEnd, Placed, Past, Stop, Infos;
    var bs := Layout(us, 0, space);
    AtGap(us, g, space);
    NextGap(us, 0, space);
    assert Infos(bs[..0]) == [] by { NoInfos(bs); }
    if g > 0 {
      NextGap(us, g - 1, space);
      InfosConcat(bs, GapEnd(us, g - 1, space));
    }
    size := Stop(us[g..], space) - Past(us[..g], 0);
    next := Infos(bs[..GapEnd(us, g, space)]);
    if size > 0 {
      InfosConcat(bs, GapIndex(us, g));
    }
  }

  lemma NoInfos(bs: seq<Block>)
    ensures Infos(bs[..0]) == []
  {
  }

  /** The allocator hands out, and then refuses to take back, an empty payload at the end of its arena. */
  method EmptyPayloadAtEnd() returns (r: Pointer, ok: bool)
    ensures r == At(TAG_META_SIZE) && !ok
  {
    var arena := new BoundaryTagsAllocator(TAG_META_SIZE, FirstFit);
    ghost var i;
    OneGap(TAG_META_SIZE);
    assert Fits(arena.Blocks()[0], TAG_META_SIZE);
    r, i := arena.Allocate(0, 0);
    ok := arena.Deallocate(Some(r.offset), i);
  }

  lemma OneGap(space: nat)
    requires space > 0
    ensures Layout([], 0, space) == [Block(0, space, false)]
  {
  }

  /** Two requests for two bytes each fill an arena of 68 bytes: a tag takes 32, and a payload follows its tag. */
  method TwoRequests() returns (first: Pointer, second: Pointer, third: Pointer)
    ensures first == At(32) && second == At(66) && third == Null
  {
    hide Layout, GapIndex, Placed, Linked, Sound, UsedBytes;
    var arena := new BoundaryTagsAllocator(68, FirstFit);
    ghost var i;
    OneGap(68);
    ghost var bs := arena.Blocks();
    assert Fits(bs[0], 34);
    first, i := arena.Allocate(2, 1);
    bs := arena.Blocks();
    assert bs == [Block(0, 34, true), Block(34, 34, false)];
    assert Fits(bs[1], 34);
    second, i := arena.Allocate(1, 2);
    assert arena.Blocks() == [Block(0, 34, true), Block(34, 34, true)];
    third, i := arena.Allocate(0, 0);
  }

  /** A payload released twice is accepted twice, and then more bytes are available than the arena has. */
  method ReleasedTwice() returns (arena: BoundaryTagsAllocator, first: bool, second: bool)
    ensures first && second && arena.available > arena.space && !arena.Valid()
  {
    hide Layout, UsedIndex, GapIndex, Placed, Linked, Sound, UsedBytes, Released, Taken, Picks;
    ghost var i;
    var r;
    arena := new BoundaryTagsAllocator(2 * TAG_META_SIZE, FirstFit);
    OneGap(2 * TAG_META_SIZE);
    ghost var bs := arena.Blocks();
    assert Fits(bs[0], TAG_META_SIZE + 1);
    r, i := arena.Allocate(1, 1);
    FittingSize(bs, FirstFit, TAG_META_SIZE + 1, GapIndex([], i));
    ghost var tag, tags := r.offset - TAG_META_SIZE, arena.owned[..];
    arena.Lengths();
    first := arena.Deallocate(Some(r.offset), i);
    assert arena.used == [];
    assert tags[tag] && arena.owned[..][tag] == arena.owned[tag];
    NoneUsed();
    second := arena.Deallocate(Some(r.offset), i);
  }

  lemma NoneUsed()
    ensures UsedBytes([]) == 0
  {
  }

  /** Returning what was just allocated restores the blocks and the counter, under every fit mode. */
  method AllocateAndReturn(arena: BoundaryTagsAllocator, valueSize: nat, valuesCount: nat) returns (r: Pointer, ok: bool, ghost k: nat)
    requires arena.Valid()
    modifies arena, arena.sizes, arena.owned, arena.prevs, arena.nexts
    ensures arena.Valid()
    ensures r == Null <==> NothingFits(old(arena.Blocks()), valueSize * valuesCount + TAG_META_SIZE)
    ensures r != Null ==> Picks(old(arena.Blocks()), old(arena.mode), valueSize * valuesCount + TAG_META_SIZE, k)
    ensures !ok <==> r != Null && k + 1 == |old(arena.Blocks())| && old(arena.Blocks())[k].size == TAG_META_SIZE
    ensures !ok ==> valueSize * valuesCount == 0 && r == At(arena.space)
    ensures ok ==> arena.used == old(arena.used) && arena.head == old(arena.head) && arena.available == old(arena.available)
  {
    hide Layout, UsedIndex, GapIndex, Placed, Linked, UsedBytes, Released, Taken, Picks, NothingFits;
    ghost var i;
    ghost var was, bs := arena.used, arena.Blocks();
    LayoutTiles(was, 0, arena.space);
    r, i := arena.Allocate(valueSize, valuesCount);
    ok, k := true, 0;
    if r == Null {
      return;
    }
    k := GapIndex(was, i);
    FitsSomething(bs, arena.mode, valueSize * valuesCount + TAG_META_SIZE, k);
    FittingSize(bs, arena.mode, valueSize * valuesCount + TAG_META_SIZE, k);
    Coalescing.PayloadOutside(bs, k, TAG_META_SIZE);
    TilesWithin(bs, 0);
    ok := arena.Deallocate(Some(r.offset), i);
    assert was == was[..i] + was[i..];
  }

  /** A payload starts outside the arena just when it is an empty one at the arena's very end. */
  lemma PayloadOutside(us: seq<Used>, i: nat, space: nat)
    requires Placed(us, 0, space) && i < |us|
    ensures us[i].Payload() >= space <==> i + 1 == |us| && us[i].size == 0 && us[i].End() == space
  {
    PlacedHead(us, i, space);
    if i + 1 < |us| {
      UsedApart(us, 0, i, i + 1);
      PlacedHead(us, i + 1, space);
    }
  }

  /** Building an allocator fails when its arena does not even hold one header. */
  method Create(spaceSize: nat, allocateFitMode: FitMode) returns (r: Option<BoundaryTagsAllocator>)
    ensures r.Some? <==> spaceSize >= TAG_META_SIZE
    ensures r.Some? ==> fresh(r.value) && r.value.Valid() && r.value.space == spaceSize && r.value.mode == allocateFitMode
    ensures r.Some? ==> r.value.used == [] && r.value.available == spaceSize
  {
    if spaceSize < TAG_META_SIZE {
      return None;
    }
    var arena := new BoundaryTagsAllocator(spaceSize, allocateFitMode);
    r := Some(arena);
  }

  lemma FittingSize(bs: seq<Block>, mode: FitMode, need: nat, k: nat)
    requires Picks(bs, mode, need, k)
    ensures k < |bs| && need <= bs[k].size
  {
  }
}
