/** How the header words of an arena hold its blocks and the address-sorted list of free ones. */
module FreeLists {
  import opened Basics
  import opened Arenas
  import opened Coalescing

  /** The second header word: the owner of a block in use, or the next free block. */
  datatype Link = Owner | Next(block: Pointer)

  /** The first free block, or `tail` after the last one. */
  ghost function FirstFree(bs: seq<Block>, tail: Pointer): Pointer {
    if bs == [] then tail else if bs[0].live then FirstFree(bs[1..], tail) else At(bs[0].at)
  }

  /** The last free block. */
  ghost function LastFree(bs: seq<Block>): Pointer {
    if bs == [] then Null
    else if LastFree(bs[1..]) != Null then LastFree(bs[1..])
    else if bs[0].live then Null else At(bs[0].at)
  }

  ghost predicate AllLive(bs: seq<Block>) {
    forall i :: 0 <= i < |bs| ==> bs[i].live
  }

  /** The header words describe the blocks; the last free block links to `tail`. */
  ghost predicate Laid(sizes: seq<nat>, links: seq<Link>, bs: seq<Block>, tail: Pointer) {
    bs == [] || (
      && bs[0].at < |sizes| && bs[0].at < |links|
      && sizes[bs[0].at] == bs[0].size
      && links[bs[0].at] == (if bs[0].live then Owner else Next(FirstFree(bs[1..], tail)))
      && Laid(sizes, links, bs[1..], tail))
  }

  lemma {:induction false} FirstConcat(a: seq<Block>, b: seq<Block>, tail: Pointer)
    ensures FirstFree(a + b, tail) == FirstFree(a, FirstFree(b, tail))
  {
    if a == [] {
      assert a + b == b;
    } else {
      assert (a + b)[1..] == a[1..] + b;
      FirstConcat(a[1..], b, tail);
    }
  }

  lemma {:induction false} LastConcat(a: seq<Block>, b: seq<Block>)
    ensures LastFree(a + b) == if LastFree(b) != Null then LastFree(b) else LastFree(a)
  {
    if a == [] {
      assert a + b == b;
    } else {
      assert (a + b)[1..] == a[1..] + b;
      LastConcat(a[1..], b);
    }
  }

  lemma {:induction false} NoneFree(a: seq<Block>, tail: Pointer)
    ensures AllLive(a) <==> LastFree(a) == Null
    ensures AllLive(a) ==> FirstFree(a, tail) == tail
    ensures !AllLive(a) ==> FirstFree(a, tail) == FirstFree(a, Null) != Null
  {
    if a != [] {
      NoneFree(a[1..], tail);
      if AllLive(a[1..]) && a[0].live {
        forall i | 0 <= i < |a| ensures a[i].live { if i > 0 { assert a[1..][i - 1] == a[i]; } }
      }
    }
  }

  lemma {:induction false} LaidConcat(sizes: seq<nat>, links: seq<Link>, a: seq<Block>, b: seq<Block>, tail: Pointer)
    ensures Laid(sizes, links, a + b, tail) <==> Laid(sizes, links, a, FirstFree(b, tail)) && Laid(sizes, links, b, tail)
    ensures FirstFree(a + b, tail) == FirstFree(a, FirstFree(b, tail))
  {
    if a == [] {
      assert a + b == b;
    } else {
      assert (a + b)[1..] == a[1..] + b;
      LaidConcat(sizes, links, a[1..], b, tail);
      FirstConcat(a[1..], b, tail);
    }
  }

  /** A block whose header is elsewhere. */
  ghost predicate Avoids(bs: seq<Block>, x: nat) {
    forall i :: 0 <= i < |bs| ==> bs[i].at != x
  }

  /** Writing a header changes nothing for the other blocks. */
  lemma {:induction false} LaidFrame(sizes: seq<nat>, links: seq<Link>, bs: seq<Block>, tail: Pointer, x: nat, size: nat, link: Link)
    requires Laid(sizes, links, bs, tail) && Avoids(bs, x) && x < |sizes| == |links|
    ensures Laid(sizes[x := size], links[x := link], bs, tail)
  {
    if bs != [] {
      forall i | 0 <= i < |bs[1..]| ensures bs[1..][i].at != x { assert bs[1..][i] == bs[i + 1]; }
      LaidFrame(sizes, links, bs[1..], tail, x, size, link);
    }
  }

  lemma TilesAvoid(bs: seq<Block>, start: nat, x: nat)
    requires Tiles(bs, start) && (x < start || End(bs, start) < x + BLOCK_META_SIZE)
    ensures Avoids(bs, x)
  {
    TilesWithin(bs, start);
  }

  /** Where the link to the block after `a` is kept: in the last free block of `a`, or in the head. */
  lemma {:induction false} Relink(sizes: seq<nat>, links: seq<Link>, a: seq<Block>, start: nat, was: Pointer, tail: Pointer)
    requires Tiles(a, start) && Laid(sizes, links, a, was) && |sizes| == |links|
    ensures LastFree(a) == Null ==> Laid(sizes, links, a, tail) && FirstFree(a, tail) == tail
    ensures LastFree(a) != Null ==> start <= LastFree(a).offset && LastFree(a).offset + BLOCK_META_SIZE <= End(a, start)
    ensures LastFree(a) != Null ==> LastFree(a).offset < |links| && FirstFree(a, tail) == FirstFree(a, was)
    ensures LastFree(a) != Null ==> Laid(sizes, links[LastFree(a).offset := Next(tail)], a, tail)
  {
    if a != [] {
      var rest, next := a[1..], start + a[0].size;
      Relink(sizes, links, rest, next, was, tail);
      NoneFree(rest, tail);
      NoneFree(rest, was);
      if LastFree(rest) == Null {
        if !a[0].live {
          TilesAvoid(rest, next, start);
          LaidFrame(sizes, links, rest, tail, start, sizes[start], Next(tail));
          assert sizes[start := sizes[start]] == sizes;
        }
      }
    }
  }

  /** The header words of one block, and the rest around it. */
  lemma LaidAround(sizes: seq<nat>, links: seq<Link>, bs: seq<Block>, k: nat)
    requires Laid(sizes, links, bs, Null) && k < |bs|
    ensures bs[k].at < |sizes| && bs[k].at < |links| && sizes[bs[k].at] == bs[k].size
    ensures links[bs[k].at] == if bs[k].live then Owner else Next(FirstFree(bs[k + 1..], Null))
    ensures Laid(sizes, links, bs[..k], FirstFree(bs[k..], Null)) && Laid(sizes, links, bs[k + 1..], Null)
    ensures FirstFree(bs, Null) == FirstFree(bs[..k], FirstFree(bs[k..], Null))
  {
    assert bs == bs[..k] + bs[k..];
    LaidConcat(sizes, links, bs[..k], bs[k..], Null);
    assert bs[k..][1..] == bs[k + 1..];
  }

  /** The first free block from position `n` on. */
  lemma {:induction false} SeekFree(bs: seq<Block>, n: nat) returns (d: nat)
    requires n <= |bs|
    ensures n <= d <= |bs| && forall i :: n <= i < d ==> bs[i].live
    ensures FirstFree(bs[n..], Null) == (if d == |bs| then Null else At(bs[d].at)) && (d < |bs| ==> !bs[d].live)
    ensures LastFree(bs[..d]) == LastFree(bs[..n])
    decreases |bs| - n
  {
    d := n;
    if n < |bs| && bs[n].live {
      assert bs[n..][1..] == bs[n + 1..];
      d := SeekFree(bs, n + 1);
      assert bs[..n + 1] == bs[..n] + [bs[n]];
      LastConcat(bs[..n], [bs[n]]);
    }
  }

  /** Following the link of a free block leads to the next free block. */
  lemma StepFree(sizes: seq<nat>, links: seq<Link>, bs: seq<Block>, c: nat) returns (d: nat)
    requires Laid(sizes, links, bs, Null) && c < |bs| && !bs[c].live
    ensures bs[c].at < |links| && c < d <= |bs| && forall i :: c < i < d ==> bs[i].live
    ensures links[bs[c].at] == Next(if d == |bs| then Null else At(bs[d].at)) && (d < |bs| ==> !bs[d].live)
    ensures LastFree(bs[..d]) == At(bs[c].at)
  {
    LaidAround(sizes, links, bs, c);
    d := SeekFree(bs, c + 1);
    assert bs[..c + 1] == bs[..c] + [bs[c]];
    LastConcat(bs[..c], [bs[c]]);
  }

  /** Two states of the header words that differ only between `lo` and `hi`. */
  ghost predicate Agree(sizes: seq<nat>, links: seq<Link>, sizes': seq<nat>, links': seq<Link>, lo: nat, hi: nat) {
    && |sizes'| == |sizes| && |links'| == |links|
    && (forall x :: 0 <= x < |sizes| && !(lo <= x < hi) ==> sizes'[x] == sizes[x])
    && (forall x :: 0 <= x < |links| && !(lo <= x < hi) ==> links'[x] == links[x])
  }

  lemma {:induction false} LaidAgree(sizes: seq<nat>, links: seq<Link>, sizes': seq<nat>, links': seq<Link>, lo: nat, hi: nat,
      bs: seq<Block>, tail: Pointer)
    requires Laid(sizes, links, bs, tail) && Agree(sizes, links, sizes', links', lo, hi)
    requires forall i :: 0 <= i < |bs| ==> !(lo <= bs[i].at < hi)
    ensures Laid(sizes', links', bs, tail)
  {
    if bs != [] {
      forall i | 0 <= i < |bs[1..]| ensures !(lo <= bs[1..][i].at < hi) { assert bs[1..][i] == bs[i + 1]; }
      LaidAgree(sizes, links, sizes', links', lo, hi, bs[1..], tail);
    }
  }

  /** The blocks around a stretch whose headers alone were rewritten. */
  lemma Sides(sizes: seq<nat>, links: seq<Link>, sizes': seq<nat>, links': seq<Link>,
      a: seq<Block>, m: seq<Block>, b: seq<Block>, start: nat)
    requires Tiles(a + m + b, start) && Laid(sizes, links, a + m + b, Null)
    requires Agree(sizes, links, sizes', links', End(a, start), End(m, End(a, start)))
    ensures Tiles(a, start) && Laid(sizes', links', a, FirstFree(m + b, Null)) && Laid(sizes', links', b, Null)
    ensures Tiles(b, End(m, End(a, start)))
    ensures FirstFree(a + m + b, Null) == FirstFree(a, FirstFree(m + b, Null))
  {
    var lo, hi := End(a, start), End(m, End(a, start));
    assert a + m + b == a + (m + b);
    TilesReplace(a, m, b, start);
    LaidConcat(sizes, links, a, m + b, Null);
    LaidConcat(sizes, links, m, b, Null);
    TilesWithin(a, start);
    TilesWithin(b, hi);
    LaidAgree(sizes, links, sizes', links', lo, hi, a, FirstFree(m + b, Null));
    LaidAgree(sizes, links, sizes', links', lo, hi, b, Null);
  }

  lemma Assemble(sizes: seq<nat>, links: seq<Link>, a: seq<Block>, n: seq<Block>, b: seq<Block>)
    requires Laid(sizes, links, a, FirstFree(n + b, Null)) && Laid(sizes, links, n, FirstFree(b, Null)) && Laid(sizes, links, b, Null)
    ensures Laid(sizes, links, a + n + b, Null) && FirstFree(a + n + b, Null) == FirstFree(a, FirstFree(n + b, Null))
  {
    assert a + n + b == a + (n + b);
    LaidConcat(sizes, links, n, b, Null);
    LaidConcat(sizes, links, a, n + b, Null);
  }

  /** Blocks `n` replace blocks `m`, and the first free block from there on stays the same. */
  lemma Rewrite(sizes: seq<nat>, links: seq<Link>, sizes': seq<nat>, links': seq<Link>,
      a: seq<Block>, m: seq<Block>, n: seq<Block>, b: seq<Block>, start: nat)
    requires Tiles(a + m + b, start) && Laid(sizes, links, a + m + b, Null)
    requires Agree(sizes, links, sizes', links', End(a, start), End(m, End(a, start)))
    requires Laid(sizes', links', n, FirstFree(b, Null)) && FirstFree(n + b, Null) == FirstFree(m + b, Null)
    ensures Laid(sizes', links', a + n + b, Null) && FirstFree(a + n + b, Null) == FirstFree(a + m + b, Null)
  {
    Sides(sizes, links, sizes', links', a, m, b, start);
    Assemble(sizes', links', a, n, b);
  }

  /** Blocks `n` replace blocks `m`; the free block before them, or the head, is relinked. */
  lemma Rewire(sizes: seq<nat>, links: seq<Link>, sizes': seq<nat>, links': seq<Link>,
      a: seq<Block>, m: seq<Block>, n: seq<Block>, b: seq<Block>, start: nat)
    returns (links'': seq<Link>)
    requires Tiles(a + m + b, start) && Laid(sizes, links, a + m + b, Null) && |sizes| == |links|
    requires Agree(sizes, links, sizes', links', End(a, start), End(m, End(a, start)))
    requires Tiles(n, End(a, start)) && End(n, End(a, start)) == End(m, End(a, start))
    requires Laid(sizes', links', n, FirstFree(b, Null))
    ensures LastFree(a) != Null ==> LastFree(a).offset < |links| && LastFree(a).offset + BLOCK_META_SIZE <= End(a, start)
    ensures links'' == if LastFree(a) == Null then links' else links'[LastFree(a).offset := Next(FirstFree(n + b, Null))]
    ensures Laid(sizes', links'', a + n + b, Null)
    ensures FirstFree(a + n + b, Null) == if LastFree(a) == Null then FirstFree(n + b, Null) else FirstFree(a + m + b, Null)
  {
    hide Tiles, End, FirstFree, LastFree, Laid, Agree;
    Sides(sizes, links, sizes', links', a, m, b, start);
    var t := FirstFree(n + b, Null);
    var lo, hi := End(a, start), End(m, End(a, start));
    SameLength(sizes, links, sizes', links', lo, hi);
    Relink(sizes', links', a, start, FirstFree(m + b, Null), t);
    links'' := links';
    if LastFree(a) != Null {
      var p := LastFree(a).offset;
      links'' := links'[p := Next(t)];
      TilesAvoid(n, lo, p);
      TilesAvoid(b, hi, p);
      LaidFrame(sizes', links', n, FirstFree(b, Null), p, sizes'[p], Next(t));
      LaidFrame(sizes', links', b, Null, p, sizes'[p], Next(t));
      assert sizes'[p := sizes'[p]] == sizes';
    }
    Assemble(sizes', links'', a, n, b);
  }

  lemma SameLength(sizes: seq<nat>, links: seq<Link>, sizes': seq<nat>, links': seq<Link>, lo: nat, hi: nat)
    requires Agree(sizes, links, sizes', links', lo, hi)
    ensures |sizes'| == |sizes| && |links'| == |links|
  {
  }

  /** The header words after block `k` is carved, before its predecessor is relinked. */
  ghost function CarvedSizes(sizes: seq<nat>, b: Block, need: nat): seq<nat>
    requires b.at < |sizes| && (need + BLOCK_META_SIZE <= b.size ==> b.at + need < |sizes|)
  {
    if need + BLOCK_META_SIZE > b.size then sizes[b.at := b.size] else sizes[b.at + need := b.size - need][b.at := need]
  }

  ghost function CarvedLinks(links: seq<Link>, b: Block, need: nat): seq<Link>
    requires b.at < |links| && (need + BLOCK_META_SIZE <= b.size ==> b.at + need < |links|)
  {
    if need + BLOCK_META_SIZE > b.size then links[b.at := Owner] else links[b.at + need := links[b.at]][b.at := Owner]
  }

  /** Where the free list goes on after a carved block. */
  ghost function CarvedNext(links: seq<Link>, b: Block, need: nat): Pointer
    requires b.at < |links| && links[b.at].Next?
  {
    if need + BLOCK_META_SIZE > b.size then links[b.at].block else At(b.at + need)
  }

  lemma CarvedLaid(sizes: seq<nat>, links: seq<Link>, f: Block, need: nat, b: seq<Block>)
    requires !f.live && BLOCK_META_SIZE <= need <= f.size && f.at + f.size <= |sizes| == |links|
    requires sizes[f.at] == f.size && links[f.at] == Next(FirstFree(b, Null))
    ensures var sizes', links', n := CarvedSizes(sizes, f, need), CarvedLinks(links, f, need), Carved(f, need, BLOCK_META_SIZE);
      && Laid(sizes', links', n, FirstFree(b, Null)) && Agree(sizes, links, sizes', links', f.at, f.at + f.size)
      && FirstFree(n + b, Null) == CarvedNext(links, f, need)
  {
    var n := Carved(f, need, BLOCK_META_SIZE);
    if |n| == 2 {
      assert n[1..] == [n[1]];
      FirstConcat(n, b, Null);
    } else {
      FirstConcat(n, b, Null);
    }
  }

  /** Allocating rewrites the header words of one block and relinks its predecessor. */
  lemma LaidTaken(sizes: seq<nat>, links: seq<Link>, bs: seq<Block>, k: nat, need: nat)
    returns (links': seq<Link>, next: Pointer)
    requires Tiles(bs, 0) && End(bs, 0) == |sizes| == |links| && Laid(sizes, links, bs, Null)
    requires k < |bs| && Fits(bs[k], need) && need >= BLOCK_META_SIZE
    ensures bs[k].at + bs[k].size <= |sizes| && links[bs[k].at].Next? && next == CarvedNext(links, bs[k], need)
    ensures LastFree(bs[..k]) != Null ==> LastFree(bs[..k]).offset < bs[k].at
    ensures links' == if LastFree(bs[..k]) == Null then CarvedLinks(links, bs[k], need)
      else CarvedLinks(links, bs[k], need)[LastFree(bs[..k]).offset := Next(next)]
    ensures Laid(CarvedSizes(sizes, bs[k], need), links', Taken(bs, k, need, BLOCK_META_SIZE), Null)
    ensures FirstFree(Taken(bs, k, need, BLOCK_META_SIZE), Null) == if LastFree(bs[..k]) == Null then next else FirstFree(bs, Null)
  {
    hide Tiles, End, FirstFree, LastFree, Laid, Agree, CarvedSizes, CarvedLinks, CarvedNext, Carved;
    var f, a, b := bs[k], bs[..k], bs[k + 1..];
    TilesAround(bs, 0, k);
    LaidAround(sizes, links, bs, k);
    TilesEnd(bs, 0, k);
    CarvedLaid(sizes, links, f, need, b);
    CarvedKeeps(f, need, BLOCK_META_SIZE);
    FreeOne(f);
    links' := Rewire(sizes, links, CarvedSizes(sizes, f, need), CarvedLinks(links, f, need), a, [f], Carved(f, need, BLOCK_META_SIZE), b, 0);
    next := CarvedNext(links, f, need);
  }

  lemma TilesEnd(bs: seq<Block>, start: nat, k: nat)
    requires Tiles(bs, start) && k < |bs|
    ensures start <= bs[k].at && bs[k].at + bs[k].size <= End(bs, start) && bs[k].size >= BLOCK_META_SIZE
  {
    TilesWithin(bs, start);
  }

  /** The last free block before position `n`. */
  lemma {:induction false} SeekBack(bs: seq<Block>, n: nat) returns (e: int)
    requires n <= |bs|
    ensures -1 <= e < n && (forall i :: e < i < n ==> bs[i].live) && (e >= 0 ==> !bs[e].live)
    ensures LastFree(bs[..n]) == if e < 0 then Null else At(bs[e].at)
  {
    e := n - 1;
    if n > 0 {
      assert bs[..n] == bs[..n - 1] + [bs[n - 1]];
      LastConcat(bs[..n - 1], [bs[n - 1]]);
      if bs[n - 1].live {
        e := SeekBack(bs, n - 1);
      }
    }
  }

  /** Blocks in use do not show in the list. */
  lemma LiveStretch(bs: seq<Block>, j: nat, n: nat)
    requires j <= n <= |bs| && forall i :: j <= i < n ==> bs[i].live
    ensures LastFree(bs[..n]) == LastFree(bs[..j]) && FirstFree(bs[j..], Null) == FirstFree(bs[n..], Null)
  {
    assert bs[..n] == bs[..j] + bs[j..n] && bs[j..] == bs[j..n] + bs[n..];
    LastConcat(bs[..j], bs[j..n]);
    FirstConcat(bs[j..n], bs[n..], Null);
    NoneFree(bs[j..n], FirstFree(bs[n..], Null));
  }

  /** The free block after `k` touches it just when it is its neighbour. */
  lemma RightTouches(bs: seq<Block>, k: nat)
    requires Tiles(bs, 0) && k < |bs|
    ensures FirstFree(bs[k + 1..], Null) == At(bs[k].at + bs[k].size) <==> k + 1 < |bs| && !bs[k + 1].live
    ensures FirstFree(bs[k + 1..], Null) != Null ==> bs[k].at + bs[k].size <= FirstFree(bs[k + 1..], Null).offset
  {
    var d := SeekFree(bs, k + 1);
    if d < |bs| {
      TilesApart(bs, 0, k, d);
      TilesApart(bs, 0, k, k + 1);
      TilesEnd(bs, 0, k + 1);
      if d > k + 1 {
        TilesApart(bs, 0, k + 1, d);
      }
    }
  }

  /** The free block before `k` touches it just when it is its neighbour. */
  lemma LeftTouches(sizes: seq<nat>, links: seq<Link>, bs: seq<Block>, k: nat)
    requires Tiles(bs, 0) && Laid(sizes, links, bs, Null) && k < |bs| && LastFree(bs[..k]) != Null
    ensures var p := LastFree(bs[..k]).offset;
      && p < |sizes| && p < |links| && p < bs[k].at && p + sizes[p] <= bs[k].at
      && (p + sizes[p] == bs[k].at <==> k > 0 && !bs[k - 1].live)
      && (k > 0 && !bs[k - 1].live ==> p == bs[k - 1].at)
  {
    var e := SeekBack(bs, k);
    LaidAround(sizes, links, bs, e);
    TilesApart(bs, 0, e, k);
    TilesEnd(bs, 0, e);
    if e + 1 < k {
      TilesApart(bs, 0, e, e + 1);
      TilesApart(bs, 0, e + 1, k);
      TilesEnd(bs, 0, e + 1);
    }
  }

  /** The header words after a released block has met its right neighbour. */
  ghost function RightSizes(sizes: seq<nat>, b: Block, next: Pointer): seq<nat>
    requires b.at < |sizes| && (next != Null ==> next.offset < |sizes|)
  {
    if next == At(b.at + b.size) then sizes[b.at := b.size + sizes[next.offset]] else sizes
  }

  ghost function RightLinks(links: seq<Link>, b: Block, next: Pointer): seq<Link>
    requires b.at < |links| && (next != Null ==> next.offset < |links|)
  {
    links[b.at := if next == At(b.at + b.size) then links[next.offset] else Next(next)]
  }

  /** The released block, grown to the right, is laid out as a free block. */
  lemma RightLaid(sizes: seq<nat>, links: seq<Link>, bs: seq<Block>, k: nat) returns (j: nat, r: Block, next: Pointer)
    requires Tiles(bs, 0) && End(bs, 0) == |sizes| == |links| && Laid(sizes, links, bs, Null) && k < |bs| && bs[k].live
    ensures next == FirstFree(bs[k + 1..], Null) && bs[k].at < |sizes| && (next != Null ==> next.offset < |sizes|)
    ensures j == (if k + 1 < |bs| && !bs[k + 1].live then k + 2 else k + 1)
    ensures r == Block(bs[k].at, RightSizes(sizes, bs[k], next)[bs[k].at], false)
    ensures r.size == bs[k].size + (if j == k + 2 then bs[k + 1].size else 0)
    ensures RightLinks(links, bs[k], next)[bs[k].at] == Next(FirstFree(bs[j..], Null))
    ensures Agree(sizes, links, RightSizes(sizes, bs[k], next), RightLinks(links, bs[k], next), bs[k].at, bs[k].at + r.size)
  {
    next := FirstFree(bs[k + 1..], Null);
    LaidAround(sizes, links, bs, k);
    TilesEnd(bs, 0, k);
    RightTouches(bs, k);
    var d := SeekFree(bs, k + 1);
    if d < |bs| {
      LaidAround(sizes, links, bs, d);
    }
    j := k + 1;
    if k + 1 < |bs| && !bs[k + 1].live {
      j := k + 2;
      TilesApart(bs, 0, k, k + 1);
      LaidAround(sizes, links, bs, k + 1);
    }
    r := Block(bs[k].at, RightSizes(sizes, bs[k], next)[bs[k].at], false);
  }

  /** The header words after the grown block has met its left neighbour. */
  ghost function LeftSizes(sizes: seq<nat>, x: nat, prev: Pointer): seq<nat>
    requires x < |sizes| && (prev != Null ==> prev.offset < |sizes|)
  {
    if prev != Null && prev.offset + sizes[prev.offset] == x then sizes[prev.offset := sizes[prev.offset] + sizes[x]] else sizes
  }

  ghost function LeftLinks(sizes: seq<nat>, links: seq<Link>, x: nat, prev: Pointer): seq<Link>
    requires x < |links| && (prev != Null ==> prev.offset < |sizes| && prev.offset < |links|)
  {
    if prev == Null then links
    else links[prev.offset := if prev.offset + sizes[prev.offset] == x then links[x] else Next(At(x))]
  }

  lemma OneLaid(sizes: seq<nat>, links: seq<Link>, f: Block, tail: Pointer)
    requires f.at < |sizes| && f.at < |links| && sizes[f.at] == f.size
    requires links[f.at] == if f.live then Owner else Next(tail)
    ensures Laid(sizes, links, [f], tail)
  {
  }

  lemma FirstOne(f: Block, b: seq<Block>)
    requires !f.live
    ensures FirstFree([f] + b, Null) == At(f.at)
  {
  }

  /** Without a free left neighbour the grown block enters the list after its predecessor. */
  lemma LaidApart(sizes: seq<nat>, links: seq<Link>, sizes': seq<nat>, links': seq<Link>, bs: seq<Block>, k: nat, j: nat, r: Block)
    returns (links'': seq<Link>)
    requires Tiles(bs, 0) && |sizes| == |links| && Laid(sizes, links, bs, Null) && k < j <= |bs| && j <= k + 2
    requires r.at == bs[k].at && !r.live && r.size == bs[k].size + (if j == k + 2 then bs[k + 1].size else 0)
    requires r.at < |sizes| && Agree(sizes, links, sizes', links', r.at, r.at + r.size)
    requires sizes'[r.at] == r.size && links'[r.at] == Next(FirstFree(bs[j..], Null))
    ensures LastFree(bs[..k]) != Null ==> LastFree(bs[..k]).offset < |links| && LastFree(bs[..k]).offset + BLOCK_META_SIZE <= r.at
    ensures links'' == if LastFree(bs[..k]) == Null then links' else links'[LastFree(bs[..k]).offset := Next(At(r.at))]
    ensures Laid(sizes', links'', bs[..k] + [r] + bs[j..], Null)
    ensures FirstFree(bs[..k] + [r] + bs[j..], Null) == if LastFree(bs[..k]) == Null then At(r.at) else FirstFree(bs, Null)
  {
    hide Tiles, End, FirstFree, LastFree, Laid, Agree;
    var a, m, b := bs[..k], bs[k..j], bs[j..];
    SameLength(sizes, links, sizes', links', r.at, r.at + r.size);
    StartsAt(bs, k);
    Stretch(bs, k, j);
    SplitThree(bs, k, j);
    OneLaid(sizes', links', r, FirstFree(b, Null));
    FirstOne(r, b);
    FreeOne(r);
    links'' := Rewire(sizes, links, sizes', links', a, m, [r], b, 0);
  }

  lemma StartsAt(bs: seq<Block>, k: nat)
    requires Tiles(bs, 0) && k < |bs|
    ensures End(bs[..k], 0) == bs[k].at && bs[k].size >= BLOCK_META_SIZE
    ensures k > 0 ==> bs[k].at == bs[k - 1].at + bs[k - 1].size
  {
    TilesAround(bs, 0, k);
    if k > 0 {
      TilesApart(bs, 0, k - 1, k);
    }
  }

  /** One or two neighbouring blocks within the arena. */
  lemma Stretch(bs: seq<Block>, k: nat, j: nat)
    requires k < j <= |bs| && j <= k + 2
    ensures End(bs[k..j], bs[k].at) == bs[k].at + bs[k].size + (if j == k + 2 then bs[k + 1].size else 0)
  {
    hide Tiles, End;
    SplitThree(bs, k, j);
    if j == k + 2 {
      Two(bs[k], bs[k + 1], bs[k].at);
    } else {
      FreeOne(bs[k]);
    }
  }

  lemma AgreeOn(sizes: seq<nat>, links: seq<Link>, sizes': seq<nat>, links': seq<Link>, lo: nat, hi: nat, p: nat, size: nat, link: Link)
    requires Agree(sizes, links, sizes', links', lo, hi) && p < lo <= hi && p < |sizes| == |links|
    ensures sizes'[p] == sizes[p]
    ensures Agree(sizes, links, sizes'[p := size], links'[p := link], p, hi)
  {
  }

  lemma Widths(bs: seq<Block>, k: nat, j: nat)
    requires Tiles(bs, 0) && 0 < k < j <= |bs| && j <= k + 2
    ensures End(bs[k - 1..j], bs[k - 1].at) == bs[k].at + bs[k].size + (if j == k + 2 then bs[k + 1].size else 0)
  {
    hide Tiles, End;
    StartsAt(bs, k);
    Stretch(bs, k, j);
    assert bs[k - 1..j] == [bs[k - 1]] + bs[k..j] by { SplitThree(bs, k - 1, j); }
    TilesConcat([bs[k - 1]], bs[k..j], bs[k - 1].at);
    FreeOne(bs[k - 1]);
  }

  lemma FirstAt(bs: seq<Block>, k: nat, j: nat)
    requires k < j <= |bs| && !bs[k].live
    ensures FirstFree(bs[k..j] + bs[j..], Null) == At(bs[k].at)
  {
    SplitThree(bs, k, j);
    FirstOne(bs[k], bs[k + 1..j] + bs[j..]);
  }

  /** What the header words show of a left neighbour. */
  lemma Neighbour(sizes: seq<nat>, links: seq<Link>, bs: seq<Block>, k: nat)
    requires Tiles(bs, 0) && Laid(sizes, links, bs, Null) && 0 < k < |bs|
    ensures bs[k - 1].at < bs[k].at == bs[k - 1].at + bs[k - 1].size && bs[k - 1].at < |sizes| && sizes[bs[k - 1].at] == bs[k - 1].size
  {
    hide Tiles, End, FirstFree, LastFree, Laid;
    StartsAt(bs, k);
    StartsAt(bs, k - 1);
    LaidAround(sizes, links, bs, k - 1);
  }

  /** A free left neighbour takes the grown block's room and its place in the list. */
  lemma LaidJoined(sizes: seq<nat>, links: seq<Link>, sizes'': seq<nat>, links'': seq<Link>, bs: seq<Block>, k: nat, j: nat, merged: Block)
    requires Tiles(bs, 0) && Laid(sizes, links, bs, Null) && 0 < k < j <= |bs| && j <= k + 2 && !bs[k - 1].live
    requires merged.at == bs[k - 1].at && !merged.live && merged.at < |sizes''| && merged.at < |links''|
    requires merged.at + merged.size == bs[k].at + bs[k].size + (if j == k + 2 then bs[k + 1].size else 0)
    requires Agree(sizes, links, sizes'', links'', merged.at, merged.at + merged.size)
    requires sizes''[merged.at] == merged.size && links''[merged.at] == Next(FirstFree(bs[j..], Null))
    ensures Laid(sizes'', links'', bs[..k - 1] + [merged] + bs[j..], Null)
    ensures FirstFree(bs[..k - 1] + [merged] + bs[j..], Null) == FirstFree(bs, Null)
  {
    hide Tiles, End, FirstFree, LastFree, Laid, Agree;
    StartsAt(bs, k - 1);
    Widths(bs, k, j);
    OneLaid(sizes'', links'', merged, FirstFree(bs[j..], Null));
    FirstOne(merged, bs[j..]);
    FirstAt(bs, k - 1, j);
    SplitWhole(bs, k - 1, j);
    Rewrite(sizes, links, sizes'', links'', bs[..k - 1], bs[k - 1..j], [merged], bs[j..], 0);
  }

  /** Releasing a block rewrites its header words and at most those of its free predecessor. */
  lemma LaidReleased(sizes: seq<nat>, links: seq<Link>, bs: seq<Block>, k: nat)
    returns (sizes': seq<nat>, links': seq<Link>, next: Pointer, prev: Pointer)
    requires Tiles(bs, 0) && Coalesced(bs) && End(bs, 0) == |sizes| == |links| && Laid(sizes, links, bs, Null) && k < |bs| && bs[k].live
    ensures next == FirstFree(bs[k + 1..], Null) && prev == LastFree(bs[..k]) && bs[k].at < |sizes| && sizes[bs[k].at] == bs[k].size
    ensures (next != Null ==> bs[k].at + bs[k].size <= next.offset < |sizes|) && (prev != Null ==> prev.offset < bs[k].at)
    ensures sizes' == LeftSizes(RightSizes(sizes, bs[k], next), bs[k].at, prev)
    ensures links' == LeftLinks(RightSizes(sizes, bs[k], next), RightLinks(links, bs[k], next), bs[k].at, prev)
    ensures Laid(sizes', links', Released(bs, k), Null)
    ensures FirstFree(Released(bs, k), Null) == if prev == Null then At(bs[k].at) else FirstFree(bs, Null)
  {
    hide Tiles, End, FirstFree, LastFree, Laid, Agree, RightSizes, RightLinks, Released, Coalesced;
    var j, r;
    j, r, next := RightLaid(sizes, links, bs, k);
    var s1, l1 := RightSizes(sizes, bs[k], next), RightLinks(links, bs[k], next);
    prev := LastFree(bs[..k]);
    LaidAround(sizes, links, bs, k);
    RightTouches(bs, k);
    SameLength(sizes, links, s1, l1, r.at, r.at + r.size);
    var i', j', merged := ReleasedParts(bs, k, 0);
    if prev != Null {
      LeftTouches(sizes, links, bs, k);
      AgreeOn(sizes, links, s1, l1, r.at, r.at + r.size, prev.offset, 0, Owner);
    }
    if k > 0 && !bs[k - 1].live {
      LastNeighbour(bs, k);
      Neighbour(sizes, links, bs, k);
      var p := bs[k - 1].at;
      AgreeOn(sizes, links, s1, l1, r.at, r.at + r.size, p, s1[p] + s1[r.at], l1[r.at]);
      sizes', links' := s1[p := s1[p] + s1[r.at]], l1[p := l1[r.at]];
      LaidJoined(sizes, links, sizes', links', bs, k, j, merged);
    } else {
      links' := LaidApart(sizes, links, s1, l1, bs, k, j, r);
      sizes' := s1;
      assert r == merged;
    }
  }

  lemma LastNeighbour(bs: seq<Block>, k: nat)
    requires 0 < k <= |bs| && !bs[k - 1].live
    ensures LastFree(bs[..k]) == At(bs[k - 1].at)
  {
    var e := SeekBack(bs, k);
  }
}
