/** The branches of `realloc`: what each does to the list, to the bytes of the block, and to everyone else's. */
module HeapResize {
  import opened Memory
  import opened Units
  import opened ChunkList
  import opened FirstFit
  import opened HeapSpec
  import opened HeapEdits
  import opened HeapSteps

  /** The k bytes at p are those that were at v. */
  ghost predicate SameBytes(m: seq<Byte>, v: int, m2: seq<Byte>, p: int, k: int) {
    && 0 <= v && 0 <= p && v + k <= |m| && p + k <= |m2|
    && forall y :: p <= y < p + k ==> m2[y] == m[y - p + v]
  }

  function NextFree(cs: seq<Chunk>, i: nat): bool { i + 1 < |cs| && !cs[i + 1].used }

  /** Chunks i to j made into a block of `need` bytes at address a, with what is left over free behind it. */
  function Resized(cs: seq<Chunk>, i: nat, j: nat, need: nat, left: nat): seq<Chunk>
    requires i < j <= |cs|
  {
    cs[..i] + (if left == 0 then [Chunk(cs[i].at, need, true)]
               else [Chunk(cs[i].at, need, true), Chunk(cs[i].at + need, left, false)]) + cs[j..]
  }

  datatype Way = Keep | Cut(left: nat) | Give(left: nat) | Take(left: nat) | Slide(left: nat) | Move

  /** The branch `realloc` takes for chunk i and a request that comes to `need` bytes with its header. */
  function WayFor(cs: seq<Chunk>, i: nat, need: nat): Way
    requires i < |cs|
  {
    var c := cs[i];
    if c.size == need then Keep
    else if c.size > need then
      if NextFree(cs, i) then Give(cs[i + 1].size + (c.size - need))
      else if c.size - need >= MINSIZE then Cut(c.size - need)
      else Keep
    else if NextFree(cs, i) && c.size + cs[i + 1].size >= need then Take(c.size + cs[i + 1].size - need)
    else if i > 0 && !cs[i - 1].used && cs[i - 1].size + c.size >= need then Slide(cs[i - 1].size + c.size - need)
    else Move
  }

  /** A header for `left` bytes fits before the chunk after the rewritten stretch, or there is none to hit.
      `Slide` writes that header even when nothing is left. */
  predicate Roomy(cs: seq<Chunk>, i: nat, w: Way)
    requires i < |cs|
  {
    match w
    case Take(left) => left == 0 || HSIZE <= left || i + 2 == |cs|
    case Slide(left) => HSIZE <= left || i + 1 == |cs|
    case _ => true
  }

  function ListAfter(cs: seq<Chunk>, i: nat, need: nat, w: Way): seq<Chunk>
    requires i < |cs| && w == WayFor(cs, i, need) && !w.Move?
  {
    match w
    case Keep => cs
    case Cut(left) => Resized(cs, i, i + 1, need, left)
    case Give(left) => Resized(cs, i, i + 2, need, left)
    case Take(left) => Resized(cs, i, i + 2, need, left)
    case Slide(left) => Resized(cs, i - 1, i + 1, need, left)
  }

  function BlockAfter(cs: seq<Chunk>, i: nat, w: Way): nat
    requires i < |cs| && (w.Slide? ==> i > 0)
  {
    (if w.Slide? then cs[i - 1].at else cs[i].at) + HSIZE
  }

  lemma PutTwoBytes(m: seq<Byte>, c: Chunk, d: Chunk)
    requires c.AsHeader().Packable() && d.AsHeader().Packable() && c.at + HSIZE <= d.at && d.at + HSIZE <= |m|
    ensures var m2 := PutHeader(PutHeader(m, d.at, d.AsHeader()), c.at, c.AsHeader());
      forall x :: 0 <= x < |m| && !(c.at <= x < c.at + HSIZE) && !(d.at <= x < d.at + HSIZE) ==> m2[x] == m[x]
  {
    hide GetHeader, PutHeader;
    var m1 := PutHeader(m, d.at, d.AsHeader());
    PutHeaderEffect(m, d.at, d.AsHeader());
    PutHeaderEffect(m1, c.at, c.AsHeader());
  }

  lemma MoveHeader(m: seq<Byte>, d: nat, a: nat, h: Header)
    requires d + HSIZE <= |m| && a + HSIZE <= |m| && h.Packable()
    ensures GetHeader(Moved(m, d, a, HSIZE), d) == GetHeader(m, a)
    ensures PutHeader(Moved(m, d, a, HSIZE), d, h) == PutHeader(m, d, h)
  {
    hide Word, Unword;
    var w := Moved(m, d, a, HSIZE);
    assert w[d..d + HSIZE] == m[a..a + HSIZE];
    assert w[..d] == m[..d] && w[d + HSIZE..] == m[d + HSIZE..];
  }

  /** Live chunks of the list once chunks i to j, of which only `mine` is in use, become a block. */
  lemma ResizedLive(cs: seq<Chunk>, i: nat, j: nat, need: nat, left: nat)
    requires i < j <= |cs| && MINSIZE <= need
    ensures Live(Resized(cs, i, j, need, left)) == Live(cs[..i]) + [Chunk(cs[i].at, need, true)] + Live(cs[j..])
    ensures Payload(Resized(cs, i, j, need, left)) == Payload(cs[..i]) + (need - HSIZE) + Payload(cs[j..])
  {
    hide Live, Payload;
    var c := Chunk(cs[i].at, need, true);
    var d := Chunk(cs[i].at + need, left, false);
    LiveOne(c);
    if left == 0 {
      LiveAround(cs[..i], [c], cs[j..]);
    } else {
      LiveOne(d);
      LiveTwo(c, d);
      assert [c] + [] == [c];
      LiveAround(cs[..i], [c, d], cs[j..]);
    }
  }

  /** Writing the block's header, and before it the one behind it, resizes chunks i to j in place. */
  lemma ResizeStep(m: seq<Byte>, cs: seq<Chunk>, i: nat, j: nat, need: nat, left: nat, lo: nat, e: nat)
    requires i < j <= |cs| && Tiles(m, cs, lo, e, e) && e + HSIZE <= |m| < SIZE_LIMIT && MINSIZE <= need
    requires cs[i].at + need + left == StartOf(cs, j, e)
    requires HSIZE <= left || (left > 0 && j == |cs|)
    ensures var c, d := Chunk(cs[i].at, need, true), Chunk(cs[i].at + need, left, false);
      && c.AsHeader().Packable() && d.AsHeader().Packable() && d.at + HSIZE <= |m|
      && var m2 := PutHeader(PutHeader(m, d.at, d.AsHeader()), c.at, c.AsHeader());
      && Tiles(m2, Resized(cs, i, j, need, left), lo, e, e) && Keeps(m, m2, Live(cs[..i]) + Live(cs[j..]))
      && SameBytes(m, c.at + HSIZE, m2, c.at + HSIZE, need - HSIZE)
  {
    hide GetHeader, PutHeader, Live, Tiles, Keeps;
    var c, d := Chunk(cs[i].at, need, true), Chunk(cs[i].at + need, left, false);
    StartsAscend(m, cs, i, j, lo, e);
    PutTwo(m, cs, i, j, c, d, lo, e);
    PutTwoBytes(m, c, d);
  }

  /** The same with nothing left over: only the block's own header is written. */
  lemma FillStep(m: seq<Byte>, cs: seq<Chunk>, i: nat, j: nat, need: nat, lo: nat, e: nat)
    requires i < j <= |cs| && Tiles(m, cs, lo, e, e) && e + HSIZE <= |m| < SIZE_LIMIT && MINSIZE <= need
    requires cs[i].at + need == StartOf(cs, j, e)
    ensures var c := Chunk(cs[i].at, need, true);
      && c.AsHeader().Packable() && c.at + HSIZE <= |m|
      && var m2 := PutHeader(m, c.at, c.AsHeader());
      && Tiles(m2, Resized(cs, i, j, need, 0), lo, e, e) && Keeps(m, m2, Live(cs[..i]) + Live(cs[j..]))
      && SameBytes(m, c.at + HSIZE, m2, c.at + HSIZE, need - HSIZE)
  {
    hide GetHeader, PutHeader, Live, Tiles, Keeps;
    var c := Chunk(cs[i].at, need, true);
    StartsAscend(m, cs, i, j, lo, e);
    PutOne(m, cs, i, j, c, lo, e);
    PutHeaderEffect(m, c.at, c.AsHeader());
  }

  /** The bytes `realloc` writes when the block grows down over the free chunk before it. */
  function SlideBytes(m: seq<Byte>, p: Chunk, c: Chunk, need: nat, left: nat): (m2: seq<Byte>)
    requires p.End() == c.at && HSIZE <= c.size && c.End() + HSIZE <= |m| < SIZE_LIMIT
    requires HSIZE <= need && need + left == p.size + c.size
    ensures |m2| == |m|
  {
    var m1 := Moved(m, p.at + HSIZE, c.at + HSIZE, c.size - HSIZE);
    PutHeader(PutHeader(m1, p.at + need, Chunk(p.at + need, left, false).AsHeader()),
              p.at, Chunk(p.at, need, true).AsHeader())
  }

  lemma SlideEffect(m: seq<Byte>, p: Chunk, c: Chunk, need: nat, left: nat)
    requires p.End() == c.at && HSIZE <= c.size && c.End() + HSIZE <= |m| < SIZE_LIMIT
    requires c.size < need && need + left == p.size + c.size
    ensures var m2 := SlideBytes(m, p, c, need, left);
      && SameBytes(m, c.at + HSIZE, m2, p.at + HSIZE, c.size - HSIZE)
      && SameOutside(m, m2, p.at, p.at + need + HSIZE)
      && GetHeader(m2, p.at) == Chunk(p.at, need, true).AsHeader()
      && GetHeader(m2, p.at + need) == Chunk(p.at + need, left, false).AsHeader()
  {
    hide GetHeader, PutHeader, SameBytes, Moved;
    var m1 := Moved(m, p.at + HSIZE, c.at + HSIZE, c.size - HSIZE);
    MovedDown(m, p, c);
    var b, d := Chunk(p.at, need, true), Chunk(p.at + need, left, false);
    var m3 := PutHeader(m1, d.at, d.AsHeader());
    var m2 := PutHeader(m3, b.at, b.AsHeader());
    PutTwoBytes(m1, b, d);
    PutHeaderEffect(m1, d.at, d.AsHeader());
    PutHeaderEffect(m3, b.at, b.AsHeader());
    HeaderFrame(m3, m2, d.at);
    SameBytesAfter(m, c.at + HSIZE, m1, m2, p.at + HSIZE, c.size - HSIZE);
  }

  /** The payload moved down over the free chunk before it. */
  lemma MovedDown(m: seq<Byte>, p: Chunk, c: Chunk)
    requires p.End() == c.at && HSIZE <= c.size && c.End() + HSIZE <= |m|
    ensures var m1 := Moved(m, p.at + HSIZE, c.at + HSIZE, c.size - HSIZE);
      && SameBytes(m, c.at + HSIZE, m1, p.at + HSIZE, c.size - HSIZE)
      && SameOutside(m, m1, p.at + HSIZE, p.at + c.size)
  {
  }

  /** Writes elsewhere leave the bytes at p alone. */
  lemma SameBytesAfter(m: seq<Byte>, v: nat, m1: seq<Byte>, m2: seq<Byte>, p: nat, k: nat)
    requires SameBytes(m, v, m1, p, k) && |m2| == |m1| && forall y :: p <= y < p + k ==> m2[y] == m1[y]
    ensures SameBytes(m, v, m2, p, k)
  {
  }

  lemma SlideStep(m: seq<Byte>, cs: seq<Chunk>, i: nat, need: nat, left: nat, lo: nat, e: nat)
    requires 0 < i < |cs| && Tiles(m, cs, lo, e, e) && e + HSIZE <= |m| < SIZE_LIMIT
    requires cs[i].used && cs[i].size < need && need + left == cs[i - 1].size + cs[i].size
    requires HSIZE <= left || i + 1 == |cs|
    ensures cs[i - 1].End() == cs[i].at && cs[i].End() + HSIZE <= |m| && MINSIZE <= cs[i].size
    ensures var m2 := SlideBytes(m, cs[i - 1], cs[i], need, left);
      && Tiles(m2, Resized(cs, i - 1, i + 1, need, left), lo, e, e)
      && Keeps(m, m2, Live(cs[..i - 1]) + Live(cs[i + 1..]))
      && SameBytes(m, cs[i].at + HSIZE, m2, cs[i - 1].at + HSIZE, cs[i].size - HSIZE)
  {
    hide GetHeader, PutHeader, Live, Tiles, Keeps, SlideBytes;
    ChunkAt(m, cs, i - 1, lo, e);
    ChunkAt(m, cs, i, lo, e);
    var p, c := cs[i - 1], cs[i];
    var m2 := SlideBytes(m, p, c, need, left);
    SlideEffect(m, p, c, need, left);
    var b, d := Chunk(p.at, need, true), Chunk(p.at + need, left, false);
    var mid := if left == 0 then [b] else [b, d];
    if left == 0 {
      TilesOne(m2, b, e);
    } else {
      TilesTwo(m2, b, d, e);
    }
    Edit(m, m2, cs, i - 1, i + 1, mid, lo, e);
  }

  // ----- the steps on states -----

  /** The stretch of chunks that a branch rewrites: from here ... */
  function From(i: nat, w: Way): int { if w.Slide? then i - 1 else i }

  /** ... up to here. */
  function UpTo(i: nat, w: Way): nat { if w.Give? || w.Take? then i + 2 else i + 1 }

  /** The chunks a branch rewrites beside the block are free, so the others' live chunks are all of them. */
  lemma OthersLive(cs: seq<Chunk>, i: nat, need: nat, w: Way)
    requires i < |cs| && cs[i].used && HSIZE <= cs[i].size && w == WayFor(cs, i, need)
    ensures 0 <= From(i, w) <= i < UpTo(i, w) <= |cs|
    ensures Live(cs[..From(i, w)]) + Live(cs[UpTo(i, w)..]) == Live(cs[..i]) + Live(cs[i + 1..])
    ensures Payload(cs) == Payload(cs[..From(i, w)]) + (cs[i].size - HSIZE) + Payload(cs[UpTo(i, w)..])
  {
    hide Live, Payload;
    LiveAt(cs, i);
    LiveOne(cs[i]);
    if w.Slide? {
      FreeLast(cs[..i]);
      assert cs[..i][..i - 1] == cs[..i - 1];
    } else if w.Give? || w.Take? {
      FreeFirst(cs[i + 1..]);
      assert cs[i + 1..][1..] == cs[i + 2..];
    }
  }

  lemma FreeLast(cs: seq<Chunk>)
    requires cs != [] && !LastOf(cs).used
    ensures Live(cs) == Live(cs[..|cs| - 1]) && Payload(cs) == Payload(cs[..|cs| - 1])
  {
    hide Live, Payload;
    var n := |cs| - 1;
    LiveOne(cs[n]);
    LiveAppend(cs[..n], [cs[n]]);
    PayloadAppend(cs[..n], [cs[n]]);
    assert cs == cs[..n] + [cs[n]];
    assert Live(cs[..n]) + [] == Live(cs[..n]);
  }

  lemma FreeFirst(cs: seq<Chunk>)
    requires cs != [] && !cs[0].used
    ensures Live(cs) == Live(cs[1..]) && Payload(cs) == Payload(cs[1..])
  {
  }

  /** `realloc` done where the block stands, or one chunk lower. */
  ghost predicate ResizedInPlace(s: State, i: nat, need: nat, w: Way, t: State)
    requires i < |s.cs| && w == WayFor(s.cs, i, need) && !w.Move?
  {
    && t == s.(m := t.m, memAllocated := t.memAllocated, cs := ListAfter(s.cs, i, need, w))
    && Sound(t) && Keeps(s.m, t.m, Live(s.cs[..i]) + Live(s.cs[i + 1..]))
    && SameBytes(s.m, s.cs[i].at + HSIZE, t.m, BlockAfter(s.cs, i, w), Min(s.cs[i].size, need) - HSIZE)
  }

  lemma ResizedAddsUp(s: State, i: nat, need: nat, left: nat, w: Way, t: State)
    requires Sound(s) && i < |s.cs| && s.cs[i].used && HSIZE <= s.cs[i].size && MINSIZE <= need
    requires w == WayFor(s.cs, i, need) && (w == Cut(left) || w == Give(left) || w == Take(left) || w == Slide(left))
    requires From(i, w) >= 0 && UpTo(i, w) <= |s.cs|
    requires t == s.(m := t.m, memAllocated := t.memAllocated, cs := t.cs)
    requires t.memAllocated + s.cs[i].size == s.memAllocated + need
    requires t.cs == Resized(s.cs, From(i, w), UpTo(i, w), need, left)
    requires Tiles(t.m, t.cs, t.first, t.end, t.end)
    requires Keeps(s.m, t.m, Live(s.cs[..From(i, w)]) + Live(s.cs[UpTo(i, w)..]))
    requires SameBytes(s.m, s.cs[i].at + HSIZE, t.m, BlockAfter(s.cs, i, w), Min(s.cs[i].size, need) - HSIZE)
    ensures ResizedInPlace(s, i, need, w, t)
  {
    hide Tiles, Live, Payload, Keeps, SameBytes, Resized;
    OthersLive(s.cs, i, need, w);
    ResizedLive(s.cs, From(i, w), UpTo(i, w), need, left);
    ResizedNotEmpty(s.cs, From(i, w), UpTo(i, w), need, left);
    KeepsLength(s.m, t.m, Live(s.cs[..From(i, w)]) + Live(s.cs[UpTo(i, w)..]));
  }

  lemma ResizedNotEmpty(cs: seq<Chunk>, i: nat, j: nat, need: nat, left: nat)
    requires i < j <= |cs|
    ensures Resized(cs, i, j, need, left) != []
  {
  }

  lemma KeepAsIs(s: State, i: nat, need: nat)
    requires Sound(s) && i < |s.cs| && s.cs[i].used && WayFor(s.cs, i, need).Keep?
    ensures ResizedInPlace(s, i, need, Keep, s)
  {
    hide Tiles, Live, Payload, GetHeader;
    ChunkAt(s.m, s.cs, i, s.first, s.end);
  }

  /** The bytes `realloc` writes when the block grows over the free chunk after it. */
  function TakeBytes(m: seq<Byte>, c: Chunk, need: nat, left: int): (m2: seq<Byte>)
    requires c.at + need + left + HSIZE <= |m| < SIZE_LIMIT && HSIZE <= need && 0 <= left
    ensures |m2| == |m|
  {
    if left > 0 then
      PutHeader(PutHeader(m, c.at + need, Chunk(c.at + need, left, false).AsHeader()),
                c.at, Chunk(c.at, need, true).AsHeader())
    else PutHeader(m, c.at, Chunk(c.at, need, true).AsHeader())
  }

  lemma TakeStep(s: State, i: nat, need: nat, left: nat)
    requires Sound(s) && i < |s.cs| && s.cs[i].used && MINSIZE <= need
    requires WayFor(s.cs, i, need) == Take(left) && Roomy(s.cs, i, Take(left))
    ensures s.cs[i].at + need + left + HSIZE <= |s.m| < SIZE_LIMIT && HSIZE <= s.cs[i].size && i + 2 <= |s.cs|
    ensures var m2 := TakeBytes(s.m, s.cs[i], need, left);
      && Tiles(m2, Resized(s.cs, i, i + 2, need, left), s.first, s.end, s.end)
      && Keeps(s.m, m2, Live(s.cs[..i]) + Live(s.cs[i + 2..]))
      && SameBytes(s.m, s.cs[i].at + HSIZE, m2, s.cs[i].at + HSIZE, s.cs[i].size - HSIZE)
  {
    hide Tiles, PutHeader, Live, Payload, Keeps, Resized, GetHeader;
    ChunkAt(s.m, s.cs, i, s.first, s.end);
    ChunkAt(s.m, s.cs, i + 1, s.first, s.end);
    if left > 0 {
      ResizeStep(s.m, s.cs, i, i + 2, need, left, s.first, s.end);
    } else {
      FillStep(s.m, s.cs, i, i + 2, need, s.first, s.end);
    }
  }

  /** What memory and the total hold after `Take` or `Slide`, whether or not the heap survives it. */
  ghost predicate Overwritten(s: State, i: nat, need: nat, w: Way, t: State)
    requires i < |s.cs| && w == WayFor(s.cs, i, need)
  {
    var c := s.cs[i];
    && t == s.(m := t.m, memAllocated := t.memAllocated, cs := t.cs)
    && t.memAllocated + c.size == s.memAllocated + need
    && match w
       case Take(left) =>
         && c.at + need + left + HSIZE <= |s.m| < SIZE_LIMIT && HSIZE <= need
         && t.m == TakeBytes(s.m, c, need, left)
       case Slide(left) =>
         && s.cs[i - 1].End() == c.at && HSIZE <= c.size && c.End() + HSIZE <= |s.m| < SIZE_LIMIT && HSIZE <= need
         && t.m == SlideBytes(s.m, s.cs[i - 1], c, need, left)
       case _ => false
  }

  lemma Around(s: State, i: nat)
    requires Sound(s) && i < |s.cs|
    ensures ChunkOk(s.m, s.cs[i], s.end) && GetHeader(s.m, s.cs[i].at) == s.cs[i].AsHeader()
    ensures s.first <= s.cs[i].at && s.cs[i].End() <= s.end && s.end + HSIZE <= |s.m| < SIZE_LIMIT
    ensures i + 1 < |s.cs| ==>
      && ChunkOk(s.m, s.cs[i + 1], s.end) && GetHeader(s.m, s.cs[i + 1].at) == s.cs[i + 1].AsHeader()
      && s.cs[i + 1].at == s.cs[i].End() < s.end && s.cs[i + 1].End() <= s.end && HSIZE <= s.cs[i].size
    ensures i > 0 ==>
      && ChunkOk(s.m, s.cs[i - 1], s.end) && GetHeader(s.m, s.cs[i - 1].at) == s.cs[i - 1].AsHeader()
      && s.cs[i - 1].End() == s.cs[i].at && s.first <= s.cs[i - 1].at && HSIZE <= s.cs[i - 1].size
    ensures i + 1 == |s.cs| ==> s.cs[i].End() == s.end
    ensures i == 0 <==> s.cs[i].at == s.first
    ensures s.cs[i].used ==> s.cs[i].size - HSIZE <= s.memAllocated
  {
    hide Tiles, GetHeader, Live, Payload;
    ChunkAt(s.m, s.cs, i, s.first, s.end);
    if i + 1 < |s.cs| { ChunkAt(s.m, s.cs, i + 1, s.first, s.end); }
    if i > 0 { ChunkAt(s.m, s.cs, i - 1, s.first, s.end); }
    LiveAt(s.cs, i);
    LiveOne(s.cs[i]);
  }

  /** A request that makes a block move is past the smallest one, so `malloc` neither refuses nor wraps it. */
  lemma MoveIsBig(s: State, i: nat, size: nat)
    requires Sound(s) && i < |s.cs| && s.cs[i].used && WayFor(s.cs, i, RealSize(size)).Move?
    ensures size != 0 && Request(size) == RealSize(size) > MINSIZE && s.cs[i].size < RealSize(size)
  {
    hide Tiles, GetHeader;
    Around(s, i);
  }
}
