/** What the heap promises: over one call, over any run of calls, and exactly where it fails to. */
module HeapTheorems {
  import opened Memory
  import opened Units
  import opened ChunkList
  import opened FirstFit
  import opened HeapSpec
  import opened HeapEdits
  import opened HeapSteps
  import opened HeapResize
  import opened HeapBlocks

  // ----- malloc: where, and when it halts -----

  /** No free run anywhere in the list has `need` bytes. */
  ghost predicate NoRun(cs: seq<Chunk>, need: nat) {
    forall i, j :: FreeRun(cs, i, j) ==> Total(cs[i..j]) < need
  }

  /** The heap's end moves only when no free run anywhere had room for the request. */
  lemma GrowsOnlyWhenFull(s: State, size: nat, r: Outcome, t: State)
    requires Sound(s) && MallocStep(s, size, r, t) && r.Done? && t.end != s.end
    ensures NoRun(s.cs, RealSize(size))
  {
    hide Tiles, Live, Payload, Keeps, Squeezed, Counted, Carved, Request, RealSize, Extra, Grown;
    SearchIsFirstFit(s.cs, RealSize(size));
    NoneFitsIffNoRun(s.cs, RealSize(size));
  }

  /** `malloc` halts exactly when no free run has room and the last one, merged, holds the request but not the
      smallest chunk: the pages to take are counted from the request, the check made against the chunk. */
  lemma HaltsExactly(s: State, size: nat, r: Outcome, t: State)
    requires Sound(s) && s.ready && size != 0 && MallocStep(s, size, r, t)
    ensures r == Halted <==>
      && NoRun(s.cs, RealSize(size))
      && !LastOf(Squeezed(s.cs)).used && Request(size) <= LastOf(Squeezed(s.cs)).size < MINSIZE
  {
    hide Tiles, Live, Payload, Keeps, Squeezed, Counted, Carved, Search, PlannedAtEnd, CanMap, Request, RealSize;
    SearchIsFirstFit(s.cs, RealSize(size));
    NoneFitsIffNoRun(s.cs, RealSize(size));
    var q := Search(s.cs, RealSize(size));
    if q.Found? {
      var x :| FirstFitAt(s.cs, RealSize(size), x, q);
      FoundMeansRun(s.cs, RealSize(size), x, q);
    } else {
      StuckExactly(q.all, s.end, size);
    }
  }

  /** `malloc` puts an empty block behind the heap exactly when header and request wrap to nothing, no free run has
      room for the smallest chunk, and the last chunk is in use. */
  lemma OverrunsExactly(s: State, size: nat, r: Outcome, t: State)
    requires Sound(s) && s.ready && size != 0 && MallocStep(s, size, r, t)
    ensures r == Overrun <==> Request(size) == 0 && NoRun(s.cs, MINSIZE) && LastOf(Squeezed(s.cs)).used
    ensures r == Overrun ==> Sound(t) && t.end == s.end && GetHeader(t.m, s.end) == EmptyBlock()
  {
    if Request(size) == 0 { assert RealSize(size) == MINSIZE; }
    hide Tiles, Live, Payload, Keeps, Squeezed, Counted, Carved, Search, PlannedAtEnd, CanMap, GetHeader, Request,
         RealSize;
    SearchIsFirstFit(s.cs, RealSize(size));
    NoneFitsIffNoRun(s.cs, RealSize(size));
    var q := Search(s.cs, RealSize(size));
    if q.Found? {
      var x :| FirstFitAt(s.cs, RealSize(size), x, q);
      FoundMeansRun(s.cs, RealSize(size), x, q);
    } else {
      StuckExactly(q.all, s.end, size);
    }
  }

  /** Which it does for one size only. */
  lemma WrapsToNothing(size: nat)
    requires size < U64
    ensures Request(size) == 0 <==> size == U64 - HSIZE
  {
  }

  lemma FoundMeansRun(cs: seq<Chunk>, need: nat, t: int, r: SearchResult)
    requires r.Found? && FirstFitAt(cs, need, t, r)
    ensures !NoRun(cs, need)
  {
    hide Squeezed, Total;
    if r.hit == cs[t] {
      assert FreeRun(cs, t, t + 1) && cs[t..t + 1] == [cs[t]];
      TotalOne(cs[t]);
    } else {
      var x := |r.before|;
      assert Squeezed(cs[..t + 1])[x] == r.hit;
      var i, j := FitMeansRun(cs[..t + 1], need, x);
      assert cs[..t + 1][i..j] == cs[i..j] && FreeRun(cs, i, j);
    }
  }

  lemma TotalOne(c: Chunk)
    ensures Total([c]) == c.size
  {
    assert [c][..0] == [];
  }

  lemma StuckExactly(all: seq<Chunk>, e: nat, size: nat)
    requires all != [] && NoneFits(all, RealSize(size))
    ensures PlannedAtEnd(all, e, size).Stuck? <==>
            !LastOf(all).used && Request(size) <= LastOf(all).size < MINSIZE
    ensures PlannedAtEnd(all, e, size).Empty? <==> LastOf(all).used && Request(size) == 0
  {
    hide Request;
    if Request(size) == 0 && LastOf(all).used {
      return;
    }
    var c, n := LastOf(all), Extra(LastOf(all), size);
    GrownLast(all, e, n);
    ExtraIs(c, size);
    GrowthSuffices(all, e, size);
  }

  // ----- realloc keeps contents -----

  lemma AddedCounts(live: seq<Chunk>, c: Chunk, live2: seq<Chunk>)
    requires Added(live, c, live2)
    ensures multiset(live2) == multiset(live) + multiset{c}
  {
    var j :| 0 <= j <= |live| && live2 == live[..j] + [c] + live[j..];
    assert live == live[..j] + live[j..];
  }

  /** From s to t the live block b has become c, with its first k bytes; every other block is untouched. */
  ghost predicate Transferred(s: State, b: Chunk, c: Chunk, k: int, t: State) {
    && Sound(t) && t.ready
    && multiset(Live(t.cs)) + multiset{b} == multiset(Live(s.cs)) + multiset{c}
    && SameBytes(s.m, b.at + HSIZE, t.m, c.at + HSIZE, k)
    && forall d :: d in Live(s.cs) && d != b ==>
         d in Live(t.cs) && d.End() <= |s.m| == |t.m| && t.m[d.at..d.End()] == s.m[d.at..d.End()]
  }

  /** The block `realloc` leaves behind when it needs no new one. */
  function NewBlock(cs: seq<Chunk>, i: nat, need: nat, w: Way): Chunk
    requires i < |cs| && (w.Slide? ==> i > 0)
  {
    if w.Keep? then cs[i] else Chunk(BlockAfter(cs, i, w) - HSIZE, need, true)
  }

  lemma ListAfterIs(cs: seq<Chunk>, i: nat, need: nat, w: Way)
    requires i < |cs| && w == WayFor(cs, i, need) && !w.Move? && !w.Keep?
    ensures 0 <= From(i, w) < UpTo(i, w) <= |cs|
    ensures ListAfter(cs, i, need, w) == Resized(cs, From(i, w), UpTo(i, w), need, w.left)
    ensures NewBlock(cs, i, need, w) == Chunk(cs[From(i, w)].at, need, true)
  {
    hide Resized;
  }

  lemma SplicedCounts(a: seq<Chunk>, c: Chunk, b: seq<Chunk>)
    ensures multiset(a + [c] + b) == multiset(a + b) + multiset{c}
  {
    SplicedIn(a, c, b);
    AddedCounts(a + b, c, a + [c] + b);
  }

  lemma ListAfterLive(cs: seq<Chunk>, i: nat, need: nat, w: Way)
    requires i < |cs| && cs[i].used && HSIZE <= cs[i].size && MINSIZE <= need && w == WayFor(cs, i, need) && !w.Move?
    ensures multiset(Live(ListAfter(cs, i, need, w))) + multiset{cs[i]} ==
            multiset(Live(cs)) + multiset{NewBlock(cs, i, need, w)}
    ensures multiset(Live(cs)) == multiset(Live(cs[..i]) + Live(cs[i + 1..])) + multiset{cs[i]}
  {
    hide Live, Payload, Resized, ListAfter, UpTo;
    var a, b := Live(cs[..i]), Live(cs[i + 1..]);
    LiveAt(cs, i);
    LiveOne(cs[i]);
    SplicedCounts(a, cs[i], b);
    if w.Keep? {
      KeepChangesNothing(cs, i, need);
    } else {
      OthersLive(cs, i, need, w);
      ListAfterIs(cs, i, need, w);
      var x, y := From(i, w), UpTo(i, w);
      ResizedLive(cs, x, y, need, w.left);
      SplicedCounts(Live(cs[..x]), NewBlock(cs, i, need, w), Live(cs[y..]));
    }
  }

  lemma KeepChangesNothing(cs: seq<Chunk>, i: nat, need: nat)
    requires i < |cs| && WayFor(cs, i, need).Keep?
    ensures ListAfter(cs, i, need, Keep) == cs && NewBlock(cs, i, need, Keep) == cs[i]
  {
  }

  /** A kept block is still there, byte for byte. */
  lemma OthersKept(s: State, b: Chunk, others: seq<Chunk>, t: State)
    requires Sound(s) && Keeps(s.m, t.m, others)
    requires multiset(Live(s.cs)) == multiset(others) + multiset{b}
    ensures forall d :: d in Live(s.cs) && d != b ==>
        d.End() <= |s.m| == |t.m| && t.m[d.at..d.End()] == s.m[d.at..d.End()]
  {
    hide Live, Payload, Tiles, Keeps;
    forall d | d in Live(s.cs) && d != b
      ensures d.End() <= |s.m| == |t.m| && t.m[d.at..d.End()] == s.m[d.at..d.End()]
    {
      assert d in multiset(Live(s.cs));
      assert d in multiset(others);
      LiveDisjoint(s, d, d);
      KeepsLength(s.m, t.m, others);
      KeepsOne(s.m, t.m, others, d);
    }
  }

  lemma StillLive(live: seq<Chunk>, b: Chunk, c: Chunk, live2: seq<Chunk>)
    requires multiset(live2) + multiset{b} == multiset(live) + multiset{c}
    ensures forall d :: d in live && d != b ==> d in live2
  {
    forall d | d in live && d != b ensures d in live2 {
      assert d in multiset(live) + multiset{c};
      assert d in multiset(live2);
    }
  }

  lemma InPlaceTransfers(s: State, i: nat, need: nat, w: Way, t: State)
    requires Sound(s) && s.ready && i < |s.cs| && s.cs[i].used && MINSIZE <= need
    requires w == WayFor(s.cs, i, need) && !w.Move? && ResizedInPlace(s, i, need, w, t)
    ensures Transferred(s, s.cs[i], NewBlock(s.cs, i, need, w), Min(s.cs[i].size, need) - HSIZE, t)
  {
    hide Tiles, Live, Payload, Keeps, Counted, ListAfter, SameBytes;
    Around(s, i);
    ListAfterLive(s.cs, i, need, w);
    OthersKept(s, s.cs[i], Live(s.cs[..i]) + Live(s.cs[i + 1..]), t);
    StillLive(Live(s.cs), s.cs[i], NewBlock(s.cs, i, need, w), Live(t.cs));
  }

  /** A block copied elsewhere and freed. */
  lemma MoveTransfers(s: State, i: nat, size: nat, q: nat, f: State, t: State) returns (c: Chunk)
    requires Sound(s) && s.ready && i < |s.cs| && s.cs[i].used && WayFor(s.cs, i, RealSize(size)).Move?
    requires MoveStep(s, i, size, Done(q), f, t)
    ensures c.at + HSIZE == q && RealSize(size) <= c.size
    ensures Transferred(s, s.cs[i], c, s.cs[i].size - HSIZE, t)
  {
    hide Tiles, Live, Payload, Keeps, Counted, MallocStep, SameBytes, Moved, GetHeader, RealSize, Freed;
    var b := s.cs[i];
    Around(s, i);
    MoveIsBig(s, i, size);
    c := MoveApart(s, i, size, q, f);
    var k := b.size - HSIZE;
    CopyBetween(f, c, b, k);
    var g := f.(m := Moved(f.m, q, b.at + HSIZE, k));
    var x := IndexOf(g.cs, b.at);
    LiveFound(f, b);
    AddedIsNew(f, Live(s.cs), c);
    FreeRemoves(g, x, t);
    MoveCounts(s, b, c, f, t);
    MoveBytes(s, b, c, k, f, g, t);
  }

  lemma MoveCounts(s: State, b: Chunk, c: Chunk, f: State, t: State)
    requires Added(Live(s.cs), c, Live(f.cs)) && Added(Live(t.cs), b, Live(f.cs))
    ensures multiset(Live(t.cs)) + multiset{b} == multiset(Live(s.cs)) + multiset{c}
    ensures forall d :: d in Live(f.cs) && d != b ==> d in Live(t.cs)
    ensures forall d :: d in Live(s.cs) ==> d in Live(f.cs)
  {
    hide Live;
    AddedCounts(Live(s.cs), c, Live(f.cs));
    AddedCounts(Live(t.cs), b, Live(f.cs));
    AddedMembers(Live(s.cs), c, Live(f.cs));
    AddedMembers(Live(t.cs), b, Live(f.cs));
  }

  lemma MoveBytes(s: State, b: Chunk, c: Chunk, k: nat, f: State, g: State, t: State)
    requires Sound(s) && Sound(f) && Sound(g) && g == f.(m := g.m) && |s.m| == |f.m| == |t.m|
    requires Keeps(s.m, f.m, Live(s.cs)) && Keeps(g.m, t.m, Live(t.cs))
    requires b in Live(s.cs) && b in Live(f.cs) && c in Live(f.cs) && c != b && c !in Live(s.cs)
    requires forall d :: d in Live(f.cs) && d != b ==> d in Live(t.cs)
    requires forall d :: d in Live(s.cs) ==> d in Live(f.cs)
    requires SameOutside(f.m, g.m, c.at + HSIZE, c.End()) && c.End() <= |f.m|
    requires HSIZE + k <= c.size && HSIZE + k == b.size && SameBytes(f.m, b.at + HSIZE, g.m, c.at + HSIZE, k)
    ensures SameBytes(s.m, b.at + HSIZE, t.m, c.at + HSIZE, k)
    ensures forall d :: d in Live(s.cs) && d != b ==> d.End() <= |s.m| && t.m[d.at..d.End()] == s.m[d.at..d.End()]
  {
    hide Tiles, Live, Payload, Keeps, Counted;
    LiveDisjoint(s, b, b);
    KeepsOne(s.m, f.m, Live(s.cs), b);
    KeepsOne(g.m, t.m, Live(t.cs), c);
    SameBytesThrough(s.m, f.m, g.m, t.m, b, c, k);
    forall d | d in Live(s.cs) && d != b ensures d.End() <= |s.m| && t.m[d.at..d.End()] == s.m[d.at..d.End()] {
      LiveDisjoint(s, d, d);
      LiveDisjoint(f, d, c);
      KeepsOne(s.m, f.m, Live(s.cs), d);
      KeepsOne(g.m, t.m, Live(t.cs), d);
      assert g.m[d.at..d.End()] == f.m[d.at..d.End()];
    }
  }

  lemma SameBytesThrough(m: seq<Byte>, f: seq<Byte>, g: seq<Byte>, t: seq<Byte>, b: Chunk, c: Chunk, k: nat)
    requires |m| == |f| == |g| == |t| && b.End() <= |m| && c.End() <= |m| && HSIZE + k <= c.size && HSIZE + k == b.size
    requires f[b.at..b.End()] == m[b.at..b.End()] && t[c.at..c.End()] == g[c.at..c.End()]
    requires SameBytes(f, b.at + HSIZE, g, c.at + HSIZE, k)
    ensures SameBytes(m, b.at + HSIZE, t, c.at + HSIZE, k)
  {
    var p, v := c.at + HSIZE, b.at + HSIZE;
    forall y | p <= y < p + k ensures t[y] == m[y - p + v] {
      assert t[y] == t[c.at..c.End()][y - c.at] == g[y];
      assert f[y - p + v] == f[b.at..b.End()][y - p + v - b.at] == m[y - p + v];
    }
  }

  // ----- exactly when growing a block destroys the chunk after it -----

  /** The header written for r < 8 left-over bytes happens to agree with the bytes of the next header it covers. */
  predicate Survives(next: Chunk, r: nat)
    requires next.AsHeader().Packable()
  {
    && r < HSIZE
    && Word(next.AsHeader())[..HSIZE - r] == Word(Header(r, MAGIC, false, false))[r..]
  }

  /** A header at a, then r bytes, then the next chunk: what becomes of the next chunk's header. */
  lemma Collision(m: seq<Byte>, m2: seq<Byte>, a: nat, r: nat, next: Chunk)
    requires r < HSIZE && next.at == a + r && next.at + HSIZE <= |m| == |m2| && next.AsHeader().Packable()
    requires GetHeader(m, next.at) == next.AsHeader() && GetHeader(m2, a) == Header(r, MAGIC, false, false)
    requires forall x :: a + HSIZE <= x < next.at + HSIZE ==> m2[x] == m[x]
    ensures GetHeader(m2, next.at) == next.AsHeader() <==> Survives(next, r)
  {
    hide Word, Unword, GetHeader;
    var e := next.at;
    HeaderIsWord(m, e, next.AsHeader());
    HeaderIsWord(m2, e, next.AsHeader());
    HeaderIsWord(m2, a, Header(r, MAGIC, false, false));
    var w, h := Word(next.AsHeader()), Word(Header(r, MAGIC, false, false));
    hide Survives;
    CutInTwo(m, e, a + HSIZE, e + HSIZE);
    CutInTwo(m2, e, a + HSIZE, e + HSIZE);
    SliceOfSlice(m2, a, e, a + HSIZE);
    var tail, tail2 := m[a + HSIZE..e + HSIZE], m2[a + HSIZE..e + HSIZE];
    assert tail2 == tail;
    assert w == m[e..a + HSIZE] + tail && |m[e..a + HSIZE]| == HSIZE - r;
    assert w[..HSIZE - r] == m[e..a + HSIZE] && h[r..] == m2[e..a + HSIZE];
    SurvivesMeans(next, r);
  }

  lemma CutInTwo(m: seq<Byte>, a: nat, b: nat, c: nat)
    requires a <= b <= c <= |m|
    ensures m[a..c] == m[a..b] + m[b..c]
  {
  }

  lemma SliceOfSlice(m: seq<Byte>, a: nat, b: nat, c: nat)
    requires a <= b <= c <= |m|
    ensures m[a..c][b - a..] == m[b..c]
  {
  }

  lemma SurvivesMeans(next: Chunk, r: nat)
    requires r < HSIZE && next.AsHeader().Packable()
    ensures Survives(next, r) <==> Word(next.AsHeader())[..HSIZE - r] == Word(Header(r, MAGIC, false, false))[r..]
  {
    hide Word;
  }

  /** With nothing or one byte left over, the next header is always lost. */
  lemma NeverSurvives(next: Chunk, r: nat)
    requires r <= 1 && 1 <= next.size < SIZE_LIMIT
    ensures !Survives(next, r)
  {
    hide Word;
    var w, h := Word(next.AsHeader()), Word(Header(r, MAGIC, false, false));
    if r == 0 {
      assert w[..HSIZE] == w && h[0..] == h;
      UnwordOfWord(next.AsHeader());
      UnwordOfWord(Header(0, MAGIC, false, false));
    } else {
      MagicBytes(next.AsHeader());
      MagicBytes(Header(1, MAGIC, false, false));
      assert w[..7][6] == w[6] && h[1..][6] == h[7];
    }
  }

  lemma MagicBytes(h: Header)
    requires h.Packable() && h.magic == MAGIC
    ensures Word(h)[6] == 0x4F && (!h.used && !h.notOurs ==> Word(h)[7] == 0x2B)
  {
  }

  /** `realloc` growing a block over a free neighbour leaves the header of the chunk after them as it was exactly
      when there is room for what is left over, or the bytes overlap without differing. */
  lemma NextHeaderKept(s: State, i: nat, need: nat, w: Way, t: State)
    requires Sound(s) && i < |s.cs| && s.cs[i].used && w == WayFor(s.cs, i, need) && Overwritten(s, i, need, w, t)
    requires UpTo(i, w) < |s.cs|
    ensures var next := s.cs[UpTo(i, w)];
      && next.at + HSIZE <= |t.m| && next.AsHeader().Packable()
      && (GetHeader(t.m, next.at) == next.AsHeader() <==> Roomy(s.cs, i, w) || Survives(next, w.left))
  {
    hide Tiles, Live, Payload, Counted, GetHeader, TakeBytes, SlideBytes, Survives;
    Around(s, i);
    Around(s, UpTo(i, w));
    var c, next := s.cs[i], s.cs[UpTo(i, w)];
    match w
    case Take(left) =>
      Around(s, i + 1);
      TakeEffect(s.m, c, need, left);
      AfterWrite(s.m, t.m, c.at, need, left, next, left > 0);
    case Slide(left) =>
      SlideEffect(s.m, s.cs[i - 1], c, need, left);
      AfterWrite(s.m, t.m, s.cs[i - 1].at, need, left, next, true);
  }

  lemma TakeEffect(m: seq<Byte>, c: Chunk, need: nat, left: nat)
    requires c.at + need + left + HSIZE <= |m| < SIZE_LIMIT && HSIZE <= need
    ensures var m2 := TakeBytes(m, c, need, left);
      && SameOutside(m, m2, c.at, c.at + need + if left > 0 then HSIZE else 0)
      && (left > 0 ==> GetHeader(m2, c.at + need) == Header(left, MAGIC, false, false))
  {
    hide GetHeader, PutHeader;
    var b, d := Chunk(c.at, need, true), Chunk(c.at + need, left, false);
    if left > 0 {
      var m1 := PutHeader(m, d.at, d.AsHeader());
      PutTwoBytes(m, b, d);
      PutHeaderEffect(m, d.at, d.AsHeader());
      PutHeaderEffect(m1, b.at, b.AsHeader());
      HeaderFrame(m1, PutHeader(m1, b.at, b.AsHeader()), d.at);
    } else {
      PutHeaderEffect(m, b.at, b.AsHeader());
    }
  }

  lemma AfterWrite(m: seq<Byte>, m2: seq<Byte>, a: nat, need: nat, left: nat, next: Chunk, written: bool)
    requires next.at == a + need + left && next.at + HSIZE <= |m| && next.AsHeader().Packable()
    requires SameOutside(m, m2, a, a + need + if written then HSIZE else 0)
    requires GetHeader(m, next.at) == next.AsHeader()
    requires written ==> GetHeader(m2, a + need) == Header(left, MAGIC, false, false)
    requires !written ==> left == 0
    ensures GetHeader(m2, next.at) == next.AsHeader() <==> !written || HSIZE <= left || Survives(next, left)
  {
    hide GetHeader, Survives;
    if written && left < HSIZE {
      Collision(m, m2, a + need, left, next);
    } else {
      HeaderFrame(m, m2, next.at);
    }
  }
}
