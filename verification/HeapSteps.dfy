/** How the pieces of each operation add up to the step it is specified by. */
module HeapSteps {
  import opened Memory
  import opened Units
  import opened ChunkList
  import opened FirstFit
  import opened HeapSpec
  import opened HeapEdits

  /** t is s with free neighbours merged here and there. */
  ghost predicate Merging(s: State, t: State) {
    && t == s.(m := t.m, ready := t.ready, cs := t.cs)
    && Tiled(t) && Keeps(s.m, t.m, Live(s.cs)) && Live(t.cs) == Live(s.cs) && Payload(t.cs) == Payload(s.cs)
  }

  /** t is g with chunk i carved for `need` bytes. */
  ghost predicate Carving(g: State, i: nat, need: nat, t: State) {
    && i < |g.cs| && need <= g.cs[i].size
    && t == g.(m := t.m, memAllocated := Payload(t.cs), ready := true, cs := Carved(g.cs, i, need))
    && Tiled(t) && Keeps(g.m, t.m, Live(g.cs))
  }

  lemma MergingKeepsSound(s: State, t: State)
    requires Sound(s) && Merging(s, t)
    ensures Sound(t)
  {
    hide Tiles, Live, Payload, Keeps;
  }

  lemma MallocInPlace(s: State, size: nat, f: State, i: nat, t: State)
    requires Sound(s) && s.ready && size != 0 && s.cs != []
    requires Merging(s, f) && i < |f.cs| && Search(s.cs, RealSize(size)) == Found(f.cs[..i], f.cs[i], f.cs[i + 1..])
    requires Carving(f, i, RealSize(size), t)
    ensures MallocStep(s, size, Done(f.cs[i].at + HSIZE), t)
  {
    hide Tiles, Live, Payload, Keeps, Carved, Search, RealSize;
    MergingKeepsSound(s, f);
    KeepsTrans(s.m, f.m, t.m, Live(s.cs));
    PageRangeEmpty(s.end + HSIZE);
    assert f.cs[..i] + [f.cs[i]] + f.cs[i + 1..] == f.cs;
    assert Planned(s.cs, s.end, size) == Place(f.cs, i, s.end);
    assert s.mapped + {} == s.mapped;
  }

  lemma NotReady(s: State)
    requires Sound(s)
    ensures Sound(s.(ready := false))
  {
  }

  lemma MallocRefuses(s: State, size: nat)
    requires s.cs != [] && (!s.ready || size == 0)
    ensures MallocStep(s, size, Done(NULL), s)
  {
  }

  lemma SoundCounts(s: State)
    requires Sound(s)
    ensures Tiled(s) && s.memAllocated == Payload(s.cs)
  {
  }

  /** New pages always make the last chunk big enough, so it can only fall short when none were taken. */
  lemma GrowthSuffices(cs: seq<Chunk>, e: nat, size: nat)
    requires cs != [] && (Request(size) > 0 || !LastOf(cs).used)
    ensures var n := Extra(LastOf(cs), size);
      LastOf(Grown(cs, e, n)).size < RealSize(size) ==>
      n == 0 && !LastOf(cs).used && Grown(cs, e, n) == cs && PlannedAtEnd(cs, e, size) == Stuck(cs)
  {
    var c, n := LastOf(cs), Extra(LastOf(cs), size);
    GrownLast(cs, e, n);
    ExtraIs(c, size);
    if n == 0 {
      assert cs[..|cs| - 1] + [c] == cs;
      assert c.(size := c.size + 0) == c;
    }
  }

  ghost predicate Growth(f: State, n: nat, g: State)
    requires f.cs != []
  {
    && g == f.(m := g.m, end := f.end + n, memUsed := g.memUsed,
               mapped := f.mapped + PageRange(f.end + HSIZE, f.end + n + HSIZE), cs := Grown(f.cs, f.end, n))
    && Sound(g) && Keeps(f.m, g.m, Live(f.cs))
  }

  /** The search missed: f is its result. */
  ghost predicate Missed(s: State, size: nat, f: State) {
    && Sound(s) && s.ready && size != 0 && s.cs != []
    && f.cs != [] && Merging(s, f) && !f.ready && Search(s.cs, RealSize(size)) == NotFound(f.cs)
  }

  lemma MissedPlan(s: State, size: nat, f: State)
    requires Missed(s, size, f)
    ensures Planned(s.cs, s.end, size) == PlannedAtEnd(f.cs, s.end, size)
    ensures forall end :: CanMap(s, end) == CanMap(f, end)
  {
    hide Tiles, Live, Payload, Search;
  }

  lemma MallocNoPages(s: State, size: nat, f: State, t: State)
    requires Missed(s, size, f) && (Request(size) > 0 || !LastOf(f.cs).used)
    requires !CanMap(f, f.end + Extra(LastOf(f.cs), size)) && !t.ready
    ensures MallocStep(s, size, MapFailed, t)
  {
    hide Tiles, Live, Payload, Keeps, Search, Grown, Extra, RealSize, Request, Carved;
    MissedPlan(s, size, f);
    GrowthSuffices(f.cs, f.end, size);
    PageRangeEmpty(f.end + HSIZE);
  }

  lemma MallocStuck(s: State, size: nat, f: State, g: State)
    requires Missed(s, size, f) && (Request(size) > 0 || !LastOf(f.cs).used) && Growth(f, Extra(LastOf(f.cs), size), g)
    requires LastOf(g.cs).size < RealSize(size)
    ensures MallocStep(s, size, Halted, g)
  {
    hide Tiles, Live, Payload, Keeps, Search, Grown, Extra, RealSize, Request, Carved, CanMap;
    MissedPlan(s, size, f);
    GrowthSuffices(f.cs, f.end, size);
    PageRangeEmpty(f.end + HSIZE);
    KeepsTrans(s.m, f.m, g.m, Live(s.cs));
    assert f.mapped + {} == f.mapped;
    assert g.memUsed == s.memUsed;
  }

  lemma MallocGrown(s: State, size: nat, f: State, g: State, t: State)
    requires Missed(s, size, f) && (Request(size) > 0 || !LastOf(f.cs).used)
    requires CanMap(f, f.end + Extra(LastOf(f.cs), size))
    requires Growth(f, Extra(LastOf(f.cs), size), g)
    requires LastOf(g.cs).size >= RealSize(size) && Carving(g, |g.cs| - 1, RealSize(size), t)
    ensures MallocStep(s, size, Done(LastOf(g.cs).at + HSIZE), t)
  {
    hide Tiles, Live, Payload, Keeps, Search, Grown, Extra, RealSize, Request, Carved, CanMap;
    MissedPlan(s, size, f);
    GrownLive(f.cs, f.end, Extra(LastOf(f.cs), size));
    KeepsTrans(s.m, f.m, g.m, Live(s.cs));
    KeepsTrans(s.m, g.m, t.m, Live(s.cs));
  }

  /** A request that wrapped to nothing, and no free chunk at the end: an empty block behind the heap. */
  lemma MallocEmpty(s: State, size: nat, f: State, t: State)
    requires Missed(s, size, f) && Request(size) == 0 && LastOf(f.cs).used
    requires EmptyBlock().Packable() && f.end + HSIZE <= |f.m| && t == f.(m := PutHeader(f.m, f.end, EmptyBlock()))
    ensures MallocStep(s, size, Overrun, t)
  {
    hide Tiles, Live, Payload, Keeps, Search, Grown, Extra, RealSize, Request, Carved, CanMap, PutHeader, GetHeader;
    MergingKeepsSound(s, f);
    MissedPlan(s, size, f);
    HeaderBehind(f.m, f.cs, EmptyBlock(), f.first, f.end);
    KeepsTrans(s.m, f.m, t.m, Live(s.cs));
  }

  // ----- free -----

  /** u is s with chunk i marked free and discounted. */
  ghost predicate Marked(s: State, i: nat, u: State) {
    && i < |s.cs| && s.cs[i].used
    && u == s.(m := u.m, memAllocated := Payload(u.cs), ready := false, cs := Unused(s.cs, i))
    && Tiled(u) && Keeps(s.m, u.m, Live(s.cs[..i]) + Live(s.cs[i + 1..]))
  }

  lemma MarkedIsSound(s: State, i: nat, u: State)
    requires Sound(s) && Marked(s, i, u)
    ensures Sound(u) && Live(u.cs) == Live(s.cs[..i]) + Live(s.cs[i + 1..])
  {
    hide Tiles, Live, Payload, Keeps;
    LiveWithout(s.cs, i);
  }

  lemma FreedWhole(s: State, i: nat, u: State, d: State, t: State)
    requires Sound(s) && Marked(s, i, u) && Merging(u, d) && d.cs == Drained(u.cs, i) && i < |d.cs|
    requires i < |d.cs| - 1 || d.cs[i].size < PAGESIZE
    requires t == d.(ready := true) && s.ready
    ensures Freed(s, i, t)
  {
    hide Tiles, Live, Payload, Keeps, Drained, Unused;
    MarkedIsSound(s, i, u);
    MergingKeepsSound(u, d);
    KeepsTrans(s.m, u.m, d.m, Live(u.cs));
    PageRangeEmpty(s.end + HSIZE);
    assert s.mapped - {} == s.mapped;
  }

  /** t is d with the whole pages of its free last chunk given back. */
  ghost predicate Trimming(d: State, i: nat, t: State) {
    && i == |d.cs| - 1 && !d.cs[i].used && d.cs[i].size >= PAGESIZE
    && var end := TrimmedEnd(d.cs, i, d.end);
    && end <= d.end && d.memUsed >= d.end - end
    && t == d.(m := t.m, end := end, memUsed := d.memUsed - (d.end - end), ready := true,
               mapped := d.mapped - PageRange(end + HSIZE, d.end + HSIZE), cs := Trimmed(d.cs, i))
    && end % PAGESIZE == d.end % PAGESIZE && d.first <= end
    && Tiles(t.m, t.cs, t.first, end, end) && Keeps(d.m, t.m, Live(d.cs))
  }

  lemma TrimReady(d: State, i: nat)
    requires Sound(d) && i == |d.cs| - 1 && d.cs[i].size >= PAGESIZE
    ensures ChunkOk(d.m, d.cs[i], d.end) && d.cs[i].End() == d.end && d.end + HSIZE <= |d.m| < SIZE_LIMIT
    ensures Tiles(d.m, d.cs, d.first, d.end, d.end) && d.first <= d.cs[i].at
    ensures var e2 := d.cs[i].at + d.cs[i].size % PAGESIZE;
      && TrimmedEnd(d.cs, i, d.end) == e2 && e2 == d.end - PAGESIZE * (d.cs[i].size / PAGESIZE)
      && d.cs[i].size - PAGESIZE * (d.cs[i].size / PAGESIZE) == d.cs[i].size % PAGESIZE
      && e2 % PAGESIZE == d.end % PAGESIZE && (e2 + HSIZE) % PAGESIZE == 0 && d.memUsed >= d.end - e2
  {
    hide Tiles;
    ChunkAt(d.m, d.cs, i, d.first, d.end);
    TrimNumbers(d.cs[i], d.end);
  }

  lemma TrimmedNotEmpty(m: seq<Byte>, cs: seq<Chunk>, lo: nat, e: nat)
    requires Tiles(m, cs, lo, e, e) && lo < e
    ensures cs != []
  {
  }

  lemma TrimmingKeepsSound(d: State, i: nat, t: State)
    requires Sound(d) && Trimming(d, i, t)
    ensures Sound(t)
  {
    hide Tiles, Live, Payload, Keeps, Trimmed;
    TrimLive(d.cs, i);
    assert t.first < t.end;
    TrimmedNotEmpty(t.m, t.cs, t.first, t.end);
    KeepsLength(d.m, t.m, Live(d.cs));
    forall p | p in PageRange(t.first, t.end + HSIZE) ensures p in t.mapped {
      assert PageIn(p, t.first, t.end + HSIZE) && PageIn(p, d.first, d.end + HSIZE);
      assert !PageIn(p, t.end + HSIZE, d.end + HSIZE);
    }
  }

  lemma KeepsLength(m: seq<Byte>, m2: seq<Byte>, live: seq<Chunk>)
    requires Keeps(m, m2, live)
    ensures |m| == |m2|
  {
  }

  lemma FreedPages(s: State, i: nat, u: State, d: State, t: State)
    requires Sound(s) && Marked(s, i, u) && Merging(u, d) && d.cs == Drained(u.cs, i)
    requires Trimming(d, i, t) && s.ready
    ensures Freed(s, i, t)
  {
    hide Tiles, Live, Payload, Keeps, Drained, Unused, Trimmed;
    MarkedIsSound(s, i, u);
    MergingKeepsSound(u, d);
    TrimmingKeepsSound(d, i, t);
    KeepsTrans(s.m, u.m, d.m, Live(u.cs));
    KeepsTrans(s.m, d.m, t.m, Live(u.cs));
  }

  lemma AtTheEnd(s: State, i: nat)
    requires Tiled(s) && i <= |s.cs| && StartOf(s.cs, i, s.end) >= s.end
    ensures i == |s.cs| && s.cs[i - 1].at < s.end
  {
    hide Tiles;
    if i < |s.cs| {
      ChunkAt(s.m, s.cs, i, s.first, s.end);
    } else {
      ChunkAt(s.m, s.cs, i - 1, s.first, s.end);
    }
  }

  lemma Ascending(s: State, i: nat)
    requires Sound(s) && i < |s.cs|
    ensures forall j :: 0 <= j < i ==> s.cs[j].End() <= s.cs[i].at && (s.cs[j].End() == s.cs[i].at ==> j == i - 1)
  {
    hide Tiles;
    forall j | 0 <= j < i ensures s.cs[j].End() <= s.cs[i].at && (s.cs[j].End() == s.cs[i].at ==> j == i - 1) {
      ChunkAt(s.m, s.cs, j, s.first, s.end);
      StartsAscend(s.m, s.cs, j, i, s.first, s.end);
      if j + 1 < i {
        StartsAscend(s.m, s.cs, j + 1, i, s.first, s.end);
      }
    }
  }

  /** `init` leaves a sound heap. */
  lemma InitialSound(s: State, page: nat)
    requires Initial(s, page)
    ensures Sound(s) && s.ready
  {
    hide GetHeader;
    TilesOne(s.m, s.cs[0], s.end);
    LiveOne(s.cs[0]);
    PageRangeEmpty(page);
    PageRangeStep(page, page);
  }
}
