/** The header rewrites the allocator makes, one lemma each: what they do to the list and what they leave alone. */
module HeapEdits {
  import opened Memory
  import opened Units
  import opened ChunkList
  import opened FirstFit
  import opened HeapSpec

  /** c is a chunk whose header can sit at its address in a heap ending at e. */
  predicate Fitting(c: Chunk, e: nat) {
    && 1 <= c.size < SIZE_LIMIT && c.End() <= e
    && (HSIZE <= c.size || c.End() == e)
    && (c.used ==> MINSIZE <= c.size)
  }

  lemma TilesOne(m: seq<Byte>, c: Chunk, e: nat)
    requires ChunkOk(m, c, e)
    ensures Tiles(m, [c], c.at, c.End(), e)
  {
  }

  lemma TilesTwo(m: seq<Byte>, c: Chunk, d: Chunk, e: nat)
    requires ChunkOk(m, c, e) && ChunkOk(m, d, e) && d.at == c.End()
    ensures Tiles(m, [c, d], c.at, d.End(), e)
  {
    assert [c, d][1..] == [d];
  }

  lemma ChunkAt(m: seq<Byte>, cs: seq<Chunk>, i: int, lo: nat, e: nat)
    requires 0 <= i < |cs| && Tiles(m, cs, lo, e, e) && e + HSIZE <= |m| < SIZE_LIMIT
    ensures ChunkOk(m, cs[i], e) && lo <= cs[i].at && cs[i].End() == StartOf(cs, i + 1, e) <= e
    ensures cs[i].at + HSIZE <= |m| && GetHeader(m, cs[i].at) == cs[i].AsHeader()
    ensures i == 0 ==> cs[i].at == lo
    ensures i + 1 < |cs| ==> HSIZE <= cs[i].size && cs[i].End() < e
    ensures Fitting(cs[i], e)
  {
    hide GetHeader;
    TilesSplit(m, cs, i, lo, e, e);
    StartsAscend(m, cs, i, i + 1, lo, e);
    if i + 1 < |cs| {
      StartsAscend(m, cs, i + 1, i + 2, lo, e);
      assert cs[i..][1..][0] == cs[i + 1];
    } else {
      assert cs[i..][1..] == [];
    }
  }

  /** One header replaces chunks i to j. */
  lemma PutOne(m: seq<Byte>, cs: seq<Chunk>, i: nat, j: nat, c: Chunk, lo: nat, e: nat)
    requires i < j <= |cs| && Tiles(m, cs, lo, e, e) && e + HSIZE <= |m| < SIZE_LIMIT
    requires Fitting(c, e) && c.at == cs[i].at && c.End() == StartOf(cs, j, e)
    ensures var m2 := PutHeader(m, c.at, c.AsHeader());
      Tiles(m2, cs[..i] + [c] + cs[j..], lo, e, e) && Keeps(m, m2, Live(cs[..i]) + Live(cs[j..]))
  {
    hide GetHeader, PutHeader, Live;
    var m2 := PutHeader(m, c.at, c.AsHeader());
    PutHeaderEffect(m, c.at, c.AsHeader());
    TilesOne(m2, c, e);
    Edit(m, m2, cs, i, j, [c], lo, e);
  }

  /** Two headers replace chunks i to j, the second one written first. */
  lemma PutTwo(m: seq<Byte>, cs: seq<Chunk>, i: nat, j: nat, c: Chunk, d: Chunk, lo: nat, e: nat)
    requires i < j <= |cs| && Tiles(m, cs, lo, e, e) && e + HSIZE <= |m| < SIZE_LIMIT
    requires Fitting(c, e) && Fitting(d, e) && HSIZE <= c.size
    requires c.at == cs[i].at && d.at == c.End() && d.End() == StartOf(cs, j, e)
    ensures var m2 := PutHeader(PutHeader(m, d.at, d.AsHeader()), c.at, c.AsHeader());
      Tiles(m2, cs[..i] + [c, d] + cs[j..], lo, e, e) && Keeps(m, m2, Live(cs[..i]) + Live(cs[j..]))
  {
    hide GetHeader, PutHeader, Live;
    var m1 := PutHeader(m, d.at, d.AsHeader());
    var m2 := PutHeader(m1, c.at, c.AsHeader());
    PutHeaderEffect(m, d.at, d.AsHeader());
    PutHeaderEffect(m1, c.at, c.AsHeader());
    HeaderFrame(m1, m2, d.at);
    TilesTwo(m2, c, d, e);
    Edit(m, m2, cs, i, j, [c, d], lo, e);
  }

  lemma LiveOne(c: Chunk)
    ensures Live([c]) == if c.used then [c] else []
    ensures Payload([c]) == if c.used && c.size >= HSIZE then c.size - HSIZE else 0
  {
    assert [c][1..] == [];
  }

  lemma LiveTwo(c: Chunk, d: Chunk)
    ensures Live([c, d]) == Live([c]) + Live([d])
    ensures Payload([c, d]) == Payload([c]) + Payload([d])
  {
    LiveAppend([c], [d]);
    PayloadAppend([c], [d]);
    assert [c] + [d] == [c, d];
  }

  lemma LiveAround(a: seq<Chunk>, mid: seq<Chunk>, b: seq<Chunk>)
    ensures Live(a + mid + b) == Live(a) + Live(mid) + Live(b)
    ensures Payload(a + mid + b) == Payload(a) + Payload(mid) + Payload(b)
  {
    LiveAppend(a, mid);
    LiveAppend(a + mid, b);
    PayloadAppend(a, mid);
    PayloadAppend(a + mid, b);
  }

  lemma CutAt(cs: seq<Chunk>, i: int, j: int)
    requires 0 <= i <= j <= |cs|
    ensures cs == cs[..i] + cs[i..j] + cs[j..]
  {
  }

  lemma LiveAt(cs: seq<Chunk>, i: int)
    requires 0 <= i < |cs|
    ensures Live(cs) == Live(cs[..i]) + Live([cs[i]]) + Live(cs[i + 1..])
    ensures Payload(cs) == Payload(cs[..i]) + Payload([cs[i]]) + Payload(cs[i + 1..])
  {
    hide Live, Payload;
    LiveAround(cs[..i], cs[i..i + 1], cs[i + 1..]);
    CutAt(cs, i, i + 1);
    assert cs[i..i + 1] == [cs[i]];
  }

  /** Two free neighbours made one. */
  lemma MergeStep(m: seq<Byte>, cs: seq<Chunk>, i: nat, lo: nat, e: nat)
    requires i + 1 < |cs| && Tiles(m, cs, lo, e, e) && e + HSIZE <= |m| < SIZE_LIMIT
    requires !cs[i].used && !cs[i + 1].used
    ensures Join(cs[i], cs[i + 1]).AsHeader().Packable() && cs[i].at + HSIZE <= |m|
    ensures var m2 := PutHeader(m, cs[i].at, Join(cs[i], cs[i + 1]).AsHeader());
      var cs2 := Merged(cs, i);
      Tiles(m2, cs2, lo, e, e) && Keeps(m, m2, Live(cs)) && Live(cs2) == Live(cs) && Payload(cs2) == Payload(cs)
  {
    hide GetHeader, PutHeader, Live, Tiles, ChunkOk, Keeps;
    ChunkAt(m, cs, i, lo, e);
    ChunkAt(m, cs, i + 1, lo, e);
    PutOne(m, cs, i, i + 2, Join(cs[i], cs[i + 1]), lo, e);
    MergeLive(cs, i);
  }

  lemma FreeAround(a: seq<Chunk>, mid: seq<Chunk>, b: seq<Chunk>)
    requires Live(mid) == [] && Payload(mid) == 0
    ensures Live(a + mid + b) == Live(a) + Live(b)
    ensures Payload(a + mid + b) == Payload(a) + Payload(b)
  {
    LiveAround(a, mid, b);
    assert Live(a) + [] == Live(a);
  }

  lemma FreePair(cs: seq<Chunk>, i: nat)
    requires i + 1 < |cs| && !cs[i].used && !cs[i + 1].used
    ensures Live(cs[i..i + 2]) == [] && Payload(cs[i..i + 2]) == 0
  {
    LiveTwo(cs[i], cs[i + 1]);
    LiveOne(cs[i]);
    LiveOne(cs[i + 1]);
    assert cs[i..i + 2] == [cs[i], cs[i + 1]];
  }

  lemma MergeLive(cs: seq<Chunk>, i: nat)
    requires i + 1 < |cs| && !cs[i].used && !cs[i + 1].used
    ensures Live(cs) == Live(cs[..i]) + Live(cs[i + 2..])
    ensures Live(Merged(cs, i)) == Live(cs)
    ensures Payload(Merged(cs, i)) == Payload(cs)
  {
    FreePair(cs, i);
    CutAt(cs, i, i + 2);
    FreeAround(cs[..i], cs[i..i + 2], cs[i + 2..]);
    LiveOne(Join(cs[i], cs[i + 1]));
    FreeAround(cs[..i], [Join(cs[i], cs[i + 1])], cs[i + 2..]);
  }

  lemma KeepsSelf(m: seq<Byte>, live: seq<Chunk>)
    ensures Keeps(m, m, live)
  {
  }

  lemma KeepsTrans(m: seq<Byte>, m1: seq<Byte>, m2: seq<Byte>, live: seq<Chunk>)
    requires Keeps(m, m1, live) && Keeps(m1, m2, live)
    ensures Keeps(m, m2, live)
  {
  }

  // ----- giving a chunk out -----

  /** Live chunks when the free chunk i becomes the list mid. */
  lemma LiveInstead(cs: seq<Chunk>, i: nat, mid: seq<Chunk>)
    requires i < |cs| && !cs[i].used
    ensures Live(cs) == Live(cs[..i]) + Live(cs[i + 1..])
    ensures Live(cs[..i] + mid + cs[i + 1..]) == Live(cs[..i]) + Live(mid) + Live(cs[i + 1..])
    ensures Payload(cs[..i] + mid + cs[i + 1..]) == Payload(cs) + Payload(mid)
  {
    hide Live, Payload;
    LiveAt(cs, i);
    LiveOne(cs[i]);
    LiveAround(cs[..i], mid, cs[i + 1..]);
    assert Live(cs[..i]) + [] == Live(cs[..i]);
  }

  /** The whole free chunk i is put to use. */
  lemma UseStep(m: seq<Byte>, cs: seq<Chunk>, i: nat, lo: nat, e: nat)
    requires i < |cs| && Tiles(m, cs, lo, e, e) && e + HSIZE <= |m| < SIZE_LIMIT
    requires !cs[i].used && MINSIZE <= cs[i].size
    ensures var c := cs[i].(used := true);
      && c.AsHeader().Packable() && c.at + HSIZE <= |m|
      && var m2 := PutHeader(m, c.at, c.AsHeader());
      Tiles(m2, cs[..i] + [c] + cs[i + 1..], lo, e, e) && Keeps(m, m2, Live(cs))
  {
    hide GetHeader, PutHeader, Live, Tiles, ChunkOk, Keeps;
    ChunkAt(m, cs, i, lo, e);
    PutOne(m, cs, i, i + 1, cs[i].(used := true), lo, e);
    LiveInstead(cs, i, []);
  }

  /** Chunk i, in use, is cut in two; the second half is free. */
  lemma SplitStep(m: seq<Byte>, cs: seq<Chunk>, i: nat, need: nat, lo: nat, e: nat)
    requires i < |cs| && Tiles(m, cs, lo, e, e) && e + HSIZE <= |m| < SIZE_LIMIT
    requires cs[i].used && MINSIZE <= need && need + HSIZE <= cs[i].size
    ensures var c, d := Chunk(cs[i].at, need, true), Chunk(cs[i].at + need, cs[i].size - need, false);
      && c.AsHeader().Packable() && d.AsHeader().Packable() && d.at + HSIZE <= |m| && c.at + HSIZE <= |m|
      && var m2 := PutHeader(PutHeader(m, d.at, d.AsHeader()), c.at, c.AsHeader());
      Tiles(m2, cs[..i] + [c, d] + cs[i + 1..], lo, e, e) && Keeps(m, m2, Live(cs[..i]) + Live(cs[i + 1..]))
  {
    hide GetHeader, PutHeader, Live, Tiles, ChunkOk, Keeps;
    ChunkAt(m, cs, i, lo, e);
    PutTwo(m, cs, i, i + 1, Chunk(cs[i].at, need, true), Chunk(cs[i].at + need, cs[i].size - need, false), lo, e);
  }

  lemma ReplacedSlices(cs: seq<Chunk>, i: nat, c: Chunk)
    requires i < |cs|
    ensures var cs2 := cs[..i] + [c] + cs[i + 1..];
      |cs2| == |cs| && cs2[..i] == cs[..i] && cs2[i] == c && cs2[i + 1..] == cs[i + 1..]
  {
  }

  /** The header writes of `malloc` once it has its chunk. */
  function CarvedBytes(m: seq<Byte>, c: Chunk, need: nat): (m2: seq<Byte>)
    requires c.End() <= |m| < SIZE_LIMIT && MINSIZE <= need <= c.size
    ensures |m2| == |m|
  {
    var m1 := PutHeader(m, c.at, c.(used := true).AsHeader());
    if c.size - need >= MINSIZE then
      PutHeader(PutHeader(m1, c.at + need, Chunk(c.at + need, c.size - need, false).AsHeader()),
                c.at, Chunk(c.at, need, true).AsHeader())
    else m1
  }

  function Placed(c: Chunk, need: nat): nat { if c.size >= need + MINSIZE then need else c.size }

  lemma CarveStep(m: seq<Byte>, cs: seq<Chunk>, i: nat, need: nat, lo: nat, e: nat)
    requires i < |cs| && Tiles(m, cs, lo, e, e) && e + HSIZE <= |m| < SIZE_LIMIT
    requires !cs[i].used && MINSIZE <= need <= cs[i].size
    ensures cs[i].End() <= |m|
    ensures Tiles(CarvedBytes(m, cs[i], need), Carved(cs, i, need), lo, e, e)
    ensures Keeps(m, CarvedBytes(m, cs[i], need), Live(cs))
  {
    hide GetHeader, PutHeader, Live, Tiles, ChunkOk, Keeps;
    var c := cs[i].(used := true);
    ChunkAt(m, cs, i, lo, e);
    UseStep(m, cs, i, lo, e);
    if c.size - need >= MINSIZE {
      var m1 := PutHeader(m, c.at, c.AsHeader());
      var cs1 := cs[..i] + [c] + cs[i + 1..];
      ReplacedSlices(cs, i, c);
      SplitStep(m1, cs1, i, need, lo, e);
      LiveInstead(cs, i, []);
      KeepsTrans(m, m1, CarvedBytes(m, cs[i], need), Live(cs));
    }
  }

  /** The block handed out joins the live chunks; nothing else does. */
  lemma CarvedLive(cs: seq<Chunk>, i: nat, need: nat)
    requires i < |cs| && !cs[i].used && MINSIZE <= need <= cs[i].size
    ensures Live(cs) == Live(cs[..i]) + Live(cs[i + 1..])
    ensures Live(Carved(cs, i, need)) ==
            Live(cs[..i]) + [Chunk(cs[i].at, Placed(cs[i], need), true)] + Live(cs[i + 1..])
    ensures Payload(Carved(cs, i, need)) == Payload(cs) + Placed(cs[i], need) - HSIZE
    ensures Carved(cs, i, need) != []
  {
    hide Live, Payload;
    var block := Chunk(cs[i].at, Placed(cs[i], need), true);
    LiveOne(block);
    if cs[i].size - need >= MINSIZE {
      var rest := Chunk(cs[i].at + need, cs[i].size - need, false);
      LiveTwo(block, rest);
      LiveOne(rest);
      LiveInstead(cs, i, [block, rest]);
      assert [block] + [] == [block];
    } else {
      LiveInstead(cs, i, [block]);
    }
  }

  // ----- growing at the end -----

  /** The free last chunk takes in n bytes mapped after it. */
  lemma GrowTail(m: seq<Byte>, m2: seq<Byte>, cs: seq<Chunk>, n: nat, lo: nat, e: nat)
    requires cs != [] && Tiles(m, cs, lo, e, e) && e + n + HSIZE <= |m| < SIZE_LIMIT && |m2| == |m|
    requires !LastOf(cs).used && (n == 0 || HSIZE <= n) && LastOf(cs).at + HSIZE <= |m|
    requires SameOutside(m, m2, LastOf(cs).at, LastOf(cs).at + HSIZE)
    requires GetHeader(m2, LastOf(cs).at) == LastOf(cs).(size := LastOf(cs).size + n).AsHeader()
    ensures Tiles(m2, Grown(cs, e, n), lo, e + n, e + n) && Keeps(m, m2, Live(cs))
  {
    hide GetHeader, Live;
    var i := |cs| - 1;
    var c := LastOf(cs).(size := LastOf(cs).size + n);
    ChunkAt(m, cs, i, lo, e);
    TilesSplit(m, cs, i, lo, e, e);
    TilesFrame(m, m2, cs[..i], lo, c.at, e);
    TilesNewEnd(m2, cs[..i], lo, c.at, e, e + n);
    TilesOne(m2, c, e + n);
    TilesAppend(m2, cs[..i], [c], lo, c.at, e + n, e + n);
    EditKeeps(m, m2, cs[..i], [], lo, c.at, e, e);
    LiveInstead(cs, i, []);
    assert cs[i + 1..] == [];
  }

  /** A chunk of n fresh bytes after a list that ends in a chunk in use. */
  lemma GrowNew(m: seq<Byte>, cs: seq<Chunk>, n: nat, lo: nat, e: nat)
    requires cs != [] && Tiles(m, cs, lo, e, e) && e + n + HSIZE <= |m| < SIZE_LIMIT
    requires LastOf(cs).used && HSIZE <= n
    ensures Chunk(e, n, false).AsHeader().Packable()
    ensures var m2 := PutHeader(m, e, Chunk(e, n, false).AsHeader());
      Tiles(m2, Grown(cs, e, n), lo, e + n, e + n) && Keeps(m, m2, Live(cs))
  {
    hide GetHeader, PutHeader, Live;
    var c := Chunk(e, n, false);
    var m2 := PutHeader(m, e, c.AsHeader());
    ChunkAt(m, cs, |cs| - 1, lo, e);
    PutHeaderEffect(m, e, c.AsHeader());
    TilesNewEnd(m, cs, lo, e, e, e + n);
    TilesFrame(m, m2, cs, lo, e, e + n);
    TilesOne(m2, c, e + n);
    TilesAppend(m2, cs, [c], lo, e, e + n, e + n);
    forall k | 0 <= k < |m| && Covers(Live(cs), k) ensures m2[k] == m[k] {
      LiveInside(m, cs, lo, e, e, k);
    }
  }

  /** A header right behind a list that ends in use leaves the list alone. */
  lemma HeaderBehind(m: seq<Byte>, cs: seq<Chunk>, h: Header, lo: nat, e: nat)
    requires cs != [] && Tiles(m, cs, lo, e, e) && e + HSIZE <= |m| < SIZE_LIMIT && LastOf(cs).used && h.Packable()
    ensures var m2 := PutHeader(m, e, h);
      Tiles(m2, cs, lo, e, e) && Keeps(m, m2, Live(cs)) && GetHeader(m2, e) == h && |m2| == |m|
  {
    hide GetHeader, PutHeader, Live;
    var m2 := PutHeader(m, e, h);
    ChunkAt(m, cs, |cs| - 1, lo, e);
    PutHeaderEffect(m, e, h);
    TilesNewEnd(m, cs, lo, e, e, e + 1);
    TilesFrame(m, m2, cs, lo, e, e + 1);
    TilesNewEnd(m2, cs, lo, e, e + 1, e);
    forall k | 0 <= k < |m| && Covers(Live(cs), k) ensures m2[k] == m[k] {
      LiveInside(m, cs, lo, e, e, k);
    }
  }

  lemma GrownLive(cs: seq<Chunk>, e: nat, n: nat)
    requires cs != []
    ensures Live(Grown(cs, e, n)) == Live(cs) && Payload(Grown(cs, e, n)) == Payload(cs)
  {
    hide Live, Payload;
    var i := |cs| - 1;
    var c := if LastOf(cs).used then Chunk(e, n, false) else LastOf(cs).(size := LastOf(cs).size + n);
    LiveOne(c);
    if LastOf(cs).used {
      LiveAppend(cs, [c]);
      PayloadAppend(cs, [c]);
      assert Live(cs) + [] == Live(cs);
    } else {
      LiveInstead(cs, i, [c]);
      assert cs[i + 1..] == [];
      assert cs[..i] + [c] + [] == cs[..i] + [c];
      assert Live(cs[..i]) + [] + Live([]) == Live(cs[..i]) + Live([]);
    }
  }

  lemma PageRangeStep(lo: nat, hi: nat)
    requires lo <= hi && hi % PAGESIZE == 0
    ensures PageRange(lo, hi + PAGESIZE) == PageRange(lo, hi) + {hi / PAGESIZE}
    ensures hi / PAGESIZE !in PageRange(lo, hi)
  {
    assert (hi + PAGESIZE) / PAGESIZE == hi / PAGESIZE + 1;
    forall p: nat ensures p in PageRange(lo, hi + PAGESIZE) <==> p in PageRange(lo, hi) + {hi / PAGESIZE} {
      assert PageIn(p, lo, hi + PAGESIZE) <==> PageIn(p, lo, hi) || p == hi / PAGESIZE;
    }
  }

  lemma PageRangeEmpty(lo: nat)
    ensures PageRange(lo, lo) == {}
  {
    forall p: nat ensures p !in PageRange(lo, lo) {
      assert !PageIn(p, lo, lo);
    }
  }

  /** t is s in the middle of growing: n bytes of pages taken, a free last chunk already lengthened. */
  ghost predicate Growing(s: State, n: nat, t: State)
    requires s.cs != []
  {
    var c := LastOf(s.cs);
    && t == s.(m := t.m, end := s.end + n, memUsed := s.memUsed + n,
               mapped := s.mapped + PageRange(s.end + HSIZE, s.end + n + HSIZE))
    && n % PAGESIZE == 0 && CanMap(s, t.end)
    && (c.used ==> t.m == s.m)
    && c.at + HSIZE <= |s.m| && SameOutside(s.m, t.m, c.at, c.at + HSIZE)
    && GetHeader(t.m, c.at) == c.(size := c.size + if c.used then 0 else n).AsHeader()
  }

  lemma GrowStarts(s: State)
    requires Sound(s) && s.cs != []
    ensures Growing(s, 0, s) && LastOf(s.cs).End() == s.end
  {
    hide GetHeader;
    ChunkAt(s.m, s.cs, |s.cs| - 1, s.first, s.end);
    PageRangeEmpty(s.end + HSIZE);
  }

  lemma GrowFacts(s: State, n: nat, t: State)
    requires Sound(s) && s.cs != [] && Growing(s, n, t)
    ensures var c := LastOf(s.cs);
      && t == s.(m := t.m, end := t.end, memUsed := t.memUsed, mapped := t.mapped)
      && |t.m| == |s.m| && c.at + HSIZE <= |t.m| && t.end == s.end + n && t.end + HSIZE <= |t.m| < SIZE_LIMIT
      && (t.end + HSIZE) % PAGESIZE == 0 && c.size + n + PAGESIZE < SIZE_LIMIT
      && GetHeader(t.m, c.at) == c.(size := c.size + if c.used then 0 else n).AsHeader()
  {
    hide GetHeader, Tiles;
    ChunkAt(s.m, s.cs, |s.cs| - 1, s.first, s.end);
  }

  /** The page after n bytes of pages is not among them, but is among more. */
  lemma NextPageIn(e: nat, n: nat, total: nat)
    requires n + PAGESIZE <= total && n % PAGESIZE == 0 && total % PAGESIZE == 0
    ensures var p := (e + n + HSIZE) / PAGESIZE;
      p !in PageRange(e + HSIZE, e + n + HSIZE) && PageIn(p, e + HSIZE, e + total + HSIZE)
      && p in PageRange(e + HSIZE, e + total + HSIZE)
  {
    var q, a, b := (e + HSIZE) / PAGESIZE, n / PAGESIZE, total / PAGESIZE;
    assert e + n + HSIZE == PAGESIZE * (q + a) + (e + HSIZE) % PAGESIZE;
    assert e + total + HSIZE == PAGESIZE * (q + b) + (e + HSIZE) % PAGESIZE;
    assert (e + n + HSIZE) / PAGESIZE == q + a && (e + total + HSIZE) / PAGESIZE == q + b;
  }

  /** A page that cannot be mapped is one the request needed. */
  lemma GrowFails(s: State, n: nat, t: State, total: nat)
    requires Sound(s) && s.cs != [] && Growing(s, n, t)
    requires n + PAGESIZE <= total && total % PAGESIZE == 0
    requires t.end + HSIZE + PAGESIZE > |s.m| || (t.end + HSIZE) / PAGESIZE in t.mapped
    ensures !CanMap(s, s.end + total)
  {
    hide GetHeader, Tiles, Payload, Sound, SameOutside;
    var p := (t.end + HSIZE) / PAGESIZE;
    assert t.end == s.end + n && (p in t.mapped ==> p in s.mapped + PageRange(s.end + HSIZE, t.end + HSIZE));
    NextPageIn(s.end, n, total);
    if t.end + HSIZE + PAGESIZE <= |s.m| {
      assert PageIn(p, s.end + HSIZE, s.end + total + HSIZE);
      assert p in s.mapped;
    }
  }

  lemma CanMapStep(s: State, end: nat)
    requires CanMap(s, end) && s.end <= end && (end + HSIZE) % PAGESIZE == 0
    requires end + HSIZE + PAGESIZE <= |s.m|
    requires (end + HSIZE) / PAGESIZE !in s.mapped + PageRange(s.end + HSIZE, end + HSIZE)
    ensures CanMap(s, end + PAGESIZE)
    ensures PageRange(s.end + HSIZE, end + PAGESIZE + HSIZE) ==
            PageRange(s.end + HSIZE, end + HSIZE) + {(end + HSIZE) / PAGESIZE}
  {
    PageRangeStep(s.end + HSIZE, end + HSIZE);
    assert end + PAGESIZE + HSIZE == end + HSIZE + PAGESIZE;
  }

  /** One more page. */
  lemma GrowPage(s: State, n: nat, t: State, t2: State)
    requires Sound(s) && s.cs != [] && Growing(s, n, t)
    requires t.end + HSIZE + PAGESIZE <= |s.m| && (t.end + HSIZE) / PAGESIZE !in t.mapped
    requires LastOf(s.cs).size + n + PAGESIZE < SIZE_LIMIT
    requires var c := LastOf(s.cs);
      t2 == t.(m := if c.used then t.m else PutHeader(t.m, c.at, c.(size := c.size + n + PAGESIZE).AsHeader()),
               end := t.end + PAGESIZE, memUsed := t.memUsed + PAGESIZE,
               mapped := t.mapped + {(t.end + HSIZE) / PAGESIZE})
    ensures Growing(s, n + PAGESIZE, t2)
  {
    hide GetHeader, PutHeader, Tiles, CanMap;
    var c := LastOf(s.cs);
    GrowFacts(s, n, t);
    CanMapStep(s, t.end);
    if !c.used {
      PutHeaderEffect(t.m, c.at, c.(size := c.size + n + PAGESIZE).AsHeader());
    }
  }

  /** The pages are counted and the list reaches the new end. */
  lemma GrowEnds(s: State, n: nat, t: State, t2: State)
    requires Sound(s) && s.cs != [] && Growing(s, n, t)
    requires LastOf(s.cs).used ==> n > 0
    requires LastOf(s.cs).used ==> n < SIZE_LIMIT && s.end + HSIZE <= |t.m|
    requires t2 == t.(cs := Grown(s.cs, s.end, n), m := t2.m)
    requires t2.m == if LastOf(s.cs).used then PutHeader(t.m, s.end, Chunk(s.end, n, false).AsHeader()) else t.m
    ensures Sound(t2) && Keeps(s.m, t2.m, Live(s.cs))
  {
    hide Tiles, GetHeader, PutHeader, Live, Payload, Keeps, Grown;
    GrowFacts(s, n, t);
    GrownLive(s.cs, s.end, n);
    if LastOf(s.cs).used {
      GrowNew(s.m, s.cs, n, s.first, s.end);
    } else {
      GrowTail(s.m, t.m, s.cs, n, s.first, s.end);
    }
    GrowCounts(s, n, t2);
  }

  lemma WholePagesMore(a: nat, n: nat)
    requires n % PAGESIZE == 0
    ensures (a + n) % PAGESIZE == a % PAGESIZE
  {
    var p, q := a / PAGESIZE, n / PAGESIZE;
    assert a + n == PAGESIZE * (p + q) + a % PAGESIZE;
  }

  lemma GrowCounts(s: State, n: nat, t: State)
    requires Counted(s) && n % PAGESIZE == 0 && t.first == s.first && t.end == s.end + n
    requires t.memUsed == s.memUsed + n && t.memAllocated == s.memAllocated && Payload(t.cs) == Payload(s.cs)
    requires t.mapped == s.mapped + PageRange(s.end + HSIZE, t.end + HSIZE)
    ensures Counted(t)
  {
    hide Payload;
    WholePagesMore(s.end, n);
    PageRangeUnion(s.first, s.end + HSIZE, t.end + HSIZE);
  }

  lemma ExtraIs(last: Chunk, size: nat)
    ensures Extra(last, size) ==
            PAGESIZE * PagesFor(Request(size) - if last.used then 0 else Min(Request(size), last.size))
    ensures Extra(last, size) % PAGESIZE == 0 && (last.used && Request(size) > 0 ==> Extra(last, size) > 0)
  {
  }

  lemma PagesStep(need: nat)
    ensures PagesFor(0) == 0
    ensures need > 0 ==> PagesFor(need) == 1 + PagesFor(need - Min(need, PAGESIZE))
  {
  }

  lemma GrowMapped(s: State, n: nat, t: State)
    requires s.cs != [] && Growing(s, n, t)
    ensures CanMap(s, s.end + n)
    ensures t == s.(m := t.m, end := s.end + n, memUsed := s.memUsed + n,
                    mapped := s.mapped + PageRange(s.end + HSIZE, s.end + n + HSIZE))
  {
  }

  lemma GrownLast(cs: seq<Chunk>, e: nat, n: nat)
    requires cs != []
    ensures LastOf(Grown(cs, e, n)) ==
            if LastOf(cs).used then Chunk(e, n, false) else LastOf(cs).(size := LastOf(cs).size + n)
  {
  }

  lemma PageRangeUnion(a: nat, b: nat, c: nat)
    requires a <= b <= c
    ensures PageRange(a, c) == PageRange(a, b) + PageRange(b, c)
  {
    forall p: nat ensures p in PageRange(a, c) <==> p in PageRange(a, b) + PageRange(b, c) {
      assert PageIn(p, a, c) <==> PageIn(p, a, b) || PageIn(p, b, c);
    }
  }

  // ----- giving a chunk back -----

  lemma LiveWithout(cs: seq<Chunk>, i: nat)
    requires i < |cs|
    ensures Live(Unused(cs, i)) == Live(cs[..i]) + Live(cs[i + 1..])
    ensures Payload(Unused(cs, i)) == Payload(cs) - Payload([cs[i]])
  {
    hide Live, Payload;
    var c := cs[i].(used := false);
    LiveAt(cs, i);
    LiveOne(c);
    LiveAround(cs[..i], [c], cs[i + 1..]);
    assert Live(cs[..i]) + [] == Live(cs[..i]);
  }

  lemma UnuseStep(m: seq<Byte>, cs: seq<Chunk>, i: nat, lo: nat, e: nat)
    requires i < |cs| && Tiles(m, cs, lo, e, e) && e + HSIZE <= |m| < SIZE_LIMIT && cs[i].used
    ensures var c := cs[i].(used := false);
      && c.AsHeader().Packable() && c.at + HSIZE <= |m|
      && var m2 := PutHeader(m, c.at, c.AsHeader());
      Tiles(m2, Unused(cs, i), lo, e, e) && Keeps(m, m2, Live(cs[..i]) + Live(cs[i + 1..]))
    ensures Payload([cs[i]]) == cs[i].size - HSIZE
  {
    hide GetHeader, PutHeader, Live, Tiles, Keeps;
    ChunkAt(m, cs, i, lo, e);
    PutOne(m, cs, i, i + 1, cs[i].(used := false), lo, e);
    LiveOne(cs[i]);
  }

  lemma UnusedSlices(cs: seq<Chunk>, i: nat)
    requires i < |cs|
    ensures |Unused(cs, i)| == |cs| && Unused(cs, i)[i] == cs[i].(used := false)
  {
  }

  lemma TrimNumbers(c: Chunk, e: nat)
    requires c.End() == e && c.size >= PAGESIZE
    ensures var e2 := c.at + c.size % PAGESIZE;
      c.at <= e2 <= e && e2 % PAGESIZE == e % PAGESIZE && e2 == e - PAGESIZE * (c.size / PAGESIZE)
    ensures c.size - PAGESIZE * (c.size / PAGESIZE) == c.size % PAGESIZE
  {
  }

  /** The free last chunk keeps what does not fill pages; the heap ends where it now ends. */
  lemma TrimStep(m: seq<Byte>, cs: seq<Chunk>, lo: nat, e: nat)
    requires cs != [] && Tiles(m, cs, lo, e, e) && e + HSIZE <= |m| < SIZE_LIMIT
    requires var c := LastOf(cs); !c.used && c.size >= PAGESIZE
    ensures var c := LastOf(cs);
      var d := c.(size := c.size % PAGESIZE);
      var e2 := TrimmedEnd(cs, |cs| - 1, e);
      && d.AsHeader().Packable() && c.at + HSIZE <= |m| && lo <= e2
      && Tiles(PutHeader(m, d.at, d.AsHeader()), Trimmed(cs, |cs| - 1), lo, e2, e2)
      && Keeps(m, PutHeader(m, d.at, d.AsHeader()), Live(cs))
  {
    hide GetHeader, PutHeader, Live, Tiles, Keeps;
    var i := |cs| - 1;
    var c := LastOf(cs);
    var d := c.(size := c.size % PAGESIZE);
    ChunkAt(m, cs, i, lo, e);
    TrimNumbers(c, e);
    var m2 := PutHeader(m, d.at, d.AsHeader());
    PutHeaderEffect(m, d.at, d.AsHeader());
    TrimPrefix(m, m2, cs, lo, e, d.End());
    if d.size == 0 {
      assert cs[..i] + [] == cs[..i];
    } else {
      TilesOne(m2, d, d.End());
      TilesAppend(m2, cs[..i], [d], lo, c.at, d.End(), d.End());
    }
  }

  /** What precedes the last chunk does not notice its header being rewritten, nor where the heap ends. */
  lemma TrimPrefix(m: seq<Byte>, m2: seq<Byte>, cs: seq<Chunk>, lo: nat, e: nat, e2: nat)
    requires cs != [] && Tiles(m, cs, lo, e, e) && e + HSIZE <= |m| < SIZE_LIMIT && !LastOf(cs).used
    requires SameOutside(m, m2, LastOf(cs).at, LastOf(cs).at + HSIZE)
    ensures Tiles(m2, cs[..|cs| - 1], lo, LastOf(cs).at, e2) && Keeps(m, m2, Live(cs))
  {
    hide GetHeader, Live, Keeps;
    var i := |cs| - 1;
    var a := LastOf(cs).at;
    ChunkAt(m, cs, i, lo, e);
    TilesSplit(m, cs, i, lo, e, e);
    TilesFrame(m, m2, cs[..i], lo, a, e);
    TilesNewEnd(m2, cs[..i], lo, a, e, e2);
    EditKeeps(m, m2, cs[..i], [], lo, a, e, e);
    LiveInstead(cs, i, []);
    assert cs[i + 1..] == [];
  }

  lemma TrimLive(cs: seq<Chunk>, i: nat)
    requires i < |cs| && !cs[i].used
    ensures Live(Trimmed(cs, i)) == Live(cs) && Payload(Trimmed(cs, i)) == Payload(cs)
  {
    hide Live, Payload;
    if i == |cs| - 1 && cs[i].size >= PAGESIZE {
      var d := cs[i].(size := cs[i].size % PAGESIZE);
      var mid := if d.size == 0 then [] else [d];
      LiveOne(d);
      LiveNone();
      LiveInstead(cs, i, mid);
      assert cs[i + 1..] == [];
      assert cs[..i] + mid + [] == cs[..i] + mid;
      assert Live(cs[..i]) + [] + Live([]) == Live(cs[..i]) + Live([]);
    }
  }

  lemma LiveNone()
    ensures Live([]) == [] && Payload([]) == 0
  {
  }
}
