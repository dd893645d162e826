/** The heap as its callers see it: live blocks, where they are, and what happens to them. */
module HeapBlocks {
  import opened Memory
  import opened Units
  import opened ChunkList
  import opened FirstFit
  import opened HeapSpec
  import opened HeapEdits
  import opened HeapSteps
  import opened HeapResize

  // ----- membership -----

  lemma {:induction false} LiveMember(cs: seq<Chunk>, c: Chunk)
    ensures c in Live(cs) <==> c in cs && c.used
  {
    if cs == [] {
    } else {
      LiveMember(cs[1..], c);
      assert cs == [cs[0]] + cs[1..];
    }
  }

  /** In a tiled heap two chunks at the same address are the same chunk. */
  lemma FoundByAddress(s: State, i: nat)
    requires Sound(s) && i < |s.cs|
    ensures IndexOf(s.cs, s.cs[i].at) == i
  {
    hide Tiles, Live, Payload;
    var j := IndexOf(s.cs, s.cs[i].at);
    Ascending(s, i);
    if j < i {
      ChunkAt(s.m, s.cs, j, s.first, s.end);
    } else if i < j < |s.cs| {
      Ascending(s, j);
      ChunkAt(s.m, s.cs, i, s.first, s.end);
    }
  }

  lemma LiveFound(s: State, c: Chunk)
    requires Sound(s) && c in Live(s.cs)
    ensures var j := IndexOf(s.cs, c.at); j < |s.cs| && s.cs[j] == c && c.used
  {
    hide Tiles, Live, Payload;
    LiveMember(s.cs, c);
    var i :| 0 <= i < |s.cs| && s.cs[i] == c;
    FoundByAddress(s, i);
  }

  // ----- disjointness -----

  /** Two different live blocks share no byte, and every live block lies between the heap's bounds. */
  lemma LiveDisjoint(s: State, c: Chunk, d: Chunk)
    requires Sound(s) && c in Live(s.cs) && d in Live(s.cs)
    ensures s.first <= c.at && c.End() <= s.end && MINSIZE <= c.size
    ensures c == d || c.End() <= d.at || d.End() <= c.at
  {
    hide Tiles, Live, Payload, GetHeader;
    LiveFound(s, c);
    LiveFound(s, d);
    var i, j := IndexOf(s.cs, c.at), IndexOf(s.cs, d.at);
    ChunkAt(s.m, s.cs, i, s.first, s.end);
    Ascending(s, i);
    Ascending(s, j);
  }

  lemma {:induction false} CoversMember(cs: seq<Chunk>, c: Chunk, k: int)
    requires c in cs && c.at <= k < c.End()
    ensures Covers(cs, k)
  {
    if c != cs[0] {
      CoversMember(cs[1..], c, k);
    }
  }

  /** Kept live chunks are kept one by one. */
  lemma KeepsOne(m: seq<Byte>, m2: seq<Byte>, live: seq<Chunk>, c: Chunk)
    requires Keeps(m, m2, live) && c in live && c.End() <= |m|
    ensures m2[c.at..c.End()] == m[c.at..c.End()]
  {
    forall k | c.at <= k < c.End() ensures m2[k] == m[k] {
      CoversMember(live, c, k);
    }
  }

  // ----- what malloc and free do to the live blocks -----

  lemma SearchLive(cs: seq<Chunk>, need: nat)
    requires cs != []
    ensures match Search(cs, need)
      case Found(b, h, a) => Live(b + [h] + a) == Live(cs)
      case NotFound(all) => Live(all) == Live(cs)
  {
    hide Live, Squeezed, Search;
    SearchIsFirstFit(cs, need);
    match Search(cs, need)
    case Found(b, h, a) =>
      var t :| FirstFitAt(cs, need, t, Found(b, h, a));
      SqueezedIsNormal(cs[..t]);
      SqueezedIsNormal(cs[..t + 1]);
      CutAt(cs, t, t + 1);
      assert cs[t..t + 1] == [cs[t]];
      assert cs[..t + 1] == cs[..t] + [cs[t]];
      LiveAround(b, [h], a);
      LiveAround(cs[..t], [cs[t]], cs[t + 1..]);
      LiveAppend(cs[..t], [cs[t]]);
      LiveAppend(b, [h]);
    case NotFound(all) => SqueezedIsNormal(cs);
  }

  lemma PlannedLive(cs: seq<Chunk>, e: nat, size: nat)
    requires cs != []
    ensures Live(Planned(cs, e, size).list) == Live(cs)
  {
    hide Live, Search, Request, RealSize, Extra, Grown;
    SearchLive(cs, RealSize(size));
    var r := Search(cs, RealSize(size));
    if r.NotFound? {
      SearchIsFirstFit(cs, RealSize(size));
      GrownLive(r.all, e, Extra(LastOf(r.all), size));
    }
  }

  /** `c` is new among the live blocks of t; the others are those of s in the same order. */
  ghost predicate Added(live: seq<Chunk>, c: Chunk, live2: seq<Chunk>) {
    exists j :: 0 <= j <= |live| && live2 == live[..j] + [c] + live[j..]
  }

  /** c holds what was asked for exactly when header and request together do not wrap around 64 bits. */
  ghost predicate Serves(c: Chunk, size: nat) {
    c.size >= RealSize(size) && (c.size >= size + HSIZE <==> size + HSIZE < U64)
  }

  /** A block handed out is as big as asked for, unless the request wraps, is live, and joins live blocks that stay
      what they were. */
  lemma MallocAdds(s: State, size: nat, p: nat, t: State)
    requires Sound(s) && MallocStep(s, size, Done(p), t) && s.ready && size != 0
    ensures Sound(t) && t.ready && Keeps(s.m, t.m, Live(s.cs)) && t.first == s.first && |t.m| == |s.m|
    ensures exists c: Chunk :: c.at + HSIZE == p && c.used && Serves(c, size) && Added(Live(s.cs), c, Live(t.cs))
  {
    hide Tiles, Live, Payload, Keeps, Carved, Planned;
    var plan := Planned(s.cs, s.end, size);
    PlannedLive(s.cs, s.end, size);
    CarvedLive(plan.list, plan.i, RealSize(size));
    var c := Chunk(p - HSIZE, Placed(plan.list[plan.i], RealSize(size)), true);
    var a, b := Live(plan.list[..plan.i]), Live(plan.list[plan.i + 1..]);
    SplicedIn(a, c, b);
    KeepsLength(s.m, t.m, Live(s.cs));
    AddedMembers(Live(s.cs), c, Live(t.cs));
    LiveServes(t, c, size);
    assert c.at + HSIZE == p && c.used && Serves(c, size) && Added(Live(s.cs), c, Live(t.cs));
  }

  /** No block of a heap is as large as a request that wraps. */
  lemma LiveServes(t: State, c: Chunk, size: nat)
    requires Sound(t) && c in Live(t.cs) && c.size >= RealSize(size)
    ensures Serves(c, size)
  {
    hide Live, Tiles, Counted;
    LiveDisjoint(t, c, c);
  }

  lemma SplicedIn(a: seq<Chunk>, c: Chunk, b: seq<Chunk>)
    ensures Added(a + b, c, a + [c] + b)
  {
    assert (a + b)[..|a|] == a && (a + b)[|a|..] == b;
  }

  /** The block freed leaves the live blocks; the others stay what they were. */
  lemma FreeRemoves(s: State, i: nat, t: State)
    requires Sound(s) && i < |s.cs| && s.cs[i].used && Freed(s, i, t)
    ensures Added(Live(t.cs), s.cs[i], Live(s.cs))
    ensures Sound(t) && Keeps(s.m, t.m, Live(t.cs)) && t.first == s.first && |t.m| == |s.m| && t.ready == s.ready
  {
    hide Tiles, Live, Payload, Keeps, Drained, Unused, Trimmed;
    UnusedSlices(s.cs, i);
    var cs := Drained(Unused(s.cs, i), i);
    LiveWithout(s.cs, i);
    DrainedLive(Unused(s.cs, i), i);
    TrimLive(cs, i);
    LiveAt(s.cs, i);
    LiveOne(s.cs[i]);
    SplicedIn(Live(s.cs[..i]), s.cs[i], Live(s.cs[i + 1..]));
    KeepsLength(s.m, t.m, Live(s.cs[..i]) + Live(s.cs[i + 1..]));
  }

  lemma {:induction false} DrainedLive(cs: seq<Chunk>, i: nat)
    requires i < |cs| && !cs[i].used
    ensures Live(Drained(cs, i)) == Live(cs) && i < |Drained(cs, i)| && !Drained(cs, i)[i].used
    decreases |cs|
  {
    hide Live, Payload;
    if i + 1 < |cs| && !cs[i + 1].used {
      MergedAt(cs, i);
      MergeLive(cs, i);
      DrainedLive(Merged(cs, i), i);
    }
  }

  /** A caller writing inside its own block disturbs neither the list nor any other block. */
  lemma OwnerWrites(s: State, i: nat, m2: seq<Byte>)
    requires Sound(s) && i < |s.cs| && s.cs[i].used
    requires SameOutside(s.m, m2, s.cs[i].at + HSIZE, s.cs[i].End())
    ensures Sound(s.(m := m2)) && Keeps(s.m, m2, Live(s.cs[..i]) + Live(s.cs[i + 1..]))
  {
    hide GetHeader, Live, Payload;
    var c := s.cs[i];
    ChunkAt(s.m, s.cs, i, s.first, s.end);
    HeaderFrame(s.m, m2, c.at);
    assert ChunkOk(m2, c, s.end);
    OwnerEdit(s, i, m2);
  }

  lemma OwnerEdit(s: State, i: nat, m2: seq<Byte>)
    requires Sound(s) && i < |s.cs| && s.cs[i].used
    requires SameOutside(s.m, m2, s.cs[i].at, s.cs[i].End()) && ChunkOk(m2, s.cs[i], s.end)
    ensures Sound(s.(m := m2)) && Keeps(s.m, m2, Live(s.cs[..i]) + Live(s.cs[i + 1..]))
  {
    hide GetHeader, Live, Payload, Keeps, Tiles;
    ChunkAt(s.m, s.cs, i, s.first, s.end);
    TilesOne(m2, s.cs[i], s.end);
    Edit(s.m, m2, s.cs, i, i + 1, [s.cs[i]], s.first, s.end);
    CutAt(s.cs, i, i + 1);
    assert s.cs[i..i + 1] == [s.cs[i]];
  }

  // ----- realloc -----

  /** The last resort of `realloc`: a new block, the old one's bytes copied, the old one freed. f is the heap
      once `malloc` returned. */
  ghost predicate MoveStep(s: State, i: nat, size: nat, r: Outcome, f: State, t: State)
    requires i < |s.cs|
  {
    && MallocStep(s, size, r, f)
    && match r
       case Done(q) =>
         var v, k := s.cs[i].at + HSIZE, s.cs[i].size - HSIZE;
         && 0 <= k && q + k <= |f.m| && v + k <= |f.m|
         && var g := f.(m := Moved(f.m, q, v, k));
         Pointer(g, v) && FreeStep(g, v, Done(NULL), t)
       case _ => t == f
  }

  /** What `realloc` does to a sound heap. */
  ghost predicate ReallocStep(s: State, v: nat, size: nat, r: Outcome, t: State)
    requires Pointer(s, v) && s.cs != []
  {
    if v == NULL then MallocStep(s, size, r, t)
    else if !s.ready then r == Done(NULL) && t == s
    else
      var h := GetHeader(s.m, v - HSIZE);
      if h.magic != MAGIC || !h.used || h.notOurs then r == Halted && t == s.(ready := false)
      else
        var i, need := IndexOf(s.cs, v - HSIZE), RealSize(size);
        var w := WayFor(s.cs, i, need);
        if w.Move? then exists f :: MoveStep(s, i, size, r, f, t)
        else
          && r == Done(BlockAfter(s.cs, i, w))
          && if Roomy(s.cs, i, w) then ResizedInPlace(s, i, need, w, t) else Overwritten(s, i, need, w, t)
  }

  /** After the `malloc` of a move, old and new block are both live and apart, the old one untouched. */
  lemma MoveApart(s: State, i: nat, size: nat, q: nat, f: State) returns (c: Chunk)
    requires Sound(s) && s.ready && i < |s.cs| && s.cs[i].used && size != 0
    requires s.cs[i].size < RealSize(size) && MallocStep(s, size, Done(q), f)
    ensures Sound(f) && f.ready && |f.m| == |s.m|
    ensures c.at + HSIZE == q && RealSize(size) <= c.size && c in Live(f.cs) && s.cs[i] in Live(f.cs)
    ensures Added(Live(s.cs), c, Live(f.cs)) && Keeps(s.m, f.m, Live(s.cs))
  {
    hide Tiles, Live, Payload, Keeps, GetHeader, MallocStep, Counted, RealSize;
    MallocAdds(s, size, q, f);
    LiveMember(s.cs, s.cs[i]);
    c :| c.at + HSIZE == q && c.used && Serves(c, size) && Added(Live(s.cs), c, Live(f.cs));
    AddedMembers(Live(s.cs), c, Live(f.cs));
  }

  lemma AddedMembers(live: seq<Chunk>, c: Chunk, live2: seq<Chunk>)
    requires Added(live, c, live2)
    ensures forall d :: d in live2 <==> d == c || d in live
  {
    var j :| 0 <= j <= |live| && live2 == live[..j] + [c] + live[j..];
    assert live == live[..j] + live[j..];
  }

  lemma {:induction false} LiveOnce(m: seq<Byte>, cs: seq<Chunk>, lo: nat, hi: nat, e: nat, c: Chunk)
    requires Tiles(m, cs, lo, hi, e)
    ensures multiset(Live(cs))[c] <= 1 && (c in Live(cs) ==> lo <= c.at)
  {
    hide GetHeader;
    if cs == [] {
    } else {
      LiveOnce(m, cs[1..], cs[0].End(), hi, e, c);
      assert Live(cs) == (if cs[0].used then [cs[0]] else []) + Live(cs[1..]);
    }
  }

  lemma AddedIsNew(f: State, live: seq<Chunk>, c: Chunk)
    requires Sound(f) && Added(live, c, Live(f.cs))
    ensures c !in live
  {
    hide Live, Payload, Tiles;
    LiveOnce(f.m, f.cs, f.first, f.end, f.end, c);
    var j :| 0 <= j <= |live| && Live(f.cs) == live[..j] + [c] + live[j..];
    assert live == live[..j] + live[j..];
    assert multiset(Live(f.cs)) == multiset(live) + multiset{c};
    assert c in live ==> c in multiset(live);
  }

  /** Copying between two live blocks leaves the heap sound and the source block's header alone. */
  lemma CopyBetween(f: State, c: Chunk, d: Chunk, k: nat)
    requires Sound(f) && c in Live(f.cs) && d in Live(f.cs) && c != d
    requires HSIZE + k <= c.size && HSIZE + k == d.size
    ensures c.End() <= |f.m| && d.End() <= |f.m| && (c.End() <= d.at || d.End() <= c.at)
    ensures IndexOf(f.cs, d.at) < |f.cs| && GetHeader(f.m, d.at) == d.AsHeader()
    ensures var g := f.(m := Moved(f.m, c.at + HSIZE, d.at + HSIZE, k));
      && Sound(g) && GetHeader(g.m, d.at) == d.AsHeader()
      && SameOutside(f.m, g.m, c.at + HSIZE, c.End()) && SameBytes(f.m, d.at + HSIZE, g.m, c.at + HSIZE, k)
  {
    hide Tiles, Live, Payload, Keeps, GetHeader, Moved, Counted;
    LiveFound(f, c);
    LiveFound(f, d);
    LiveDisjoint(f, c, d);
    var j, x := IndexOf(f.cs, c.at), IndexOf(f.cs, d.at);
    Around(f, j);
    Around(f, x);
    MovedOutside(f.m, c.at + HSIZE, d.at + HSIZE, k);
    var g := f.(m := Moved(f.m, c.at + HSIZE, d.at + HSIZE, k));
    OwnerWrites(f, j, g.m);
    Around(g, x);
  }

  /** `malloc` has returned q for a move of the block d: the copy is a plain move and `free` will take d. */
  ghost predicate CopyReady(f: State, q: nat, d: Chunk) {
    var v, k := d.at + HSIZE, d.size - HSIZE;
    && 0 <= k && q + k <= |f.m| && v + k <= |f.m| && (q + k <= v || v + k <= q) && f.ready
    && GetHeader(f.m, d.at) == d.AsHeader()
    && var g := f.(m := Moved(f.m, q, v, k));
    && Sound(g) && Pointer(g, v) && GetHeader(g.m, d.at) == d.AsHeader()
  }

  lemma FreeTakes(g: State, d: Chunk, r: Outcome, t: State)
    requires d.at + HSIZE <= |g.m| && GetHeader(g.m, d.at) == d.AsHeader() && d.used && g.ready
    requires Pointer(g, d.at + HSIZE) && FreeStep(g, d.at + HSIZE, r, t)
    ensures r == Done(NULL)
  {
  }

  lemma MoveReady(s: State, i: nat, size: nat, q: nat, f: State)
    requires Sound(s) && s.ready && i < |s.cs| && s.cs[i].used && WayFor(s.cs, i, RealSize(size)).Move?
    requires size != 0 && MallocStep(s, size, Done(q), f)
    ensures CopyReady(f, q, s.cs[i])
  {
    hide Tiles, Live, Payload, Keeps, GetHeader, MallocStep, Moved, Counted, RealSize;
    Around(s, i);
    MoveIsBig(s, i, size);
    var c := MoveApart(s, i, size, q, f);
    CopyBetween(f, c, s.cs[i], s.cs[i].size - HSIZE);
  }

  lemma MovedOutside(m: seq<Byte>, dest: nat, src: nat, count: nat)
    requires dest + count <= |m| && src + count <= |m|
    ensures SameOutside(m, Moved(m, dest, src, count), dest, dest + count)
    ensures SameBytes(m, src, Moved(m, dest, src, count), dest, count)
  {
  }
}
