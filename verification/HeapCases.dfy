/** Runs from the heap `init` leaves to the two places where the allocator fails its callers. */
module HeapCases {
  import opened Memory
  import opened Units
  import opened ChunkList
  import opened FirstFit
  import opened HeapSpec
  import opened HeapEdits
  import opened HeapResize
  import opened HeapBlocks
  import opened Heap
  import opened HeapTheorems
  import opened HeapWrap
  import opened HeapExtend

  ghost predicate AllUsed(cs: seq<Chunk>) { forall x :: 0 <= x < |cs| ==> cs[x].used }

  lemma {:induction false} PassUsed(before: seq<Chunk>, c: Chunk, rest: seq<Chunk>, last: Chunk, need: nat)
    requires c.used && AllUsed(rest) && Fits(last, need)
    ensures Pass(before, c, rest + [last], need) == Found(before + [c] + rest, last, [])
    decreases |rest|
  {
    if rest == [] {
      assert rest + [last] == [last] && before + [c] + rest == before + [c];
    } else {
      assert (rest + [last])[0] == rest[0] && (rest + [last])[1..] == rest[1..] + [last];
      PassUsed(before + [c], rest[0], rest[1..], last, need);
      assert before + [c] + [rest[0]] + rest[1..] == before + [c] + rest;
    }
  }

  lemma SearchPastUsed(front: seq<Chunk>, last: Chunk, need: nat)
    requires AllUsed(front) && Fits(last, need)
    ensures Search(front + [last], need) == Found(front, last, [])
  {
    hide Pass;
    if front != [] {
      assert (front + [last])[1..] == front[1..] + [last];
      PassUsed([], front[0], front[1..], last, need);
      assert [] + [front[0]] + front[1..] == front;
    }
  }

  /** A request the free last chunk holds is carved from it, and the heap does not grow. */
  lemma CarvesLast(s: State, size: nat, r: Outcome, t: State, front: seq<Chunk>, last: Chunk)
    requires Sound(s) && s.ready && size != 0 && s.cs == front + [last] && MallocStep(s, size, r, t)
    requires AllUsed(front) && Fits(last, RealSize(size))
    ensures r == Done(last.at + HSIZE) && Sound(t) && t.ready
    ensures t.cs == Carved(front + [last], |front|, RealSize(size)) && t.end == s.end
  {
    hide Tiles, Live, Payload, Counted, Carved, Search, RealSize, Keeps;
    SearchPastUsed(front, last, RealSize(size));
    assert front + [last] + [] == s.cs;
    PageRangeEmpty(s.end + HSIZE);
  }

  /** From a fresh heap, three calls that end in `halt()`: the tail left free holds the last request but is shorter
      than the least chunk. */
  method HaltingRun(mem: array<Byte>, page: nat, mapped: set<nat>) returns (r: Outcome)
    requires 0 < page && page % PAGESIZE == 0 && page + PAGESIZE <= mem.Length <= ADDRESS_LIMIT
    requires page / PAGESIZE !in mapped
    modifies mem
    ensures r == Halted
  {
    hide Sound, MallocStep, ReallocStep, Initial;
    var h := new KernelHeap(mem, page, mapped);
    ghost var s := h.Snap();
    r := h.Malloc(0xF8);
    ghost var t := h.Snap();
    FirstBlock(s, t, r, page);
    r := h.Realloc(page + HSIZE, 0xFD8);
    ghost var u := h.Snap();
    AlmostAll(t, u, r, page);
    r := h.Malloc(8);
    TailTooShort(u, r, h.Snap(), page);
  }

  lemma FirstBlock(s: State, t: State, r: Outcome, page: nat)
    requires Sound(s) && Initial(s, page) && MallocStep(s, 0xF8, r, t)
    ensures Sound(t) && t.ready && t.cs == [Chunk(page, 0x100, true), Chunk(page + 0x100, 0xEF8, false)]
    ensures t.end == page + PAGESIZE - HSIZE
    ensures Pointer(t, page + HSIZE)
  {
    hide Tiles, Live, Payload, Counted, Keeps, GetHeader, Sound, MallocStep, Pointer;
    assert s.cs == [] + [s.cs[0]];
    CarvesLast(s, 0xF8, r, t, [], s.cs[0]);
    OwnPointer(t, 0);
  }

  lemma OwnPointer(t: State, i: nat)
    requires Sound(t) && i < |t.cs|
    ensures Pointer(t, t.cs[i].at + HSIZE)
    ensures GetHeader(t.m, t.cs[i].at) == t.cs[i].AsHeader() && IndexOf(t.cs, t.cs[i].at) == i
  {
    hide Tiles, Live, Payload, Counted, GetHeader;
    FoundByAddress(t, i);
    Around(t, i);
  }

  lemma AlmostAll(s: State, t: State, r: Outcome, page: nat)
    requires Sound(s) && s.ready && s.cs == [Chunk(page, 0x100, true), Chunk(page + 0x100, 0xEF8, false)]
    requires Pointer(s, page + HSIZE) && page > 0 && ReallocStep(s, page + HSIZE, 0xFD8, r, t)
    ensures Sound(t) && t.ready && t.cs == [Chunk(page, 0xFE0, true), Chunk(page + 0xFE0, 0x18, false)]
  {
    hide Sound, ReallocStep, WayFor, Roomy, ListAfter, RealSize, ResizedInPlace, IndexOf, GetHeader;
    AlmostList(s.cs, page);
    OwnPointer(s, 0);
    Resizes(s, page + HSIZE, 0xFD8, r, t, 0, Take(0x18));
    ResizedTo(s, 0, 0xFE0, Take(0x18), t);
  }

  /** A `realloc` that finds its room in place. */
  lemma Resizes(s: State, v: nat, size: nat, r: Outcome, t: State, i: nat, w: Way)
    requires s.ready && s.cs != [] && Pointer(s, v) && v > NULL && ReallocStep(s, v, size, r, t)
    requires v >= HSIZE && v <= |s.m| && IndexOf(s.cs, v - HSIZE) == i < |s.cs| && s.cs[i].used
    requires GetHeader(s.m, v - HSIZE) == s.cs[i].AsHeader()
    requires w == WayFor(s.cs, i, RealSize(size)) && !w.Move? && Roomy(s.cs, i, w)
    ensures ResizedInPlace(s, i, RealSize(size), w, t)
  {
    hide GetHeader, Roomy, WayFor, ResizedInPlace, Overwritten, MoveStep, MallocStep, BlockAfter, RealSize, IndexOf;
  }

  lemma ResizedTo(s: State, i: nat, need: nat, w: Way, t: State)
    requires i < |s.cs| && w == WayFor(s.cs, i, need) && !w.Move? && ResizedInPlace(s, i, need, w, t)
    ensures Sound(t) && t.ready == s.ready && t.end == s.end && t.cs == ListAfter(s.cs, i, need, w)
  {
    hide Sound, Keeps, SameBytes, Live, WayFor, ListAfter, BlockAfter;
  }

  lemma AlmostList(cs: seq<Chunk>, page: nat)
    requires cs == [Chunk(page, 0x100, true), Chunk(page + 0x100, 0xEF8, false)]
    ensures RealSize(0xFD8) == 0xFE0 && WayFor(cs, 0, 0xFE0) == Take(0x18) && Roomy(cs, 0, Take(0x18))
    ensures ListAfter(cs, 0, 0xFE0, Take(0x18)) == [Chunk(page, 0xFE0, true), Chunk(page + 0xFE0, 0x18, false)]
  {
  }

  lemma TailTooShort(s: State, r: Outcome, t: State, page: nat)
    requires Sound(s) && s.ready && s.cs == [Chunk(page, 0xFE0, true), Chunk(page + 0xFE0, 0x18, false)]
    requires MallocStep(s, 8, r, t)
    ensures r == Halted
  {
    hide Tiles, Live, Payload, Counted, Keeps, Sound, Search;
    assert RealSize(8) == 0x20;
    TwoSearched(s.cs, 0x20);
  }

  /** A block in use and a short free tail: the search ends with nothing found. */
  lemma TwoSearched(cs: seq<Chunk>, need: nat)
    requires |cs| == 2 && cs[0].used && !cs[1].used && cs[1].size < need
    ensures Search(cs, need) == NotFound(cs)
  {
    assert cs[1..] == [cs[1]] && [cs[1]][1..] == [];
    assert Pass([], cs[0], [cs[1]], need) == Pass([cs[0]], cs[1], [], need);
    assert [cs[0]] + [cs[1]] == cs;
  }

  /** From a fresh heap, five calls the last of which takes the header of the block behind the one that grows: it grows
      down over a free block exactly as large as needed. */
  method ExactSlideRun(mem: array<Byte>, page: nat, mapped: set<nat>) returns (r: Outcome, ghost before: seq<Byte>)
    requires 0 < page && page % PAGESIZE == 0 && page + PAGESIZE <= mem.Length <= ADDRESS_LIMIT
    requires page / PAGESIZE !in mapped
    modifies mem
    ensures page + 0x48 <= mem.Length == |before|
    ensures GetHeader(before, page + 0x40) == Header(0xFB8, MAGIC, true, false) != GetHeader(mem[..], page + 0x40)
  {
    hide Sound, MallocStep, FreeStep, ReallocStep, Initial, GetHeader, Pointer;
    var h := new KernelHeap(mem, page, mapped);
    ghost var s := h.Snap();
    r := h.Malloc(0x18);
    ghost var a := h.Snap();
    Small(s, a, r, page);
    r := h.Malloc(0x18);
    ghost var b := h.Snap();
    SmallAgain(a, b, r, page);
    r := h.Malloc(0xFB0);
    ghost var c := h.Snap();
    AllTheRest(b, c, r, page);
    r := h.Free(page + HSIZE);
    ghost var d := h.Snap();
    FirstFreed(c, d, r, page);
    before := mem[..];
    BehindIt(d, page);
    r := h.Realloc(page + 0x28, 0x38);
    SlidExactly(d, r, h.Snap(), page);
  }

  lemma Small(s: State, t: State, r: Outcome, page: nat)
    requires Sound(s) && Initial(s, page) && MallocStep(s, 0x18, r, t)
    ensures Sound(t) && t.ready && t.cs == [Chunk(page, 0x20, true), Chunk(page + 0x20, 0xFD8, false)]
  {
    hide Tiles, Live, Payload, Counted, Keeps, GetHeader, Sound, MallocStep;
    assert s.cs == [] + [s.cs[0]];
    CarvesLast(s, 0x18, r, t, [], s.cs[0]);
  }

  lemma SmallAgain(s: State, t: State, r: Outcome, page: nat)
    requires Sound(s) && s.ready && s.cs == [Chunk(page, 0x20, true), Chunk(page + 0x20, 0xFD8, false)]
    requires MallocStep(s, 0x18, r, t)
    ensures Sound(t) && t.ready
    ensures t.cs == [Chunk(page, 0x20, true), Chunk(page + 0x20, 0x20, true), Chunk(page + 0x40, 0xFB8, false)]
  {
    hide Tiles, Live, Payload, Counted, Keeps, GetHeader, Sound, MallocStep;
    assert s.cs == [s.cs[0]] + [s.cs[1]];
    CarvesLast(s, 0x18, r, t, [s.cs[0]], s.cs[1]);
  }

  lemma AllTheRest(s: State, t: State, r: Outcome, page: nat)
    requires Sound(s) && s.ready
    requires s.cs == [Chunk(page, 0x20, true), Chunk(page + 0x20, 0x20, true), Chunk(page + 0x40, 0xFB8, false)]
    requires MallocStep(s, 0xFB0, r, t)
    ensures Sound(t) && t.ready && Pointer(t, page + HSIZE)
    ensures t.cs == [Chunk(page, 0x20, true), Chunk(page + 0x20, 0x20, true), Chunk(page + 0x40, 0xFB8, true)]
  {
    hide Tiles, Live, Payload, Counted, Keeps, GetHeader, Sound, MallocStep, Pointer;
    assert s.cs == [s.cs[0], s.cs[1]] + [s.cs[2]];
    CarvesLast(s, 0xFB0, r, t, [s.cs[0], s.cs[1]], s.cs[2]);
    OwnPointer(t, 0);
  }

  lemma FirstFreed(s: State, t: State, r: Outcome, page: nat)
    requires Sound(s) && s.ready && page > 0 && Pointer(s, page + HSIZE) && FreeStep(s, page + HSIZE, r, t)
    requires s.cs == [Chunk(page, 0x20, true), Chunk(page + 0x20, 0x20, true), Chunk(page + 0x40, 0xFB8, true)]
    ensures Sound(t) && t.ready && Pointer(t, page + 0x28)
    ensures t.cs == [Chunk(page, 0x20, false), Chunk(page + 0x20, 0x20, true), Chunk(page + 0x40, 0xFB8, true)]
  {
    hide Tiles, Live, Payload, Counted, Keeps, GetHeader, Sound, Pointer;
    OwnPointer(s, 0);
    assert Unused(s.cs, 0) == [Chunk(page, 0x20, false), Chunk(page + 0x20, 0x20, true),
      Chunk(page + 0x40, 0xFB8, true)];
    OwnPointer(t, 1);
  }

  lemma BehindIt(s: State, page: nat)
    requires Sound(s)
    requires s.cs == [Chunk(page, 0x20, false), Chunk(page + 0x20, 0x20, true), Chunk(page + 0x40, 0xFB8, true)]
    ensures page + 0x48 <= |s.m| && GetHeader(s.m, page + 0x40) == Header(0xFB8, MAGIC, true, false)
  {
    hide Tiles, Counted, GetHeader;
    ChunkAt(s.m, s.cs, 2, s.first, s.end);
  }

  lemma SlidExactly(s: State, r: Outcome, t: State, page: nat)
    requires Sound(s) && s.ready && page > 0 && Pointer(s, page + 0x28) && ReallocStep(s, page + 0x28, 0x38, r, t)
    requires s.cs == [Chunk(page, 0x20, false), Chunk(page + 0x20, 0x20, true), Chunk(page + 0x40, 0xFB8, true)]
    ensures page + 0x48 <= |t.m| && GetHeader(t.m, page + 0x40) != Header(0xFB8, MAGIC, true, false)
  {
    hide Tiles, Live, Payload, Counted, Keeps, GetHeader, Sound, Pointer, SameBytes, Overwritten, Survives;
    OwnPointer(s, 1);
    assert RealSize(0x38) == 0x40;
    assert WayFor(s.cs, 1, 0x40) == Slide(0);
    NextHeaderKept(s, 1, 0x40, Slide(0), t);
    NeverSurvives(s.cs[2], 0);
  }

  // ----- growth past pages not ours -----

  const BASE: nat := 0x10_0000

  lemma TailOf(s: State)
    requires Sound(s)
    ensures Tail(s.m, LastOf(s.cs), s.end)
  {
    hide GetHeader;
    ChunkAt(s.m, s.cs, |s.cs| - 1, s.first, s.end);
  }

  /** A fresh heap filled by one block, and two pages more asked for behind it. */
  method FullHeap(mem: array<Byte>, mapped: set<nat>, ghost top: nat)
    returns (ghost tail: Chunk, ghost chain: seq<Chunk>, end: nat)
    requires (top + 2) * PAGESIZE <= mem.Length <= ADDRESS_LIMIT && 0x101 <= top && 0x100 !in mapped
    requires forall x :: x in mapped ==> x < top
    modifies mem
    ensures tail.used && chain != [] && chain[0].at == BASE && LastOf(chain).End() == end
    ensures Written(mem[..], chain, TailLost(tail, END, TWO_PAGES, mapped + {0x100}))
    ensures Joined(chain) <==> !Torn(tail, END, TWO_PAGES, mapped + {0x100})
  {
    hide Sound, MallocStep, Initial, TailLost, Torn, Joined, Written, Tail;
    var h := new KernelHeap(mem, BASE, mapped);
    ghost var s := h.Snap();
    var r := h.Malloc(0xFF0);
    OneBlock(s, h.Snap(), r);
    TailOf(h.Snap());
    TwoPages();
    tail := Chunk(BASE, 0xFF8, true);
    var all;
    chain, end, all := Extend(mem, BASE, END, TWO_PAGES, mapped + {0x100}, tail, top);
  }

  lemma OneBlock(s: State, t: State, r: Outcome)
    requires Sound(s) && Initial(s, BASE) && MallocStep(s, 0xFF0, r, t)
    ensures Sound(t) && t.ready && t.cs == [Chunk(BASE, 0xFF8, true)] && t.end == END
  {
    hide Tiles, Live, Payload, Counted, Keeps, GetHeader, Sound, MallocStep;
    assert s.cs == [] + [s.cs[0]];
    CarvesLast(s, 0xFF0, r, t, [], s.cs[0]);
  }

  /** The second page behind the heap is not its own: the headers do not lie end to end, the first page is left out. */
  method LeftOut(mem: array<Byte>) returns (ghost chain: seq<Chunk>, end: nat)
    requires 0x10_5000 <= mem.Length <= ADDRESS_LIMIT
    modifies mem
    ensures chain != [] && chain[0].at == BASE && LastOf(chain).End() == end
    ensures Written(mem[..], chain, false) && !Joined(chain) && !Spelled(mem[..], chain)
  {
    hide Written, Joined, Torn, TailLost;
    ghost var tail;
    tail, chain, end := FullHeap(mem, {0x102}, 0x103);
    SecondTears(tail, {0x102} + {0x100});
  }

  /** The first and the third page behind the heap are not its own: the second is left out. */
  method WrappedAgain(mem: array<Byte>) returns (ghost chain: seq<Chunk>, end: nat)
    requires 0x10_6000 <= mem.Length <= ADDRESS_LIMIT
    modifies mem
    ensures chain != [] && chain[0].at == BASE && LastOf(chain).End() == end
    ensures Written(mem[..], chain, false) && !Joined(chain) && !Spelled(mem[..], chain)
  {
    hide Written, Joined, Torn, TailLost;
    ghost var tail;
    tail, chain, end := FullHeap(mem, {0x101, 0x103}, 0x104);
    ThirdTears(tail, {0x101, 0x103} + {0x100});
  }

  /** Two calls leave a free tail of four bytes; the first page behind the heap is not its own, and the chunk put over
      it takes the tail's header. */
  method ShortTail(mem: array<Byte>) returns (ghost chain: seq<Chunk>, end: nat)
    requires 0x10_4000 <= mem.Length <= ADDRESS_LIMIT
    modifies mem
    ensures chain != [] && chain[0].at == END - 4 && LastOf(chain).End() == end
    ensures !HeadAt(mem[..], chain, 0) && Joined(chain) && !Spelled(mem[..], chain)
  {
    hide Sound, MallocStep, ReallocStep, Initial, TailLost, Torn, Joined, Tail, Pointer, HeadAt;
    var h := new KernelHeap(mem, BASE, {0x101});
    ghost var s := h.Snap();
    var r := h.Malloc(0xF8);
    ghost var t := h.Snap();
    FirstBlock(s, t, r, BASE);
    r := h.Realloc(BASE + HSIZE, 0xFEC);
    FourBytesLeft(t, h.Snap(), r);
    TailOf(h.Snap());
    TwoPages();
    ghost var tail := Chunk(END - 4, 4, false);
    var all;
    chain, end, all := Extend(mem, END - 4, END, TWO_PAGES, {0x101} + {0x100}, tail, 0x102);
    FirstTakesHeader(tail, {0x101} + {0x100});
  }

  lemma FourBytesLeft(s: State, t: State, r: Outcome)
    requires Sound(s) && s.ready && s.cs == [Chunk(BASE, 0x100, true), Chunk(BASE + 0x100, 0xEF8, false)]
    requires Pointer(s, BASE + HSIZE) && ReallocStep(s, BASE + HSIZE, 0xFEC, r, t) && s.end == END
    ensures Sound(t) && t.cs == [Chunk(BASE, 0xFF4, true), Chunk(BASE + 0xFF4, 4, false)] && t.end == END
  {
    hide Sound, ReallocStep, WayFor, Roomy, ListAfter, RealSize, ResizedInPlace, IndexOf, GetHeader;
    FourBytesList(s.cs);
    OwnPointer(s, 0);
    Resizes(s, BASE + HSIZE, 0xFEC, r, t, 0, Take(4));
    ResizedTo(s, 0, 0xFF4, Take(4), t);
  }

  lemma FourBytesList(cs: seq<Chunk>)
    requires cs == [Chunk(BASE, 0x100, true), Chunk(BASE + 0x100, 0xEF8, false)]
    ensures RealSize(0xFEC) == 0xFF4 && WayFor(cs, 0, 0xFF4) == Take(4) && Roomy(cs, 0, Take(4))
    ensures ListAfter(cs, 0, 0xFF4, Take(4)) == [Chunk(BASE, 0xFF4, true), Chunk(BASE + 0xFF4, 4, false)]
  {
  }

  // ----- a request that wraps to nothing -----

  /** A fresh heap filled by one block, and a request that wraps to nothing with its header: an empty block is put
      behind the heap. */
  method OverrunRun(mem: array<Byte>) returns (r: Outcome)
    requires 0x10_1000 <= mem.Length <= ADDRESS_LIMIT
    modifies mem
    ensures r == Overrun && GetHeader(mem[..], END) == EmptyBlock()
  {
    hide Sound, MallocStep, Initial, GetHeader;
    var h := new KernelHeap(mem, BASE, {});
    ghost var s := h.Snap();
    r := h.Malloc(0xFF0);
    ghost var t := h.Snap();
    OneBlock(s, t, r);
    r := h.Malloc(U64 - HSIZE);
    NothingFits(t, r, h.Snap());
  }

  lemma NothingFits(s: State, r: Outcome, t: State)
    requires Sound(s) && s.ready && s.cs == [Chunk(BASE, 0xFF8, true)] && s.end == END
    requires MallocStep(s, U64 - HSIZE, r, t)
    ensures r == Overrun && END + HSIZE <= |t.m| && GetHeader(t.m, END) == EmptyBlock()
  {
    hide Tiles, Live, Payload, Counted, Keeps, Sound, Search, GetHeader, Grown, Extra;
    assert Request(U64 - HSIZE) == 0 && RealSize(U64 - HSIZE) == MINSIZE;
    OneSearched(s.cs);
  }

  lemma OneSearched(cs: seq<Chunk>)
    requires |cs| == 1 && cs[0].used
    ensures Search(cs, MINSIZE) == NotFound(cs)
  {
    assert cs[1..] == [] && [] + [cs[0]] == cs;
  }
}
