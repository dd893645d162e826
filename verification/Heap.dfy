/** The kernel heap: the allocator's globals, the bytes it manages, and its operations on both. */
module Heap {
  import opened Memory
  import opened Units
  import opened ChunkList
  import opened FirstFit
  import opened HeapSpec
  import opened HeapEdits
  import opened HeapSteps
  import opened HeapResize
  import opened HeapBlocks

  class KernelHeap {
    const mem: array<Byte>
    var firstChunk: nat
    var endOfChunks: nat
    var totalMemUsed: nat
    var totalMemAllocated: nat
    var mallocReady: bool
    var mapped: set<nat>
    ghost var chunks: seq<Chunk>

    /** `init`: one page, mapped at `page`, makes one free chunk. */
    constructor (mem: array<Byte>, page: nat, mapped: set<nat>)
      requires 0 < page && page % PAGESIZE == 0 && page + PAGESIZE <= mem.Length <= ADDRESS_LIMIT
      requires page / PAGESIZE !in mapped
      modifies mem
      ensures Valid() && Initial(Snap(), page) && fresh(this) && this.mem == mem
      ensures this.mapped == mapped + {page / PAGESIZE}
    {
      this.mem := mem;
      firstChunk := page;
      this.mapped := mapped + {page / PAGESIZE};
      totalMemUsed := PAGESIZE;
      totalMemAllocated := 0;
      endOfChunks := page + PAGESIZE - HSIZE;
      mallocReady := true;
      chunks := [Chunk(page, PAGESIZE - HSIZE, false)];
      new;
      hide PutHeader, GetHeader;
      ghost var m := mem[..];
      var h := Header(PAGESIZE - HSIZE, MAGIC, false, false);
      PutHeaderEffect(m, page, h);
      SetHeader(page, h);
      InitialSound(Snap(), page);
    }

    ghost function Snap(): State
      reads this, mem
    {
      State(mem[..], firstChunk, endOfChunks, totalMemUsed, totalMemAllocated, mallocReady, mapped, chunks)
    }

    ghost predicate Valid()
      reads this, mem
    {
      Sound(Snap())
    }

    ghost predicate Tiled()
      reads this, mem
    {
      HeapSpec.Tiled(Snap())
    }

    method SetHeader(a: nat, h: Header)
      requires a + HSIZE <= mem.Length && h.Packable()
      modifies mem
      ensures mem[..] == PutHeader(old(mem[..]), a, h)
    {
      WriteHeader(mem, a, h);
    }

    /** The live chunks of cs0 are the live chunks now, byte for byte. */
    ghost predicate SameLive(m0: seq<Byte>, cs0: seq<Chunk>)
      reads this, mem
    {
      Keeps(m0, mem[..], Live(cs0)) && Live(chunks) == Live(cs0) && Payload(chunks) == Payload(cs0)
    }

    /** `chunk->size += other->size` for a free chunk and the free one after it. */
    method Absorb(chunk: nat, ghost i: nat, ghost m0: seq<Byte>, ghost cs0: seq<Chunk>)
      requires Tiled() && i + 1 < |chunks| && chunk == chunks[i].at && !chunks[i].used && !chunks[i + 1].used
      requires SameLive(m0, cs0)
      modifies mem, `chunks
      ensures Tiled() && chunks == Merged(old(chunks), i) && SameLive(m0, cs0)
    {
      hide Tiles, ChunkOk, GetHeader, PutHeader, Live, Payload, Keeps, Merged;
      ghost var m := mem[..];
      ChunkAt(m, chunks, i, firstChunk, endOfChunks);
      ChunkAt(m, chunks, i + 1, firstChunk, endOfChunks);
      MergeStep(m, chunks, i, firstChunk, endOfChunks);
      var h := GetHeader(mem[..], chunk);
      var o := GetHeader(mem[..], chunk + h.size);
      SetHeader(chunk, h.(size := h.size + o.size));
      chunks := Merged(chunks, i);
      KeepsTrans(m0, m, mem[..], Live(cs0));
    }

    /** The search loop of `malloc`. Free neighbours it passes are merged on the way. */
    method Find(need: nat) returns (found: bool, chunk: nat, ghost i: nat)
      requires Tiled()
      modifies mem, `chunks
      ensures Tiled() && SameLive(old(mem[..]), old(chunks))
      ensures i < |chunks| && chunk == chunks[i].at
      ensures Search(old(chunks), need) ==
              if found then Found(chunks[..i], chunks[i], chunks[i + 1..]) else NotFound(chunks)
      ensures !found ==> i == |chunks| - 1
    {
      hide Tiles, ChunkOk, GetHeader, PutHeader, Live, Payload, Keeps, Merged, Look, Pass, Search;
      ChunkAt(mem[..], chunks, 0, firstChunk, endOfChunks);
      LookSteps(chunks, 0, need);
      KeepsSelf(mem[..], Live(chunks));
      var other := 0;
      chunk := firstChunk;
      i := 0;
      ghost var goal := Search(chunks, need);
      while true
        invariant Tiled() && i < |chunks| && chunk == chunks[i].at && SameLive(old(mem[..]), old(chunks))
        invariant other != 0 ==> i > 0 && other == chunks[i - 1].at
        invariant goal == if other != 0 then Pass(chunks[..i - 1], chunks[i - 1], chunks[i..], need)
                          else Look(chunks[..i], chunks[i], chunks[i + 1..], need)
        decreases |chunks|, |chunks| - i
      {
        ChunkAt(mem[..], chunks, i, firstChunk, endOfChunks);
        if other != 0 {
          PassSteps(chunks, i, need);
          ChunkAt(mem[..], chunks, i - 1, firstChunk, endOfChunks);
        } else {
          LookSteps(chunks, i, need);
        }
        var h := GetHeader(mem[..], chunk);
        if !h.used && h.size >= need {
          found := true;
          return;
        }
        if other != 0 && !GetHeader(mem[..], other).used && !h.used {
          MergedSlices(chunks, i - 1);
          Absorb(other, i - 1, old(mem[..]), old(chunks));
          i, chunk, other := i - 1, other, 0;
        } else {
          other, chunk := chunk, chunk + h.size;
          if chunk == endOfChunks {
            PassEnds(chunks, need);
            found, chunk := false, other;
            return;
          }
          i := i + 1;
        }
      }
    }
  
    /** `Paging::mapPage` at a given address: refused when the page is taken or beyond the address space. */
    method MapPage(vaddr: nat) returns (ok: bool)
      modifies `mapped
      ensures ok == (vaddr + PAGESIZE <= mem.Length && vaddr / PAGESIZE !in old(mapped))
      ensures mapped == if ok then old(mapped) + {vaddr / PAGESIZE} else old(mapped)
    {
      ok := vaddr + PAGESIZE <= mem.Length && vaddr / PAGESIZE !in mapped;
      if ok { mapped := mapped + {vaddr / PAGESIZE}; }
    }

    /** Put the free chunk i to use and split off what is left over. */
    method Carve(chunk: nat, need: nat, ghost i: nat)
      requires Tiled() && i < |chunks| && chunk == chunks[i].at && !chunks[i].used
      requires MINSIZE <= need <= chunks[i].size
      requires totalMemAllocated == Payload(chunks)
      modifies mem, `chunks, `totalMemAllocated
      ensures Tiled() && chunks == Carved(old(chunks), i, need)
      ensures Keeps(old(mem[..]), mem[..], Live(old(chunks))) && totalMemAllocated == Payload(chunks)
    {
      hide Tiles, ChunkOk, PutHeader, Live, Payload, Keeps, Carved;
      ChunkAt(mem[..], chunks, i, firstChunk, endOfChunks);
      CarveStep(mem[..], chunks, i, need, firstChunk, endOfChunks);
      CarvedLive(chunks, i, need);
      var h := GetHeader(mem[..], chunk).(used := true);
      SetHeader(chunk, h);
      if h.size - need >= MINSIZE {
        SetHeader(chunk + need, Header(h.size - need, MAGIC, false, false));
        h := h.(size := need);
        SetHeader(chunk, h);
      }
      chunks := Carved(chunks, i, need);
      totalMemAllocated := totalMemAllocated + (h.size - HSIZE);
    }
  
    /** The page loop of `malloc`: map after the heap's end until the request is covered. */
    method TakePages(other: nat, size: nat) returns (ok: bool, totalAlloced: nat)
      requires Valid() && chunks != [] && other == LastOf(chunks).at
      modifies this, mem
      ensures firstChunk == old(firstChunk) && mallocReady == old(mallocReady)
      ensures ok == CanMap(old(Snap()), old(endOfChunks) + Extra(old(LastOf(chunks)), size))
      ensures ok ==> totalAlloced == Extra(old(LastOf(chunks)), size) && Growing(old(Snap()), totalAlloced, Snap())
    {
      hide Tiles, GetHeader, PutHeader, CanMap, Growing, HeapSpec.Tiled, Counted, Extra, PagesFor, Request;
      ghost var s := Snap();
      GrowStarts(s);
      GrowFacts(s, 0, s);
      var needToAlloc := Request(size);
      var h := GetHeader(mem[..], other);
      if !h.used {
        needToAlloc := needToAlloc - Min(needToAlloc, h.size);
      }
      totalAlloced := 0;
      ExtraIs(LastOf(s.cs), size);
      ghost var total := Extra(LastOf(s.cs), size);
      while needToAlloc > 0
        invariant needToAlloc >= 0 && totalAlloced + PAGESIZE * PagesFor(needToAlloc) == total
        invariant Growing(s, totalAlloced, Snap())
      {
        ghost var t := Snap();
        PagesStep(needToAlloc);
        GrowFacts(s, totalAlloced, t);
        ok := MapPage(endOfChunks + HSIZE);
        if !ok {
          GrowFails(s, totalAlloced, t, total);
          return;
        }
        h := GetHeader(mem[..], other);
        if !h.used {
          SetHeader(other, h.(size := h.size + PAGESIZE));
        }
        totalMemUsed := totalMemUsed + PAGESIZE;
        endOfChunks := endOfChunks + PAGESIZE;
        GrowPage(s, totalAlloced, t, Snap());
        totalAlloced := totalAlloced + PAGESIZE;
        needToAlloc := needToAlloc - Min(needToAlloc, PAGESIZE);
      }
      ok := true;
      PagesStep(0);
      GrowFacts(s, totalAlloced, Snap());
      GrowMapped(s, totalAlloced, Snap());
    }

    /** The heap taking pages at its end for a request; `other` is its last chunk. */
    method Grow(other: nat, size: nat) returns (ok: bool, chunk: nat)
      requires Valid() && chunks != [] && other == LastOf(chunks).at
      requires Request(size) > 0 || !LastOf(chunks).used
      modifies this, mem
      ensures firstChunk == old(firstChunk) && mallocReady == old(mallocReady)
      ensures ok == CanMap(old(Snap()), old(endOfChunks) + Extra(old(LastOf(chunks)), size))
      ensures ok ==>
        var n := Extra(old(LastOf(chunks)), size);
        && Snap() == old(Snap()).(m := mem[..], end := old(endOfChunks) + n, memUsed := totalMemUsed,
             mapped := old(mapped) + PageRange(old(endOfChunks) + HSIZE, old(endOfChunks) + n + HSIZE),
             cs := Grown(old(chunks), old(endOfChunks), n))
        && Valid() && Keeps(old(mem[..]), mem[..], Live(old(chunks)))
        && chunk == LastOf(chunks).at
    {
      hide Tiles, GetHeader, PutHeader, Live, Payload, Keeps, CanMap, Growing, Grown, HeapSpec.Tiled, Counted, Extra;
      ghost var s := Snap();
      var oldEnd, totalAlloced := endOfChunks, 0;
      GrowStarts(s);
      ExtraIs(LastOf(s.cs), size);
      ok, totalAlloced := TakePages(other, size);
      chunk := other;
      if ok {
        ghost var t := Snap();
        GrowFacts(s, totalAlloced, t);
        GrowMapped(s, totalAlloced, t);
        if GetHeader(mem[..], other).used {
          chunk := oldEnd;
          SetHeader(chunk, Header(totalAlloced, MAGIC, false, false));
        }
        chunks := Grown(chunks, oldEnd, totalAlloced);
        GrowEnds(s, totalAlloced, t, Snap());
        GrownLast(s.cs, s.end, totalAlloced);
      }
    }
  
    /** The end of the search of `malloc`, when nothing was found: the heap grows behind its last chunk, or the call
        ends here. */
    method Supply(other: nat, size: nat, ghost s: State) returns (r: Outcome)
      requires Missed(s, size, Snap()) && Valid() && other == LastOf(chunks).at
      modifies this, mem
      ensures r.Done? ==>
        && chunks != [] && r.p == LastOf(chunks).at
        && Growth(old(Snap()), Extra(old(LastOf(chunks)), size), Snap())
        && CanMap(old(Snap()), old(endOfChunks) + Extra(old(LastOf(chunks)), size))
        && (Request(size) > 0 || !old(LastOf(chunks)).used)
        && !LastOf(chunks).used && LastOf(chunks).size >= RealSize(size)
      ensures !r.Done? ==> MallocStep(s, size, r, Snap())
    {
      hide Tiles, GetHeader, PutHeader, Live, Payload, Keeps, CanMap, Grown, Carved, Extra, Request, RealSize, Search,
           MallocStep, Counted;
      ghost var f := Snap();
      ChunkAt(mem[..], chunks, |chunks| - 1, firstChunk, endOfChunks);
      if Request(size) == 0 && GetHeader(mem[..], other).used {
        SetHeader(endOfChunks, EmptyBlock());
        MallocEmpty(s, size, f, Snap());
        return Overrun;
      }
      var ok, chunk := Grow(other, size);
      ghost var g := Snap();
      if !ok {
        MallocNoPages(s, size, f, g);
        return MapFailed;
      }
      GrownLast(f.cs, f.end, Extra(LastOf(f.cs), size));
      ChunkAt(mem[..], chunks, |chunks| - 1, firstChunk, endOfChunks);
      if GetHeader(mem[..], chunk).size < RealSize(size) {
        MallocStuck(s, size, f, g);
        return Halted;
      }
      return Done(chunk);
    }

    /** Reserve a block of `size` bytes. */
    method Malloc(size: nat) returns (r: Outcome)
      requires Valid() && size < U64
      modifies this, mem
      ensures MallocStep(old(Snap()), size, r, Snap())
    {
      hide Tiles, GetHeader, PutHeader, Live, Payload, Keeps, CanMap, Grown, Carved, Extra, Request, RealSize, Search,
           MallocStep, Counted;
      if !mallocReady || size == 0 {
        MallocRefuses(Snap(), size);
        return Done(NULL);
      }
      ghost var s := Snap();
      mallocReady := false;
      var found, chunk; ghost var i;
      found, chunk, i := Find(RealSize(size));
      ghost var f := Snap();
      if found {
        SearchHitFits(s.cs, RealSize(size));
        SoundCounts(s);
      } else {
        MergingKeepsSound(s, f);
        r := Supply(chunk, size, s);
        if !r.Done? {
          return;
        }
        chunk, i := r.p, |chunks| - 1;
        SoundCounts(Snap());
      }
      ghost var g := Snap();
      Carve(chunk, RealSize(size), i);
      mallocReady := true;
      if found {
        MallocInPlace(s, size, f, i, Snap());
      } else {
        MallocGrown(s, size, f, g, Snap());
      }
      return Done(chunk + HSIZE);
    }

    /** The unmapping loop of `free`: nPages pages from lo on go back. */
    method UnmapPages(lo: nat, nPages: nat)
      requires lo % PAGESIZE == 0
      modifies `mapped
      ensures mapped == old(mapped) - PageRange(lo, lo + PAGESIZE * nPages)
    {
      PageRangeEmpty(lo);
      var i := 0;
      while i < nPages
        invariant 0 <= i <= nPages
        invariant mapped == old(mapped) - PageRange(lo, lo + PAGESIZE * i)
      {
        PageRangeStep(lo, lo + PAGESIZE * i);
        mapped := mapped - {(lo + PAGESIZE * i) / PAGESIZE};
        i := i + 1;
      }
    }

    /** The merging loop of `free`: chunk i, free, takes in the free chunks after it. */
    method Drain(chunk: nat, ghost i: nat) returns (other: nat)
      requires Tiled() && i < |chunks| && chunk == chunks[i].at && !chunks[i].used
      modifies mem, `chunks
      ensures Tiled() && chunks == Drained(old(chunks), i) && SameLive(old(mem[..]), old(chunks))
      ensures i < |chunks| && !chunks[i].used && chunks[i].at == chunk && other == chunks[i].End()
      ensures other == endOfChunks <==> i == |chunks| - 1
    {
      hide Tiles, GetHeader, PutHeader, Live, Payload, Keeps, Merged;
      KeepsSelf(mem[..], Live(chunks));
      ChunkAt(mem[..], chunks, i, firstChunk, endOfChunks);
      other := chunk + GetHeader(mem[..], chunk).size;
      while other < endOfChunks && !GetHeader(mem[..], other).used
        invariant Tiled() && i < |chunks| && !chunks[i].used && chunks[i].at == chunk && other == chunks[i].End()
        invariant Drained(chunks, i) == Drained(old(chunks), i) && SameLive(old(mem[..]), old(chunks))
        decreases |chunks|
      {
        ChunkAt(mem[..], chunks, i, firstChunk, endOfChunks);
        ChunkAt(mem[..], chunks, i + 1, firstChunk, endOfChunks);
        MergedAt(chunks, i);
        Absorb(chunk, i, old(mem[..]), old(chunks));
        ChunkAt(mem[..], chunks, i, firstChunk, endOfChunks);
        other := chunk + GetHeader(mem[..], chunk).size;
      }
      ChunkAt(mem[..], chunks, i, firstChunk, endOfChunks);
      if i + 1 < |chunks| {
        ChunkAt(mem[..], chunks, i + 1, firstChunk, endOfChunks);
      }
    }
  
    /** `chunk->used = 0` on the block being freed, and its size taken off the allocated total. */
    method Mark(chunk: nat, ghost i: nat)
      requires Valid() && i < |chunks| && chunk == chunks[i].at && chunks[i].used && !mallocReady
      modifies mem, `chunks, `totalMemAllocated
      ensures Marked(old(Snap()), i, Snap().(ready := false))
    {
      hide Tiles, PutHeader, Live, Payload, Keeps, Unused;
      ChunkAt(mem[..], chunks, i, firstChunk, endOfChunks);
      UnuseStep(mem[..], chunks, i, firstChunk, endOfChunks);
      LiveWithout(chunks, i);
      LiveAt(chunks, i);
      UnusedSlices(chunks, i);
      var h := GetHeader(mem[..], chunk);
      SetHeader(chunk, h.(used := false));
      totalMemAllocated := totalMemAllocated - (h.size - HSIZE);
      chunks := Unused(chunks, i);
    }

    /** Release the whole pages of the free last chunk. */
    method Trim(chunk: nat, ghost i: nat)
      requires Valid() && i == |chunks| - 1 && chunk == chunks[i].at && !chunks[i].used
      requires chunks[i].size >= PAGESIZE
      modifies this, mem
      ensures Trimming(old(Snap()), i, Snap().(ready := true)) && mallocReady == old(mallocReady)
    {
      hide Tiles, PutHeader, Live, Payload, Keeps, Trimmed, TrimmedEnd, PageRange, HeapSpec.Tiled, Counted;
      TrimReady(Snap(), i);
      TrimStep(mem[..], chunks, firstChunk, endOfChunks);
      var h := GetHeader(mem[..], chunk);
      var nPages := h.size / PAGESIZE;
      SetHeader(chunk, h.(size := h.size - PAGESIZE * nPages));
      endOfChunks := endOfChunks - PAGESIZE * nPages;
      totalMemUsed := totalMemUsed - PAGESIZE * nPages;
      UnmapPages(endOfChunks + HSIZE, nPages);
      chunks := Trimmed(chunks, i);
    }

    /** Give a block back. */
    method Free(vaddr: nat) returns (r: Outcome)
      requires Valid() && Pointer(Snap(), vaddr)
      modifies this, mem
      ensures FreeStep(old(Snap()), vaddr, r, Snap())
    {
      hide Tiles, PutHeader, Live, Payload, Keeps, Drained, Unused, Freed, Trimming, Counted;
      if !mallocReady || vaddr == NULL {
        return Done(NULL);
      }
      ghost var s := Snap();
      mallocReady := false;
      var chunk := vaddr - HSIZE;
      ghost var i := IndexOf(chunks, chunk);
      if GetHeader(mem[..], chunk).magic != MAGIC {
        return Halted;
      }
      ChunkAt(mem[..], chunks, i, firstChunk, endOfChunks);
      if !GetHeader(mem[..], chunk).used {
        return Halted;
      }
      NotReady(s);
      Mark(chunk, i);
      ghost var u := Snap();
      MarkedIsSound(s, i, u);
      UnusedSlices(s.cs, i);
      var other := Drain(chunk, i);
      ghost var d := Snap();
      MergingKeepsSound(u, d);
      ChunkAt(mem[..], chunks, i, firstChunk, endOfChunks);
      if other == endOfChunks && GetHeader(mem[..], chunk).size >= PAGESIZE {
        Trim(chunk, i);
        mallocReady := true;
        FreedPages(s, i, u, d, Snap());
      } else {
        mallocReady := true;
        FreedWhole(s, i, u, d, Snap());
      }
      return Done(NULL);
    }
  
    /** Merge all free neighbours. The page release after the loop asks for the last chunk to lie at the heap's
        end, which it never does, so it is unreachable. */
    method Squeeze()
      requires Valid()
      modifies mem, `chunks
      ensures SqueezeStep(old(Snap()), Snap())
    {
      hide Tiles, GetHeader, PutHeader, Live, Payload, Keeps, Merged, Squeezed, NoFreePair, Counted;
      ghost var s := Snap();
      KeepsSelf(mem[..], Live(chunks));
      ChunkAt(mem[..], chunks, 0, firstChunk, endOfChunks);
      var other, chunk := 0, firstChunk;
      ghost var i := 0;
      NormalStarts(chunks);
      while chunk < endOfChunks
        invariant Tiled() && SameLive(s.m, s.cs) && Squeezed(chunks) == Squeezed(s.cs)
        invariant 0 <= i <= |chunks| && chunk == StartOf(chunks, i, endOfChunks)
        invariant other != 0 ==> i > 0 && other == chunks[i - 1].at && NoFreePair(chunks[..i])
        invariant other == 0 ==> i < |chunks| && NoFreePair(chunks[..i + 1])
        decreases |chunks|, |chunks| - i
      {
        ChunkAt(mem[..], chunks, i, firstChunk, endOfChunks);
        if other != 0 {
          ChunkAt(mem[..], chunks, i - 1, firstChunk, endOfChunks);
        }
        var h := GetHeader(mem[..], chunk);
        if other != 0 && !GetHeader(mem[..], other).used && !h.used {
          SqueezedOfMerged(chunks, i - 1);
          NormalAfterMerge(chunks, i - 1);
          MergedAt(chunks, i - 1);
          Absorb(other, i - 1, s.m, s.cs);
          i, chunk, other := i - 1, other, 0;
        } else {
          if other != 0 {
            NormalExtends(chunks, i);
          }
          other, chunk := chunk, chunk + h.size;
          i := i + 1;
        }
      }
      AtTheEnd(Snap(), i);
      assert chunks[..i] == chunks;
      SqueezedOfNormal(chunks);
      MergingKeepsSound(s, Snap());
      assert other != endOfChunks;
    }
  
    /** The rest of a shrinking block joins the free chunk after it, whose header moves down. */
    method GiveToNext(chunk: nat, realsize: nat, ghost i: nat)
      requires Valid() && i < |chunks| && chunk == chunks[i].at && chunks[i].used
      requires MINSIZE <= realsize < chunks[i].size && NextFree(chunks, i)
      modifies mem, `chunks, `totalMemAllocated
      ensures ResizedInPlace(old(Snap()), i, realsize, WayFor(old(chunks), i, realsize), Snap())
    {
      hide Tiles, PutHeader, Live, Payload, Keeps, SameBytes, Resized, ResizedInPlace, Moved, GetHeader;
      ghost var s := Snap();
      ChunkAt(mem[..], chunks, i, firstChunk, endOfChunks);
      ChunkAt(mem[..], chunks, i + 1, firstChunk, endOfChunks);
      ghost var w := WayFor(chunks, i, realsize);
      OthersLive(chunks, i, realsize, w);
      var h := GetHeader(mem[..], chunk);
      var sizediff, next := h.size - realsize, chunk + h.size;
      ResizeStep(mem[..], chunks, i, i + 2, realsize, chunks[i + 1].size + sizediff, firstChunk, endOfChunks);
      totalMemAllocated := totalMemAllocated - sizediff;
      var newnextsize := GetHeader(mem[..], next).size + sizediff;
      MoveHeader(mem[..], next - sizediff, next, Header(newnextsize, MAGIC, false, false));
      Memcpy(mem, next - sizediff, next, HSIZE);
      SetHeader(next - sizediff, GetHeader(mem[..], next - sizediff).(size := newnextsize));
      SetHeader(chunk, h.(size := h.size - sizediff));
      chunks := Resized(chunks, i, i + 2, realsize, newnextsize);
      ResizedAddsUp(s, i, realsize, newnextsize, w, Snap());
    }

    /** The rest of a shrinking block becomes a free chunk. */
    method CutOff(chunk: nat, realsize: nat, ghost i: nat)
      requires Valid() && i < |chunks| && chunk == chunks[i].at && chunks[i].used && !NextFree(chunks, i)
      requires MINSIZE <= realsize && realsize + MINSIZE <= chunks[i].size
      modifies mem, `chunks, `totalMemAllocated
      ensures ResizedInPlace(old(Snap()), i, realsize, WayFor(old(chunks), i, realsize), Snap())
    {
      hide Tiles, PutHeader, Live, Payload, Keeps, SameBytes, Resized, ResizedInPlace, GetHeader;
      ghost var s := Snap();
      ChunkAt(mem[..], chunks, i, firstChunk, endOfChunks);
      ghost var w := WayFor(chunks, i, realsize);
      OthersLive(chunks, i, realsize, w);
      var h := GetHeader(mem[..], chunk);
      var sizediff := h.size - realsize;
      ResizeStep(mem[..], chunks, i, i + 1, realsize, sizediff, firstChunk, endOfChunks);
      totalMemAllocated := totalMemAllocated - sizediff;
      SetHeader(chunk + realsize, Header(sizediff, MAGIC, false, false));
      SetHeader(chunk, h.(size := realsize));
      chunks := Resized(chunks, i, i + 1, realsize, sizediff);
      ResizedAddsUp(s, i, realsize, sizediff, w, Snap());
    }

    /** The block grows over the free chunk after it. Unless there is room for the header of what is left over,
        only the bytes written and the total are promised. */
    method TakeNext(chunk: nat, realsize: nat, ghost i: nat)
      requires Valid() && i < |chunks| && chunk == chunks[i].at && chunks[i].used && NextFree(chunks, i)
      requires chunks[i].size < realsize <= chunks[i].size + chunks[i + 1].size
      modifies mem, `chunks, `totalMemAllocated
      ensures Overwritten(old(Snap()), i, realsize, WayFor(old(chunks), i, realsize), Snap())
      ensures Roomy(old(chunks), i, WayFor(old(chunks), i, realsize)) ==>
        ResizedInPlace(old(Snap()), i, realsize, WayFor(old(chunks), i, realsize), Snap())
    {
      hide Tiles, PutHeader, Live, Payload, Keeps, SameBytes, Resized, ResizedInPlace, GetHeader;
      ghost var s := Snap();
      Around(s, i);
      ghost var w := WayFor(chunks, i, realsize);
      var h := GetHeader(mem[..], chunk);
      var next := GetHeader(mem[..], chunk + h.size);
      var newnextsize := (h.size + next.size) - realsize;
      if newnextsize > 0 {
        totalMemAllocated := totalMemAllocated + (realsize - h.size);
        SetHeader(chunk + realsize, Header(newnextsize, MAGIC, false, false));
        SetHeader(chunk, h.(size := realsize));
      } else {
        totalMemAllocated := totalMemAllocated + next.size;
        SetHeader(chunk, h.(size := h.size + next.size));
      }
      chunks := Resized(chunks, i, i + 2, realsize, newnextsize);
      if Roomy(s.cs, i, w) {
        TakeStep(s, i, realsize, newnextsize);
        ResizedAddsUp(s, i, realsize, newnextsize, w, Snap());
      }
    }
  
    /** The chunk before chunk i, found by walking from the first one. */
    method Previous(chunk: nat, ghost i: nat) returns (previous: nat)
      requires Valid() && 0 < i < |chunks| && chunk == chunks[i].at
      ensures previous == chunks[i - 1].at
    {
      hide Tiles, GetHeader, Live, Payload, Counted;
      ghost var j := 0;
      previous := firstChunk;
      Around(Snap(), 0);
      ChunkAt(mem[..], chunks, 0, firstChunk, endOfChunks);
      Ascending(Snap(), i);
      while previous + GetHeader(mem[..], previous).size + HSIZE != chunk + HSIZE
        invariant 0 <= j < i && previous == chunks[j].at && previous + HSIZE <= mem.Length
        invariant GetHeader(mem[..], previous) == chunks[j].AsHeader()
        decreases i - j
      {
        Around(Snap(), j);
        Ascending(Snap(), i);
        previous := previous + GetHeader(mem[..], previous).size;
        j := j + 1;
      }
      Around(Snap(), j);
    }

    /** The block grows down over the free chunk before it, its bytes moved by an overlapping forward copy. */
    method SlideDown(chunk: nat, previous: nat, realsize: nat, ghost i: nat)
      requires Valid() && 0 < i < |chunks| && chunk == chunks[i].at && previous == chunks[i - 1].at
      requires chunks[i].used && WayFor(chunks, i, realsize).Slide? && MINSIZE <= realsize
      modifies mem, `chunks, `totalMemAllocated
      ensures Overwritten(old(Snap()), i, realsize, WayFor(old(chunks), i, realsize), Snap())
      ensures Roomy(old(chunks), i, WayFor(old(chunks), i, realsize)) ==>
        ResizedInPlace(old(Snap()), i, realsize, WayFor(old(chunks), i, realsize), Snap())
    {
      hide Tiles, PutHeader, Live, Payload, Keeps, SameBytes, Resized, ResizedInPlace, GetHeader, Moved, Counted;
      ghost var s := Snap();
      Around(s, i);
      ghost var w := WayFor(chunks, i, realsize);
      var c, p := GetHeader(mem[..], chunk), GetHeader(mem[..], previous);
      totalMemAllocated := totalMemAllocated + (realsize - c.size);
      var newnextsize := (p.size + c.size) - realsize;
      Memcpy(mem, previous + HSIZE, chunk + HSIZE, c.size - HSIZE);
      SetHeader(previous + realsize, Header(newnextsize, MAGIC, false, false));
      SetHeader(previous, p.(size := realsize, used := true));
      chunks := Resized(chunks, i - 1, i + 1, realsize, newnextsize);
      if Roomy(s.cs, i, w) {
        SlideStep(s.m, s.cs, i, realsize, newnextsize, s.first, s.end);
        ResizedAddsUp(s, i, realsize, newnextsize, w, Snap());
      }
    }
  
    /** The last resort of `realloc`: allocate, copy, free. */
    method MoveBlock(vaddr: nat, newsize: nat, ghost i: nat) returns (r: Outcome)
      requires Valid() && mallocReady && i < |chunks| && vaddr == chunks[i].at + HSIZE && chunks[i].used
      requires newsize < U64 && WayFor(chunks, i, RealSize(newsize)).Move?
      modifies this, mem
      ensures exists f :: MoveStep(old(Snap()), i, newsize, r, f, Snap())
    {
      hide Tiles, PutHeader, Live, Payload, Keeps, GetHeader, MallocStep, FreeStep, Moved, Counted, HeapSpec.Tiled;
      ghost var s := Snap();
      Around(s, i);
      MoveIsBig(s, i, newsize);
      r := Malloc(newsize);
      ghost var f := Snap();
      if r.Done? {
        MoveReady(s, i, newsize, r.p, f);
        Memcpy(mem, r.p, vaddr, GetHeader(mem[..], vaddr - HSIZE).size - HSIZE);
        ghost var g := Snap();
        var q := Free(vaddr);
        FreeTakes(g, s.cs[i], q, Snap());
      }
      assert MoveStep(s, i, newsize, r, f, Snap());
    }

    /** The branches of `realloc` that need no new block. */
    method ReallocInPlace(chunk: nat, realsize: nat, ghost i: nat) returns (done: bool, p: nat)
      requires Valid() && i < |chunks| && chunk == chunks[i].at && chunks[i].used && MINSIZE <= realsize
      modifies mem, `chunks, `totalMemAllocated
      ensures var w := WayFor(old(chunks), i, realsize);
        if w.Move? then !done && Snap() == old(Snap())
        else
          && done && p == BlockAfter(old(chunks), i, w)
          && if Roomy(old(chunks), i, w) then ResizedInPlace(old(Snap()), i, realsize, w, Snap())
             else Overwritten(old(Snap()), i, realsize, w, Snap())
    {
      hide Tiles, PutHeader, Live, Payload, Keeps, GetHeader, Counted, ResizedInPlace, Overwritten;
      Around(Snap(), i);
      var h := GetHeader(mem[..], chunk);
      done, p := true, chunk + HSIZE;
      if h.size == realsize {
        KeepAsIs(Snap(), i, realsize);
        return;
      }
      var next := chunk + h.size;
      var nextFree := next < endOfChunks && !GetHeader(mem[..], next).used;
      if h.size > realsize {
        if nextFree {
          GiveToNext(chunk, realsize, i);
        } else if h.size - realsize >= MINSIZE {
          CutOff(chunk, realsize, i);
        } else {
          KeepAsIs(Snap(), i, realsize);
        }
        return;
      }
      if nextFree && h.size + GetHeader(mem[..], next).size >= realsize {
        TakeNext(chunk, realsize, i);
        return;
      }
      if chunk != firstChunk {
        var previous := Previous(chunk, i);
        var b := GetHeader(mem[..], previous);
        if !b.used && h.size + b.size >= realsize {
          SlideDown(chunk, previous, realsize, i);
          p := previous + HSIZE;
          return;
        }
      }
      done := false;
    }

    /** Change the size of a block, in place where possible. */
    method Realloc(vaddr: nat, newsize: nat) returns (r: Outcome)
      requires Valid() && Pointer(Snap(), vaddr) && newsize < U64
      modifies this, mem
      ensures ReallocStep(old(Snap()), vaddr, newsize, r, Snap())
    {
      hide Tiles, PutHeader, Live, Payload, Keeps, GetHeader, MallocStep, FreeStep, MoveStep, Counted, RealSize,
           Request, ResizedInPlace, Overwritten, WayFor, Roomy, BlockAfter;
      if vaddr == NULL {
        r := Malloc(newsize);
        return;
      }
      if !mallocReady {
        return Done(NULL);
      }
      ghost var s := Snap();
      mallocReady := false;
      var chunk := vaddr - HSIZE;
      var h := GetHeader(mem[..], chunk);
      if h.magic != MAGIC || !h.used || h.notOurs {
        return Halted;
      }
      ghost var i := IndexOf(chunks, chunk);
      Around(s, i);
      mallocReady := true;
      var done, p := ReallocInPlace(chunk, RealSize(newsize), i);
      if done {
        return Done(p);
      }
      r := MoveBlock(vaddr, newsize, i);
    }
  }
}
