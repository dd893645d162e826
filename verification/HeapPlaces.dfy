/** Where and how large the blocks are that `malloc` and `realloc` hand out, in terms of the chunks there were. */
module HeapPlaces {
  import opened Memory
  import opened Units
  import opened ChunkList
  import opened FirstFit
  import opened HeapSpec
  import opened HeapEdits
  import opened HeapSteps
  import opened HeapResize
  import opened HeapBlocks
  import opened HeapTheorems

  // ----- malloc -----

  /** A request with its header, and at least the smallest chunk; the sum is taken in 64 bits. */
  lemma WholeRequest(size: nat)
    ensures size + HSIZE < U64 ==> RealSize(size) == if size + HSIZE < MINSIZE then MINSIZE else size + HSIZE
  {
  }

  /** Free chunks a to b, possibly none. */
  ghost predicate Hole(cs: seq<Chunk>, a: nat, b: nat) { a <= b <= |cs| && forall x :: a <= x < b ==> !cs[x].used }

  /** Chunk i of cs is a block of `need` bytes cut from `room` bytes, or all of them when the rest cannot stand. */
  ghost predicate CutFrom(cs: seq<Chunk>, i: nat, at: int, room: nat, need: nat) {
    && i < |cs| && cs[i].used && cs[i].at == at && need <= cs[i].size < need + MINSIZE
    && if room >= need + MINSIZE then
         cs[i].size == need && i + 1 < |cs| && cs[i + 1] == Chunk(at + need, room - need, false)
       else cs[i].size == room
  }

  lemma CarvedCuts(cs: seq<Chunk>, i: nat, need: nat)
    requires i < |cs| && need <= cs[i].size
    ensures CutFrom(Carved(cs, i, need), i, cs[i].at, cs[i].size, need)
  {
  }

  lemma {:induction false} PayloadOfLive(cs: seq<Chunk>)
    ensures Payload(cs) == Payload(Live(cs))
  {
    if cs == [] {
    } else {
      PayloadOfLive(cs[1..]);
      PayloadAppend(if cs[0].used then [cs[0]] else [], Live(cs[1..]));
      assert [cs[0]][1..] == [];
    }
  }

  lemma AddedPayload(cs: seq<Chunk>, c: Chunk, cs2: seq<Chunk>)
    requires Added(Live(cs), c, Live(cs2)) && c.used && c.size >= HSIZE
    ensures Payload(cs2) == Payload(cs) + c.size - HSIZE
  {
    hide Live, Payload;
    PayloadOfLive(cs);
    PayloadOfLive(cs2);
    var live := Live(cs);
    var j :| 0 <= j <= |live| && Live(cs2) == live[..j] + [c] + live[j..];
    assert live == live[..j] + live[j..];
    PayloadAppend(live[..j], live[j..]);
    PayloadAppend(live[..j] + [c], live[j..]);
    PayloadAppend(live[..j], [c]);
    LiveOne(c);
  }

  /** The last chunk of the merged list is the free run that ends the list. */
  lemma {:induction false} LastSqueezed(cs: seq<Chunk>) returns (a: nat)
    requires cs != [] && !cs[|cs| - 1].used
    ensures Hole(cs, a, |cs|) && a < |cs| && (a > 0 ==> cs[a - 1].used)
    ensures var q := Squeezed(cs); q != [] && q[|q| - 1] == Chunk(cs[a].at, Total(cs[a..]), false)
  {
    var n := |cs| - 1;
    if n == 0 {
      a := n;
      assert cs == [cs[0]];
      TotalOne(cs[0]);
    } else if cs[n - 1].used {
      a := n;
      assert cs[n..] == [cs[n]];
      TotalOne(cs[n]);
      LastUsed(cs[..n]);
      hide Squeezed, Total;
      SqueezedStep(cs, n);
      assert cs[..n + 1] == cs;
    } else {
      a := LastSqueezed(cs[..n]);
      TotalMore(cs, a);
      hide Squeezed, Total;
      SqueezedStep(cs, n);
      assert cs[..n + 1] == cs;
    }
  }

  lemma TotalMore(cs: seq<Chunk>, a: nat)
    requires a < |cs|
    ensures Total(cs[a..]) == Total(cs[..|cs| - 1][a..]) + cs[|cs| - 1].size
  {
    assert cs[a..][..|cs| - 1 - a] == cs[..|cs| - 1][a..];
  }

  lemma LastUsed(cs: seq<Chunk>)
    requires cs != [] && cs[|cs| - 1].used
    ensures var q := Squeezed(cs); q != [] && q[|q| - 1] == cs[|cs| - 1]
  {
  }

  /** What the search finds is the first hole that reaches the size. */
  lemma FoundHole(cs: seq<Chunk>, need: nat, r: SearchResult) returns (a: nat, b: nat)
    requires cs != [] && r == Search(cs, need) && r.Found?
    ensures Hole(cs, a, b) && a < b && r.hit == Chunk(cs[a].at, Total(cs[a..b]), false) && r.after == cs[b..]
    ensures forall x, y :: FreeRun(cs, x, y) && y < b ==> Total(cs[x..y]) < need
  {
    hide Squeezed, Search, Total;
    SearchIsFirstFit(cs, need);
    var t :| FirstFitAt(cs, need, t, r);
    b := t + 1;
    if r.hit == cs[t] {
      a := t;
      assert cs[a..b] == [cs[t]];
      TotalOne(cs[t]);
    } else {
      a := LastSqueezed(cs[..b]);
      assert cs[..b][a..] == cs[a..b];
    }
    NoneFitsIffNoRun(cs[..t], need);
    forall x, y | FreeRun(cs, x, y) && y < b ensures Total(cs[x..y]) < need {
      assert FreeRun(cs[..t], x, y) && cs[..t][x..y] == cs[x..y];
    }
  }

  /** The hole at the end of the list, which is empty when the last chunk is in use. */
  lemma EndHole(cs: seq<Chunk>, e: nat) returns (a: nat)
    requires cs != []
    ensures Hole(cs, a, |cs|) && (a > 0 ==> cs[a - 1].used)
    ensures var l := LastOf(Squeezed(cs));
      if l.used then a == |cs| && Total(cs[a..]) == 0 else a < |cs| && l == Chunk(cs[a].at, Total(cs[a..]), false)
  {
    if cs[|cs| - 1].used {
      LastUsed(cs);
      a := |cs|;
    } else {
      a := LastSqueezed(cs);
    }
  }

  /** A block handed out starts at the first hole that reaches the size with its header. It is that size when what
      is left of the hole can stand as a chunk, which then lies free behind it; else it is the whole hole. Only when
      there is none are pages taken, the fewest that do, behind the hole at the end. */
  lemma MallocPlaces(s: State, size: nat, p: nat, t: State) returns (a: nat, b: nat, i: nat)
    requires Sound(s) && s.ready && size != 0 && MallocStep(s, size, Done(p), t)
    ensures t.end >= s.end && Hole(s.cs, a, b) && p == StartOf(s.cs, a, s.end) + HSIZE
    ensures CutFrom(t.cs, i, p - HSIZE, Total(s.cs[a..b]) + (t.end - s.end), RealSize(size))
    ensures t.memAllocated == s.memAllocated + t.cs[i].size - HSIZE
    ensures t.end == s.end ==> forall x, y :: FreeRun(s.cs, x, y) && y < b ==> Total(s.cs[x..y]) < RealSize(size)
    ensures t.end > s.end ==>
      && b == |s.cs| && (a > 0 ==> s.cs[a - 1].used) && NoRun(s.cs, RealSize(size)) && (t.end - s.end) % PAGESIZE == 0
      && var room := Total(s.cs[a..b]) + (t.end - s.end); room - PAGESIZE < Request(size) <= room
  {
    hide Tiles, Live, Payload, Keeps, Counted, Carved, Search, RealSize, Request, Total, FreeRun, CutFrom, MallocStep,
         Planned;
    PlanDone(s, size, p, t);
    var need, q, plan := RealSize(size), Search(s.cs, RealSize(size)), Planned(s.cs, s.end, size);
    i := plan.i;
    if q.Found? {
      a, b := FoundHole(s.cs, need, q);
      FoundPlan(s.cs, s.end, size);
    } else {
      a := GrownHole(s.cs, s.end, size);
      b := |s.cs|;
      assert s.cs[a..] == s.cs[a..b];
      SearchIsFirstFit(s.cs, need);
      NoneFitsIffNoRun(s.cs, need);
    }
    CarvedCuts(plan.list, i, need);
    MallocPays(s, size, p, t, i);
  }

  lemma PlanDone(s: State, size: nat, p: nat, t: State)
    requires Sound(s) && s.ready && size != 0 && MallocStep(s, size, Done(p), t)
    ensures var plan := Planned(s.cs, s.end, size);
      && plan.Place? && plan.i < |plan.list| && RealSize(size) <= plan.list[plan.i].size && plan.end >= s.end
      && p == plan.list[plan.i].at + HSIZE && t.end == plan.end && t.cs == Carved(plan.list, plan.i, RealSize(size))
  {
    hide Sound, Keeps, Carved, RealSize, CanMap;
  }

  lemma FoundPlan(cs: seq<Chunk>, e: nat, size: nat)
    requires cs != [] && Search(cs, RealSize(size)).Found?
    ensures var q := Search(cs, RealSize(size));
      && Planned(cs, e, size) == Place(q.before + [q.hit] + q.after, |q.before|, e)
      && (q.before + [q.hit] + q.after)[|q.before|] == q.hit
  {
    hide Search, RealSize;
  }

  /** Behind a list without room: the hole at its end and the fewest pages that make it large enough. */
  lemma GrownHole(cs: seq<Chunk>, e: nat, size: nat) returns (a: nat)
    requires cs != [] && Search(cs, RealSize(size)).NotFound? && Planned(cs, e, size).Place?
    ensures Hole(cs, a, |cs|) && (a > 0 ==> cs[a - 1].used)
    ensures var l := Planned(cs, e, size);
      && l.i < |l.list| && l.end >= e && (l.end - e) % PAGESIZE == 0
      && var room := Total(cs[a..]) + (l.end - e);
      && l.list[l.i] == Chunk(StartOf(cs, a, e), room, false)
      && (l.end > e ==> room - PAGESIZE < Request(size) <= room)
  {
    hide Squeezed, Search, Total, RealSize, Request;
    SearchIsFirstFit(cs, RealSize(size));
    a := EndHole(cs, e);
    var all := Squeezed(cs);
    var n := Extra(LastOf(all), size);
    GrownLast(all, e, n);
    FewestPages(LastOf(all), size);
  }

  lemma FewestPages(last: Chunk, size: nat)
    ensures var n, tail := Extra(last, size), if last.used then 0 else last.size;
      n % PAGESIZE == 0 && (n > 0 ==> tail + n - PAGESIZE < Request(size) <= tail + n)
  {
    hide Request;
  }

  /** The allocated total follows. */
  lemma MallocPays(s: State, size: nat, p: nat, t: State, i: nat)
    requires Sound(s) && s.ready && size != 0 && MallocStep(s, size, Done(p), t)
    requires i < |t.cs| && t.cs[i].used && t.cs[i].at == p - HSIZE
    ensures t.memAllocated == s.memAllocated + t.cs[i].size - HSIZE
  {
    hide Tiles, Live, Payload, Keeps, MallocStep, RealSize;
    MallocAdds(s, size, p, t);
    var c: Chunk :| c.at + HSIZE == p && c.used && Serves(c, size) && Added(Live(s.cs), c, Live(t.cs));
    AddedMembers(Live(s.cs), c, Live(t.cs));
    var j := LiveIndex(t.cs, c);
    OnePlace(t, i, j);
    AddedPayload(s.cs, c, t.cs);
  }

  lemma {:induction false} LiveIndex(cs: seq<Chunk>, c: Chunk) returns (j: nat)
    requires c in Live(cs)
    ensures j < |cs| && cs[j] == c
  {
    if cs[0] == c {
      j := 0;
    } else {
      j := LiveIndex(cs[1..], c);
      j := j + 1;
    }
  }

  lemma OnePlace(s: State, i: nat, j: nat)
    requires Sound(s) && i < |s.cs| && j < |s.cs| && s.cs[i].at == s.cs[j].at
    ensures i == j
  {
    hide Tiles, GetHeader;
    if i < j {
      StartsAscend(s.m, s.cs, i, j, s.first, s.end);
    } else if j < i {
      StartsAscend(s.m, s.cs, j, i, s.first, s.end);
    }
  }

  // ----- when malloc and free answer -----

  lemma SameEndHole(cs: seq<Chunk>, a: nat, b: nat)
    requires Hole(cs, a, |cs|) && Hole(cs, b, |cs|) && (a > 0 ==> cs[a - 1].used) && (b > 0 ==> cs[b - 1].used)
    ensures a == b
  {
  }

  lemma SamePages(tail: nat, request: nat, n: nat, k: nat)
    requires n % PAGESIZE == 0 && k % PAGESIZE == 0
    requires tail + n - PAGESIZE < request <= tail + n && tail + k - PAGESIZE < request <= tail + k
    ensures n == k
  {
    var x, y := n / PAGESIZE, k / PAGESIZE;
    assert n == PAGESIZE * x && k == PAGESIZE * y;
  }

  /** `malloc` hands out a block whenever some run of free chunks has room. */
  lemma MallocFinds(s: State, size: nat, r: Outcome, t: State)
    requires Sound(s) && s.ready && size != 0 && MallocStep(s, size, r, t) && !NoRun(s.cs, RealSize(size))
    ensures r.Done? && t.end == s.end
  {
    hide Tiles, Live, Payload, Keeps, Counted, Carved, Search, RealSize, Request;
    SearchIsFirstFit(s.cs, RealSize(size));
    NoneFitsIffNoRun(s.cs, RealSize(size));
    FoundPlan(s.cs, s.end, size);
    PageRangeEmpty(s.end + HSIZE);
  }

  /** And when none has: with n bytes of pages needed behind the hole at the end, if and only if these pages are within
      memory and not mapped. */
  lemma MallocGrows(s: State, size: nat, r: Outcome, t: State, a: nat, n: nat)
    requires Sound(s) && s.ready && size != 0 && MallocStep(s, size, r, t) && NoRun(s.cs, RealSize(size))
    requires Hole(s.cs, a, |s.cs|) && (a > 0 ==> s.cs[a - 1].used) && n > 0 && n % PAGESIZE == 0
    requires var tail := Total(s.cs[a..]); tail + n - PAGESIZE < Request(size) <= tail + n
    ensures r == if s.end + n + HSIZE <= |s.m| && PageRange(s.end + HSIZE, s.end + n + HSIZE) !! s.mapped
      then Done(StartOf(s.cs, a, s.end) + HSIZE) else MapFailed
  {
    hide Tiles, Live, Payload, Keeps, Counted, Carved, Search, RealSize, Request, Squeezed, Total, PageRange, Planned;
    GrownPlan(s.cs, s.end, size, a, n);
  }

  lemma GrownPlan(cs: seq<Chunk>, e: nat, size: nat, a: nat, n: nat)
    requires cs != [] && NoRun(cs, RealSize(size))
    requires Hole(cs, a, |cs|) && (a > 0 ==> cs[a - 1].used) && n > 0 && n % PAGESIZE == 0
    requires var tail := Total(cs[a..]); tail + n - PAGESIZE < Request(size) <= tail + n
    ensures var plan := Planned(cs, e, size);
      plan.Place? && plan.end == e + n && plan.i < |plan.list| && plan.list[plan.i].at == StartOf(cs, a, e)
  {
    hide Search, RealSize, Request, Squeezed, Total;
    SearchIsFirstFit(cs, RealSize(size));
    NoneFitsIffNoRun(cs, RealSize(size));
    if Search(cs, RealSize(size)).Found? {
      var x :| FirstFitAt(cs, RealSize(size), x, Search(cs, RealSize(size)));
      FoundMeansRun(cs, RealSize(size), x, Search(cs, RealSize(size)));
    }
    var b := EndHole(cs, e);
    SameEndHole(cs, a, b);
    var all := Squeezed(cs);
    FewestPages(LastOf(all), size);
    SomePages(LastOf(all), size);
    SamePages(Total(cs[a..]), Request(size), n, Extra(LastOf(all), size));
    GrowthSuffices(all, e, size);
    GrownLast(all, e, n);
  }

  lemma SomePages(last: Chunk, size: nat)
    requires Request(size) > if last.used then 0 else last.size
    ensures Extra(last, size) > 0
  {
    hide Request;
  }

  /** `free` of a block in use always frees it, and stops the kernel exactly for a header it does not know or one not
      in use. */
  lemma FreeAnswers(s: State, v: nat, r: Outcome, t: State)
    requires Sound(s) && s.ready && v > NULL && Pointer(s, v) && FreeStep(s, v, r, t)
    ensures r == Halted <==> GetHeader(s.m, v - HSIZE).magic != MAGIC || !GetHeader(s.m, v - HSIZE).used
    ensures r != Halted ==>
      var i := IndexOf(s.cs, v - HSIZE);
      r == Done(NULL) && t.ready && i < |s.cs| && Freed(s, i, t)
    ensures (exists i :: 0 <= i < |s.cs| && s.cs[i].used && v == s.cs[i].at + HSIZE) ==> r == Done(NULL)
  {
    hide Sound, GetHeader, Freed;
    if exists i :: 0 <= i < |s.cs| && s.cs[i].used && v == s.cs[i].at + HSIZE {
      var i :| 0 <= i < |s.cs| && s.cs[i].used && v == s.cs[i].at + HSIZE;
      WayIs(s, i, MINSIZE);
    }
    FreedReady(s, IndexOf(s.cs, v - HSIZE), t);
  }

  lemma FreedReady(s: State, i: nat, t: State)
    ensures i < |s.cs| && Freed(s, i, t) ==> t.ready == s.ready
  {
    hide Sound, Drained, Unused, Keeps;
  }

  // ----- realloc -----

  /** Bytes in the free chunk behind chunk i, if there is one, and in the one before it. */
  function FreeAfter(cs: seq<Chunk>, i: nat): nat { if i + 1 < |cs| && !cs[i + 1].used then cs[i + 1].size else 0 }

  function FreeBefore(cs: seq<Chunk>, i: nat): nat { if 0 < i <= |cs| && !cs[i - 1].used then cs[i - 1].size else 0 }

  /** Chunk i can be `need` bytes where it is, by itself or with the free chunk behind it. */
  predicate CanStay(cs: seq<Chunk>, i: nat, need: nat)
    requires i < |cs|
  {
    cs[i].size + FreeAfter(cs, i) >= need
  }

  /** It cannot, but with the free chunk before it. */
  predicate CanSlide(cs: seq<Chunk>, i: nat, need: nat)
    requires i < |cs|
  {
    !CanStay(cs, i, need) && FreeBefore(cs, i) + cs[i].size >= need
  }

  /** Chunks x to y of cs became the block and, when any bytes are left, a free chunk behind it. */
  ghost predicate Rebuilt(cs: seq<Chunk>, x: nat, y: nat, block: Chunk, left: nat, cs2: seq<Chunk>) {
    && x <= y <= |cs|
    && cs2 == cs[..x] + [block] + (if left == 0 then [] else [Chunk(block.End(), left, false)]) + cs[y..]
  }

  /** The list once block i is resized without a move: exactly the size asked for when it borders on a free chunk it
      takes or gives to, else cut when the rest can stand as a chunk. */
  ghost predicate ResizedList(cs: seq<Chunk>, i: nat, need: nat, cs2: seq<Chunk>)
    requires i < |cs|
  {
    var c, after, before := cs[i], FreeAfter(cs, i), FreeBefore(cs, i);
    if CanStay(cs, i, need) then
      if after > 0 then Rebuilt(cs, i, i + 2, Chunk(c.at, need, true), c.size + after - need, cs2)
      else if c.size >= need + MINSIZE then Rebuilt(cs, i, i + 1, Chunk(c.at, need, true), c.size - need, cs2)
      else cs2 == cs
    else
      && i > 0 && before + c.size >= need
      && Rebuilt(cs, i - 1, i + 1, Chunk(cs[i - 1].at, need, true), before + c.size - need, cs2)
  }

  /** `realloc` keeps the block where it is when it or the free chunk behind it has the bytes, else moves it down over
      the free chunk before it when that has them, and only else asks `malloc`; in the first two cases the heap keeps
      its end and its pages. */
  lemma ReallocPlaces(s: State, v: nat, size: nat, r: Outcome, t: State, i: nat)
    requires Sound(s) && s.ready && v > NULL && Pointer(s, v) && s.cs != [] && ReallocStep(s, v, size, r, t)
    requires i < |s.cs| && s.cs[i].used && v == s.cs[i].at + HSIZE
    ensures CanStay(s.cs, i, RealSize(size)) ==> r == Done(v)
    ensures CanSlide(s.cs, i, RealSize(size)) ==> i > 0 && r == Done(s.cs[i - 1].at + HSIZE)
    ensures CanStay(s.cs, i, RealSize(size)) || CanSlide(s.cs, i, RealSize(size)) ==>
        t.end == s.end && t.mapped == s.mapped && t.memUsed == s.memUsed
    ensures !CanStay(s.cs, i, RealSize(size)) && !CanSlide(s.cs, i, RealSize(size)) ==>
        exists f :: MallocStep(s, size, r, f)
  {
    hide Sound, Live, Payload, GetHeader, MallocStep, FreeStep, RealSize, Keeps, SameBytes, ListAfter;
    FoundByAddress(s, i);
    WayIs(s, i, RealSize(size));
  }

  /** Where the block grows, what is left has room for a header, or there is nothing behind it; a block that slides
      down needs that room even when nothing is left. */
  predicate RestHasRoom(cs: seq<Chunk>, i: nat, need: nat)
    requires i < |cs|
  {
    var c, after, before := cs[i], FreeAfter(cs, i), FreeBefore(cs, i);
    if CanStay(cs, i, need) then
      c.size < need ==> c.size + after == need || c.size + after >= need + HSIZE || i + 2 == |cs|
    else CanSlide(cs, i, need) ==> before + c.size >= need + HSIZE || i + 1 == |cs|
  }

  lemma WayIs(s: State, i: nat, need: nat)
    requires Sound(s) && i < |s.cs| && s.cs[i].used
    ensures s.cs[i].at + HSIZE <= |s.m| && GetHeader(s.m, s.cs[i].at) == s.cs[i].AsHeader()
    ensures var w := WayFor(s.cs, i, need);
      && (w.Move? <==> !CanStay(s.cs, i, need) && !CanSlide(s.cs, i, need))
      && (w.Slide? <==> CanSlide(s.cs, i, need)) && (CanSlide(s.cs, i, need) ==> i > 0)
      && (Roomy(s.cs, i, w) <==> RestHasRoom(s.cs, i, need))
  {
    hide Tiles, GetHeader;
    ChunkAt(s.m, s.cs, i, s.first, s.end);
    if i + 1 < |s.cs| { ChunkAt(s.m, s.cs, i + 1, s.first, s.end); }
  }

  /** And what the list is then, where there was room for the header of what is left. */
  lemma ReallocLists(s: State, v: nat, size: nat, r: Outcome, t: State, i: nat)
    requires Sound(s) && s.ready && v > NULL && Pointer(s, v) && s.cs != [] && ReallocStep(s, v, size, r, t)
    requires i < |s.cs| && s.cs[i].used && v == s.cs[i].at + HSIZE
    requires RestHasRoom(s.cs, i, RealSize(size))
    requires CanStay(s.cs, i, RealSize(size)) || CanSlide(s.cs, i, RealSize(size))
    ensures Sound(t) && ResizedList(s.cs, i, RealSize(size), t.cs)
  {
    hide Sound, Live, Payload, GetHeader, MallocStep, FreeStep, RealSize, Keeps, SameBytes, ListAfter, ResizedList,
         WayFor;
    FoundByAddress(s, i);
    WayIs(s, i, RealSize(size));
    ListIs(s, i, RealSize(size));
  }

  lemma ListIs(s: State, i: nat, need: nat)
    requires Sound(s) && i < |s.cs| && s.cs[i].used && !WayFor(s.cs, i, need).Move?
    ensures ResizedList(s.cs, i, need, ListAfter(s.cs, i, need, WayFor(s.cs, i, need)))
  {
    hide Tiles, GetHeader, ResizedList, ListAfter, WayFor;
    ChunkAt(s.m, s.cs, i, s.first, s.end);
    if i + 1 < |s.cs| { ChunkAt(s.m, s.cs, i + 1, s.first, s.end); }
    OneListIs(s.cs, i, need);
  }

  lemma OneListIs(cs: seq<Chunk>, i: nat, need: nat)
    requires i < |cs| && cs[i].used && cs[i].size > 0 && !WayFor(cs, i, need).Move?
    requires i + 1 < |cs| ==> cs[i + 1].size > 0 && cs[i + 1].at == cs[i].End()
    ensures ResizedList(cs, i, need, ListAfter(cs, i, need, WayFor(cs, i, need)))
  {
    if cs[i].size == need && FreeAfter(cs, i) > 0 {
      assert cs == cs[..i] + [cs[i]] + [cs[i + 1]] + cs[i + 2..];
    }
  }
}
