/** How the heap grows in memory, past pages it does not own: the page loop of `malloc` with its "not ours" chunks. */
module HeapExtend {
  import opened Memory
  import opened Units
  import opened ChunkList
  import opened HeapSpec
  import opened HeapWrap

  /** The tail is shorter than its header, and the first page behind the heap is not ours: the "not ours" header goes
      over the end of the tail's. */
  ghost predicate TailLost(last: Chunk, e: nat, size: nat, foreign: set<nat>) {
    !last.used && last.size < HSIZE && Wanted(last, size) > 0 && FirstPage(e) in foreign
  }

  ghost predicate Trouble(last: Chunk, e: nat, size: nat, foreign: set<nat>) {
    Torn(last, e, size, foreign) || TailLost(last, e, size, foreign)
  }

  /** The header of chunk j: all those in use but the first are not ours. */
  function HeaderFor(cs: seq<Chunk>, j: int): Header
    requires 0 <= j < |cs|
  {
    Header(cs[j].size, MAGIC, cs[j].used, j > 0 && cs[j].used)
  }

  ghost predicate HeadAt(m: seq<Byte>, cs: seq<Chunk>, j: int)
    requires 0 <= j < |cs|
  {
    cs[j].at + HSIZE <= |m| && GetHeader(m, cs[j].at) == HeaderFor(cs, j)
  }

  /** Memory spells out the list, but for the first chunk if that is lost. */
  ghost predicate Written(m: seq<Byte>, cs: seq<Chunk>, lost: bool) {
    && cs != [] && (HeadAt(m, cs, 0) <==> !lost)
    && forall j :: 1 <= j < |cs| ==> HeadAt(m, cs, j)
  }

  /** Memory spells out a list that lies end to end. */
  ghost predicate Spelled(m: seq<Byte>, cs: seq<Chunk>) { Joined(cs) && forall j :: 0 <= j < |cs| ==> HeadAt(m, cs, j) }

  /** All headers lie below x. */
  ghost predicate Low(cs: seq<Chunk>, x: nat) { forall j :: 0 <= j < |cs| ==> cs[j].at + HSIZE <= x }

  lemma HeadStays(m: seq<Byte>, m2: seq<Byte>, cs: seq<Chunk>, cs2: seq<Chunk>, j: int)
    requires 0 <= j < |cs| <= |cs2| && cs2[j] == cs[j] && |m| == |m2| && cs[j].at + HSIZE <= |m|
    requires forall k :: cs[j].at <= k < cs[j].at + HSIZE ==> m2[k] == m[k]
    ensures HeadAt(m2, cs2, j) == HeadAt(m, cs, j)
  {
    hide GetHeader;
    HeaderFrame(m, m2, cs[j].at);
  }

  /** A header behind all the others. */
  lemma AddHead(m: seq<Byte>, cs: seq<Chunk>, lost: bool, c: Chunk, h: Header)
    requires Written(m, cs, lost) && Low(cs, c.at) && c.at + HSIZE <= |m| && c.size < SIZE_LIMIT
    requires h == Header(c.size, MAGIC, c.used, c.used)
    ensures h.Packable() && Written(PutHeader(m, c.at, h), cs + [c], lost) && Low(cs + [c], c.at + HSIZE)
  {
    hide GetHeader, PutHeader, HeadAt;
    PutHeaderEffect(m, c.at, h);
    var m2, t := PutHeader(m, c.at, h), cs + [c];
    forall j | 0 <= j < |cs| ensures HeadAt(m2, t, j) == HeadAt(m, cs, j) {
      HeadStays(m, m2, cs, t, j);
    }
    Fresh(m2, t, |cs|);
  }

  lemma Fresh(m: seq<Byte>, cs: seq<Chunk>, j: int)
    requires 0 <= j < |cs| && cs[j].at + HSIZE <= |m| && GetHeader(m, cs[j].at) == HeaderFor(cs, j)
    ensures HeadAt(m, cs, j)
  {
  }

  /** The only header written anew. */
  lemma NewHead(m: seq<Byte>, c: Chunk)
    requires c.at + HSIZE <= |m| && c.size < SIZE_LIMIT
    ensures var h := Header(c.size, MAGIC, c.used, false);
      h.Packable() && Written(PutHeader(m, c.at, h), [c], false)
  {
    hide GetHeader, PutHeader;
    PutHeaderEffect(m, c.at, Header(c.size, MAGIC, c.used, false));
  }

  /** A "not ours" header right behind a tail of 1 to 7 bytes: the tail's header is lost. */
  lemma TailHeadLost(m: seq<Byte>, last: Chunk, c: Chunk, h: Header)
    requires Written(m, [last], false) && !last.used && 0 < last.size < HSIZE && c.at == last.End()
    requires c.at + HSIZE <= |m| && c.size < SIZE_LIMIT && c.used && c.size % 0x100 == 8
    requires h == Header(c.size, MAGIC, true, true)
    ensures h.Packable() && Written(PutHeader(m, c.at, h), [last, c], true)
  {
    hide GetHeader, PutHeader;
    PutHeaderEffect(m, c.at, h);
    var m2, old8 := PutHeader(m, c.at, h), Header(last.size, MAGIC, false, false);
    assert m2[c.at..c.at + HSIZE] == Word(h) by { HeaderIsWord(m2, c.at, h); }
    FirstByte(h);
    SmallWord(last.size);
    assert m2[last.at..last.at + HSIZE][last.size] == m2[c.at] == m2[c.at..c.at + HSIZE][0] == 8;
    HeaderIsWord(m2, last.at, old8);
    Fresh(m2, [last, c], 1);
  }

  lemma FirstByte(h: Header)
    requires h.Packable()
    ensures Word(h)[0] == h.size % 0x100
  {
    assert LittleEndian(h.size, 6)[0] == h.size % 0x100;
  }

  lemma {:induction false} ZeroBytes(n: nat)
    ensures forall k :: 0 <= k < n ==> LittleEndian(0, n)[k] == 0
  {
    if n == 0 {
    } else {
      ZeroBytes(n - 1);
    }
  }

  /** No byte of a short free header but the first is 8. */
  lemma SmallWord(r: nat)
    requires 0 < r < HSIZE
    ensures Word(Header(r, MAGIC, false, false))[r] != 8
  {
    ZeroBytes(5);
    var low := LittleEndian(r, 6);
    assert low == [r] + LittleEndian(0, 5);
    assert r < 6 ==> low[r] == LittleEndian(0, 5)[r - 1] == 0;
  }

  // ----- the loop -----

  /** What the loop's counters say about places in memory. */
  lemma Places(last: Chunk, e: nat, size: nat, foreign: set<nat>, g: Progress, b: nat, i: nat, wraps: nat, gap: bool)
    requires Standing(last, e, size, foreign, g, b, i, wraps, gap) && Request(size) > 0
    requires e % PAGESIZE == PAGESIZE - HSIZE
    ensures FirstPage(g.end) == b + i && g.end + HSIZE == (b + i) * PAGESIZE && g.end % PAGESIZE == PAGESIZE - HSIZE
    ensures foreign <= g.mapped && (b + i in g.mapped <==> b + i in foreign)
    ensures wraps == 0 ==> g.done == [] && g.other.at == last.at && g.other.used == last.used && g.start == e
    ensures wraps == 0 ==> g.other.size == if last.used then last.size else last.size + i * PAGESIZE
    ensures wraps > 0 ==> i > 0 && g.other.used && g.other.End() == g.start
    ensures !g.other.used ==> wraps == 0 && g.other.End() == g.end
    ensures wraps == 0 && i > 0 ==> FirstPage(e) !in foreign
    ensures wraps == 0 && i == 0 ==> g.end == e && (g.need > 0 <==> Wanted(last, size) > 0)
    ensures e <= g.start <= g.end && (wraps == 0 ==> last.End() == e)
    ensures i <= PagesFor(Request(size)) && (g.need > 0 ==> i < PagesFor(Request(size)))
    ensures g.other.used ==> g.total >= 0 - HSIZE as int && g.start + g.total == g.end
    ensures g.other.used && g.need == 0 ==> g.total > 0
  {
    hide LeastFree, FirstMapped, Torn, Joined, Once;
    LeftMeans(ToAllocate(last, size), i);
    LeftMeans(Request(size), i);
    FewerPages(ToAllocate(last, size), Request(size));
  }

  lemma FewerPages(a: nat, b: nat)
    requires a <= b
    ensures PagesFor(a) <= PagesFor(b) && (b > 0 ==> PagesFor(b) > 0)
  {
  }

  /** No foreign page from `top` on, and memory holds the request's pages beyond it. */
  ghost predicate RoomAbove(length: nat, e: nat, size: nat, foreign: set<nat>, top: nat) {
    && FREE_PAGE <= FirstPage(e) <= top && (forall x :: x in foreign ==> x < top)
    && (top + PagesFor(Request(size))) * PAGESIZE <= length <= ADDRESS_LIMIT
  }

  /** The last chunk before growth: its header is in memory, and a chunk in use is never short. */
  ghost predicate Tail(m: seq<Byte>, last: Chunk, e: nat) {
    && last.End() == e && last.size > 0 && (last.used ==> MINSIZE <= last.size) && e % PAGESIZE == PAGESIZE - HSIZE
    && e + HSIZE <= |m| && Written(m, [last], false)
  }

  /** Bytes below the heap's old end, the tail's header aside, are as before. */
  ghost predicate Kept(m: seq<Byte>, m2: seq<Byte>, last: Chunk, e: nat) {
    |m| == |m2| && forall k :: 0 <= k < |m| && k < e && !(last.at <= k < last.at + HSIZE) ==> m2[k] == m[k]
  }

  /** Memory against the loop's list: only a short tail that was wrapped at once is lost. */
  ghost predicate InStep(m: seq<Byte>, last: Chunk, lost: bool, cs: seq<Chunk>, bound: nat, wraps: nat, i: nat) {
    && Written(m, cs, wraps > 0 && lost)
    && ((wraps == 0 && i == 0 && last.size < HSIZE) || Low(cs, bound))
  }

  lemma LowMore(cs: seq<Chunk>, x: nat, y: nat)
    requires Low(cs, x) && x <= y
    ensures Low(cs, y)
  {
  }

  /** A page for the tail: its header is written with the new size. */
  lemma GrowInStep(m: seq<Byte>, last: Chunk, lost: bool, c: Chunk, bound: nat, i: nat)
    requires InStep(m, last, lost, [c], bound, 0, i) && !c.used && c.at < bound
    requires bound + PAGESIZE + HSIZE <= |m| <= ADDRESS_LIMIT
    requires c.size + PAGESIZE < SIZE_LIMIT
    ensures var h := Header(c.size + PAGESIZE, MAGIC, false, false);
      && h.Packable()
      && InStep(PutHeader(m, c.at, h), last, lost, [c.(size := c.size + PAGESIZE)], bound + PAGESIZE, 0, i + 1)
  {
    hide PutHeader;
    NewHead(m, c.(size := c.size + PAGESIZE));
  }

  /** A "not ours" header at the end of the heap. */
  lemma WrapInStep(m: seq<Byte>, last: Chunk, lost: bool, cs: seq<Chunk>, bound: nat, wraps: nat, i: nat, c: Chunk)
    requires InStep(m, last, lost, cs, bound, wraps, i) && bound <= c.at && c.at + HSIZE <= |m| && c.size < SIZE_LIMIT
    requires c.used && c.size % 0x100 == 8
    requires wraps == 0 && i == 0 ==>
      && cs == [last] && last.End() == c.at && last.size > 0 && (lost <==> last.size < HSIZE)
      && (last.used ==> MINSIZE <= last.size)
    requires wraps == 0 && i > 0 ==> !lost
    ensures var h := Header(c.size, MAGIC, true, true);
      h.Packable() && InStep(PutHeader(m, c.at, h), last, lost, cs + [c], c.at + HSIZE, wraps + 1, 1)
  {
    hide PutHeader, HeadAt;
    var h := Header(c.size, MAGIC, true, true);
    if wraps == 0 && i == 0 && last.size < HSIZE {
      TailHeadLost(m, last, c, h);
      assert [last] + [c] == [last, c];
    } else {
      LowMore(cs, bound, c.at);
      AddHead(m, cs, wraps > 0 && lost, c, h);
    }
  }

  /** A page for the free tail. */
  method GrowTail(mem: array<Byte>, other: nat, length: nat, ghost before: seq<Byte>, ghost tail: Chunk, ghost e: nat,
                  ghost lost: bool, ghost c: Chunk, ghost end: nat, ghost i: nat)
    requires InStep(mem[..], tail, lost, [c], end, 0, i) && c == Chunk(other, length, false) && other == tail.at < end
    requires end + PAGESIZE + HSIZE <= mem.Length <= ADDRESS_LIMIT && length + PAGESIZE < SIZE_LIMIT
    requires Kept(before, mem[..], tail, e)
    modifies mem
    ensures InStep(mem[..], tail, lost, [c.(size := length + PAGESIZE)], end + PAGESIZE, 0, i + 1)
    ensures Kept(before, mem[..], tail, e)
  {
    hide InStep, Kept, PutHeader;
    GrowInStep(mem[..], tail, lost, c, end, i);
    KeptBy(before, mem[..], tail, e, other, Header(length + PAGESIZE, MAGIC, false, false));
    WriteHeader(mem, other, Header(length + PAGESIZE, MAGIC, false, false));
  }

  /** A "not ours" chunk over the mapped pages behind the heap. */
  method WrapOthers(mem: array<Byte>, end: nat, length: nat, ghost before: seq<Byte>, ghost tail: Chunk, ghost e: nat,
                    ghost lost: bool, ghost cs: seq<Chunk>, ghost bound: nat, ghost wraps: nat, ghost i: nat)
    requires InStep(mem[..], tail, lost, cs, bound, wraps, i) && bound <= end && end + HSIZE <= mem.Length && e <= end
    requires length % 0x100 == 8 && length < SIZE_LIMIT
    requires wraps == 0 && i == 0 ==>
      && cs == [tail] && tail.End() == end && tail.size > 0 && (lost <==> tail.size < HSIZE)
      && (tail.used ==> MINSIZE <= tail.size)
    requires wraps == 0 && i > 0 ==> !lost
    requires Kept(before, mem[..], tail, e)
    modifies mem
    ensures InStep(mem[..], tail, lost, cs + [Chunk(end, length, true)], end + length, if wraps == 0 then 1 else 2, 1)
    ensures Kept(before, mem[..], tail, e)
  {
    hide InStep, Kept, PutHeader;
    ghost var w := Chunk(end, length, true);
    WrapInStep(mem[..], tail, lost, cs, bound, wraps, i, w);
    KeptBy(before, mem[..], tail, e, end, Header(length, MAGIC, true, true));
    WriteHeader(mem, end, Header(length, MAGIC, true, true));
    LowUp(mem[..], tail, lost, cs + [w], end + HSIZE, end + length, wraps + 1);
  }

  /** The fresh chunk behind a list that ends in use. */
  method PutFresh(mem: array<Byte>, start: nat, total: nat, ghost before: seq<Byte>, ghost tail: Chunk, ghost e: nat,
                  ghost lost: bool, ghost cs: seq<Chunk>, ghost wraps: nat, ghost i: nat)
    requires InStep(mem[..], tail, lost, cs, start, wraps, i) && (wraps == 0 && i == 0 ==> tail.size >= HSIZE)
    requires total < SIZE_LIMIT && start + HSIZE <= mem.Length && e <= start && Kept(before, mem[..], tail, e)
    modifies mem
    ensures Written(mem[..], cs + [Chunk(start, total, false)], wraps > 0 && lost)
    ensures Kept(before, mem[..], tail, e)
  {
    hide InStep, Kept, PutHeader, Written;
    FreshInStep(mem[..], tail, lost, cs, start, wraps, i, total);
    KeptBy(before, mem[..], tail, e, start, Header(total, MAGIC, false, false));
    WriteHeader(mem, start, Header(total, MAGIC, false, false));
  }

  /** Where the loop stands, in its counters and in memory. */
  datatype Turn = Turn(g: Progress, b: nat, i: nat, wraps: nat, gap: bool)

  ghost predicate Loops(m: seq<Byte>, before: seq<Byte>, last: Chunk, e: nat, size: nat, foreign: set<nat>, top: nat,
                        t: Turn) {
    && Standing(last, e, size, foreign, t.g, t.b, t.i, t.wraps, t.gap) && t.b <= top
    && InStep(m, last, TailLost(last, e, size, foreign), t.g.done + [t.g.other],
        if t.g.other.used then t.g.start else t.g.end,
        t.wraps, t.i)
    && Kept(before, m, last, e)
    && (if t.g.done == [] then t.g.other else t.g.done[0]).at == last.at
  }

  /** What one turn of the loop can rely on. */
  lemma Facts(m: seq<Byte>, before: seq<Byte>, last: Chunk, e: nat, size: nat, foreign: set<nat>, top: nat, t: Turn)
    requires Loops(m, before, last, e, size, foreign, top, t) && RoomAbove(|m|, e, size, foreign, top)
    requires Request(size) > 0 && e % PAGESIZE == PAGESIZE - HSIZE
    ensures FirstPage(t.g.end) == t.b + t.i && t.g.end + HSIZE == (t.b + t.i) * PAGESIZE <= |m| <= ADDRESS_LIMIT
    ensures foreign <= t.g.mapped && t.g.end % PAGESIZE == PAGESIZE - HSIZE
    ensures t.b + t.i in t.g.mapped <==> t.b + t.i in foreign
    ensures t.g.need > 0 ==> t.g.end + HSIZE + PAGESIZE <= |m|
  {
    hide Standing, InStep, TailLost, Kept;
    Places(last, e, size, foreign, t.g, t.b, t.i, t.wraps, t.gap);
    RoomStays(|m|, e, size, foreign, top, t.b, t.i);
  }

  /** One turn that maps a page. */
  method TakeTurn(mem: array<Byte>, other: nat, used: bool, length: nat, ghost before: seq<Byte>, ghost last: Chunk,
                  ghost e: nat, ghost size: nat, ghost foreign: set<nat>, ghost top: nat, ghost t: Turn)
    returns (length2: nat, ghost u: Turn)
    requires Loops(mem[..], before, last, e, size, foreign, top, t) && RoomAbove(mem.Length, e, size, foreign, top)
    requires Request(size) > 0 && e % PAGESIZE == PAGESIZE - HSIZE && (last.used ==> MINSIZE <= last.size)
    requires last.size > 0 && t.g.need > 0 && t.b + t.i !in t.g.mapped && t.g.other == Chunk(other, length, used)
    modifies mem
    ensures Loops(mem[..], before, last, e, size, foreign, top, u)
    ensures length2 == if used then length else length + PAGESIZE
    ensures u == t.(i := t.i + 1,
                    g := Progress(t.g.done, Chunk(other, length2, used), t.g.start, t.g.total + PAGESIZE,
                                  t.g.need - Min(t.g.need, PAGESIZE), t.g.end + PAGESIZE, t.g.mapped + {t.b + t.i}))
  {
    hide Standing, InStep, TailLost, Kept, Written, RoomAbove;
    Places(last, e, size, foreign, t.g, t.b, t.i, t.wraps, t.gap);
    RoomStays(mem.Length, e, size, foreign, top, t.b, t.i);
    TakeStep(last, e, size, foreign, t.g, t.b, t.i, t.wraps, t.gap);
    Less(t.g.need);
    ghost var lost := TailLost(last, e, size, foreign);
    length2 := length;
    if used {
      StayInStep(mem[..], last, lost, t.g.done + [t.g.other], t.g.start, t.wraps, t.i);
    } else {
      assert t.g.done + [t.g.other] == [t.g.other];
      GrowTail(mem, other, length, before, last, e, lost, t.g.other, t.g.end, t.i);
      length2 := length + PAGESIZE;
    }
    u := t.(i := t.i + 1,
            g := Progress(t.g.done, Chunk(other, length2, used), t.g.start, t.g.total + PAGESIZE,
                          t.g.need - Min(t.g.need, PAGESIZE), t.g.end + PAGESIZE, t.g.mapped + {t.b + t.i}));
    assert !used ==> u.g.done + [u.g.other] == [u.g.other];
  }

  /** One turn that finds pages not ours. */
  method WrapTurn(mem: array<Byte>, end: nat, next: nat, ghost before: seq<Byte>, ghost last: Chunk, ghost e: nat,
                  ghost size: nat, ghost foreign: set<nat>, ghost top: nat, ghost t: Turn)
    returns (diff: nat, ghost u: Turn)
    requires Loops(mem[..], before, last, e, size, foreign, top, t) && RoomAbove(mem.Length, e, size, foreign, top)
    requires Request(size) > 0 && e % PAGESIZE == PAGESIZE - HSIZE && (last.used ==> MINSIZE <= last.size)
    requires last.size > 0
    requires t.g.need > 0 && t.b + t.i in t.g.mapped && end == t.g.end && next == LeastFree(t.g.mapped, FREE_PAGE)
    modifies mem
    ensures Loops(mem[..], before, last, e, size, foreign, top, u)
    ensures next > t.b + t.i && diff == next * PAGESIZE - (end + HSIZE) && Min(Request(size), PAGESIZE) <= Request(size)
    ensures u == Turn(Progress(t.g.done + [t.g.other], Chunk(end, diff + HSIZE, true), end + HSIZE + diff,
                               PAGESIZE - HSIZE, Request(size) - Min(Request(size), PAGESIZE), end + diff + PAGESIZE,
                               t.g.mapped + {next}),
                      next, 1, if t.wraps == 0 then 1 else 2, t.wraps > 0 || (last.used && t.i > 0))
  {
    hide Standing, InStep, TailLost, Kept, Written, RoomAbove, LeastFree, Wrapped;
    Places(last, e, size, foreign, t.g, t.b, t.i, t.wraps, t.gap);
    RoomStays(mem.Length, e, size, foreign, top, t.b, t.i);
    WrapStep(last, e, size, foreign, t.g, t.b, t.i, t.wraps, t.gap);
    WrappedIs(t.g, size, t.b + t.i, next);
    ghost var lost, cs := TailLost(last, e, size, foreign), t.g.done + [t.g.other];
    WrapLength(end, t.b + t.i, next, top, mem.Length);
    hide PagesFor, FirstPage, Wanted, Low, LeastFree;
    diff := next * PAGESIZE - (end + HSIZE);
    TailLostIs(last, e, size, foreign);
    if t.wraps == 0 && t.i == 0 { TailAlone(last, e, size, foreign, t); }
    WrapOthers(mem, end, diff + HSIZE, before, last, e, lost, cs, if t.g.other.used then t.g.start else t.g.end,
      t.wraps, t.i);
    u := Turn(Progress(cs, Chunk(end, diff + HSIZE, true), end + HSIZE + diff, PAGESIZE - HSIZE,
                       Request(size) - Min(Request(size), PAGESIZE), end + diff + PAGESIZE, t.g.mapped + {next}),
              next, 1, if t.wraps == 0 then 1 else 2, t.wraps > 0 || (last.used && t.i > 0));
  }

  /** How long a "not ours" chunk is. */
  lemma WrapLength(end: nat, page: nat, next: nat, top: nat, length: nat)
    requires end + HSIZE == page * PAGESIZE && page < next <= top && top * PAGESIZE <= length <= ADDRESS_LIMIT
    ensures var diff := next * PAGESIZE - (end + HSIZE);
      diff >= 0 && (diff + HSIZE) % 0x100 == 8 && diff + HSIZE < SIZE_LIMIT
  {
    var n := next - page;
    assert next * PAGESIZE - (end + HSIZE) == 0x100 * (0x10 * n);
    EightOver(0x10 * n);
  }

  lemma EightOver(n: nat)
    ensures (0x100 * n + 8) % 0x100 == 8
  {
  }

  lemma TailAlone(last: Chunk, e: nat, size: nat, foreign: set<nat>, t: Turn)
    requires Standing(last, e, size, foreign, t.g, t.b, 0, 0, t.gap)
    ensures t.g.done + [t.g.other] == [last]
  {
    hide Torn, Known, Clear, Joined;
  }

  /** The growth of `malloc` in memory: the list from the old last chunk on, the new end, and the mapped pages. */
  method Extend(mem: array<Byte>, last: nat, e: nat, size: nat, foreign: set<nat>, ghost tail: Chunk, ghost top: nat)
    returns (ghost chain: seq<Chunk>, end: nat, mapped: set<nat>)
    requires last == tail.at && Tail(mem[..], tail, e) && Request(size) > 0
    requires RoomAbove(mem.Length, e, size, foreign, top)
    requires forall x: nat :: FREE_PAGE <= x < FirstPage(e) ==> x in foreign
    modifies mem
    ensures end % PAGESIZE == PAGESIZE - HSIZE && foreign <= mapped
    ensures chain != [] && chain[0].at == last && LastOf(chain).End() == end
    ensures Written(mem[..], chain, TailLost(tail, e, size, foreign))
    ensures Joined(chain) <==> !Torn(tail, e, size, foreign)
    ensures Spelled(mem[..], chain) <==> !Trouble(tail, e, size, foreign)
    ensures Spelled(mem[..], chain) ==> chain == Extended(tail, e, size, foreign)
    ensures Kept(old(mem[..]), mem[..], tail, e)
  {
    hide Extended, Ahead, Loops, GetHeader, Tail, Spelled, Kept, RoomAbove, LeastFree, Trouble, Written, TailLost,
         Joined, Torn;
    ghost var before := mem[..];
    var head := Opening(mem, last, e, size, foreign, tail, top);
    var other: nat, used: bool, length: nat := last, head.used, head.size;
    var start: nat, total: int, need: nat := e, 0, Request(size);
    end, mapped := e, foreign;
    if !used {
      need := need - Min(need, length);
    }
    ghost var t := Turn(Progress([], tail, e, 0, need, e, foreign), FirstPage(e), 0, 0, false);
    while need > 0
      invariant mem.Length == |before| && Loops(mem[..], before, tail, e, size, foreign, top, t)
      invariant t.g.other == Chunk(other, length, used) && t.g.start == start && t.g.total == total && t.g.need == need
      invariant t.g.end == end && t.g.mapped == mapped
      decreases Ahead(foreign, t.b + t.i), need
    {
      var page := FirstPage(end);
      Facts(mem[..], before, tail, e, size, foreign, top, t);
      Less(need);
      if page !in mapped {
        AheadStep(foreign, page);
        length, t := TakeTurn(mem, other, used, length, before, tail, e, size, foreign, top, t);
        mapped := mapped + {page};
      } else {
        var next, diff := LeastFree(mapped, FREE_PAGE), 0;
        diff, t := WrapTurn(mem, end, next, before, tail, e, size, foreign, top, t);
        AheadJump(foreign, page, next + 1);
        other, used, length := end, true, diff + HSIZE;
        start := end + length;
        mapped := mapped + {next};
        end := end + diff;
        total, need := 0 - HSIZE as int, Request(size);
      }
      end, total := end + PAGESIZE, total + PAGESIZE;
      need := need - Min(need, PAGESIZE);
    }
    Facts(mem[..], before, tail, e, size, foreign, top, t);
    chain := Close(mem, used, start, total, before, tail, e, size, foreign, top, t);
  }

  /** The end of growth: behind a list that ends in use, the new pages become a chunk. */
  method Close(mem: array<Byte>, used: bool, start: nat, total: int, ghost before: seq<Byte>, ghost last: Chunk,
               ghost e: nat, ghost size: nat, ghost foreign: set<nat>, ghost top: nat, ghost t: Turn)
    returns (ghost chain: seq<Chunk>)
    requires Loops(mem[..], before, last, e, size, foreign, top, t) && RoomAbove(mem.Length, e, size, foreign, top)
    requires Request(size) > 0 && e % PAGESIZE == PAGESIZE - HSIZE && (last.used ==> MINSIZE <= last.size)
    requires t.g.need == 0 && used == t.g.other.used && start == t.g.start && total == t.g.total
    modifies mem
    ensures chain != [] && chain[0].at == last.at && LastOf(chain).End() == t.g.end
    ensures Written(mem[..], chain, TailLost(last, e, size, foreign))
    ensures Joined(chain) <==> !Torn(last, e, size, foreign)
    ensures Spelled(mem[..], chain) <==> !Trouble(last, e, size, foreign)
    ensures Spelled(mem[..], chain) ==> chain == Extended(last, e, size, foreign)
    ensures Kept(before, mem[..], last, e)
  {
    hide Standing, InStep, TailLost, Kept, Written, RoomAbove, Torn, Extended, Joined, Spelled, Trouble;
    Places(last, e, size, foreign, t.g, t.b, t.i, t.wraps, t.gap);
    RoomStays(mem.Length, e, size, foreign, top, t.b, t.i);
    Finish(last, e, size, foreign, t.g, t.b, t.i, t.wraps, t.gap);
    ghost var lost := TailLost(last, e, size, foreign);
    chain := t.g.done + [t.g.other];
    assert chain + [] == chain;
    if used {
      PutFresh(mem, start, total, before, last, e, lost, chain, t.wraps, t.i);
      chain := chain + [Chunk(start, total, false)];
    } else {
      InStepWritten(mem[..], last, lost, chain, t.g.end, t.wraps, t.i);
    }
    TailLostIs(last, e, size, foreign);
    Closing(mem[..], last, e, size, foreign, chain, t.wraps > 0 && lost);
  }

  lemma InStepWritten(m: seq<Byte>, last: Chunk, lost: bool, cs: seq<Chunk>, bound: nat, wraps: nat, i: nat)
    requires InStep(m, last, lost, cs, bound, wraps, i)
    ensures Written(m, cs, wraps > 0 && lost)
  {
  }

  /** Written and laid end to end is spelled out. */
  lemma Closing(m: seq<Byte>, last: Chunk, e: nat, size: nat, foreign: set<nat>, chain: seq<Chunk>, lost: bool)
    requires Written(m, chain, lost) && (Joined(chain) <==> !Torn(last, e, size, foreign))
    requires lost <==> TailLost(last, e, size, foreign)
    ensures Spelled(m, chain) <==> !Trouble(last, e, size, foreign)
    ensures Spelled(m, chain) ==> Joined(chain)
  {
    hide HeadAt, Joined, Torn, TailLost;
  }

  /** A short tail is lost exactly when its first neighbour is wrapped at once. */
  lemma TailLostIs(last: Chunk, e: nat, size: nat, foreign: set<nat>)
    ensures TailLost(last, e, size, foreign) <==>
            !last.used && last.size < HSIZE && Wanted(last, size) > 0 && FirstPage(e) in foreign
  {
  }

  lemma StayInStep(m: seq<Byte>, last: Chunk, lost: bool, cs: seq<Chunk>, bound: nat, wraps: nat, i: nat)
    requires InStep(m, last, lost, cs, bound, wraps, i) && (wraps == 0 && i == 0 ==> last.size >= HSIZE)
    ensures InStep(m, last, lost, cs, bound, wraps, i + 1)
  {
  }

  lemma LowUp(m: seq<Byte>, last: Chunk, lost: bool, cs: seq<Chunk>, x: nat, y: nat, wraps: nat)
    requires InStep(m, last, lost, cs, x, wraps, 1) && wraps > 0 && x <= y
    ensures InStep(m, last, lost, cs, y, 1, 1) && InStep(m, last, lost, cs, y, 2, 1)
  {
    LowMore(cs, x, y);
  }

  /** The header of the fresh chunk behind the list. */
  lemma FreshInStep(m: seq<Byte>, last: Chunk, lost: bool, cs: seq<Chunk>, start: nat, wraps: nat, i: nat, total: int)
    requires InStep(m, last, lost, cs, start, wraps, i) && (wraps == 0 && i == 0 ==> last.size >= HSIZE)
    requires 0 <= total < SIZE_LIMIT && start + HSIZE <= |m|
    ensures var h := Header(total, MAGIC, false, false);
      h.Packable() && Written(PutHeader(m, start, h), cs + [Chunk(start, total, false)], wraps > 0 && lost)
  {
    hide PutHeader, HeadAt;
    AddHead(m, cs, wraps > 0 && lost, Chunk(start, total, false), Header(total, MAGIC, false, false));
  }

  /** A header of the tail, or one behind the old end, leaves the bytes below as they were. */
  lemma KeptBy(before: seq<Byte>, m: seq<Byte>, last: Chunk, e: nat, a: nat, h: Header)
    requires Kept(before, m, last, e) && a + HSIZE <= |m| && h.Packable() && (a == last.at || e <= a)
    ensures Kept(before, PutHeader(m, a, h), last, e)
  {
    PutHeaderEffect(m, a, h);
  }

  /** The header of the last chunk is read, and the loop begins. */
  method Opening(mem: array<Byte>, last: nat, e: nat, size: nat, foreign: set<nat>, ghost tail: Chunk, ghost top: nat)
    returns (head: Header)
    requires last == tail.at && Tail(mem[..], tail, e) && RoomAbove(mem.Length, e, size, foreign, top)
    requires Request(size) > 0
    requires forall x: nat :: FREE_PAGE <= x < FirstPage(e) ==> x in foreign
    ensures head == Header(tail.size, MAGIC, tail.used, false) && tail.size > 0 && (tail.used ==> MINSIZE <= tail.size)
    ensures e % PAGESIZE == PAGESIZE - HSIZE && (tail.used || Min(Request(size), tail.size) <= Request(size))
    ensures
      var need := if tail.used then Request(size) else Request(size) - Min(Request(size), tail.size);
      Loops(mem[..], mem[..], tail, e, size, foreign, top,
            Turn(Progress([], tail, e, 0, need, e, foreign), FirstPage(e), 0, 0, false))
  {
    hide GetHeader, Standing;
    assert HeadAt(mem[..], [tail], 0);
    head := GetHeader(mem[..], last);
    Starting(tail, e, size, foreign);
    assert [] + [tail] == [tail];
  }

  /** Where the next page ends, memory goes on. */
  lemma RoomStays(length: nat, e: nat, size: nat, foreign: set<nat>, top: nat, b: nat, i: nat)
    requires RoomAbove(length, e, size, foreign, top) && b <= top && i <= PagesFor(Request(size))
    ensures (b + i) * PAGESIZE <= length <= ADDRESS_LIMIT && top * PAGESIZE <= length
    ensures i < PagesFor(Request(size)) ==> (b + i) * PAGESIZE + PAGESIZE <= length
    ensures b + i in foreign ==> LeastFree(foreign, b + i) <= top
  {
    hide PagesFor;
    if b + i in foreign {
      var q := LeastFree(foreign, b + i);
      assert top >= b + i && top !in foreign;
    }
  }

  // ----- each way growth goes wrong, behind a heap of one page at 0x100000, for a request of two pages -----

  const END: nat := 0x100FF8
  const TWO_PAGES: nat := 0x1FF8

  lemma TwoPages()
    ensures FirstPage(END) == 0x101 && Request(TWO_PAGES) == 0x2000 && PagesFor(Request(TWO_PAGES)) == 2
  {
  }

  /** The second page behind a heap that ends in use is not ours: the first one is left out of the list. */
  lemma SecondTears(last: Chunk, foreign: set<nat>)
    requires last.used && foreign == {0x100, 0x102}
    ensures Torn(last, END, TWO_PAGES, foreign) && !TailLost(last, END, TWO_PAGES, foreign)
  {
    hide FirstMapped, LeastFree;
    TwoPages();
    assert Clear(foreign, 0x101, 1);
    assert !Clear(foreign, 0x101, 2) by { assert 0x102 in foreign; }
    FirstIs(foreign, 0x101, 2, 1);
  }

  lemma NextFree(mapped: set<nat>, p: nat)
    requires p in mapped && p + 1 !in mapped
    ensures LeastFree(mapped, p) == p + 1
  {
    hide LeastFree;
    var q := LeastFree(mapped, p);
    assert q != p;
  }

  /** The first and the third page are not ours: the second is left out when the list is wrapped again. */
  lemma ThirdTears(last: Chunk, foreign: set<nat>)
    requires last.used && foreign == {0x100, 0x101, 0x103}
    ensures Torn(last, END, TWO_PAGES, foreign) && !TailLost(last, END, TWO_PAGES, foreign)
  {
    hide FirstMapped, LeastFree;
    TwoPages();
    FirstIs(foreign, 0x101, 2, 0);
    NextFree(foreign, 0x101);
    assert !Clear(foreign, 0x102, 2) by { assert 0x103 in foreign; }
  }

  /** The first page is not ours, and the heap ends in a free chunk of four bytes: the wrap takes its header. */
  lemma FirstTakesHeader(last: Chunk, foreign: set<nat>)
    requires last == Chunk(END - 4, 4, false) && foreign == {0x100, 0x101}
    ensures TailLost(last, END, TWO_PAGES, foreign) && !Torn(last, END, TWO_PAGES, foreign)
  {
    hide FirstMapped, LeastFree;
    TwoPages();
    assert Wanted(last, TWO_PAGES) == 2;
    FirstIs(foreign, 0x101, 2, 0);
    NextFree(foreign, 0x101);
    assert Clear(foreign, 0x102, 2);
  }
}
