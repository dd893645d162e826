/** The list of chunks while the heap grows past pages it does not own: what each turn of the page loop does to it. */
module HeapWrap {
  import opened Memory
  import opened Units
  import opened ChunkList
  import opened HeapSpec

  const FREE_PAGE: nat := 0x100

  /** `getUnmappedVAddr`, as a page number: the least page from p on that is not mapped. */
  function LeastFree(mapped: set<nat>, p: nat): (q: nat)
    ensures p <= q && q !in mapped && forall x :: p <= x < q ==> x in mapped
    decreases |mapped|
  {
    if p !in mapped then p
    else
      var q := LeastFree(mapped - {p}, p + 1);
      assert q !in mapped - {p} && q != p;
      assert forall x {:trigger x in mapped} :: p <= x < q ==> x == p || x in mapped - {p};
      q
  }

  /** No mapped page among the n from p on. */
  ghost predicate Clear(mapped: set<nat>, p: nat, n: nat) { forall x: nat :: p <= x < p + n ==> x !in mapped }

  /** The first mapped page among the n from p on, or p + n. */
  ghost function FirstMapped(mapped: set<nat>, p: nat, n: nat): (q: nat)
    ensures p <= q <= p + n && Clear(mapped, p, q - p) && (q < p + n ==> q in mapped)
    ensures q == p + n <==> Clear(mapped, p, n)
    decreases n
  {
    if n == 0 || p in mapped then p else FirstMapped(mapped, p + 1, n - 1)
  }

  ghost predicate Meets(cs: seq<Chunk>, j: int)
    requires 0 < j < |cs|
  {
    cs[j - 1].End() == cs[j].at
  }

  /** Chunks laid end to end. */
  ghost predicate Joined(cs: seq<Chunk>) { forall j :: 0 < j < |cs| ==> Meets(cs, j) }

  function FirstPage(e: nat): nat { (e + HSIZE) / PAGESIZE }

  /** Bytes the heap wants at its end for a request: a free tail helps. */
  function ToAllocate(last: Chunk, size: nat): nat {
    if last.used then Request(size) else Request(size) - Min(Request(size), last.size)
  }

  function Wanted(last: Chunk, size: nat): nat { PagesFor(ToAllocate(last, size)) }

  /** Growth leaves pages out of the list: a page not ours interrupts it where pages taken since the last chunk header
      were not yet made a chunk, or it is interrupted a second time. */
  ghost predicate Torn(last: Chunk, e: nat, size: nat, foreign: set<nat>) {
    var p, k := FirstPage(e), Wanted(last, size);
    var q := FirstMapped(foreign, p, k);
    q < p + k && ((last.used && q > p) || !Clear(foreign, LeastFree(foreign, q), PagesFor(Request(size))))
  }

  /** The end of the list after growth that leaves nothing out: plain, or past one chunk that is not ours. */
  ghost function Extended(last: Chunk, e: nat, size: nat, foreign: set<nat>): seq<Chunk> {
    var p, k := FirstPage(e), Wanted(last, size);
    var q := FirstMapped(foreign, p, k);
    if q == p + k then
      if last.used then [last, Chunk(e, k * PAGESIZE, false)] else [last.(size := last.size + k * PAGESIZE)]
    else
      var b := LeastFree(foreign, q);
      var gap := Chunk(e + (q - p) * PAGESIZE, (b - q) * PAGESIZE + HSIZE, true);
      [if last.used then last else last.(size := last.size + (q - p) * PAGESIZE), gap,
       Chunk(gap.End(), PagesFor(Request(size)) * PAGESIZE - HSIZE, false)]
  }

  /** What the loop has: the list so far, its counters, and the mapped pages. */
  datatype Progress = Progress(done: seq<Chunk>, other: Chunk, start: nat, total: int, need: nat, end: nat,
                               mapped: set<nat>)

  /** What is still to allocate after i pages. */
  function Left(need: nat, i: nat): nat { need - Min(need, i * PAGESIZE) }

  /** i pages were taken since page b, the list was wrapped this often, and `gap` says whether pages fell out of it. */
  ghost predicate Standing(last: Chunk, e: nat, size: nat, foreign: set<nat>, g: Progress, b: nat, i: nat, wraps: nat,
                           gap: bool) {
    && g.end + HSIZE == (b + i) * PAGESIZE && b >= FirstPage(e) >= FREE_PAGE
    && Clear(foreign, b, i)
    && Known(foreign, g.mapped, b + i)
    && (Joined(g.done + [g.other]) <==> !gap)
    && if wraps == 0 then Unwrapped(last, e, size, g, b, i) && !gap
       else
         && i > 0 && g.other.used && g.other.End() == g.start == b * PAGESIZE
         && g.total == i * PAGESIZE - HSIZE && g.need == Left(Request(size), i) && i <= PagesFor(Request(size))
         && if wraps == 1 then Once(last, e, size, foreign, g, b, gap) else gap && Torn(last, e, size, foreign)
  }

  ghost predicate Unwrapped(last: Chunk, e: nat, size: nat, g: Progress, b: nat, i: nat) {
    && b == FirstPage(e) && b * PAGESIZE == e + HSIZE && g.done == [] && g.total == i * PAGESIZE && g.start == e
    && last.End() == e
    && g.other == (if last.used then last else last.(size := last.size + i * PAGESIZE))
    && g.need == Left(ToAllocate(last, size), i) && i <= Wanted(last, size)
  }

  /** After one wrap: where it was, and whether it was too late. */
  ghost predicate Once(last: Chunk, e: nat, size: nat, foreign: set<nat>, g: Progress, b: nat, gap: bool) {
    var p, k := FirstPage(e), Wanted(last, size);
    var q := FirstMapped(foreign, p, k);
    && q < p + k && b == LeastFree(foreign, q) && gap == (last.used && q > p)
    && g.done == [if last.used then last else last.(size := last.size + (q - p) * PAGESIZE)]
    && g.other == Chunk(e + (q - p) * PAGESIZE, (b - q) * PAGESIZE + HSIZE, true)
  }

  /** All pages below n are mapped; from n on those that are not the heap's. */
  ghost predicate Known(foreign: set<nat>, mapped: set<nat>, n: nat) {
    && foreign <= mapped
    && (forall x: nat :: FREE_PAGE <= x < n ==> x in mapped)
    && forall x: nat :: n <= x ==> (x in mapped <==> x in foreign)
  }

  lemma TakeStep(last: Chunk, e: nat, size: nat, foreign: set<nat>, g: Progress, b: nat, i: nat, wraps: nat, gap: bool)
    requires Standing(last, e, size, foreign, g, b, i, wraps, gap) && g.need > 0 && b + i !in g.mapped
    ensures var other := if g.other.used then g.other else g.other.(size := g.other.size + PAGESIZE);
      Standing(last, e, size, foreign,
               Progress(g.done, other, g.start, g.total + PAGESIZE, g.need - Min(g.need, PAGESIZE), g.end + PAGESIZE,
                        g.mapped + {b + i}),
               b, i + 1, wraps, gap)
  {
    hide Torn, FirstMapped, LeastFree, PagesFor;
    LeftMeans(ToAllocate(last, size), i);
    LeftMeans(Request(size), i);
    assert wraps == 0 ==> |g.done| == 0;
  }

  lemma LeastSame(foreign: set<nat>, mapped: set<nat>, n: nat)
    requires Known(foreign, mapped, n) && FREE_PAGE <= n && n in mapped
    ensures LeastFree(mapped, FREE_PAGE) == LeastFree(foreign, n) > n
  {
    hide LeastFree;
    var a, b := LeastFree(mapped, FREE_PAGE), LeastFree(foreign, n);
    assert a > n && n in foreign && b >= n;
    assert a in foreign <==> a in mapped;
    assert b in foreign <==> b in mapped;
  }

  /** A mapped page right behind the heap is the first one there. */
  lemma FirstIs(mapped: set<nat>, p: nat, n: nat, i: nat)
    requires Clear(mapped, p, i) && i < n && p + i in mapped
    ensures FirstMapped(mapped, p, n) == p + i
  {
    hide FirstMapped;
    var q := FirstMapped(mapped, p, n);
    assert q < p + i ==> q !in mapped;
  }

  lemma LeftMeans(need: nat, i: nat)
    ensures Left(need, i) > 0 <==> i < PagesFor(need)
  {
  }

  /** Wrapping the mapped pages behind the heap and taking the page after them. */
  ghost function Wrapped(g: Progress, size: nat): Progress {
    var next := LeastFree(g.mapped, FREE_PAGE);
    var wrap := Chunk(g.end, if next * PAGESIZE > g.end then next * PAGESIZE - g.end else 0, true);
    Progress(g.done + [g.other], wrap, wrap.End(), PAGESIZE - HSIZE, Request(size) - Min(Request(size), PAGESIZE),
             if wrap.End() >= HSIZE then wrap.End() - HSIZE + PAGESIZE else 0, g.mapped + {next})
  }

  lemma WrapStep(last: Chunk, e: nat, size: nat, foreign: set<nat>, g: Progress, b: nat, i: nat, wraps: nat, gap: bool)
    requires Standing(last, e, size, foreign, g, b, i, wraps, gap) && g.need > 0 && b + i in g.mapped
    ensures var next := LeastFree(g.mapped, FREE_PAGE);
      && next == LeastFree(foreign, b + i) > b + i
      && Standing(last, e, size, foreign, Wrapped(g, size), next, 1,
                  if wraps == 0 then 1 else 2, wraps > 0 || (last.used && i > 0))
  {
    LeastSame(foreign, g.mapped, b + i);
    if wraps == 0 {
      FirstWrap(last, e, size, foreign, g, b, i);
    } else {
      LaterWrap(last, e, size, foreign, g, b, i, wraps, gap);
    }
  }

  lemma FirstWrap(last: Chunk, e: nat, size: nat, foreign: set<nat>, g: Progress, b: nat, i: nat)
    requires Standing(last, e, size, foreign, g, b, i, 0, false) && g.need > 0 && b + i in g.mapped
    requires LeastFree(g.mapped, FREE_PAGE) == LeastFree(foreign, b + i) > b + i
    ensures Standing(last, e, size, foreign, Wrapped(g, size), LeastFree(foreign, b + i), 1, 1, last.used && i > 0)
  {
    hide LeastFree, FirstMapped, PagesFor, Torn;
    var w := Wrapped(g, size);
    JoinedSnoc([g.other], w.other);
    assert w.done + [w.other] == [g.other] + [w.other];
    LeftMeans(ToAllocate(last, size), i);
    LeftMeans(Request(size), 0);
    FirstIs(foreign, b, Wanted(last, size), i);
  }

  lemma LaterWrap(last: Chunk, e: nat, size: nat, foreign: set<nat>, g: Progress, b: nat, i: nat, wraps: nat, gap: bool)
    requires Standing(last, e, size, foreign, g, b, i, wraps, gap) && wraps > 0 && g.need > 0 && b + i in g.mapped
    requires LeastFree(g.mapped, FREE_PAGE) == LeastFree(foreign, b + i) > b + i
    ensures Standing(last, e, size, foreign, Wrapped(g, size), LeastFree(foreign, b + i), 1, 2, true)
  {
    hide LeastFree, FirstMapped, PagesFor;
    var w := Wrapped(g, size);
    JoinedSnoc(g.done + [g.other], w.other);
    LeftMeans(Request(size), i);
    LeftMeans(Request(size), 0);
    assert !Clear(foreign, b, PagesFor(Request(size)));
  }

  lemma JoinedSnoc(cs: seq<Chunk>, c: Chunk)
    requires cs != []
    ensures Joined(cs + [c]) <==> Joined(cs) && LastOf(cs).End() == c.at
  {
    var t := cs + [c];
    assert Meets(t, |cs|) <==> LastOf(cs).End() == c.at;
    assert forall j :: 0 < j < |cs| ==> Meets(t, j) == Meets(cs, j);
  }

  /** The pages not the heap's that still lie ahead. */
  ghost function Ahead(foreign: set<nat>, p: nat): set<nat> { set x | x in foreign && x >= p }

  lemma Starting(last: Chunk, e: nat, size: nat, foreign: set<nat>)
    requires last.End() == e && e % PAGESIZE == PAGESIZE - HSIZE && FirstPage(e) >= FREE_PAGE && Request(size) > 0
    requires forall x: nat :: FREE_PAGE <= x < FirstPage(e) ==> x in foreign
    ensures Standing(last, e, size, foreign,
                     Progress([], last, e, 0,
                              if last.used then Request(size) else Request(size) - Min(Request(size), last.size),
                              e, foreign),
                     FirstPage(e), 0, 0, false)
    ensures last.used || Min(Request(size), last.size) <= Request(size)
  {
    hide LeastFree, FirstMapped, Torn;
  }

  lemma Less(need: nat)
    ensures Min(need, PAGESIZE) <= need && (need > 0 ==> Min(need, PAGESIZE) > 0)
  {
  }

  lemma WrappedIs(g: Progress, size: nat, page: nat, next: nat)
    requires g.end + HSIZE == page * PAGESIZE && next > page && next == LeastFree(g.mapped, FREE_PAGE)
    ensures var diff := next * PAGESIZE - (g.end + HSIZE);
      && diff >= 0 && Min(Request(size), PAGESIZE) <= Request(size)
      && Wrapped(g, size) == Progress(g.done + [g.other], Chunk(g.end, diff + HSIZE, true), g.end + HSIZE + diff,
           0 - HSIZE as int + PAGESIZE, Request(size) - Min(Request(size), PAGESIZE), g.end + diff + PAGESIZE,
           g.mapped + {next})
  {
    hide LeastFree;
  }

  lemma AheadStep(foreign: set<nat>, p: nat)
    requires p !in foreign
    ensures Ahead(foreign, p) == Ahead(foreign, p + 1)
  {
  }

  lemma AheadJump(foreign: set<nat>, p: nat, q: nat)
    requires p in foreign && p < q
    ensures Ahead(foreign, q) < Ahead(foreign, p)
  {
    assert p in Ahead(foreign, p) && p !in Ahead(foreign, q);
  }

  lemma Finish(last: Chunk, e: nat, size: nat, foreign: set<nat>, g: Progress, b: nat, i: nat, wraps: nat, gap: bool)
    requires Standing(last, e, size, foreign, g, b, i, wraps, gap) && g.need == 0
    ensures g.total >= 0 || !g.other.used
    ensures var chain := g.done + [g.other] + if g.other.used then [Chunk(g.start, g.total, false)] else [];
      && LastOf(chain).End() == g.end
      && (Joined(chain) <==> !Torn(last, e, size, foreign))
      && (Joined(chain) ==> chain == Extended(last, e, size, foreign))
  {
    LeftMeans(ToAllocate(last, size), i);
    LeftMeans(Request(size), i);
    hide FirstMapped, LeastFree, PagesFor;
    if g.other.used && g.total >= 0 {
      JoinedSnoc(g.done + [g.other], Chunk(g.start, g.total, false));
    }
  }

  /** With nothing of others in the way this is the growth of a contiguous heap. */
  lemma PlainIsGrown(last: Chunk, e: nat, size: nat, foreign: set<nat>)
    requires Clear(foreign, FirstPage(e), Wanted(last, size))
    ensures !Torn(last, e, size, foreign) && Extended(last, e, size, foreign) == Grown([last], e, Extra(last, size))
  {
    hide LeastFree;
    assert [last][..0] == [];
  }

  /** After a wrap the fresh chunk lacks a header's worth of bytes: it holds the request if and only if rounding the
      request up to pages left that many over. */
  lemma WrappedFits(last: Chunk, e: nat, size: nat, foreign: set<nat>)
    requires !Clear(foreign, FirstPage(e), Wanted(last, size)) && Request(size) > 0
    ensures LastOf(Extended(last, e, size, foreign)).size >= RealSize(size) <==>
            PagesFor(Request(size)) * PAGESIZE - Request(size) >= HSIZE
  {
    hide LeastFree;
  }
}
