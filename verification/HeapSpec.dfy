/** What each heap operation does to the list of chunks and to the heap's end, without the headers or the loops. */
module HeapSpec {
  import opened Memory
  import opened Units
  import opened ChunkList
  import opened FirstFit

  const ADDRESS_LIMIT: nat := 0x8000_0000_0000
  const NULL: nat := 0

  /** `size + sizeof(ChunkHeader)` in 64 bits. */
  function Request(size: nat): nat { (size + HSIZE) % U64 }

  function RealSize(size: nat): (r: nat)
    ensures r >= MINSIZE
  {
    if Request(size) < MINSIZE then MINSIZE else Request(size)
  }

  function PagesFor(n: nat): nat { (n + PAGESIZE - 1) / PAGESIZE }

  function LastOf(cs: seq<Chunk>): Chunk
    requires cs != []
  {
    cs[|cs| - 1]
  }

  /** Bytes of new pages the heap takes for a request when `last` is its last chunk. */
  function Extra(last: Chunk, size: nat): nat {
    PAGESIZE * PagesFor(if last.used then Request(size) else Request(size) - Min(Request(size), last.size))
  }

  /** The list once the heap has taken n more bytes at its end e. */
  function Grown(cs: seq<Chunk>, e: nat, n: nat): (r: seq<Chunk>)
    requires cs != []
    ensures r != []
  {
    if LastOf(cs).used then cs + [Chunk(e, n, false)]
    else cs[..|cs| - 1] + [LastOf(cs).(size := LastOf(cs).size + n)]
  }

  /** Chunk i put to use for `need` bytes, the rest split off when it can stand as a chunk. */
  function Carved(cs: seq<Chunk>, i: nat, need: nat): seq<Chunk>
    requires i < |cs| && need <= cs[i].size
  {
    var c := cs[i];
    cs[..i]
    + (if c.size - need >= MINSIZE then [Chunk(c.at, need, true), Chunk(c.at + need, c.size - need, false)]
       else [c.(used := true)])
    + cs[i + 1..]
  }

  /** The first chunk from j on that is in use, or the end of the list. */
  function RunEnd(cs: seq<Chunk>, j: nat): (r: nat)
    requires j <= |cs|
    ensures j <= r <= |cs| && (r < |cs| ==> cs[r].used)
    ensures forall x :: j <= x < r ==> !cs[x].used
    decreases |cs| - j
  {
    if j == |cs| || cs[j].used then j else RunEnd(cs, j + 1)
  }

  // ----- states and outcomes -----

  /** How a call ends: with a pointer, in `halt()`, on a page the heap could not extend into, or with an empty block
      put behind the heap, about to split it by a header in a page that is not the heap's. */
  datatype Outcome = Done(p: nat) | Halted | MapFailed | Overrun

  predicate PageIn(p: int, lo: nat, hi: nat) { lo / PAGESIZE <= p < hi / PAGESIZE }

  /** The pages whose addresses lie in [lo, hi). */
  function PageRange(lo: nat, hi: nat): set<nat> {
    set p: nat | lo / PAGESIZE <= p < hi / PAGESIZE && PageIn(p, lo, hi)
  }

  /** Memory, the allocator's globals, the mapped pages, and the chunks the headers spell out. */
  datatype State = State(m: seq<Byte>, first: nat, end: nat, memUsed: nat, memAllocated: nat,
                         ready: bool, mapped: set<nat>, cs: seq<Chunk>)

  ghost predicate Tiled(s: State) {
    && s.end + HSIZE <= |s.m| <= ADDRESS_LIMIT && 0 < s.first < s.end && s.cs != []
    && Tiles(s.m, s.cs, s.first, s.end, s.end)
  }

  ghost predicate Counted(s: State) {
    && s.first % PAGESIZE == 0 && s.end % PAGESIZE == PAGESIZE - HSIZE && s.first < s.end
    && s.memUsed == s.end + HSIZE - s.first
    && s.memAllocated == Payload(s.cs)
    && PageRange(s.first, s.end + HSIZE) <= s.mapped
  }

  /** The heap's invariant. */
  ghost predicate Sound(s: State) { Tiled(s) && Counted(s) }

  /** The heap as `init` leaves it: one free chunk over the page at `page`. */
  ghost predicate Initial(s: State, page: nat) {
    && 0 < page && page % PAGESIZE == 0 && page + PAGESIZE <= |s.m| <= ADDRESS_LIMIT && page / PAGESIZE in s.mapped
    && s.first == page && s.end == page + PAGESIZE - HSIZE && s.memUsed == PAGESIZE && s.memAllocated == 0 && s.ready
    && s.cs == [Chunk(page, PAGESIZE - HSIZE, false)] && GetHeader(s.m, page) == s.cs[0].AsHeader()
  }

  /** Where `malloc` puts a request: chunk i of a list over a heap ending at `end`; Stuck when the free tail
      cannot be used and is not grown either, Empty when nothing is taken behind a last chunk in use. */
  datatype Plan = Place(list: seq<Chunk>, i: nat, end: nat) | Stuck(list: seq<Chunk>) | Empty(list: seq<Chunk>)

  function Planned(cs: seq<Chunk>, e: nat, size: nat): (p: Plan)
    requires cs != []
    ensures p.Place? ==> p.i < |p.list| && Fits(p.list[p.i], RealSize(size)) && e <= p.end
  {
    match Search(cs, RealSize(size))
    case Found(before, hit, after) =>
      SearchHitFits(cs, RealSize(size));
      Place(before + [hit] + after, |before|, e)
    case NotFound(all) =>
      SearchIsFirstFit(cs, RealSize(size));
      PlannedAtEnd(all, e, size)
  }

  /** The plan once the whole list `all` was searched in vain. */
  function PlannedAtEnd(all: seq<Chunk>, e: nat, size: nat): (p: Plan)
    requires all != []
    ensures p.Place? ==> p.i < |p.list| && Fits(p.list[p.i], RealSize(size)) && e <= p.end
  {
    var n := Extra(LastOf(all), size);
    var g := Grown(all, e, n);
    if Request(size) == 0 && LastOf(all).used then Empty(all)
    else if LastOf(g).size < RealSize(size) then Stuck(all)
    else Place(g, |g| - 1, e + n)
  }

  lemma SearchHitFits(cs: seq<Chunk>, need: nat)
    requires cs != [] && Search(cs, need).Found?
    ensures Fits(Search(cs, need).hit, need)
  {
    SearchIsFirstFit(cs, need);
  }

  ghost predicate CanMap(s: State, end: nat) {
    end + HSIZE <= |s.m| && PageRange(s.end + HSIZE, end + HSIZE) !! s.mapped
  }

  /** The index of the chunk at address a, or the length of the list. */
  function IndexOf(cs: seq<Chunk>, a: int): (i: nat)
    ensures i <= |cs| && (i < |cs| ==> cs[i].at == a)
    ensures i == |cs| ==> forall x :: 0 <= x < |cs| ==> cs[x].at != a
  {
    if cs == [] || cs[0].at == a then 0 else 1 + IndexOf(cs[1..], a)
  }

  /** A pointer a caller may pass: readable, and where its header carries the magic value it is a chunk's. */
  ghost predicate Pointer(s: State, v: nat) {
    v != NULL ==>
      && HSIZE <= v <= |s.m|
      && (GetHeader(s.m, v - HSIZE).magic == MAGIC ==> IndexOf(s.cs, v - HSIZE) < |s.cs|)
  }

  /** The header of a block without even room for itself. */
  function EmptyBlock(): Header { Header(0, MAGIC, true, false) }

  /** What `malloc` does to a sound heap. */
  ghost predicate MallocStep(s: State, size: nat, r: Outcome, t: State)
    requires s.cs != []
  {
    if !s.ready || size == 0 then r == Done(NULL) && t == s
    else
      match Planned(s.cs, s.end, size)
      case Stuck(list) =>
        && r == Halted && Sound(t) && Keeps(s.m, t.m, Live(s.cs))
        && t == s.(m := t.m, cs := list, ready := false)
      case Empty(list) =>
        && r == Overrun && Sound(t) && Keeps(s.m, t.m, Live(s.cs))
        && s.end + HSIZE <= |t.m| && GetHeader(t.m, s.end) == EmptyBlock()
        && t == s.(m := t.m, cs := list, ready := false)
      case Place(list, i, end) =>
        if CanMap(s, end) then
          && r == Done(list[i].at + HSIZE) && Sound(t) && Keeps(s.m, t.m, Live(s.cs))
          && t == s.(m := t.m, end := end, memUsed := t.memUsed, memAllocated := t.memAllocated,
                     mapped := s.mapped + PageRange(s.end + HSIZE, end + HSIZE), cs := Carved(list, i, RealSize(size)))
        else r == MapFailed && !t.ready
  }

  // ----- free -----

  /** Chunk i with all the free chunks right after it merged in. */
  function Drained(cs: seq<Chunk>, i: nat): (r: seq<Chunk>)
    requires i < |cs|
    decreases |cs|
  {
    if i + 1 < |cs| && !cs[i + 1].used then MergedAt(cs, i); Drained(Merged(cs, i), i) else cs
  }

  lemma MergedAt(cs: seq<Chunk>, i: nat)
    requires i + 1 < |cs|
    ensures Merged(cs, i)[i] == Join(cs[i], cs[i + 1]) && |Merged(cs, i)| == |cs| - 1
  {
  }

  /** The list after chunk i is given back. */
  function Unused(cs: seq<Chunk>, i: nat): seq<Chunk>
    requires i < |cs|
  {
    cs[..i] + [cs[i].(used := false)] + cs[i + 1..]
  }

  /** Whole pages at the end of the heap go back when its last chunk, at index i, is free and holds any. */
  function TrimmedEnd(cs: seq<Chunk>, i: nat, e: nat): nat
    requires i < |cs|
  {
    if i == |cs| - 1 && cs[i].size >= PAGESIZE then cs[i].at + cs[i].size % PAGESIZE else e
  }

  function Trimmed(cs: seq<Chunk>, i: nat): seq<Chunk>
    requires i < |cs|
  {
    if i == |cs| - 1 && cs[i].size >= PAGESIZE then
      cs[..i] + if cs[i].size % PAGESIZE == 0 then [] else [cs[i].(size := cs[i].size % PAGESIZE)]
    else cs
  }

  lemma {:induction false} DrainedShape(cs: seq<Chunk>, i: nat)
    requires i < |cs| && !cs[i].used
    ensures var d, j := Drained(cs, i), RunEnd(cs, i + 1);
      d == cs[..i] + [Chunk(cs[i].at, Total(cs[i..j]), false)] + cs[j..]
    decreases |cs|
  {
    if i + 1 < |cs| && !cs[i + 1].used {
      DrainedShape(Merged(cs, i), i);
      DrainedShapeStep(cs, i);
    } else {
      assert cs[i..i + 1] == [cs[i]];
      assert [cs[i]][..0] == [];
      assert Total([cs[i]]) == cs[i].size;
      assert cs == cs[..i] + [cs[i]] + cs[i + 1..];
    }
  }

  lemma DrainedShapeStep(cs: seq<Chunk>, i: nat)
    requires i + 1 < |cs| && !cs[i].used && !cs[i + 1].used
    ensures var m, j := Merged(cs, i), RunEnd(cs, i + 1);
      && j >= i + 2 && RunEnd(m, i + 1) == j - 1 && m[j - 1..] == cs[j..] && m[..i] == cs[..i]
      && Total(m[i..j - 1]) == Total(cs[i..j]) && !m[i].used && m[i].at == cs[i].at
  {
    var m, j := Merged(cs, i), RunEnd(cs, i + 1);
    MergedAt(cs, i);
    assert m[i + 1..] == cs[i + 2..] && m[..i] == cs[..i];
    assert j == RunEnd(cs, i + 2);
    hide Merged, Total, RunEnd;
    SameSuffixAt(m, cs, i + 1);
    RunEndShift(cs, m, i + 2);
    MergedTotal(cs, m, i, j);
    SameSuffix(m, cs, i + 1, j - i - 2);
  }

  lemma SameSuffix(m: seq<Chunk>, cs: seq<Chunk>, a: nat, n: nat)
    requires |cs| == |m| + 1 && a + n <= |m| && m[a..] == cs[a + 1..]
    ensures m[a + n..] == cs[a + 1 + n..]
  {
    assert m[a + n..] == m[a..][n..];
    assert cs[a + 1 + n..] == cs[a + 1..][n..];
  }

  lemma SameSuffixAt(m: seq<Chunk>, cs: seq<Chunk>, a: nat)
    requires |cs| == |m| + 1 && a <= |m| && m[a..] == cs[a + 1..]
    ensures forall x :: a + 1 <= x < |cs| ==> m[x - 1] == cs[x]
  {
    forall x | a + 1 <= x < |cs| ensures m[x - 1] == cs[x] {
      assert m[x - 1] == m[a..][x - 1 - a] && cs[x] == cs[a + 1..][x - 1 - a];
    }
  }

  lemma MergedTotal(cs: seq<Chunk>, m: seq<Chunk>, i: nat, j: nat)
    requires i + 2 <= j <= |cs| == |m| + 1 && m[i] == Join(cs[i], cs[i + 1]) && m[i + 1..] == cs[i + 2..]
    ensures Total(m[i..j - 1]) == Total(cs[i..j])
  {
    hide Total;
    TotalFirst(cs[i..j]);
    TotalFirst(cs[i + 1..j]);
    TotalFirst(m[i..j - 1]);
    assert cs[i..j][1..] == cs[i + 1..j] && cs[i + 1..j][1..] == cs[i + 2..j];
    assert m[i..j - 1][1..] == m[i + 1..][..j - i - 2] == cs[i + 2..][..j - i - 2] == cs[i + 2..j];
  }

  lemma {:induction false} RunEndShift(cs: seq<Chunk>, m: seq<Chunk>, j: nat)
    requires 1 <= j <= |cs| && |m| == |cs| - 1 && forall x :: j <= x < |cs| ==> m[x - 1] == cs[x]
    ensures RunEnd(m, j - 1) == RunEnd(cs, j) - 1
    decreases |cs| - j
  {
    if j < |cs| && !cs[j].used {
      RunEndShift(cs, m, j + 1);
    }
  }

  lemma {:induction false} TotalFirst(cs: seq<Chunk>)
    requires cs != []
    ensures Total(cs) == cs[0].size + Total(cs[1..])
  {
    var n := |cs| - 1;
    if n > 0 {
      TotalFirst(cs[..n]);
      assert cs[..n][1..] == cs[1..][..n - 1];
    } else {
      assert cs[..0] == [];
    }
  }

  /** What `free` does to a sound heap. */
  ghost predicate FreeStep(s: State, v: nat, r: Outcome, t: State)
    requires Pointer(s, v)
  {
    if !s.ready || v == NULL then r == Done(NULL) && t == s
    else
      var h := GetHeader(s.m, v - HSIZE);
      if h.magic != MAGIC || !h.used then r == Halted && t == s.(ready := false)
      else r == Done(NULL) && Freed(s, IndexOf(s.cs, v - HSIZE), t)
  }

  ghost predicate Freed(s: State, i: nat, t: State)
    requires i < |s.cs|
  {
    var cs := Drained(Unused(s.cs, i), i);
    && i < |cs|
    && var end := TrimmedEnd(cs, i, s.end);
    && Sound(t) && Keeps(s.m, t.m, Live(s.cs[..i]) + Live(s.cs[i + 1..]))
    && t == s.(m := t.m, end := end, memUsed := t.memUsed, memAllocated := t.memAllocated,
               mapped := s.mapped - PageRange(end + HSIZE, s.end + HSIZE), cs := Trimmed(cs, i))
  }

  /** What `squeeze` does to a sound heap. */
  ghost predicate SqueezeStep(s: State, t: State) {
    && t == s.(m := t.m, cs := Squeezed(s.cs))
    && Sound(t) && Keeps(s.m, t.m, Live(s.cs))
  }
}
