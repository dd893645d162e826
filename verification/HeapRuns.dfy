/** Runs: any sequence of calls, and of callers writing in their own blocks, from a sound heap. */
module HeapRuns {
  import opened Memory
  import opened Units
  import opened ChunkList
  import opened FirstFit
  import opened HeapSpec
  import opened HeapEdits
  import opened HeapSteps
  import opened HeapResize
  import opened HeapBlocks
  import opened HeapTheorems

  datatype Call = Malloc(size: nat) | Free(v: nat) | Realloc(v: nat, size: nat) | Squeeze | Store(v: nat, m: seq<Byte>)

  /** v points at a block in use. */
  ghost predicate Owns(s: State, v: nat) {
    && HSIZE <= v <= |s.m| && IndexOf(s.cs, v - HSIZE) < |s.cs| && s.cs[IndexOf(s.cs, v - HSIZE)].used
  }

  /** A call a caller may make: pointers it owns, sizes that do not come to nothing in 64 bits, writes inside its
      own block, and no growth that leaves no room for a header. */
  ghost predicate Fair(s: State, c: Call) {
    match c
    case Malloc(size) => size < U64
    case Free(v) => Owns(s, v)
    case Realloc(v, size) =>
      && Owns(s, v) && size < U64
      && var i := IndexOf(s.cs, v - HSIZE); Roomy(s.cs, i, WayFor(s.cs, i, RealSize(size)))
    case Squeeze => true
    case Store(v, m) => Owns(s, v) && SameOutside(s.m, m, v, s.cs[IndexOf(s.cs, v - HSIZE)].End())
  }

  ghost predicate Step(s: State, c: Call, r: Outcome, t: State) {
    && s.cs != [] && Fair(s, c) && r.Done?
    && match c
       case Malloc(size) => MallocStep(s, size, r, t)
       case Free(v) => Pointer(s, v) && FreeStep(s, v, r, t)
       case Realloc(v, size) => Pointer(s, v) && ReallocStep(s, v, size, r, t)
       case Squeeze => SqueezeStep(s, t)
       case Store(v, m) => t == s.(m := m)
  }

  predicate Touches(c: Call, b: Chunk) {
    match c
    case Free(v) => v == b.at + HSIZE
    case Realloc(v, _) => v == b.at + HSIZE
    case Store(v, _) => v == b.at + HSIZE
    case _ => false
  }

  /** b is live in s and t, with the same bytes, header included. */
  ghost predicate Same(s: State, b: Chunk, t: State) {
    b in Live(s.cs) && b in Live(t.cs) && b.End() <= |s.m| == |t.m| && t.m[b.at..b.End()] == s.m[b.at..b.End()]
  }

  lemma OwnedIndex(s: State, v: nat) returns (i: nat)
    requires Sound(s) && Owns(s, v)
    ensures i == IndexOf(s.cs, v - HSIZE) && i < |s.cs| && s.cs[i].used && s.cs[i].at == v - HSIZE
    ensures GetHeader(s.m, s.cs[i].at) == s.cs[i].AsHeader() && s.cs[i] in Live(s.cs)
    ensures multiset(Live(s.cs)) == multiset(Live(s.cs[..i]) + Live(s.cs[i + 1..])) + multiset{s.cs[i]}
  {
    hide Tiles, Live, Payload, GetHeader;
    i := IndexOf(s.cs, v - HSIZE);
    Around(s, i);
    LiveAt(s.cs, i);
    LiveOne(s.cs[i]);
    SplicedCounts(Live(s.cs[..i]), s.cs[i], Live(s.cs[i + 1..]));
  }

  lemma FreeStepKeeps(s: State, v: nat, r: Outcome, t: State)
    requires Sound(s) && s.ready && Owns(s, v) && Pointer(s, v) && FreeStep(s, v, r, t)
    ensures Sound(t) && t.ready
    ensures forall b :: b in Live(s.cs) && b.at + HSIZE != v ==> Same(s, b, t)
  {
    hide Tiles, Live, Payload, Keeps, GetHeader, Freed, Counted;
    var i := OwnedIndex(s, v);
    FreeRemoves(s, i, t);
    AddedCounts(Live(t.cs), s.cs[i], Live(s.cs));
    AddedMembers(Live(t.cs), s.cs[i], Live(s.cs));
    OthersKept(s, s.cs[i], Live(t.cs), t);
  }

  /** The live block b of s is c in t, large enough for `size` bytes, and holds as many first bytes as both allow;
      unless header and request wrap around 64 bits. */
  ghost predicate Reallocated(s: State, b: Chunk, size: nat, c: Chunk, t: State) {
    && Serves(c, size)
    && Transferred(s, b, c, Min(b.size, RealSize(size)) - HSIZE, t)
    && (size + HSIZE < U64 ==> SameBytes(s.m, b.at + HSIZE, t.m, c.at + HSIZE, Min(b.size, size + HSIZE) - HSIZE))
  }

  /** `realloc` hands back a block as large as asked for, with the first bytes of the old one, as many as both sizes
      allow; unless header and request wrap around 64 bits. */
  lemma ReallocStepKeeps(s: State, v: nat, size: nat, r: Outcome, t: State) returns (c: Chunk)
    requires Sound(s) && s.ready && Fair(s, Realloc(v, size)) && Pointer(s, v) && s.cs != []
    requires ReallocStep(s, v, size, r, t) && r.Done?
    ensures Sound(t) && t.ready
    ensures forall b :: b in Live(s.cs) && b.at + HSIZE != v ==> Same(s, b, t)
    ensures c.at + HSIZE == r.p && c in Live(t.cs) && Reallocated(s, s.cs[IndexOf(s.cs, v - HSIZE)], size, c, t)
  {
    hide Tiles, Live, Payload, Counted, ReallocStep, RealSize, Transferred, SameBytes, Serves, Same, Pointer;
    var i := OwnedIndex(s, v);
    c := ReallocTransfers(s, v, size, r, t, i);
    var b, k := s.cs[i], Min(s.cs[i].size, RealSize(size)) - HSIZE;
    TransferKeeps(s, b, c, k, t);
    TransferLive(s, b, c, k, t);
    LiveServes(t, c, size);
    if size + HSIZE < U64 { RealSizeCovers(size); }
    FewerBytes(s, b, c, k, t, Min(b.size, size + HSIZE) - HSIZE);
  }

  lemma ReallocTransfers(s: State, v: nat, size: nat, r: Outcome, t: State, i: nat) returns (c: Chunk)
    requires Sound(s) && s.ready && Fair(s, Realloc(v, size)) && Pointer(s, v) && s.cs != []
    requires ReallocStep(s, v, size, r, t) && r.Done?
    requires i == IndexOf(s.cs, v - HSIZE) && i < |s.cs| && s.cs[i].used && s.cs[i].at == v - HSIZE
    requires GetHeader(s.m, s.cs[i].at) == s.cs[i].AsHeader()
    ensures c.at + HSIZE == r.p && c.size >= RealSize(size)
    ensures Transferred(s, s.cs[i], c, Min(s.cs[i].size, RealSize(size)) - HSIZE, t)
  {
    hide Tiles, Live, Payload, Keeps, GetHeader, Counted, ResizedInPlace, MoveStep, RealSize, Transferred, Serves;
    var need := RealSize(size);
    var w := WayFor(s.cs, i, need);
    Around(s, i);
    if w.Move? {
      var f :| MoveStep(s, i, size, r, f, t);
      MoveIsBig(s, i, size);
      c := MoveTransfers(s, i, size, r.p, f, t);
    } else {
      InPlaceTransfers(s, i, need, w, t);
      c := NewBlock(s.cs, i, need, w);
    }
  }

  lemma RealSizeCovers(size: nat)
    requires size + HSIZE < U64
    ensures RealSize(size) >= size + HSIZE
  {
  }

  lemma TransferLive(s: State, b: Chunk, c: Chunk, k: int, t: State)
    requires b in Live(s.cs) && Transferred(s, b, c, k, t)
    ensures c in Live(t.cs)
  {
    hide Live, Sound, SameBytes;
    assert c in multiset(Live(s.cs)) + multiset{c};
    if b == c {
      assert multiset(Live(t.cs)) == multiset(Live(t.cs)) + multiset{b} - multiset{b};
      assert multiset(Live(s.cs)) == multiset(Live(s.cs)) + multiset{c} - multiset{c};
    }
  }

  lemma FewerBytes(s: State, b: Chunk, c: Chunk, k: int, t: State, n: int)
    requires Transferred(s, b, c, k, t)
    ensures n <= k ==> SameBytes(s.m, b.at + HSIZE, t.m, c.at + HSIZE, n)
  {
    hide Live, Sound;
  }

  /** A request of 2^64 - 1 bytes comes to 0x20 with its header: a larger block is cut down to 24 bytes by it. */
  lemma WrappedRequest(cs: seq<Chunk>, i: nat)
    requires i < |cs| && cs[i].used && cs[i].size >= 2 * MINSIZE
    ensures RealSize(U64 - 1) == MINSIZE
    ensures var w := WayFor(cs, i, RealSize(U64 - 1));
      (w.Cut? || w.Give?) && NewBlock(cs, i, RealSize(U64 - 1), w) == Chunk(cs[i].at, MINSIZE, true)
  {
    assert Request(U64 - 1) == 7;
  }

  lemma TransferKeeps(s: State, b: Chunk, c: Chunk, k: int, t: State)
    requires Sound(s) && b in Live(s.cs) && Transferred(s, b, c, k, t)
    ensures Sound(t) && t.ready
    ensures forall d :: d in Live(s.cs) && d.at != b.at ==> Same(s, d, t)
  {
    hide Tiles, Live, Payload, GetHeader, Counted, SameBytes;
  }

  lemma SameLiveKeeps(s: State, t: State)
    requires Sound(s) && Keeps(s.m, t.m, Live(s.cs)) && forall b :: b in Live(s.cs) ==> b in Live(t.cs)
    ensures forall b :: b in Live(s.cs) ==> Same(s, b, t)
  {
    hide Tiles, Live, Payload, Keeps, Counted;
    forall b | b in Live(s.cs) ensures Same(s, b, t) {
      LiveDisjoint(s, b, b);
      KeepsLength(s.m, t.m, Live(s.cs));
      KeepsOne(s.m, t.m, Live(s.cs), b);
    }
  }

  lemma MallocStepKeeps(s: State, size: nat, r: Outcome, t: State)
    requires Sound(s) && s.ready && MallocStep(s, size, r, t) && r.Done?
    ensures Sound(t) && t.ready
    ensures forall b :: b in Live(s.cs) ==> Same(s, b, t)
  {
    hide Tiles, Live, Payload, Keeps, Counted, Planned;
    if size == 0 {
      KeepsSelf(s.m, Live(s.cs));
    } else {
      MallocAdds(s, size, r.p, t);
      var c: Chunk :| c.at + HSIZE == r.p && c.used && c.size >= RealSize(size) && Added(Live(s.cs), c, Live(t.cs));
      AddedMembers(Live(s.cs), c, Live(t.cs));
    }
    SameLiveKeeps(s, t);
  }

  lemma StoreKeeps(s: State, v: nat, m: seq<Byte>)
    requires Sound(s) && Fair(s, Store(v, m))
    ensures Sound(s.(m := m))
    ensures forall b :: b in Live(s.cs) && b.at + HSIZE != v ==> Same(s, b, s.(m := m))
  {
    hide Tiles, Live, Payload, Keeps, Counted, GetHeader;
    var i := OwnedIndex(s, v);
    OwnerWrites(s, i, m);
    OthersKept(s, s.cs[i], Live(s.cs[..i]) + Live(s.cs[i + 1..]), s.(m := m));
  }

  lemma SqueezeKeeps(s: State, t: State)
    requires Sound(s) && s.ready && SqueezeStep(s, t)
    ensures Sound(t) && t.ready && NoFreePair(t.cs) && Squeezed(t.cs) == t.cs && Live(t.cs) == Live(s.cs)
    ensures forall b :: b in Live(s.cs) ==> Same(s, b, t)
  {
    hide Tiles, Live, Payload, Keeps, Counted, Squeezed, NoFreePair;
    SqueezedIsNormal(s.cs);
    SqueezeTwice(s.cs);
    SameLiveKeeps(s, t);
  }

  /** One call keeps the invariant and every block it does not name. */
  lemma StepKeeps(s: State, c: Call, r: Outcome, t: State)
    requires Sound(s) && s.ready && Step(s, c, r, t)
    ensures Sound(t) && t.ready
    ensures forall b :: b in Live(s.cs) && !Touches(c, b) ==> Same(s, b, t)
  {
    hide Tiles, Live, Payload, Keeps, Counted, MallocStep, FreeStep, ReallocStep, SqueezeStep, Same, Fair,
         HeapSpec.Tiled;
    match c
    case Malloc(size) => MallocStepKeeps(s, size, r, t);
    case Free(v) => OwnsFair(s, c); FreeStepKeeps(s, v, r, t);
    case Realloc(v, size) => var _ := ReallocStepKeeps(s, v, size, r, t);
    case Squeeze => SqueezeKeeps(s, t);
    case Store(v, m) => StoreKeeps(s, v, m);
  }

  lemma OwnsFair(s: State, c: Call)
    requires Fair(s, c) && c.Free?
    ensures Owns(s, c.v)
  {
  }

  /** The states ss visited by the calls, each of which returned. */
  ghost predicate Run(ss: seq<State>, calls: seq<Call>, rs: seq<Outcome>) {
    && |ss| == |calls| + 1 && |rs| == |calls|
    && forall x :: 0 <= x < |calls| ==> Step(ss[x], calls[x], rs[x], ss[x + 1])
  }

  /** At every point of every run the chunks tile the heap and the totals are right. */
  lemma {:induction false} RunSound(ss: seq<State>, calls: seq<Call>, rs: seq<Outcome>)
    requires Run(ss, calls, rs) && Sound(ss[0]) && ss[0].ready
    ensures forall x :: 0 <= x <= |calls| ==> Sound(ss[x]) && ss[x].ready
    decreases |calls|
  {
    hide Step, Sound;
    if calls == [] {
    } else {
      var n := |calls| - 1;
      RunSound(ss[..n + 1], calls[..n], rs[..n]);
      assert ss[..n + 1][n] == ss[n];
      StepKeeps(ss[n], calls[n], rs[n], ss[n + 1]);
      assert forall x :: 0 <= x <= n ==> ss[x] == ss[..n + 1][x];
    }
  }

  /** In particular at every point of every run that starts where `init` leaves the heap. */
  lemma RunFromInit(ss: seq<State>, calls: seq<Call>, rs: seq<Outcome>, page: nat)
    requires Run(ss, calls, rs) && Initial(ss[0], page)
    ensures forall x :: 0 <= x <= |calls| ==> Sound(ss[x]) && ss[x].ready
  {
    hide Step, Sound, Initial;
    InitialSound(ss[0], page);
    RunSound(ss, calls, rs);
  }

  /** A block live at any point k of a run that no call names up to a point j is then where it was, with the bytes
      it had. */
  lemma {:induction false} RunKeeps(ss: seq<State>, calls: seq<Call>, rs: seq<Outcome>, k: nat, j: nat, b: Chunk)
    requires Run(ss, calls, rs) && Sound(ss[0]) && ss[0].ready && k <= j <= |calls|
    requires b in Live(ss[k].cs) && forall x :: k <= x < j ==> !Touches(calls[x], b)
    ensures Same(ss[k], b, ss[j])
    decreases j
  {
    hide Tiles, Live, Step, Sound;
    RunSound(ss, calls, rs);
    if j == k {
      LiveBounds(ss[k], b);
    } else {
      RunKeeps(ss, calls, rs, k, j - 1, b);
      StepKeeps(ss[j - 1], calls[j - 1], rs[j - 1], ss[j - 1 + 1]);
    }
  }

  lemma LiveBounds(s: State, b: Chunk)
    requires Sound(s) && b in Live(s.cs)
    ensures b.End() <= |s.m|
  {
    hide Live, Payload, Tiles, Counted;
    LiveDisjoint(s, b, b);
  }

  // ----- free -----

  lemma DrainedFacts(cs: seq<Chunk>, i: nat)
    requires i < |cs|
    ensures var d := Drained(Unused(cs, i), i);
      && i < |d| && d[..i] == cs[..i] && d[i + 1..] == cs[RunEnd(cs, i + 1)..]
      && !d[i].used && d[i].at == cs[i].at
  {
    hide Drained, RunEnd, Total;
    var u := Unused(cs, i);
    UnusedSlices(cs, i);
    DrainedShape(u, i);
    UnusedRunEnd(cs, i, i + 1);
    var j := RunEnd(cs, i + 1);
    assert u[j..] == cs[j..] && u[..i] == cs[..i];
  }

  /** What freeing chunk i leaves: the chunk with all the free ones after it, cut to less than a page at the heap's
      end, where it vanishes when pages are all it holds; the first chunk never does. */
  lemma FreeNormalForm(s: State, i: nat, t: State)
    requires Sound(s) && i < |s.cs| && s.cs[i].used && Freed(s, i, t)
    ensures t.mapped == s.mapped - PageRange(t.end + HSIZE, s.end + HSIZE)
    ensures i <= |t.cs| && t.cs[..i] == s.cs[..i]
    ensures i + 1 < |t.cs| ==> t.cs[i + 1].used && t.cs[i + 1..] == s.cs[RunEnd(s.cs, i + 1)..]
    ensures i < |t.cs| ==> !t.cs[i].used && t.cs[i].at == s.cs[i].at
    ensures i == |t.cs| - 1 ==> t.cs[i].size < PAGESIZE
    ensures i == |t.cs| ==> i > 0 && t.end == s.cs[i].at
  {
    hide Tiles, Live, Payload, Keeps, GetHeader, Drained, Unused, RunEnd;
    UnusedSlices(s.cs, i);
    var d := Drained(Unused(s.cs, i), i);
    DrainedFacts(s.cs, i);
    Around(s, i);
    assert d[..i] + [] == d[..i];
    if i + 1 < |d| {
      assert d[i + 1] == d[i + 1..][0];
    }
  }

  lemma {:induction false} UnusedRunEnd(cs: seq<Chunk>, i: nat, j: nat)
    requires i < j <= |cs|
    ensures RunEnd(Unused(cs, i), j) == RunEnd(cs, j)
    decreases |cs| - j
  {
    if j < |cs| && !cs[j].used {
      UnusedRunEnd(cs, i, j + 1);
    }
  }
}
