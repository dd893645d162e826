/** The search of `malloc` on the list of chunks, and what it finds: the first free run that is big enough. */
module FirstFit {
  import opened Memory
  import opened ChunkList

  datatype SearchResult = Found(before: seq<Chunk>, hit: Chunk, after: seq<Chunk>) | NotFound(all: seq<Chunk>)

  function Join(c: Chunk, d: Chunk): Chunk { Chunk(c.at, c.size + d.size, c.used) }

  predicate Fits(c: Chunk, need: nat) { !c.used && c.size >= need }

  /** The loop of `malloc` looking at chunk c, with `before` behind it and no previous chunk remembered. */
  function Look(before: seq<Chunk>, c: Chunk, after: seq<Chunk>, need: nat): SearchResult
    decreases |after|, 1
  {
    if Fits(c, need) then Found(before, c, after) else Pass(before, c, after, need)
  }

  /** The same loop once c was too small or in use, and is remembered while the chunk after it is looked at. */
  function Pass(before: seq<Chunk>, c: Chunk, after: seq<Chunk>, need: nat): SearchResult
    decreases |after|, 0
  {
    if after == [] then NotFound(before + [c])
    else if Fits(after[0], need) then Found(before + [c], after[0], after[1..])
    else if !c.used && !after[0].used then Look(before, Join(c, after[0]), after[1..], need)
    else Pass(before + [c], after[0], after[1..], need)
  }

  function Search(cs: seq<Chunk>, need: nat): SearchResult
    requires cs != []
  {
    Look([], cs[0], cs[1..], need)
  }

  // ----- coalescing -----

  /** s with c put at its end, merged into the last chunk when both are free. */
  function Push(s: seq<Chunk>, c: Chunk): seq<Chunk> {
    if s != [] && !s[|s| - 1].used && !c.used then s[..|s| - 1] + [Join(s[|s| - 1], c)] else s + [c]
  }

  /** The list with every run of free chunks made one. */
  function Squeezed(cs: seq<Chunk>): (r: seq<Chunk>)
    ensures cs != [] ==> r != []
  {
    if cs == [] then [] else Push(Squeezed(cs[..|cs| - 1]), cs[|cs| - 1])
  }

  ghost predicate NoFreePair(cs: seq<Chunk>) {
    forall i :: 0 <= i < |cs| - 1 ==> cs[i].used || cs[i + 1].used
  }

  ghost predicate NoneFits(cs: seq<Chunk>, need: nat) {
    forall i :: 0 <= i < |cs| ==> !Fits(cs[i], need)
  }

  function Total(cs: seq<Chunk>): nat {
    if cs == [] then 0 else Total(cs[..|cs| - 1]) + cs[|cs| - 1].size
  }

  ghost predicate FreeRun(cs: seq<Chunk>, i: int, j: int) {
    0 <= i < j <= |cs| && forall x :: i <= x < j ==> !cs[x].used
  }

  lemma {:induction false} SqueezedIsNormal(cs: seq<Chunk>)
    ensures NoFreePair(Squeezed(cs))
    ensures Live(Squeezed(cs)) == Live(cs)
  {
    if cs == [] {
    } else {
      var n := |cs| - 1;
      SqueezedIsNormal(cs[..n]);
      assert cs == cs[..n] + [cs[n]];
      hide Live, NoFreePair, Push;
      LiveAppend(cs[..n], [cs[n]]);
      PushLive(Squeezed(cs[..n]), cs[n]);
      PushNormal(Squeezed(cs[..n]), cs[n]);
    }
  }

  lemma PushNormal(s: seq<Chunk>, c: Chunk)
    requires NoFreePair(s)
    ensures NoFreePair(Push(s, c))
  {
  }

  lemma PushLive(s: seq<Chunk>, c: Chunk)
    ensures Live(Push(s, c)) == Live(s) + Live([c])
  {
    if Push(s, c) == s + [c] {
      LiveAppend(s, [c]);
    } else {
      var n := |s| - 1;
      assert s == s[..n] + [s[n]];
      LiveAppend(s[..n], [s[n]]);
      LiveAppend(s[..n], [Join(s[n], c)]);
    }
  }

  /** A list with no two free neighbours is already squeezed. */
  lemma {:induction false} SqueezedOfNormal(cs: seq<Chunk>)
    requires NoFreePair(cs)
    ensures Squeezed(cs) == cs
  {
    if cs == [] {
    } else {
      var n := |cs| - 1;
      SqueezedOfNormal(cs[..n]);
      assert cs == cs[..n] + [cs[n]];
      assert n > 0 ==> cs[n - 1].used || cs[n - 1 + 1].used;
    }
  }

  lemma SqueezeTwice(cs: seq<Chunk>)
    ensures Squeezed(Squeezed(cs)) == Squeezed(cs)
  {
    SqueezedIsNormal(cs);
    SqueezedOfNormal(Squeezed(cs));
  }

  // ----- squeezing gathers exactly the maximal free runs -----

  /** Bytes in the free run that ends the list. */
  function TailRun(cs: seq<Chunk>): nat {
    if cs == [] || cs[|cs| - 1].used then 0 else TailRun(cs[..|cs| - 1]) + cs[|cs| - 1].size
  }

  lemma {:induction false} LastIsTailRun(cs: seq<Chunk>)
    requires cs != []
    ensures Squeezed(cs)[|Squeezed(cs)| - 1].used == cs[|cs| - 1].used
    ensures !cs[|cs| - 1].used ==> Squeezed(cs)[|Squeezed(cs)| - 1].size == TailRun(cs)
  {
    var n := |cs| - 1;
    if n > 0 {
      LastIsTailRun(cs[..n]);
    } else {
      assert cs[..n] == [];
    }
  }

  lemma {:induction false} RunWithinTail(cs: seq<Chunk>, i: int)
    requires FreeRun(cs, i, |cs|)
    ensures Total(cs[i..]) <= TailRun(cs)
  {
    var n := |cs| - 1;
    assert !cs[n].used;
    assert cs[i..][..n - i] == cs[..n][i..];
    if i < n {
      RunWithinTail(cs[..n], i);
    }
  }

  /** No free chunk of the squeezed list holds `need` bytes exactly when no free run of the list does. */
  lemma {:induction false} NoneFitsMeansNoRun(cs: seq<Chunk>, need: nat, i: int, j: int)
    requires NoneFits(Squeezed(cs), need) && FreeRun(cs, i, j)
    ensures Total(cs[i..j]) < need
  {
    var n := |cs| - 1;
    var s := Squeezed(cs[..n]);
    if j == |cs| {
      assert cs[i..j] == cs[i..] && FreeRun(cs, i, |cs|) && !cs[n].used;
      RunWithinTail(cs, i);
      LastIsTailRun(cs);
      assert !Fits(Squeezed(cs)[|Squeezed(cs)| - 1], need);
    } else {
      SliceOfPrefix(cs, i, j, n);
      PrefixNoneFits(s, cs[n], need);
      NoneFitsMeansNoRun(cs[..n], need, i, j);
    }
  }

  lemma SliceOfPrefix(cs: seq<Chunk>, i: int, j: int, n: int)
    requires 0 <= i <= j <= n <= |cs|
    ensures cs[..n][i..j] == cs[i..j]
  {
  }

  lemma PrefixNoneFits(s: seq<Chunk>, c: Chunk, need: nat)
    requires NoneFits(Push(s, c), need)
    ensures NoneFits(s, need)
  {
    var p := Push(s, c);
    forall x | 0 <= x < |s| ensures !Fits(s[x], need) {
      assert !Fits(p[x], need);
    }
  }

  /** A free run as long as TailRun says ends the list. */
  lemma {:induction false} TailRunExists(cs: seq<Chunk>) returns (i: int)
    requires cs != [] && !cs[|cs| - 1].used
    ensures FreeRun(cs, i, |cs|) && Total(cs[i..]) == TailRun(cs)
  {
    var n := |cs| - 1;
    if n == 0 || cs[n - 1].used {
      i := n;
      assert cs[i..][..0] == [];
      assert n == 0 ==> cs[..n] == [];
      assert Total(cs[i..]) == cs[n].size;
    } else {
      i := TailRunExists(cs[..n]);
      assert cs[i..][..n - i] == cs[..n][i..];
    }
  }

  lemma {:induction false} FitMeansRun(cs: seq<Chunk>, need: nat, x: int) returns (i: int, j: int)
    requires 0 <= x < |Squeezed(cs)| && Fits(Squeezed(cs)[x], need)
    ensures FreeRun(cs, i, j) && Total(cs[i..j]) >= need
  {
    var n := |cs| - 1;
    var s := Squeezed(cs[..n]);
    if x == |Squeezed(cs)| - 1 {
      LastIsTailRun(cs);
      i := TailRunExists(cs);
      j := |cs|;
      assert cs[i..j] == cs[i..];
    } else {
      assert s[x] == Squeezed(cs)[x];
      i, j := FitMeansRun(cs[..n], need, x);
      assert i < j <= n && cs[..n][i..j] == cs[i..j];
      assert forall y :: i <= y < j ==> cs[..n][y] == cs[y];
    }
  }

  /** The squeezed list offers `need` bytes if and only if some free run of the list does. */
  lemma NoneFitsIffNoRun(cs: seq<Chunk>, need: nat)
    ensures NoneFits(Squeezed(cs), need) <==> forall i, j :: FreeRun(cs, i, j) ==> Total(cs[i..j]) < need
  {
    if NoneFits(Squeezed(cs), need) {
      forall i, j | FreeRun(cs, i, j) ensures Total(cs[i..j]) < need {
        NoneFitsMeansNoRun(cs, need, i, j);
      }
    } else {
      var x :| 0 <= x < |Squeezed(cs)| && Fits(Squeezed(cs)[x], need);
      var i, j := FitMeansRun(cs, need, x);
    }
  }

  // ----- what the search returns -----

  /** t is the index of the chunk whose turn completed the first free run of `need` bytes. */
  ghost predicate FirstFitAt(cs: seq<Chunk>, need: nat, t: int, r: SearchResult)
    requires r.Found?
  {
    && 0 <= t < |cs| && !cs[t].used && r.after == cs[t + 1..]
    && NoneFits(Squeezed(cs[..t]), need) && Fits(r.hit, need)
    && ((r.before == Squeezed(cs[..t]) && r.hit == cs[t]) || r.before + [r.hit] == Squeezed(cs[..t + 1]))
  }

  lemma SqueezedStep(cs: seq<Chunk>, t: int)
    requires 0 <= t < |cs|
    ensures Squeezed(cs[..t + 1]) == Push(Squeezed(cs[..t]), cs[t])
  {
    assert cs[..t + 1][..t] == cs[..t];
  }

  lemma {:induction false} PassIsFirstFit(cs: seq<Chunk>, t: int, before: seq<Chunk>, c: Chunk, need: nat)
    requires 1 <= t <= |cs| && before + [c] == Squeezed(cs[..t]) && NoneFits(before + [c], need)
    ensures var r := Pass(before, c, cs[t..], need);
      if r.Found? then exists x :: FirstFitAt(cs, need, x, r)
      else r.all == Squeezed(cs) && NoneFits(r.all, need)
    decreases |cs| - t
  {
    if t == |cs| {
      assert cs[..t] == cs;
    } else {
      var n := cs[t];
      var rest := cs[t..];
      assert rest[1..] == cs[t + 1..];
      SqueezedStep(cs, t);
      assert (before + [c])[|before|] == c;
      if Fits(n, need) {
        assert FirstFitAt(cs, need, t, Pass(before, c, rest, need));
      } else if !c.used && !n.used {
        var j := Join(c, n);
        assert (before + [c])[..|before|] == before;
        assert before + [j] == Squeezed(cs[..t + 1]);
        if Fits(j, need) {
          assert FirstFitAt(cs, need, t, Pass(before, c, rest, need));
        } else {
          assert NoneFits(before + [j], need) by {
            forall x | 0 <= x < |before + [j]| ensures !Fits((before + [j])[x], need) {
              if x < |before| { assert (before + [c])[x] == (before + [j])[x]; }
            }
          }
          PassIsFirstFit(cs, t + 1, before, j, need);
        }
      } else {
        PassIsFirstFit(cs, t + 1, before + [c], n, need);
      }
    }
  }

  /** First fit over coalesced runs: a hit completes the first free run of `need` bytes, and a miss means there
      is none and leaves the list squeezed. */
  lemma SearchIsFirstFit(cs: seq<Chunk>, need: nat)
    requires cs != []
    ensures var r := Search(cs, need);
      if r.Found? then exists x :: FirstFitAt(cs, need, x, r)
      else r.all == Squeezed(cs) && NoneFits(r.all, need)
  {
    SqueezedStep(cs, 0);
    assert cs[..0] == [];
    if Fits(cs[0], need) {
      assert FirstFitAt(cs, need, 0, Search(cs, need));
    } else {
      PassIsFirstFit(cs, 1, [], cs[0], need);
    }
  }

  // ----- the loop's three moves, by index -----

  lemma PassSteps(cs: seq<Chunk>, i: int, need: nat)
    requires 1 <= i < |cs|
    ensures Pass(cs[..i - 1], cs[i - 1], cs[i..], need) ==
            if Fits(cs[i], need) then Found(cs[..i], cs[i], cs[i + 1..])
            else if !cs[i - 1].used && !cs[i].used then Look(cs[..i - 1], Join(cs[i - 1], cs[i]), cs[i + 1..], need)
            else Pass(cs[..i], cs[i], cs[i + 1..], need)
  {
    assert cs[i..][1..] == cs[i + 1..];
    assert cs[..i - 1] + [cs[i - 1]] == cs[..i];
  }

  lemma LookSteps(cs: seq<Chunk>, i: int, need: nat)
    requires 0 <= i < |cs|
    ensures Look(cs[..i], cs[i], cs[i + 1..], need) ==
            if Fits(cs[i], need) then Found(cs[..i], cs[i], cs[i + 1..])
            else Pass(cs[..i], cs[i], cs[i + 1..], need)
    ensures i == 0 ==> Search(cs, need) == Look(cs[..i], cs[i], cs[i + 1..], need)
  {
    assert cs[..0] == [];
  }

  lemma PassEnds(cs: seq<Chunk>, need: nat)
    requires cs != []
    ensures Pass(cs[..|cs| - 1], cs[|cs| - 1], cs[|cs|..], need) == NotFound(cs)
  {
    assert cs[..|cs| - 1] + [cs[|cs| - 1]] == cs;
  }

  /** Chunks i and i + 1 made one. */
  function Merged(cs: seq<Chunk>, i: nat): (r: seq<Chunk>)
    requires i + 1 < |cs|
    ensures |r| == |cs| - 1
  {
    cs[..i] + [Join(cs[i], cs[i + 1])] + cs[i + 2..]
  }

  lemma MergedSlices(cs: seq<Chunk>, i: nat)
    requires i + 1 < |cs|
    ensures Merged(cs, i)[..i] == cs[..i] && Merged(cs, i)[i] == Join(cs[i], cs[i + 1])
    ensures Merged(cs, i)[i + 1..] == cs[i + 2..]
  {
  }

  /** Merging two free neighbours does not change what squeezing makes of the list. */
  lemma {:induction false} SqueezedOfMerged(cs: seq<Chunk>, i: nat)
    requires i + 1 < |cs| && !cs[i].used && !cs[i + 1].used
    ensures Squeezed(Merged(cs, i)) == Squeezed(cs)
    decreases |cs|
  {
    hide Push, Squeezed;
    var n := |cs| - 1;
    var m := Merged(cs, i);
    MergedSlices(cs, i);
    SqueezedStep(m, n - 1);
    SqueezedStep(cs, n);
    assert cs[..n + 1] == cs && m[..n - 1 + 1] == m;
    if i + 1 == n {
      SqueezedStep(cs, i);
      PushTwice(Squeezed(cs[..i]), cs[i], cs[n]);
    } else {
      SqueezedOfMerged(cs[..n], i);
      assert m[..n - 1] == Merged(cs[..n], i) && m[n - 1] == cs[n];
    }
  }

  lemma PushTwice(s: seq<Chunk>, c: Chunk, d: Chunk)
    requires !c.used && !d.used
    ensures Push(Push(s, c), d) == Push(s, Join(c, d))
  {
    if s != [] && !s[|s| - 1].used {
      var l := s[|s| - 1];
      assert Push(s, c)[..|s| - 1] == s[..|s| - 1];
      assert Join(Join(l, c), d) == Join(l, Join(c, d));
    } else {
      assert Push(s, c)[..|s|] == s;
    }
  }

  lemma NormalStarts(cs: seq<Chunk>)
    requires cs != []
    ensures NoFreePair(cs[..1])
  {
  }

  lemma NormalAfterMerge(cs: seq<Chunk>, i: nat)
    requires i + 1 < |cs| && !cs[i].used && NoFreePair(cs[..i + 1])
    ensures NoFreePair(Merged(cs, i)[..i + 1])
  {
    var m := Merged(cs, i)[..i + 1];
    forall x | 0 <= x < |m| - 1 ensures m[x].used || m[x + 1].used {
      assert cs[..i + 1][x].used || cs[..i + 1][x + 1].used;
    }
  }

  lemma NormalExtends(cs: seq<Chunk>, i: nat)
    requires i < |cs| && NoFreePair(cs[..i])
    requires i == 0 || cs[i - 1].used || cs[i].used
    ensures NoFreePair(cs[..i + 1])
  {
    var m := cs[..i + 1];
    forall x | 0 <= x < |m| - 1 ensures m[x].used || m[x + 1].used {
      if x + 1 < i { assert cs[..i][x].used || cs[..i][x + 1].used; }
    }
  }
}
