/** The implicit chunk list: how headers in memory tile the heap, and what editing a stretch of it keeps. */
module ChunkList {
  import opened Memory

  const MINSIZE: nat := 0x20

  datatype Chunk = Chunk(at: nat, size: nat, used: bool) {
    function End(): nat { at + size }

    function AsHeader(): Header { Header(size, MAGIC, used, false) }
  }

  /** c is a chunk of a heap ending at e. Only the last one may be shorter than its header. */
  ghost predicate ChunkOk(m: seq<Byte>, c: Chunk, e: nat) {
    && 1 <= c.size
    && (HSIZE <= c.size || c.End() == e)
    && (c.used ==> MINSIZE <= c.size)
    && c.at + HSIZE <= |m|
    && GetHeader(m, c.at) == c.AsHeader()
  }

  /** The headers in m lay the chunks cs end to end over [lo, hi). */
  ghost predicate Tiles(m: seq<Byte>, cs: seq<Chunk>, lo: nat, hi: nat, e: nat) {
    if cs == [] then lo == hi
    else cs[0].at == lo && ChunkOk(m, cs[0], e) && cs[0].End() <= hi && Tiles(m, cs[1..], cs[0].End(), hi, e)
  }

  /** The allocated chunks, in address order. */
  function Live(cs: seq<Chunk>): (r: seq<Chunk>) {
    if cs == [] then [] else (if cs[0].used then [cs[0]] else []) + Live(cs[1..])
  }

  /** Address k lies in one of the chunks. */
  predicate Covers(cs: seq<Chunk>, k: int) {
    cs != [] && (cs[0].at <= k < cs[0].End() || Covers(cs[1..], k))
  }

  /** Bytes handed out to callers. */
  function Payload(cs: seq<Chunk>): nat {
    if cs == [] then 0 else (if cs[0].used && cs[0].size >= HSIZE then cs[0].size - HSIZE else 0) + Payload(cs[1..])
  }

  /** The bytes of the chunks cs are the same in m and m2. */
  ghost predicate Keeps(m: seq<Byte>, m2: seq<Byte>, cs: seq<Chunk>) {
    |m| == |m2| && forall k :: 0 <= k < |m| && Covers(cs, k) ==> m2[k] == m[k]
  }

  /** Where the headers of chunks tiling up to hi may still reach: past the end only for the last chunk. */
  function Reach(hi: nat, e: nat): nat { if hi == e then e + HSIZE else hi }

  // ----- append and split -----

  lemma Assoc(a: seq<Chunk>, b: seq<Chunk>, c: seq<Chunk>)
    ensures (a + b) + c == a + (b + c)
  {
  }

  lemma {:induction false} LiveAppend(a: seq<Chunk>, b: seq<Chunk>)
    ensures Live(a + b) == Live(a) + Live(b)
  {
    if a == [] {
      assert a + b == b;
    } else {
      LiveAppend(a[1..], b);
      assert (a + b)[1..] == a[1..] + b && (a + b)[0] == a[0];
      Assoc(if a[0].used then [a[0]] else [], Live(a[1..]), Live(b));
    }
  }

  lemma {:induction false} PayloadAppend(a: seq<Chunk>, b: seq<Chunk>)
    ensures Payload(a + b) == Payload(a) + Payload(b)
  {
    if a == [] {
      assert a + b == b;
    } else {
      PayloadAppend(a[1..], b);
      assert (a + b)[1..] == a[1..] + b;
    }
  }

  lemma {:induction false} CoversAppend(a: seq<Chunk>, b: seq<Chunk>, k: int)
    ensures Covers(a + b, k) <==> Covers(a, k) || Covers(b, k)
  {
    if a == [] {
      assert a + b == b;
    } else {
      CoversAppend(a[1..], b, k);
      assert (a + b)[1..] == a[1..] + b;
    }
  }

  lemma {:induction false} TilesAppend(m: seq<Byte>, a: seq<Chunk>, b: seq<Chunk>, lo: nat, mid: nat, hi: nat, e: nat)
    requires Tiles(m, a, lo, mid, e) && Tiles(m, b, mid, hi, e) && mid <= hi
    ensures Tiles(m, a + b, lo, hi, e)
  {
    hide ChunkOk;
    if a == [] {
      assert a + b == b;
    } else {
      TilesAppend(m, a[1..], b, a[0].End(), mid, hi, e);
      assert (a + b)[1..] == a[1..] + b;
    }
  }

  /** Where chunk i starts, or hi past the last one. */
  function StartOf(cs: seq<Chunk>, i: nat, hi: nat): nat
    requires i <= |cs|
  {
    if i < |cs| then cs[i].at else hi
  }

  lemma {:induction false} TilesSplit(m: seq<Byte>, cs: seq<Chunk>, i: nat, lo: nat, hi: nat, e: nat)
    requires i <= |cs| && Tiles(m, cs, lo, hi, e)
    ensures lo <= StartOf(cs, i, hi) <= hi
    ensures Tiles(m, cs[..i], lo, StartOf(cs, i, hi), e)
    ensures Tiles(m, cs[i..], StartOf(cs, i, hi), hi, e)
  {
    hide ChunkOk;
    if i == 0 {
      assert cs[..i] == [] && cs[i..] == cs;
      TilesBounds(m, cs, lo, hi, e);
    } else {
      TilesSplit(m, cs[1..], i - 1, cs[0].End(), hi, e);
      assert cs[..i][1..] == cs[1..][..i - 1] && cs[1..][i - 1..] == cs[i..];
    }
  }

  lemma {:induction false} TilesBounds(m: seq<Byte>, cs: seq<Chunk>, lo: nat, hi: nat, e: nat)
    requires Tiles(m, cs, lo, hi, e)
    ensures lo <= hi
  {
    hide ChunkOk;
    if cs == [] {
    } else {
      TilesBounds(m, cs[1..], cs[0].End(), hi, e);
    }
  }

  // ----- frames -----

  lemma {:induction false} TilesFrame(m: seq<Byte>, m2: seq<Byte>, cs: seq<Chunk>, lo: nat, hi: nat, e: nat)
    requires Tiles(m, cs, lo, hi, e) && hi <= e && |m| == |m2|
    requires forall k :: lo <= k < Reach(hi, e) && k < |m| ==> m2[k] == m[k]
    ensures Tiles(m2, cs, lo, hi, e)
  {
    if cs == [] {
    } else {
      HeaderFrame(m, m2, cs[0].at);
      TilesFrame(m, m2, cs[1..], cs[0].End(), hi, e);
    }
  }

  /** Unless the last chunk is too short for its header, the chunks do not depend on where the heap ends. */
  lemma {:induction false} TilesNewEnd(m: seq<Byte>, cs: seq<Chunk>, lo: nat, hi: nat, e: nat, e2: nat)
    requires Tiles(m, cs, lo, hi, e) && hi <= e
    requires hi < e || cs == [] || HSIZE <= cs[|cs| - 1].size
    ensures Tiles(m, cs, lo, hi, e2)
  {
    hide GetHeader;
    if cs == [] {
    } else {
      TilesBounds(m, cs[1..], cs[0].End(), hi, e);
      if |cs| > 1 {
        assert cs[1..][0].End() <= hi;
      }
      TilesNewEnd(m, cs[1..], cs[0].End(), hi, e, e2);
    }
  }

  /** Live chunks lie between lo and hi. */
  lemma {:induction false} LiveInside(m: seq<Byte>, cs: seq<Chunk>, lo: nat, hi: nat, e: nat, k: int)
    requires Tiles(m, cs, lo, hi, e) && Covers(Live(cs), k)
    ensures lo <= k < hi
  {
    if cs == [] {
    } else {
      TilesBounds(m, cs[1..], cs[0].End(), hi, e);
      CoversAppend(if cs[0].used then [cs[0]] else [], Live(cs[1..]), k);
      if Covers(Live(cs[1..]), k) {
        LiveInside(m, cs[1..], cs[0].End(), hi, e, k);
      } else {
        assert cs[0].used && Covers([cs[0]], k);
      }
    }
  }

  // ----- editing one stretch of the list -----

  lemma StartsAscend(m: seq<Byte>, cs: seq<Chunk>, i: nat, j: nat, lo: nat, e: nat)
    requires i < j <= |cs| && Tiles(m, cs, lo, e, e)
    ensures lo <= StartOf(cs, i, e) < cs[i].End() <= StartOf(cs, j, e) <= e
  {
    TilesSplit(m, cs, i, lo, e, e);
    var rest := cs[i..][1..];
    TilesSplit(m, rest, j - i - 1, cs[i].End(), e, e);
    assert StartOf(rest, j - i - 1, e) == StartOf(cs, j, e);
  }

  /** Nothing before chunk i notices a write to chunks i to j. */
  lemma EditFrame(m: seq<Byte>, m2: seq<Byte>, cs: seq<Chunk>, i: nat, j: nat, lo: nat, e: nat)
    requires i < j <= |cs| && Tiles(m, cs, lo, e, e)
    requires SameOutside(m, m2, StartOf(cs, i, e), Reach(StartOf(cs, j, e), e))
    ensures Tiles(m2, cs[..i], lo, StartOf(cs, i, e), e)
    ensures Tiles(m2, cs[j..], StartOf(cs, j, e), e, e)
  {
    StartsAscend(m, cs, i, j, lo, e);
    TilesSplit(m, cs, i, lo, e, e);
    TilesSplit(m, cs, j, lo, e, e);
    TilesFrame(m, m2, cs[..i], lo, StartOf(cs, i, e), e);
    if j < |cs| {
      StartsAscend(m, cs, j, |cs|, lo, e);
      TilesFrame(m, m2, cs[j..], cs[j].at, e, e);
    }
  }

  /** A write between two stretches of the list keeps the live chunks of both. */
  lemma EditKeeps(m: seq<Byte>, m2: seq<Byte>, a: seq<Chunk>, b: seq<Chunk>, lo: nat, x: nat, y: nat, e: nat)
    requires Tiles(m, a, lo, x, e) && Tiles(m, b, y, e, e) && x <= y <= e
    requires SameOutside(m, m2, x, Reach(y, e))
    ensures Keeps(m, m2, Live(a) + Live(b))
  {
    forall k | 0 <= k < |m| && Covers(Live(a) + Live(b), k) ensures m2[k] == m[k] {
      CoversAppend(Live(a), Live(b), k);
      if Covers(Live(a), k) {
        LiveInside(m, a, lo, x, e, k);
      } else {
        LiveInside(m, b, y, e, e, k);
      }
    }
  }

  /** Rewriting chunks i to j in place, with nothing written outside them, keeps the rest of the heap. */
  lemma Edit(m: seq<Byte>, m2: seq<Byte>, cs: seq<Chunk>, i: nat, j: nat, mid: seq<Chunk>, lo: nat, e: nat)
    requires i < j <= |cs| && Tiles(m, cs, lo, e, e)
    requires Tiles(m2, mid, StartOf(cs, i, e), StartOf(cs, j, e), e)
    requires SameOutside(m, m2, StartOf(cs, i, e), Reach(StartOf(cs, j, e), e))
    ensures Tiles(m2, cs[..i] + mid + cs[j..], lo, e, e)
    ensures Keeps(m, m2, Live(cs[..i]) + Live(cs[j..]))
  {
    var a, b := StartOf(cs, i, e), StartOf(cs, j, e);
    StartsAscend(m, cs, i, j, lo, e);
    assert Keeps(m, m2, Live(cs[..i]) + Live(cs[j..])) by {
      TilesSplit(m, cs, i, lo, e, e);
      TilesSplit(m, cs, j, lo, e, e);
      EditKeeps(m, m2, cs[..i], cs[j..], lo, a, b, e);
    }
    assert Tiles(m2, cs[..i] + mid + cs[j..], lo, e, e) by {
      EditFrame(m, m2, cs, i, j, lo, e);
      TilesAppend(m2, cs[..i], mid, lo, a, b, e);
      TilesAppend(m2, cs[..i] + mid, cs[j..], lo, b, e, e);
    }
  }
}
