/** Physical memory reached through the one-page window: `tmpmap`, and the loops of `phyread`, `phywrite`, `phyzero`. */
module PhysWindow {
  import opened Memory
  import opened Units

  /** Physical address of the window's own entry: entry 7 of page table 0. */
  const SLOT: nat := 0x4000 + 0x7000 / 0x1000 * 8

  /** [a, a + n) keeps clear of the window's entry. */
  predicate Clear(a: nat, n: nat) { a + n <= SLOT || SLOT + 8 <= a }

  /** All bytes but the window's entry and those in [lo, hi) are the same. */
  ghost predicate SameBut(m: seq<Byte>, m2: seq<Byte>, lo: int, hi: int) {
    |m| == |m2| && forall k :: 0 <= k < |m| && !(SLOT <= k < SLOT + 8) && !(lo <= k < hi) ==> m2[k] == m[k]
  }

  /** The bytes src are at p. */
  ghost predicate Holds(m: seq<Byte>, p: nat, src: seq<Byte>) { p + |src| <= |m| && m[p..p + |src|] == src }

  /** The window's entry is the one for the page at pdst, present and writable. */
  ghost predicate PointsAt(m: seq<Byte>, pdst: nat) {
    SLOT + 8 <= |m| && (pdst + 3 < U64 ==> Value(m[SLOT..SLOT + 8]) == pdst + 3)
  }

  function Zeros(n: nat): seq<Byte> { seq(n, _ => 0) }

  class Window {
    const phys: array<Byte>
    var page: nat

    predicate Valid() reads this { SLOT + 8 <= phys.Length }

    constructor (phys: array<Byte>)
      requires SLOT + 8 <= phys.Length
      ensures Valid() && this.phys == phys
    {
      this.phys := phys;
      page := 0;
    }

    /** Point the window at the page at pdst: its entry is rewritten and the cached translation dropped. */
    method TmpMap(pdst: nat)
      requires Valid() && pdst % PAGESIZE == 0
      modifies this`page, phys
      ensures Valid() && page == pdst && SameBut(old(phys[..]), phys[..], 0, 0)
      ensures PointsAt(phys[..], pdst)
    {
      var e := LittleEndian(pdst + 3, 8);
      if pdst + 3 < U64 { EntryReadsBack(pdst + 3); }
      hide LittleEndian, Value;
      var k := 0;
      while k < 8
        invariant 0 <= k <= 8 && phys[SLOT..SLOT + k] == e[..k]
        invariant SameBut(old(phys[..]), phys[..], 0, 0)
      {
        phys[SLOT + k] := e[k];
        k := k + 1;
      }
      page := pdst;
      assert phys[..][SLOT..SLOT + 8] == e;
    }

    /** `memcpy` out of the window, which is one page. */
    method Load(offset: nat, n: nat) returns (r: seq<Byte>)
      requires Valid() && offset + n <= PAGESIZE && page + offset + n <= phys.Length
      ensures r == phys[page + offset..page + offset + n]
    {
      r := [];
      while |r| < n
        invariant |r| <= n && r == phys[page + offset..page + offset + |r|]
      {
        r := r + [phys[page + offset + |r|]];
      }
    }

    /** `memcpy` into the window. */
    method Store(offset: nat, src: seq<Byte>)
      requires Valid() && offset + |src| <= PAGESIZE && page + offset + |src| <= phys.Length
      modifies phys
      ensures Holds(phys[..], page + offset, src)
      ensures SameOutside(old(phys[..]), phys[..], page + offset, page + offset + |src|)
    {
      var i := 0;
      while i < |src|
        invariant 0 <= i <= |src|
        invariant forall k :: 0 <= k < i ==> phys[page + offset + k] == src[k]
        invariant forall k :: 0 <= k < phys.Length && !(page + offset <= k < page + offset + i) ==>
            phys[k] == old(phys[k])
      {
        phys[page + offset + i] := src[i];
        i := i + 1;
      }
    }

    /** `phyread`: page by page through the window. */
    method PhyRead(psrc: nat, size: nat) returns (vdst: seq<Byte>)
      requires Valid() && psrc + size <= phys.Length
      modifies this`page, phys
      ensures Valid() && |vdst| == size && SameBut(old(phys[..]), phys[..], 0, 0)
      ensures Clear(psrc, size) ==> vdst == old(phys[..])[psrc..psrc + size]
    {
      hide SameBut, PointsAt;
      ghost var m := phys[..];
      SameItself(m, 0, 0);
      vdst := [];
      var src, left := psrc, size;
      while left != 0
        invariant Valid() && 0 <= left <= size && src == psrc + (size - left) && |vdst| == size - left
        invariant SameBut(m, phys[..], 0, 0)
        invariant Clear(psrc, size - left) ==> vdst == m[psrc..src]
      {
        ghost var m0 := phys[..];
        PageStart(src);
        var srcPage := src - src % PAGESIZE;
        TmpMap(srcPage);
        SameTwice(m, m0, phys[..], 0, 0);
        var offset := src - srcPage;
        var realsize := if left < PAGESIZE - offset then left else PAGESIZE - offset;
        var part := Load(offset, realsize);
        ReadStep(m, phys[..], psrc, vdst, src, part);
        vdst := vdst + part;
        src, left := src + realsize, left - realsize;
      }
    }

    /** `phywrite`. */
    method PhyWrite(pdst: nat, vsrc: seq<Byte>)
      requires Valid() && pdst + |vsrc| <= phys.Length
      modifies this`page, phys
      ensures Valid() && SameBut(old(phys[..]), phys[..], pdst, pdst + |vsrc|)
      ensures Clear(pdst, |vsrc|) ==> Holds(phys[..], pdst, vsrc)
    {
      hide SameBut, SameOutside, Holds, PointsAt;
      ghost var m := phys[..];
      SameItself(m, pdst, pdst);
      HoldsNothing(m, pdst);
      var done := 0;
      while done != |vsrc|
        invariant Valid() && 0 <= done <= |vsrc|
        invariant SameBut(m, phys[..], pdst, pdst + done)
        invariant Clear(pdst, |vsrc|) ==> Holds(phys[..], pdst, vsrc[..done])
        decreases |vsrc| - done
      {
        var dst, left := pdst + done, |vsrc| - done;
        PageStart(dst);
        var dstPage := dst - dst % PAGESIZE;
        ghost var m0 := phys[..];
        TmpMap(dstPage);
        ghost var m1 := phys[..];
        var offset := dst - dstPage;
        var realsize := if left < PAGESIZE - offset then left else PAGESIZE - offset;
        Store(offset, vsrc[done..done + realsize]);
        WriteStep(m, m0, m1, phys[..], pdst, done, realsize);
        if Clear(pdst, |vsrc|) {
          HoldsMore(m0, m1, phys[..], pdst, vsrc[..done], vsrc[done..done + realsize]);
          assert vsrc[..done] + vsrc[done..done + realsize] == vsrc[..done + realsize];
        }
        done := done + realsize;
      }
      assert vsrc[..done] == vsrc;
    }

    /** `phyzero`. */
    method PhyZero(pdst: nat, size: nat)
      requires Valid() && pdst + size <= phys.Length
      modifies this`page, phys
      ensures Valid() && SameBut(old(phys[..]), phys[..], pdst, pdst + size)
      ensures Clear(pdst, size) ==> Holds(phys[..], pdst, Zeros(size))
    {
      hide SameBut, SameOutside, Holds, PointsAt;
      ghost var m := phys[..];
      SameItself(m, pdst, pdst);
      HoldsNothing(m, pdst);
      assert Zeros(0) == [];
      var done := 0;
      while done != size
        invariant Valid() && 0 <= done <= size
        invariant SameBut(m, phys[..], pdst, pdst + done)
        invariant Clear(pdst, size) ==> Holds(phys[..], pdst, Zeros(done))
        decreases size - done
      {
        var dst, left := pdst + done, size - done;
        PageStart(dst);
        var dstPage := dst - dst % PAGESIZE;
        ghost var m0 := phys[..];
        TmpMap(dstPage);
        ghost var m1 := phys[..];
        var offset := dst - dstPage;
        var realsize := if left < PAGESIZE - offset then left else PAGESIZE - offset;
        Store(offset, Zeros(realsize));
        WriteStep(m, m0, m1, phys[..], pdst, done, realsize);
        if Clear(pdst, size) {
          HoldsMore(m0, m1, phys[..], pdst, Zeros(done), Zeros(realsize));
          assert Zeros(done) + Zeros(realsize) == Zeros(done + realsize);
        }
        done := done + realsize;
      }
    }

    /** What is written is read back. */
    method WriteThenRead(p: nat, src: seq<Byte>) returns (r: seq<Byte>)
      requires Valid() && p + |src| <= phys.Length && Clear(p, |src|)
      modifies this`page, phys
      ensures r == src && SameBut(old(phys[..]), phys[..], p, p + |src|)
    {
      PhyWrite(p, src);
      r := PhyRead(p, |src|);
    }
  }

  lemma EntryReadsBack(e: nat)
    requires e < U64
    ensures Value(LittleEndian(e, 8)) == e && LittleEndian(e, 8)[..8] == LittleEndian(e, 8)
  {
    assert Pow256(8) == 0x1_0000_0000 * 0x1_0000_0000 by { assert Pow256(4) == 0x1_0000_0000; }
    ValueOfLittleEndian(e, 8);
  }

  lemma PageStart(a: nat)
    ensures (a - a % PAGESIZE) % PAGESIZE == 0 && 0 <= a - a % PAGESIZE <= a < a - a % PAGESIZE + PAGESIZE
  {
  }

  lemma SlicesAgree(m: seq<Byte>, m2: seq<Byte>, a: nat, n: nat)
    requires SameBut(m, m2, 0, 0) && a + n <= |m| && Clear(a, n)
    ensures m2[a..a + n] == m[a..a + n]
  {
  }

  /** One turn of the reading loop. */
  lemma ReadStep(m: seq<Byte>, m2: seq<Byte>, p: nat, a: seq<Byte>, src: nat, part: seq<Byte>)
    requires SameBut(m, m2, 0, 0) && p <= src && src + |part| <= |m| && part == m2[src..src + |part|]
    requires Clear(p, src - p) ==> a == m[p..src]
    ensures Clear(p, src + |part| - p) ==> a + part == m[p..src + |part|]
  {
    if Clear(p, src + |part| - p) {
      SlicesAgree(m, m2, src, |part|);
      SliceJoins(m, p, src, src + |part|);
    }
  }

  lemma SliceJoins(m: seq<Byte>, a: nat, b: nat, c: nat)
    requires a <= b <= c <= |m|
    ensures m[a..b] + m[b..c] == m[a..c]
  {
  }

  lemma SameItself(m: seq<Byte>, lo: int, hi: int)
    ensures SameBut(m, m, lo, hi)
  {
  }

  lemma SameTwice(m: seq<Byte>, m1: seq<Byte>, m2: seq<Byte>, lo: int, hi: int)
    requires SameBut(m, m1, lo, hi) && SameBut(m1, m2, 0, 0)
    ensures SameBut(m, m2, lo, hi)
  {
  }

  lemma HoldsNothing(m: seq<Byte>, p: nat)
    requires p <= |m|
    ensures Holds(m, p, [])
  {
  }

  /** One turn of the loop: the window moves, then n bytes behind the `done` ones change. */
  lemma WriteStep(m: seq<Byte>, m0: seq<Byte>, m1: seq<Byte>, m2: seq<Byte>, p: nat, done: nat, n: nat)
    requires SameBut(m, m0, p, p + done) && SameBut(m0, m1, 0, 0)
    requires SameOutside(m1, m2, p + done, p + done + n)
    ensures SameBut(m, m2, p, p + done + n)
  {
    SameTwice(m, m0, m1, p, p + done);
  }

  /** The bytes a are at p and clear of the window's entry; behind them b is stored. */
  lemma HoldsMore(m0: seq<Byte>, m1: seq<Byte>, m2: seq<Byte>, p: nat, a: seq<Byte>, b: seq<Byte>)
    requires Holds(m0, p, a) && Clear(p, |a|) && SameBut(m0, m1, 0, 0)
    requires SameOutside(m1, m2, p + |a|, p + |a| + |b|) && Holds(m2, p + |a|, b)
    ensures Holds(m2, p, a + b)
  {
    SlicesAgree(m0, m1, p, |a|);
    assert m2[p..p + |a|] == m1[p..p + |a|];
    SliceJoins(m2, p, p + |a|, p + |a| + |b|);
  }
}
