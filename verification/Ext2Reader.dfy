/** The walk of `ext2ReadFile` itself, with the buffers it reuses at every level. */
module Ext2Reader {
  import opened Memory
  import opened Units
  import opened Division
  import opened Disk
  import opened BlockTree
  import opened BlockIndex
  import opened Ext2File

  lemma {:induction false} PointerAt(raw: seq<Byte>, i: nat)
    requires i < |raw| / 4
    ensures Pointers(raw)[i] == Value(raw[4 * i..4 * i + 4])
    decreases i
  {
    hide Value;
    if i == 0 {
    } else {
      PointerAt(raw[4..], i - 1);
      SliceOfRest(raw, 4 * (i - 1));
    }
  }

  lemma SliceOfRest(raw: seq<Byte>, a: nat)
    requires a + 8 <= |raw|
    ensures raw[4..][a..a + 4] == raw[a + 4..a + 8]
  {
  }

  /** The pointers before the first zero are the live ones. */
  lemma {:induction false} LiveAt(ptrs: seq<nat>, i: nat)
    requires i <= |Live(ptrs)|
    ensures i < |Live(ptrs)| <==> i < |ptrs| && ptrs[i] != 0
  {
    if i == 0 {
    } else {
      LiveAt(ptrs[1..], i - 1);
    }
  }

  /** The first `head` bytes are those served for the blocks, cut at the length of the file. */
  ghost predicate Cut(v: Volume, init: seq<Byte>, bytes: seq<Byte>, head: nat, blocks: seq<nat>)
    requires |init| == v.bs
  {
    FirstOf(bytes, head, Served(v, blocks, init))
  }

  /** The first `head` bytes are all there is room for, or all there are, of a sequence. */
  ghost predicate FirstOf(bytes: seq<Byte>, head: nat, all: seq<Byte>) {
    head == Min(|bytes|, |all|) && bytes[..head] == all[..head]
  }

  /** A buffer went behind the first `had` bytes, as far as there was room. */
  ghost predicate Copies(before: seq<Byte>, had: nat, after: seq<Byte>, head: nat, buf: seq<Byte>) {
    && had <= head == Min(|after|, had + |buf|) && |after| == |before|
    && after[..had] == before[..had] && after[had..head] == buf[..head - had]
  }

  lemma Grow(v: Volume, init: seq<Byte>, blocks: seq<nat>, ptr: nat, before: seq<Byte>, had: nat, after: seq<Byte>,
             head: nat)
    requires |init| == v.bs && Cut(v, init, before, had, blocks)
    requires Copies(before, had, after, head, Buffered(v, blocks + [ptr], init))
    ensures Cut(v, init, after, head, blocks + [ptr])
  {
    assert (blocks + [ptr])[..|blocks|] == blocks;
    assert Served(v, blocks + [ptr], init) == Served(v, blocks, init) + Buffered(v, blocks + [ptr], init);
    OneMore(|blocks|, v.bs);
    hide Served, Buffered;
    CutBehind(Served(v, blocks, init), Buffered(v, blocks + [ptr], init), before, had, after, head);
  }

  /** The buffer after one more block. */
  lemma BufferedMore(v: Volume, blocks: seq<nat>, ptr: nat, init: seq<Byte>)
    requires |init| == v.bs
    ensures Buffered(v, blocks + [ptr], init) ==
            if CanRead(v, v.Offset(ptr)) then v.BytesAt(v.Offset(ptr)) else Buffered(v, blocks, init)
  {
    hide CanRead;
    assert (blocks + [ptr])[..|blocks|] == blocks;
  }

  /** Bytes cut out of one sequence, then out of the next. */
  lemma CutBehind(all: seq<Byte>, more: seq<Byte>, before: seq<Byte>, had: nat, after: seq<Byte>, head: nat)
    requires had == Min(|before|, |all|) && before[..had] == all[..had]
    requires Copies(before, had, after, head, more)
    ensures head == Min(|after|, |all + more|) && after[..head] == (all + more)[..head]
  {
    assert after[..head] == after[..had] + after[had..head];
    assert (all + more)[..head] == all[..had] + more[..head - had];
  }

  class Reader {
    const v: Volume
    const out: array<Byte>
    const buf: array<Byte>
    const p: array<Byte>
    const pp: array<Byte>
    const ppp: array<Byte>
    ghost const init: seq<Byte>
    var head: nat
    var size: nat

    constructor (v: Volume, iSize: nat)
      requires v.Valid()
      ensures Valid() && this.v == v && head == 0 && size == iSize && Holds([])
      ensures fresh(out) && fresh(buf) && fresh(p) && fresh(pp) && fresh(ppp)
    {
      this.v := v;
      out := new Byte[iSize];
      var data := new Byte[v.bs];
      buf, init := data, data[..];
      p := new Byte[v.bs];
      pp := new Byte[v.bs];
      ppp := new Byte[v.bs];
      head, size := 0, iSize;
    }

    /** Bytes copied and bytes still to come are the file's size; the buffers do not overlap. */
    ghost predicate Valid()
      reads this
    {
      && v.Valid() && head + size == out.Length && |init| == v.bs
      && buf.Length == v.bs && p.Length == v.bs && pp.Length == v.bs && ppp.Length == v.bs
      && out != buf && out != p && out != pp && out != ppp
      && buf != p && buf != pp && buf != ppp && p != pp && p != ppp && pp != ppp
    }

    /** What was copied so far is what these blocks serve, cut at the file's size, and the buffer is as they left it. */
    ghost predicate Holds(blocks: seq<nat>)
      reads this, out, buf
    {
      |init| == v.bs && Cut(v, init, out[..], head, blocks) && buf[..] == Buffered(v, blocks, init)
    }

    lemma Copied(blocks: seq<nat>)
      requires Valid()
      ensures head + size == out.Length
      ensures Holds(blocks) ==> FirstOf(out[..], head, Served(v, blocks, init))
    {
      hide Served, FirstOf;
    }

    /** `memcpy` of n buffered bytes to where the next one goes. */
    method CopyOut(n: nat)
      requires Valid() && n <= size && n <= v.bs
      modifies out
      ensures out[..head] == old(out[..head]) && out[head..head + n] == buf[..n]
    {
      var k := 0;
      while k < n
        invariant 0 <= k <= n
        invariant out[..head] == old(out[..head])
        invariant out[head..head + k] == buf[..k]
      {
        out[head + k] := buf[k];
        k := k + 1;
      }
    }

    /** One data block: read it, copy what still fits, move on. A failed read copies the stale buffer. */
    method CopyBlock(ptr: nat, ghost done: seq<nat>) returns (st: Status)
      requires Valid()
      modifies this, out, buf
      ensures Valid() && st != Failed
      ensures st == Read ==> Copies(old(out[..]), old(head), out[..], head, buf[..])
      ensures st == Halted ==> head == old(head) && out[..] == old(out[..])
      ensures old(Holds(done)) && CanTry(v, v.Offset(ptr)) ==> st == Read && Holds(done + [ptr])
    {
      hide CanRead, CanTry, Served, Buffered, Volume.Offset, Cut, Volume.BytesAt;
      ghost var before, had, clean := out[..], head, Holds(done);
      BufferedMore(v, done, ptr, init);
      st := ReadBlock(v.Offset(ptr), buf);
      if st == Halted {
        return;
      }
      var n := if size > v.bs then v.bs else size;
      CopyOut(n);
      head := head + n;
      size := size - n;
      if clean && CanTry(v, v.Offset(ptr)) {
        Grow(v, init, done, ptr, before, had, out[..], head);
      }
    }

    /** A block read into a buffer; a failed read leaves what was there. */
    method ReadBlock(offset: nat, into: array<Byte>) returns (st: Status)
      requires Valid() && into.Length == v.bs
      modifies into
      ensures st != Failed
      ensures CanRead(v, offset) ==> st == Read && into[..] == v.BytesAt(offset)
      ensures CanTry(v, offset) ==> st == Read && (!CanRead(v, offset) ==> into[..] == old(into[..]))
    {
      hide Drive.Readable;
      st := DiskRead(v.drive, offset, v.bs, into);
      if st != Halted {
        st := Read;
      }
    }

    /** The innermost loop: the data blocks a buffer of pointers names, up to the first zero. */
    method WalkOne(ptrs: array<Byte>, ghost done: seq<nat>) returns (st: Status)
      requires Valid() && ptrs.Length == v.bs && ptrs != out && ptrs != buf
      modifies this, out, buf
      ensures Valid() && st != Failed
      ensures old(Holds(done)) && ListOpen(v, ptrs[..], 0) ==>
          st == Read && Holds(done + ListBlocks(v, ptrs[..], 0))
    {
      hide Holds, Live, Pointers, AllOpen, UnderAll;
      ghost var raw := ptrs[..];
      ghost var live := Live(Pointers(raw));
      ghost var clean := Holds(done) && ListOpen(v, raw, 0);
      ghost var acc := done;
      var i := 0;
      while i < v.bs / 4 && Value(ptrs[4 * i..4 * i + 4]) != 0
        invariant Valid() && ptrs[..] == raw && i <= |live|
        invariant clean ==> Holds(acc) && AllOpen(v, live[i..], 0)
        invariant clean ==> acc + UnderAll(v, live[i..], 0) == done + UnderAll(v, live, 0)
        decreases v.bs / 4 - i
      {
        Here(v, raw, i);
        if clean { Step(v, live, i, 0); }
        st := CopyBlock(Value(ptrs[4 * i..4 * i + 4]), acc);
        if st == Halted {
          return;
        }
        acc := acc + [live[i]];
        i := i + 1;
      }
      AtEnd(v, raw, i, 0);
      assert acc + [] == acc;
      st := Read;
    }

    /** The loop around it: each pointer names a block of pointers, read into `next`. */
    method WalkTwo(ptrs: array<Byte>, next: array<Byte>, ghost done: seq<nat>) returns (st: Status)
      requires Valid() && ptrs.Length == v.bs && ptrs != out && ptrs != buf
      requires next.Length == v.bs && next != out && next != buf && next != ptrs
      modifies this, out, buf, next
      ensures Valid() && st != Failed
      ensures old(Holds(done)) && ListOpen(v, old(ptrs[..]), 1) ==>
        st == Read && Holds(done + ListBlocks(v, old(ptrs[..]), 1))
    {
      hide Holds, Live, Pointers, AllOpen, UnderAll, Under, UnderOpen, Value, CanRead;
      ghost var raw, d := ptrs[..], 1;
      ghost var live := Live(Pointers(raw));
      ghost var clean := Holds(done) && ListOpen(v, raw, d);
      ghost var acc := done;
      var i := 0;
      while i < v.bs / 4 && Value(ptrs[4 * i..4 * i + 4]) != 0
        invariant Valid() && ptrs[..] == raw && i <= |live|
        invariant clean ==> Holds(acc) && AllOpen(v, live[i..], d)
        invariant clean ==> acc + UnderAll(v, live[i..], d) == done + UnderAll(v, live, d)
        decreases v.bs / 4 - i
      {
        Here(v, raw, i);
        ghost var ptr := live[i];
        if clean {
          Step(v, live, i, d);
          Below(v, ptr, d);
        }
        st := ReadBlock(v.Offset(Value(ptrs[4 * i..4 * i + 4])), next);
        if st == Halted {
          return;
        }
        st := WalkOne(next, acc);
        if st == Halted {
          return;
        }
        acc := acc + Under(v, ptr, d);
        i := i + 1;
      }
      AtEnd(v, raw, i, d);
      assert acc + [] == acc;
      st := Read;
    }

    /** The outermost loop of the triple indirect walk. */
    method WalkThree(ghost done: seq<nat>) returns (st: Status)
      requires Valid()
      modifies this, out, buf, pp, ppp
      ensures Valid() && st != Failed
      ensures old(Holds(done)) && ListOpen(v, p[..], 2) ==> st == Read && Holds(done + ListBlocks(v, p[..], 2))
    {
      hide Holds, Live, Pointers, AllOpen, UnderAll, Under, UnderOpen, Value, CanRead;
      ghost var raw, d := p[..], 2;
      ghost var live := Live(Pointers(raw));
      ghost var clean := Holds(done) && ListOpen(v, raw, d);
      ghost var acc := done;
      var i := 0;
      while i < v.bs / 4 && Value(p[4 * i..4 * i + 4]) != 0
        invariant Valid() && p[..] == raw && i <= |live|
        invariant clean ==> Holds(acc) && AllOpen(v, live[i..], d)
        invariant clean ==> acc + UnderAll(v, live[i..], d) == done + UnderAll(v, live, d)
        decreases v.bs / 4 - i
      {
        Here(v, raw, i);
        ghost var ptr := live[i];
        if clean {
          Step(v, live, i, d);
          Below(v, ptr, d);
        }
        st := ReadBlock(v.Offset(Value(p[4 * i..4 * i + 4])), pp);
        if st == Halted {
          return;
        }
        st := WalkTwo(pp, ppp, acc);
        if st == Halted {
          return;
        }
        acc := acc + Under(v, ptr, d);
        i := i + 1;
      }
      AtEnd(v, raw, i, d);
      assert acc + [] == acc;
      st := Read;
    }

    /** Behind pointer 12: its block is read, then the data blocks it names. */
    method ReadSingle(n: Inode, ghost done: seq<nat>) returns (st: Status)
      requires Valid() && n.Valid()
      modifies this, out, buf, p
      ensures Valid() && st != Failed
      ensures old(Holds(done)) && SingleOpen(v, n) ==> st == Read && Holds(done + Part(v, n, 1))
    {
      hide Holds, AllOpen, UnderAll, Live, Pointers, CanRead;
      if n.iBlock[12] == 0 {
        assert done + [] == done;
        return Read;
      }
      st := ReadBlock(v.WideOffset(n.iBlock[12]), p);
      if st == Read {
        st := WalkOne(p, done);
      }
    }

    /** Behind pointer 13. */
    method ReadDouble(n: Inode, ghost done: seq<nat>) returns (st: Status)
      requires Valid() && n.Valid()
      modifies this, out, buf, p, pp
      ensures Valid() && st != Failed
      ensures old(Holds(done)) && BehindOpen(v, n, 13) ==> st == Read && Holds(done + Behind(v, n, 13))
    {
      hide Holds, AllOpen, Under, UnderAll, UnderOpen, Live, Pointers, CanRead, ListOpen;
      if n.iBlock[13] == 0 {
        assert done + [] == done;
        return Read;
      }
      if BehindOpen(v, n, 13) { Below(v, n.iBlock[13], 13 - 11); }
      st := ReadBlock(v.Offset(n.iBlock[13]), p);
      if st == Read {
        st := WalkTwo(p, pp, done);
      }
    }

    /** Behind pointer 14. */
    method ReadTriple(n: Inode, ghost done: seq<nat>) returns (st: Status)
      requires Valid() && n.Valid()
      modifies this, out, buf, p, pp, ppp
      ensures Valid() && st != Failed
      ensures old(Holds(done)) && BehindOpen(v, n, 14) ==> st == Read && Holds(done + Behind(v, n, 14))
    {
      hide Holds, AllOpen, Under, UnderAll, UnderOpen, Live, Pointers, CanRead, ListOpen;
      if n.iBlock[14] == 0 {
        assert done + [] == done;
        return Read;
      }
      if BehindOpen(v, n, 14) { Below(v, n.iBlock[14], 14 - 11); }
      st := ReadBlock(v.Offset(n.iBlock[14]), p);
      if st == Read {
        st := WalkThree(done);
      }
    }

    /** The twelve direct blocks. */
    method WalkDirect(n: Inode) returns (st: Status)
      requires Valid() && n.Valid()
      modifies this, out, buf
      ensures Valid() && st != Failed
      ensures old(Holds([])) && AllOpen(v, Live(n.iBlock[..12]), 0) ==>
          st == Read && Holds(UnderAll(v, Live(n.iBlock[..12]), 0))
    {
      hide Holds, Live, Pointers, AllOpen, UnderAll;
      ghost var live, d := Live(n.iBlock[..12]), 0;
      ghost var clean := Holds([]) && AllOpen(v, live, d);
      ghost var acc := [];
      var i := 0;
      LiveAt(n.iBlock[..12], 0);
      while i < 12 && n.iBlock[i] != 0
        invariant Valid() && i <= |live| && i <= 12
        invariant i < |live| <==> i < 12 && n.iBlock[i] != 0
        invariant i < |live| ==> live[i] == n.iBlock[i]
        invariant clean ==> Holds(acc) && AllOpen(v, live[i..], d)
        invariant clean ==> acc + UnderAll(v, live[i..], d) == UnderAll(v, live, d)
      {
        if clean { Step(v, live, i, d); }
        st := CopyBlock(n.iBlock[i], acc);
        if st == Halted {
          return;
        }
        acc := acc + [live[i]];
        i := i + 1;
        LiveAt(n.iBlock[..12], i);
      }
      NoneLeft(v, live, d);
      assert live[i..] == [] && acc + [] == acc;
      st := Read;
    }
  }

  lemma NoneLeft(v: Volume, live: seq<nat>, d: nat)
    ensures UnderAll(v, [], d) == []
  {
  }

  lemma Below(v: Volume, ptr: nat, d: nat)
    requires v.Valid() && d > 0 && UnderOpen(v, ptr, d)
    ensures CanRead(v, v.Offset(ptr)) && ListOpen(v, v.BytesAt(v.Offset(ptr)), d - 1)
    ensures Under(v, ptr, d) == ListBlocks(v, v.BytesAt(v.Offset(ptr)), d - 1)
  {
    hide CanRead, Live, Pointers, AllOpen, UnderAll;
  }

  /** The blocks behind a buffer of pointers, with d levels below each. */
  ghost function ListBlocks(v: Volume, raw: seq<Byte>, d: nat): seq<nat> { UnderAll(v, Live(Pointers(raw)), d) }

  ghost predicate ListOpen(v: Volume, raw: seq<Byte>, d: nat)
    requires v.Valid()
  {
    AllOpen(v, Live(Pointers(raw)), d)
  }

  lemma Here(v: Volume, raw: seq<Byte>, i: nat)
    requires i < |raw| / 4 && i <= |Live(Pointers(raw))| && Value(raw[4 * i..4 * i + 4]) != 0
    ensures i < |Live(Pointers(raw))| && Live(Pointers(raw))[i] == Value(raw[4 * i..4 * i + 4])
  {
    hide Value, Live, Pointers;
    PointerAt(raw, i);
    LiveAt(Pointers(raw), i);
  }

  lemma AtEnd(v: Volume, raw: seq<Byte>, i: nat, d: nat)
    requires i <= |Live(Pointers(raw))|
    requires i >= |raw| / 4 || Value(raw[4 * i..4 * i + 4]) == 0
    ensures i == |Live(Pointers(raw))| && UnderAll(v, Live(Pointers(raw))[i..], d) == []
  {
    hide Value, Live, Pointers;
    LiveAt(Pointers(raw), i);
    if i < |raw| / 4 { PointerAt(raw, i); }
  }

  lemma Step(v: Volume, live: seq<nat>, i: nat, d: nat)
    requires v.Valid() && i < |live| && AllOpen(v, live[i..], d)
    ensures UnderOpen(v, live[i], d) && AllOpen(v, live[i + 1..], d)
    ensures UnderAll(v, live[i..], d) == Under(v, live[i], d) + UnderAll(v, live[i + 1..], d)
    ensures d == 0 ==> CanTry(v, v.Offset(live[i])) && Under(v, live[i], d) == [live[i]]
  {
    hide CanRead;
    assert live[i..][1..] == live[i + 1..];
  }

  /** `ext2ReadFile`: the file's bytes, and how many of them were copied and how many were left over. A data block that
      cannot be read repeats the last one that could be. */
  method ReadFile(v: Volume, n: Inode)
    returns (st: Status, out: array<Byte>, copied: nat, left: nat, ghost init: seq<Byte>)
    requires v.Valid() && n.Valid()
    ensures st != Failed && out.Length == n.iSize && copied + left == n.iSize && |init| == v.bs
    ensures FileOpen(v, n) ==> st == Read && FirstOf(out[..], copied, Served(v, Visited(v, n), init))
    ensures FileReadable(v, n) ==> st == Read && FirstOf(out[..], copied, Content(v, Visited(v, n)))
  {
    hide *;
    var r := new Reader(v, n.iSize);
    Parts(v, n);
    st := r.WalkDirect(n);
    if st == Read {
      st := r.ReadSingle(n, Part(v, n, 0));
    }
    if st == Read {
      st := r.ReadDouble(n, Part(v, n, 0) + Part(v, n, 1));
    }
    if st == Read {
      st := r.ReadTriple(n, Part(v, n, 0) + Part(v, n, 1) + Behind(v, n, 13));
    }
    r.Copied(Visited(v, n));
    out, copied, left, init := r.out, r.head, r.size, r.init;
    ReadableServes(v, n, init);
  }

  /** A readable file serves its own bytes. */
  lemma ReadableServes(v: Volume, n: Inode, init: seq<Byte>)
    requires v.Valid() && n.Valid() && |init| == v.bs
    ensures FileReadable(v, n) ==> FileOpen(v, n) && Served(v, Visited(v, n), init) == Content(v, Visited(v, n))
  {
    hide *;
    if FileReadable(v, n) {
      ReadableIsOpen(v, n);
      VisitedEach(v, n);
      AllServed(v, Visited(v, n), init);
    }
  }

  lemma {:induction false} UnderReadableIsOpen(v: Volume, ptr: nat, d: nat)
    requires v.Valid() && UnderReadable(v, ptr, d)
    ensures UnderOpen(v, ptr, d)
    decreases d, 1, 0
  {
    if d > 0 {
      AllReadableIsOpen(v, Live(Pointers(v.BytesAt(v.Offset(ptr)))), d - 1);
    }
  }

  lemma {:induction false} AllReadableIsOpen(v: Volume, ptrs: seq<nat>, d: nat)
    requires v.Valid() && AllReadable(v, ptrs, d)
    ensures AllOpen(v, ptrs, d)
    decreases d, 2, |ptrs|
  {
    hide UnderReadable, UnderOpen;
    if ptrs == [] {
    } else {
      UnderReadableIsOpen(v, ptrs[0], d);
      AllReadableIsOpen(v, ptrs[1..], d);
    }
  }

  lemma ReadableIsOpen(v: Volume, n: Inode)
    requires v.Valid() && n.Valid() && FileReadable(v, n)
    ensures FileOpen(v, n)
  {
    hide CanRead, AllReadable, AllOpen, UnderReadable, UnderOpen, Live, Pointers;
    AllReadableIsOpen(v, Live(n.iBlock[..12]), 0);
    if n.iBlock[12] != 0 { AllReadableIsOpen(v, Live(SinglePointers(v, n)), 0); }
    if n.iBlock[13] != 0 { UnderReadableIsOpen(v, n.iBlock[13], 13 - 11); }
    if n.iBlock[14] != 0 { UnderReadableIsOpen(v, n.iBlock[14], 14 - 11); }
  }

  /** Where every block can be read, each serves its own bytes. */
  lemma {:induction false} AllServed(v: Volume, blocks: seq<nat>, init: seq<Byte>)
    requires |init| == v.bs && EachReadable(v, blocks)
    ensures Served(v, blocks, init) == Content(v, blocks)
  {
    if blocks == [] {
    } else {
      AllServed(v, blocks[..|blocks| - 1], init);
    }
  }

  lemma {:induction false} ServedAt(v: Volume, blocks: seq<nat>, init: seq<Byte>, k: nat, j: nat)
    requires |init| == v.bs && k < |blocks| && j < v.bs
    ensures k * v.bs + j < |blocks| * v.bs
    ensures Served(v, blocks, init)[k * v.bs + j] == Buffered(v, blocks[..k + 1], init)[j]
  {
    var m := |blocks| - 1;
    OneMore(m, v.bs);
    if k < m {
      hide Buffered;
      ServedAt(v, blocks[..m], init, k, j);
      assert blocks[..m][..k + 1] == blocks[..k + 1];
    } else {
      assert blocks[..k + 1] == blocks;
    }
  }

  /** A block that cannot be read comes out as the one before it, if that could be. */
  lemma FailedRepeats(v: Volume, blocks: seq<nat>, init: seq<Byte>, k: nat, j: nat)
    requires |init| == v.bs && 0 < k < |blocks| && j < v.bs
    requires CanRead(v, v.Offset(blocks[k - 1]))
    ensures k * v.bs + j < |blocks| * v.bs
    ensures Served(v, blocks, init)[k * v.bs + j] ==
            v.BytesAt(v.Offset(blocks[if CanRead(v, v.Offset(blocks[k])) then k else k - 1]))[j]
  {
    hide CanRead, Served;
    ServedAt(v, blocks, init, k, j);
    BufferedMore(v, blocks[..k], blocks[k], init);
    BufferedMore(v, blocks[..k - 1], blocks[k - 1], init);
    assert blocks[..k + 1] == blocks[..k] + [blocks[k]] && blocks[..k] == blocks[..k - 1] + [blocks[k - 1]];
  }

  /** What each part of a readable file asks of the walk, and what it adds. */
  lemma Parts(v: Volume, n: Inode)
    requires v.Valid() && n.Valid()
    ensures Part(v, n, 0) == UnderAll(v, Live(n.iBlock[..12]), 0)
    ensures Visited(v, n) == Part(v, n, 0) + Part(v, n, 1) + Behind(v, n, 13) + Behind(v, n, 14)
    ensures FileOpen(v, n) ==>
      && AllOpen(v, Live(n.iBlock[..12]), 0) && SingleOpen(v, n)
      && BehindOpen(v, n, 13) && BehindOpen(v, n, 14)
  {
    hide Live, Pointers, AllOpen, UnderAll, Under, UnderOpen, CanRead;
    FourParts(v, n);
  }
}
