/** Two small files that the reader gets wrong: one on a disk past four gigabytes, and one with a hole. */
module Ext2Cases {
  import opened Memory
  import opened Units
  import opened Division
  import opened Disk
  import opened BlockTree
  import opened BlockIndex
  import opened Ext2File
  import opened Ext2Reader

  // ----- a pointer block past four gigabytes -----

  const BS: nat := 1024
  const FAR: nat := 0x40_0001
  const SIZE: nat := 0x1_0000_0800

  function FarByte(i: nat): Byte {
    if 0x400 <= i < 0x800 then if i % 4 == 0 then 1 else 0
    else if i == 0x800 then 3
    else if i == 0xC00 then 9
    else if i == 0x1_0000_0400 then 2
    else 0
  }

  /** Blocks of a kilobyte: block FAR starts with the pointer 2, block 2 with the pointer 3, and block 3 is data; block
      1, which is where block FAR is looked for, is full of pointers 1. */
  ghost function FarVolume(): Volume { Volume(Drive(true, seq(SIZE, i requires 0 <= i => FarByte(i)), {}), 0, BS) }

  /** 269 blocks: twelve direct ones, 256 behind one pointer block, and the last one behind two levels of pointer blocks
      of which the first is block FAR. */
  function FarInode(): Inode { Inode(269 * BS, seq(13, _ => 1) + [FAR, 0]) }

  lemma SmallWord(b: Byte)
    ensures Value([b, 0, 0, 0]) == b
  {
    assert [b, 0, 0, 0][1..] == [0, 0, 0] && [0, 0, 0][1..] == [0, 0] && [0, 0][1..] == [0];
    assert Value([0]) == 0 && Value([0, 0]) == 0 && Value([0, 0, 0]) == 0;
  }

  lemma BetweenPointers(i: nat)
    requires i % 4 == 0
    ensures FarByte(i + 1) == FarByte(i + 2) == FarByte(i + 3) == 0
  {
  }

  lemma RawAt(v: Volume, i: nat, j: nat)
    requires v == FarVolume() && i + BS <= SIZE && j < BS
    ensures v.BytesAt(i)[j] == FarByte(i + j)
  {
    hide FarByte;
  }

  /** The pointers in the block at disk offset i. */
  lemma PointersFrom(v: Volume, i: nat)
    requires v == FarVolume() && i % 4 == 0 && i + BS <= SIZE
    ensures |Pointers(v.BytesAt(i))| == 256
    ensures forall k :: 0 <= k < 256 ==> Pointers(v.BytesAt(i))[k] == FarByte(i + 4 * k)
  {
    var raw := v.BytesAt(i);
    forall k | 0 <= k < 256 ensures Pointers(raw)[k] == FarByte(i + 4 * k) {
      var a := i + 4 * k;
      PointerAt(raw, k);
      assert a % 4 == 0;
      BetweenPointers(a);
      hide FarByte, Pointers, Value, Volume.BytesAt;
      RawAt(v, i, 4 * k);
      RawAt(v, i, 4 * k + 1);
      RawAt(v, i, 4 * k + 2);
      RawAt(v, i, 4 * k + 3);
      assert raw[4 * k..4 * k + 4] == [FarByte(a), 0, 0, 0];
      SmallWord(FarByte(a));
    }
  }

  ghost predicate Ones(ptrs: seq<nat>) { forall k :: 0 <= k < |ptrs| ==> ptrs[k] == 1 }

  /** What is at the blocks' own places, and what the reader finds. */
  ghost predicate FarFacts(v: Volume) {
    && v.Valid() && v.base == 0 && v.bs == BS && v.PerBlock() == 256
    && v.Offset(1) == v.Offset(FAR) == v.WideOffset(1) == 0x400 && CanRead(v, 0x400)
    && |PointersAt(v, 1)| == 256 && Ones(PointersAt(v, 1)) && PointersAt(v, FAR) == PointersAt(v, 1) == PointersIn(v, 1)
    && |PointersIn(v, FAR)| == 256 && PointersIn(v, FAR)[0] == 2 
    && |PointersIn(v, 2)| == 256 && PointersIn(v, 2)[0] == 3
    && v.BytesAt(0x400)[0] == 1 && |v.drive.data| > 0xC00 && v.drive.data[0xC00] == 9
  }

  lemma FarHolds(v: Volume)
    requires v == FarVolume()
    ensures FarFacts(v)
  {
    PointersFrom(v, 0x400);
    PointersFrom(v, 0x800);
    PointersFrom(v, 0x1_0000_0400);
    FarBytes(v);
    FarPlaces(v);
    FarBlockReadable(v);
    hide Pointers, FarVolume, Volume.BytesAt, CanRead, Volume.Offset, Volume.WideOffset, Volume.Place;
    var ptrs := Pointers(v.BytesAt(0x400));
    forall k | 0 <= k < 256 ensures ptrs[k] == 1 {
      FullOfOnes(k);
    }
  }

  lemma FullOfOnes(k: nat)
    requires k < 256
    ensures FarByte(0x400 + 4 * k) == 1
  {
  }

  lemma FarPlaces(v: Volume)
    requires v.base == 0 && v.bs == BS
    ensures v.Valid() && v.PerBlock() == 256
    ensures v.Offset(1) == v.Offset(FAR) == v.WideOffset(1) == v.Place(1) == 0x400
    ensures v.Place(FAR) == 0x1_0000_0400 && v.Place(2) == 0x800
  {
  }

  lemma FarBytes(v: Volume)
    requires v == FarVolume()
    ensures v.base == 0 && v.bs == BS && |v.drive.data| == SIZE
    ensures v.BytesAt(0x400)[0] == 1 && v.drive.data[0xC00] == 9
  {
  }

  lemma FarBlockReadable(v: Volume)
    requires v == FarVolume()
    ensures CanRead(v, 0x400)
  {
    assert |v.drive.data| == SIZE;
    hide FarByte;
    assert v.drive.Good(2) && v.drive.Good(3);
  }

  ghost predicate FarNode(n: Inode) {
    && n.Valid() && n.iSize == 269 * BS && n.iBlock[13] == FAR && n.iBlock[14] == 0
    && forall k :: 0 <= k < 13 ==> n.iBlock[k] == 1
  }

  lemma FarNodeHolds(n: Inode)
    requires n == FarInode()
    ensures FarNode(n)
  {
  }

  /** Readable and without holes, every data block near: only the pointer block is far, and one byte is another one. */
  ghost predicate GoesWrong(v: Volume, n: Inode) {
    && v.Valid() && n.Valid() && FileReadable(v, n)
    && BlocksFor(v, n) == 269 && AllThere(v, n, 269) && !AllNear(v, n, 269)
    && (forall k: nat :: k < 269 ==> BlockOf(v, n, k) * v.bs < 0x1_0000_0000)
    && var x := 268 * BS;
    && x < n.iSize <= |Content(v, Visited(v, n))| && PlaceOf(v, n, x) < |v.drive.data|
    && Content(v, Visited(v, n))[x] == 1 && v.drive.data[PlaceOf(v, n, x)] == 9
  }

  lemma FarPointerBlock(v: Volume, n: Inode)
    requires v == FarVolume() && n == FarInode()
    ensures GoesWrong(v, n)
  {
    FarHolds(v);
    FarNodeHolds(n);
    hide FarVolume, FarInode, FarFacts, FarNode, GoesWrong;
    FromFacts(v, n);
  }

  lemma FromFacts(v: Volume, n: Inode)
    requires FarFacts(v) && FarNode(n)
    ensures GoesWrong(v, n)
  {
    hide FarFacts, FarNode, Content, Visited, FileReadable, BlockOf, PlaceOf, NearBlock;
    TrueBlocks(v, n);
    AllReadableHere(v, n);
    LastVisited(v, n);
    LastByte(v, n, Visited(v, n));
    assert !NearBlock(v, n, 268);
  }

  /** ext2's index arithmetic: the last block is block 3. */
  lemma TrueBlocks(v: Volume, n: Inode)
    requires FarFacts(v) && FarNode(n)
    ensures v.Valid() && n.Valid() && v.bs == BS && n.iSize == 269 * BS && BlocksFor(v, n) == 269
    ensures (forall k: nat :: k < 268 ==> BlockOf(v, n, k) == 1) && BlockOf(v, n, 268) == 3 && !NearBlock(v, n, 268)
  {
    hide Pointers, Volume.BytesAt, CanRead;
    assert Power(256, 0) == 1 && Power(256, 1) == 256 && Power(256, 2) == 0x1_0000;
    assert Lookup(v, 2, 1, 0) == Lookup(v, 3, 0, 0) == 3;
    assert Lookup(v, FAR, 2, 0) == Lookup(v, 2, 1, 0);
  }

  lemma {:induction false} LiveOnes(ptrs: seq<nat>)
    requires Ones(ptrs)
    ensures Live(ptrs) == ptrs
  {
    if ptrs == [] {
    } else {
      LiveOnes(ptrs[1..]);
    }
  }

  /** Where block 1 holds pointers to itself only, every walk below it stays there. */
  lemma {:induction false} OnesReadable(v: Volume, ptrs: seq<nat>, d: nat)
    requires Ones(ptrs) && Ones(PointersAt(v, 1)) && CanRead(v, v.Offset(1))
    ensures AllReadable(v, ptrs, d)
    decreases d, |ptrs|
  {
    hide Pointers, CanRead, Live;
    if ptrs == [] {
    } else {
      OnesReadable(v, ptrs[1..], d);
      if d > 0 {
        LiveOnes(PointersAt(v, 1));
        OnesReadable(v, PointersAt(v, 1), d - 1);
      }
    }
  }

  lemma {:induction false} OnesFirst(v: Volume, ptrs: seq<nat>, d: nat)
    requires Ones(ptrs) && ptrs != [] && Ones(PointersAt(v, 1)) && PointersAt(v, 1) != []
    ensures UnderAll(v, ptrs, d) != [] && UnderAll(v, ptrs, d)[0] == 1
    decreases d
  {
    hide Pointers, Live;
    if d == 0 {
    } else {
      var below := PointersAt(v, 1);
      LiveOnes(below);
      OnesFirst(v, below, d - 1);
      assert Under(v, 1, d) == UnderAll(v, below, d - 1);
      hide Under;
      assert UnderAll(v, ptrs, d) == Under(v, ptrs[0], d) + UnderAll(v, ptrs[1..], d);
    }
  }

  lemma AllReadableHere(v: Volume, n: Inode)
    requires FarFacts(v) && FarNode(n)
    ensures FileReadable(v, n)
  {
    hide Pointers, CanRead, Live, AllReadable, Volume.BytesAt, Volume.Offset, Volume.WideOffset;
    var direct := n.iBlock[..12];
    LiveOnes(direct);
    OnesReadable(v, direct, 0);
    LiveOnes(PointersAt(v, 1));
    OnesReadable(v, PointersAt(v, 1), 0);
    OnesReadable(v, PointersAt(v, 1), 13 - 12);
  }

  /** Block 268 of the walk is block 1. */
  lemma LastVisited(v: Volume, n: Inode)
    requires FarFacts(v) && FarNode(n)
    ensures |Visited(v, n)| > 268 && Visited(v, n)[268] == 1
  {
    hide Pointers, CanRead, Live, UnderAll, Volume.BytesAt, Volume.Offset, Volume.WideOffset;
    var direct, ones := n.iBlock[..12], PointersAt(v, 1);
    LiveOnes(direct);
    LiveOnes(ones);
    ListPart(v, direct, 12);
    ListPart(v, ones, 256);
    OnesFirst(v, ones, 13 - 12);
    assert Behind(v, n, 13) == UnderAll(v, ones, 13 - 12);
    var a, b := UnderAll(v, direct, 0), UnderAll(v, ones, 0);
    assert Visited(v, n) == a + b + Behind(v, n, 13) + [];
    assert |a + b| == 268;
  }

  lemma LastByte(v: Volume, n: Inode, blocks: seq<nat>)
    requires FarFacts(v) && FarNode(n) && BlockOf(v, n, 268) == 3 && |blocks| > 268 && blocks[268] == 1
    ensures PlaceOf(v, n, 268 * BS) == 0xC00 < |v.drive.data| && v.drive.data[0xC00] == 9
    ensures |Content(v, blocks)| >= 269 * BS
    ensures Content(v, blocks)[268 * BS] == 1
  {
    hide Content, BlockOf, Pointers, CanRead;
    ContentAt(v, blocks, 268, 0);
  }

  /** So the reader hands out a wrong byte. */
  method FarRead(v: Volume, n: Inode) returns (st: Status, out: array<Byte>, copied: nat, left: nat)
    requires v == FarVolume() && n == FarInode()
    ensures st == Read && copied == out.Length == n.iSize && out[268 * BS] == 1
    ensures PlaceOf(v, n, 268 * BS) < |v.drive.data| && v.drive.data[PlaceOf(v, n, 268 * BS)] == 9
  {
    FarPointerBlock(v, n);
    WrongFacts(v, n);
    hide *;
    ghost var init;
    st, out, copied, left, init := ReadFile(v, n);
    CopiedByte(out[..], copied, Content(v, Visited(v, n)), 268 * BS);
  }

  lemma WrongFacts(v: Volume, n: Inode)
    requires GoesWrong(v, n)
    ensures v.Valid() && n.Valid() && FileReadable(v, n) && 268 * BS < n.iSize <= |Content(v, Visited(v, n))|
    ensures Content(v, Visited(v, n))[268 * BS] == 1
    ensures PlaceOf(v, n, 268 * BS) < |v.drive.data| && v.drive.data[PlaceOf(v, n, 268 * BS)] == 9
  {
    hide Content, Visited, FileReadable, PlaceOf, BlockOf;
  }

  lemma CopiedByte(bytes: seq<Byte>, copied: nat, all: seq<Byte>, x: nat)
    requires FirstOf(bytes, copied, all) && x < |bytes| <= |all|
    ensures copied == |bytes| && bytes[x] == all[x]
  {
    assert bytes[..copied][x] == all[..copied][x];
  }

  // ----- a hole -----

  /** Three blocks, the middle one a hole. */
  function SparseInode(v: Volume): Inode { Inode(3 * v.bs, [1, 0, 2] + seq(12, _ => 0)) }

  /** The walk stops at the hole: of the two blocks there are, the second is never visited. */
  lemma HoleStops(v: Volume, n: Inode)
    requires v.Valid() && n == SparseInode(v)
    ensures n.Valid() && BlocksFor(v, n) == 3 && AllNear(v, n, 3) && !AllThere(v, n, 3)
    ensures BlockOf(v, n, 2) == 2 && Visited(v, n) == [1]
  {
    var ptrs := n.iBlock[..12];
    assert ptrs[0] == 1 && ptrs[1..][0] == 0;
    assert Live(ptrs) == [1] && [1][1..] == [];
    assert UnderAll(v, [1], 0) == Under(v, 1, 0) + UnderAll(v, [], 0) == [1];
    assert BlockOf(v, n, 1) == 0;
    ThreeBlocks(v.bs);
  }

  lemma ThreeBlocks(bs: nat)
    requires bs > 0
    ensures (3 * bs + bs - 1) / bs == 3
  {
    DivIs(3 * bs + bs - 1, bs, 3, bs - 1);
  }
}
