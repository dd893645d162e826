/** `ext2ReadFile`: four nested walks over a file's block tree, copied out as one flat file. */
module Ext2File {
  import opened Memory
  import opened Division
  import opened Disk
  import opened BlockTree
  import opened BlockIndex

  // ----- content of a list of blocks, by byte -----

  lemma {:induction false} ContentAt(v: Volume, blocks: seq<nat>, k: nat, j: nat)
    requires k < |blocks| && j < v.bs
    ensures k * v.bs + j < |blocks| * v.bs
    ensures Content(v, blocks)[k * v.bs + j] == v.BytesAt(v.Offset(blocks[k]))[j]
  {
    var m := |blocks| - 1;
    OneMore(m, v.bs);
    if k < m {
      ContentAt(v, blocks[..m], k, j);
    }
  }

  lemma ContentSnoc(v: Volume, blocks: seq<nat>, b: nat)
    ensures Content(v, blocks + [b]) == Content(v, blocks) + v.BytesAt(v.Offset(b))
  {
    assert (blocks + [b])[..|blocks|] == blocks;
  }

  // ----- every visited block is one the walk could read -----

  ghost predicate EachReadable(v: Volume, blocks: seq<nat>) {
    forall k: nat :: k < |blocks| ==> CanRead(v, v.Offset(blocks[k]))
  }

  lemma {:induction false} UnderEach(v: Volume, ptr: nat, d: nat)
    requires UnderReadable(v, ptr, d)
    ensures EachReadable(v, Under(v, ptr, d))
    decreases d, 1, 0
  {
    hide CanRead;
    if d == 0 {
    } else {
      UnderAllEach(v, Live(Pointers(v.BytesAt(v.Offset(ptr)))), d - 1);
    }
  }

  lemma {:induction false} UnderAllEach(v: Volume, ptrs: seq<nat>, d: nat)
    requires AllReadable(v, ptrs, d)
    ensures EachReadable(v, UnderAll(v, ptrs, d))
    decreases d, 2, |ptrs|
  {
    hide CanRead, Under, UnderReadable;
    if ptrs == [] {
    } else {
      UnderEach(v, ptrs[0], d);
      UnderAllEach(v, ptrs[1..], d);
    }
  }

  lemma VisitedEach(v: Volume, n: Inode)
    requires n.Valid() && FileReadable(v, n)
    ensures EachReadable(v, Visited(v, n))
  {
    hide CanRead, Under, UnderAll, UnderReadable, AllReadable, Live;
    UnderAllEach(v, Live(n.iBlock[..12]), 0);
    if n.iBlock[12] != 0 { UnderAllEach(v, Live(SinglePointers(v, n)), 0); }
    if n.iBlock[13] != 0 { UnderEach(v, n.iBlock[13], 13 - 11); }
    if n.iBlock[14] != 0 { UnderEach(v, n.iBlock[14], 14 - 11); }
  }

  // ----- the flat file -----

  /** Blocks needed for the bytes of the file. */
  function BlocksFor(v: Volume, n: Inode): nat
    requires v.Valid()
  {
    (n.iSize + v.bs - 1) / v.bs
  }

  /** A well-formed file: no holes, and no block, of pointers or of data, so far out that the byte offset the reader
      computes for it wraps. */
  ghost predicate WellFormed(v: Volume, n: Inode)
    requires v.Valid() && n.Valid()
  {
    && AllThere(v, n, BlocksFor(v, n)) && AllNear(v, n, BlocksFor(v, n))
    && forall k: nat :: k < BlocksFor(v, n) ==> BlockOf(v, n, k) * v.bs < 0x1_0000_0000
  }

  /** Byte j of block b on the disk. */
  function ByteOf(v: Volume, b: nat, j: nat): nat { v.Place(b) + j }

  /** Where byte i of a file lies on the disk, by ext2's index arithmetic. */
  function PlaceOf(v: Volume, n: Inode, i: nat): nat
    requires v.Valid() && n.Valid()
  {
    ByteOf(v, BlockOf(v, n, i / v.bs), i % v.bs)
  }

  /** Byte i of the blocks one after the other is the disk's byte `at`. */
  ghost predicate SameByte(v: Volume, blocks: seq<nat>, i: nat, at: nat) {
    i < |Content(v, blocks)| && at < |v.drive.data| && Content(v, blocks)[i] == v.drive.data[at]
  }

  lemma BlockByte(v: Volume, blocks: seq<nat>, k: nat, j: nat)
    requires v.Valid() && EachReadable(v, blocks) && k < |blocks| && j < v.bs
    requires blocks[k] * v.bs < 0x1_0000_0000
    ensures SameByte(v, blocks, k * v.bs + j, ByteOf(v, blocks[k], j))
  {
    hide Content, CanRead;
    ContentAt(v, blocks, k, j);
    ReadableFits(v, blocks[k]);
  }

  /** Byte i of a readable, well-formed file is byte i % bs of the block ext2's arithmetic names for i / bs. */
  lemma FlatFile(v: Volume, n: Inode, i: nat)
    requires v.Valid() && n.Valid() && FileReadable(v, n) && WellFormed(v, n) && i < n.iSize
    ensures SameByte(v, Visited(v, n), i, PlaceOf(v, n, i))
  {
    hide FileReadable, Visited, BlockOf, AllThere, AllNear, SameByte, EachReadable, BlocksFor, ByteOf;
    var k := i / v.bs;
    assert k < BlocksFor(v, n) by { Needed(v, n, i); }
    VisitedInOrder(v, n, BlocksFor(v, n));
    VisitedEach(v, n);
    assert Visited(v, n)[k] == BlockOf(v, n, k);
    BlockByte(v, Visited(v, n), k, i % v.bs);
    DivMod(i, v.bs);
  }

  /** A readable, well-formed file is copied whole: the blocks visited cover it, and each byte is the right one. */
  lemma WholeFile(v: Volume, n: Inode)
    requires v.Valid() && n.Valid() && FileReadable(v, n) && WellFormed(v, n)
    ensures n.iSize <= |Content(v, Visited(v, n))|
    ensures forall i: nat :: i < n.iSize ==> SameByte(v, Visited(v, n), i, PlaceOf(v, n, i))
  {
    hide FileReadable, Visited, WellFormed, PlaceOf, Content;
    forall i: nat | i < n.iSize ensures SameByte(v, Visited(v, n), i, PlaceOf(v, n, i)) {
      FlatFile(v, n, i);
    }
    if n.iSize > 0 {
      assert SameByte(v, Visited(v, n), n.iSize - 1, PlaceOf(v, n, n.iSize - 1));
    }
  }

  lemma Needed(v: Volume, n: Inode, i: nat)
    requires v.Valid() && i < n.iSize
    ensures i / v.bs < BlocksFor(v, n)
  {
    DivBound(i, n.iSize, v.bs);
  }

  lemma ReadableFits(v: Volume, b: nat)
    requires v.Valid() && CanRead(v, v.Offset(b))
    ensures v.Offset(b) + v.bs <= |v.drive.data|
    ensures v.BytesAt(v.Offset(b)) == v.drive.data[v.Offset(b)..v.Offset(b) + v.bs]
  {
    var last := (v.Offset(b) + v.bs - 1) / SECTOR;
    assert v.drive.Good(last);
  }

  /** A block so far out that its byte offset does not fit 32 bits is read from the wrong place. */
  lemma FarBlockWraps(v: Volume, b: nat)
    requires v.Valid()
    ensures v.Offset(b) == v.Place(b) <==> b * v.bs < 0x1_0000_0000
  {
  }
}
