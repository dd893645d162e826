/** The block tree of an ext2 file: the blocks its reader visits, and the block its index arithmetic means. */
module BlockTree {
  import opened Memory
  import opened Units
  import opened Disk

  /** What the reader knows of a mounted file system. */
  datatype Volume = Volume(drive: Drive, base: nat, bs: nat) {
    /** A block holds at least one pointer. */
    predicate Valid() { bs >= 4 }

    function PerBlock(): nat { bs / 4 }

    /** Where a block lies on the disk. */
    function Place(b: nat): nat { base + b * bs }

    /** Where the reader looks for it: the product is taken in 32 bits. */
    function Offset(b: nat): nat { base + b * bs % 0x1_0000_0000 }

    /** And for the single indirect block, in 64 bits. */
    function WideOffset(b: nat): nat { base + b * bs % U64 }

    function BytesAt(offset: nat): (r: seq<Byte>)
      ensures |r| == bs
    {
      if offset + bs <= |drive.data| then drive.data[offset..offset + bs] else seq(bs, _ => 0)
    }
  }

  /** The pointers in a block, all of them. */
  function Pointers(raw: seq<Byte>): (r: seq<nat>)
    ensures |r| == |raw| / 4
    decreases |raw|
  {
    if |raw| < 4 then [] else [Value(raw[..4])] + Pointers(raw[4..])
  }

  /** Pointers up to the first zero one: the loops stop there. */
  function Live(ptrs: seq<nat>): (r: seq<nat>)
    ensures r <= ptrs
  {
    if ptrs == [] || ptrs[0] == 0 then [] else [ptrs[0]] + Live(ptrs[1..])
  }

  /** Data blocks visited below a pointer with d levels of indirect blocks. */
  function Under(v: Volume, ptr: nat, d: nat): seq<nat>
    decreases d, 1, 0
  {
    if d == 0 then [ptr] else UnderAll(v, Live(Pointers(v.BytesAt(v.Offset(ptr)))), d - 1)
  }

  function UnderAll(v: Volume, ptrs: seq<nat>, d: nat): seq<nat>
    decreases d, 2, |ptrs|
  {
    if ptrs == [] then [] else Under(v, ptrs[0], d) + UnderAll(v, ptrs[1..], d)
  }

  datatype Inode = Inode(iSize: nat, iBlock: seq<nat>) {
    predicate Valid() { |iBlock| == 15 }
  }

  /** The pointers in the single indirect block, as the reader finds them. */
  function SinglePointers(v: Volume, n: Inode): seq<nat>
    requires n.Valid()
  {
    Pointers(v.BytesAt(v.WideOffset(n.iBlock[12])))
  }

  /** The blocks visited behind pointer 13, through two levels, or pointer 14, through three. */
  function Behind(v: Volume, n: Inode, slot: nat): seq<nat>
    requires n.Valid() && 12 <= slot < 15
  {
    if n.iBlock[slot] == 0 then [] else Under(v, n.iBlock[slot], slot - 11)
  }

  /** All data blocks `ext2ReadFile` visits, in order. */
  function Visited(v: Volume, n: Inode): seq<nat>
    requires n.Valid()
  {
    UnderAll(v, Live(n.iBlock[..12]), 0)
    + (if n.iBlock[12] == 0 then [] else UnderAll(v, Live(SinglePointers(v, n)), 0))
    + Behind(v, n, 13)
    + Behind(v, n, 14)
  }

  /** The bytes of some blocks one after the other. */
  function Content(v: Volume, blocks: seq<nat>): (r: seq<Byte>)
    ensures |r| == |blocks| * v.bs
  {
    if blocks == [] then [] else Content(v, blocks[..|blocks| - 1]) + v.BytesAt(v.Offset(blocks[|blocks| - 1]))
  }

  // ----- which reads the walk depends on -----

  ghost predicate CanRead(v: Volume, offset: nat) { v.drive.Readable(offset, v.bs) }

  ghost predicate UnderReadable(v: Volume, ptr: nat, d: nat)
    decreases d, 1, 0
  {
    CanRead(v, v.Offset(ptr)) && (d == 0 || AllReadable(v, Live(Pointers(v.BytesAt(v.Offset(ptr)))), d - 1))
  }

  ghost predicate AllReadable(v: Volume, ptrs: seq<nat>, d: nat)
    decreases d, 2, |ptrs|
  {
    ptrs == [] || (UnderReadable(v, ptrs[0], d) && AllReadable(v, ptrs[1..], d))
  }

  /** Every block of the file, data or pointers, lies on sectors that can be addressed and read. */
  ghost predicate FileReadable(v: Volume, n: Inode)
    requires n.Valid()
  {
    && AllReadable(v, Live(n.iBlock[..12]), 0)
    && (n.iBlock[12] == 0 || (CanRead(v, v.WideOffset(n.iBlock[12])) && AllReadable(v, Live(SinglePointers(v, n)), 0)))
    && BehindReadable(v, n, 13)
    && BehindReadable(v, n, 14)
  }

  ghost predicate BehindReadable(v: Volume, n: Inode, slot: nat)
    requires n.Valid() && 12 <= slot < 15
  {
    n.iBlock[slot] == 0 || UnderReadable(v, n.iBlock[slot], slot - 11)
  }

  // ----- reads that fail -----

  /** A read there may fail, but does not stop the kernel. */
  predicate CanTry(v: Volume, offset: nat)
    requires v.Valid()
  {
    (offset + v.bs - 1) / SECTOR < SECTOR_LIMIT
  }

  /** Every pointer block below can be read; data blocks can be tried. */
  ghost predicate UnderOpen(v: Volume, ptr: nat, d: nat)
    requires v.Valid()
    decreases d, 1, 0
  {
    if d == 0 then CanTry(v, v.Offset(ptr))
    else CanRead(v, v.Offset(ptr)) && AllOpen(v, Live(Pointers(v.BytesAt(v.Offset(ptr)))), d - 1)
  }

  ghost predicate AllOpen(v: Volume, ptrs: seq<nat>, d: nat)
    requires v.Valid()
    decreases d, 2, |ptrs|
  {
    ptrs == [] || (UnderOpen(v, ptrs[0], d) && AllOpen(v, ptrs[1..], d))
  }

  /** The file's pointer blocks can be read, and none of its data blocks lies where a read stops the kernel. */
  ghost predicate FileOpen(v: Volume, n: Inode)
    requires v.Valid() && n.Valid()
  {
    AllOpen(v, Live(n.iBlock[..12]), 0) && SingleOpen(v, n) && BehindOpen(v, n, 13) && BehindOpen(v, n, 14)
  }

  ghost predicate SingleOpen(v: Volume, n: Inode)
    requires v.Valid() && n.Valid()
  {
    n.iBlock[12] == 0 || (CanRead(v, v.WideOffset(n.iBlock[12])) && AllOpen(v, Live(SinglePointers(v, n)), 0))
  }

  ghost predicate BehindOpen(v: Volume, n: Inode, slot: nat)
    requires v.Valid() && n.Valid() && 12 <= slot < 15
  {
    n.iBlock[slot] == 0 || UnderOpen(v, n.iBlock[slot], slot - 11)
  }

  /** What is in the data buffer after the blocks were read one after the other: the last one that could be read. */
  ghost function Buffered(v: Volume, blocks: seq<nat>, init: seq<Byte>): (r: seq<Byte>)
    requires |init| == v.bs
    ensures |r| == v.bs
  {
    if blocks == [] then init
    else if CanRead(v, v.Offset(blocks[|blocks| - 1])) then v.BytesAt(v.Offset(blocks[|blocks| - 1]))
    else Buffered(v, blocks[..|blocks| - 1], init)
  }

  /** What is copied out for them: the buffer each time, so a block that cannot be read repeats the one before. */
  ghost function Served(v: Volume, blocks: seq<nat>, init: seq<Byte>): (r: seq<Byte>)
    requires |init| == v.bs
    ensures |r| == |blocks| * v.bs
  {
    if blocks == [] then [] else Served(v, blocks[..|blocks| - 1], init) + Buffered(v, blocks, init)
  }

  // ----- the index arithmetic of ext2 -----

  function Power(n: nat, d: nat): (p: nat)
    ensures n > 0 ==> p > 0
  {
    if d == 0 then 1 else n * Power(n, d - 1)
  }

  /** The pointers a pointer block holds, read from its own place on the disk. */
  function PointersIn(v: Volume, ptr: nat): seq<nat> { Pointers(v.BytesAt(v.Place(ptr))) }

  /** Data block k below a pointer with d levels of indirect blocks, by division and remainder; 0 is a hole. */
  function Lookup(v: Volume, ptr: nat, d: nat, k: nat): nat
    requires v.Valid()
    decreases d
  {
    if ptr == 0 then 0
    else if d == 0 then ptr
    else
      var each := Power(v.PerBlock(), d - 1);
      var ptrs := PointersIn(v, ptr);
      if k / each < |ptrs| then Lookup(v, ptrs[k / each], d - 1, k % each) else 0
  }

  /** No pointer block on the way to data block k lies so far out that its byte offset does not fit 32 bits. */
  predicate Near(v: Volume, ptr: nat, d: nat, k: nat)
    requires v.Valid()
    decreases d
  {
    ptr == 0 || d == 0 || (ptr * v.bs < 0x1_0000_0000 &&
      var each := Power(v.PerBlock(), d - 1);
      var ptrs := PointersIn(v, ptr);
      k / each < |ptrs| ==> Near(v, ptrs[k / each], d - 1, k % each))
  }

  function LookupBehind(v: Volume, n: Inode, slot: nat, k: nat): nat
    requires v.Valid() && n.Valid() && 12 <= slot < 15
  {
    Lookup(v, n.iBlock[slot], slot - 11, k)
  }

  predicate NearBehind(v: Volume, n: Inode, slot: nat, k: nat)
    requires v.Valid() && n.Valid() && 12 <= slot < 15
  {
    Near(v, n.iBlock[slot], slot - 11, k)
  }

  /** Logical block k of the file: twelve direct ones, then n, n^2 and n^3 behind one, two and three levels. */
  function BlockOf(v: Volume, n: Inode, k: nat): nat
    requires v.Valid() && n.Valid()
  {
    var p := v.PerBlock();
    if k < 12 then n.iBlock[k]
    else if k - 12 < p then if n.iBlock[12] == 0 then 0 else PointersIn(v, n.iBlock[12])[k - 12]
    else if k - 12 - p < Power(p, 2) then LookupBehind(v, n, 13, k - 12 - p)
    else LookupBehind(v, n, 14, k - 12 - p - Power(p, 2))
  }

  /** The pointer blocks on the way to logical block k lie near enough for the reader: the single indirect one within
      64 bits, the others within 32. */
  predicate NearBlock(v: Volume, n: Inode, k: nat)
    requires v.Valid() && n.Valid()
  {
    var p := v.PerBlock();
    if k < 12 then true
    else if k - 12 < p then n.iBlock[12] * v.bs < U64
    else if k - 12 - p < Power(p, 2) then NearBehind(v, n, 13, k - 12 - p)
    else NearBehind(v, n, 14, k - 12 - p - Power(p, 2))
  }
}
