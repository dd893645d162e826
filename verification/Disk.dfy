/** `diskRead`: any byte range of a disk, put together from 512-byte sectors. */
module Disk {
  import opened Memory

  const SECTOR: nat := 512
  const SECTOR_LIMIT: nat := 16 * 1024 * 1024

  datatype Status = Read | Failed | Halted

  /** A value as the `int` a sector number is passed as. */
  function AsInt(n: nat): int { (n + 0x8000_0000) % 0x1_0000_0000 - 0x8000_0000 }

  /** The disk: whether it can be selected, its bytes, and the sectors that cannot be read. */
  datatype Drive = Drive(selectable: bool, data: seq<Byte>, bad: set<nat>) {
    predicate Good(sector: nat) { selectable && SECTOR * (sector + 1) <= |data| && sector !in bad }

    /** Every sector that the n bytes at `offset` touch can be addressed and read. */
    ghost predicate Readable(offset: nat, n: nat) {
      && n > 0 && (offset + n - 1) / SECTOR < SECTOR_LIMIT
      && forall s :: offset / SECTOR <= s <= (offset + n - 1) / SECTOR ==> Good(s)
    }
  }

  function Address(block: nat): nat { AsInt(block) % 0x1000_0000 }

  /** `readSector`: a drive that cannot be selected fails; then numbers from the limit on stop the kernel, and the
      drive takes 28 bits of the rest. */
  method ReadSector(d: Drive, block: nat, buf: array<Byte>, at: nat) returns (st: Status)
    requires at + SECTOR <= buf.Length
    modifies buf
    ensures st == Halted <==> d.selectable && AsInt(block) >= SECTOR_LIMIT
    ensures st != Halted ==> st == if d.Good(Address(block)) then Read else Failed
    ensures st == Read ==>
      forall j :: at <= j < at + SECTOR ==> buf[j] == d.data[SECTOR * Address(block) + (j - at)]
    ensures forall j :: 0 <= j < buf.Length && !(at <= j < at + SECTOR) ==> buf[j] == old(buf[j])
  {
    if !d.selectable {
      return Failed;
    }
    if AsInt(block) >= SECTOR_LIMIT {
      return Halted;
    }
    var first := SECTOR * Address(block);
    if !d.Good(Address(block)) {
      return Failed;
    }
    var k := 0;
    while k < SECTOR
      invariant 0 <= k <= SECTOR
      invariant forall j :: at <= j < at + k ==> buf[j] == d.data[first + (j - at)]
      invariant forall j :: 0 <= j < buf.Length && !(at <= j < at + SECTOR) ==> buf[j] == old(buf[j])
    {
      buf[at + k] := d.data[first + k];
      k := k + 1;
    }
    return Read;
  }

  lemma SmallAddress(block: nat)
    requires block < SECTOR_LIMIT
    ensures Address(block) == block && AsInt(block) == block
  {
  }

  /** The n sectors from `first` on can be addressed and read. */
  ghost predicate AllGood(d: Drive, first: nat, n: nat) {
    first + n <= SECTOR_LIMIT && forall s: nat :: first <= s < first + n ==> d.Good(s)
  }

  /** The sector loop of `diskRead`, each sector tried twice. */
  method ReadSectors(d: Drive, first: nat, n: nat, buf: array<Byte>) returns (st: Status)
    requires buf.Length == n * SECTOR
    modifies buf
    ensures first + n <= SECTOR_LIMIT ==> st != Halted && (st == Read <==> AllGood(d, first, n))
    ensures AllGood(d, first, n) && n > 0 ==>
      SECTOR * (first + n) <= |d.data| && buf[..] == d.data[SECTOR * first..SECTOR * (first + n)]
  {
    hide Address, AsInt;
    var i := 0;
    st := Read;
    while i < n
      invariant 0 <= i <= n && st == Read
      invariant first + n <= SECTOR_LIMIT ==> AllGood(d, first, i)
      invariant first + n <= SECTOR_LIMIT && i > 0 ==>
        SECTOR * (first + i) <= |d.data| && buf[..SECTOR * i] == d.data[SECTOR * first..SECTOR * (first + i)]
    {
      ghost var before := buf[..SECTOR * i];
      if first + n <= SECTOR_LIMIT {
        SmallAddress(first + i);
      }
      st := ReadSector(d, first + i, buf, i * SECTOR);
      if st == Failed {
        st := ReadSector(d, first + i, buf, i * SECTOR);
      }
      if st != Read {
        return;
      }
      assert buf[..SECTOR * i] == before;
      if first + n <= SECTOR_LIMIT {
        SectorMore(d.data, first, i, buf[..], before);
      }
      i := i + 1;
    }
    assert buf[..] == buf[..SECTOR * n];
  }

  /** One sector more in the buffer. */
  lemma SectorMore(data: seq<Byte>, first: nat, i: nat, buf: seq<Byte>, before: seq<Byte>)
    requires SECTOR * (i + 1) <= |buf| && SECTOR * (first + i + 1) <= |data|
    requires before == buf[..SECTOR * i] && (i > 0 ==> before == data[SECTOR * first..SECTOR * (first + i)])
    requires forall j :: SECTOR * i <= j < SECTOR * (i + 1) ==> buf[j] == data[SECTOR * (first + i) + (j - SECTOR * i)]
    ensures buf[..SECTOR * (i + 1)] == data[SECTOR * first..SECTOR * (first + i + 1)]
  {
    var part, sector := buf[SECTOR * i..SECTOR * (i + 1)], data[SECTOR * (first + i)..SECTOR * (first + i + 1)];
    assert forall k :: 0 <= k < SECTOR ==> part[k] == sector[k];
    assert part == sector;
    assert buf[..SECTOR * (i + 1)] == before + part;
  }

  /** The sectors of a byte range. */
  lemma ReadableIs(d: Drive, offset: nat, count: nat)
    requires count > 0
    ensures var first, last := offset / SECTOR, (offset + count - 1) / SECTOR;
      last >= first && (d.Readable(offset, count) <==> AllGood(d, first, last - first + 1))
      && SECTOR * first + offset % SECTOR == offset && offset + count <= SECTOR * (last + 1)
  {
    hide Drive.Good;
  }

  /** `diskRead`: the sectors that hold the range, then the range copied out. */
  method DiskRead(d: Drive, offset: nat, count: nat, dest: array<Byte>) returns (st: Status)
    requires count <= dest.Length && (count > 0 || offset > 0)
    modifies dest
    ensures d.Readable(offset, count) ==>
      && st == Read && offset + count <= |d.data|
      && dest[..] == d.data[offset..offset + count] + old(dest[count..])
    ensures (offset + count - 1) / SECTOR < SECTOR_LIMIT ==>
        st != Halted && (st == Read && count > 0 ==> d.Readable(offset, count))
    ensures st != Read || count == 0 ==> dest[..] == old(dest[..])
  {
    var blBegin := offset / SECTOR;
    var blEnd := (offset + count - 1) / SECTOR;
    var blocks := blEnd - blBegin + 1;
    assert count == 0 ==> !d.Readable(offset, count);
    if count > 0 { ReadableIs(d, offset, count); }
    hide Drive.Readable, AllGood;
    var blBuffer := new Byte[blocks * SECTOR];
    st := ReadSectors(d, blBegin, blocks, blBuffer);
    if st != Read {
      return;
    }
    CopyRange(blBuffer, offset % SECTOR, count, dest);
    if d.Readable(offset, count) {
      Sliced(d.data, SECTOR * blBegin, SECTOR * (blBegin + blocks), offset, count);
    }
  }

  /** A range of a range of the disk. */
  lemma Sliced(data: seq<Byte>, lo: nat, hi: nat, offset: nat, count: nat)
    requires lo <= offset && offset + count <= hi <= |data|
    ensures data[lo..hi][offset - lo..offset - lo + count] == data[offset..offset + count]
  {
    var part := data[lo..hi];
    var a, b := part[offset - lo..offset - lo + count], data[offset..offset + count];
    assert forall k :: 0 <= k < count ==> a[k] == part[offset - lo + k] == b[k];
  }

  /** The `memcpy` at the end of `diskRead`. */
  method CopyRange(src: array<Byte>, skip: nat, count: nat, dest: array<Byte>)
    requires src != dest && count <= dest.Length && (count > 0 ==> skip + count <= src.Length)
    modifies dest
    ensures count > 0 ==> dest[..] == src[skip..skip + count] + old(dest[count..])
    ensures count == 0 ==> dest[..] == old(dest[..])
  {
    var k := 0;
    while k < count
      invariant 0 <= k <= count
      invariant k > 0 ==> dest[..k] == src[skip..skip + k]
      invariant dest[k..] == old(dest[k..])
    {
      dest[k] := src[skip + k];
      k := k + 1;
    }
    if count > 0 {
      assert dest[..] == dest[..count] + dest[count..];
    }
  }
}
