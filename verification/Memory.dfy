/** Bytes of virtual memory, the chunk header packed into eight of them, and memcpy. */
module Memory {

  type Byte = x: int | 0 <= x < 256

  const HSIZE: nat := 8
  const MAGIC: nat := 0x2B4F
  const SIZE_LIMIT: nat := 0x1_0000_0000_0000

  /** `struct ChunkHeader`: 48 bits of size, 14 of magic, then the two flags. */
  datatype Header = Header(size: nat, magic: nat, used: bool, notOurs: bool) {
    predicate Packable() { size < SIZE_LIMIT && magic < 0x4000 }
  }

  function Flag(b: bool): nat { if b then 1 else 0 }

  function Pow256(n: nat): (p: nat)
    ensures p >= 1
  {
    if n == 0 then 1 else 0x100 * Pow256(n - 1)
  }

  /** The n low bytes of v, least significant first. */
  function LittleEndian(v: nat, n: nat): (b: seq<Byte>)
    ensures |b| == n
  {
    if n == 0 then [] else [v % 0x100] + LittleEndian(v / 0x100, n - 1)
  }

  function Value(b: seq<Byte>): (v: nat)
    ensures v < Pow256(|b|)
  {
    if b == [] then 0 else b[0] + 0x100 * Value(b[1..])
  }

  lemma {:induction false} ValueOfLittleEndian(v: nat, n: nat)
    requires v < Pow256(n)
    ensures Value(LittleEndian(v, n)) == v
  {
    if n == 0 {
    } else {
      ValueOfLittleEndian(v / 0x100, n - 1);
      assert LittleEndian(v, n)[1..] == LittleEndian(v / 0x100, n - 1);
    }
  }

  lemma {:induction false} LittleEndianOfValue(b: seq<Byte>)
    ensures LittleEndian(Value(b), |b|) == b
  {
    if b == [] {
    } else {
      LittleEndianOfValue(b[1..]);
      assert Value(b) % 0x100 == b[0] && Value(b) / 0x100 == Value(b[1..]);
    }
  }

  lemma SixBytes()
    ensures Pow256(6) == SIZE_LIMIT
  {
    assert Pow256(3) == 0x100_0000;
  }

  function Word(h: Header): (b: seq<Byte>)
    requires h.Packable()
    ensures |b| == HSIZE
  {
    LittleEndian(h.size, 6) + [h.magic % 0x100, h.magic / 0x100 + 0x40 * Flag(h.used) + 0x80 * Flag(h.notOurs)]
  }

  function Unword(b: seq<Byte>): (h: Header)
    requires |b| == HSIZE
    ensures h.Packable()
  {
    SixBytes();
    Header(Value(b[..6]), b[6] as int + 0x100 * (b[7] as int % 0x40), b[7] / 0x40 % 2 == 1, b[7] / 0x80 == 1)
  }

  /** The header as one number of 64 bits: 48 of size, 14 of magic, then the two flags. */
  lemma WordBits(h: Header)
    requires h.Packable()
    ensures Value(Word(h)) ==
            h.size + 0x1_0000_0000_0000 * h.magic
            + 0x4000_0000_0000_0000 * Flag(h.used) + 0x8000_0000_0000_0000 * Flag(h.notOurs)
  {
    SixBytes();
    ValueOfLittleEndian(h.size, 6);
    var top := [h.magic % 0x100, h.magic / 0x100 + 0x40 * Flag(h.used) + 0x80 * Flag(h.notOurs)];
    ValueAppend(LittleEndian(h.size, 6), top);
    assert top[1..] == [top[1]] && [top[1]][1..] == [];
    assert Value([top[1]]) == top[1];
    assert Value(top) == top[0] + 0x100 * top[1] == h.magic + 0x4000 * Flag(h.used) + 0x8000 * Flag(h.notOurs);
  }

  lemma {:induction false} ValueAppend(a: seq<Byte>, b: seq<Byte>)
    ensures Value(a + b) == Value(a) + Pow256(|a|) * Value(b)
  {
    if a == [] {
      assert a + b == b;
    } else {
      assert (a + b)[1..] == a[1..] + b;
      ValueAppend(a[1..], b);
      ValueFirst(a);
      ValueFirst(a + b);
      hide Value, Pow256;
      PowerSteps(Value(a[1..]), Pow256(|a[1..]|), Value(b));
    }
  }

  lemma ValueFirst(a: seq<Byte>)
    requires a != []
    ensures Value(a) == a[0] + 0x100 * Value(a[1..]) && Pow256(|a|) == 0x100 * Pow256(|a[1..]|)
  {
  }

  lemma PowerSteps(x: nat, p: nat, v: nat)
    ensures 0x100 * (x + p * v) == 0x100 * x + (0x100 * p) * v
  {
  }

  lemma UnwordOfWord(h: Header)
    requires h.Packable()
    ensures Unword(Word(h)) == h
  {
    SixBytes();
    ValueOfLittleEndian(h.size, 6);
    assert Word(h)[..6] == LittleEndian(h.size, 6);
  }

  lemma WordOfUnword(b: seq<Byte>)
    requires |b| == HSIZE
    ensures Word(Unword(b)) == b
  {
    LittleEndianOfValue(b[..6]);
  }

  /** The header stored at address a. */
  function GetHeader(m: seq<Byte>, a: nat): (h: Header)
    requires a + HSIZE <= |m|
    ensures h.Packable()
  {
    Unword(m[a..a + HSIZE])
  }

  function PutHeader(m: seq<Byte>, a: nat, h: Header): (m': seq<Byte>)
    requires a + HSIZE <= |m| && h.Packable()
    ensures |m'| == |m|
  {
    m[..a] + Word(h) + m[a + HSIZE..]
  }

  /** m and m2 differ at most inside [lo, hi). */
  ghost predicate SameOutside(m: seq<Byte>, m2: seq<Byte>, lo: int, hi: int) {
    |m| == |m2| && forall k :: 0 <= k < |m| && (k < lo || hi <= k) ==> m2[k] == m[k]
  }

  lemma PutHeaderEffect(m: seq<Byte>, a: nat, h: Header)
    requires a + HSIZE <= |m| && h.Packable()
    ensures GetHeader(PutHeader(m, a, h), a) == h
    ensures SameOutside(m, PutHeader(m, a, h), a, a + HSIZE)
  {
    assert PutHeader(m, a, h)[a..a + HSIZE] == Word(h);
    UnwordOfWord(h);
  }

  lemma HeaderFrame(m: seq<Byte>, m2: seq<Byte>, a: nat)
    requires |m| == |m2| && a + HSIZE <= |m|
    requires forall k :: a <= k < a + HSIZE ==> m2[k] == m[k]
    ensures GetHeader(m2, a) == GetHeader(m, a)
  {
    assert m2[a..a + HSIZE] == m[a..a + HSIZE];
  }

  lemma HeaderIsWord(m: seq<Byte>, a: nat, h: Header)
    requires a + HSIZE <= |m| && h.Packable()
    ensures GetHeader(m, a) == h <==> m[a..a + HSIZE] == Word(h)
  {
    hide Word, Unword;
    WordOfUnword(m[a..a + HSIZE]);
    UnwordOfWord(h);
  }

  method WriteHeader(mem: array<Byte>, a: nat, h: Header)
    requires a + HSIZE <= mem.Length && h.Packable()
    modifies mem
    ensures mem[..] == PutHeader(old(mem[..]), a, h)
  {
    hide Word;
    var w := Word(h);
    var i := 0;
    while i < HSIZE
      invariant 0 <= i <= HSIZE
      invariant forall k :: 0 <= k < mem.Length ==> mem[k] == if a <= k < a + i then w[k - a] else old(mem[k])
    {
      mem[a + i] := w[i];
      i := i + 1;
    }
    PutHeaderBytes(old(mem[..]), mem[..], a, h);
  }

  lemma PutHeaderBytes(m: seq<Byte>, m2: seq<Byte>, a: nat, h: Header)
    requires a + HSIZE <= |m| == |m2| && h.Packable()
    requires forall k :: 0 <= k < |m| ==> m2[k] == if a <= k < a + HSIZE then Word(h)[k - a] else m[k]
    ensures m2 == PutHeader(m, a, h)
  {
    hide Word;
  }

  /** What memory holds after `count` bytes are moved from src to dest, all read before any is written. */
  function Moved(m: seq<Byte>, dest: nat, src: nat, count: nat): (m': seq<Byte>)
    requires dest + count <= |m| && src + count <= |m|
    ensures |m'| == |m|
  {
    m[..dest] + m[src..src + count] + m[dest + count..]
  }

  /** The forward byte copy; with overlap it is a move only when dest lies below src. */
  method Memcpy(mem: array<Byte>, dest: nat, src: nat, count: nat)
    requires dest + count <= mem.Length && src + count <= mem.Length
    modifies mem
    ensures dest <= src || src + count <= dest ==> mem[..] == Moved(old(mem[..]), dest, src, count)
  {
    ghost var m := mem[..];
    var d, s, n := dest, src, count;
    while n != 0
      invariant 0 <= n <= count && d == dest + (count - n) && s == src + (count - n)
      invariant dest <= src || src + count <= dest ==> forall k :: dest <= k < d ==> mem[k] == m[src + (k - dest)]
      invariant forall k :: 0 <= k < mem.Length && (k < dest || d <= k) ==> mem[k] == m[k]
    {
      n := n - 1;
      mem[d] := mem[s];
      d, s := d + 1, s + 1;
    }
    if dest <= src || src + count <= dest {
      MovedBytes(m, mem[..], dest, src, count);
    }
  }

  lemma MovedBytes(m: seq<Byte>, m2: seq<Byte>, dest: nat, src: nat, count: nat)
    requires |m| == |m2| && dest + count <= |m| && src + count <= |m|
    requires forall k :: dest <= k < dest + count ==> m2[k] == m[src + (k - dest)]
    requires forall k :: 0 <= k < |m| && (k < dest || dest + count <= k) ==> m2[k] == m[k]
    ensures m2 == Moved(m, dest, src, count)
  {
  }
}
