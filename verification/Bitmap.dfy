/** The bitmap of physical pages: one bit a page, set while the page is in use. */
module Bitmap {

  /** `1 << bit` in a byte. */
  function Mask(bit: nat): bv8
    requires bit < 8
  {
    match bit
    case 0 => 0x01 case 1 => 0x02 case 2 => 0x04 case 3 => 0x08
    case 4 => 0x10 case 5 => 0x20 case 6 => 0x40 case 7 => 0x80
  }

  predicate BitSet(b: bv8, bit: nat)
    requires bit < 8
  {
    b & Mask(bit) != 0
  }

  lemma SetOneBit(b: bv8, i: nat, j: nat)
    requires i < 8 && j < 8
    ensures BitSet(b | Mask(i), j) <==> i == j || BitSet(b, j)
  {
  }

  lemma ClearOneBit(b: bv8, i: nat, j: nat)
    requires i < 8 && j < 8
    ensures BitSet(b & !Mask(i), j) <==> i != j && BitSet(b, j)
  {
  }

  lemma FullByte(b: bv8, j: nat)
    requires j < 8
    ensures b == 0xFF ==> BitSet(b, j)
  {
  }

  /** Page p is marked used in the map of `pages` pages. */
  predicate Used(m: seq<bv8>, p: nat) {
    p / 8 < |m| && BitSet(m[p / 8], p % 8)
  }

  function UsedPages(m: seq<bv8>, pages: nat): set<nat> {
    set p: nat | p < pages && Used(m, p)
  }

  class PageMap {
    const bits: array<bv8>
    const pages: nat

    ghost predicate Valid() reads this { 8 * bits.Length >= pages }

    ghost function InUse(): set<nat>
      reads this, bits
    {
      UsedPages(bits[..], pages)
    }

    /** `memzero` of the map. */
    constructor (maxPhysPages: nat)
      ensures Valid() && fresh(bits) && pages == maxPhysPages && InUse() == {}
    {
      pages := maxPhysPages;
      bits := new bv8[maxPhysPages / 8 + if maxPhysPages % 8 != 0 then 1 else 0](_ => 0);
      new;
      forall p: nat | p < pages ensures !Used(bits[..], p) {
        NoBits(p % 8);
      }
    }

    method MarkFree(page: nat)
      requires Valid()
      modifies bits
      ensures InUse() == old(InUse()) - {page}
    {
      if page >= pages {
        return;
      }
      ghost var m := bits[..];
      bits[page / 8] := bits[page / 8] & !Mask(page % 8);
      forall p: nat | p < pages ensures Used(bits[..], p) <==> p != page && Used(m, p) {
        ClearOneBit(m[page / 8], page % 8, p % 8);
        SameByte(p, page);
      }
    }

    method MarkUsed(page: nat)
      requires Valid()
      modifies bits
      ensures InUse() == old(InUse()) + if page < pages then {page} else {}
    {
      if page >= pages {
        return;
      }
      ghost var m := bits[..];
      bits[page / 8] := bits[page / 8] | Mask(page % 8);
      forall p: nat | p < pages ensures Used(bits[..], p) <==> p == page || Used(m, p) {
        SetOneBit(m[page / 8], page % 8, p % 8);
        SameByte(p, page);
      }
    }

    /** The first free page among those whose byte lies wholly in the map. */
    method FirstFree() returns (found: bool, page: nat)
      requires Valid()
      ensures found ==> page < 8 * (pages / 8) && page !in InUse() && forall p: nat :: p < page ==> p in InUse()
      ensures !found ==> forall p: nat :: p < 8 * (pages / 8) ==> p in InUse()
    {
      var byte := 0;
      while byte < pages / 8
        invariant 0 <= byte <= pages / 8
        invariant forall p: nat :: p < 8 * byte ==> p in InUse()
      {
        if bits[byte] != 0xFF {
          var bit := 0;
          while bit < 8
            invariant 0 <= bit <= 8
            invariant forall p: nat :: p < 8 * byte + bit ==> p in InUse()
          {
            assert (8 * byte + bit) / 8 == byte && (8 * byte + bit) % 8 == bit;
            if bits[byte] & Mask(bit) == 0 {
              return true, 8 * byte + bit;
            }
            bit := bit + 1;
          }
        } else {
          forall p: nat | 8 * byte <= p < 8 * byte + 8 ensures p in InUse() {
            FullByte(bits[byte], p % 8);
          }
        }
        byte := byte + 1;
      }
      return false, 0;
    }
  }

  lemma NoBits(j: nat)
    requires j < 8
    ensures !BitSet(0, j)
  {
  }

  lemma SameByte(p: nat, q: nat)
    ensures p == q <==> p / 8 == q / 8 && p % 8 == q % 8
  {
  }
}
