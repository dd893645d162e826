/** The blocks visited in order are the blocks ext2's index arithmetic names. */
module BlockIndex {
  import opened Memory
  import opened Units
  import opened Division
  import opened Disk
  import opened BlockTree

  lemma {:induction false} UnderCount(v: Volume, ptr: nat, d: nat)
    requires v.Valid()
    ensures |Under(v, ptr, d)| <= Power(v.PerBlock(), d)
    decreases d, 1, 0
  {
    if d == 0 {
    } else {
      var ptrs := Pointers(v.BytesAt(v.Offset(ptr)));
      UnderAllCount(v, Live(ptrs), d - 1);
      MulMonotone(|Live(ptrs)|, v.PerBlock(), Power(v.PerBlock(), d - 1));
    }
  }

  lemma {:induction false} UnderAllCount(v: Volume, ptrs: seq<nat>, d: nat)
    requires v.Valid()
    ensures |UnderAll(v, ptrs, d)| <= |ptrs| * Power(v.PerBlock(), d)
    decreases d, 2, |ptrs|
  {
    hide Power, Under;
    if ptrs == [] {
    } else {
      UnderCount(v, ptrs[0], d);
      UnderAllCount(v, ptrs[1..], d);
      OneMore(|ptrs[1..]|, Power(v.PerBlock(), d));
    }
  }

  /** Block k below pointer k / each of a list. */
  function ListLookup(v: Volume, ptrs: seq<nat>, d: nat, k: nat): nat
    requires v.Valid()
  {
    var each := Power(v.PerBlock(), d);
    if k / each < |ptrs| then Lookup(v, ptrs[k / each], d, k % each) else 0
  }

  /** The pointer blocks behind pointer k / each of a list lie near enough. */
  predicate ListNear(v: Volume, ptrs: seq<nat>, d: nat, k: nat)
    requires v.Valid()
  {
    var each := Power(v.PerBlock(), d);
    k / each < |ptrs| ==> Near(v, ptrs[k / each], d, k % each)
  }

  // Statements about the first M blocks below a pointer, or below a list of pointers.

  ghost predicate DenseTo(v: Volume, ptr: nat, d: nat, M: nat)
    requires v.Valid()
  {
    forall k: nat :: k < M ==> Lookup(v, ptr, d, k) != 0 && Near(v, ptr, d, k)
  }

  ghost predicate ListDenseTo(v: Volume, ptrs: seq<nat>, d: nat, M: nat)
    requires v.Valid()
  {
    forall k: nat :: k < M ==> ListLookup(v, ptrs, d, k) != 0 && ListNear(v, ptrs, d, k)
  }

  ghost predicate InOrder(v: Volume, ptr: nat, d: nat, M: nat)
    requires v.Valid()
  {
    M <= |Under(v, ptr, d)| && forall k: nat :: k < M ==> Under(v, ptr, d)[k] == Lookup(v, ptr, d, k)
  }

  ghost predicate ListInOrder(v: Volume, ptrs: seq<nat>, d: nat, M: nat)
    requires v.Valid()
  {
    && M <= |UnderAll(v, Live(ptrs), d)|
    && forall k: nat :: k < M ==> UnderAll(v, Live(ptrs), d)[k] == ListLookup(v, ptrs, d, k)
  }

  /** The pointers the reader finds. */
  function PointersAt(v: Volume, ptr: nat): seq<nat> { Pointers(v.BytesAt(v.Offset(ptr))) }

  lemma NearOffset(v: Volume, ptr: nat)
    requires ptr * v.bs < 0x1_0000_0000
    ensures v.Offset(ptr) == v.Place(ptr) && PointersAt(v, ptr) == PointersIn(v, ptr)
  {
    hide Pointers, Volume.BytesAt;
    DivSmall(ptr * v.bs, 0x1_0000_0000);
  }

  lemma DenseBelow(v: Volume, ptr: nat, d: nat, M: nat)
    requires v.Valid() && d > 0 && DenseTo(v, ptr, d, M)
    ensures ListDenseTo(v, PointersAt(v, ptr), d - 1, M)
  {
    hide Power, PointersAt, PointersIn;
    var ptrs, e := PointersAt(v, ptr), d - 1;
    forall k: nat | k < M ensures ListLookup(v, ptrs, e, k) != 0 && ListNear(v, ptrs, e, k) {
      assert Lookup(v, ptr, d, k) != 0 && Near(v, ptr, d, k);
      NearOffset(v, ptr);
    }
  }

  lemma InOrderAbove(v: Volume, ptr: nat, d: nat, M: nat)
    requires v.Valid() && d > 0 && DenseTo(v, ptr, d, M) && ListInOrder(v, PointersAt(v, ptr), d - 1, M)
    ensures InOrder(v, ptr, d, M)
  {
    hide Power, Pointers, Live, PointersIn;
    assert Under(v, ptr, d) == UnderAll(v, Live(PointersAt(v, ptr)), d - 1);
    var ptrs, e := PointersAt(v, ptr), d - 1;
    forall k: nat | k < M ensures Lookup(v, ptr, d, k) == ListLookup(v, ptrs, e, k) {
      assert Lookup(v, ptr, d, k) != 0 && Near(v, ptr, d, k);
      NearOffset(v, ptr);
    }
  }

  /** The first M blocks below a pointer are visited in index order when all of them are there. */
  lemma {:induction false} UnderIndex(v: Volume, ptr: nat, d: nat, M: nat)
    requires v.Valid() && M <= Power(v.PerBlock(), d) && DenseTo(v, ptr, d, M)
    ensures InOrder(v, ptr, d, M)
    decreases d, 1, 0
  {
    if d == 0 {
    } else {
      hide DenseTo, ListDenseTo, InOrder, ListInOrder, PointersAt, Power;
      DenseBelow(v, ptr, d, M);
      UnderAllIndex(v, PointersAt(v, ptr), d - 1, M);
      InOrderAbove(v, ptr, d, M);
    }
  }

  lemma {:induction false} UnderAllIndex(v: Volume, ptrs: seq<nat>, d: nat, M: nat)
    requires v.Valid() && ListDenseTo(v, ptrs, d, M)
    ensures ListInOrder(v, ptrs, d, M)
    decreases d, 2, |ptrs|
  {
    hide DenseTo, ListDenseTo, InOrder, Power;
    if M == 0 {
    } else {
      hide ListInOrder;
      var each := Power(v.PerBlock(), d);
      var m := if M < each then M else each;
      FirstOfList(v, ptrs, d, M, m);
      UnderIndex(v, ptrs[0], d, m);
      if M > each {
        RestOfList(v, ptrs, d, M);
        UnderAllIndex(v, ptrs[1..], d, M - each);
        JoinFull(v, ptrs, d, M);
      } else {
        JoinLast(v, ptrs, d, M);
      }
    }
  }

  lemma LiveFirst(v: Volume, ptrs: seq<nat>, d: nat)
    requires ptrs != [] && ptrs[0] != 0
    ensures UnderAll(v, Live(ptrs), d) == Under(v, ptrs[0], d) + UnderAll(v, Live(ptrs[1..]), d)
  {
    hide Under;
    assert Live(ptrs)[1..] == Live(ptrs[1..]);
  }

  lemma FirstOfList(v: Volume, ptrs: seq<nat>, d: nat, M: nat, m: nat)
    requires v.Valid() && 0 < m <= Power(v.PerBlock(), d) && m <= M && ListDenseTo(v, ptrs, d, M)
    ensures ptrs != [] && ptrs[0] != 0 && DenseTo(v, ptrs[0], d, m)
  {
    FirstThere(v, ptrs, d, M, 0);
    assert ptrs[0] != 0;
    hide Power, ListDenseTo, Lookup, Near;
    forall k: nat | k < m ensures Lookup(v, ptrs[0], d, k) != 0 && Near(v, ptrs[0], d, k) {
      FirstThere(v, ptrs, d, M, k);
    }
  }

  lemma FirstThere(v: Volume, ptrs: seq<nat>, d: nat, M: nat, k: nat)
    requires v.Valid() && k < M && k < Power(v.PerBlock(), d) && ListDenseTo(v, ptrs, d, M)
    ensures ptrs != [] && Lookup(v, ptrs[0], d, k) != 0 && Near(v, ptrs[0], d, k)
  {
    hide Power, Lookup, Near;
    DivSmall(k, Power(v.PerBlock(), d));
    assert ListLookup(v, ptrs, d, k) != 0 && ListNear(v, ptrs, d, k);
  }

  lemma RestOfList(v: Volume, ptrs: seq<nat>, d: nat, M: nat)
    requires v.Valid() && ptrs != [] && Power(v.PerBlock(), d) < M && ListDenseTo(v, ptrs, d, M)
    ensures ListDenseTo(v, ptrs[1..], d, M - Power(v.PerBlock(), d))
  {
    hide Power, Lookup, Near;
    var each := Power(v.PerBlock(), d);
    var rest := ptrs[1..];
    forall k: nat | k < M - each ensures ListLookup(v, rest, d, k) != 0 && ListNear(v, rest, d, k) {
      DivShift(k, each);
      assert ListLookup(v, ptrs, d, k + each) != 0 && ListNear(v, ptrs, d, k + each);
    }
  }

  lemma JoinLast(v: Volume, ptrs: seq<nat>, d: nat, M: nat)
    requires v.Valid() && ptrs != [] && ptrs[0] != 0 && 0 < M <= Power(v.PerBlock(), d) && InOrder(v, ptrs[0], d, M)
    ensures ListInOrder(v, ptrs, d, M)
  {
    hide Power, Live, Under, Lookup, UnderAll;
    LiveFirst(v, ptrs, d);
    forall k: nat | k < M ensures ListLookup(v, ptrs, d, k) == Lookup(v, ptrs[0], d, k) {
      DivSmall(k, Power(v.PerBlock(), d));
    }
  }

  lemma JoinFull(v: Volume, ptrs: seq<nat>, d: nat, M: nat)
    requires v.Valid() && ptrs != [] && ptrs[0] != 0 && Power(v.PerBlock(), d) < M
    requires InOrder(v, ptrs[0], d, Power(v.PerBlock(), d))
    requires ListInOrder(v, ptrs[1..], d, M - Power(v.PerBlock(), d))
    ensures ListInOrder(v, ptrs, d, M)
  {
    hide Power, Live, Under, Lookup, UnderAll;
    var each := Power(v.PerBlock(), d);
    UnderCount(v, ptrs[0], d);
    LiveFirst(v, ptrs, d);
    var all, first, rest := UnderAll(v, Live(ptrs), d), Under(v, ptrs[0], d), UnderAll(v, Live(ptrs[1..]), d);
    forall k: nat | k < M ensures all[k] == ListLookup(v, ptrs, d, k) {
      if k < each {
        DivSmall(k, each);
        assert all[k] == first[k];
      } else {
        DivShift(k - each, each);
        assert all[k] == rest[k - each] == ListLookup(v, ptrs[1..], d, k - each);
      }
    }
  }

  // ----- the four parts of a file -----

  /** The blocks visited behind the direct, single, double and triple pointers. */
  function Part(v: Volume, n: Inode, i: nat): seq<nat>
    requires n.Valid() && i < 4
  {
    if i == 0 then UnderAll(v, Live(n.iBlock[..12]), 0)
    else if i == 1 then if n.iBlock[12] == 0 then [] else UnderAll(v, Live(SinglePointers(v, n)), 0)
    else Behind(v, n, i + 11)
  }

  /** How many blocks a part can hold. */
  function Room(v: Volume, i: nat): nat
    requires i < 4
  {
    if i == 0 then 12 else Power(v.PerBlock(), i)
  }

  function Start(v: Volume, i: nat): nat
    requires i <= 3
  {
    if i == 0 then 0 else Start(v, i - 1) + Room(v, i - 1)
  }

  ghost predicate AllThere(v: Volume, n: Inode, N: nat)
    requires v.Valid() && n.Valid()
  {
    forall k: nat :: k < N ==> BlockOf(v, n, k) != 0
  }

  ghost predicate AllNear(v: Volume, n: Inode, N: nat)
    requires v.Valid() && n.Valid()
  {
    forall k: nat :: k < N ==> NearBlock(v, n, k)
  }

  /** The blocks of one part among the first N are visited in index order. */
  ghost predicate PartInOrder(v: Volume, n: Inode, i: nat, N: nat)
    requires v.Valid() && n.Valid() && i < 4
  {
    && |Part(v, n, i)| <= Room(v, i)
    && forall k: nat :: k < Room(v, i) && Start(v, i) + k < N ==>
        k < |Part(v, n, i)| && Part(v, n, i)[k] == BlockOf(v, n, Start(v, i) + k)
  }

  lemma Ones(v: Volume, ptrs: seq<nat>, k: nat)
    requires v.Valid() && k < |ptrs|
    ensures ListLookup(v, ptrs, 0, k) == ptrs[k] && ListNear(v, ptrs, 0, k)
  {
    assert Power(v.PerBlock(), 0) == 1 && k / 1 == k && k % 1 == 0;
  }

  lemma Starts(v: Volume)
    ensures Start(v, 0) == 0 && Start(v, 1) == 12 && Start(v, 2) == 12 + v.PerBlock()
    ensures Start(v, 3) == 12 + v.PerBlock() + Power(v.PerBlock(), 2)
    ensures Room(v, 0) == 12 && Room(v, 1) == v.PerBlock() && Room(v, 2) == Power(v.PerBlock(), 2)
  {
    assert Power(v.PerBlock(), 1) == v.PerBlock() * Power(v.PerBlock(), 0) == v.PerBlock();
    assert Start(v, 3) == Start(v, 2) + Room(v, 2) && Start(v, 2) == Start(v, 1) + Room(v, 1);
  }

  /** A part reached through a list of data pointers. */
  lemma ListPart(v: Volume, ptrs: seq<nat>, M: nat)
    requires v.Valid() && M <= |ptrs| && forall k :: 0 <= k < M ==> ptrs[k] != 0
    ensures var all := UnderAll(v, Live(ptrs), 0);
      M <= |all| <= |ptrs| && forall k :: 0 <= k < M ==> all[k] == ptrs[k]
  {
    var all := UnderAll(v, Live(ptrs), 0);
    assert ListInOrder(v, ptrs, 0, M) && |all| <= |ptrs| by {
      hide ListInOrder, UnderAll, Live, ListLookup, ListNear, Power;
      forall k: nat | k < M ensures ListLookup(v, ptrs, 0, k) != 0 && ListNear(v, ptrs, 0, k) { Ones(v, ptrs, k); }
      UnderAllIndex(v, ptrs, 0, M);
      UnderAllCount(v, Live(ptrs), 0);
      PowerZero(v.PerBlock());
    }
    hide UnderAll, Live, ListLookup, Power;
    forall k | 0 <= k < M ensures all[k] == ptrs[k] { Ones(v, ptrs, k); }
  }

  lemma PowerZero(n: nat)
    ensures Power(n, 0) == 1
  {
  }

  lemma DirectPart(v: Volume, n: Inode, N: nat)
    requires v.Valid() && n.Valid() && AllThere(v, n, N)
    ensures PartInOrder(v, n, 0, N)
  {
    hide Power, UnderAll, Live, Start, Room;
    Starts(v);
    var M := if N < 12 then N else 12;
    forall k | 0 <= k < M ensures n.iBlock[..12][k] != 0 { assert BlockOf(v, n, k) != 0; }
    ListPart(v, n.iBlock[..12], M);
  }

  lemma SinglePart(v: Volume, n: Inode, N: nat)
    requires v.Valid() && n.Valid() && AllThere(v, n, N) && AllNear(v, n, N)
    ensures PartInOrder(v, n, 1, N)
  {
    hide Power, UnderAll, Live, Start, Room, Pointers, PointersIn;
    Starts(v);
    var ptrs := SinglePointers(v, n);
    assert |ptrs| == v.PerBlock();
    var M := if N <= 12 then 0 else if N - 12 < |ptrs| then N - 12 else |ptrs|;
    forall k | 0 <= k < M ensures ptrs[k] != 0 && n.iBlock[12] != 0 && ptrs[k] == BlockOf(v, n, 12 + k) {
      assert BlockOf(v, n, 12 + k) != 0 && NearBlock(v, n, 12 + k);
      WideEnough(v, n);
    }
    ListPart(v, ptrs, M);
    assert M > 0 ==> ptrs[0] != 0;
  }

  lemma WideEnough(v: Volume, n: Inode)
    requires n.Valid() && n.iBlock[12] * v.bs < U64
    ensures SinglePointers(v, n) == PointersIn(v, n.iBlock[12])
  {
    hide Pointers, Volume.BytesAt;
    DivSmall(n.iBlock[12] * v.bs, U64);
  }

  /** A part reached through two or three levels. */
  lemma TreePart(v: Volume, n: Inode, slot: nat, M: nat)
    requires v.Valid() && n.Valid() && 12 <= slot < 15 && M <= Power(v.PerBlock(), slot - 11)
    requires forall k: nat :: k < M ==> LookupBehind(v, n, slot, k) != 0 && NearBehind(v, n, slot, k)
    ensures M <= |Behind(v, n, slot)| <= Power(v.PerBlock(), slot - 11)
    ensures forall k: nat :: k < M ==> Behind(v, n, slot)[k] == LookupBehind(v, n, slot, k)
  {
    var ptr, d := n.iBlock[slot], slot - 11;
    assert DenseTo(v, ptr, d, M) by {
      hide Power, Lookup, Near;
      forall k: nat | k < M ensures Lookup(v, ptr, d, k) != 0 && Near(v, ptr, d, k) {
        assert LookupBehind(v, n, slot, k) != 0 && NearBehind(v, n, slot, k);
      }
    }
    if M > 0 {
      hide Power;
      assert LookupBehind(v, n, slot, 0) != 0;
      assert ptr != 0;
    }
    hide Power, Lookup, Near, Under;
    UnderIndex(v, ptr, d, M);
    UnderCount(v, ptr, d);
  }

  lemma DoublePart(v: Volume, n: Inode, N: nat)
    requires v.Valid() && n.Valid() && AllThere(v, n, N) && AllNear(v, n, N)
    ensures PartInOrder(v, n, 2, N)
  {
    hide Power, Behind, Start, Room, LookupBehind, NearBehind;
    Starts(v);
    var first := 12 + v.PerBlock();
    var M := if N <= first then 0 else if N - first < Power(v.PerBlock(), 2) then N - first else Power(v.PerBlock(), 2);
    forall k: nat | k < M ensures LookupBehind(v, n, 13, k) != 0 && NearBehind(v, n, 13, k) {
      assert BlockOf(v, n, first + k) != 0 && NearBlock(v, n, first + k);
    }
    TreePart(v, n, 13, M);
  }

  lemma TriplePart(v: Volume, n: Inode, N: nat)
    requires v.Valid() && n.Valid() && AllThere(v, n, N) && AllNear(v, n, N)
    ensures PartInOrder(v, n, 3, N)
    ensures N <= Start(v, 3) + Room(v, 3)
  {
    hide Power, Behind, Start, LookupBehind, NearBehind;
    Starts(v);
    var first := 12 + v.PerBlock() + Power(v.PerBlock(), 2);
    if N > 0 { LastBlock(v, n, N - 1); }
    var M := if N <= first then 0 else N - first;
    forall k: nat | k < M ensures LookupBehind(v, n, 14, k) != 0 && NearBehind(v, n, 14, k) {
      assert BlockOf(v, n, first + k) != 0 && NearBlock(v, n, first + k);
    }
    TreePart(v, n, 14, M);
  }

  lemma LastBlock(v: Volume, n: Inode, k: nat)
    requires v.Valid() && n.Valid() && BlockOf(v, n, k) != 0
    ensures k < 12 + v.PerBlock() + Power(v.PerBlock(), 2) + Power(v.PerBlock(), 3)
  {
    hide Power, Lookup, PointersIn;
    var before := 12 + v.PerBlock() + Power(v.PerBlock(), 2);
    if k >= before {
      FarLookup(v, n.iBlock[14], 14 - 11, k - before);
    }
  }

  lemma FarLookup(v: Volume, ptr: nat, d: nat, k: nat)
    requires v.Valid() && d > 0 && Lookup(v, ptr, d, k) != 0
    ensures k < Power(v.PerBlock(), d)
  {
    var each := Power(v.PerBlock(), d - 1);
    assert k / each < v.PerBlock();
    hide Lookup, Power;
    DivLess(k, each, v.PerBlock());
  }

  lemma FourParts(v: Volume, n: Inode)
    requires n.Valid()
    ensures Visited(v, n) == Part(v, n, 0) + Part(v, n, 1) + Part(v, n, 2) + Part(v, n, 3)
  {
    hide Under, UnderAll, Live;
  }

  lemma OneVisited(v: Volume, n: Inode, N: nat, k: nat)
    requires v.Valid() && n.Valid() && k < N
    requires forall i: nat :: i < 4 ==> PartInOrder(v, n, i, N)
    requires N <= Start(v, 3) + Room(v, 3)
    ensures k < |Visited(v, n)| && Visited(v, n)[k] == BlockOf(v, n, k)
  {
    hide *;
    var a, b, c, d := Part(v, n, 0), Part(v, n, 1), Part(v, n, 2), Part(v, n, 3);
    FourParts(v, n);
    StartSteps(v);
    var r0, r1, r2 := Room(v, 0), Room(v, 1), Room(v, 2);
    if k < r0 {
      PartAt(v, n, 0, N, k);
      assert Visited(v, n)[k] == a[k];
    } else if k < r0 + r1 {
      PartAt(v, n, 0, N, r0 - 1);
      PartAt(v, n, 1, N, k - r0);
      assert |Visited(v, n)| > k && Visited(v, n)[k] == b[k - r0];
    } else if k < r0 + r1 + r2 {
      PartAt(v, n, 0, N, r0 - 1);
      PartAt(v, n, 1, N, r1 - 1);
      PartAt(v, n, 2, N, k - r0 - r1);
      assert |Visited(v, n)| > k && Visited(v, n)[k] == c[k - r0 - r1];
    } else {
      PartAt(v, n, 0, N, r0 - 1);
      PartAt(v, n, 1, N, r1 - 1);
      PartAt(v, n, 2, N, r2 - 1);
      PartAt(v, n, 3, N, k - r0 - r1 - r2);
      assert |Visited(v, n)| > k && Visited(v, n)[k] == d[k - r0 - r1 - r2];
    }
  }

  /** When the first N blocks of a file are all there, they are the first N visited, in order. */
  lemma VisitedInOrder(v: Volume, n: Inode, N: nat)
    requires v.Valid() && n.Valid() && AllThere(v, n, N) && AllNear(v, n, N)
    ensures N <= |Visited(v, n)|
    ensures forall k: nat :: k < N ==> Visited(v, n)[k] == BlockOf(v, n, k)
  {
    hide Power, Part, Start, Room, BlockOf, NearBlock, AllThere, AllNear, Visited, PartInOrder;
    DirectPart(v, n, N);
    SinglePart(v, n, N);
    DoublePart(v, n, N);
    TriplePart(v, n, N);
    forall k: nat | k < N ensures k < |Visited(v, n)| && Visited(v, n)[k] == BlockOf(v, n, k) {
      OneVisited(v, n, N, k);
    }
    if N > 0 { OneVisited(v, n, N, N - 1); }
  }

  lemma {:induction false} UnderNonZero(v: Volume, ptr: nat, d: nat)
    requires ptr != 0
    ensures 0 !in Under(v, ptr, d)
    decreases d, 1, 0
  {
    if d == 0 {
    } else {
      var ptrs := Pointers(v.BytesAt(v.Offset(ptr)));
      hide Pointers, Live;
      LiveNonZero(ptrs);
      UnderAllNonZero(v, Live(ptrs), d - 1);
    }
  }

  lemma {:induction false} LiveNonZero(ptrs: seq<nat>)
    ensures 0 !in Live(ptrs)
  {
    if ptrs != [] && ptrs[0] != 0 {
      LiveNonZero(ptrs[1..]);
    }
  }

  lemma {:induction false} UnderAllNonZero(v: Volume, ptrs: seq<nat>, d: nat)
    requires 0 !in ptrs
    ensures 0 !in UnderAll(v, ptrs, d)
    decreases d, 2, |ptrs|
  {
    hide Under;
    if ptrs == [] {
    } else {
      UnderNonZero(v, ptrs[0], d);
      UnderAllNonZero(v, ptrs[1..], d);
    }
  }

  lemma VisitedNonZero(v: Volume, n: Inode)
    requires n.Valid()
    ensures 0 !in Visited(v, n)
  {
    hide Under, UnderAll, Live, Pointers;
    LiveNonZero(n.iBlock[..12]);
    UnderAllNonZero(v, Live(n.iBlock[..12]), 0);
    LiveNonZero(SinglePointers(v, n));
    UnderAllNonZero(v, Live(SinglePointers(v, n)), 0);
    if n.iBlock[13] != 0 { UnderNonZero(v, n.iBlock[13], 13 - 11); }
    if n.iBlock[14] != 0 { UnderNonZero(v, n.iBlock[14], 14 - 11); }
  }

  /** With near pointer blocks, the walk meets the first N blocks of a file in order exactly when none is a hole. */
  lemma HolesDecide(v: Volume, n: Inode, N: nat)
    requires v.Valid() && n.Valid() && AllNear(v, n, N)
    ensures AllThere(v, n, N) <==>
      N <= |Visited(v, n)| && forall k: nat :: k < N ==> Visited(v, n)[k] == BlockOf(v, n, k)
  {
    hide Visited, BlockOf;
    if AllThere(v, n, N) {
      VisitedInOrder(v, n, N);
    } else {
      var k: nat :| k < N && BlockOf(v, n, k) == 0;
      VisitedNonZero(v, n);
      assert k < |Visited(v, n)| ==> Visited(v, n)[k] in Visited(v, n);
    }
  }

  lemma StartSteps(v: Volume)
    requires v.Valid()
    ensures Start(v, 0) == 0 && Start(v, 1) == Room(v, 0) && Start(v, 2) == Room(v, 0) + Room(v, 1)
    ensures Start(v, 3) == Room(v, 0) + Room(v, 1) + Room(v, 2)
    ensures Room(v, 0) > 0 && Room(v, 1) > 0 && Room(v, 2) > 0
  {
    assert Start(v, 3) == Start(v, 2) + Room(v, 2) && Start(v, 2) == Start(v, 1) + Room(v, 1);
  }

  lemma PartAt(v: Volume, n: Inode, i: nat, N: nat, k: nat)
    requires v.Valid() && n.Valid() && i < 4 && PartInOrder(v, n, i, N) && k < Room(v, i) && Start(v, i) + k < N
    ensures k < |Part(v, n, i)| <= Room(v, i) && Part(v, n, i)[k] == BlockOf(v, n, Start(v, i) + k)
  {
    hide Part, Start, Room, BlockOf;
  }
}
