/** Address spaces side by side: each call changes the tables of one space, and a space gives back what it took. */
module SpaceLives {
  import opened PageTables
  import opened PageEdits
  import opened PageSpaces
  import opened PagerSpec
  import opened PagerTheorems

  /** The tables of space q are the same in s and t. */
  ghost predicate SameTables(s: Space, t: Space, q: nat) {
    && |t.mem| == |s.mem|
    && (forall x :: x in s.tables && s.tables[x].root == q ==>
          x in t.tables && t.tables[x] == s.tables[x] && (x < |s.mem| ==> t.mem[x] == s.mem[x]))
    && (forall x :: x in t.tables && t.tables[x].root == q ==> x in s.tables && s.tables[x] == t.tables[x])
  }

  /** From s to t only space q changed its tables, and pages in use since boot are the same. */
  ghost predicate OnlyChanges(s: Space, t: Space, q: nat) {
    && Sound(t) && t.boot == s.boot && forall q2 :: q2 != q ==> SameTables(s, t, q2)
  }

  lemma BuildsChanges(s: Space, t: Space, r: nat, low: bool)
    requires Sound(s) && Builds(s, t, r, low)
    ensures OnlyChanges(s, t, Home(r, low)) && s.used <= t.used && forall q :: IsRoot(s, q) ==> IsRoot(t, q)
  {
    hide Sound;
    BuildsFacts(s, t, r, low);
  }

  /** A `mapPage` changes the tables of the space it maps in, or the kernel's for a low address. */
  lemma MapChanges(s: Space, r: nat, v: nat, o: Outcome, t: Space)
    requires Sound(s) && IsRoot(s, r) && v != NULL && MapStep(s, r, v, o, t)
    ensures OnlyChanges(s, t, Home(r, Low(PathOf(v)))) && s.used <= t.used && forall q :: IsRoot(s, q) ==> IsRoot(t, q)
  {
    hide Sound, Builds, PathOf, Low, Resolve, Reached, Home;
    var path := PathOf(v);
    if o.Done? && o.v != NULL {
      var u, f, g, flags :| Mapped(s, r, path, u, f, g, flags, t);
      BuildsChanges(s, u, r, Low(path));
      BuildsFacts(s, u, r, Low(path));
      LastTable(u, r, path, f);
      WithLeafSound(u, f, path[3], g, flags);
      LeafChanges(u, f, t, Home(r, Low(path)));
      ChangesTwice(s, u, t, Home(r, Low(path)));
    } else {
      BuildsChanges(s, t, r, Low(path));
    }
  }

  lemma LastTable(s: Space, r: nat, path: seq<nat>, f: nat)
    requires Sound(s) && IsRoot(s, r) && Indices(path) && Resolve(s.mem, r, path[..3]) == Some(f)
    ensures f in s.tables && f < |s.mem| && s.tables[f].root == Home(r, Low(path))
  {
    hide Sound, Resolve, Low, Home;
    assert Reached(s, r, path, 3, f);
    HomeOrThere(s, r, path, 3, f);
  }

  lemma LeafChanges(s: Space, f: nat, t: Space, q: nat)
    requires Sound(t) && t.boot == s.boot && t.tables == s.tables && |t.mem| == |s.mem| && f in s.tables
    requires s.tables[f].root == q
    requires forall x :: 0 <= x < |s.mem| && x != f ==> t.mem[x] == s.mem[x]
    ensures OnlyChanges(s, t, q)
  {
    hide Sound;
  }

  lemma ChangesTwice(s: Space, u: Space, t: Space, q: nat)
    requires OnlyChanges(s, u, q) && OnlyChanges(u, t, q)
    ensures OnlyChanges(s, t, q)
  {
    hide Sound;
    forall q2 | q2 != q ensures SameTables(s, t, q2) {
      assert SameTables(s, u, q2) && SameTables(u, t, q2);
    }
  }

  lemma UnmapChanges(s: Space, v: nat, t: Space)
    requires Sound(s) && UnmapStep(s, v, t) && UnmapSafe(s, v)
    ensures OnlyChanges(s, t, KERNEL)
  {
    hide Sound, PathOf, Low, Resolve;
    var path := PathOf(v);
    UnmapUpdates(s, v, t);
    if Resolve(s.mem, KERNEL, path).Some? {
      var f: nat :| Reached(s, KERNEL, path, 3, f) && f < |s.mem| && t == WithoutLeaf(s, f, path[3]);
      KernelRoot(s);
      LastTable(s, KERNEL, path, f);
      LeafChanges(s, f, t, KERNEL);
    } else {
      NothingChanges(s);
    }
  }

  lemma NothingChanges(s: Space)
    requires Sound(s)
    ensures forall q :: OnlyChanges(s, s, q)
  {
    hide Sound;
  }

  lemma CreateChanges(s: Space, r: nat, t: Space)
    requires Sound(s) && CreateStep(s, r, t)
    ensures OnlyChanges(s, t, r) && s.used <= t.used && (r != NULL ==> r !in s.used && r in t.used)
  {
    hide Sound, NoneFree;
    if r == NULL {
      NothingChanges(s);
    } else {
      var p :| CreatedWith(s, r, p, t);
      WithSpaceSound(s, r, p);
      TablesInUse(s);
    }
  }

  lemma DestroyChanges(s: Space, r: nat, t: Space)
    requires Sound(s) && r != KERNEL && DestroyStep(s, r, t)
    ensures OnlyChanges(s, t, r)
  {
    hide Sound, Owned;
    WithoutSpaceSound(s, r);
  }

  // ----- whose pages -----

  lemma OwnsSame(s: Space, t: Space, q: nat, g: nat)
    requires SameTables(s, t, q)
    ensures Owns(s, q, g) == Owns(t, q, g)
  {
    if exists f, i :: LeafAt(s, f, i, g) && s.tables[f].root == q {
      var f, i :| LeafAt(s, f, i, g) && s.tables[f].root == q;
      assert LeafAt(t, f, i, g);
    }
    if exists f, i :: LeafAt(t, f, i, g) && t.tables[f].root == q {
      var f, i :| LeafAt(t, f, i, g) && t.tables[f].root == q;
      assert LeafAt(s, f, i, g);
    }
  }

  lemma OwnedSame(s: Space, t: Space, q: nat)
    requires Sound(s) && Sound(t) && SameTables(s, t, q) && q != KERNEL
    ensures Owned(t, q) == Owned(s, q)
  {
    hide Sound, Owns, SameTables;
    forall g ensures g in Owned(t, q) <==> g in Owned(s, q) {
      OwnsSame(s, t, q, g);
      if Owns(s, q, g) {
        OwnedIsNotBoot(s, q, g);
        OwnedIsNotBoot(t, q, g);
      }
    }
  }

  /** Every page in use since later than boot belongs to some space. */
  lemma SomeOwner(s: Space, g: nat) returns (q: nat)
    requires Sound(s) && g in s.used && g !in s.boot
    ensures Owns(s, q, g)
  {
    hide TableOk, EntryOk;
    if g in s.tables {
      q := s.tables[g].root;
    } else {
      var f, i :| LeafAt(s, f, i, g);
      q := s.tables[f].root;
    }
  }

  lemma OwnedInUse(s: Space, q: nat, g: nat)
    requires Sound(s) && Owns(s, q, g)
    ensures g in s.used
  {
    hide Sound;
    TablesInUse(s);
    if !(g in s.tables && s.tables[g].root == q) {
      var f, i :| LeafAt(s, f, i, g) && s.tables[f].root == q;
      LeafUsed(s, f, i, g);
    }
  }

  /** A page belongs to one space only. */
  lemma OneOwner(s: Space, q: nat, q2: nat, g: nat)
    requires Sound(s) && q != KERNEL && Owns(s, q, g) && Owns(s, q2, g)
    ensures q == q2
  {
    hide Sound;
    OwnedIsNotBoot(s, q, g);
  }

  /** What a space's own call takes from the free pages is what it owns more. */
  lemma OwnedMore(s: Space, t: Space, q: nat)
    requires Sound(s) && OnlyChanges(s, t, q) && q != KERNEL && s.used <= t.used
    ensures Owned(t, q) == Owned(s, q) + (t.used - s.used)
  {
    hide Sound, Owns, SameTables;
    BootInUse(s);
    forall g | g in t.used ensures g in Owned(t, q) <==> g in Owned(s, q) || g !in s.used {
      if g in s.boot {
        if Owns(s, q, g) { OwnedIsNotBoot(s, q, g); }
        if Owns(t, q, g) { OwnedIsNotBoot(t, q, g); }
      } else {
        StaysOwned(s, t, q, g);
      }
    }
  }

  lemma StaysOwned(s: Space, t: Space, q: nat, g: nat)
    requires Sound(s) && OnlyChanges(s, t, q) && q != KERNEL && s.used <= t.used && g in t.used && g !in s.boot
    ensures Owns(t, q, g) <==> Owns(s, q, g) || g !in s.used
  {
    hide Sound, Owns, SameTables;
    var b := SomeOwner(t, g);
    if b != q { OwnsSame(s, t, b, g); }
    if g in s.used {
      var a := SomeOwner(s, g);
      if a != q { OwnsSame(s, t, a, g); }
      if Owns(s, q, g) { OneOwner(s, q, a, g); }
      if Owns(t, q, g) { OneOwner(t, q, b, g); }
      if Owns(s, q, g) && b != q { OneOwner(s, q, b, g); }
      if Owns(t, q, g) && a != q { OneOwner(t, q, a, g); }
    } else {
      if Owns(s, b, g) { OwnedInUse(s, b, g); }
      if Owns(s, q, g) { OwnedInUse(s, q, g); }
    }
  }

  // ----- a life among others -----

  /** A call that maps in space r itself. */
  predicate Own(op: Op, r: nat) { op.Map? && op.root == r && !Low(PathOf(op.v)) }

  /** Calls that leave r alive; one that lets the pager choose the address in r counts as its search and the mapping
      that follows. */
  predicate Allows(op: Op, r: nat) { op != Destroy(r) && op != Map(r, NULL) }

  /** A `mapPage` without an address searches, which may build kernel tables, and maps what it found. */
  lemma MapAnyChanges(s: Space, q: nat, r: nat, o: Outcome, t: Space)
    requires Sound(s) && IsRoot(s, q) && q != r && r != KERNEL && MapAnyStep(s, q, NULL, o, t)
    ensures Sound(t) && t.boot == s.boot && SameTables(s, t, r)
  {
    hide Sound, SameTables, Low, PathOf, MapStep, Builds;
    var u, found :| ScanStep(s, found, u) && AfterScan(u, q, found, o, t);
    BuildsChanges(s, u, KERNEL, false);
    if found.Done? && found.v != NULL {
      MapChanges(u, q, found.v, o, t);
      SameTwice(s, u, t, r);
    }
  }

  lemma SameTwice(s: Space, u: Space, t: Space, q: nat)
    requires SameTables(s, u, q) && SameTables(u, t, q)
    ensures SameTables(s, t, q)
  {
  }

  lemma SameRoot(s: Space, t: Space, r: nat)
    requires Sound(s) && IsRoot(s, r) && SameTables(s, t, r)
    ensures IsRoot(t, r)
  {
    hide Sound;
    TableAt(s, r);
  }

  /** One call by another space leaves r's tables alone, and one of its own every other space's. */
  lemma StepChanges(s: Space, op: Op, o: Outcome, t: Space, r: nat)
    requires Sound(s) && IsRoot(s, r) && r != KERNEL && Step(s, op, o, t) && Allows(op, r)
    ensures Sound(t) && t.boot == s.boot && IsRoot(t, r)
    ensures if Own(op, r) then OnlyChanges(s, t, r) && s.used <= t.used else SameTables(s, t, r)
  {
    hide Sound, SameTables, Low, PathOf, MapStep, UnmapStep, CreateStep, DestroyStep, Builds;
    match op {
      case Map(q, v) =>
        if v != NULL {
          MapChanges(s, q, v, o, t);
          assert !Own(op, r) ==> Home(q, Low(PathOf(v))) != r;
        } else {
          MapNullIsNotOwn(op, r);
          MapAnyChanges(s, q, r, o, t);
        }
      case Unmap(v) => UnmapChanges(s, v, t);
      case Scan => BuildsChanges(s, t, KERNEL, false);
      case Create =>
        CreateChanges(s, o.v, t);
        TablesInUse(s);
        BootInUse(s);
        ZeroInBoot(s);
      case Destroy(q) => DestroyChanges(s, q, t);
    }
    if !Own(op, r) {
      SameRoot(s, t, r);
    }
  }

  lemma ZeroInBoot(s: Space)
    requires Sound(s)
    ensures NULL in s.boot
  {
  }

  lemma MapNullIsNotOwn(op: Op, r: nat)
    requires op.Map? && op.v == NULL
    ensures !Own(op, r)
  {
  }

  /** Space r is made, and then calls are made, by it and by others. */
  ghost predicate Life(s0: Space, r: nat, ss: seq<Space>, ops: seq<Op>, os: seq<Outcome>) {
    && r != NULL && |ss| == |ops| + 1 && |os| == |ops| && CreateStep(s0, r, ss[0])
    && forall x :: 0 <= x < |ops| ==> Allows(ops[x], r) && Step(ss[x], ops[x], os[x], ss[x + 1])
  }

  /** The frames the making of r and its own calls took. */
  function Took(s0: Space, r: nat, ss: seq<Space>, ops: seq<Op>): set<nat>
    requires |ss| == |ops| + 1
    decreases |ops|
  {
    var n := |ops|;
    if n == 0 then ss[0].used - s0.used
    else Took(s0, r, ss[..n], ops[..n - 1]) + if Own(ops[n - 1], r) then ss[n].used - ss[n - 1].used else {}
  }

  /** The frames in use when only the calls of the others count. */
  function WithoutIt(s0: Space, r: nat, ss: seq<Space>, ops: seq<Op>): set<nat>
    requires |ss| == |ops| + 1
    decreases |ops|
  {
    var n := |ops|;
    if n == 0 then s0.used
    else
      var before := WithoutIt(s0, r, ss[..n], ops[..n - 1]);
      if Own(ops[n - 1], r) then before
      else before + (ss[n].used - ss[n - 1].used) - (ss[n - 1].used - ss[n].used)
  }

  /** At every point of its life a space owns what it took, and the rest is what the others have. */
  lemma {:induction false} OwnsWhatItTook(s0: Space, r: nat, ss: seq<Space>, ops: seq<Op>, os: seq<Outcome>)
    requires Sound(s0) && Life(s0, r, ss, ops, os)
    ensures var s := ss[|ops|];
      && Sound(s) && IsRoot(s, r) && r != KERNEL
      && Owned(s, r) == Took(s0, r, ss, ops) && s.used - Owned(s, r) == WithoutIt(s0, r, ss, ops)
    decreases |ops|
  {
    hide Sound, Step, Owned, CreateStep, Own, Allows, OnlyChanges;
    var n := |ops|;
    if n == 0 {
      NewOwns(s0, r, ss[0]);
    } else {
      OwnsWhatItTook(s0, r, ss[..n], ops[..n - 1], os[..n - 1]);
      var s, op, t := ss[n - 1], ops[n - 1], ss[n - 1 + 1];
      assert ss[..n][n - 1] == s;
      StepChanges(s, op, os[n - 1], t, r);
      OwnedIsUsed(s, r);
      OwnedIsUsed(t, r);
      if Own(op, r) {
        OwnedMore(s, t, r);
      } else {
        OwnedSame(s, t, r);
      }
    }
  }

  lemma OwnedIsUsed(s: Space, r: nat)
    ensures Owned(s, r) <= s.used
  {
  }

  lemma NewOwns(s0: Space, r: nat, s: Space)
    requires Sound(s0) && r != NULL && CreateStep(s0, r, s)
    ensures Sound(s) && IsRoot(s, r) && r != KERNEL && s0.used <= s.used && Owned(s, r) == s.used - s0.used
  {
    hide Sound, NoneFree, Owns;
    CreateChanges(s0, r, s);
    KernelIsOld(s0);
    var p :| CreatedWith(s0, r, p, s);
    WithSpaceSound(s0, r, p);
    OwnedMore(s0, s, r);
    forall g ensures g !in Owned(s0, r) {
      if g in Owned(s0, r) { NotARoot(s0, r, g); }
    }
  }

  lemma NotARoot(s: Space, r: nat, g: nat)
    requires Sound(s) && r !in s.used
    ensures !Owns(s, r, g)
  {
    hide Sound;
    TablesInUse(s);
    if Owns(s, r, g) {
      var x :| x in s.tables && s.tables[x].root == r;
      TableAt(s, x);
    }
  }

  /** A space made, used among others by any calls, and destroyed: exactly the frames it took are given back, so that
      those in use are what the others' calls alone account for, and every other space's tables are untouched. */
  lemma LifeAmongOthers(s0: Space, r: nat, ss: seq<Space>, ops: seq<Op>, os: seq<Outcome>, t: Space)
    requires Sound(s0) && Life(s0, r, ss, ops, os) && DestroyStep(ss[|ops|], r, t)
    ensures Sound(t) && t.used <= ss[|ops|].used && ss[|ops|].used - t.used == Took(s0, r, ss, ops)
    ensures t.used == WithoutIt(s0, r, ss, ops)
    ensures OnlyChanges(ss[|ops|], t, r) && forall x :: x in t.tables ==> t.tables[x].root != r
  {
    var s := ss[|ops|];
    hide Sound, Life, Took, WithoutIt, Owned, OnlyChanges;
    OwnsWhatItTook(s0, r, ss, ops, os);
    OwnedIsUsed(s, r);
    DestroyChanges(s, r, t);
    DestroyedIsSound(s, t, r);
  }

  lemma DestroyedIsSound(s: Space, t: Space, r: nat)
    requires OnlyChanges(s, t, r)
    ensures Sound(t)
  {
  }
}
