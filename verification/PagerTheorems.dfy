/** What the pager promises: mapping and unmapping as updates of a map, sharing, and no page lost over a space's
    life. */
module PagerTheorems {
  import opened PageTables
  import opened PageEdits
  import opened PageSpaces
  import opened PagerSpec

  /** From s to t every address space of s answers as before, but where `path` is answered through the slot of
      space r, which now answers `now`. */
  ghost predicate Updated(s: Space, r: nat, path: seq<nat>, now: Option<nat>, t: Space) {
    && (forall r2 :: IsRoot(s, r2) ==> IsRoot(t, r2))
    && forall r2, path2 :: IsRoot(s, r2) && |path2| == 4 ==>
         Resolve(t.mem, r2, path2) == if path2 == path && SameSlot(path, r, r2) then now else Resolve(s.mem, r2, path2)
  }

  /** A successful `mapPage` is an update of the translation map: the address goes to a page that was free, in the
      space it was mapped in, and in all of them if it is low. */
  lemma MapUpdates(s: Space, r: nat, v: nat, t: Space) returns (g: nat)
    requires Sound(s) && IsRoot(s, r) && v != NULL && MapStep(s, r, v, Done(v), t)
    ensures Sound(t) && g !in s.used && g in t.used && s.used <= t.used
    ensures Updated(s, r, PathOf(v), Some(g), t) && Resolve(s.mem, r, PathOf(v)) == None
  {
    hide Sound, Builds, PathOf, Low;
    var path := PathOf(v);
    var u, f, x, flags :| Mapped(s, r, path, u, f, x, flags, t);
    g := x;
    BuildsFacts(s, u, r, Low(path));
    WithLeafSound(u, f, path[3], g, flags);
    forall r2, path2 | IsRoot(s, r2) && |path2| == 4
      ensures Resolve(t.mem, r2, path2) ==
              if path2 == path && SameSlot(path, r, r2) then Some(g) else Resolve(s.mem, r2, path2)
    {
      LeafWalks(u, t, r, path, f, path[3], r2, path2);
    }
  }

  lemma BuildsFacts(s: Space, t: Space, r: nat, low: bool)
    requires Builds(s, t, r, low)
    ensures Sound(t) && s.used <= t.used && t.boot == s.boot && |t.mem| == |s.mem|
    ensures forall r2 :: IsRoot(s, r2) ==> IsRoot(t, r2)
    ensures forall r2, path :: IsRoot(s, r2) && |path| == 4 ==> Resolve(t.mem, r2, path) == Resolve(s.mem, r2, path)
    ensures forall x :: x in s.tables ==> x in t.tables && t.tables[x] == s.tables[x]
    ensures forall x :: x in t.tables && x !in s.tables ==> t.tables[x].root == Home(r, low)
    ensures forall x :: x in s.tables && x < |s.mem| && s.tables[x].root != Home(r, low) ==> t.mem[x] == s.mem[x]
  {
    hide Sound, NoLeak;
  }

  /** A `mapPage` that maps nothing changes no translation. */
  lemma NoMapNoChange(s: Space, r: nat, v: nat, o: Outcome, t: Space)
    requires Sound(s) && IsRoot(s, r) && MapStep(s, r, v, o, t) && (o.Done? ==> o.v == NULL)
    ensures Sound(t) && forall r2, path :: IsRoot(s, r2) && |path| == 4 ==>
        Resolve(t.mem, r2, path) == Resolve(s.mem, r2, path)
  {
    hide Sound, Builds, PathOf, Low;
    BuildsFacts(s, t, r, Low(PathOf(v)));
  }

  /** `unmapPage` is the inverse update, in every space for a low address, and frees that one page. */
  lemma UnmapUpdates(s: Space, v: nat, t: Space)
    requires Sound(s) && UnmapStep(s, v, t) && UnmapSafe(s, v)
    ensures Sound(t)
    ensures match Resolve(s.mem, KERNEL, PathOf(v))
      case None => t == s
      case Some(g) => Updated(s, KERNEL, PathOf(v), None, t) && t.used == s.used - {g}
  {
    hide Sound, PathOf, Low;
    var path := PathOf(v);
    if Resolve(s.mem, KERNEL, path).Some? {
      var f: nat :| Reached(s, KERNEL, path, 3, f) && f < |s.mem| && t == WithoutLeaf(s, f, path[3]);
      KernelRoot(s);
      ReachFacts(s, KERNEL, path, 3, f);
      ReachStep(s, KERNEL, path, 3, f);
      assert path[..4] == path;
      WithoutLeafSound(s, f, path[3]);
      forall r2, path2 | IsRoot(s, r2) && |path2| == 4
        ensures Resolve(t.mem, r2, path2) ==
                if path2 == path && SameSlot(path, KERNEL, r2) then None else Resolve(s.mem, r2, path2)
      {
        LeafWalks(s, t, KERNEL, path, f, path[3], r2, path2);
      }
    }
  }

  /** Unmapping what was just mapped in the kernel gives every translation back. */
  lemma UnmapUndoesMap(s: Space, v: nat, t: Space, u: Space)
    requires Sound(s) && v != NULL && MapStep(s, KERNEL, v, Done(v), t) && UnmapStep(t, v, u)
    ensures Sound(u) && forall r, path :: IsRoot(s, r) && |path| == 4 ==>
        Resolve(u.mem, r, path) == Resolve(s.mem, r, path)
  {
    hide Sound, PathOf, Low, MapStep, UnmapStep;
    KernelRoot(s);
    var g := MapUpdates(s, KERNEL, v, t);
    SameBoot(s, KERNEL, v, t);
    assert Resolve(t.mem, KERNEL, PathOf(v)) == Some(g);
    BootInUse(s);
    UnmapUpdates(t, v, u);
    forall r, path | IsRoot(s, r) && |path| == 4 ensures Resolve(u.mem, r, path) == Resolve(s.mem, r, path) {
      assert IsRoot(t, r);
      if path == PathOf(v) && Low(path) {
        LowIsShared(s, r, path);
      }
    }
  }

  lemma BootInUse(s: Space)
    requires Sound(s)
    ensures s.boot <= s.used
  {
  }

  lemma SameBoot(s: Space, r: nat, v: nat, t: Space)
    requires v != NULL && MapStep(s, r, v, Done(v), t)
    ensures t.boot == s.boot
  {
    hide Sound, Builds, PathOf, Low;
    var u, f, x, flags :| Mapped(s, r, PathOf(v), u, f, x, flags, t);
    BuildsFacts(s, u, r, Low(PathOf(v)));
  }

  lemma ScanFacts(s: Space, o: Outcome, t: Space)
    requires Sound(s) && ScanStep(s, o, t)
    ensures Sound(t) && s.used <= t.used
    ensures forall r :: IsRoot(s, r) ==> IsRoot(t, r)
    ensures forall r, path :: IsRoot(s, r) && |path| == 4 ==> Resolve(t.mem, r, path) == Resolve(s.mem, r, path)
    ensures o.Done? && o.v != NULL ==> LeastUnmapped(s, o.v)
  {
    hide Sound, Builds;
    BuildsFacts(s, t, KERNEL, false);
  }

  /** A successful `mapPage` without an address is the same update, at the least address the kernel does not map. */
  lemma MapAnyUpdates(s: Space, r: nat, o: Outcome, t: Space) returns (g: nat)
    requires Sound(s) && IsRoot(s, r) && MapAnyStep(s, r, NULL, o, t) && o.Done? && o.v != NULL
    ensures Sound(t) && LeastUnmapped(s, o.v) && g !in s.used && g in t.used && s.used <= t.used
    ensures Updated(s, r, PathOf(o.v), Some(g), t) && Resolve(s.mem, r, PathOf(o.v)) == None
  {
    hide Sound, Builds, PathOf, MapStep, ScanStep, LeastUnmapped;
    var u, found :| ScanStep(s, found, u) && AfterScan(u, r, found, o, t);
    ScanFacts(s, found, u);
    MapsWhatItSays(u, r, found.v, o, t);
    g := MapUpdates(u, r, o.v, t);
  }

  /** A `mapPage` without an address that maps nothing changes no translation. */
  lemma NoMapAnyNoChange(s: Space, r: nat, o: Outcome, t: Space)
    requires Sound(s) && IsRoot(s, r) && MapAnyStep(s, r, NULL, o, t) && (o.Done? ==> o.v == NULL)
    ensures Sound(t) && forall r2, path :: IsRoot(s, r2) && |path| == 4 ==>
        Resolve(t.mem, r2, path) == Resolve(s.mem, r2, path)
  {
    hide Sound, Builds, PathOf, MapStep, ScanStep;
    var u, found :| ScanStep(s, found, u) && AfterScan(u, r, found, o, t);
    ScanFacts(s, found, u);
    if found.Done? && found.v != NULL {
      NoMapNoChange(u, r, found.v, o, t);
    }
  }

  // ----- every step -----

  datatype Op = Map(root: nat, v: nat) | Unmap(v: nat) | Scan | Create | Destroy(root: nat)

  /** One call of the pager on space roots that exist, unmapping no page in use since boot. */
  ghost predicate Step(s: Space, op: Op, o: Outcome, t: Space) {
    match op
    case Map(r, v) => IsRoot(s, r) && MapAnyStep(s, r, v, o, t)
    case Unmap(v) => UnmapSafe(s, v) && UnmapStep(s, v, t)
    case Scan => ScanStep(s, o, t)
    case Create => o.Done? && CreateStep(s, o.v, t)
    case Destroy(r) => IsRoot(s, r) && r != KERNEL && DestroyStep(s, r, t)
  }

  lemma CreateKeeps(s: Space, r: nat, t: Space)
    requires Sound(s) && CreateStep(s, r, t)
    ensures Sound(t)
  {
    hide Sound, NoneFree;
    if r != NULL {
      var p :| CreatedWith(s, r, p, t);
      WithSpaceSound(s, r, p);
    }
  }

  lemma MapKeepsSound(s: Space, r: nat, v: nat, o: Outcome, t: Space)
    requires Sound(s) && IsRoot(s, r) && MapAnyStep(s, r, v, o, t)
    ensures Sound(t)
  {
    hide Sound, Builds, PathOf, Low, MapStep, ScanStep, AfterScan;
    if o.Done? && o.v != NULL {
      if v == NULL {
        var g := MapAnyUpdates(s, r, o, t);
      } else {
        MapsWhatItSays(s, r, v, o, t);
        var g := MapUpdates(s, r, v, t);
      }
    } else if v == NULL {
      NoMapAnyNoChange(s, r, o, t);
    } else {
      NoMapNoChange(s, r, v, o, t);
    }
  }

  /** Every call keeps the invariant: tables apart and in use, pages mapped once, none leaked. */
  lemma StepKeepsSound(s: Space, op: Op, o: Outcome, t: Space)
    requires Sound(s) && Step(s, op, o, t)
    ensures Sound(t)
  {
    hide Sound, Builds, PathOf, Low, MapAnyStep, UnmapStep, CreateStep;
    match op
    case Map(r, v) => MapKeepsSound(s, r, v, o, t);
    case Unmap(v) => UnmapUpdates(s, v, t);
    case Scan => BuildsFacts(s, t, KERNEL, false);
    case Create => CreateKeeps(s, o.v, t);
    case Destroy(r) => WithoutSpaceSound(s, r);
  }

  lemma MapsWhatItSays(s: Space, r: nat, v: nat, o: Outcome, t: Space)
    requires MapStep(s, r, v, o, t) && o.Done? && o.v != NULL
    ensures o == Done(v)
  {
  }

  /** After any run every address space still translates each low address exactly as the kernel does. */
  lemma {:induction false} RunKeepsSharing(ss: seq<Space>, ops: seq<Op>, os: seq<Outcome>, r: nat, v: nat)
    requires |ss| == |ops| + 1 && |os| == |ops| && Sound(ss[0])
    requires forall x :: 0 <= x < |ops| ==> Step(ss[x], ops[x], os[x], ss[x + 1])
    requires IsRoot(ss[|ops|], r) && v < USER_OFFSET
    ensures Sound(ss[|ops|]) && Translate(ss[|ops|], r, v) == Translate(ss[|ops|], KERNEL, v)
  {
    hide Sound, Step;
    if ops == [] {
      LowIsShared(ss[0], r, PathOf(v));
    } else {
      StepKeepsSound(ss[0], ops[0], os[0], ss[0 + 1]);
      RunKeepsSharing(ss[1..], ops[1..], os[1..], r, v);
    }
  }

  // ----- the life of an address space -----

  /** s is s0 with the address space r and nothing else. */
  ghost predicate OnlyAdds(s0: Space, r: nat, s: Space) {
    && Sound(s) && IsRoot(s, r) && r !in s0.tables && r != KERNEL && s.boot == s0.boot && |s.mem| == |s0.mem|
    && (forall x :: x in s0.tables ==>
        x in s.tables && s.tables[x] == s0.tables[x] && x < |s0.mem| && s.mem[x] == s0.mem[x])
    && forall x :: x in s.tables && x !in s0.tables ==> s.tables[x].root == r
  }

  lemma CreateOnlyAdds(s0: Space, r: nat, s: Space)
    requires Sound(s0) && r != NULL && CreateStep(s0, r, s)
    ensures OnlyAdds(s0, r, s)
  {
    hide Sound, NoneFree;
    var p :| CreatedWith(s0, r, p, s);
    WithSpaceSound(s0, r, p);
    TablesInUse(s0);
    KernelIsOld(s0);
  }

  /** Mapping in the space itself, above the shared part, touches no other space's tables. */
  lemma MapOnlyAdds(s0: Space, r: nat, s: Space, v: nat, o: Outcome, t: Space)
    requires Sound(s0) && OnlyAdds(s0, r, s) && v != NULL && !Low(PathOf(v)) && MapStep(s, r, v, o, t)
    ensures OnlyAdds(s0, r, t)
  {
    hide Sound, Builds, PathOf, Low;
    RootsAreOld(s0, r);
    if o.Done? && o.v != NULL {
      var u, f, g, flags :| Mapped(s, r, PathOf(v), u, f, g, flags, t);
      BuildsFacts(s, u, r, false);
      WithLeafSound(u, f, PathOf(v)[3], g, flags);
      assert Reached(u, r, PathOf(v), 3, f);
      ReachFacts(u, r, PathOf(v), 3, f);
    } else {
      BuildsFacts(s, t, r, false);
    }
  }

  lemma RootsAreOld(s0: Space, r: nat)
    requires Sound(s0) && r !in s0.tables
    ensures forall x :: x in s0.tables ==> s0.tables[x].root != r
  {
    hide Sound;
    forall x | x in s0.tables ensures s0.tables[x].root != r {
      TableAt(s0, x);
    }
  }

  /** The pages in use follow from the tables. */
  lemma UsedDetermined(s: Space, t: Space)
    requires Sound(s) && Sound(t) && t.boot == s.boot && t.tables == s.tables && |t.mem| == |s.mem|
    requires forall x :: x in s.tables && x < |s.mem| ==> t.mem[x] == s.mem[x]
    ensures t.used <= s.used
  {
    TablesInUse(s);
    forall g | g in t.used ensures g in s.used {
      if g !in t.boot && g !in t.tables {
        var f, i :| LeafAt(t, f, i, g);
        LeafAgain(s, f, i, g);
      }
    }
  }

  lemma LeafAgain(s: Space, f: nat, i: nat, g: nat)
    requires Sound(s) && LeafAt(s, f, i, g)
    ensures g in s.used
  {
    hide Sound;
    LeafUsed(s, f, i, g);
  }

  lemma DestroyTakesBack(s0: Space, r: nat, s: Space, t: Space)
    requires Sound(s0) && OnlyAdds(s0, r, s) && DestroyStep(s, r, t)
    ensures Sound(t) && t.used == s0.used && t.tables == s0.tables
    ensures forall x :: x in s0.tables ==> x < |t.mem| && x < |s0.mem| && t.mem[x] == s0.mem[x]
  {
    hide Sound, Owned;
    RootsAreOld(s0, r);
    WithoutSpaceSound(s, r);
    assert t.tables == s0.tables;
    UsedDetermined(s0, t);
    UsedDetermined(t, s0);
  }

  /** Conservation over the life of an address space: created, mapped into any number of times above the shared
      part, with whatever outcome, and destroyed, it leaves the pages in use and every table as they were. */
  lemma {:induction false} LifeConserves(s0: Space, r: nat, ss: seq<Space>, vs: seq<nat>, os: seq<Outcome>, t: Space)
    requires Sound(s0) && r != NULL && |ss| == |vs| + 1 && |os| == |vs|
    requires CreateStep(s0, r, ss[0])
    requires forall x :: 0 <= x < |vs| ==>
        USER_OFFSET <= vs[x] < 0x8000_0000_0000 && MapStep(ss[x], r, vs[x], os[x], ss[x + 1])
    requires DestroyStep(ss[|vs|], r, t)
    ensures Sound(t) && t.used == s0.used && t.tables == s0.tables
    ensures forall x :: x in s0.tables ==> x < |t.mem| && x < |s0.mem| && t.mem[x] == s0.mem[x]
  {
    hide Sound, CreateStep, MapStep;
    CreateOnlyAdds(s0, r, ss[0]);
    MapsOnlyAdd(s0, r, ss, vs, os);
    DestroyTakesBack(s0, r, ss[|vs|], t);
  }

  lemma {:induction false} MapsOnlyAdd(s0: Space, r: nat, ss: seq<Space>, vs: seq<nat>, os: seq<Outcome>)
    requires Sound(s0) && |ss| == |vs| + 1 && |os| == |vs| && OnlyAdds(s0, r, ss[0])
    requires forall x :: 0 <= x < |vs| ==>
        USER_OFFSET <= vs[x] < 0x8000_0000_0000 && MapStep(ss[x], r, vs[x], os[x], ss[x + 1])
    ensures OnlyAdds(s0, r, ss[|vs|])
  {
    hide Sound, OnlyAdds, MapStep;
    if vs == [] {
    } else {
      UserIsNotLow(vs[0]);
      MapOnlyAdds(s0, r, ss[0], vs[0], os[0], ss[0 + 1]);
      MapsOnlyAdd(s0, r, ss[1..], vs[1..], os[1..]);
    }
  }

  lemma UserIsNotLow(v: nat)
    requires USER_OFFSET <= v < 0x8000_0000_0000
    ensures !Low(PathOf(v))
  {
    PathDigits(v);
    Quotients(v);
  }
}
