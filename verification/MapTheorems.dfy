/** What mapping a page promises beyond its effect on translations: when it answers, and the entries it writes. */
module MapTheorems {
  import opened Division
  import opened PageTables
  import opened PageEdits
  import opened PageSpaces
  import opened PagerSpec
  import opened PagerTheorems

  // ----- when the kernel stops -----

  lemma LaidFacts(s: Space, r: nat, path: seq<nat>, k: nat, flags: nat, u: Space)
    requires Sound(s) && IsRoot(s, r) && Indices(path) && k <= 2 && Laid(s, r, path, k, flags, u)
    ensures Sound(u) && IsRoot(u, r) && |u.mem| == |s.mem| && !Lacks(u, r, path, k + 1)
    ensures Resolve(u.mem, r, path) == Resolve(s.mem, r, path)
    ensures u == s || exists g: nat :: IsFirstFree(s, g) && u.used == s.used + {g}
  {
    hide Sound, NoneFree, Resolve;
    var f: nat :| Reached(s, r, path, k, f) && Tabled(s, f, path[k], flags, u);
    ReachFacts(s, r, path, k, f);
    ReachStep(s, r, path, k, f);
    if !Present(s.mem[f][path[k]]) {
      var g: nat :| BuiltIn(s, f, path[k], g, flags, u);
      HomeOrThere(s, r, path, k, f);
      BuildsTable(s, f, path[k], g, flags, r, Low(path));
      hide Builds;
      BuildsFacts(s, u, r, Low(path));
      BuildsReached(s, u, r, path, k, f);
      ReachStep(u, r, path, k, f);
      assert IsFirstFree(s, g) && u.used == s.used + {g};
    }
  }

  lemma LacksMore(s: Space, r: nat, path: seq<nat>, n: nat)
    requires n + 1 <= |path| && Lacks(s, r, path, n)
    ensures Lacks(s, r, path, n + 1)
  {
    assert path[..n + 1] == path[..n] + [path[n]];
    ResolveAppend(s.mem, r, path[..n], [path[n]]);
  }

  /** The last-level entry is no part of the walk to its table. */
  lemma LeafLeavesTables(w: Space, r: nat, path: seq<nat>, f: nat, v: nat, flags: nat, o: Outcome, t: Space)
    requires Sound(w) && IsRoot(w, r) && Indices(path) && Reached(w, r, path, 3, f)
    requires LeafDone(w, path, f, v, flags, o, t)
    ensures Reached(t, r, path, 3, f) && !Lacks(t, r, path, 3)
  {
    hide Sound, Resolve;
    ReachFacts(w, r, path, 3, f);
    RootPlace(w, r);
    WalkFrame(w, t.mem, f, path[3], r, path[..3]);
  }

  /** `mapPage` stops the kernel exactly when the top entry is missing, or a table on the way is and no frame is
      free. */
  lemma MapHaltsExactly(s: Space, r: nat, v: nat, flags: nat, o: Outcome, t: Space)
    requires Sound(s) && IsRoot(s, r) && MapDone(s, r, v, flags, o, t)
    ensures o == Halted <==> Lacks(s, r, PathOf(v), 1) || (Lacks(t, r, PathOf(v), 3) && NoneFree(t))
  {
    hide Sound, PathOf, Laid, LeafDone, NoneFree, Resolve, Lacks, Reached;
    var path := PathOf(v);
    if Lacks(s, r, path, 1) {
    } else if Lacks(s, r, path, 2) && NoneFree(s) {
      LacksMore(s, r, path, 2);
    } else {
      var u :| Laid(s, r, path, 1, flags, u) && MapBelow(u, r, v, flags, o, t);
      LaidFacts(s, r, path, 1, flags, u);
      if !(Lacks(u, r, path, 3) && NoneFree(u)) {
        var w, f :| Laid(u, r, path, 2, flags, w) && LeafReached(w, r, path, f, v, flags, o, t);
        LaidFacts(u, r, path, 2, flags, w);
        LeafLeavesTables(w, r, path, f, v, flags, o, t);
        LeafAnswers(w, path, f, v, flags, o, t);
      }
    }
  }

  lemma LeafAnswers(w: Space, path: seq<nat>, f: nat, v: nat, flags: nat, o: Outcome, t: Space)
    requires LeafDone(w, path, f, v, flags, o, t)
    ensures o.Done?
  {
  }

  /** At least n of the frames that are searched are free. */
  ghost predicate Spare(s: Space, free: set<nat>, n: nat) {
    |free - s.used| >= n && forall g :: g in free ==> g < Searched(|s.mem|)
  }

  lemma SpareLeft(s: Space, free: set<nat>, n: nat, u: Space)
    requires Spare(s, free, n + 1) && |u.mem| == |s.mem|
    requires u == s || exists g: nat :: IsFirstFree(s, g) && u.used == s.used + {g}
    ensures Spare(u, free, n) && !NoneFree(s)
  {
    var g :| g in free - s.used;
    if u == s {
    } else {
      var h: nat :| IsFirstFree(s, h) && u.used == s.used + {h};
      assert free - u.used == (free - s.used) - {h};
    }
  }

  /** With the top entry there, the address unmapped and three frames free, it is mapped. */
  lemma MapSucceeds(s: Space, r: nat, v: nat, flags: nat, o: Outcome, t: Space, free: set<nat>)
    requires Sound(s) && IsRoot(s, r) && MapDone(s, r, v, flags, o, t)
    requires !Lacks(s, r, PathOf(v), 1) && Resolve(s.mem, r, PathOf(v)) == None && Spare(s, free, 3)
    ensures o == Done(v)
  {
    hide Sound, PathOf, Laid, LeafDone, NoneFree, Resolve, Lacks, Reached, Spare;
    var path := PathOf(v);
    SpareLeft(s, free, 2, s);
    var u :| Laid(s, r, path, 1, flags, u) && MapBelow(u, r, v, flags, o, t);
    LaidFacts(s, r, path, 1, flags, u);
    SpareLeft(s, free, 2, u);
    SpareLeft(u, free, 1, u);
    var w, f :| Laid(u, r, path, 2, flags, w) && LeafReached(w, r, path, f, v, flags, o, t);
    LaidFacts(u, r, path, 2, flags, w);
    SpareLeft(u, free, 1, w);
    SpareLeft(w, free, 0, w);
    LeafMaps(w, r, path, f, v, flags, o, t);
  }

  lemma LeafMaps(w: Space, r: nat, path: seq<nat>, f: nat, v: nat, flags: nat, o: Outcome, t: Space)
    requires Indices(path) && Reached(w, r, path, 3, f) && LeafDone(w, path, f, v, flags, o, t)
    requires Resolve(w.mem, r, path) == None && !NoneFree(w)
    ensures o == Done(v)
  {
    hide NoneFree, Resolve;
    ReachStep(w, r, path, 3, f);
    assert path[..4] == path;
  }

  /** A new space is made whenever two frames are free. */
  lemma CreateSucceeds(s: Space, r: nat, t: Space, free: set<nat>)
    requires Sound(s) && CreateStep(s, r, t) && Spare(s, free, 2)
    ensures r != NULL
  {
    hide Sound, NoneFree, Spare;
    SpareLeft(s, free, 1, s);
    if r == NULL {
      var g: nat :| IsFirstFree(s, g) && NoneFree(s.(used := s.used + {g}));
      var u := s.(used := s.used + {g});
      SpareLeft(s, free, 1, u);
      SpareLeft(u, free, 0, u);
    }
  }

  // ----- what is written -----

  /** An entry for frame g: present and writable, and its other low bits those of the flags. */
  predicate EntryFor(e: nat, g: nat, flags: nat) { e / 0x1000 == g && e % 4 == 3 && e / 4 % 0x400 == flags / 4 % 0x400 }

  lemma MadeEntry(g: nat, flags: nat)
    requires flags < 0x1000
    ensures EntryFor(MakeEntry(g, flags), g, flags)
  {
    var e, f := MakeEntry(g, flags), flags / 4;
    DivMod(flags, 4);
    DivIs(e, 0x1000, g, 4 * f + 3);
    DivIs(e, 4, 0x400 * g + f, 3);
    DivIs(0x400 * g + f, 0x400, g, f);
    DivSmall(f, 0x400);
  }

  /** The entry that points at table x. */
  ghost predicate TableEntry(t: Space, x: nat, flags: nat)
    requires x in t.tables
  {
    var p := t.tables[x];
    && p.path != [] && p.parent < |t.mem| && p.path[|p.path| - 1] < ENTRIES
    && EntryFor(t.mem[p.parent][p.path[|p.path| - 1]], x, flags)
  }

  /** The tables t has and s has not: on the way along the path, and entered with the flags. */
  ghost predicate NewTables(s: Space, path: seq<nat>, flags: nat, t: Space) {
    forall x :: x in t.tables && x !in s.tables ==> TableEntry(t, x, flags) && t.tables[x].path <= path
  }

  lemma LaidWrites(s: Space, r: nat, path: seq<nat>, k: nat, flags: nat, u: Space)
    requires Sound(s) && IsRoot(s, r) && Indices(path) && 1 <= k <= 2 && Laid(s, r, path, k, flags, u)
    ensures NewTables(s, path, flags, u)
    ensures forall x :: x in u.tables && x !in s.tables ==> |u.tables[x].path| == k + 1
    ensures forall x :: x in s.tables ==> x in u.tables && u.tables[x] == s.tables[x]
    ensures forall x, j: nat :: x in s.tables && x < |s.mem| && j < ENTRIES && |s.tables[x].path| != k ==>
        x < |u.mem| && u.mem[x][j] == s.mem[x][j]
  {
    hide Sound, NoneFree, Resolve, EntryFor, MakeEntry;
    var f: nat :| Reached(s, r, path, k, f) && Tabled(s, f, path[k], flags, u);
    ReachFacts(s, r, path, k, f);
    if !Present(s.mem[f][path[k]]) {
      var g: nat :| BuiltIn(s, f, path[k], g, flags, u);
      FreshFrame(s, f, path[k], g);
      MadeEntry(g, flags);
      assert path[..k] + [path[k]] == path[..k + 1];
    }
  }

  lemma NewTwice(s: Space, u: Space, w: Space, path: seq<nat>, flags: nat)
    requires Sound(s) && Sound(u) && NewTables(s, path, flags, u) && NewTables(u, path, flags, w)
    requires forall x :: x in s.tables ==> x in u.tables && u.tables[x] == s.tables[x]
    requires forall x :: x in u.tables ==> x in w.tables && w.tables[x] == u.tables[x]
    requires forall x :: x in u.tables && x !in s.tables ==> |u.tables[x].path| == 2
    requires forall x, j: nat :: x in u.tables && x < |u.mem| && j < ENTRIES && |u.tables[x].path| != 2 ==>
        x < |w.mem| && w.mem[x][j] == u.mem[x][j]
    ensures NewTables(s, path, flags, w)
  {
    hide Sound, EntryFor;
    forall x | x in w.tables && x !in s.tables ensures TableEntry(w, x, flags) && w.tables[x].path <= path {
      if x in u.tables {
        TableAt(u, x);
      }
    }
  }

  lemma LeafKeepsNew(s: Space, w: Space, path: seq<nat>, f: nat, v: nat, flags: nat, o: Outcome, t: Space)
    requires Sound(w) && NewTables(s, path, flags, w) && LeafDone(w, path, f, v, flags, o, t)
    requires f in w.tables && |w.tables[f].path| == 3
    ensures NewTables(s, path, flags, t)
  {
    hide Sound, EntryFor, NoneFree, MakeEntry;
    forall x | x in t.tables && x !in s.tables ensures TableEntry(t, x, flags) && t.tables[x].path <= path {
      TableAt(w, x);
    }
  }

  /** Every table `mapPage` builds is on the way to the address and entered with the caller's flags. */
  lemma MapBuilds(s: Space, r: nat, v: nat, flags: nat, o: Outcome, t: Space)
    requires Sound(s) && IsRoot(s, r) && MapDone(s, r, v, flags, o, t)
    ensures NewTables(s, PathOf(v), flags, t)
  {
    hide Sound, PathOf, Laid, LeafDone, NoneFree, Resolve, Lacks, Reached, EntryFor;
    var path := PathOf(v);
    if !Lacks(s, r, path, 1) && !(Lacks(s, r, path, 2) && NoneFree(s)) {
      var u :| Laid(s, r, path, 1, flags, u) && MapBelow(u, r, v, flags, o, t);
      LaidFacts(s, r, path, 1, flags, u);
      LaidWrites(s, r, path, 1, flags, u);
      if !(Lacks(u, r, path, 3) && NoneFree(u)) {
        var w, f :| Laid(u, r, path, 2, flags, w) && LeafReached(w, r, path, f, v, flags, o, t);
        LaidFacts(u, r, path, 2, flags, w);
        LaidWrites(u, r, path, 2, flags, w);
        NewTwice(s, u, w, path, flags);
        ReachFacts(w, r, path, 3, f);
        LeafKeepsNew(s, w, path, f, v, flags, o, t);
        ReachFacts(w, r, path, 3, f);
      }
    }
  }

  /** A page mapped is entered in the last-level table of its address with the caller's flags. */
  lemma MapWrites(s: Space, r: nat, v: nat, flags: nat, t: Space) returns (f: nat, g: nat)
    requires Sound(s) && IsRoot(s, r) && v != NULL && MapDone(s, r, v, flags, Done(v), t)
    ensures Reached(t, r, PathOf(v), 3, f) && f < |t.mem| && g !in s.used && g < Searched(|t.mem|)
    ensures EntryFor(t.mem[f][PathOf(v)[3]], g, flags)
  {
    hide Sound, PathOf, Laid, NoneFree, Resolve, Lacks, Reached, EntryFor, MakeEntry;
    var path := PathOf(v);
    var u :| Laid(s, r, path, 1, flags, u) && MapBelow(u, r, v, flags, Done(v), t);
    LaidFacts(s, r, path, 1, flags, u);
    var w;
    w, f :| Laid(u, r, path, 2, flags, w) && LeafReached(w, r, path, f, v, flags, Done(v), t);
    LaidFacts(u, r, path, 2, flags, w);
    LeafLeavesTables(w, r, path, f, v, flags, Done(v), t);
    g :| IsFirstFree(w, g) && t == WithLeaf(w, f, path[3], g, flags);
    MadeEntry(g, flags);
  }

  /** The two tables of a new space: empty but for one entry each, open to the user. */
  lemma CreateWrites(s: Space, r: nat, t: Space) returns (p: nat)
    requires Sound(s) && r != NULL && CreateStep(s, r, t)
    ensures r < |t.mem| && p < |t.mem| && EntryFor(t.mem[r][0], p, 7) && EntryFor(t.mem[p][0], PD0, 7)
    ensures forall j :: 0 < j < ENTRIES ==> t.mem[r][j] == 0 && t.mem[p][j] == 0
  {
    hide Sound, NoneFree, EntryFor, MakeEntry;
    p :| CreatedWith(s, r, p, t);
    MadeEntry(p, USER_FLAGS);
    MadeEntry(PD0, USER_FLAGS);
  }

  // ----- the search for an address -----

  lemma LeastIsOne(s: Space, v: nat, w: nat)
    requires LeastUnmapped(s, v) && LeastUnmapped(s, w)
    ensures v == w
  {
    hide PathOf;
  }

  /** `getUnmappedVAddr` returns the least page address the kernel does not map, unless that has no page table and
      cannot be given one: then, and only then, it stops the kernel. */
  lemma ScanHaltsExactly(s: Space, o: Outcome, t: Space, v: nat)
    requires Sound(s) && ScanStep(s, o, t) && LeastUnmapped(s, v)
    ensures o == if NoTableFor(s, v) then Halted else Done(v)
  {
    hide Sound, PathOf, Builds, LeastUnmapped, Lacks, NoneFree, Laid;
    KernelRoot(s);
    match o
    case Halted =>
      var w: nat :| LeastUnmapped(s, w) && NoTableFor(s, w);
      LeastIsOne(s, v, w);
    case Done(w) =>
      if w == NULL {
        NotAllMapped(s, v);
      } else {
        LeastIsOne(s, v, w);
        LaidHasTable(s, PathOf(v), t);
      }
  }

  /** The search builds at most the page table of the address it returns, present, writable and for the kernel alone. */
  lemma ScanBuilds(s: Space, o: Outcome, t: Space)
    requires Sound(s) && ScanStep(s, o, t)
    ensures o.Done? ==> NewTables(s, PathOf(o.v), 0, t)
    ensures t != s ==> o.Done? && o.v != NULL && Lacks(s, KERNEL, PathOf(o.v), 3)
  {
    hide Sound, PathOf, Builds, LeastUnmapped, NoneFree, Laid, EntryFor, Resolve;
    KernelRoot(s);
    if o.Done? && o.v != NULL {
      LaidWrites(s, KERNEL, PathOf(o.v), 2, 0, t);
      LaidKeeps(s, KERNEL, PathOf(o.v), 2, 0, t);
    }
  }

  lemma LaidKeeps(s: Space, r: nat, path: seq<nat>, k: nat, flags: nat, u: Space)
    requires Sound(s) && IsRoot(s, r) && Indices(path) && k <= 2 && Laid(s, r, path, k, flags, u)
    ensures u == s || Lacks(s, r, path, k + 1)
  {
    hide Sound, NoneFree, Resolve;
    var f: nat :| Reached(s, r, path, k, f) && Tabled(s, f, path[k], flags, u);
    ReachFacts(s, r, path, k, f);
    ReachStep(s, r, path, k, f);
  }

  lemma NotAllMapped(s: Space, v: nat)
    requires LeastUnmapped(s, v)
    ensures !AllMapped(s)
  {
    hide PathOf, Resolve;
    assert Translate(s, KERNEL, v) == None;
  }

  lemma LaidHasTable(s: Space, path: seq<nat>, t: Space)
    requires Sound(s) && Laid(s, KERNEL, path, 2, 0, t) && Indices(path)
    ensures !Lacks(s, KERNEL, path, 3) || (!Lacks(s, KERNEL, path, 2) && !NoneFree(s))
  {
    hide Sound, NoneFree, Resolve;
    KernelRoot(s);
    var f: nat :| Reached(s, KERNEL, path, 2, f) && Tabled(s, f, path[2], 0, t);
    ReachFacts(s, KERNEL, path, 2, f);
    ReachStep(s, KERNEL, path, 2, f);
    TabledMeans(s, f, path[2], 0, t);
  }

  /** After boot, as long as page table 0 has room above the low pages, the search answers with its first gap. */
  lemma ScanAfterBoot(s: Space, n: nat, j: nat, o: Outcome, t: Space)
    requires Booted(s, n) && LOW_PAGES <= j < ENTRIES && !Present(s.mem[PT0][j])
    requires forall k :: LOW_PAGES <= k < j ==> Present(s.mem[PT0][k])
    requires ScanStep(s, o, t)
    ensures Sound(s) && o == Done(j * 0x1000)
  {
    BootedIsSound(s, n);
    var v := j * 0x1000;
    PageAt(j);
    hide Sound, Booted, ScanStep, LeastUnmapped, PathOf, Resolve;
    FirstTables(s);
    LowPath(v);
    InTable0(s, v);
    forall w | FREE_PAGES_START <= w < v && w % 0x1000 == 0 ensures Translate(s, KERNEL, w).Some? {
      BeforeGap(s, j, w);
    }
    hide Present, Translate, NoTableFor, NoneFree;
    assert PathOf(v)[..3] == [0, 0, 0];
    IsLeast(s, v);
    ScanHaltsExactly(s, o, t, v);
  }

  lemma BootedIsSound(s: Space, n: nat)
    requires Booted(s, n)
    ensures Sound(s)
  {
    InitSound(s, n);
  }

  lemma BeforeGap(s: Space, j: nat, w: nat)
    requires Sound(s) && j < ENTRIES && PT0 < |s.mem| && FREE_PAGES_START <= w < j * 0x1000
    requires forall k :: LOW_PAGES <= k < j ==> Present(s.mem[PT0][k])
    ensures Translate(s, KERNEL, w).Some?
  {
    hide Sound, Translate, Present;
    LowPath(w);
    InTable0(s, w);
  }

  lemma PageAt(j: nat)
    requires LOW_PAGES <= j < ENTRIES
    ensures var v := j * 0x1000; v % 0x1000 == 0 && v / 0x1000 == j && FREE_PAGES_START <= v < 0x20_0000
    ensures forall w: nat :: FREE_PAGES_START <= w < j * 0x1000 ==> LOW_PAGES <= w / 0x1000 < j
  {
  }

  lemma IsLeast(s: Space, v: nat)
    requires FREE_PAGES_START <= v < 0x20_0000 && v % 0x1000 == 0 && Translate(s, KERNEL, v) == None
    requires forall w :: FREE_PAGES_START <= w < v && w % 0x1000 == 0 ==> Translate(s, KERNEL, w).Some?
    ensures LeastUnmapped(s, v)
  {
  }

  lemma LowPath(w: nat)
    requires w < 0x20_0000
    ensures PathOf(w) == [0, 0, 0, w / 0x1000]
  {
  }

  /** A page address in the reach of page table 0 is mapped exactly when its entry there is present. */
  lemma InTable0(s: Space, w: nat)
    requires Sound(s) && PathOf(w) == [0, 0, 0, w / 0x1000] && w / 0x1000 < ENTRIES
    ensures PT0 < |s.mem| && (Translate(s, KERNEL, w).Some? <==> Present(s.mem[PT0][w / 0x1000]))
  {
    hide Sound, PathOf;
    FirstTables(s);
    TablesInUse(s);
    ResolveAppend(s.mem, KERNEL, [0, 0, 0], [w / 0x1000]);
    assert [0, 0, 0] + [w / 0x1000] == PathOf(w);
    assert [w / 0x1000][1..] == [];
  }
}
