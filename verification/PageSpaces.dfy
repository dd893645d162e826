/** Address spaces made and destroyed: what each adds to or takes from the tables and the pages in use. */
module PageSpaces {
  import opened PageTables
  import opened PageEdits

  // ----- a new address space -----

  const USER_FLAGS: nat := 7

  /** Frames r and t become the top table and the first page directory pointer table of a new space. */
  function WithSpace(s: Space, r: nat, t: nat): Space
    requires r < |s.mem| && t < |s.mem|
  {
    s.(mem := s.mem[r := Blank()[0 := MakeEntry(t, USER_FLAGS)]][t := Blank()[0 := MakeEntry(PD0, USER_FLAGS)]],
       used := s.used + {r, t},
       tables := s.tables[r := Place(r, [], 0)][t := Place(r, [0], r)])
  }

  ghost predicate CanAddSpace(s: Space, r: nat, t: nat) {
    && Sound(s) && 0 < r < |s.mem| && 0 < t < |s.mem| && r != t && r !in s.used && t !in s.used
  }

  lemma SpaceTableOk(s: Space, r: nat, t: nat, x: nat)
    requires CanAddSpace(s, r, t) && x in WithSpace(s, r, t).tables
    ensures TableOk(WithSpace(s, r, t), x)
  {
    hide Sound;
    var s2 := WithSpace(s, r, t);
    TablesInUse(s);
    NotYetMapped(s, r);
    NotYetMapped(s, t);
    KernelIsOld(s);
    assert IsRoot(s2, r);
    if x == t {
      assert [0][..0] == [];
    } else if x != r {
      TableAt(s, x);
      OldTableOk(s, s2, x);
    }
  }

  lemma KernelIsOld(s: Space)
    requires Sound(s)
    ensures PD0 in s.tables && s.tables[PD0] == Place(KERNEL, [0, 0], PDPT0) && KERNEL in s.tables && KERNEL in s.used
  {
    TableAt(s, PD0);
    TablesInUse(s);
  }

  lemma SpaceEntryOk(s: Space, r: nat, t: nat, x: nat, j: nat)
    requires CanAddSpace(s, r, t) && x in WithSpace(s, r, t).tables && j < ENTRIES
    ensures EntryOk(WithSpace(s, r, t), x, j)
  {
    hide Sound;
    var s2 := WithSpace(s, r, t);
    TablesInUse(s);
    NotYetMapped(s, r);
    NotYetMapped(s, t);
    KernelIsOld(s);
    if x != r && x != t {
      EntryAt(s, x, j);
      OldEntryOk(s, s2, x, j);
    } else if x == r {
      assert [] + [0] == [0];
    }
  }

  lemma WithSpaceSound(s: Space, r: nat, t: nat)
    requires CanAddSpace(s, r, t)
    ensures Sound(WithSpace(s, r, t)) && IsRoot(WithSpace(s, r, t), r)
  {
    hide TableOk, EntryOk;
    TablesInUse(s);
    var s2 := WithSpace(s, r, t);
    forall x | x in s2.tables ensures TableOk(s2, x) {
      SpaceTableOk(s, r, t, x);
    }
    forall x, j: nat | x in s2.tables && j < ENTRIES ensures EntryOk(s2, x, j) {
      SpaceEntryOk(s, r, t, x, j);
    }
    forall y | y in s2.used && y !in s2.boot && y !in s2.tables ensures exists x, j :: LeafAt(s2, x, j, y) {
      var x, j :| LeafAt(s, x, j, y);
      assert LeafAt(s2, x, j, y);
    }
  }

  /** Old spaces translate as before; the new one has the kernel's low addresses and nothing else. */
  lemma WithSpaceWalks(s: Space, r: nat, t: nat, r2: nat, path: seq<nat>)
    requires CanAddSpace(s, r, t) && |path| == 4 && forall k :: 0 <= k < 4 ==> path[k] < ENTRIES
    ensures IsRoot(s, r2) ==> Resolve(WithSpace(s, r, t).mem, r2, path) == Resolve(s.mem, r2, path)
    ensures Resolve(WithSpace(s, r, t).mem, r, path) == if Low(path) then Resolve(s.mem, KERNEL, path) else None
  {
    hide Sound;
    var s2 := WithSpace(s, r, t);
    WithSpaceSound(s, r, t);
    KernelIsOld(s);
    TablesInUse(s);
    KernelRoot(s);
    if IsRoot(s, r2) {
      WalkUntouched(s, s2.mem, r2, path);
    }
    if Low(path) {
      LowIsShared(s2, r, path);
      WalkUntouched(s, s2.mem, KERNEL, path);
    } else if path[0] == 0 {
      assert path[1..][0] == path[1] != 0;
    }
  }

  lemma KernelRoot(s: Space)
    requires Sound(s)
    ensures IsRoot(s, KERNEL)
  {
    hide NoLeak, EntryOk;
    assert TableOk(s, PD0);
  }

  /** Walks do not notice frames that are no tables. */
  lemma {:induction false} WalkUntouched(s: Space, mem2: seq<Frame>, x: nat, path: seq<nat>)
    requires Sound(s) && |mem2| == |s.mem| && forall y :: y in s.tables && y < |mem2| ==> mem2[y] == s.mem[y]
    requires x in s.tables && |s.tables[x].path| + |path| <= 4
    ensures Resolve(mem2, x, path) == Resolve(s.mem, x, path)
    decreases |path|
  {
    hide Sound;
    if path != [] && path[0] < ENTRIES {
      ChildStep(s, x, path[0]);
      if Present(s.mem[x][path[0]]) && |path| > 1 {
        WalkUntouched(s, mem2, Target(s.mem[x][path[0]]), path[1..]);
      } else {
        assert |path| == 1 ==> path[1..] == [];
      }
    }
  }

  // ----- an address space destroyed -----

  /** Frame g belongs to address space r: one of its tables, or mapped by one. */
  ghost predicate Owns(s: Space, r: nat, g: nat) {
    (g in s.tables && s.tables[g].root == r) || exists f, i :: LeafAt(s, f, i, g) && s.tables[f].root == r
  }

  ghost function Owned(s: Space, r: nat): set<nat> {
    set g | g in s.used && Owns(s, r, g)
  }

  ghost function WithoutSpace(s: Space, r: nat): Space {
    s.(used := s.used - Owned(s, r), tables := map x | x in s.tables && s.tables[x].root != r :: s.tables[x])
  }

  lemma TableIsNoLeaf(s: Space, g: nat)
    requires Sound(s) && g in s.tables && g !in s.boot
    ensures forall f, i :: !LeafAt(s, f, i, g)
  {
    hide Sound;
    forall f, i ensures !LeafAt(s, f, i, g) {
      if LeafAt(s, f, i, g) { LeafUsed(s, f, i, g); }
    }
  }

  lemma OwnedIsNotBoot(s: Space, r: nat, g: nat)
    requires Sound(s) && r != KERNEL && Owns(s, r, g)
    ensures g !in s.boot && (g in s.tables ==> s.tables[g].root == r) && g in s.used
    ensures forall f, i :: LeafAt(s, f, i, g) ==> s.tables[f].root == r
  {
    hide Sound;
    TablesInUse(s);
    if g in s.tables && s.tables[g].root == r {
      TableAt(s, g);
      TableIsNoLeaf(s, g);
    } else {
      var f, i :| LeafAt(s, f, i, g) && s.tables[f].root == r;
      LeafUsed(s, f, i, g);
    }
  }

  lemma DropTableOk(s: Space, r: nat, x: nat)
    requires Sound(s) && r != KERNEL && x in s.tables && s.tables[x].root != r
    ensures TableOk(WithoutSpace(s, r), x)
  {
    hide Sound, Owns;
    var t := WithoutSpace(s, r);
    TablesInUse(s);
    TableAt(s, x);
    RootPlace(s, s.tables[x].root);
    if Owns(s, r, x) {
      OwnedIsNotBoot(s, r, x);
    }
    OldTableOk(s, t, x);
  }

  lemma DropEntryOk(s: Space, r: nat, x: nat, j: nat)
    requires Sound(s) && r != KERNEL && x in s.tables && s.tables[x].root != r && j < ENTRIES
    ensures EntryOk(WithoutSpace(s, r), x, j)
  {
    hide Sound, Owns;
    var t := WithoutSpace(s, r);
    TablesInUse(s);
    KernelIsOld(s);
    EntryAt(s, x, j);
    if Present(s.mem[x][j]) && |s.tables[x].path| == 3 {
      var g := Target(s.mem[x][j]);
      assert LeafAt(s, x, j, g);
      if Owns(s, r, g) {
        OwnedIsNotBoot(s, r, g);
      }
    }
    OldEntryOk(s, t, x, j);
  }

  lemma WithoutSpaceSound(s: Space, r: nat)
    requires Sound(s) && r != KERNEL
    ensures Sound(WithoutSpace(s, r))
  {
    hide TableOk, EntryOk;
    var t := WithoutSpace(s, r);
    forall g | g in s.boot ensures g in t.used {
      if Owns(s, r, g) { OwnedIsNotBoot(s, r, g); }
    }
    forall x | x in t.tables ensures TableOk(t, x) {
      DropTableOk(s, r, x);
    }
    forall x, j: nat | x in t.tables && j < ENTRIES ensures EntryOk(t, x, j) {
      DropEntryOk(s, r, x, j);
    }
    forall y | y in t.used && y !in t.boot && y !in t.tables ensures exists x, j :: LeafAt(t, x, j, y) {
      var x, j :| LeafAt(s, x, j, y);
      assert LeafAt(t, x, j, y);
    }
  }

  // ----- what the nested loops of destroyPageDir free -----

  /** Frames freed for the first n entries of a table with d levels below it: what each entry points at, and all
      below it, except for page directory 0. */
  function Below(mem: seq<Frame>, f: nat, d: nat, n: nat): set<nat>
    requires f < |mem| && n <= ENTRIES
    decreases d, n
  {
    if n == 0 || d == 0 then {} else Below(mem, f, d, n - 1) + BelowEntry(mem, f, d, n - 1)
  }

  function BelowEntry(mem: seq<Frame>, f: nat, d: nat, i: nat): set<nat>
    requires f < |mem| && i < ENTRIES && d > 0
    decreases d, i, 0
  {
    var e := mem[f][i];
    if !Present(e) || (d == 3 && Target(e) == PD0) then {}
    else {Target(e)} + if Target(e) < |mem| then Below(mem, Target(e), d - 1, ENTRIES) else {}
  }

  lemma {:induction false} EntryInBelow(mem: seq<Frame>, f: nat, d: nat, n: nat, i: nat)
    requires f < |mem| && i < n <= ENTRIES && d > 0
    ensures BelowEntry(mem, f, d, i) <= Below(mem, f, d, n)
  {
    if i < n - 1 {
      EntryInBelow(mem, f, d, n - 1, i);
    }
  }

  lemma NothingBelowALeaf(mem: seq<Frame>, g: nat)
    ensures g < |mem| ==> Below(mem, g, 0, ENTRIES) == {}
  {
  }

  /** What the loops free below the first n entries is below the first n - 1 or at the last. */
  lemma BelowLast(mem: seq<Frame>, f: nat, d: nat, n: nat, g: nat)
    requires f < |mem| && n <= ENTRIES && g in Below(mem, f, d, n)
    ensures d > 0 && n > 0
    ensures g !in Below(mem, f, d, n - 1) ==>
      var e := mem[f][n - 1];
      && Present(e) && !(d == 3 && Target(e) == PD0)
      && (g == Target(e) || (Target(e) < |mem| && g in Below(mem, Target(e), d - 1, ENTRIES)))
  {
  }

  /** Everything the loops free belongs to the space. */
  lemma {:induction false} BelowIsOwned(s: Space, r: nat, f: nat, n: nat, g: nat)
    requires Sound(s) && r != KERNEL && f in s.tables && s.tables[f].root == r && n <= ENTRIES
    requires f < |s.mem| && |s.tables[f].path| <= 3
    requires g in Below(s.mem, f, 4 - |s.tables[f].path|, n)
    ensures Owns(s, r, g)
    decreases 4 - |s.tables[f].path|, n
  {
    hide Sound, Below, BelowEntry;
    var d := 4 - |s.tables[f].path|;
    BelowLast(s.mem, f, d, n, g);
    if g in Below(s.mem, f, d, n - 1) {
      BelowIsOwned(s, r, f, n - 1, g);
    } else {
      EntryAt(s, f, n - 1);
      TablesInUse(s);
      var y := Target(s.mem[f][n - 1]);
      if d == 1 {
        assert LeafAt(s, f, n - 1, y);
        NothingBelowALeaf(s.mem, y);
      } else if g != y {
        BelowIsOwned(s, r, y, ENTRIES, g);
      }
    }
  }

  lemma BelowEntryIs(mem: seq<Frame>, f: nat, d: nat, i: nat)
    requires f < |mem| && i < ENTRIES && d > 0 && Present(mem[f][i]) && Target(mem[f][i]) < |mem|
    requires d != 3 || Target(mem[f][i]) != PD0
    ensures BelowEntry(mem, f, d, i) == {Target(mem[f][i])} + Below(mem, Target(mem[f][i]), d - 1, ENTRIES)
  {
  }

  /** Everything that belongs to the space is its top table or freed by the loops. */
  lemma {:induction false} TableIsBelow(s: Space, r: nat, f: nat)
    requires Sound(s) && r != KERNEL && IsRoot(s, r) && f in s.tables && s.tables[f].root == r
    ensures f < |s.mem| && |s.tables[f].path| <= 3 && r < |s.mem|
    ensures f == r || f in Below(s.mem, r, 4, ENTRIES)
    ensures Below(s.mem, f, 4 - |s.tables[f].path|, ENTRIES) <= Below(s.mem, r, 4, ENTRIES)
    decreases |s.tables[f].path|
  {
    hide Sound, Below, BelowEntry, EntryOk;
    TablesInUse(s);
    TableAt(s, f);
    RootPlace(s, r);
    var p := s.tables[f];
    if p.path == [] {
    } else {
      var i := p.path[|p.path| - 1];
      TableIsBelow(s, r, p.parent);
      var d := 4 - |s.tables[p.parent].path|;
      KernelIsOld(s);
      BelowEntryIs(s.mem, p.parent, d, i);
      EntryInBelow(s.mem, p.parent, d, ENTRIES, i);
    }
  }

  lemma LeafIsBelow(s: Space, r: nat, f: nat, i: nat, g: nat)
    requires Sound(s) && r != KERNEL && IsRoot(s, r) && LeafAt(s, f, i, g) && s.tables[f].root == r
    ensures r < |s.mem| && g in Below(s.mem, r, 4, ENTRIES)
  {
    hide Sound, Below;
    TableIsBelow(s, r, f);
    EntryInBelow(s.mem, f, 1, ENTRIES, i);
    assert g in BelowEntry(s.mem, f, 1, i);
  }

  /** The loops free exactly the frames that belong to the space, its top table aside. */
  lemma BelowIsAllOwned(s: Space, r: nat)
    requires Sound(s) && r != KERNEL && IsRoot(s, r)
    ensures r < |s.mem| && Below(s.mem, r, 4, ENTRIES) + {r} == Owned(s, r)
  {
    hide Sound, Below;
    TablesInUse(s);
    RootPlace(s, r);
    forall g | g in Below(s.mem, r, 4, ENTRIES) + {r} ensures g in Owned(s, r) {
      if g != r {
        BelowIsOwned(s, r, r, ENTRIES, g);
        OwnedIsNotBoot(s, r, g);
      }
    }
    forall g | g in Owned(s, r) ensures g in Below(s.mem, r, 4, ENTRIES) + {r} {
      if g in s.tables && s.tables[g].root == r {
        TableIsBelow(s, r, g);
      } else {
        var f, i :| LeafAt(s, f, i, g) && s.tables[f].root == r;
        LeafIsBelow(s, r, f, i, g);
      }
    }
  }
}
