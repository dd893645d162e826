/** The pager's edits, one lemma each: the invariant survives, and so does every translation the edit is not about. */
module PageEdits {
  import opened PageTables

  // ----- sharing -----

  /** Every address space translates the low addresses exactly as the kernel does. */
  lemma LowIsShared(s: Space, r: nat, path: seq<nat>)
    requires Sound(s) && IsRoot(s, r) && Low(path)
    ensures Resolve(s.mem, r, path) == Resolve(s.mem, KERNEL, path)
    ensures Resolve(s.mem, r, path) == Resolve(s.mem, PD0, path[2..])
  {
    hide NoLeak;
    assert TableOk(s, PD0) && TableOk(s, PDPT0) && TableOk(s, r);
    assert path[1..][1..] == path[2..] && path[0] == 0 && path[1..][0] == 0;
    assert s.tables[PD0].path[..1] == [0] && s.tables[PDPT0].path[..0] == [];
    assert Resolve(s.mem, KERNEL, path) == Resolve(s.mem, PDPT0, path[1..]);
    if r != KERNEL {
      assert EntryOk(s, r, 0);
      var t := Target(s.mem[r][0]);
      assert s.tables[t] == Place(r, [] + [0], r);
      assert EntryOk(s, t, 0);
    }
  }

  // ----- a new table -----

  /** Frame g becomes an empty table under entry i of table f. */
  function WithTable(s: Space, f: nat, i: nat, g: nat, flags: nat): Space
    requires f in s.tables && f < |s.mem| && g < |s.mem| && i < ENTRIES && flags < 0x1000 && f != g
  {
    var m := s.mem[g := Blank()];
    s.(mem := m[f := m[f][i := MakeEntry(g, flags)]], used := s.used + {g},
       tables := s.tables[g := Place(s.tables[f].root, s.tables[f].path + [i], f)])
  }

  ghost predicate CanAddTable(s: Space, f: nat, i: nat, g: nat) {
    && Sound(s) && f in s.tables && f < |s.mem| && |s.tables[f].path| < 3 && i < ENTRIES && !Present(s.mem[f][i])
    && 0 < g < |s.mem| && g !in s.used
  }

  lemma FreshFrame(s: Space, f: nat, i: nat, g: nat)
    requires CanAddTable(s, f, i, g)
    ensures g !in s.tables && g !in s.boot && f != g
    ensures !SharedSlot(s.tables[f], i) && !SharedSlot(Place(s.tables[f].root, s.tables[f].path + [i], f), 0)
  {
    TablesInUse(s);
    assert EntryOk(s, f, i);
  }

  lemma TablesInUse(s: Space)
    requires Sound(s)
    ensures forall f :: f in s.tables ==> f in s.used && 0 < f < |s.mem| && |s.tables[f].path| <= 3
  {
    hide NoLeak, EntryOk;
    forall f | f in s.tables ensures f in s.used && 0 < f < |s.mem| && |s.tables[f].path| <= 3 {
      assert TableOk(s, f);
    }
  }

  lemma TableAt(s: Space, x: nat)
    requires Sound(s) && x in s.tables
    ensures TableOk(s, x)
  {
  }

  lemma EntryAt(s: Space, x: nat, j: nat)
    requires Sound(s) && x in s.tables && j < ENTRIES
    ensures EntryOk(s, x, j)
  {
  }

  lemma OldTableOk(s: Space, t: Space, x: nat)
    requires x in s.tables && TableOk(s, x) && x in t.tables && t.tables[x] == s.tables[x]
    requires x < |t.mem| && x in t.used && t.boot == s.boot && IsRoot(t, s.tables[x].root)
    requires var p := s.tables[x]; p.path != [] ==>
      && p.parent in t.tables && t.tables[p.parent] == s.tables[p.parent]
      && p.parent < |t.mem| && t.mem[p.parent][p.path[|p.path| - 1]] == s.mem[p.parent][p.path[|p.path| - 1]]
    ensures TableOk(t, x)
  {
  }

  lemma WithTableTable(s: Space, f: nat, i: nat, g: nat, flags: nat, x: nat)
    requires CanAddTable(s, f, i, g) && flags < 0x1000 && f != g && g !in s.tables
    requires x in WithTable(s, f, i, g, flags).tables
    ensures TableOk(WithTable(s, f, i, g, flags), x)
  {
    hide Sound;
    FreshFrame(s, f, i, g);
    TablesInUse(s);
    var t := WithTable(s, f, i, g, flags);
    TableAt(s, f);
    if x == g {
      NewTableOk(s, f, i, g, flags);
    } else {
      TableAt(s, x);
      OldTableOk(s, t, x);
    }
  }

  lemma NewTableOk(s: Space, f: nat, i: nat, g: nat, flags: nat)
    requires f in s.tables && TableOk(s, f) && f != g && 0 < g < |s.mem| && flags < 0x1000 && i < ENTRIES
    requires |s.tables[f].path| < 3 && g !in s.tables && g !in s.boot
    ensures TableOk(WithTable(s, f, i, g, flags), g)
  {
    var p := s.tables[f].path + [i];
    assert p[..|p| - 1] == s.tables[f].path && p[|p| - 1] == i;
  }

  lemma OldEntryOk(s: Space, t: Space, x: nat, j: nat)
    requires x in s.tables && j < ENTRIES && EntryOk(s, x, j) && x in t.tables && t.tables[x] == s.tables[x]
    requires x < |t.mem| && t.mem[x][j] == s.mem[x][j] && t.boot == s.boot
    requires Present(s.mem[x][j]) && !SharedSlot(s.tables[x], j) ==>
      var g := Target(s.mem[x][j]);
      && (|s.tables[x].path| < 3 ==> g in t.tables && t.tables[g] == s.tables[g])
      && (|s.tables[x].path| >= 3 ==> g in t.used && (g !in s.tables ==> g !in t.tables))
      && (|s.tables[x].path| >= 3 ==> forall f2, i2 :: LeafAt(t, f2, i2, g) ==> LeafAt(s, f2, i2, g))
    ensures EntryOk(t, x, j)
  {
  }

  lemma WithTableEntry(s: Space, f: nat, i: nat, g: nat, flags: nat, x: nat, j: nat)
    requires CanAddTable(s, f, i, g) && flags < 0x1000 && f != g && g !in s.tables
    requires x in WithTable(s, f, i, g, flags).tables && j < ENTRIES
    ensures EntryOk(WithTable(s, f, i, g, flags), x, j)
  {
    hide Sound;
    FreshFrame(s, f, i, g);
    TablesInUse(s);
    var t := WithTable(s, f, i, g, flags);
    EntryAt(s, f, i);
    if x != g && !(x == f && j == i) {
      EntryAt(s, x, j);
      OldEntryOk(s, t, x, j);
    }
  }

  lemma WithTableSound(s: Space, f: nat, i: nat, g: nat, flags: nat)
    requires CanAddTable(s, f, i, g) && flags < 0x1000
    ensures f != g && Sound(WithTable(s, f, i, g, flags))
  {
    hide TableOk, EntryOk;
    FreshFrame(s, f, i, g);
    var t := WithTable(s, f, i, g, flags);
    forall x | x in t.tables ensures TableOk(t, x) {
      WithTableTable(s, f, i, g, flags, x);
    }
    forall x, j: nat | x in t.tables && j < ENTRIES ensures EntryOk(t, x, j) {
      WithTableEntry(s, f, i, g, flags, x, j);
    }
    forall y | y in t.used && y !in t.boot && y !in t.tables ensures exists x, j :: LeafAt(t, x, j, y) {
      var x, j :| LeafAt(s, x, j, y);
      assert LeafAt(t, x, j, y);
    }
  }

  /** An empty table answers no walk that goes on, and no other walk notices it. */
  lemma {:induction false} WithTableWalks(s: Space, f: nat, i: nat, g: nat, flags: nat, x: nat, path: seq<nat>)
    requires CanAddTable(s, f, i, g) && flags < 0x1000 && f != g
    requires x in s.tables && |s.tables[x].path| + |path| == 4
    ensures Resolve(WithTable(s, f, i, g, flags).mem, x, path) == Resolve(s.mem, x, path)
    decreases |path|
  {
    hide Sound;
    FreshFrame(s, f, i, g);
    var t := WithTable(s, f, i, g, flags);
    ChildStep(s, x, 0);
    if path[0] < ENTRIES {
      ChildStep(s, x, path[0]);
      if x == f && path[0] == i {
        assert path[1..] != [];
      } else if Present(s.mem[x][path[0]]) && |path| > 1 {
        WithTableWalks(s, f, i, g, flags, Target(s.mem[x][path[0]]), path[1..]);
      } else {
        assert |path| == 1 ==> path[1..] == [];
      }
    }
  }

  // ----- a page mapped -----

  /** Entry i of the last-level table f maps frame g. */
  function WithLeaf(s: Space, f: nat, i: nat, g: nat, flags: nat): Space
    requires f < |s.mem| && i < ENTRIES && flags < 0x1000
  {
    s.(mem := s.mem[f := s.mem[f][i := MakeEntry(g, flags)]], used := s.used + {g})
  }

  ghost predicate CanAddLeaf(s: Space, f: nat, i: nat, g: nat) {
    && Sound(s) && f in s.tables && f < |s.mem| && |s.tables[f].path| == 3 && i < ENTRIES && !Present(s.mem[f][i])
    && 0 < g < |s.mem| && g !in s.used
  }

  lemma WithLeafEntry(s: Space, f: nat, i: nat, g: nat, flags: nat, x: nat, j: nat)
    requires CanAddLeaf(s, f, i, g) && flags < 0x1000 && x in s.tables && j < ENTRIES
    ensures EntryOk(WithLeaf(s, f, i, g, flags), x, j)
  {
    hide Sound;
    var t := WithLeaf(s, f, i, g, flags);
    NotYetMapped(s, g);
    TablesInUse(s);
    EntryAt(s, x, j);
    if x == f && j == i {
      forall f2, i2 | LeafAt(t, f2, i2, g) ensures f2 == f && i2 == i {
        assert !(f2 == f && i2 == i) ==> LeafAt(s, f2, i2, g);
      }
    } else {
      OldEntryOk(s, t, x, j);
    }
  }

  /** No table maps a frame that is not in use. */
  lemma NotYetMapped(s: Space, g: nat)
    requires Sound(s) && g !in s.used
    ensures g !in s.boot && g !in s.tables && forall f, i :: !LeafAt(s, f, i, g)
  {
    TablesInUse(s);
    forall f, i ensures !LeafAt(s, f, i, g) {
      if LeafAt(s, f, i, g) { LeafUsed(s, f, i, g); }
    }
  }

  lemma LeafUsed(s: Space, f: nat, i: nat, g: nat)
    requires Sound(s) && LeafAt(s, f, i, g)
    ensures g in s.used && (s.tables[f].root != KERNEL ==> g !in s.boot)
    ensures g !in s.boot ==> g !in s.tables && forall f2, i2 :: LeafAt(s, f2, i2, g) ==> f2 == f && i2 == i
  {
    hide Sound;
    EntryAt(s, f, i);
  }

  lemma WithLeafSound(s: Space, f: nat, i: nat, g: nat, flags: nat)
    requires CanAddLeaf(s, f, i, g) && flags < 0x1000
    ensures Sound(WithLeaf(s, f, i, g, flags))
  {
    hide TableOk, EntryOk;
    TablesInUse(s);
    var t := WithLeaf(s, f, i, g, flags);
    forall x | x in t.tables ensures TableOk(t, x) {
      LeafTableOk(s, t, f, x);
    }
    forall x, j: nat | x in t.tables && j < ENTRIES ensures EntryOk(t, x, j) {
      WithLeafEntry(s, f, i, g, flags, x, j);
    }
    forall y | y in t.used && y !in t.boot && y !in t.tables ensures exists x, j :: LeafAt(t, x, j, y) {
      if y == g {
        assert LeafAt(t, f, i, g);
      } else {
        var x, j :| LeafAt(s, x, j, y);
        assert LeafAt(t, x, j, y);
      }
    }
  }

  /** Tables do not depend on the entries of a last-level one. */
  lemma LeafTableOk(s: Space, t: Space, f: nat, x: nat)
    requires Sound(s) && f in s.tables && |s.tables[f].path| == 3 && x in s.tables
    requires t == s.(mem := t.mem, used := t.used) && |t.mem| == |s.mem|
    requires forall y :: 0 <= y < |s.mem| && y != f ==> t.mem[y] == s.mem[y]
    requires forall y :: y in s.tables ==> y in t.used
    ensures TableOk(t, x)
  {
    hide Sound;
    TableAt(s, x);
    TablesInUse(s);
    OldTableOk(s, t, x);
  }

  // ----- a page unmapped -----

  function WithoutLeaf(s: Space, f: nat, i: nat): Space
    requires f < |s.mem| && i < ENTRIES
  {
    s.(mem := s.mem[f := s.mem[f][i := 0]], used := s.used - {Target(s.mem[f][i])})
  }

  ghost predicate CanCutLeaf(s: Space, f: nat, i: nat) {
    && Sound(s) && f in s.tables && f < |s.mem| && |s.tables[f].path| == 3 && i < ENTRIES && Present(s.mem[f][i])
    && Target(s.mem[f][i]) !in s.boot
  }

  lemma WithoutLeafEntry(s: Space, f: nat, i: nat, x: nat, j: nat)
    requires CanCutLeaf(s, f, i) && x in s.tables && j < ENTRIES
    ensures EntryOk(WithoutLeaf(s, f, i), x, j)
  {
    hide Sound;
    var t := WithoutLeaf(s, f, i);
    var g := Target(s.mem[f][i]);
    assert LeafAt(s, f, i, g);
    LeafUsed(s, f, i, g);
    TablesInUse(s);
    EntryAt(s, x, j);
    if !(x == f && j == i) {
      if |s.tables[x].path| == 3 && Present(s.mem[x][j]) {
        assert LeafAt(s, x, j, Target(s.mem[x][j]));
      }
      OldEntryOk(s, t, x, j);
    }
  }

  lemma WithoutLeafSound(s: Space, f: nat, i: nat)
    requires CanCutLeaf(s, f, i)
    ensures Sound(WithoutLeaf(s, f, i))
  {
    hide TableOk, EntryOk;
    var t := WithoutLeaf(s, f, i);
    var g := Target(s.mem[f][i]);
    assert LeafAt(s, f, i, g);
    LeafUsed(s, f, i, g);
    TablesInUse(s);
    forall x | x in t.tables ensures TableOk(t, x) {
      LeafTableOk(s, t, f, x);
    }
    forall x, j: nat | x in t.tables && j < ENTRIES ensures EntryOk(t, x, j) {
      WithoutLeafEntry(s, f, i, x, j);
    }
    forall y | y in t.used && y !in t.boot && y !in t.tables ensures exists x, j :: LeafAt(t, x, j, y) {
      var x, j :| LeafAt(s, x, j, y);
      assert LeafAt(t, x, j, y);
    }
  }

  // ----- translations around a leaf -----

  /** The address spaces in which `path` goes through the table that address space r uses for it. */
  predicate SameSlot(path: seq<nat>, r: nat, r2: nat) { r == r2 || Low(path) }

  lemma {:induction false} ResolveAppend(mem: seq<Frame>, x: nat, a: seq<nat>, b: seq<nat>)
    ensures Resolve(mem, x, a + b) == match Resolve(mem, x, a) case None => None case Some(y) => Resolve(mem, y, b)
    decreases |a|
  {
    if a == [] {
      assert a + b == b;
    } else {
      assert (a + b)[1..] == a[1..] + b;
      if x < |mem| && a[0] < ENTRIES && Present(mem[x][a[0]]) {
        ResolveAppend(mem, Target(mem[x][a[0]]), a[1..], b);
      }
    }
  }

  /** Following a path through tables ends at a table of that path, in the same space or in the shared part. */
  lemma {:induction false} ResolvePlace(s: Space, x: nat, path: seq<nat>)
    requires Sound(s) && x in s.tables && |s.tables[x].path| + |path| <= 3
    ensures match Resolve(s.mem, x, path)
      case None => true
      case Some(y) =>
        && y in s.tables && s.tables[y].path == s.tables[x].path + path
        && (s.tables[y].root == s.tables[x].root || (s.tables[y].root == KERNEL && Low(s.tables[y].path)))
    decreases |path|
  {
    hide Sound;
    if path == [] {
      assert s.tables[x].path + path == s.tables[x].path;
    } else if path[0] < ENTRIES {
      ChildStep(s, x, path[0]);
      if Present(s.mem[x][path[0]]) {
        var y := Target(s.mem[x][path[0]]);
        ResolvePlace(s, y, path[1..]);
        assert s.tables[x].path + path == s.tables[y].path + path[1..];
      }
    }
  }

  /** How translations change when entry i of the table f reached by path[..3] in space r takes another value. */
  lemma LeafWalks(s: Space, t: Space, r: nat, path: seq<nat>, f: nat, i: nat, r2: nat, path2: seq<nat>)
    requires Sound(s) && Sound(t) && IsRoot(s, r) && IsRoot(s, r2) && t.tables == s.tables
    requires |path| == 4 == |path2| && Resolve(s.mem, r, path[..3]) == Some(f) && path[3] == i < ENTRIES
    requires f < |s.mem| == |t.mem| && forall y :: 0 <= y < |s.mem| && y != f ==> t.mem[y] == s.mem[y]
    requires forall j :: 0 <= j < ENTRIES && j != i ==> t.mem[f][j] == s.mem[f][j]
    ensures Resolve(t.mem, r2, path2) ==
            if path2 == path && SameSlot(path, r, r2) then
              (if Present(t.mem[f][i]) then Some(Target(t.mem[f][i])) else None)
            else Resolve(s.mem, r2, path2)
  {
    hide Sound;
    RootPlace(s, r);
    RootPlace(s, r2);
    ResolvePlace(s, r, path[..3]);
    assert [] + path[..3] == path[..3];
    assert path[..3] + [i] == path && path[3..] == [i];
    if path2 == path && SameSlot(path, r, r2) {
      RootPlace(t, r);
      RootPlace(t, r2);
      if Low(path) {
        LowIsShared(t, r, path);
        LowIsShared(t, r2, path);
      }
      assert s.tables[r].path + path[..3] == path[..3];
      WalkFrame(s, t.mem, f, i, r, path[..3]);
      ResolveAppend(t.mem, r, path[..3], [i]);
      assert [i][1..] == [];
    } else {
      assert s.tables[r2].path + path2 == path2;
      NotThrough(s, r, path, f, i, r2, path2);
      WalkFrame(s, t.mem, f, i, r2, path2);
    }
  }

  lemma RootPlace(s: Space, r: nat)
    requires Sound(s) && IsRoot(s, r)
    ensures r in s.tables && s.tables[r].root == r && s.tables[r].path == []
  {
    hide Sound;
    TableAt(s, r);
  }

  lemma NotThrough(s: Space, r: nat, path: seq<nat>, f: nat, i: nat, r2: nat, path2: seq<nat>)
    requires |path| == 4 == |path2| && f in s.tables && r2 in s.tables
    requires s.tables[r2].root == r2 && s.tables[r2].path == [] && s.tables[r2].path + path2 == path2
    requires s.tables[f].path == path[..3] && path[..3] + [i] == path
    requires s.tables[f].root == r || (s.tables[f].root == KERNEL && Low(s.tables[f].path))
    requires !(path2 == path && SameSlot(path, r, r2))
    ensures !Through(s.tables[r2], path2, s.tables[f], i)
  {
    assert path <= path2 ==> path2 == path;
    assert Low(path[..3]) ==> Low(path);
  }
}
