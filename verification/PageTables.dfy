/** Four-level page tables in physical memory: what a table means, the invariant of all address spaces together,
    and the edits the pager makes. */
module PageTables {

  const ENTRIES: nat := 512
  const KERNEL: nat := 1
  const PDPT0: nat := 2
  const PD0: nat := 3
  const PT0: nat := 4

  type Frame = f: seq<nat> | |f| == ENTRIES witness seq(ENTRIES, _ => 0)

  function Blank(): Frame { seq(ENTRIES, _ => 0) }

  predicate Present(e: nat) { e % 2 == 1 }

  /** The page frame an entry points at. */
  function Target(e: nat): nat { e / 0x1000 }

  /** An entry for a frame: present and writable whatever the flags. */
  function MakeEntry(frame: nat, flags: nat): (e: nat)
    requires flags < 0x1000
    ensures Present(e) && Target(e) == frame
  {
    frame * 0x1000 + (flags - flags % 4 + 3)
  }

  /** Where a table sits: the address space it was made for, the indices leading to it, and the table above it. */
  datatype Place = Place(root: nat, path: seq<nat>, parent: nat)

  /** Physical memory, the pages in use, the frames that hold tables, the frames in use since boot. */
  datatype Space = Space(mem: seq<Frame>, used: set<nat>, tables: map<nat, Place>, boot: set<nat>)

  ghost predicate IsRoot(s: Space, r: nat) { r in s.tables && s.tables[r].path == [] }

  /** Entry i of a last-level table maps frame g. */
  ghost predicate LeafAt(s: Space, f: nat, i: nat, g: nat) {
    && f in s.tables && |s.tables[f].path| == 3 && f < |s.mem| && i < ENTRIES
    && Present(s.mem[f][i]) && Target(s.mem[f][i]) == g
  }

  ghost predicate TableOk(s: Space, f: nat)
    requires f in s.tables
  {
    var p := s.tables[f];
    && 0 < f < |s.mem| && f in s.used && |p.path| <= 3
    && IsRoot(s, p.root) && (p.root != KERNEL ==> f !in s.boot)
    && if p.path == [] then p.root == f
       else
         && p.parent in s.tables && p.parent < |s.mem|
         && s.tables[p.parent].root == p.root && s.tables[p.parent].path == p.path[..|p.path| - 1]
         && var i := p.path[|p.path| - 1];
         i < ENTRIES && Present(s.mem[p.parent][i]) && Target(s.mem[p.parent][i]) == f
  }

  /** The one entry through which an address space uses another's table: page directory 0, the kernel's. */
  predicate SharedSlot(p: Place, i: nat) { p.root != KERNEL && p.path == [0] && i == 0 }

  ghost predicate EntryOk(s: Space, f: nat, i: nat)
    requires f in s.tables && i < ENTRIES
  {
    f < |s.mem| &&
    var p, e := s.tables[f], s.mem[f][i];
    if SharedSlot(p, i) then Present(e) && Target(e) == PD0
    else if !Present(e) then p.root != KERNEL ==> p.path != [] || i != 0
    else if |p.path| < 3 then Target(e) in s.tables && s.tables[Target(e)] == Place(p.root, p.path + [i], f)
    else
      && Target(e) in s.used
      && (p.root != KERNEL ==> Target(e) !in s.boot)
      && (Target(e) !in s.boot ==> Target(e) !in s.tables && forall f2, i2 :: LeafAt(s, f2, i2, Target(e)) ==>
          f2 == f && i2 == i)
  }

  /** Every page in use is accounted for. */
  ghost predicate NoLeak(s: Space) {
    forall g :: g in s.used ==> g in s.boot || g in s.tables || exists f, i :: LeafAt(s, f, i, g)
  }

  /** The invariant of all address spaces together. */
  ghost predicate Sound(s: Space) {
    && PD0 in s.tables && s.tables[PD0] == Place(KERNEL, [0, 0], PDPT0)
    && PDPT0 in s.tables && s.tables[PDPT0] == Place(KERNEL, [0], KERNEL)
    && PT0 in s.tables && s.tables[PT0] == Place(KERNEL, [0, 0, 0], PD0)
    && 0 in s.boot && s.boot <= s.used
    && (forall f :: f in s.tables ==> TableOk(s, f))
    && (forall f, i: nat :: f in s.tables && i < ENTRIES ==> EntryOk(s, f, i))
    && NoLeak(s)
  }

  // ----- translation -----

  datatype Option<T> = None | Some(value: T)

  /** The frame reached from table f through the given indices. */
  function Resolve(mem: seq<Frame>, f: nat, path: seq<nat>): Option<nat>
    decreases |path|
  {
    if path == [] then Some(f)
    else if f >= |mem| || path[0] >= ENTRIES || !Present(mem[f][path[0]]) then None
    else Resolve(mem, Target(mem[f][path[0]]), path[1..])
  }

  /** The four table indices of a virtual address. */
  function PathOf(v: nat): (p: seq<nat>)
    ensures |p| == 4 && forall k :: 0 <= k < 4 ==> p[k] < ENTRIES
  {
    [v / 0x80_0000_0000 % 512, v / 0x4000_0000 % 512, v / 0x20_0000 % 512, v / 0x1000 % 512]
  }

  function Translate(s: Space, root: nat, v: nat): Option<nat> {
    Resolve(s.mem, root, PathOf(v))
  }

  /** Addresses below USER_OFFSET, which every address space takes from the kernel. */
  predicate Low(path: seq<nat>) { [0, 0] <= path }

  /** A table at this place is used by address space r. */
  predicate SeenBy(p: Place, r: nat) { p.root == r || (p.root == KERNEL && Low(p.path)) }

  /** One step of a walk stays among the tables and lengthens the path. */
  lemma ChildStep(s: Space, x: nat, j: nat)
    requires Sound(s) && x in s.tables && j < ENTRIES
    ensures x < |s.mem| && |s.tables[x].path| <= 3
    ensures |s.tables[x].path| < 3 && Present(s.mem[x][j]) ==>
      var p, y := s.tables[x], Target(s.mem[x][j]);
      && y in s.tables && s.tables[y].path == p.path + [j]
      && (s.tables[y].root == p.root || (p.root != KERNEL && s.tables[y].root == KERNEL && s.tables[y].path == [0, 0]))
  {
    assert TableOk(s, x) && EntryOk(s, x, j);
  }

  /** A walk by `path` from a table at p comes through entry i of a table at q. */
  predicate Through(p: Place, path: seq<nat>, q: Place, i: nat) {
    SeenBy(q, p.root) && p.path <= q.path && q.path + [i] <= p.path + path
  }

  /** Changing entry i of table f, and frames that are no tables, leaves alone every walk not through the entry. */
  lemma {:induction false} WalkFrame(s: Space, mem2: seq<Frame>, f: nat, i: nat, x: nat, path: seq<nat>)
    requires Sound(s) && |mem2| == |s.mem| && f in s.tables
    requires forall y, j: nat :: y in s.tables && y < |mem2| && j < ENTRIES && !(y == f && j == i) ==>
        mem2[y][j] == s.mem[y][j]
    requires x in s.tables && |s.tables[x].path| + |path| <= 4 && !Through(s.tables[x], path, s.tables[f], i)
    ensures Resolve(mem2, x, path) == Resolve(s.mem, x, path)
    decreases |path|
  {
    hide Sound;
    if path != [] && path[0] < ENTRIES {
      var p := s.tables[x];
      ChildStep(s, x, path[0]);
      assert p.path + path == (p.path + [path[0]]) + path[1..];
      assert !(x == f && path[0] == i);
      if Present(s.mem[x][path[0]]) {
        if |path| > 1 {
          var y := Target(s.mem[x][path[0]]);
          assert s.tables[y].path + path[1..] == p.path + path;
          WalkFrame(s, mem2, f, i, y, path[1..]);
        } else {
          assert path[1..] == [];
        }
      }
    }
  }
}
