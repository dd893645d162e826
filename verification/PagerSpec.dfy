/** What each call of the pager does to all address spaces at once. */
module PagerSpec {
  import opened PageTables
  import opened PageEdits
  import opened PageSpaces

  const FREE_PAGES_START: nat := 0x10_0000
  const USER_OFFSET: nat := 0x4000_0000
  const NULL: nat := 0

  datatype Outcome = Done(v: nat) | Halted

  /** The pages `getFreePhysPage` looks at. */
  function Searched(pages: nat): nat { 8 * (pages / 8) }

  ghost predicate NoneFree(s: Space) { forall p: nat :: p < Searched(|s.mem|) ==> p in s.used }

  /** g is the page `getFreePhysPage` finds. */
  ghost predicate IsFirstFree(s: Space, g: nat) {
    g < Searched(|s.mem|) && g !in s.used && forall p: nat :: p < g ==> p in s.used
  }

  /** The space whose tables answer for a path in space r: its own or, for the part all share, the kernel. */
  function Home(r: nat, low: bool): nat { if low then KERNEL else r }

  /** From s to t tables were added, for space r or, when low, for the part all share; no translation changed. */
  ghost predicate Builds(s: Space, t: Space, r: nat, low: bool) {
    && Sound(t) && t.boot == s.boot && |t.mem| == |s.mem| && s.used <= t.used
    && (forall x :: x in s.tables ==> x in t.tables && t.tables[x] == s.tables[x])
    && (forall x :: x in t.tables && x !in s.tables ==> t.tables[x].path != [] && t.tables[x].root == Home(r, low))
    && (forall x :: x in s.tables && x < |s.mem| && s.tables[x].root != Home(r, low) ==> t.mem[x] == s.mem[x])
    && (forall r2, path :: IsRoot(s, r2) && |path| == 4 ==> Resolve(t.mem, r2, path) == Resolve(s.mem, r2, path))
    && (forall r2, path :: IsRoot(s, r2) && |path| <= 3 && Resolve(s.mem, r2, path).Some? ==>
          Resolve(t.mem, r2, path) == Resolve(s.mem, r2, path))
  }

  lemma BuildsNothing(s: Space, r: nat, low: bool)
    requires Sound(s)
    ensures Builds(s, s, r, low)
  {
  }

  lemma BuildsTwice(s: Space, t: Space, u: Space, r: nat, low: bool)
    requires Builds(s, t, r, low) && Builds(t, u, r, low)
    ensures Builds(s, u, r, low)
  {
    hide Sound;
    forall x | x in s.tables && x < |s.mem| && s.tables[x].root != Home(r, low) ensures u.mem[x] == s.mem[x] {
      assert x in t.tables && t.tables[x] == s.tables[x];
    }
    forall r2, path | IsRoot(s, r2) && |path| == 4 ensures Resolve(u.mem, r2, path) == Resolve(s.mem, r2, path) {
      assert IsRoot(t, r2);
    }
    forall r2, path | IsRoot(s, r2) && |path| <= 3 && Resolve(s.mem, r2, path).Some?
      ensures Resolve(u.mem, r2, path) == Resolve(s.mem, r2, path)
    {
      assert IsRoot(t, r2) && Resolve(t.mem, r2, path).Some?;
    }
  }

  lemma BuildsTable(s: Space, f: nat, i: nat, g: nat, flags: nat, r: nat, low: bool)
    requires CanAddTable(s, f, i, g) && flags < 0x1000 && s.tables[f].root == Home(r, low)
    ensures f != g && g !in s.tables && Builds(s, WithTable(s, f, i, g, flags), r, low)
  {
    hide Sound;
    FreshFrame(s, f, i, g);
    WithTableSound(s, f, i, g, flags);
    var t := WithTable(s, f, i, g, flags);
    forall r2, path | IsRoot(s, r2) && |path| == 4 ensures Resolve(t.mem, r2, path) == Resolve(s.mem, r2, path) {
      RootPlace(s, r2);
      WithTableWalks(s, f, i, g, flags, r2, path);
    }
    forall r2, path | IsRoot(s, r2) && |path| <= 3 && Resolve(s.mem, r2, path).Some?
      ensures Resolve(t.mem, r2, path) == Resolve(s.mem, r2, path)
    {
      RootPlace(s, r2);
      WithTableArrivals(s, f, i, g, flags, r2, path);
    }
  }

  /** A walk that arrives does not come through a missing entry. */
  lemma {:induction false} WithTableArrivals(s: Space, f: nat, i: nat, g: nat, flags: nat, x: nat, path: seq<nat>)
    requires CanAddTable(s, f, i, g) && flags < 0x1000 && f != g
    requires x in s.tables && |s.tables[x].path| + |path| <= 3 && Resolve(s.mem, x, path).Some?
    ensures Resolve(WithTable(s, f, i, g, flags).mem, x, path) == Resolve(s.mem, x, path)
    decreases |path|
  {
    hide Sound;
    FreshFrame(s, f, i, g);
    if path == [] {
    } else {
      ChildStep(s, x, path[0]);
      WithTableArrivals(s, f, i, g, flags, Target(s.mem[x][path[0]]), path[1..]);
    }
  }

  /** Mapping an address in space r: either exactly that address, in every space that shares its slot, comes to
      translate to a frame that was free, or no translation changes. */
  ghost predicate MapStep(s: Space, r: nat, v: nat, o: Outcome, t: Space) {
    var path := PathOf(v);
    match o
    case Halted => Builds(s, t, r, Low(path)) && Resolve(s.mem, r, path) == None
    case Done(p) =>
      if p == NULL then
        && Builds(s, t, r, Low(path))
        && if Resolve(s.mem, r, path).Some? then t == s else NoneFree(t)
      else
        && p == v && Resolve(s.mem, r, path) == None
        && exists u, f, g, flags :: Mapped(s, r, path, u, f, g, flags, t)
  }

  /** u is s with the tables the path needs, f the last of them; t maps g there. */
  ghost predicate Mapped(s: Space, r: nat, path: seq<nat>, u: Space, f: nat, g: nat, flags: nat, t: Space) {
    && Builds(s, u, r, Low(path)) && |path| == 4 && Resolve(u.mem, r, path[..3]) == Some(f)
    && flags < 0x1000 && CanAddLeaf(u, f, path[3], g) && IsFirstFree(u, g) && t == WithLeaf(u, f, path[3], g, flags)
  }

  // ----- boot -----

  const LOW_PAGES: nat := FREE_PAGES_START / 0x1000

  /** Pages that hold the page bitmap. */
  function BitmapPages(pages: nat): nat {
    var bytes := pages / 8 + if pages % 8 != 0 then 1 else 0;
    bytes / 0x1000 + if bytes % 0x1000 != 0 then 1 else 0
  }

  /** The frame that holds the bit of page p. */
  function BitFrame(p: nat): nat { LOW_PAGES + p / 8 / 0x1000 }

  /** The frame with the bit of page p is in use and mapped to itself. */
  ghost predicate BitInPlace(mem: seq<Frame>, inUse: set<nat>, p: nat) {
    && PT0 < |mem| && BitFrame(p) < ENTRIES && BitFrame(p) in inUse
    && mem[PT0][BitFrame(p)] == BitFrame(p) * 0x1000 + 3
  }

  /** From m to m2 exactly the frames with the map's bits were entered in table 0; `boot` is all up to the last of
      them. */
  ghost predicate BitmapReady(m: seq<Frame>, m2: seq<Frame>, boot: set<nat>) {
    && |m2| == |m| > PT0
    && (forall p: nat :: p < |m| ==> BitInPlace(m2, boot, p))
    && (forall b: nat :: b in boot <==> b <= BitFrame(|m| - 1))
    && (forall f :: 0 <= f < |m| && f != PT0 ==> m2[f] == m[f])
    && forall j :: 0 <= j < ENTRIES && !(LOW_PAGES <= j <= BitFrame(|m| - 1)) ==> m2[PT0][j] == m[PT0][j]
  }

  /** The tables the boot code leaves: one of each level, and last-level entries for low pages only. */
  ghost predicate BootTables(mem: seq<Frame>) {
    && |mem| > LOW_PAGES
    && mem[KERNEL] == Blank()[0 := MakeEntry(PDPT0, 0)]
    && mem[PDPT0] == Blank()[0 := MakeEntry(PD0, 0)]
    && mem[PD0] == Blank()[0 := MakeEntry(PT0, 0)]
    && forall i :: 0 <= i < ENTRIES && Present(mem[PT0][i]) ==> Target(mem[PT0][i]) < LOW_PAGES
  }

  function BootPlaces(): map<nat, Place> {
    map[KERNEL := Place(KERNEL, [], 0), PDPT0 := Place(KERNEL, [0], KERNEL),
        PD0 := Place(KERNEL, [0, 0], PDPT0), PT0 := Place(KERNEL, [0, 0, 0], PD0)]
  }

  /** The pages from a up to b. */
  function Between(a: nat, b: nat): (r: set<nat>)
    ensures forall p: nat :: p in r <==> a <= p < b
  {
    if b <= a then {} else Between(a, b - 1) + {b - 1}
  }

  /** The state the pager starts in: all up to page n in use, the bitmap's own pages mapped in place. */
  ghost predicate Booted(s: Space, n: nat) {
    && LOW_PAGES <= n < |s.mem| && s.used == s.boot == Between(0, n) && s.tables == BootPlaces()
    && s.mem[KERNEL] == Blank()[0 := MakeEntry(PDPT0, 0)]
    && s.mem[PDPT0] == Blank()[0 := MakeEntry(PD0, 0)]
    && s.mem[PD0] == Blank()[0 := MakeEntry(PT0, 0)]
    && forall i :: 0 <= i < ENTRIES && Present(s.mem[PT0][i]) ==> Target(s.mem[PT0][i]) < n
  }

  /** m2 is m with n entries of table 0 mapping the pages above the low ones to themselves. */
  ghost predicate BitmapMapped(m: seq<Frame>, m2: seq<Frame>, n: nat) {
    && |m2| == |m| > PT0 && LOW_PAGES + n <= ENTRIES
    && (forall f :: 0 <= f < |m| && f != PT0 ==> m2[f] == m[f])
    && forall j :: 0 <= j < ENTRIES ==>
         m2[PT0][j] == if LOW_PAGES <= j < LOW_PAGES + n then MakeEntry(j, 0) else m[PT0][j]
  }

  lemma BootedIs(m: seq<Frame>, s: Space, n: nat)
    requires BootTables(m) && BitmapMapped(m, s.mem, n) && LOW_PAGES + n < |m| && s.tables == BootPlaces()
    requires s.used == Between(LOW_PAGES, LOW_PAGES + n) + Between(0, LOW_PAGES) && s.boot == Between(0, LOW_PAGES + n)
    ensures Booted(s, LOW_PAGES + n)
  {
    hide Between;
    assert s.used == s.boot;
  }

  lemma BootTableOk(s: Space, n: nat, f: nat)
    requires Booted(s, n) && f in s.tables
    ensures TableOk(s, f)
  {
    assert IsRoot(s, KERNEL);
    assert [0][..0] == [] && [0, 0][..1] == [0] && [0, 0, 0][..2] == [0, 0];
  }

  lemma BootEntryOk(s: Space, n: nat, f: nat, i: nat)
    requires Booted(s, n) && f in s.tables && i < ENTRIES
    ensures EntryOk(s, f, i)
  {
    assert [] + [0] == [0] && [0] + [0] == [0, 0] && [0, 0] + [0] == [0, 0, 0];
  }

  lemma InitSound(s: Space, n: nat)
    requires Booted(s, n)
    ensures Sound(s)
  {
    hide TableOk, EntryOk;
    forall f | f in s.tables ensures TableOk(s, f) {
      BootTableOk(s, n, f);
    }
    forall f, i: nat | f in s.tables && i < ENTRIES ensures EntryOk(s, f, i) {
      BootEntryOk(s, n, f, i);
    }
  }

  // ----- following a path down -----

  /** The walk from r along the first k indices of the path arrives at table x. */
  ghost predicate Reached(s: Space, r: nat, path: seq<nat>, k: nat, x: nat) {
    k <= |path| && Resolve(s.mem, r, path[..k]) == Some(x)
  }

  ghost predicate Indices(path: seq<nat>) { |path| == 4 && forall k :: 0 <= k < 4 ==> path[k] < ENTRIES }

  lemma ReachRoot(s: Space, r: nat, path: seq<nat>)
    ensures Reached(s, r, path, 0, r)
  {
    assert path[..0] == [];
  }

  lemma ReachFacts(s: Space, r: nat, path: seq<nat>, k: nat, x: nat)
    requires Sound(s) && IsRoot(s, r) && Indices(path) && k <= 3 && Reached(s, r, path, k, x)
    ensures x in s.tables && 0 < x < |s.mem| && s.tables[x].path == path[..k] && |s.tables[x].path| == k
    ensures s.tables[x].root == r || Low(path)
  {
    hide Sound, NoLeak;
    TablesInUse(s);
    RootPlace(s, r);
    ResolvePlace(s, r, path[..k]);
    assert [] + path[..k] == path[..k];
    assert Low(path[..k]) ==> Low(path);
  }

  /** A table at a low place is the kernel's. */
  lemma {:induction false} LowIsKernels(s: Space, x: nat)
    requires Sound(s) && x in s.tables && Low(s.tables[x].path)
    ensures s.tables[x].root == KERNEL
    decreases |s.tables[x].path|
  {
    hide NoLeak;
    assert TableOk(s, x);
    var p := s.tables[x];
    if |p.path| == 2 {
      assert EntryOk(s, p.parent, 0);
    } else {
      assert TableOk(s, p.parent);
      LowIsKernels(s, p.parent);
    }
  }

  /** Where a walk needs a new table, it is in the space that answers for its path. */
  lemma HomeOrThere(s: Space, r: nat, path: seq<nat>, k: nat, x: nat)
    requires Sound(s) && IsRoot(s, r) && Indices(path) && k <= 3 && Reached(s, r, path, k, x)
    ensures x in s.tables && x < |s.mem|
    ensures s.tables[x].root == Home(r, Low(path)) || (k < 2 && Present(s.mem[x][path[k]]))
  {
    ReachFacts(s, r, path, k, x);
    var p := s.tables[x];
    if Low(path) && p.root != KERNEL {
      if k >= 2 {
        assert Low(path[..k]);
        LowIsKernels(s, x);
      } else {
        assert EntryOk(s, x, 0);
        assert path[..k] == [0, 0][..k];
      }
    }
  }

  lemma ReachStep(s: Space, r: nat, path: seq<nat>, k: nat, x: nat)
    requires Indices(path) && k <= 3 && Reached(s, r, path, k, x) && x < |s.mem|
    ensures Present(s.mem[x][path[k]]) ==> Reached(s, r, path, k + 1, Target(s.mem[x][path[k]]))
    ensures !Present(s.mem[x][path[k]]) ==> Resolve(s.mem, r, path) == None && Lacks(s, r, path, k + 1)
    ensures Present(s.mem[x][path[k]]) ==> !Lacks(s, r, path, k + 1)
  {
    assert path[..k] + [path[k]] == path[..k + 1];
    assert path[..k] + path[k..] == path;
    ResolveAppend(s.mem, r, path[..k], [path[k]]);
    ResolveAppend(s.mem, r, path[..k], path[k..]);
    assert [path[k]][1..] == [] && path[k..][0] == path[k];
  }

  lemma BuildsReached(s: Space, t: Space, r: nat, path: seq<nat>, k: nat, x: nat)
    requires Sound(s) && Builds(s, t, r, Low(path)) && IsRoot(s, r) && k <= 3 && Reached(s, r, path, k, x)
    ensures Reached(t, r, path, k, x) && IsRoot(t, r)
  {
    hide Sound, NoLeak;
  }

  // ----- mapPage, call by call -----

  ghost predicate LeafReached(w: Space, r: nat, path: seq<nat>, f: nat, v: nat, flags: nat, o: Outcome, t: Space) {
    Reached(w, r, path, 3, f) && LeafDone(w, path, f, v, flags, o, t)
  }

  /** The table under entry i of table f is there, or was built in the first free frame and entered with the flags. */
  ghost predicate Tabled(s: Space, f: nat, i: nat, flags: nat, u: Space) {
    f < |s.mem| && i < ENTRIES && if Present(s.mem[f][i]) then u == s else exists g :: BuiltIn(s, f, i, g, flags, u)
  }

  ghost predicate BuiltIn(s: Space, f: nat, i: nat, g: nat, flags: nat, u: Space) {
    IsFirstFree(s, g) && CanAddTable(s, f, i, g) && flags < 0x1000 && f != g && u == WithTable(s, f, i, g, flags)
  }

  /** The same for the table behind the first k + 1 indices of a path. */
  ghost predicate Laid(s: Space, r: nat, path: seq<nat>, k: nat, flags: nat, u: Space) {
    |path| == 4 && k < 4 && exists f :: Reached(s, r, path, k, f) && Tabled(s, f, path[k], flags, u)
  }

  /** No table is there behind the first k indices of a path. */
  ghost predicate Lacks(s: Space, r: nat, path: seq<nat>, k: nat) {
    k <= |path| && Resolve(s.mem, r, path[..k]) == None
  }

  /** The last-level entry f[path[3]]: kept when present, left when no frame is free, else the first free frame. */
  ghost predicate LeafDone(w: Space, path: seq<nat>, f: nat, v: nat, flags: nat, o: Outcome, t: Space) {
    && |path| == 4 && f < |w.mem| && path[3] < ENTRIES && flags < 0x1000
    && if Present(w.mem[f][path[3]]) || NoneFree(w) then o == Done(NULL) && t == w
       else o == Done(v) && exists g :: IsFirstFree(w, g) && t == WithLeaf(w, f, path[3], g, flags)
  }

  /** All that `mapPage` does at a given address. The top table is never built; a missing table and no free frame to
      build it in stop the kernel. */
  ghost predicate MapDone(s: Space, r: nat, v: nat, flags: nat, o: Outcome, t: Space) {
    var path := PathOf(v);
    if Lacks(s, r, path, 1) || (Lacks(s, r, path, 2) && NoneFree(s)) then o == Halted && t == s
    else exists u :: Laid(s, r, path, 1, flags, u) && MapBelow(u, r, v, flags, o, t)
  }

  /** The same once the page directory is there. */
  ghost predicate MapBelow(u: Space, r: nat, v: nat, flags: nat, o: Outcome, t: Space) {
    var path := PathOf(v);
    if Lacks(u, r, path, 3) && NoneFree(u) then o == Halted && t == u
    else exists w, f :: Laid(u, r, path, 2, flags, w) && LeafReached(w, r, path, f, v, flags, o, t)
  }

  lemma TabledMeans(s: Space, f: nat, i: nat, flags: nat, u: Space)
    requires Tabled(s, f, i, flags, u)
    ensures Present(s.mem[f][i]) || !NoneFree(s)
  {
  }

  // ----- unmapPage, createPageDir, destroyPageDir -----

  /** `unmapPage` works in the kernel's tables: exactly that entry goes, and exactly its frame is free. */
  ghost predicate UnmapStep(s: Space, v: nat, t: Space) {
    if Resolve(s.mem, KERNEL, PathOf(v)).None? then t == s
    else exists f: nat :: Reached(s, KERNEL, PathOf(v), 3, f) && f < |s.mem| && t == WithoutLeaf(s, f, PathOf(v)[3])
  }

  /** The address is not mapped to a page in use since boot. */
  ghost predicate UnmapSafe(s: Space, v: nat) {
    var g := Resolve(s.mem, KERNEL, PathOf(v));
    g.None? || g.value !in s.boot
  }

  /** `createPageDir`: the two first free pages become a space, or there are no two. */
  ghost predicate CreateStep(s: Space, r: nat, t: Space) {
    if r == NULL then t == s && (NoneFree(s) || exists g :: IsFirstFree(s, g) && NoneFree(s.(used := s.used + {g})))
    else exists p :: CreatedWith(s, r, p, t)
  }

  ghost predicate CreatedWith(s: Space, r: nat, p: nat, t: Space) {
    && CanAddSpace(s, r, p) && IsFirstFree(s, r) && IsFirstFree(s.(used := s.used + {r}), p)
    && t == WithSpace(s, r, p)
  }

  ghost predicate DestroyStep(s: Space, r: nat, t: Space) { t == WithoutSpace(s, r) }

  // ----- getUnmappedVAddr -----

  /** Virtual pages `getUnmappedVAddr` may return: all but those below FREE_PAGES_START. */
  ghost predicate Allowed(path: seq<nat>) { Indices(path) && ([0, 0, 0] <= path ==> path[3] >= LOW_PAGES) }

  /** In the kernel's space every allowed page under q whose next index is below n is mapped. */
  ghost predicate FilledBelow(s: Space, q: seq<nat>, n: nat) {
    forall path :: Allowed(path) && |q| < 4 && q <= path && path[|q|] < n ==> Resolve(s.mem, KERNEL, path).Some?
  }

  lemma FilledStays(s: Space, t: Space, q: seq<nat>, n: nat)
    requires Sound(s) && FilledBelow(s, q, n) && Builds(s, t, KERNEL, false)
    ensures FilledBelow(t, q, n)
  {
    hide Sound;
    KernelRoot(s);
  }

  /** All pages under q + [n] mapped: one more index of q is done. */
  lemma FilledMore(s: Space, q: seq<nat>, n: nat)
    requires |q| < 3 && FilledBelow(s, q, n) && FilledBelow(s, q + [n], ENTRIES)
    ensures FilledBelow(s, q, n + 1)
  {
    forall path | Allowed(path) && q <= path && path[|q|] < n + 1 ensures Resolve(s.mem, KERNEL, path).Some? {
      if path[|q|] == n {
        assert q + [n] <= path;
        assert path[|q| + 1] < ENTRIES;
      }
    }
  }

  lemma FilledNone(s: Space, q: seq<nat>)
    ensures FilledBelow(s, q, 0)
  {
  }

  /** Where the scan stands at table x: reached along q. */
  ghost predicate At(s: Space, q: seq<nat>, x: nat) {
    (forall k :: 0 <= k < |q| ==> q[k] < ENTRIES) && Resolve(s.mem, KERNEL, q) == Some(x)
  }

  lemma AtFacts(s: Space, q: seq<nat>, x: nat)
    requires Sound(s) && |q| <= 3 && At(s, q, x)
    ensures x in s.tables && 0 < x < |s.mem| && s.tables[x].path == q && s.tables[x].root == KERNEL
    ensures x == PT0 <==> q == [0, 0, 0]
  {
    hide Sound, NoLeak;
    TablesInUse(s);
    KernelRoot(s);
    RootPlace(s, KERNEL);
    ResolvePlace(s, KERNEL, q);
    assert [] + q == q;
    FirstTables(s);
  }

  lemma FirstTables(s: Space)
    requires Sound(s)
    ensures PT0 in s.tables && s.tables[PT0].path == [0, 0, 0] && Resolve(s.mem, KERNEL, [0, 0, 0]) == Some(PT0)
  {
    hide NoLeak, EntryOk;
    assert TableOk(s, PT0) && TableOk(s, PD0) && TableOk(s, PDPT0);
    assert [0, 0, 0][1..] == [0, 0] && [0, 0][1..] == [0] && [0][1..] == [];
    assert Resolve(s.mem, PD0, [0]) == Resolve(s.mem, PT0, []);
    assert Resolve(s.mem, PDPT0, [0, 0]) == Resolve(s.mem, PD0, [0]);
  }

  lemma AtStep(s: Space, q: seq<nat>, x: nat, i: nat)
    requires At(s, q, x) && x < |s.mem| && i < ENTRIES
    ensures Present(s.mem[x][i]) ==> At(s, q + [i], Target(s.mem[x][i]))
  {
    ResolveAppend(s.mem, KERNEL, q, [i]);
    assert [i][1..] == [];
  }

  lemma AtStays(s: Space, t: Space, q: seq<nat>, x: nat)
    requires Sound(s) && |q| <= 3 && At(s, q, x) && Builds(s, t, KERNEL, false)
    ensures At(t, q, x)
  {
    hide Sound;
    KernelRoot(s);
  }

  /** Present entries of a last-level table are mapped pages. */
  lemma LeavesFilled(s: Space, q: seq<nat>, pt: nat, lo: nat, n: nat)
    requires Sound(s) && |q| == 3 && At(s, q, pt) && pt < |s.mem| && n <= ENTRIES
    requires lo == if pt == PT0 then LOW_PAGES else 0
    requires forall j :: lo <= j < n ==> Present(s.mem[pt][j])
    ensures FilledBelow(s, q, n)
  {
    AtFacts(s, q, pt);
    forall path | Allowed(path) && q <= path && path[3] < n ensures Resolve(s.mem, KERNEL, path).Some? {
      assert path == q + [path[3]];
      AtStep(s, q, pt, path[3]);
    }
  }

  /** The address of a path. */
  function VAddr(path: seq<nat>): nat
    requires |path| == 4
  {
    path[0] * 0x80_0000_0000 + path[1] * 0x4000_0000 + path[2] * 0x20_0000 + path[3] * 0x1000
  }

  lemma PathOfVAddr(path: seq<nat>)
    requires Indices(path)
    ensures PathOf(VAddr(path)) == path && VAddr(path) % 0x1000 == 0 && VAddr(path) < 0x1_0000_0000_0000
    ensures Allowed(path) <==> VAddr(path) >= FREE_PAGES_START
  {
    hide Allowed;
    var a, v := path[0], VAddr(path);
    var b := a * 512 + path[1];
    var c := b * 512 + path[2];
    var d := c * 512 + path[3];
    Quotients(v);
    assert v == 0x1000 * d;
    assert v / 0x1000 == d && v % 0x1000 == 0;
    Digit(d, c, path[3]);
    Digit(c, b, path[2]);
    Digit(b, a, path[1]);
    assert PathOf(v)[3] == path[3] && PathOf(v)[2] == path[2] && PathOf(v)[1] == path[1] && PathOf(v)[0] == path[0];
    AllowedVAddr(path);
  }

  lemma AllowedVAddr(path: seq<nat>)
    requires Indices(path)
    ensures Allowed(path) <==> VAddr(path) >= FREE_PAGES_START
  {
  }

  lemma Digit(n: nat, hi: nat, lo: nat)
    requires n == hi * 512 + lo && lo < 512
    ensures n / 512 == hi && n % 512 == lo
  {
  }

  /** The shifts by 21, 30 and 39 as repeated shifts by 9. */
  lemma Quotients(v: nat)
    ensures v / 0x20_0000 == v / 0x1000 / 512 && v / 0x4000_0000 == v / 0x20_0000 / 512
    ensures v / 0x80_0000_0000 == v / 0x4000_0000 / 512
  {
  }

  /** A smaller page address has a smaller path: the first index that differs is smaller. */
  lemma SmallerPath(w: nat, v: nat)
    requires w < v < 0x1_0000_0000_0000 && w % 0x1000 == 0 && v % 0x1000 == 0
    ensures var a, b := PathOf(w), PathOf(v);
      exists k :: 0 <= k < 4 && a[..k] == b[..k] && a[k] < b[k]
  {
    hide PathOf;
    var a, b := PathOf(w), PathOf(v);
    PathDigits(w);
    PathDigits(v);
    var w3, v3 := w / 0x1000, v / 0x1000;
    var w2, v2 := w3 / 512, v3 / 512;
    var w1, v1 := w2 / 512, v2 / 512;
    var w0, v0 := w1 / 512, v1 / 512;
    assert w3 < v3;
    if w0 != v0 {
      assert a[..0] == b[..0] && a[0] < b[0];
    } else if w1 != v1 {
      assert a[..1] == b[..1] && a[1] < b[1];
    } else if w2 != v2 {
      assert a[..2] == b[..2] && a[2] < b[2];
    } else {
      assert a[..3] == b[..3] && a[3] < b[3];
    }
  }

  lemma PathDigits(v: nat)
    requires v < 0x1_0000_0000_0000
    ensures var p, v3 := PathOf(v), v / 0x1000;
      var v2 := v3 / 512;
      var v1 := v2 / 512;
      p[3] == v3 % 512 && p[2] == v2 % 512 && p[1] == v1 % 512 && p[0] == v1 / 512
  {
    Quotients(v);
    assert v / 0x80_0000_0000 < 512;
  }

  /** The scan below a table: the indices of the first missing page, all mapped, or the kernel stopped. */
  datatype Scan = Hit(rest: seq<nat>) | Full | Stuck(rest: seq<nat>)

  /** Everything before the page at q + rest, among the pages under q, is mapped. */
  ghost predicate FilledUpTo(s: Space, q: seq<nat>, rest: seq<nat>)
    decreases |rest|
  {
    rest == [] || (FilledBelow(s, q, rest[0]) && FilledUpTo(s, q + [rest[0]], rest[1..]))
  }

  /** All pages under q and before q + rest are mapped, and there the table is missing: one the kernel does not make
      on the fly, or a page table and no frame for it. */
  ghost predicate GapAt(s: Space, q: seq<nat>, rest: seq<nat>) {
    && rest != [] && |q| + |rest| <= 3 && (forall k :: 0 <= k < |q + rest| ==> (q + rest)[k] < ENTRIES)
    && FilledUpTo(s, q, rest) && Resolve(s.mem, KERNEL, q + rest) == None
    && (|q| + |rest| == 3 ==> NoneFree(s))
  }

  ghost predicate ScanOk(s: Space, q: seq<nat>, r: Scan) {
    match r
    case Hit(rest) =>
      && |q| + |rest| == 4 && Allowed(q + rest) && FilledUpTo(s, q, rest) && Resolve(s.mem, KERNEL, q + rest) == None
    case Full => FilledBelow(s, q, ENTRIES)
    case Stuck(rest) => GapAt(s, q, rest)
  }

  /** v is the least page address from FREE_PAGES_START on that the kernel does not map. */
  ghost predicate LeastUnmapped(s: Space, v: nat) {
    && FREE_PAGES_START <= v < 0x1_0000_0000_0000 && v % 0x1000 == 0 && Translate(s, KERNEL, v) == None
    && forall w :: FREE_PAGES_START <= w < v && w % 0x1000 == 0 ==> Translate(s, KERNEL, w).Some?
  }

  /** The kernel maps every page address from FREE_PAGES_START on. */
  ghost predicate AllMapped(s: Space) {
    forall w: nat :: FREE_PAGES_START <= w < 0x1_0000_0000_0000 && w % 0x1000 == 0 ==> Translate(s, KERNEL, w).Some?
  }

  /** The kernel has no page table for v, and either no page directory or no frame to build the table in. */
  ghost predicate NoTableFor(s: Space, v: nat) {
    Lacks(s, KERNEL, PathOf(v), 3) && (Lacks(s, KERNEL, PathOf(v), 2) || NoneFree(s))
  }

  /** `getUnmappedVAddr` changes no translation and returns the least page address the kernel does not map, with a page
      table for it; it stops when that address has none and cannot be given one. */
  ghost predicate ScanStep(s: Space, o: Outcome, t: Space) {
    && Builds(s, t, KERNEL, false)
    && match o
       case Halted => t == s && exists v: nat :: LeastUnmapped(s, v) && NoTableFor(s, v)
       case Done(v) =>
         if v == NULL then t == s && AllMapped(s) else LeastUnmapped(s, v) && Laid(s, KERNEL, PathOf(v), 2, 0, t)
  }

  lemma AllowedLeaf(s: Space, q: seq<nat>, pt: nat, lo: nat, i: nat)
    requires Sound(s) && |q| == 3 && At(s, q, pt) && pt < |s.mem| && lo <= i < ENTRIES && !Present(s.mem[pt][i])
    requires lo == if pt == PT0 then LOW_PAGES else 0
    ensures Allowed(q + [i]) && Resolve(s.mem, KERNEL, q + [i]) == None
  {
    hide Sound;
    AtFacts(s, q, pt);
    ResolveAppend(s.mem, KERNEL, q, [i]);
    assert (q + [i])[3] == i && (q + [i])[..3] == q;
  }

  lemma PathTail(q: seq<nat>, i: nat, rest: seq<nat>)
    ensures q + ([i] + rest) == (q + [i]) + rest && ([i] + rest)[0] == i && ([i] + rest)[1..] == rest
  {
  }

  /** A missing table right under q. */
  lemma MissingTable(s: Space, q: seq<nat>, x: nat, i: nat)
    requires |q| <= 2 && At(s, q, x) && x < |s.mem| && i < ENTRIES && !Present(s.mem[x][i]) && FilledBelow(s, q, i)
    requires |q| == 2 ==> NoneFree(s)
    ensures GapAt(s, q, [i])
  {
    hide FilledBelow;
    ResolveAppend(s.mem, KERNEL, q, [i]);
    assert [i][1..] == [] && FilledUpTo(s, q + [i], []);
  }

  /** A gap under q + [i] is a gap under q. */
  lemma GapAbove(s: Space, q: seq<nat>, i: nat, rest: seq<nat>)
    requires FilledBelow(s, q, i) && GapAt(s, q + [i], rest)
    ensures GapAt(s, q, [i] + rest)
  {
    hide FilledBelow;
    PathTail(q, i, rest);
  }

  lemma LaidAt(s: Space, q: seq<nat>, pd: nat, i: nat, j: nat, t: Space)
    requires |q| == 2 && At(s, q, pd) && Tabled(s, pd, i, 0, t)
    ensures Laid(s, KERNEL, q + [i, j], 2, 0, t)
  {
    var path := q + [i, j];
    assert path[..2] == q && path[2] == i;
    assert Reached(s, KERNEL, path, 2, pd);
  }

  /** A page table just built is not full. */
  lemma NewIsNotFull(s: Space, q: seq<nat>, pd: nat, i: nat, t: Space)
    requires Sound(s) && |q| == 2 && At(s, q, pd) && pd < |s.mem| && i < ENTRIES
    requires Sound(t) && At(t, q, pd) && Tabled(s, pd, i, 0, t)
    ensures !Present(s.mem[pd][i]) ==> !FilledBelow(t, q + [i], ENTRIES)
  {
    hide Sound;
    if Present(s.mem[pd][i]) {
      return;
    }
    var g: nat :| BuiltIn(s, pd, i, g, 0, t);
    var path := q + [i] + [0];
    AtStep(t, q, pd, i);
    assert At(t, q + [i], g) && !Present(t.mem[g][0]);
    ResolveAppend(t.mem, KERNEL, q + [i], [0]);
    FirstTables(s);
    ResolveAppend(s.mem, KERNEL, q, [i]);
    assert Resolve(s.mem, KERNEL, q + [i]) == None;
    assert path[..3] == q + [i];
    assert Allowed(path);
    assert Resolve(t.mem, KERNEL, path) == None;
  }

  lemma AtRoot(s: Space)
    ensures At(s, [], KERNEL)
  {
  }

  lemma {:induction false} FilledAt(s: Space, q: seq<nat>, rest: seq<nat>, k: nat)
    requires FilledUpTo(s, q, rest) && k < |rest|
    ensures FilledBelow(s, q + rest[..k], rest[k])
    decreases |rest|
  {
    hide FilledBelow;
    if k == 0 {
      assert q + rest[..0] == q;
    } else {
      FilledAt(s, q + [rest[0]], rest[1..], k - 1);
      assert (q + [rest[0]]) + rest[1..][..k - 1] == q + rest[..k];
    }
  }

  lemma PathOfPage(w: nat)
    requires FREE_PAGES_START <= w < 0x1_0000_0000_0000 && w % 0x1000 == 0
    ensures Allowed(PathOf(w))
  {
    if [0, 0, 0] <= PathOf(w) {
      PathDigits(w);
    }
  }

  lemma HitIsLeast(s: Space, t: Space, path: seq<nat>)
    requires Sound(s) && Builds(s, t, KERNEL, false) && Allowed(path) && Laid(s, KERNEL, path, 2, 0, t)
    requires FilledUpTo(t, [], path) && Resolve(t.mem, KERNEL, path) == None
    ensures ScanStep(s, Done(VAddr(path)), t)
  {
    hide Sound, FilledBelow, PathOf, VAddr, FilledUpTo, Laid;
    KernelRoot(s);
    var v := VAddr(path);
    PathOfVAddr(path);
    forall w | FREE_PAGES_START <= w < v && w % 0x1000 == 0 ensures Translate(s, KERNEL, w).Some? {
      SmallerPath(w, v);
      var a := PathOf(w);
      var k :| 0 <= k < 4 && a[..k] == path[..k] && a[k] < path[k];
      PathOfPage(w);
      FilledAt(t, [], path, k);
      assert [] + path[..k] == path[..k];
      FilledMeans(t, path[..k], path[k], a);
    }
  }

  /** The path of the first page at a gap, and why it may be returned. */
  lemma GapPath(s: Space, rest: seq<nat>) returns (path: seq<nat>)
    requires Sound(s) && GapAt(s, [], rest)
    ensures Allowed(path) && |rest| <= 3 && rest == path[..|rest|] && forall k :: |rest| <= k < 4 ==> path[k] == 0
    ensures forall n :: |rest| <= n <= 4 ==> Resolve(s.mem, KERNEL, path[..n]) == None
  {
    hide Sound, FilledUpTo;
    assert [] + rest == rest;
    path := rest + seq(4 - |rest|, _ => 0);
    forall n | |rest| <= n <= 4 ensures Resolve(s.mem, KERNEL, path[..n]) == None {
      assert path[..n] == rest + path[|rest|..n];
      ResolveAppend(s.mem, KERNEL, rest, path[|rest|..n]);
    }
    FirstTables(s);
    assert path[..3] != [0, 0, 0];
  }

  lemma GapIsLeast(s: Space, rest: seq<nat>)
    requires Sound(s) && GapAt(s, [], rest)
    ensures ScanStep(s, Halted, s)
  {
    hide Sound, FilledBelow, PathOf, VAddr, FilledUpTo, NoneFree;
    BuildsNothing(s, KERNEL, false);
    var path := GapPath(s, rest);
    var v := VAddr(path);
    PathOfVAddr(path);
    assert path[..4] == path;
    forall w | FREE_PAGES_START <= w < v && w % 0x1000 == 0 ensures Translate(s, KERNEL, w).Some? {
      SmallerPath(w, v);
      var a := PathOf(w);
      var k :| 0 <= k < 4 && a[..k] == path[..k] && a[k] < path[k];
      PathOfPage(w);
      FilledAt(s, [], rest, k);
      assert [] + rest[..k] == path[..k];
      FilledMeans(s, path[..k], path[k], a);
    }
    assert LeastUnmapped(s, v) && NoTableFor(s, v);
  }

  lemma FilledMeans(s: Space, q: seq<nat>, n: nat, path: seq<nat>)
    requires FilledBelow(s, q, n) && Allowed(path) && |q| < 4 && q == path[..|q|] && path[|q|] < n
    ensures Resolve(s.mem, KERNEL, path).Some?
  {
  }

  lemma FullIsFull(s: Space)
    requires Sound(s) && FilledBelow(s, [], ENTRIES)
    ensures ScanStep(s, Done(NULL), s)
  {
    hide Sound, FilledBelow;
    BuildsNothing(s, KERNEL, false);
    forall w | FREE_PAGES_START <= w < 0x1_0000_0000_0000 && w % 0x1000 == 0 ensures Translate(s, KERNEL, w).Some? {
      PathOfPage(w);
      assert PathOf(w)[..0] == [];
      FilledMeans(s, [], ENTRIES, PathOf(w));
    }
  }

  /** `mapPage`, which looks for an address itself when given none. */
  ghost predicate MapAnyStep(s: Space, r: nat, v: nat, o: Outcome, t: Space) {
    if v != NULL then MapStep(s, r, v, o, t)
    else exists u, found :: ScanStep(s, found, u) && AfterScan(u, r, found, o, t)
  }

  ghost predicate AfterScan(u: Space, r: nat, found: Outcome, o: Outcome, t: Space) {
    match found
    case Halted => o == Halted && t == u
    case Done(w) => if w == NULL then o == found && t == u else MapStep(u, r, w, o, t)
  }

  /** And all it does, with its flags. */
  ghost predicate MapAnyDone(s: Space, r: nat, v: nat, flags: nat, o: Outcome, t: Space) {
    if v != NULL then MapDone(s, r, v, flags, o, t)
    else exists u, found :: ScanStep(s, found, u) && FoundDone(u, r, found, flags, o, t)
  }

  ghost predicate FoundDone(u: Space, r: nat, found: Outcome, flags: nat, o: Outcome, t: Space) {
    if found.Done? && found.v != NULL then MapDone(u, r, found.v, flags, o, t) else o == found && t == u
  }

  // ----- getPAddr -----

  /** `entry & ~0x7FF`, the mask of `getPAddr`, which leaves bit 11 in. */
  function Masked(e: nat): nat { e - e % 0x800 }

  /** The eight bytes at a physical address, within memory. */
  function WordAt(mem: seq<Frame>, a: nat): nat {
    if a / 0x1000 < |mem| then mem[a / 0x1000][a % 0x1000 / 8] else 0
  }

  /** Four levels of `getPAddr` from the address of a table. */
  function PAddrFrom(mem: seq<Frame>, table: nat, path: seq<nat>): nat
    decreases |path|
  {
    if path == [] then table
    else
      var e := WordAt(mem, table + path[0] * 8);
      if !Present(e) then NULL else PAddrFrom(mem, Masked(e), path[1..])
  }

  /** No entry on the way has bit 11 set. */
  ghost predicate PlainPath(mem: seq<Frame>, f: nat, path: seq<nat>)
    decreases |path|
  {
    path == [] || (f < |mem| && path[0] < ENTRIES &&
      var e := mem[f][path[0]];
      Present(e) ==> e % 0x1000 < 0x800 && PlainPath(mem, Target(e), path[1..]))
  }

  lemma SlotAddress(f: nat, i: nat)
    requires i < ENTRIES
    ensures (f * 0x1000 + i * 8) / 0x1000 == f && (f * 0x1000 + i * 8) % 0x1000 / 8 == i
  {
    var a := f * 0x1000 + i * 8;
    assert i * 8 < 0x1000 && a - f * 0x1000 == i * 8;
    assert a / 0x1000 == f && a % 0x1000 == i * 8;
  }

  lemma MaskedPlain(e: nat)
    ensures Masked(e) == Target(e) * 0x1000 + if e % 0x1000 < 0x800 then 0 else 0x800
  {
    assert e == Target(e) * 0x1000 + e % 0x1000;
    assert e % 0x800 == e % 0x1000 % 0x800;
  }

  /** `getPAddr` is the translation wherever no entry carries bit 11. */
  lemma {:induction false} PAddrIsResolve(mem: seq<Frame>, f: nat, path: seq<nat>)
    requires PlainPath(mem, f, path)
    ensures PAddrFrom(mem, f * 0x1000, path) == match Resolve(mem, f, path) case None => NULL case Some(g) => g * 0x1000
    decreases |path|
  {
    if path == [] {
    } else {
      hide Masked, Present;
      SlotAddress(f, path[0]);
      var e := mem[f][path[0]];
      if Present(e) {
        MaskedPlain(e);
        PAddrIsResolve(mem, Target(e), path[1..]);
      }
    }
  }

  /** No entry that points at a table has bit 11 set; the last entry may. */
  ghost predicate PlainTables(mem: seq<Frame>, f: nat, path: seq<nat>)
    decreases |path|
  {
    |path| <= 1 || (f < |mem| && path[0] < ENTRIES &&
      var e := mem[f][path[0]];
      Present(e) ==> e % 0x1000 < 0x800 && PlainTables(mem, Target(e), path[1..]))
  }

  /** A mapped page is reported where it is exactly when its own entry is without bit 11; else half a page too high. */
  lemma {:induction false} PAddrExactly(mem: seq<Frame>, f: nat, path: seq<nat>)
    requires path != [] && PlainTables(mem, f, path) && Resolve(mem, f, path).Some?
    ensures var p, g := PAddrFrom(mem, f * 0x1000, path), Resolve(mem, f, path).value;
      && (p == g * 0x1000 <==> PlainPath(mem, f, path))
      && (p == g * 0x1000 || p == g * 0x1000 + 0x800)
    decreases |path|
  {
    hide Masked, Present;
    SlotAddress(f, path[0]);
    var e := mem[f][path[0]];
    MaskedPlain(e);
    if |path| > 1 {
      PAddrExactly(mem, Target(e), path[1..]);
    } else {
      assert path[1..] == [];
    }
  }

  /** A page mapped with flag 0x800, here the last one of page table 0 after boot, is reported half a page too high. */
  lemma MappedWithBit11(s: Space, n: nat, g: nat)
    requires Booted(s, n) && !Present(s.mem[PT0][511]) && 0 < g < |s.mem| && g !in s.used
    ensures Sound(s) && CanAddLeaf(s, PT0, 511, g)
    ensures var t, path := WithLeaf(s, PT0, 511, g, 0x800), PathOf(0x1F_F000);
      && Sound(t) && Resolve(t.mem, KERNEL, path) == Some(g)
      && PAddrFrom(t.mem, KERNEL * 0x1000, path) == g * 0x1000 + 0x800
  {
    hide Sound, PAddrFrom, NoLeak, TableOk, EntryOk, MakeEntry, Between, Present, Resolve;
    InitSound(s, n);
    WithLeafSound(s, PT0, 511, g, 0x800);
    var m := WithLeaf(s, PT0, 511, g, 0x800).mem;
    assert PathOf(0x1F_F000) == [0, 0, 0, 511];
    BootEntries();
    Bit11Below(m, g);
  }

  /** The entries concerned, as numbers. */
  lemma BootEntries()
    ensures MakeEntry(PDPT0, 0) == 0x2003 && MakeEntry(PD0, 0) == 0x3003 && MakeEntry(PT0, 0) == 0x4003
    ensures forall g: nat :: MakeEntry(g, 0x800) == g * 0x1000 + 0x803
  {
  }

  lemma EntryWithBit11(g: nat)
    ensures var e := g * 0x1000 + 0x803; Target(e) == g && Present(e) && e % 0x1000 >= 0x800
  {
  }

  lemma Bit11Below(m: seq<Frame>, g: nat)
    requires |m| > PT0 && m[KERNEL][0] == 0x2003 && m[PDPT0][0] == 0x3003 && m[PD0][0] == 0x4003
    requires m[PT0][511] == g * 0x1000 + 0x803
    ensures Resolve(m, KERNEL, [0, 0, 0, 511]) == Some(g)
    ensures PAddrFrom(m, KERNEL * 0x1000, [0, 0, 0, 511]) == g * 0x1000 + 0x800
  {
    EntryWithBit11(g);
    assert Present(0x2003) && Present(0x3003) && Present(0x4003);
    assert Target(0x2003) == PDPT0 && Target(0x3003) == PD0 && Target(0x4003) == PT0;
    hide PAddrFrom, Present, Target;
    var p3, p2, p1, p0 := [511], [0, 511], [0, 0, 511], [0, 0, 0, 511];
    assert p3[1..] == [] && p2[1..] == p3 && p1[1..] == p2 && p0[1..] == p1;
    assert Resolve(m, PT0, p3) == Some(g);
    assert Resolve(m, PD0, p2) == Some(g);
    assert Resolve(m, PDPT0, p1) == Some(g);
    assert PlainTables(m, PT0, p3) && PlainTables(m, PD0, p2) && PlainTables(m, PDPT0, p1);
    assert PlainTables(m, KERNEL, p0);
    assert !PlainPath(m, PT0, p3);
    assert !PlainPath(m, PD0, p2) && !PlainPath(m, PDPT0, p1) && !PlainPath(m, KERNEL, p0);
    PAddrExactly(m, KERNEL, p0);
  }
}
