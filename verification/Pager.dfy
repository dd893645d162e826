/** The pager: the page bitmap and the page tables, changed in place in physical memory. */
module Pager {
  import opened Bitmap
  import opened PageTables
  import opened PageEdits
  import opened PageSpaces
  import opened PagerSpec

  class Paging {
    const frames: array<Frame>
    const physPages: PageMap
    ghost var tables: map<nat, Place>
    ghost var boot: set<nat>

    /** `init`: the bitmap right above the low pages, mapped where it lies, and marked used with all below it. */
    constructor (frames: array<Frame>, availableMem: nat)
      requires frames.Length == availableMem / 0x1000 + if availableMem % 0x1000 != 0 then 1 else 0
      requires BootTables(frames[..]) && LOW_PAGES + BitmapPages(frames.Length) < frames.Length
      requires LOW_PAGES + BitmapPages(frames.Length) <= ENTRIES
      modifies frames
      ensures Valid() && this.frames == frames && tables == BootPlaces()
      ensures boot == Between(0, LOW_PAGES + BitmapPages(frames.Length)) && physPages.InUse() == boot
      ensures Booted(Snap(), LOW_PAGES + BitmapPages(frames.Length))
      ensures BitmapReady(old(frames[..]), frames[..], boot)
    {
      this.frames := frames;
      var pages := availableMem / 0x1000 + if availableMem % 0x1000 != 0 then 1 else 0;
      physPages := new PageMap(pages);
      tables := BootPlaces();
      boot := Between(0, LOW_PAGES + BitmapPages(frames.Length));
      new;
      hide Sound, BitmapPages, BootTables, BootPlaces, Between, Booted, BitmapMapped, BitFrame, BitmapReady;
      Start(BitmapPages(pages));
    }

    /** The loops of `init`: the bitmap mapped, then it and everything below it marked used. */
    method Start(n: nat)
      requires Fits() && physPages.InUse() == {} && BootTables(frames[..]) && tables == BootPlaces()
      requires LOW_PAGES + n < frames.Length && LOW_PAGES + n <= ENTRIES && boot == Between(0, LOW_PAGES + n)
      requires n == BitmapPages(frames.Length)
      modifies frames, physPages.bits
      ensures Valid() && physPages.InUse() == boot
      ensures Booted(Snap(), LOW_PAGES + n) && BitmapReady(old(frames[..]), frames[..], boot)
    {
      hide Sound, BootTables, BootPlaces, Booted, BitmapMapped, BitmapReady, BitmapPages, Between;
      ghost var m := frames[..];
      BootIsBig(m);
      MapBitmap(n);
      MarkRange(LOW_PAGES, n);
      MarkRange(0, LOW_PAGES);
      BootDone(m, Snap(), n);
    }

    /** The bitmap's pages mapped to themselves. */
    method MapBitmap(n: nat)
      requires frames.Length > LOW_PAGES && LOW_PAGES + n <= ENTRIES
      modifies frames
      ensures BitmapMapped(old(frames[..]), frames[..], n)
    {
      var i := 0;
      while i < n
        invariant 0 <= i <= n
        invariant forall f :: 0 <= f < frames.Length && f != PT0 ==> frames[f] == old(frames[f])
        invariant forall j :: 0 <= j < ENTRIES ==>
          frames[PT0][j] == if LOW_PAGES <= j < LOW_PAGES + i then MakeEntry(j, 0) else old(frames[PT0][j])
      {
        frames[PT0] := frames[PT0][LOW_PAGES + i := MakeEntry(LOW_PAGES + i, 0)];
        i := i + 1;
      }
    }

    method MarkRange(lo: nat, n: nat)
      requires Fits() && lo + n <= frames.Length
      modifies physPages.bits
      ensures physPages.InUse() == old(physPages.InUse()) + Between(lo, lo + n)
    {
      var i := 0;
      while i < n
        invariant 0 <= i <= n
        invariant physPages.InUse() == old(physPages.InUse()) + Between(lo, lo + i)
      {
        physPages.MarkUsed(lo + i);
        i := i + 1;
      }
    }

    ghost function Snap(): Space
      reads this, frames, physPages, physPages.bits
    {
      Space(frames[..], physPages.InUse(), tables, boot)
    }

    ghost predicate Valid()
      reads this, frames, physPages, physPages.bits
    {
      Fits() && Sound(Snap())
    }

    ghost predicate Fits()
      reads this, frames, physPages
    {
      physPages.Valid() && physPages.pages == frames.Length && frames as object != physPages.bits
    }

    method WriteEntry(f: nat, i: nat, e: nat)
      requires f < frames.Length && i < ENTRIES
      modifies frames
      ensures frames[..] == old(frames[..])[f := old(frames[f])[i := e]]
    {
      frames[f] := frames[f][i := e];
    }

    method ZeroFrame(f: nat)
      requires f < frames.Length
      modifies frames
      ensures frames[..] == old(frames[..])[f := Blank()]
    {
      frames[f] := Blank();
    }

    /** A page the boot loader reports as reserved, marked in use right after `init`. */
    method Reserve(page: nat)
      requires Valid() && physPages.InUse() == boot
      modifies this`boot, physPages.bits
      ensures Valid() && physPages.InUse() == boot
      ensures boot == old(boot) + if page < frames.Length then {page} else {}
    {
      hide Sound;
      ghost var s := Snap();
      physPages.MarkUsed(page);
      if page < frames.Length {
        boot := boot + {page};
        ReserveSound(s, page);
        assert Snap() == s.(used := s.used + {page}, boot := s.boot + {page});
      } else {
        assert Snap() == s && boot == old(boot) + {};
      }
    }

    /** `getFreePhysPage`. */
    method GetFreePhysPage() returns (found: bool, page: nat)
      requires Fits()
      ensures found ==> IsFirstFree(Snap(), page) && page < frames.Length
      ensures !found ==> NoneFree(Snap())
    {
      found, page := physPages.FirstFree();
    }

    /** One level of `mapPage`: the table under entry i of table f, built in a free frame when missing. */
    method EnsureTable(f: nat, i: nat, flags: nat, ghost r: nat, ghost low: bool) returns (ok: bool, table: nat)
      requires Valid() && f in tables && |tables[f].path| < 3 && i < ENTRIES && flags < 0x1000
      requires tables[f].root == Home(r, low) || (f < frames.Length && Present(frames[f][i]))
      modifies this`tables, frames, physPages.bits
      ensures Valid() && Builds(old(Snap()), Snap(), r, low)
      ensures ok ==> f < frames.Length && Present(frames[f][i]) && table == Target(frames[f][i])
      ensures old(f < frames.Length && Present(frames[f][i])) ==> ok && Snap() == old(Snap())
      ensures !ok ==> Snap() == old(Snap()) && NoneFree(Snap())
      ensures ok ==> Tabled(old(Snap()), f, i, flags, Snap())
    {
      hide Sound, Builds;
      ghost var s := Snap();
      TablesInUse(s);
      BuildsNothing(s, r, low);
      var e := frames[f][i];
      if !Present(e) {
        var found, g := GetFreePhysPage();
        if !found {
          return false, 0;
        }
        ZeroIsUsed(s);
        BuildsTable(s, f, i, g, flags, r, low);
        physPages.MarkUsed(g);
        ZeroFrame(g);
        e := MakeEntry(g, flags);
        WriteEntry(f, i, e);
        tables := tables[g := Place(tables[f].root, tables[f].path + [i], f)];
        assert Snap() == WithTable(s, f, i, g, flags);
        assert BuiltIn(s, f, i, g, flags, Snap());
        BuildsSound(s, Snap(), r, low);
      }
      return true, Target(e);
    }

    /** `mapPage` at a given address, with a frame of the pager's choice. */
    method MapPageAt(vaddr: nat, flags: nat, pml4: nat) returns (o: Outcome)
      requires Valid() && IsRoot(Snap(), pml4) && vaddr != NULL
      modifies this`tables, frames, physPages.bits
      ensures Valid() && MapStep(old(Snap()), pml4, vaddr, o, Snap())
      ensures MapDone(old(Snap()), pml4, vaddr, flags % 0x1000, o, Snap())
    {
      hide Sound, Builds, Mapped, Resolve, Low, Reached, Tabled, LeafDone, NoneFree;
      ghost var s, path := Snap(), PathOf(vaddr);
      var bits := flags % 0x1000;
      BuildsNothing(s, pml4, Low(path));
      ReachRoot(s, pml4, path);
      ReachFacts(s, pml4, path, 0, pml4);
      ReachStep(s, pml4, path, 0, pml4);
      var pml4e := frames[pml4][vaddr / 0x80_0000_0000 % 512];
      if !Present(pml4e) {
        return Halted;
      }
      var pdpt := Target(pml4e);
      ReachFacts(s, pml4, path, 1, pdpt);
      ReachStep(s, pml4, path, 1, pdpt);
      HomeOrThere(s, pml4, path, 1, pdpt);
      var ok, pd := EnsureTable(pdpt, vaddr / 0x4000_0000 % 512, bits, pml4, Low(path));
      ghost var s2 := Snap();
      if !ok {
        return Halted;
      }
      TabledMeans(s, pdpt, path[1], bits, s2);
      BuildsReached(s, s2, pml4, path, 1, pdpt);
      ReachStep(s2, pml4, path, 1, pdpt);
      ReachFacts(s2, pml4, path, 2, pd);
      ReachStep(s2, pml4, path, 2, pd);
      HomeOrThere(s2, pml4, path, 2, pd);
      var pt;
      ok, pt := EnsureTable(pd, vaddr / 0x20_0000 % 512, bits, pml4, Low(path));
      ghost var s3 := Snap();
      BuildsTwice(s, s2, s3, pml4, Low(path));
      BuildsSame(s, s2, pml4, path);
      assert Laid(s, pml4, path, 1, bits, s2);
      if !ok {
        assert Lacks(s2, pml4, path, 3);
        assert MapBelow(s2, pml4, vaddr, bits, Halted, s2);
        return Halted;
      }
      TabledMeans(s2, pd, path[2], bits, s3);
      BuildsReached(s2, s3, pml4, path, 2, pd);
      ReachStep(s3, pml4, path, 2, pd);
      o := MapLeaf(vaddr, bits, pml4, pt);
      assert LeafReached(s3, pml4, path, pt, vaddr, bits, o, Snap());
      MapAfterBuilds(s, s3, pml4, vaddr, o, Snap());
    }

    /** The end of `mapPage`: the last-level entry. */
    method MapLeaf(vaddr: nat, bits: nat, pml4: nat, pt: nat) returns (o: Outcome)
      requires Valid() && IsRoot(Snap(), pml4) && vaddr != NULL && bits < 0x1000
      requires Reached(Snap(), pml4, PathOf(vaddr), 3, pt)
      modifies frames, physPages.bits
      ensures Valid() && MapStep(old(Snap()), pml4, vaddr, o, Snap()) && o.Done?
      ensures LeafDone(old(Snap()), PathOf(vaddr), pt, vaddr, bits, o, Snap())
    {
      hide Sound, Builds, Resolve, Low;
      ghost var s, path := Snap(), PathOf(vaddr);
      BuildsNothing(s, pml4, Low(path));
      ReachFacts(s, pml4, path, 3, pt);
      ReachStep(s, pml4, path, 3, pt);
      var i := vaddr / 0x1000 % 512;
      if Present(frames[pt][i]) {
        assert path[..4] == path;
        return Done(NULL);
      }
      var found, page := GetFreePhysPage();
      if !found {
        return Done(NULL);
      }
      ZeroIsUsed(s);
      WriteEntry(pt, i, MakeEntry(page, bits));
      physPages.MarkUsed(page);
      WithLeafSound(s, pt, i, page, bits);
      assert Mapped(s, pml4, path, s, pt, page, bits, Snap());
      return Done(vaddr);
    }

    /** `unmapPage`. The invariant goes only with a page in use since boot. */
    method UnmapPage(vaddr: nat)
      requires Valid()
      modifies frames, physPages.bits
      ensures UnmapStep(old(Snap()), vaddr, Snap())
      ensures Valid() <==> UnmapSafe(old(Snap()), vaddr)
    {
      hide Sound, Resolve, Low;
      ghost var s, path := Snap(), PathOf(vaddr);
      KernelRoot(s);
      ReachRoot(s, KERNEL, path);
      ReachFacts(s, KERNEL, path, 0, KERNEL);
      ReachStep(s, KERNEL, path, 0, KERNEL);
      var entry := frames[KERNEL][vaddr / 0x80_0000_0000 % 512];
      if !Present(entry) {
        return;
      }
      var pdpt := Target(entry);
      ReachFacts(s, KERNEL, path, 1, pdpt);
      ReachStep(s, KERNEL, path, 1, pdpt);
      entry := frames[pdpt][vaddr / 0x4000_0000 % 512];
      if !Present(entry) {
        return;
      }
      var pd := Target(entry);
      ReachFacts(s, KERNEL, path, 2, pd);
      ReachStep(s, KERNEL, path, 2, pd);
      entry := frames[pd][vaddr / 0x20_0000 % 512];
      if !Present(entry) {
        return;
      }
      UnmapLeaf(vaddr, Target(entry));
    }

    /** The end of `unmapPage`: the last-level entry. */
    method UnmapLeaf(vaddr: nat, pt: nat)
      requires Valid() && Reached(Snap(), KERNEL, PathOf(vaddr), 3, pt)
      modifies frames, physPages.bits
      ensures UnmapStep(old(Snap()), vaddr, Snap())
      ensures Valid() <==> UnmapSafe(old(Snap()), vaddr)
    {
      hide Sound, Resolve, Low;
      ghost var s, path := Snap(), PathOf(vaddr);
      KernelRoot(s);
      ReachFacts(s, KERNEL, path, 3, pt);
      ReachStep(s, KERNEL, path, 3, pt);
      assert path[..4] == path;
      var i := vaddr / 0x1000 % 512;
      var entry := frames[pt][i];
      if !Present(entry) {
        return;
      }
      physPages.MarkFree(Target(entry));
      WriteEntry(pt, i, 0);
      assert Snap() == WithoutLeaf(s, pt, i);
      if Target(entry) !in boot {
        WithoutLeafSound(s, pt, i);
      } else {
        BootFreed(s, pt, i);
      }
    }

    /** `createPageDir`: a space with the kernel's page directory 0, or NULL. */
    method CreatePageDir() returns (pml4: nat)
      requires Valid()
      modifies this`tables, frames, physPages.bits
      ensures Valid() && CreateStep(old(Snap()), pml4, Snap())
    {
      hide Sound, NoneFree, Blank, MakeEntry;
      ghost var s := Snap();
      ZeroIsUsed(s);
      var found, pdpt0;
      found, pml4 := GetFreePhysPage();
      if !found {
        return NULL;
      }
      physPages.MarkUsed(pml4);
      ghost var u := s.(used := s.used + {pml4});
      assert Snap() == u;
      found, pdpt0 := GetFreePhysPage();
      if !found {
        physPages.MarkFree(pml4);
        assert Snap() == s;
        assert IsFirstFree(s, pml4) && NoneFree(u);
        return NULL;
      }
      physPages.MarkUsed(pdpt0);
      FirstFreeIsNotZero(s, pml4, pdpt0);
      frames[pml4] := Blank();
      frames[pml4] := frames[pml4][0 := MakeEntry(pdpt0, USER_FLAGS)];
      frames[pdpt0] := Blank();
      frames[pdpt0] := frames[pdpt0][0 := MakeEntry(PD0, USER_FLAGS)];
      tables := tables[pml4 := Place(pml4, [], 0)][pdpt0 := Place(pml4, [0], pml4)];
      WithSpaceSound(s, pml4, pdpt0);
      assert CreatedWith(s, pml4, pdpt0, Snap());
    }

    /** `destroyPageDir`: everything that belongs to the space is freed, page directory 0 and below aside. */
    method DestroyPageDir(pml4: nat)
      requires Valid() && IsRoot(Snap(), pml4) && pml4 != KERNEL
      modifies this`tables, physPages.bits
      ensures Valid() && DestroyStep(old(Snap()), pml4, Snap())
    {
      hide Sound, Below;
      ghost var s := Snap();
      TablesInUse(s);
      RootPlace(s, pml4);
      BelowNothing(s.mem, pml4, 4);
      var i := 0;
      while i < ENTRIES
        invariant 0 <= i <= ENTRIES && physPages.InUse() == s.used - Below(s.mem, pml4, 4, i)
      {
        BelowStep(s.mem, pml4, 4, i);
        var e := frames[pml4][i];
        if Present(e) {
          ChildStep(s, pml4, i);
          FreePDPT(Target(e), s);
          physPages.MarkFree(Target(e));
        }
        i := i + 1;
      }
      physPages.MarkFree(pml4);
      BelowIsAllOwned(s, pml4);
      WithoutSpaceSound(s, pml4);
      assert physPages.InUse() == s.used - Owned(s, pml4);
      tables := WithoutSpace(s, pml4).tables;
    }

    /** The second loop of `destroyPageDir`. */
    method FreePDPT(pdpt: nat, ghost s: Space)
      requires Fits() && Sound(s) && frames[..] == s.mem && pdpt in s.tables && |s.tables[pdpt].path| == 1
      modifies physPages.bits
      ensures pdpt < |s.mem| && physPages.InUse() == old(physPages.InUse()) - Below(s.mem, pdpt, 3, ENTRIES)
    {
      hide Sound, Below;
      TablesInUse(s);
      BelowNothing(s.mem, pdpt, 3);
      var i := 0;
      while i < ENTRIES
        invariant 0 <= i <= ENTRIES && physPages.InUse() == old(physPages.InUse()) - Below(s.mem, pdpt, 3, i)
      {
        BelowStep(s.mem, pdpt, 3, i);
        var e := frames[pdpt][i];
        if Present(e) && Target(e) != PD0 {
          ChildStep(s, pdpt, i);
          FreePD(Target(e), s);
          physPages.MarkFree(Target(e));
        }
        i := i + 1;
      }
    }

    /** The third loop. */
    method FreePD(pd: nat, ghost s: Space)
      requires Fits() && Sound(s) && frames[..] == s.mem && pd in s.tables && |s.tables[pd].path| == 2
      modifies physPages.bits
      ensures pd < |s.mem| && physPages.InUse() == old(physPages.InUse()) - Below(s.mem, pd, 2, ENTRIES)
    {
      hide Sound, Below;
      TablesInUse(s);
      BelowNothing(s.mem, pd, 2);
      var i := 0;
      while i < ENTRIES
        invariant 0 <= i <= ENTRIES && physPages.InUse() == old(physPages.InUse()) - Below(s.mem, pd, 2, i)
      {
        BelowStep(s.mem, pd, 2, i);
        var e := frames[pd][i];
        if Present(e) {
          ChildStep(s, pd, i);
          FreePT(Target(e), s);
          physPages.MarkFree(Target(e));
        }
        i := i + 1;
      }
    }

    /** The innermost loop. */
    method FreePT(pt: nat, ghost s: Space)
      requires Fits() && Sound(s) && frames[..] == s.mem && pt in s.tables
      modifies physPages.bits
      ensures pt < |s.mem| && physPages.InUse() == old(physPages.InUse()) - Below(s.mem, pt, 1, ENTRIES)
    {
      hide Sound, Below;
      TablesInUse(s);
      BelowNothing(s.mem, pt, 1);
      var i := 0;
      while i < ENTRIES
        invariant 0 <= i <= ENTRIES && physPages.InUse() == old(physPages.InUse()) - Below(s.mem, pt, 1, i)
      {
        BelowStep(s.mem, pt, 1, i);
        var e := frames[pt][i];
        if Present(e) {
          NothingBelowALeaf(s.mem, Target(e));
          physPages.MarkFree(Target(e));
        }
        i := i + 1;
      }
    }

    /** The innermost loop of `getUnmappedVAddr`: the first missing entry of a last-level table. */
    method ScanPT(pt: nat, ghost q: seq<nat>) returns (found: bool, i: nat)
      requires Valid() && |q| == 3 && At(Snap(), q, pt)
      ensures found ==> i < ENTRIES && pt < frames.Length && Allowed(q + [i])
      ensures found ==> Resolve(frames[..], KERNEL, q + [i]) == None
      ensures found ==> FilledBelow(Snap(), q, i)
      ensures !found ==> FilledBelow(Snap(), q, ENTRIES)
    {
      hide Sound, FilledBelow, At, Allowed;
      AtFacts(Snap(), q, pt);
      i := 0;
      if pt == PT0 {
        i := i + LOW_PAGES;
      }
      ghost var lo := i;
      while i < ENTRIES
        invariant lo <= i <= ENTRIES
        invariant forall j :: lo <= j < i ==> Present(frames[pt][j])
      {
        if !Present(frames[pt][i]) {
          LeavesFilled(Snap(), q, pt, lo, i);
          AllowedLeaf(Snap(), q, pt, lo, i);
          return true, i;
        }
        i := i + 1;
      }
      LeavesFilled(Snap(), q, pt, lo, ENTRIES);
      return false, 0;
    }

    /** The third loop: the first missing page under a page directory, in a table built for it when need be. */
    method ScanPD(pd: nat, ghost q: seq<nat>) returns (r: Scan)
      requires Valid() && |q| == 2 && At(Snap(), q, pd)
      modifies this`tables, frames, physPages.bits
      ensures Valid() && Builds(old(Snap()), Snap(), KERNEL, false) && ScanOk(Snap(), q, r)
      ensures if r.Hit? then Laid(old(Snap()), KERNEL, q + r.rest, 2, 0, Snap()) else Snap() == old(Snap())
    {
      hide Sound, FilledBelow, At, Allowed, Builds, Tabled, GapAt;
      ghost var s := Snap();
      BuildsNothing(s, KERNEL, false);
      FilledNone(s, q);
      AtFacts(s, q, pd);
      var i := 0;
      while i < ENTRIES
        invariant 0 <= i <= ENTRIES && Valid() && Snap() == s && FilledBelow(s, q, i)
      {
        var ok, pt := EnsureTable(pd, i, 0, KERNEL, false);
        if !ok {
          MissingTable(s, q, pd, i);
          return Stuck([i]);
        }
        FilledStays(s, Snap(), q, i);
        AtStays(s, Snap(), q, pd);
        AtStep(Snap(), q, pd, i);
        var found, j := ScanPT(pt, q + [i]);
        if found {
          PathTail(q, i, [j]);
          assert [i, j] == [i] + [j] && [j][1..] == [] && FilledUpTo(Snap(), q + [i], [j]);
          LaidAt(s, q, pd, i, j, Snap());
          return Hit([i, j]);
        }
        NewIsNotFull(s, q, pd, i, Snap());
        FilledMore(s, q, i);
        i := i + 1;
      }
      return Full;
    }

    /** The second loop. A missing page directory stops the kernel. */
    method ScanPDPT(pdpt: nat, ghost q: seq<nat>) returns (r: Scan)
      requires Valid() && |q| == 1 && At(Snap(), q, pdpt)
      modifies this`tables, frames, physPages.bits
      ensures Valid() && Builds(old(Snap()), Snap(), KERNEL, false) && ScanOk(Snap(), q, r)
      ensures if r.Hit? then Laid(old(Snap()), KERNEL, q + r.rest, 2, 0, Snap()) else Snap() == old(Snap())
    {
      hide Sound, FilledBelow, At, Allowed, Builds, Laid, GapAt;
      ghost var s := Snap();
      BuildsNothing(s, KERNEL, false);
      FilledNone(s, q);
      AtFacts(s, q, pdpt);
      var i := 0;
      while i < ENTRIES
        invariant 0 <= i <= ENTRIES && Valid() && Snap() == s && FilledBelow(s, q, i)
      {
        var e := frames[pdpt][i];
        if !Present(e) {
          MissingTable(s, q, pdpt, i);
          return Stuck([i]);
        }
        AtStep(s, q, pdpt, i);
        r := ScanPD(Target(e), q + [i]);
        if !r.Full? {
          FilledStays(s, Snap(), q, i);
          PathTail(q, i, r.rest);
          if r.Hit? {
            return Hit([i] + r.rest);
          }
          GapAbove(s, q, i, r.rest);
          return Stuck([i] + r.rest);
        }
        FilledMore(s, q, i);
        i := i + 1;
      }
      return Full;
    }

    /** `getUnmappedVAddr`: the lowest address from FREE_PAGES_START on that the kernel does not map. */
    method GetUnmappedVAddr() returns (o: Outcome)
      requires Valid()
      modifies this`tables, frames, physPages.bits
      ensures Valid() && ScanStep(old(Snap()), o, Snap())
    {
      hide Sound, FilledBelow, At, Allowed, Builds, Laid, GapAt;
      ghost var s := Snap();
      BuildsNothing(s, KERNEL, false);
      FilledNone(s, []);
      AtRoot(s);
      AtFacts(s, [], KERNEL);
      var i := 0;
      while i < ENTRIES
        invariant 0 <= i <= ENTRIES && Valid() && Snap() == s && FilledBelow(s, [], i)
      {
        var e := frames[KERNEL][i];
        if !Present(e) {
          MissingTable(s, [], KERNEL, i);
          GapIsLeast(s, [i]);
          return Halted;
        }
        AtStep(s, [], KERNEL, i);
        assert [] + [i] == [i];
        var r := ScanPDPT(Target(e), [i]);
        if !r.Full? {
          FilledStays(s, Snap(), [], i);
          PathTail([], i, r.rest);
          assert [] + ([i] + r.rest) == [i] + r.rest;
          if r.Hit? {
            HitIsLeast(s, Snap(), [i] + r.rest);
            return Done(VAddr([i] + r.rest));
          }
          GapAbove(s, [], i, r.rest);
          GapIsLeast(s, [i] + r.rest);
          return Halted;
        }
        FilledMore(s, [], i);
        i := i + 1;
      }
      FullIsFull(s);
      return Done(NULL);
    }

    /** `mapPage`: an address of the pager's choice when none is given. */
    method MapPage(vaddr: nat, flags: nat, pml4: nat) returns (o: Outcome)
      requires Valid() && IsRoot(Snap(), pml4)
      modifies this`tables, frames, physPages.bits
      ensures Valid() && MapAnyStep(old(Snap()), pml4, vaddr, o, Snap())
      ensures MapAnyDone(old(Snap()), pml4, vaddr, flags % 0x1000, o, Snap())
    {
      hide Sound, ScanStep, MapStep, MapDone;
      if vaddr != NULL {
        o := MapPageAt(vaddr, flags, pml4);
        return;
      }
      ghost var s := Snap();
      o := GetUnmappedVAddr();
      ghost var u, found := Snap(), o;
      if o == Halted || o == Done(NULL) {
        assert ScanStep(s, found, u) && AfterScan(u, pml4, found, o, u);
        assert FoundDone(u, pml4, found, flags % 0x1000, o, u);
        return;
      }
      ScanKeepsRoots(s, o, u);
      o := MapPageAt(o.v, flags, pml4);
      assert ScanStep(s, found, u) && AfterScan(u, pml4, found, o, Snap());
      assert FoundDone(u, pml4, found, flags % 0x1000, o, Snap());
    }

    method ReadWord(a: nat) returns (e: nat)
      ensures e == WordAt(frames[..], a)
    {
      e := if a / 0x1000 < frames.Length then frames[a / 0x1000][a % 0x1000 / 8] else 0;
    }

    /** `getPAddr`: the physical address the kernel's tables give. */
    method GetPAddr(vaddr: nat) returns (paddr: nat)
      ensures paddr == PAddrFrom(frames[..], KERNEL * 0x1000, PathOf(vaddr))
      ensures PlainPath(frames[..], KERNEL, PathOf(vaddr)) ==>
        paddr == match Resolve(frames[..], KERNEL, PathOf(vaddr)) case None => NULL case Some(g) => g * 0x1000
    {
      ghost var path := PathOf(vaddr);
      if PlainPath(frames[..], KERNEL, path) {
        PAddrIsResolve(frames[..], KERNEL, path);
      }
      hide PAddrFrom, PlainPath, Resolve;
      paddr := ReadPath(vaddr / 0x80_0000_0000 % 512, vaddr / 0x4000_0000 % 512, vaddr / 0x20_0000 % 512,
        vaddr / 0x1000 % 512);
    }

    /** The four masked reads of `getPAddr`. */
    method ReadPath(a: nat, b: nat, c: nat, d: nat) returns (paddr: nat)
      ensures paddr == PAddrFrom(frames[..], KERNEL * 0x1000, [a, b, c, d])
    {
      PAddrUnfold(frames[..], KERNEL * 0x1000, [a, b, c, d]);
      hide PAddrFrom, WordAt, Masked, Present;
      var entry := ReadWord(KERNEL * 0x1000 + a * 8);
      if !Present(entry) {
        return NULL;
      }
      entry := ReadWord(Masked(entry) + b * 8);
      if !Present(entry) {
        return NULL;
      }
      entry := ReadWord(Masked(entry) + c * 8);
      if !Present(entry) {
        return NULL;
      }
      entry := ReadWord(Masked(entry) + d * 8);
      if !Present(entry) {
        return NULL;
      }
      return Masked(entry);
    }
  }

  /** The last frame of the bitmap is the one that holds the last page's bit. */
  lemma LastBit(pages: nat)
    requires pages > 0
    ensures BitFrame(pages - 1) == LOW_PAGES + BitmapPages(pages) - 1
  {
    var bytes := (pages - 1) / 8 + 1;
    assert pages / 8 + (if pages % 8 != 0 then 1 else 0) == bytes;
    RoundedUp(bytes);
  }

  lemma RoundedUp(bytes: nat)
    requires bytes > 0
    ensures bytes / 0x1000 + (if bytes % 0x1000 != 0 then 1 else 0) == (bytes - 1) / 0x1000 + 1
  {
  }

  lemma EarlierBit(p: nat, q: nat)
    requires p <= q
    ensures LOW_PAGES <= BitFrame(p) <= BitFrame(q)
  {
  }

  /** All that boot leaves behind. */
  lemma BootDone(m: seq<Frame>, s: Space, n: nat)
    requires BootTables(m) && BitmapMapped(m, s.mem, n) && LOW_PAGES + n < |m| && s.tables == BootPlaces()
    requires s.used == Between(LOW_PAGES, LOW_PAGES + n) + Between(0, LOW_PAGES) && s.boot == Between(0, LOW_PAGES + n)
    requires n == BitmapPages(|m|)
    ensures Sound(s) && Booted(s, LOW_PAGES + n) && BitmapReady(m, s.mem, s.boot) && s.used == s.boot
  {
    LastBit(|m|);
    BootedIs(m, s, n);
    InitSound(s, LOW_PAGES + n);
    BootIsUsed(s, LOW_PAGES + n);
    hide Sound, BootTables, Booted, BitmapPages, Between, BitmapReady;
    BitsInPlace(m, s.mem, s.boot, n);
  }

  lemma BootIsUsed(s: Space, n: nat)
    requires Booted(s, n)
    ensures s.used == s.boot
  {
  }

  lemma BitsInPlace(m: seq<Frame>, m2: seq<Frame>, boot: set<nat>, n: nat)
    requires BitmapMapped(m, m2, n) && boot == Between(0, LOW_PAGES + n) && |m| > 0
    requires BitFrame(|m| - 1) == LOW_PAGES + n - 1
    ensures BitmapReady(m, m2, boot)
  {
    hide BitFrame, Between;
    forall p: nat | p < |m| ensures BitInPlace(m2, boot, p) {
      EarlierBit(p, |m| - 1);
    }
  }

  lemma BootIsBig(m: seq<Frame>)
    requires BootTables(m)
    ensures |m| > LOW_PAGES
  {
  }

  lemma ZeroIsUsed(s: Space)
    requires Sound(s)
    ensures forall g: nat :: IsFirstFree(s, g) ==> g > 0
  {
    hide NoLeak, TableOk, EntryOk;
  }

  lemma BuildsSound(s: Space, t: Space, r: nat, low: bool)
    requires Builds(s, t, r, low)
    ensures Sound(t)
  {
  }

  lemma BuildsSame(s: Space, t: Space, r: nat, path: seq<nat>)
    requires Sound(s) && Builds(s, t, r, Low(path)) && IsRoot(s, r) && |path| == 4
    ensures Resolve(t.mem, r, path) == Resolve(s.mem, r, path)
  {
    hide Sound, NoLeak;
  }

  /** When all pages in use are in use since boot, one more of them changes nothing else. */
  lemma ReserveSound(s: Space, page: nat)
    requires Sound(s) && s.used == s.boot
    ensures Sound(s.(used := s.used + {page}, boot := s.boot + {page}))
  {
    hide TableOk, EntryOk, NoLeak;
    var t := s.(used := s.used + {page}, boot := s.boot + {page});
    forall f | f in s.tables ensures TableOk(t, f) { ReserveTable(s, page, f); }
    forall f, i: nat | f in s.tables && i < ENTRIES ensures EntryOk(t, f, i) { ReserveEntry(s, page, f, i); }
    assert NoLeak(t) by { AllSinceBoot(t); }
  }

  lemma AllSinceBoot(t: Space)
    requires t.used == t.boot
    ensures NoLeak(t)
  {
  }

  lemma ReserveTable(s: Space, page: nat, f: nat)
    requires Sound(s) && s.used == s.boot && f in s.tables
    ensures TableOk(s.(used := s.used + {page}, boot := s.boot + {page}), f)
  {
    hide EntryOk, NoLeak;
    assert TableOk(s, f);
  }

  lemma ReserveEntry(s: Space, page: nat, f: nat, i: nat)
    requires Sound(s) && s.used == s.boot && f in s.tables && i < ENTRIES
    ensures EntryOk(s.(used := s.used + {page}, boot := s.boot + {page}), f, i)
  {
    hide NoLeak;
    assert TableOk(s, f) && EntryOk(s, f, i);
  }

  /** Building tables first is part of the same step. */
  lemma MapAfterBuilds(s: Space, u: Space, r: nat, v: nat, o: Outcome, t: Space)
    requires Sound(s) && IsRoot(s, r) && Builds(s, u, r, Low(PathOf(v))) && MapStep(u, r, v, o, t) && o.Done?
    requires Resolve(s.mem, r, PathOf(v)).Some? ==> u == s
    ensures MapStep(s, r, v, o, t)
  {
    hide Sound, Builds, Resolve, Low;
    var path := PathOf(v);
    BuildsSame(s, u, r, path);
    if o.v == NULL {
      if Resolve(s.mem, r, path).None? {
        BuildsTwice(s, u, t, r, Low(path));
      }
    } else {
      var u2, f, g, flags :| Mapped(u, r, path, u2, f, g, flags, t);
      BuildsTwice(s, u, u2, r, Low(path));
      assert Mapped(s, r, path, u2, f, g, flags, t);
    }
  }

  lemma BelowNothing(mem: seq<Frame>, f: nat, d: nat)
    requires f < |mem|
    ensures Below(mem, f, d, 0) == {}
  {
  }

  lemma BelowStep(mem: seq<Frame>, f: nat, d: nat, i: nat)
    requires f < |mem| && d > 0 && i < ENTRIES
    ensures Below(mem, f, d, i + 1) == Below(mem, f, d, i) + BelowEntry(mem, f, d, i)
  {
  }

  lemma FirstFreeIsNotZero(s: Space, r: nat, p: nat)
    requires Sound(s) && IsFirstFree(s, r) && IsFirstFree(s.(used := s.used + {r}), p)
    ensures r != p && r > 0 && p > 0 && CanAddSpace(s, r, p)
  {
    hide NoLeak, TableOk, EntryOk;
  }

  lemma BootFreed(s: Space, f: nat, i: nat)
    requires f < |s.mem| && i < ENTRIES && Target(s.mem[f][i]) in s.boot
    ensures !Sound(WithoutLeaf(s, f, i))
  {
  }

  lemma ScanKeepsRoots(s: Space, o: Outcome, t: Space)
    requires ScanStep(s, o, t)
    ensures forall r :: IsRoot(s, r) ==> IsRoot(t, r)
  {
    hide Sound, NoLeak;
  }

  lemma PAddrUnfold(mem: seq<Frame>, table: nat, path: seq<nat>)
    requires |path| == 4
    ensures var e0 := WordAt(mem, table + path[0] * 8);
      var e1 := WordAt(mem, Masked(e0) + path[1] * 8);
      var e2 := WordAt(mem, Masked(e1) + path[2] * 8);
      var e3 := WordAt(mem, Masked(e2) + path[3] * 8);
      PAddrFrom(mem, table, path) ==
      if Present(e0) && Present(e1) && Present(e2) && Present(e3) then Masked(e3) else NULL
  {
    var e0 := WordAt(mem, table + path[0] * 8);
    var e1 := WordAt(mem, Masked(e0) + path[1] * 8);
    var e2 := WordAt(mem, Masked(e1) + path[2] * 8);
    hide WordAt, Masked, Present;
    assert path[1..][1..] == path[2..] && path[2..][1..] == path[3..] && path[3..] == [path[3]];
    assert PAddrFrom(mem, Masked(e2), path[3..]) ==
           var e3 := WordAt(mem, Masked(e2) + path[3] * 8);
           if Present(e3) then Masked(e3) else NULL;
    assert PAddrFrom(mem, Masked(e1), path[2..]) == if Present(e2) then PAddrFrom(mem, Masked(e2), path[3..]) else NULL;
    assert PAddrFrom(mem, Masked(e0), path[1..]) == if Present(e1) then PAddrFrom(mem, Masked(e1), path[2..]) else NULL;
  }
}
