/**
 * Physical pages and address spaces: the free list of kalloc.c under the page-table code of vm.c.
 */
module Vm {
  import opened Common
  import opened VmSpec

  const PTE_W := 2
  const PTE_U := 4

  function ZeroPage(): Data {
    seq(PGSIZE, i => 0)
  }

  /** The number of pages that sz bytes reach into. */
  function Pages(sz: nat): nat {
    (sz + PGSIZE - 1) / PGSIZE
  }

  /** The frames on the free list and those in use are all the frames, each once. */
  ghost predicate Partition(all: set<nat>, free: seq<nat>, frames: map<nat, Frame>) {
    && 0 !in all
    && (forall i, j | 0 <= i < j < |free| :: free[i] != free[j])
    && (forall f | f in free :: f in all && f !in frames)
    && (forall f | f in frames :: f in all)
    && (forall f | f in all :: f in free || f in frames)
  }

  lemma PushFree(all: set<nat>, free: seq<nat>, frames: map<nat, Frame>, f: nat)
    requires Partition(all, free, frames) && f in frames
    ensures Partition(all, [f] + free, frames - {f})
  {
    var free' := [f] + free;
    assert forall g | g in free' :: g == f || g in free;
    assert forall g | g in free :: g in free';
    assert f == free'[0];
  }

  lemma AddFree(all: set<nat>, free: seq<nat>, frames: map<nat, Frame>, f: nat)
    requires Partition(all, free, frames) && f !in all && f != 0
    ensures Partition(all + {f}, [f] + free, frames)
  {
    var free' := [f] + free;
    assert forall g :: g in free' <==> g == f || g in free;
    assert forall i | 0 < i < |free'| :: free'[i] == free[i - 1] && free[i - 1] in free;
  }

  lemma PopFree(all: set<nat>, free: seq<nat>, frames: map<nat, Frame>, x: Frame)
    requires Partition(all, free, frames) && free != []
    ensures Partition(all, free[1..], frames[free[0] := x]) && free[0] !in frames && free[0] != 0
  {
    assert free[0] in free;
    assert forall g | g in free[1..] :: g in free;
    forall g | g in all
      ensures g in free[1..] || g in frames[free[0] := x]
    {
      if g in free && g != free[0] {
        var k :| 0 <= k < |free| && free[k] == g;
        assert free[1..][k - 1] == g;
      }
    }
    forall g | g in free[1..]
      ensures g != free[0]
    {
      var k :| 0 <= k < |free[1..]| && free[1..][k] == g;
      assert free[k + 1] == g;
    }
  }

  ghost predicate SameFree(free: seq<nat>, free': seq<nat>) {
    forall f :: f in free' <==> f in free
  }

  /** The frames of space d have been added to the free ones. */
  ghost predicate SpaceFreed(free: seq<nat>, free': seq<nat>, m: Mem, d: nat) {
    forall f :: f in free' <==> f in free || (f in m.frames && Belongs(m, f, d))
  }

  /** What is in use determines what is free. */
  lemma FreeDetermined(all: set<nat>, free: seq<nat>, free': seq<nat>, frames: map<nat, Frame>)
    requires Partition(all, free, frames) && Partition(all, free', frames)
    ensures SameFree(free, free')
  {
  }

  lemma FreedFrames(all: set<nat>, free: seq<nat>, free': seq<nat>, m: Mem, m': Mem, d: nat)
    requires Partition(all, free, m.frames) && Partition(all, free', m'.frames) && Without(m, m', d)
    ensures SpaceFreed(free, free', m, d)
  {
    forall f
      ensures f in free' <==> f in free || (f in m.frames && Belongs(m, f, d))
    {
      assert f in m'.frames <==> Rest(m, f, d);
    }
  }

  // ------------------------------------------------------------------ what an operation costs

  /** Table number i serves some page from lo to hi. */
  predicate Serves(i: nat, lo: nat, hi: nat) {
    lo < hi && lo / NPTENTRIES <= i <= (hi - 1) / NPTENTRIES
  }

  function Span(lo: nat, hi: nat): set<nat> {
    set i: nat | i < NPDENTRIES && Serves(i, lo, hi)
  }

  /** The tables of the set that space d does not have yet. */
  function Lacking(m: Mem, d: nat, tables: set<nat>): set<nat>
    requires IsDir(m, d)
  {
    set i | i in tables && i < NPDENTRIES && m.frames[d].pdes[i] == NoTable
  }

  /** The frames a new table for page v takes. */
  function TableCost(m: Mem, d: nat, v: nat): nat
    requires IsDir(m, d) && v < NPAGES
  {
    if TableFor(m, d, v) == NoTable then 1 else 0
  }

  /** Page v has a table, and no other table is new. */
  predicate OnlyTable(m: Mem, m': Mem, d: nat, v: nat) {
    && IsDir(m, d) && IsDir(m', d) && v < NPAGES && TableFor(m', d, v).ToTable?
    && m'.frames[d].pdes == m.frames[d].pdes[Pdx(v) := TableFor(m', d, v)]
  }

  /** The frames that growing from page lo to page hi takes: the pages, and the tables that are missing. */
  function GrowthCost(m: Mem, d: nat, lo: nat, hi: nat): int
    requires IsDir(m, d)
  {
    hi - lo + |Lacking(m, d, Span(lo, hi))|
  }

  lemma LackingStep(m: Mem, m': Mem, d: nat, v: nat, tables: set<nat>)
    requires OnlyTable(m, m', d, v) && Pdx(v) in tables
    ensures |Lacking(m', d, tables)| == |Lacking(m, d, tables)| - TableCost(m, d, v)
  {
    if TableFor(m, d, v) == NoTable {
      assert Lacking(m', d, tables) == Lacking(m, d, tables) - {Pdx(v)};
    } else {
      assert Lacking(m', d, tables) == Lacking(m, d, tables);
    }
  }

  lemma LackingSome(m: Mem, d: nat, v: nat, tables: set<nat>)
    requires IsDir(m, d) && v < NPAGES && Pdx(v) in tables
    ensures |Lacking(m, d, tables)| >= TableCost(m, d, v)
  {
    if TableFor(m, d, v) == NoTable {
      assert Pdx(v) in Lacking(m, d, tables);
    }
  }

  lemma InSpan(v: nat, lo: nat, hi: nat)
    requires lo <= v < hi <= NPAGES
    ensures Pdx(v) in Span(lo, hi)
  {
  }

  datatype MapOutcome = Done | NoMemory | Remap

  class PhysMem {
    ghost var all: set<nat>
    var freelist: seq<nat>
    var frames: map<nat, Frame>
    ghost var owner: map<nat, Owner>

    ghost function M(): Mem
      reads this
    {
      Mem(frames, owner)
    }

    ghost predicate Parts()
      reads this
    {
      Partition(all, freelist, frames)
    }

    ghost predicate Valid()
      reads this
    {
      Parts() && Inv(M())
    }

    /** kinit1 starts with an empty free list. */
    constructor ()
      ensures Valid() && all == {} && freelist == [] && frames == map[]
    {
      all := {};
      freelist := [];
      frames := map[];
      owner := map[];
    }

    /** freerange, which kinit1 and kinit2 call: every whole page of the range goes on the free list. */
    method FreeRange(vstart: nat, vend: nat, ghost range: set<nat>)
      requires Valid() && 0 < vstart && range !! all && forall f :: f in range <==> Pages(vstart) <= f < vend / PGSIZE
      modifies this
      ensures Valid() && M() == old(M()) && all == old(all) + range
      ensures forall f :: f in freelist <==> f in old(freelist) || f in range
    {
      var p := Pages(vstart) * PGSIZE;
      ghost var k := Pages(vstart);
      ghost var done: set<nat> := {};
      while p + PGSIZE <= vend
        invariant p == k * PGSIZE && k >= Pages(vstart) && (k == Pages(vstart) || k <= vend / PGSIZE)
        invariant frames == old(frames) && owner == old(owner) && all == old(all) + done
        invariant forall f :: f in done <==> Pages(vstart) <= f < k
        invariant Partition(all, freelist, frames)
        invariant forall f :: f in freelist <==> f in old(freelist) || f in done
      {
        AddFree(all, freelist, frames, p / PGSIZE);
        freelist := [p / PGSIZE] + freelist;
        all := all + {k};
        done := done + {k};
        p := p + PGSIZE;
        k := k + 1;
      }
      assert done == range;
    }

    /** kalloc: the first free frame, with whatever is in it, or 0 when none is free. */
    method KAlloc() returns (f: nat)
      requires Valid()
      modifies this`freelist, this`frames, this`owner
      ensures Valid() && (f == 0 <==> old(freelist) == [])
      ensures f == 0 ==> M() == old(M()) && freelist == old(freelist)
      ensures f != 0 ==> f !in old(frames) && f in frames && frames[f].Page? && freelist == old(freelist)[1..]
      ensures f != 0 ==> M() == Take(old(M()), f, frames[f].data)
    {
      if freelist == [] {
        return 0;
      }
      f := freelist[0];
      var junk: Data := *;
      PopFree(all, freelist, frames, Page(junk));
      TakeInv(M(), f, junk);
      hide Inv, Partition;
      freelist := freelist[1..];
      frames := frames[f := Page(junk)];
      owner := owner[f := Loose];
    }

    /** kfree: the frame goes to the front of the free list. */
    method KFree(f: nat)
      requires Parts() && f in frames
      modifies this`freelist, this`frames, this`owner
      ensures Parts() && M() == Drop(old(M()), f) && freelist == [f] + old(freelist)
    {
      PushFree(all, freelist, frames, f);
      hide Partition;
      freelist := [f] + freelist;
      frames := frames - {f};
      owner := owner - {f};
    }

    /** kfree of a frame that belongs to no space. */
    method FreeLoose(f: nat)
      requires Valid() && IsLoose(M(), f)
      modifies this`freelist, this`frames, this`owner
      ensures Valid() && M() == Drop(old(M()), f)
    {
      DropInv(M(), f);
      hide Inv;
      KFree(f);
    }

    /** walkpgdir: the table that serves the page, made if it is missing and alloc is set. */
    method Walk(d: nat, v: nat, alloc: bool) returns (t: nat)
      requires Valid() && IsDir(M(), d) && v < NPAGES
      modifies this`freelist, this`frames, this`owner
      ensures Valid() && SameRest(old(M()), M(), d, {}) && SameView(old(M()), M(), d, 0, 0)
      ensures t != 0 ==> TableFor(M(), d, v) == ToTable(t) && IsTable(M(), t)
      ensures t != 0 ==> OnlyTable(old(M()), M(), d, v) && |freelist| == |old(freelist)| - TableCost(old(M()), d, v)
      ensures t == 0 ==> M() == old(M()) && TableFor(M(), d, v) == NoTable && (alloc ==> old(freelist) == [] == freelist)
      ensures !alloc || TableFor(old(M()), d, v).ToTable? ==> M() == old(M()) && freelist == old(freelist)
      ensures old(frames).Keys <= frames.Keys
    {
      LookupOk(M(), d, v);
      SameRestSelf(M(), d);
      var e := frames[d].pdes[Pdx(v)];
      if e.ToTable? {
        NonZero(all, freelist, frames, e.t);
        return e.t;
      }
      hide Inv, Partition, SameRest, SameView, Lookup;
      if alloc {
        t := NewTable(d, v);
      } else {
        t := 0;
      }
    }

    /** walkpgdir's allocation of a table. */
    method NewTable(d: nat, v: nat) returns (t: nat)
      requires Valid() && IsDir(M(), d) && v < NPAGES && TableFor(M(), d, v) == NoTable
      modifies this`freelist, this`frames, this`owner
      ensures Valid() && (t == 0 ==> M() == old(M()) && freelist == [])
      ensures t != 0 ==> OnlyTable(old(M()), M(), d, v) && TableFor(M(), d, v) == ToTable(t) && IsTable(M(), t)
      ensures t != 0 ==> |freelist| == |old(freelist)| - 1
      ensures t == 0 ==> old(freelist) == []
      ensures t != 0 ==> SameRest(old(M()), M(), d, {}) && SameView(old(M()), M(), d, 0, 0)
      ensures old(frames).Keys <= frames.Keys
    {
      ghost var m0 := M();
      t := KAlloc();
      if t == 0 {
        return;
      }
      NewTableSame(m0, d, Pdx(v), t, frames[t].data);
      ghost var m2 := AddTable(M(), d, Pdx(v), t);
      TakeTable(all, freelist, frames, m2.frames);
      hide Inv, Partition, SameRest, SameView, EmptyTable;
      frames := frames[t := Table(EmptyTable())];
      frames := frames[d := Dir(frames[d].pdes[Pdx(v) := ToTable(t)])];
      owner := owner[t := TableOf(d, Pdx(v))];
    }

    /** mappages on one user page: the page is mapped to frame f, unless it is mapped already or there is no memory for a table. */
    method MapUser(d: nat, v: nat, f: nat, flags: nat) returns (r: MapOutcome)
      requires Valid() && IsDir(M(), d) && v < KERNEL * NPTENTRIES && IsLoose(M(), f)
      modifies this`freelist, this`frames, this`owner
      ensures Valid() && IsDir(M(), d)
      ensures r == Remap <==> ViewAt(old(M()), d, v) != Hole
      ensures r == NoMemory ==> SameRest(old(M()), M(), d, {}) && SameView(old(M()), M(), d, 0, 0)
      ensures r == NoMemory ==> |old(freelist)| < TableCost(old(M()), d, v)
      ensures r == Done ==> OnlyTable(old(M()), M(), d, v) && |freelist| == |old(freelist)| - TableCost(old(M()), d, v)
      ensures r == Done ==> SameRest(old(M()), M(), d, {f}) && Belongs(M(), f, d) && SameView(old(M()), M(), d, v, v + 1)
      ensures r == Done ==> ViewAt(M(), d, v) == Shows(Present(f, flags), old(frames)[f].data)
      ensures old(frames).Keys <= frames.Keys
    {
      hide Inv, Partition, SameRest, SameView, ViewAt, Lookup, Belongs;
      ghost var m0 := M();
      var t := Walk(d, v, true);
      if t == 0 {
        NoTableHole(m0, d, v);
        return NoMemory;
      }
      ghost var m1 := M();
      EntryAt(m1, d, v, t);
      SameViewAt(m0, m1, d, v);
      if frames[t].ptes[Ptx(v)].Present? {
        return Remap;
      }
      LooseStays(m0, m1, d, f);
      MapSame(m0, m1, d, v, t, f, flags);
      ghost var m2 := MapPage(m1, t, Ptx(v), f, flags);
      TakeTable(all, freelist, frames, m2.frames);
      frames := frames[t := Table(frames[t].ptes[Ptx(v) := Present(f, flags)])];
      owner := owner[f := PageOf(t, Ptx(v))];
      return Done;
    }

    /** The body of deallocuvm's loop: the page is unmapped and its frame freed; without a table there is nothing to do. */
    method DeallocPage(d: nat, v: nat) returns (skip: bool)
      requires Valid() && IsDir(M(), d) && v < KERNEL * NPTENTRIES
      modifies this`freelist, this`frames, this`owner
      ensures Valid() && IsDir(M(), d) && SameRest(old(M()), M(), d, {})
      ensures skip ==> M() == old(M()) && TableFor(M(), d, v) == NoTable
      ensures SameView(old(M()), M(), d, v, v + 1) && ViewAt(M(), d, v) == Hole
    {
      hide Inv, Partition, SameRest, SameView, ViewAt, Lookup;
      var t := Walk(d, v, false);
      if t == 0 {
        NoTableHole(M(), d, v);
        return true;
      }
      ghost var m := M();
      SameRestSelf(m, d);
      EntryAt(m, d, v, t);
      var e := frames[t].ptes[Ptx(v)];
      if e.Present? {
        UnmapInv(m, t, Ptx(v), e.frame);
        UnmapSame(m, d, v, t, e.frame);
        EntryFrames(m, t, Ptx(v), e.frame);
        KFree(e.frame);
        TakeTable(all, freelist, frames, frames[t := Table(frames[t].ptes[Ptx(v) := Absent])]);
        frames := frames[t := Table(frames[t].ptes[Ptx(v) := Absent])];
      }
      return false;
    }

    /** deallocuvm: exactly the pages from newsz to oldsz are unmapped, though whole missing tables are skipped. */
    method DeallocUvm(d: nat, oldsz: nat, newsz: nat) returns (r: nat)
      requires Valid() && IsDir(M(), d) && oldsz <= KERNBASE
      modifies this`freelist, this`frames, this`owner
      ensures Valid() && IsDir(M(), d) && SameRest(old(M()), M(), d, {})
      ensures newsz >= oldsz ==> r == oldsz && M() == old(M())
      ensures newsz < oldsz ==> r == newsz && SameView(old(M()), M(), d, Pages(newsz), Pages(oldsz))
      ensures newsz < oldsz ==> Holes(M(), d, Pages(newsz), Pages(oldsz))
    {
      hide Inv, Partition, SameRest, SameView, ViewAt, Pages, Pdx, U32, NextTableAddress;
      ghost var m0 := M();
      SameRestSelf(m0, d);
      if newsz >= oldsz {
        return oldsz;
      }
      PagesBound(newsz, oldsz);
      ghost var lo, hi := Pages(newsz), Pages(oldsz);
      ghost var v: nat := lo;
      RemovedNone(m0, d, lo, hi);
      var a := Pages(newsz) * PGSIZE;
      while a < oldsz
        invariant Valid() && Removed(m0, M(), d, lo, v, hi) && a == v * PGSIZE
        decreases hi - v
      {
        PageOfAddress(a, v, oldsz);
        NextAddress(a, v);
        ghost var m := M();
        var skip := DeallocPage(d, a / PGSIZE);
        if skip {
          SkipTable(m0, M(), d, lo, v, hi);
          a := U32(NextTableAddress(a) - PGSIZE);
          v := (Pdx(v) + 1) * NPTENTRIES - 1;
        } else {
          RemovedStep(m0, m, M(), d, lo, v, hi);
        }
        a := U32(a + PGSIZE);
        v := v + 1;
      }
      PageOfAddress(a, v, oldsz);
      return newsz;
    }

    /** freevm's loop over the directory: every table of the space is freed. */
    method FreeTables(d: nat)
      requires Valid() && IsDir(M(), d)
      modifies this`freelist, this`frames, this`owner
      ensures Parts() && TablesFreed(old(M()), M(), d, NPDENTRIES)
    {
      hide Partition, TablesFreed, Inv;
      ghost var m := M();
      NoTableFreed(m, d);
      var i := 0;
      while i < NPDENTRIES
        invariant 0 <= i <= NPDENTRIES && Parts() && TablesFreed(m, M(), d, i)
      {
        ghost var m1 := M();
        NextTable(m, m1, d, i);
        var e := frames[d].pdes[i];
        if e.ToTable? {
          KFree(e.t);
        }
        OneTableFreed(m, m1, M(), d, i);
        i := i + 1;
      }
    }

    /** freevm: exactly the frames of the space are freed, its directory, its tables and its user pages. */
    method FreeVm(d: nat)
      requires Valid() && IsDir(M(), d)
      modifies this`freelist, this`frames, this`owner
      ensures Valid() && Without(old(M()), M(), d)
      ensures SpaceFreed(old(freelist), freelist, old(M()), d)
    {
      hide Inv, Partition, SameRest, Without, Holes, SpaceFreed;
      ghost var m0 := M();
      var r := DeallocUvm(d, KERNBASE, 0);
      ghost var m1 := M();
      assert Pages(0) == 0 && Pages(KERNBASE) == KERNEL * NPTENTRIES;
      FreeTables(d);
      KFree(d);
      AllFreed(m1, M(), d);
      WithoutInv(m1, M(), d);
      WithoutSame(m0, m1, M(), d);
      FreedFrames(all, old(freelist), freelist, m0, M(), d);
    }

    /** mappages on one kernel page. */
    method MapKernel(d: nat, v: nat, e: Pte) returns (ok: bool)
      requires Valid() && IsDir(M(), d) && KERNEL * NPTENTRIES <= v < NPAGES && ViewAt(M(), d, v) == Hole && e.Present?
      modifies this`freelist, this`frames, this`owner
      ensures Valid() && IsDir(M(), d) && SameRest(old(M()), M(), d, {})
      ensures SameView(old(M()), M(), d, v, v + 1) && (ok ==> ViewAt(M(), d, v) == Shows(e, []))
      ensures !ok ==> |old(freelist)| < TableCost(old(M()), d, v) && M() == old(M())
      ensures ok ==> OnlyTable(old(M()), M(), d, v) && |freelist| == |old(freelist)| - TableCost(old(M()), d, v)
    {
      hide Inv, Partition, SameRest, SameView, ViewAt, Lookup;
      ghost var m0 := M();
      var t := Walk(d, v, true);
      if t == 0 {
        SameViewMore(m0, M(), d, v, v + 1);
        return false;
      }
      ghost var m1 := M();
      KernelSame(m0, m1, d, v, t, e);
      TakeTable(all, freelist, frames, SetPte(m1, t, Ptx(v), e).frames);
      frames := frames[t := Table(frames[t].ptes[Ptx(v) := e])];
      return true;
    }

    /** mappages on a range of the kernel's map; it fails only for want of frames for tables. */
    method MapRange(d: nat, k: Range, ghost tables: set<nat>) returns (ok: bool)
      requires Valid() && IsDir(M(), d) && GoodRange(k) && Holes(M(), d, k.virt, k.virt + k.pages)
      requires forall v: nat | InRange(k, v) && v < NPAGES :: Pdx(v) in tables
      modifies this`freelist, this`frames, this`owner
      ensures Valid() && IsDir(M(), d) && SameRest(old(M()), M(), d, {}) && SameView(old(M()), M(), d, k.virt, k.virt + k.pages)
      ensures ok ==> forall v | k.virt <= v < k.virt + k.pages :: 0 <= v < NPAGES && ViewAt(M(), d, v) == RangeView(k, v)
      ensures SameUserTables(old(M()), M(), d)
      ensures ok ==> |freelist| - |Lacking(M(), d, tables)| == |old(freelist)| - |Lacking(old(M()), d, tables)|
      ensures !ok ==> |old(freelist)| < |Lacking(old(M()), d, tables)|
    {
      hide Inv, Partition, SameRest, SameView, ViewAt, Lookup, Lacking, OnlyTable, TableCost;
      ghost var m0 := M();
      RangeNone(m0, d, k);
      var n := 0;
      while n < k.pages
        invariant 0 <= n <= k.pages && Valid() && RangeMapped(m0, M(), d, k, n) && SameUserTables(m0, M(), d)
        invariant |freelist| - |Lacking(M(), d, tables)| == |old(freelist)| - |Lacking(m0, d, tables)|
      {
        ghost var m := M();
        assert InRange(k, k.virt + n);
        LackingSome(m, d, k.virt + n, tables);
        ok := MapKernel(d, k.virt + n, Present(k.phys + n, k.perm));
        RangeStep(m0, m, M(), d, k, n, ok);
        if !ok {
          return false;
        }
        LackingStep(m, M(), d, k.virt + n, tables);
        KernelTableOnly(m, M(), d, k.virt + n);
        n := n + 1;
      }
      RangeDone(m0, M(), d, k);
      return true;
    }

    /**
     * setupkvm: a fresh space that maps exactly the kernel, or nothing at all is different; it succeeds
     * exactly when there are frames for the directory and the kernel's tables.
     */
    method SetupKvm() returns (d: nat)
      requires Valid()
      modifies this`freelist, this`frames, this`owner
      ensures Valid() && (d == 0 ==> M() == old(M()) && SameFree(old(freelist), freelist))
      ensures d != 0 ==> d !in old(frames) && IsDir(M(), d) && SameRest(old(M()), M(), d, {}) && KernelOnly(M(), d, |Kmap()|)
      ensures d != 0 ==> NoUserTables(M(), d)
      ensures d != 0 <==> |old(freelist)| >= 1 + |KernelTables()|
      ensures d != 0 ==> |freelist| == |old(freelist)| - 1 - |KernelTables()|
    {
      hide Inv, Partition, SameRest, SameView, ViewAt, Lookup, Without, KernelOnly, SpaceFreed, Lacking;
      ghost var m0 := M();
      d := KAlloc();
      if d == 0 {
        return;
      }
      NewSpace(m0, d, frames[d].data, all, freelist);
      frames := frames[d := Dir(EmptyDir())];
      owner := owner[d := Root];
      var k := 0;
      while k < |Kmap()|
        invariant 0 <= k <= |Kmap()| && Valid() && IsDir(M(), d) && SameRest(m0, M(), d, {}) && KernelOnly(M(), d, k)
        invariant NoUserTables(M(), d)
        invariant |freelist| - |Lacking(M(), d, KernelTables())| == |old(freelist)| - 1 - |KernelTables()|
      {
        ghost var m := M();
        KmapHoles(m, d, k);
        KmapTables(k);
        var ok := MapRange(d, Kmap()[k], KernelTables());
        SameRestStep(m0, m, M(), d);
        if !ok {
          ghost var m1 := M();
          FreeVm(d);
          BuiltAndFreed(m0, m1, M(), d);
          FreeDetermined(all, old(freelist), freelist, frames);
          return 0;
        }
        KmapStep(m, M(), d, k);
        k := k + 1;
      }
      NoneLacking(M(), d);
    }

    /** A fresh frame with the given contents is mapped at page v; without success the frame, if any, is still loose. */
    method AddPage(d: nat, v: nat, data: Data, flags: nat) returns (f: nat, r: MapOutcome)
      requires Valid() && IsDir(M(), d) && v < KERNEL * NPTENTRIES
      modifies this`freelist, this`frames, this`owner
      ensures Valid() && IsDir(M(), d) && f !in old(frames) && (r == Done ==> f != 0) && old(frames).Keys <= frames.Keys
      ensures r == Remap <==> ViewAt(old(M()), d, v) != Hole && old(freelist) != []
      ensures r == Done ==> SameRest(old(M()), M(), d, {}) && SameView(old(M()), M(), d, v, v + 1)
      ensures r == Done ==> ViewAt(M(), d, v) == Shows(Present(f, flags), data)
      ensures r == NoMemory ==> |old(freelist)| < 1 + TableCost(old(M()), d, v)
      ensures r == Done ==> OnlyTable(old(M()), M(), d, v) && |freelist| == |old(freelist)| - 1 - TableCost(old(M()), d, v)
      ensures r == NoMemory && f == 0 ==> M() == old(M())
      ensures r == NoMemory && f != 0 ==> SameRest(old(M()), M(), d, {f}) && SameView(old(M()), M(), d, 0, 0) && IsLoose(M(), f)
    {
      hide Inv, Partition, SameRest, SameView, ViewAt, Lookup, Belongs;
      ghost var m0 := M();
      NoFrameZero(all, freelist, frames);
      f := KAlloc();
      if f == 0 {
        return f, NoMemory;
      }
      Filled(m0, d, f, frames[f].data, data, all, freelist);
      frames := frames[f := Page(data)];
      ghost var m1 := M();
      SameViewAt(m0, m1, d, v);
      r := MapUser(d, v, f, flags);
      if r != Remap {
        AddedPage(m0, m1, M(), d, v, f, r == Done);
      }
    }

    /**
     * allocuvm.  It panics exactly when a page on the way is mapped already and there are frames to get there.  Otherwise
     * the new pages show zeroed frames that were free, or no mapping is different, and it succeeds exactly when there
     * are frames for the pages and the tables that are missing.
     */
    method AllocUvm(d: nat, oldsz: nat, newsz: nat) returns (r: nat, panicked: bool)
      requires Valid() && IsDir(M(), d)
      modifies this`freelist, this`frames, this`owner
      ensures Valid() && IsDir(M(), d) && (!panicked ==> SameRest(old(M()), M(), d, {}))
      ensures newsz >= KERNBASE ==> r == 0 && M() == old(M()) && !panicked
      ensures newsz < KERNBASE && newsz < oldsz ==> r == oldsz && M() == old(M()) && !panicked
      ensures oldsz <= newsz < KERNBASE ==>
                var lo, hi := Pages(oldsz), Pages(newsz);
                var stop := FirstMapped(old(M()), d, lo, hi);
                && (panicked <==> stop < hi && |old(freelist)| > GrowthCost(old(M()), d, lo, stop))
                && (!panicked && stop < hi ==> r == 0 && SameView(old(M()), M(), d, lo, hi) && Holes(M(), d, lo, hi))
                && (stop >= hi ==> r == 0 || r == newsz)
                && (stop >= hi && r == newsz && newsz != 0 ==> Grown(old(M()), M(), d, lo, hi, hi))
                && (stop >= hi && r == 0 ==> SameView(old(M()), M(), d, 0, 0))
                && (stop >= hi && newsz != 0 ==> (r == newsz <==> |old(freelist)| >= GrowthCost(old(M()), d, lo, hi)))
    {
      hide Inv, Partition, SameRest, SameView, ViewAt, Lookup, Pages, Grown, Holes, Lacking, OnlyTable, TableCost, Span;
      ghost var m0 := M();
      SameRestSelf(m0, d);
      if newsz >= KERNBASE {
        return 0, false;
      }
      if newsz < oldsz {
        return oldsz, false;
      }
      PagesWithin(oldsz, newsz);
      ghost var lo, hi := Pages(oldsz), Pages(newsz);
      ghost var stop := FirstMapped(m0, d, lo, hi);
      FirstMappedIs(m0, d, lo, hi);
      hide FirstMapped;
      GrownNone(m0, d, lo, stop);
      var a := Pages(oldsz) * PGSIZE;
      ghost var v: nat := lo;
      while a < newsz
        invariant Valid() && IsDir(M(), d) && a == v * PGSIZE && lo <= v <= stop && Grown(m0, M(), d, lo, v, stop)
        invariant |freelist| - |Lacking(M(), d, Span(lo, stop))| - (stop - v) == |old(freelist)| - GrowthCost(m0, d, lo, stop)
      {
        PageOfAddress(a, v, newsz);
        ghost var m := M();
        GrownAt(m0, m, d, lo, v, stop, hi);
        if v < stop {
          InSpan(v, lo, stop);
          LackingSome(m, d, v, Span(lo, stop));
        } else {
          GrownServed(m0, m, d, lo, stop);
        }
        var f, added := AddPage(d, a / PGSIZE, ZeroPage(), PTE_W + PTE_U);
        if added == Remap {
          return 0, true;
        }
        if added == NoMemory {
          ghost var m1 := M();
          var n := DeallocUvm(d, newsz, oldsz);
          ghost var m2 := M();
          if f != 0 {
            LooseStays(m1, m2, d, f);
            FreeLoose(f);
          }
          Undone(m0, m, m1, m2, M(), d, lo, v, stop, hi, f);
          return 0, false;
        }
        GrownStep(m0, m, M(), d, lo, v, stop, f);
        LackingStep(m, M(), d, v, Span(lo, stop));
        a := a + PGSIZE;
        v := v + 1;
      }
      PageOfAddress(a, v, newsz);
      GrownAll(m0, M(), d, lo, v, hi);
      GrownServed(m0, M(), d, lo, hi);
      return newsz, false;
    }

    /**
     * copyuvm.  It panics exactly when a page below sz is not there and there are frames to get to it.  Otherwise the
     * new space shows what the old one did below sz, in frames that were free, or nothing is different, and it succeeds
     * exactly when there are frames for the directory, the tables and the pages.
     */
    method CopyUvm(d: nat, sz: nat) returns (d': nat, panicked: bool)
      requires Valid() && IsDir(M(), d) && sz <= KERNBASE
      modifies this`freelist, this`frames, this`owner
      ensures Valid() && (d' == 0 && !panicked ==> M() == old(M()) && SameFree(old(freelist), freelist))
      ensures d' != 0 ==> d' !in old(frames) && SameRest(old(M()), M(), d', {}) && Copied(old(M()), M(), d, d', Pages(sz))
      ensures var gap := FirstGap(old(M()), d, 0, Pages(sz));
              && (panicked <==> gap < Pages(sz) && |old(freelist)| >= CopyCost(gap))
              && (d' != 0 <==> gap >= Pages(sz) && |old(freelist)| >= CopyCost(Pages(sz)))
    {
      hide Inv, Partition, SameRest, SameView, ViewAt, Lookup, Pages, Without, Copied, KernelOnly;
      hide SpaceFreed, SameFree, Lacking, OnlyTable, TableCost, Span, KernelTables, NoUserTables;
      ghost var m0 := M();
      PagesUpTo(sz);
      ghost var gap := FirstGap(m0, d, 0, Pages(sz));
      FirstGapIs(m0, d, 0, Pages(sz));
      hide FirstGap;
      d' := SetupKvm();
      if d' == 0 {
        return 0, false;
      }
      CopiedNone(m0, M(), d, d');
      AllLacking(M(), d', gap);
      var a := 0;
      ghost var v: nat := 0;
      while a < sz
        invariant Valid() && IsDir(M(), d') && a == v * PGSIZE && v <= gap
        invariant SameRest(m0, M(), d', {}) && Copied(m0, M(), d, d', v)
        invariant |freelist| - |Lacking(M(), d', Span(0, gap))| - (gap - v) == |old(freelist)| - CopyCost(gap)
      {
        PageOfAddress(a, v, sz);
        ghost var m := M();
        SourceEntry(m0, m, d, d', v);
        if v == gap {
          CopiedServed(m0, m, d, d', gap);
        }
        var t := Walk(d, a / PGSIZE, false);
        if t == 0 || frames[t].ptes[Ptx(a / PGSIZE)] == Absent {
          return 0, true;
        }
        InSpan(v, 0, gap);
        LackingSome(m, d', v, Span(0, gap));
        var e := frames[t].ptes[Ptx(a / PGSIZE)];
        var f, added := AddPage(d', a / PGSIZE, frames[e.frame].data, e.flags);
        if added != Done {
          ghost var m1 := M();
          if f != 0 {
            FreeLoose(f);
          }
          LooseDropped(m0, m, m1, M(), d', f);
          ghost var m2 := M();
          FreeVm(d');
          BuiltAndFreed(m0, m2, M(), d');
          FreeDetermined(all, old(freelist), freelist, frames);
          return 0, false;
        }
        CopiedStep(m0, m, M(), d, d', v, f);
        LackingStep(m, M(), d', v, Span(0, gap));
        a := a + PGSIZE;
        v := v + 1;
      }
      PageOfAddress(a, v, sz);
      CopiedServed(m0, M(), d, d', gap);
      return d', false;
    }
  }

  /** The first page from lo to hi that is mapped, or hi. */
  ghost function FirstMapped(m: Mem, d: nat, lo: nat, hi: nat): nat
    requires IsDir(m, d)
    decreases hi - lo
  {
    if lo < hi && lo < NPAGES && ViewAt(m, d, lo) == Hole then FirstMapped(m, d, lo + 1, hi) else if lo < hi then lo else hi
  }

  lemma {:induction false} FirstMappedIs(m: Mem, d: nat, lo: nat, hi: nat)
    requires IsDir(m, d) && lo <= hi <= NPAGES
    ensures var stop := FirstMapped(m, d, lo, hi);
            lo <= stop <= hi && Holes(m, d, lo, stop) && (stop < hi ==> ViewAt(m, d, stop) != Hole)
    decreases hi - lo
  {
    if lo < hi && ViewAt(m, d, lo) == Hole {
      FirstMappedIs(m, d, lo + 1, hi);
    }
  }

  /** The first page from lo to hi that is not mapped, or hi. */
  ghost function FirstGap(m: Mem, d: nat, lo: nat, hi: nat): nat
    requires IsDir(m, d)
    decreases hi - lo
  {
    if lo < hi && lo < NPAGES && ViewAt(m, d, lo) != Hole then FirstGap(m, d, lo + 1, hi) else if lo < hi then lo else hi
  }

  lemma {:induction false} FirstGapIs(m: Mem, d: nat, lo: nat, hi: nat)
    requires IsDir(m, d) && lo <= hi <= NPAGES
    ensures var gap := FirstGap(m, d, lo, hi);
            && lo <= gap <= hi && (gap < hi ==> ViewAt(m, d, gap) == Hole)
            && forall v | lo <= v < gap && 0 <= v < NPAGES :: ViewAt(m, d, v) != Hole
    decreases hi - lo
  {
    if lo < hi && ViewAt(m, d, lo) != Hole {
      FirstGapIs(m, d, lo + 1, hi);
    }
  }

  /** The frames that copying n pages takes: a directory, the kernel's tables, the pages and their tables. */
  function CopyCost(n: nat): nat {
    1 + |KernelTables()| + n + |Span(0, n)|
  }

  /** The first n pages of d' show what those of d did, in frames not in use then; its other pages are as in a new space. */
  ghost predicate Copied(m0: Mem, m: Mem, d: nat, d': nat, n: nat) {
    && IsDir(m0, d) && IsDir(m, d')
    && (forall v | 0 <= v < n && v < NPAGES :: CopiedPage(m0, m, d, d', v))
    && (forall v | n <= v < NPAGES :: ViewAt(m, d', v) == KmapView(|Kmap()|, v))
  }

  ghost predicate CopiedPage(m0: Mem, m: Mem, d: nat, d': nat, v: nat)
    requires IsDir(m0, d) && IsDir(m, d') && v < NPAGES
  {
    var w, w' := ViewAt(m0, d, v), ViewAt(m, d', v);
    && w.Shows? && w.pte.Present? && w'.Shows? && w'.pte.Present?
    && w'.pte.flags == w.pte.flags && w'.data == w.data && w'.pte.frame !in m0.frames
  }

  lemma PagesUpTo(sz: nat)
    requires sz <= KERNBASE
    ensures Pages(sz) <= KERNEL * NPTENTRIES
  {
  }

  lemma AllLacking(m: Mem, d: nat, n: nat)
    requires NoUserTables(m, d) && n <= KERNEL * NPTENTRIES
    ensures Lacking(m, d, Span(0, n)) == Span(0, n)
  {
  }

  lemma CopiedServed(m0: Mem, m: Mem, d: nat, d': nat, n: nat)
    requires Copied(m0, m, d, d', n) && n <= KERNEL * NPTENTRIES
    ensures Lacking(m, d', Span(0, n)) == {}
  {
    forall i | i in Span(0, n)
      ensures m.frames[d'].pdes[i] != NoTable
    {
      var v := i * NPTENTRIES;
      assert Pdx(v) == i;
      assert CopiedPage(m0, m, d, d', v);
    }
  }

  /** The user half of n pages takes one table for every 1024 of them, or part of 1024. */
  lemma UserTables(n: nat)
    requires n <= KERNEL * NPTENTRIES
    ensures |Span(0, n)| == (n + NPTENTRIES - 1) / NPTENTRIES
  {
    SpanSize(0, (n + NPTENTRIES - 1) / NPTENTRIES, Span(0, n));
  }

  lemma CopiedNone(m0: Mem, m: Mem, d: nat, d': nat)
    requires IsDir(m0, d) && KernelOnly(m, d', |Kmap()|)
    ensures Copied(m0, m, d, d', 0)
  {
  }

  /** The kernel's map says nothing about user pages. */
  lemma {:induction false} KmapUser(n: nat, v: nat)
    requires n <= |Kmap()| && v < KERNEL * NPTENTRIES
    ensures KmapView(n, v) == Hole
  {
    if n > 0 {
      KmapUser(n - 1, v);
    }
  }

  /** While the copy is made the old space is untouched: the entry found is the one there was. */
  lemma SourceEntry(m0: Mem, m: Mem, d: nat, d': nat, v: nat)
    requires Inv(m0) && Inv(m) && d' !in m0.frames && SameRest(m0, m, d', {}) && IsDir(m0, d) && v < KERNEL * NPTENTRIES
    requires Copied(m0, m, d, d', v)
    ensures IsDir(m, d) && ViewAt(m, d', v) == Hole
    ensures TableFor(m, d, v).ToTable? ==> IsTable(m, TableFor(m, d, v).t)
    ensures ViewAt(m0, d, v) == Hole <==>
              TableFor(m, d, v) == NoTable || m.frames[TableFor(m, d, v).t].ptes[Ptx(v)] == Absent
    ensures ViewAt(m0, d, v) != Hole ==>
              var e := m.frames[TableFor(m, d, v).t].ptes[Ptx(v)];
              e.frame in m.frames && m.frames[e.frame].Page? && ViewAt(m0, d, v) == Shows(e, m.frames[e.frame].data)
  {
    OtherSpaces(m0, m, d', d, v);
    KmapUser(|Kmap()|, v);
    LookupOk(m, d, v);
    PageNumber(v, v);
  }

  /** A frame taken and given back leaves no trace. */
  lemma LooseDropped(m0: Mem, m: Mem, m1: Mem, m2: Mem, d: nat, f: nat)
    requires SameRest(m0, m, d, {}) && f !in m.frames && d !in m0.frames && Inv(m0)
    requires if f == 0 then m2 == m1 == m
             else SameRest(m, m1, d, {f}) && m2 == Drop(m1, f) && Inv(m1) && IsDir(m1, d) && IsLoose(m1, f)
    ensures SameRest(m0, m2, d, {})
  {
    if f != 0 {
      assert SameFrame(m0, m, d, f);
      RestBefore(m0, d, f);
      SameRestTwice(m0, m, m1, d, {}, {f});
      LooseSame(m1, m2, d, f);
      SameRestTwice(m0, m1, m2, d, {} + {f}, {f});
      forall g | g !in {}
        ensures SameFrame(m0, m2, d, g)
      {
        assert g != f ==> g !in {} + {f} + {f};
      }
    }
  }

  lemma CopiedStep(m0: Mem, m: Mem, m': Mem, d: nat, d': nat, v: nat, f: nat)
    requires Inv(m0) && Copied(m0, m, d, d', v) && SameRest(m0, m, d', {}) && d' !in m0.frames && v < NPAGES && f !in m.frames
    requires SameRest(m, m', d', {}) && SameView(m, m', d', v, v + 1)
    requires ViewAt(m0, d, v).Shows? && ViewAt(m0, d, v).pte.Present?
    requires ViewAt(m', d', v) == Shows(Present(f, ViewAt(m0, d, v).pte.flags), ViewAt(m0, d, v).data)
    ensures SameRest(m0, m', d', {}) && Copied(m0, m', d, d', v + 1)
  {
    SameRestStep(m0, m, m', d');
    assert SameFrame(m0, m, d', f);
    RestBefore(m0, d', f);
    forall u | 0 <= u < v + 1 && u < NPAGES
      ensures CopiedPage(m0, m', d, d', u)
    {
      assert u < v ==> CopiedPage(m0, m, d, d', u) && ViewAt(m', d', u) == ViewAt(m, d', u);
    }
    forall u | v + 1 <= u < NPAGES
      ensures ViewAt(m', d', u) == KmapView(|Kmap()|, u)
    {
      assert ViewAt(m', d', u) == ViewAt(m, d', u);
    }
  }

  /** Of the pages from lo to hi, those below v show new zeroed frames and the others nothing; nothing else is different. */
  ghost predicate Grown(m0: Mem, m: Mem, d: nat, lo: nat, v: nat, hi: nat) {
    && IsDir(m, d) && lo <= v && hi <= KERNEL * NPTENTRIES && SameRest(m0, m, d, {}) && SameView(m0, m, d, lo, hi)
    && m0.frames.Keys <= m.frames.Keys
    && (forall u | lo <= u < v && u < hi && 0 <= u < NPAGES :: Fresh(m0, m, d, u))
    && (forall u | v <= u < hi && 0 <= u < NPAGES :: ViewAt(m, d, u) == Hole)
  }

  ghost predicate Fresh(m0: Mem, m: Mem, d: nat, u: nat)
    requires IsDir(m, d) && u < NPAGES
  {
    var w := ViewAt(m, d, u);
    w.Shows? && w.pte.Present? && w.pte.frame !in m0.frames && w.pte.flags == PTE_W + PTE_U && w.data == ZeroPage()
  }

  lemma PagesWithin(oldsz: nat, newsz: nat)
    requires oldsz <= newsz < KERNBASE
    ensures Pages(oldsz) <= Pages(newsz) <= KERNEL * NPTENTRIES
    ensures oldsz == newsz ==> Pages(oldsz) * PGSIZE >= newsz
    ensures newsz == 0 ==> Pages(newsz) == 0
  {
  }

  lemma GrownNone(m: Mem, d: nat, lo: nat, hi: nat)
    requires Inv(m) && IsDir(m, d) && lo <= hi <= KERNEL * NPTENTRIES && Holes(m, d, lo, hi)
    ensures Grown(m, m, d, lo, lo, hi)
  {
    SameRestSelf(m, d);
  }

  /** The next page shows nothing, or is the one that was mapped already. */
  lemma GrownAt(m0: Mem, m: Mem, d: nat, lo: nat, v: nat, stop: nat, hi: nat)
    requires Grown(m0, m, d, lo, v, stop) && v <= stop <= hi <= KERNEL * NPTENTRIES && v < hi
    requires stop < hi ==> ViewAt(m0, d, stop) != Hole
    ensures ViewAt(m, d, v) == Hole <==> v < stop
  {
  }

  /** Where every page is mapped no table is missing. */
  lemma GrownServed(m0: Mem, m: Mem, d: nat, lo: nat, hi: nat)
    requires Grown(m0, m, d, lo, hi, hi)
    ensures Lacking(m, d, Span(lo, hi)) == {}
  {
    forall i | i in Span(lo, hi)
      ensures m.frames[d].pdes[i] != NoTable
    {
      var v := if lo < i * NPTENTRIES then i * NPTENTRIES else lo;
      assert Pdx(v) == i;
      assert Fresh(m0, m, d, v);
    }
  }

  lemma GrownAll(m0: Mem, m: Mem, d: nat, lo: nat, v: nat, hi: nat)
    requires Grown(m0, m, d, lo, v, hi) && v >= hi >= lo
    ensures Grown(m0, m, d, lo, hi, hi) && (hi == 0 ==> SameView(m0, m, d, 0, 0))
  {
  }

  lemma GrownStep(m0: Mem, m: Mem, m': Mem, d: nat, lo: nat, v: nat, hi: nat, f: nat)
    requires Inv(m) && Grown(m0, m, d, lo, v, hi) && v < hi && f !in m.frames && IsDir(m0, d)
    requires SameRest(m, m', d, {}) && SameView(m, m', d, v, v + 1)
    requires ViewAt(m', d, v) == Shows(Present(f, PTE_W + PTE_U), ZeroPage())
    requires m.frames.Keys <= m'.frames.Keys
    ensures Grown(m0, m', d, lo, v + 1, hi)
  {
    SameRestStep(m0, m, m', d);
    forall u | 0 <= u < NPAGES && !(lo <= u < hi)
      ensures ViewAt(m', d, u) == ViewAt(m0, d, u)
    {
      assert ViewAt(m', d, u) == ViewAt(m, d, u) && ViewAt(m, d, u) == ViewAt(m0, d, u);
    }
    forall u | lo <= u < v + 1 && u < hi && 0 <= u < NPAGES
      ensures Fresh(m0, m', d, u)
    {
      assert u < v ==> ViewAt(m', d, u) == ViewAt(m, d, u) && Fresh(m0, m, d, u);
    }
    forall u | v + 1 <= u < hi && 0 <= u < NPAGES
      ensures ViewAt(m', d, u) == Hole
    {
      assert ViewAt(m', d, u) == ViewAt(m, d, u);
    }
  }

  /**
   * The pages mapped so far are unmapped again, and the last frame is given back: every space is as at the start, but
   * for pages from stop on that were mapped before.
   */
  lemma Undone(m0: Mem, m: Mem, m1: Mem, m2: Mem, m3: Mem, d: nat, lo: nat, v: nat, stop: nat, hi: nat, f: nat)
    requires Inv(m2) && Grown(m0, m, d, lo, v, stop) && Holes(m0, d, lo, stop) && stop <= hi && f !in m.frames
    requires if f == 0 then m1 == m else SameRest(m, m1, d, {f}) && SameView(m, m1, d, 0, 0)
    requires SameRest(m1, m2, d, {}) && SameView(m1, m2, d, lo, hi) && Holes(m2, d, lo, hi)
    requires if f == 0 then m3 == m2 else IsLoose(m2, f) && m3 == Drop(m2, f)
    ensures SameRest(m0, m3, d, {}) && SameView(m0, m3, d, lo, hi) && Holes(m3, d, lo, hi)
    ensures stop >= hi ==> SameView(m0, m3, d, 0, 0)
  {
    forall u | 0 <= u < NPAGES
      ensures !(lo <= u < hi) || u < stop ==> ViewAt(m2, d, u) == ViewAt(m0, d, u)
    {
      assert ViewAt(m1, d, u) == ViewAt(m, d, u);
      assert !(lo <= u < hi) ==> ViewAt(m2, d, u) == ViewAt(m1, d, u) && ViewAt(m, d, u) == ViewAt(m0, d, u);
    }
    if f != 0 {
      SameRestTwice(m0, m, m1, d, {}, {f});
      SameRestTwice(m0, m1, m2, d, {} + {f}, {});
      LooseSame(m2, m3, d, f);
      SameRestTwice(m0, m2, m3, d, {} + {f} + {}, {f});
      forall g | g !in {}
        ensures SameFrame(m0, m3, d, g)
      {
        assert g != f ==> g !in {} + {f} + {} + {f};
      }
    } else {
      SameRestStep(m0, m, m2, d);
    }
  }

  lemma NoFrameZero(all: set<nat>, free: seq<nat>, frames: map<nat, Frame>)
    requires Partition(all, free, frames)
    ensures 0 !in frames
  {
  }

  lemma SameViewAt(m0: Mem, m1: Mem, d: nat, v: nat)
    requires SameView(m0, m1, d, 0, 0) && v < NPAGES
    ensures ViewAt(m1, d, v) == ViewAt(m0, d, v)
  {
  }

  /** A fresh frame filled with data is loose and shows in no space. */
  lemma Filled(m0: Mem, d: nat, f: nat, junk: Data, data: Data, all: set<nat>, free: seq<nat>)
    requires Inv(m0) && IsDir(m0, d) && f !in m0.frames && Partition(all, free, Take(m0, f, junk).frames)
    ensures var m1 := Mem(m0.frames[f := Page(junk)][f := Page(data)], m0.owner[f := Loose]);
            && Inv(m1) && Partition(all, free, m1.frames) && IsDir(m1, d) && IsLoose(m1, f)
            && SameRest(m0, m1, d, {f}) && SameView(m0, m1, d, 0, 0)
  {
    var m1 := Mem(m0.frames[f := Page(junk)][f := Page(data)], m0.owner[f := Loose]);
    TakeTable(all, free, Take(m0, f, junk).frames, m1.frames);
    hide Inv, Partition, SameRest, SameView;
    LooseInv(m0, m1, f);
    LooseSame(m0, m1, d, f);
  }

  lemma AddedPage(m0: Mem, m1: Mem, m2: Mem, d: nat, v: nat, f: nat, ok: bool)
    requires f !in m0.frames && IsDir(m1, d) && SameRest(m0, m1, d, {f}) && SameView(m0, m1, d, 0, 0) && IsLoose(m1, f)
    requires if ok then SameRest(m1, m2, d, {f}) && Belongs(m2, f, d) && SameView(m1, m2, d, v, v + 1)
             else SameRest(m1, m2, d, {}) && SameView(m1, m2, d, 0, 0)
    ensures ok ==> SameRest(m0, m2, d, {}) && SameView(m0, m2, d, v, v + 1)
    ensures !ok ==> SameRest(m0, m2, d, {f}) && SameView(m0, m2, d, 0, 0) && IsLoose(m2, f)
  {
    if ok {
      NewBelongs(m0, m1, m2, d, f);
    } else {
      SameRestTwice(m0, m1, m2, d, {f}, {});
      assert {f} + {} == {f};
      LooseStays(m1, m2, d, f);
    }
  }

  // ------------------------------------------------------------------ the kernel's map

  datatype Range = Range(virt: nat, phys: nat, pages: nat, perm: nat)

  type DataPage = x: nat | 0x100 < x < 0xE000 witness 0x101

  /** The physical page where the kernel's data starts. */
  const DATA: DataPage

  /** I/O space, kernel text, kernel data and memory, devices: page numbers of the four entries of kmap. */
  function Kmap(): seq<Range> {
    [Range(0x80000, 0, 0x100, PTE_W), Range(0x80100, 0x100, DATA - 0x100, 0),
     Range(0x80000 + DATA, DATA, 0xE000 - DATA, PTE_W), Range(0xFE000, 0xFE000, 0x2000, PTE_W)]
  }

  predicate GoodRange(k: Range) {
    KERNEL * NPTENTRIES <= k.virt && k.virt + k.pages <= NPAGES
  }

  predicate InRange(k: Range, v: nat) {
    k.virt <= v < k.virt + k.pages
  }

  function RangeView(k: Range, v: nat): View
    requires k.virt <= v
  {
    Shows(Present(k.phys + (v - k.virt), k.perm), [])
  }

  /** What the first n entries of the kernel's map say about a page. */
  function KmapView(n: nat, v: nat): View
    requires n <= |Kmap()|
  {
    if n == 0 then Hole else if InRange(Kmap()[n - 1], v) then RangeView(Kmap()[n - 1], v) else KmapView(n - 1, v)
  }

  ghost predicate KernelOnly(m: Mem, d: nat, n: nat) {
    n <= |Kmap()| && IsDir(m, d) && forall v | 0 <= v < NPAGES :: ViewAt(m, d, v) == KmapView(n, v)
  }

  lemma KmapHoles(m: Mem, d: nat, k: nat)
    requires k < |Kmap()| && KernelOnly(m, d, k)
    ensures GoodRange(Kmap()[k]) && Holes(m, d, Kmap()[k].virt, Kmap()[k].virt + Kmap()[k].pages)
  {
    forall v: nat | InRange(Kmap()[k], v) && v < NPAGES
      ensures ViewAt(m, d, v) == Hole
    {
      KmapApart(k, k, v);
    }
  }

  /** The entries of the kernel's map do not overlap. */
  lemma {:induction false} KmapApart(k: nat, n: nat, v: nat)
    requires n <= k < |Kmap()| && InRange(Kmap()[k], v)
    ensures KmapView(n, v) == Hole
  {
    if n > 0 {
      KmapApart(k, n - 1, v);
    }
  }

  lemma KmapStep(m: Mem, m': Mem, d: nat, k: nat)
    requires k < |Kmap()| && KernelOnly(m, d, k) && GoodRange(Kmap()[k])
    requires SameView(m, m', d, Kmap()[k].virt, Kmap()[k].virt + Kmap()[k].pages)
    requires forall v | Kmap()[k].virt <= v < Kmap()[k].virt + Kmap()[k].pages :: 0 <= v < NPAGES && ViewAt(m', d, v) == RangeView(Kmap()[k], v)
    ensures KernelOnly(m', d, k + 1)
  {
    hide Kmap;
    forall v | 0 <= v < NPAGES
      ensures ViewAt(m', d, v) == KmapView(k + 1, v)
    {
      assert !InRange(Kmap()[k], v) ==> ViewAt(m', d, v) == ViewAt(m, d, v);
    }
  }

  /** The directory entries that the kernel's map needs tables for. */
  function KernelTables(): set<nat> {
    set i: nat | i < NPDENTRIES && KernelTable(i)
  }

  predicate KernelTable(i: nat) {
    KERNEL <= i < KERNEL + 56 || NPDENTRIES - 8 <= i
  }

  lemma KmapTables(k: nat)
    requires k < |Kmap()|
    ensures forall v: nat | InRange(Kmap()[k], v) && v < NPAGES :: Pdx(v) in KernelTables()
  {
  }

  ghost predicate NoUserTables(m: Mem, d: nat) {
    IsDir(m, d) && forall i | 0 <= i < KERNEL :: m.frames[d].pdes[i] == NoTable
  }

  ghost predicate SameUserTables(m: Mem, m': Mem, d: nat) {
    IsDir(m, d) && IsDir(m', d) && forall i | 0 <= i < KERNEL :: m'.frames[d].pdes[i] == m.frames[d].pdes[i]
  }

  lemma KernelTableOnly(m: Mem, m': Mem, d: nat, v: nat)
    requires OnlyTable(m, m', d, v) && KERNEL * NPTENTRIES <= v
    ensures SameUserTables(m, m', d)
  {
    PageNumber(v, v);
  }

  /** A space that maps the kernel has all the kernel's tables. */
  lemma NoneLacking(m: Mem, d: nat)
    requires KernelOnly(m, d, |Kmap()|)
    ensures Lacking(m, d, KernelTables()) == {}
  {
    forall i | i in KernelTables()
      ensures m.frames[d].pdes[i] != NoTable
    {
      var v := i * NPTENTRIES;
      assert Pdx(v) == i;
      assert ViewAt(m, d, v) == KmapView(|Kmap()|, v);
      KmapCovers(i);
    }
  }

  lemma KmapCovers(i: nat)
    requires i < NPDENTRIES && KernelTable(i)
    ensures KmapView(|Kmap()|, i * NPTENTRIES).Shows?
  {
    var v := i * NPTENTRIES;
    assert InRange(Kmap()[0], v) || InRange(Kmap()[1], v) || InRange(Kmap()[2], v) || InRange(Kmap()[3], v);
    assert KmapView(1, v) == if InRange(Kmap()[0], v) then RangeView(Kmap()[0], v) else KmapView(0, v);
    assert KmapView(2, v) == if InRange(Kmap()[1], v) then RangeView(Kmap()[1], v) else KmapView(1, v);
    assert KmapView(3, v) == if InRange(Kmap()[2], v) then RangeView(Kmap()[2], v) else KmapView(2, v);
  }

  /** The kernel's half of a space takes 64 tables. */
  lemma KernelTablesSize()
    ensures |KernelTables()| == 64
  {
    var low := set i | i in KernelTables() && i < KERNEL + 56;
    var high := set i | i in KernelTables() && NPDENTRIES - 8 <= i;
    SpanSize(KERNEL, KERNEL + 56, low);
    SpanSize(NPDENTRIES - 8, NPDENTRIES, high);
    assert KernelTables() == low + high;
  }

  lemma {:induction false} SpanSize(a: nat, b: nat, s: set<nat>)
    requires a <= b && forall i :: i in s <==> a <= i < b
    ensures |s| == b - a
    decreases b - a
  {
    if a < b {
      SpanSize(a, b - 1, s - {b - 1});
    } else {
      assert s == {};
    }
  }

  ghost predicate RangeMapped(m0: Mem, m: Mem, d: nat, k: Range, n: nat) {
    && GoodRange(k) && IsDir(m, d) && SameRest(m0, m, d, {}) && SameView(m0, m, d, k.virt, k.virt + k.pages)
    && (forall v | k.virt <= v < k.virt + n && 0 <= v < NPAGES :: ViewAt(m, d, v) == RangeView(k, v))
    && (forall v | k.virt + n <= v < k.virt + k.pages && 0 <= v < NPAGES :: ViewAt(m, d, v) == Hole)
  }

  lemma RangeNone(m: Mem, d: nat, k: Range)
    requires Inv(m) && IsDir(m, d) && GoodRange(k) && Holes(m, d, k.virt, k.virt + k.pages)
    ensures RangeMapped(m, m, d, k, 0)
  {
    SameRestSelf(m, d);
  }

  lemma RangeDone(m0: Mem, m: Mem, d: nat, k: Range)
    requires RangeMapped(m0, m, d, k, k.pages)
    ensures forall v | k.virt <= v < k.virt + k.pages :: 0 <= v < NPAGES && ViewAt(m, d, v) == RangeView(k, v)
  {
  }

  lemma RangeStep(m0: Mem, m: Mem, m': Mem, d: nat, k: Range, n: nat, ok: bool)
    requires RangeMapped(m0, m, d, k, n) && n < k.pages
    requires SameRest(m, m', d, {}) && SameView(m, m', d, k.virt + n, k.virt + n + 1)
    requires ok ==> ViewAt(m', d, k.virt + n) == Shows(Present(k.phys + n, k.perm), [])
    ensures SameRest(m0, m', d, {}) && SameView(m0, m', d, k.virt, k.virt + k.pages)
    ensures ok ==> RangeMapped(m0, m', d, k, n + 1)
  {
    SameRestStep(m0, m, m', d);
    forall v | 0 <= v < NPAGES && !InRange(k, v)
      ensures ViewAt(m', d, v) == ViewAt(m0, d, v)
    {
      assert ViewAt(m', d, v) == ViewAt(m, d, v) && ViewAt(m, d, v) == ViewAt(m0, d, v);
    }
    if ok {
      forall v | k.virt <= v < k.virt + n + 1 && 0 <= v < NPAGES
        ensures ViewAt(m', d, v) == RangeView(k, v)
      {
        assert v < k.virt + n ==> ViewAt(m', d, v) == ViewAt(m, d, v) && ViewAt(m, d, v) == RangeView(k, v);
      }
      forall v | k.virt + n + 1 <= v < k.virt + k.pages && 0 <= v < NPAGES
        ensures ViewAt(m', d, v) == Hole
      {
        assert ViewAt(m', d, v) == ViewAt(m, d, v);
      }
    }
  }

  lemma SameViewMore(m: Mem, m': Mem, d: nat, lo: nat, hi: nat)
    requires SameView(m, m', d, 0, 0)
    ensures SameView(m, m', d, lo, hi)
  {
  }

  lemma KernelSame(m0: Mem, m1: Mem, d: nat, v: nat, t: nat, e: Pte)
    requires Inv(m1) && SameRest(m0, m1, d, {}) && SameView(m0, m1, d, 0, 0) && KERNEL * NPTENTRIES <= v < NPAGES && e.Present?
    requires TableFor(m1, d, v) == ToTable(t)
    ensures IsTable(m1, t)
    ensures var m2 := SetPte(m1, t, Ptx(v), e);
            && m2.frames.Keys == m1.frames.Keys && IsDir(m2, d)
            && Inv(m2) && SameRest(m0, m2, d, {}) && SameView(m0, m2, d, v, v + 1) && ViewAt(m2, d, v) == Shows(e, [])
  {
    LookupOk(m1, d, v);
    PageNumber(v, v);
    MapKernelInv(m1, t, Ptx(v), e);
    MapKernelSame(m1, d, v, t, e);
    SameRestStep(m0, m1, SetPte(m1, t, Ptx(v), e), d);
  }

  function EmptyDir(): seq<Pde> {
    seq(NPDENTRIES, i => NoTable)
  }

  lemma NewSpaceInv(m0: Mem, m: Mem, d: nat)
    requires Inv(m0) && d !in m0.frames && m.frames == m0.frames[d := Dir(EmptyDir())] && m.owner == m0.owner[d := Root]
    ensures Inv(m) && IsDir(m, d)
  {
    forall g | g in m.frames
      ensures FrameOk(m, g)
    {
      if g != d {
        assert FrameOk(m0, g);
        KeepFrame(m0, m, g, d);
      }
    }
  }

  lemma NewSpaceView(m: Mem, d: nat)
    requires d in m.frames && m.frames[d] == Dir(EmptyDir()) && IsDir(m, d)
    ensures KernelOnly(m, d, 0) && NoUserTables(m, d) && Lacking(m, d, KernelTables()) == KernelTables()
  {
  }

  /** A frame taken and cleared is a space with nothing in it. */
  lemma NewSpace(m0: Mem, d: nat, junk: Data, all: set<nat>, free: seq<nat>)
    requires Inv(m0) && d !in m0.frames && Partition(all, free, Take(m0, d, junk).frames)
    ensures var m := Mem(m0.frames[d := Page(junk)][d := Dir(EmptyDir())], m0.owner[d := Loose][d := Root]);
            && Inv(m) && Partition(all, free, m.frames) && IsDir(m, d) && SameRest(m0, m, d, {}) && KernelOnly(m, d, 0)
            && NoUserTables(m, d) && Lacking(m, d, KernelTables()) == KernelTables()
  {
    hide Inv, Partition, SameRest, KernelOnly, NoUserTables, Lacking, KernelTables;
    var m := Mem(m0.frames[d := Page(junk)][d := Dir(EmptyDir())], m0.owner[d := Loose][d := Root]);
    TakeTable(all, free, Take(m0, d, junk).frames, m.frames);
    NewSpaceInv(m0, m, d);
    NewSpaceView(m, d);
    NewSpaceRest(m0, m, d);
  }

  lemma NewSpaceRest(m0: Mem, m: Mem, d: nat)
    requires Inv(m0) && d !in m0.frames && m.frames == m0.frames[d := Dir(EmptyDir())] && m.owner == m0.owner[d := Root]
    ensures SameRest(m0, m, d, {})
  {
    forall f | f !in {}
      ensures SameFrame(m0, m, d, f)
    {
      if f in m0.frames {
        assert FrameOk(m0, f);
      }
    }
  }

  /** The memory after the first n tables of space d are freed. */
  ghost predicate TablesFreed(m: Mem, m': Mem, d: nat, n: nat) {
    && m'.owner.Keys == m'.frames.Keys
    && (forall f :: f in m'.frames <==> f in m.frames && !FreedTable(m, f, d, n))
    && (forall f | f in m'.frames :: m'.frames[f] == m.frames[f] && f in m.owner && m'.owner[f] == m.owner[f])
    && IsDir(m', d)
  }

  predicate FreedTable(m: Mem, f: nat, d: nat, n: nat) {
    f in m.owner && m.owner[f].TableOf? && m.owner[f].d == d && m.owner[f].i < n
  }

  lemma NoTableFreed(m: Mem, d: nat)
    requires Inv(m) && IsDir(m, d)
    ensures TablesFreed(m, m, d, 0)
  {
    forall f | f in m.frames
      ensures !FreedTable(m, f, d, 0) && f in m.owner
    {
      assert FrameOk(m, f);
    }
  }

  lemma NextTable(m: Mem, m1: Mem, d: nat, i: nat)
    requires Inv(m) && IsDir(m, d) && i < NPDENTRIES && TablesFreed(m, m1, d, i)
    ensures IsDir(m1, d) && m1.frames[d].pdes[i] == m.frames[d].pdes[i]
    ensures m.frames[d].pdes[i].ToTable? ==> m.frames[d].pdes[i].t in m1.frames && m.frames[d].pdes[i].t != d
  {
    assert FrameOk(m, d);
    assert PdeOk(m, d, i);
  }

  lemma FreedTables(m: Mem, d: nat, i: nat)
    requires Inv(m) && IsDir(m, d) && i < NPDENTRIES
    ensures forall f :: FreedTable(m, f, d, i + 1) <==> FreedTable(m, f, d, i) || m.frames[d].pdes[i] == ToTable(f)
  {
    forall f
      ensures FreedTable(m, f, d, i + 1) <==> FreedTable(m, f, d, i) || m.frames[d].pdes[i] == ToTable(f)
    {
      TableAt(m, d, i, f);
    }
  }

  /** Entry i of the directory has been looked at. */
  lemma OneTableFreed(m: Mem, m1: Mem, m2: Mem, d: nat, i: nat)
    requires Inv(m) && IsDir(m, d) && i < NPDENTRIES && TablesFreed(m, m1, d, i)
    requires m2 == if m.frames[d].pdes[i].ToTable? then Drop(m1, m.frames[d].pdes[i].t) else m1
    ensures TablesFreed(m, m2, d, i + 1)
  {
    hide Inv, FreedTable;
    NextTable(m, m1, d, i);
    FreedTables(m, d, i);
    if m.frames[d].pdes[i].ToTable? {
      var t := m.frames[d].pdes[i].t;
      assert forall f :: f in m2.frames <==> f in m1.frames && f != t;
    }
  }

  lemma TableAt(m: Mem, d: nat, i: nat, f: nat)
    requires Inv(m) && IsDir(m, d) && i < NPDENTRIES
    ensures f in m.owner && m.owner[f] == TableOf(d, i) <==> m.frames[d].pdes[i] == ToTable(f)
  {
    assert FrameOk(m, d);
    assert PdeOk(m, d, i);
    if f in m.owner && m.owner[f] == TableOf(d, i) {
      assert f in m.owner.Keys;
      assert FrameOk(m, f);
    }
  }

  /** With no user page left, a space is its tables and its directory. */
  lemma AllFreed(m: Mem, m': Mem, d: nat)
    requires Inv(m) && IsDir(m, d) && Holes(m, d, 0, KERNEL * NPTENTRIES)
    requires m'.owner.Keys == m'.frames.Keys
    requires forall f :: f in m'.frames <==> f in m.frames && !FreedTable(m, f, d, NPDENTRIES) && f != d
    requires forall f | f in m'.frames :: m'.frames[f] == m.frames[f] && f in m.owner && m'.owner[f] == m.owner[f]
    ensures Without(m, m', d)
  {
    forall f
      ensures f in m'.frames <==> Rest(m, f, d)
    {
      if f in m.frames && f != d && Belongs(m, f, d) {
        assert FrameOk(m, f);
        if m.owner[f].PageOf? {
          NoPageLeft(m, d, f);
        }
      }
    }
  }

  lemma NoPageLeft(m: Mem, d: nat, f: nat)
    requires Inv(m) && IsDir(m, d) && Holes(m, d, 0, KERNEL * NPTENTRIES)
    requires f in m.frames && m.owner[f].PageOf?
    ensures !Belongs(m, f, d) || f == d
  {
    assert FrameOk(m, f);
    var t, j := m.owner[f].t, m.owner[f].j;
    assert FrameOk(m, t);
    var v := m.owner[t].i * NPTENTRIES + j;
    assert v < KERNEL * NPTENTRIES && Pdx(v) == m.owner[t].i && Ptx(v) == j;
    assert ViewAt(m, d, v) == Hole;
    LookupOk(m, d, v);
  }

  lemma WithoutSame(m0: Mem, m1: Mem, m2: Mem, d: nat)
    requires SameRest(m0, m1, d, {}) && Without(m1, m2, d)
    ensures Without(m0, m2, d)
  {
    forall f
      ensures f in m2.frames <==> Rest(m0, f, d)
    {
      assert SameFrame(m0, m1, d, f);
    }
    forall f | f in m2.frames
      ensures m2.frames[f] == m0.frames[f] && f in m0.owner && m2.owner[f] == m0.owner[f]
    {
      assert SameFrame(m0, m1, d, f);
    }
  }

  /** PGADDR(PDX(a) + 1, 0, 0): where the next table's pages begin, in 32 bits. */
  function NextTableAddress(a: nat): nat
    requires a < UINT_LIMIT
  {
    U32((Pdx(a / PGSIZE) + 1) * NPTENTRIES * PGSIZE)
  }

  /** The step over a missing table goes forward exactly if it is not the table of the last directory entry. */
  lemma SkipWraps(a: nat)
    requires a < UINT_LIMIT
    ensures a < NextTableAddress(a) <==> Pdx(a / PGSIZE) != NPDENTRIES - 1
    ensures Pdx(a / PGSIZE) != NPDENTRIES - 1 ==> NextTableAddress(a) == (Pdx(a / PGSIZE) + 1) * NPTENTRIES * PGSIZE
    ensures Pdx(a / PGSIZE) == NPDENTRIES - 1 ==> NextTableAddress(a) == 0
  {
  }

  /** In the user half both ways of going on reach the page they mean. */
  lemma NextAddress(a: nat, v: nat)
    requires a == v * PGSIZE && v < KERNEL * NPTENTRIES
    ensures a < UINT_LIMIT && a / PGSIZE == v && U32(a + PGSIZE) == (v + 1) * PGSIZE
    ensures U32(U32(NextTableAddress(a) - PGSIZE) + PGSIZE) == (Pdx(v) + 1) * NPTENTRIES * PGSIZE
  {
    PageNumber(v, v);
    SkipWraps(a);
  }

  /** The first address it goes wrong for. */
  lemma SkipAtLastTable()
    ensures NextTableAddress(0xFFC0_0000) == 0 && NextTableAddress(0xFFBF_FFFF) == 0xFFC0_0000
  {
  }

  ghost predicate Holes(m: Mem, d: nat, lo: nat, hi: nat) {
    IsDir(m, d) && forall v | lo <= v < hi && 0 <= v < NPAGES :: ViewAt(m, d, v) == Hole
  }

  /** Of the pages from lo to hi, those below v are unmapped; nothing else is different. */
  ghost predicate Removed(m0: Mem, m: Mem, d: nat, lo: nat, v: nat, hi: nat) {
    && lo <= v && hi <= KERNEL * NPTENTRIES && SameRest(m0, m, d, {}) && SameView(m0, m, d, lo, hi)
    && Holes(m, d, lo, if v < hi then v else hi)
  }

  lemma RemovedNone(m: Mem, d: nat, lo: nat, hi: nat)
    requires Inv(m) && IsDir(m, d) && hi <= KERNEL * NPTENTRIES
    ensures Removed(m, m, d, lo, lo, hi)
  {
    SameRestSelf(m, d);
  }

  lemma RemovedStep(m0: Mem, m: Mem, m': Mem, d: nat, lo: nat, v: nat, hi: nat)
    requires Removed(m0, m, d, lo, v, hi) && v < hi
    requires SameRest(m, m', d, {}) && SameView(m, m', d, v, v + 1) && ViewAt(m', d, v) == Hole
    ensures Removed(m0, m', d, lo, v + 1, hi)
  {
    SameRestStep(m0, m, m', d);
    forall u | 0 <= u < NPAGES && !(lo <= u < hi)
      ensures ViewAt(m', d, u) == ViewAt(m0, d, u)
    {
      assert ViewAt(m', d, u) == ViewAt(m, d, u) && ViewAt(m, d, u) == ViewAt(m0, d, u);
    }
    forall u | lo <= u < v + 1 && 0 <= u < NPAGES
      ensures ViewAt(m', d, u) == Hole
    {
      assert u < v ==> ViewAt(m', d, u) == ViewAt(m, d, u) && ViewAt(m, d, u) == Hole;
    }
  }

  /** A missing table has no pages: the loop may go on behind it. */
  lemma SkipTable(m0: Mem, m: Mem, d: nat, lo: nat, v: nat, hi: nat)
    requires Removed(m0, m, d, lo, v, hi) && v < hi && TableFor(m, d, v) == NoTable
    ensures Removed(m0, m, d, lo, (Pdx(v) + 1) * NPTENTRIES, hi) && v < (Pdx(v) + 1) * NPTENTRIES
  {
    forall u | v <= u < (Pdx(v) + 1) * NPTENTRIES && 0 <= u < NPAGES
      ensures ViewAt(m, d, u) == Hole
    {
      assert Pdx(u) == Pdx(v);
    }
  }

  lemma PagesBound(newsz: nat, oldsz: nat)
    requires newsz < oldsz <= KERNBASE
    ensures Pages(newsz) <= Pages(oldsz) <= KERNEL * NPTENTRIES
  {
  }

  lemma PageOfAddress(a: nat, v: nat, sz: nat)
    requires a == v * PGSIZE
    ensures a / PGSIZE == v && (a < sz <==> v < Pages(sz))
  {
  }

  lemma NoTableHole(m: Mem, d: nat, v: nat)
    requires Inv(m) && IsDir(m, d) && v < NPAGES && TableFor(m, d, v) == NoTable
    ensures ViewAt(m, d, v) == Hole && SameView(m, m, d, v, v + 1)
  {
  }

  lemma EntryAt(m: Mem, d: nat, v: nat, t: nat)
    requires Inv(m) && IsDir(m, d) && v < KERNEL * NPTENTRIES && TableFor(m, d, v) == ToTable(t)
    ensures IsTable(m, t) && m.owner[t].i < KERNEL && Lookup(m, d, v) == m.frames[t].ptes[Ptx(v)]
    ensures m.frames[t].ptes[Ptx(v)] == Absent <==> ViewAt(m, d, v) == Hole
    ensures SameView(m, m, d, v, v + 1)
  {
    LookupOk(m, d, v);
    PageNumber(v, v);
  }

  lemma EntryFrames(m: Mem, t: nat, j: nat, f: nat)
    requires Inv(m) && IsTable(m, t) && m.owner[t].i < KERNEL && j < NPTENTRIES
    requires m.frames[t].ptes[j].Present? && m.frames[t].ptes[j].frame == f
    ensures f in m.frames && f != t
  {
    assert FrameOk(m, t);
    assert PteOk(m, t, j);
  }

  lemma TakeTable(all: set<nat>, free: seq<nat>, frames: map<nat, Frame>, frames': map<nat, Frame>)
    requires Partition(all, free, frames) && frames'.Keys == frames.Keys
    ensures Partition(all, free, frames')
  {
    assert forall f :: f in frames <==> f in frames.Keys;
    assert forall f :: f in frames' <==> f in frames'.Keys;
  }

  lemma NewTableSame(m0: Mem, d: nat, i: nat, t: nat, junk: Data)
    requires Inv(m0) && IsDir(m0, d) && i < NPDENTRIES && m0.frames[d].pdes[i] == NoTable && t !in m0.frames
    ensures var m1 := Take(m0, t, junk);
            IsDir(m1, d) && var m2 := AddTable(m1, d, i, t);
            && Inv(m2) && SameRest(m0, m2, d, {}) && SameView(m0, m2, d, 0, 0) && m2.frames.Keys == m1.frames.Keys
            && IsDir(m2, d) && m2.frames[d].pdes[i] == ToTable(t) && IsTable(m2, t)
  {
    var m1 := Take(m0, t, junk);
    TakeInv(m0, t, junk);
    LooseSame(m0, m1, d, t);
    AddTableInv(m1, d, i, t);
    AddTableSame(m1, d, i, t);
    hide Inv;
    NewBelongs(m0, m1, AddTable(m1, d, i, t), d, t);
  }

  lemma LooseStays(m: Mem, m': Mem, d: nat, f: nat)
    requires SameRest(m, m', d, {}) && IsLoose(m, f) && IsDir(m, d)
    ensures IsLoose(m', f) && m'.frames[f] == m.frames[f]
  {
    assert SameFrame(m, m', d, f);
  }

  lemma MapSame(m0: Mem, m1: Mem, d: nat, v: nat, t: nat, f: nat, flags: nat)
    requires Inv(m1) && SameRest(m0, m1, d, {}) && SameView(m0, m1, d, 0, 0) && v < KERNEL * NPTENTRIES
    requires ViewAt(m0, d, v) == Hole && IsLoose(m1, f) && TableFor(m1, d, v) == ToTable(t) && IsTable(m1, t)
    ensures var m2 := MapPage(m1, t, Ptx(v), f, flags);
            && m2.frames.Keys == m1.frames.Keys
            && Inv(m2) && SameRest(m0, m2, d, {f}) && Belongs(m2, f, d) && SameView(m0, m2, d, v, v + 1)
            && ViewAt(m2, d, v) == Shows(Present(f, flags), m1.frames[f].data)
  {
    LookupOk(m1, d, v);
    PageNumber(v, v);
    assert ViewAt(m1, d, v) == Hole;
    MapPageInv(m1, t, Ptx(v), f, flags);
    MapPageSame(m1, d, v, t, f, flags);
    SameRestTwice(m0, m1, MapPage(m1, t, Ptx(v), f, flags), d, {}, {f});
    assert {} + {f} == {f};
  }

  lemma SameRestSelf(m: Mem, d: nat)
    requires Inv(m) && IsDir(m, d)
    ensures SameRest(m, m, d, {}) && SameView(m, m, d, 0, 0)
  {
  }

  lemma NonZero(all: set<nat>, free: seq<nat>, frames: map<nat, Frame>, f: nat)
    requires Partition(all, free, frames) && f in frames
    ensures f != 0
  {
  }

  /** A frame taken and then given to space d leaves the rest as it was. */
  lemma NewBelongs(m0: Mem, m1: Mem, m2: Mem, d: nat, f: nat)
    requires f !in m0.frames && SameRest(m0, m1, d, {f}) && SameRest(m1, m2, d, {f}) && Belongs(m2, f, d)
    ensures SameRest(m0, m2, d, {})
  {
    SameRestTwice(m0, m1, m2, d, {f}, {f});
    forall g | g !in {}
      ensures SameFrame(m0, m2, d, g)
    {
      assert g != f ==> SameFrame(m0, m2, d, g);
    }
  }
}
