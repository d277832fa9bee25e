/**
 * Physical memory as a value: which frames are in use, what each holds, and what each is used for.
 */
module VmSpec {
  import opened Common

  const PGSIZE := 4096
  const NPDENTRIES := 1024
  const NPTENTRIES := 1024
  /** The first directory entry of the kernel's half of an address space. */
  const KERNEL := 512
  const NPAGES := NPDENTRIES * NPTENTRIES

  type Data = seq<nat>

  datatype Pde = NoTable | ToTable(t: nat)
  datatype Pte = Absent | Present(frame: nat, flags: nat)

  /** A frame in use is a page directory, a page table or plain memory. */
  datatype Frame = Dir(pdes: seq<Pde>) | Table(ptes: seq<Pte>) | Page(data: Data)

  /** What a frame is for: the top of an address space, entry i of directory d, entry j of table t, or something else. */
  datatype Owner = Root | TableOf(d: nat, i: nat) | PageOf(t: nat, j: nat) | Loose

  datatype Mem = Mem(frames: map<nat, Frame>, owner: map<nat, Owner>)

  predicate IsDir(m: Mem, d: nat) {
    d in m.frames && m.frames[d].Dir? && |m.frames[d].pdes| == NPDENTRIES
  }

  predicate IsTable(m: Mem, t: nat) {
    t in m.frames && m.frames[t].Table? && |m.frames[t].ptes| == NPTENTRIES && t in m.owner && m.owner[t].TableOf?
  }

  /** Entry i of directory d is empty or leads to a table that is this entry's. */
  predicate PdeOk(m: Mem, d: nat, i: nat)
    requires IsDir(m, d) && i < NPDENTRIES
  {
    var e := m.frames[d].pdes[i];
    e.ToTable? ==> IsTable(m, e.t) && m.owner[e.t] == TableOf(d, i)
  }

  /** Entry j of a user table is empty or leads to a page that is this entry's. */
  predicate PteOk(m: Mem, t: nat, j: nat)
    requires IsTable(m, t) && j < NPTENTRIES
  {
    var e := m.frames[t].ptes[j];
    e.Present? && m.owner[t].i < KERNEL ==> e.frame in m.frames && m.frames[e.frame].Page? && e.frame in m.owner && m.owner[e.frame] == PageOf(t, j)
  }

  ghost predicate FrameOk(m: Mem, f: nat)
    requires f in m.frames && f in m.owner
  {
    match m.frames[f]
    case Dir(pdes) => m.owner[f] == Root && IsDir(m, f) && forall i | 0 <= i < NPDENTRIES :: PdeOk(m, f, i)
    case Table(ptes) =>
      && IsTable(m, f) && IsDir(m, m.owner[f].d) && m.owner[f].i < NPDENTRIES
      && m.frames[m.owner[f].d].pdes[m.owner[f].i] == ToTable(f)
      && forall j | 0 <= j < NPTENTRIES :: PteOk(m, f, j)
    case Page(data) =>
      || m.owner[f] == Loose
      || (&& m.owner[f].PageOf? && IsTable(m, m.owner[f].t) && m.owner[m.owner[f].t].i < KERNEL && m.owner[f].j < NPTENTRIES
          && var e := m.frames[m.owner[f].t].ptes[m.owner[f].j]; e.Present? && e.frame == f)
  }

  ghost predicate Inv(m: Mem) {
    && m.owner.Keys == m.frames.Keys
    && (forall f | f in m.frames :: FrameOk(m, f))
  }

  // ------------------------------------------------------------------ address spaces

  function Pdx(v: nat): (r: nat)
    requires v < NPAGES
    ensures r < NPDENTRIES
  {
    v / NPTENTRIES
  }

  function Ptx(v: nat): (r: nat)
    ensures r < NPTENTRIES
  {
    v % NPTENTRIES
  }

  lemma PageNumber(v: nat, u: nat)
    requires v < NPAGES && u < NPAGES
    ensures Pdx(v) == Pdx(u) && Ptx(v) == Ptx(u) <==> v == u
    ensures Pdx(v) < KERNEL <==> v < KERNEL * NPTENTRIES
  {
  }

  /** The table that serves virtual page v of space d. */
  function TableFor(m: Mem, d: nat, v: nat): Pde
    requires IsDir(m, d) && v < NPAGES
  {
    m.frames[d].pdes[Pdx(v)]
  }

  /** What virtual page v of space d is mapped to. */
  function Lookup(m: Mem, d: nat, v: nat): Pte
    requires IsDir(m, d) && v < NPAGES
  {
    var e := TableFor(m, d, v);
    if e.ToTable? && IsTable(m, e.t) then m.frames[e.t].ptes[Ptx(v)] else Absent
  }

  /** What a virtual page shows: nothing, or a mapping with, in the user half, the contents of the page. */
  datatype View = Hole | Shows(pte: Pte, data: Data)

  function ViewAt(m: Mem, d: nat, v: nat): View
    requires IsDir(m, d) && v < NPAGES
  {
    var e := Lookup(m, d, v);
    if e == Absent then Hole
    else if Pdx(v) < KERNEL && e.frame in m.frames && m.frames[e.frame].Page? then Shows(e, m.frames[e.frame].data)
    else Shows(e, [])
  }

  /** The frames of space d: its directory, its tables and its user pages. */
  predicate Belongs(m: Mem, f: nat, d: nat) {
    f == d ||
    (f in m.owner &&
     match m.owner[f]
     case TableOf(d', _) => d' == d
     case PageOf(t, _) => t in m.owner && m.owner[t].TableOf? && m.owner[t].d == d
     case _ => false)
  }

  predicate Rest(m: Mem, f: nat, d: nat) {
    f in m.frames && !Belongs(m, f, d)
  }

  /** Nothing but space d, and the frames of x, differs. */
  ghost predicate SameRest(m: Mem, m': Mem, d: nat, x: set<nat>) {
    forall f | f !in x :: SameFrame(m, m', d, f)
  }

  predicate SameFrame(m: Mem, m': Mem, d: nat, f: nat) {
    && (Rest(m, f, d) <==> Rest(m', f, d))
    && (Rest(m, f, d) ==> m'.frames[f] == m.frames[f] && f in m.owner && f in m'.owner && m'.owner[f] == m.owner[f])
  }

  /** Space d shows what it did outside the pages given. */
  ghost predicate SameView(m: Mem, m': Mem, d: nat, lo: nat, hi: nat) {
    IsDir(m, d) && IsDir(m', d) && forall v | 0 <= v < NPAGES && !(lo <= v < hi) :: ViewAt(m', d, v) == ViewAt(m, d, v)
  }

  // ------------------------------------------------------------------ single steps

  function SetFrame(m: Mem, f: nat, x: Frame): Mem {
    m.(frames := m.frames[f := x])
  }

  function Take(m: Mem, f: nat, data: Data): Mem {
    Mem(m.frames[f := Page(data)], m.owner[f := Loose])
  }

  function Drop(m: Mem, f: nat): Mem {
    Mem(m.frames - {f}, m.owner - {f})
  }

  function EmptyTable(): seq<Pte> {
    seq(NPTENTRIES, j => Absent)
  }

  function AddTable(m: Mem, d: nat, i: nat, t: nat): Mem
    requires IsDir(m, d) && i < NPDENTRIES
  {
    var m1 := SetFrame(m, t, Table(EmptyTable()));
    Mem(m1.frames[d := Dir(m.frames[d].pdes[i := ToTable(t)])], m.owner[t := TableOf(d, i)])
  }

  function SetPte(m: Mem, t: nat, j: nat, e: Pte): Mem
    requires IsTable(m, t) && j < NPTENTRIES
  {
    SetFrame(m, t, Table(m.frames[t].ptes[j := e]))
  }

  function MapPage(m: Mem, t: nat, j: nat, f: nat, flags: nat): Mem
    requires IsTable(m, t) && j < NPTENTRIES
  {
    SetPte(m, t, j, Present(f, flags)).(owner := m.owner[f := PageOf(t, j)])
  }

  function Unmap(m: Mem, t: nat, j: nat, f: nat): Mem
    requires IsTable(m, t) && j < NPTENTRIES
  {
    Mem((m.frames - {f})[t := Table(m.frames[t].ptes[j := Absent])], m.owner - {f})
  }

  ghost predicate IsLoose(m: Mem, f: nat) {
    f in m.frames && m.frames[f].Page? && f in m.owner && m.owner[f] == Loose
  }

  /** Only frame f, loose or unused before, is different, and it is loose. */
  ghost predicate LooseChange(m: Mem, m': Mem, f: nat) {
    && (f !in m.frames || IsLoose(m, f)) && IsLoose(m', f)
    && (forall g | g in m.frames && g != f :: g in m'.frames && m'.frames[g] == m.frames[g])
    && (forall g | g in m'.frames && g != f :: g in m.frames)
    && (forall g | g in m.owner && g != f :: g in m'.owner && m'.owner[g] == m.owner[g])
    && (forall g | g in m'.owner && g != f :: g in m.owner)
  }

  lemma LooseInv(m: Mem, m': Mem, f: nat)
    requires Inv(m) && LooseChange(m, m', f)
    ensures Inv(m')
  {
    forall g | g in m'.frames
      ensures FrameOk(m', g)
    {
      if g != f {
        assert FrameOk(m, g);
        KeepFrame(m, m', g, f);
      }
    }
    forall g
      ensures g in m'.owner.Keys <==> g in m'.frames.Keys
    {
      assert g in m.owner.Keys <==> g in m.frames.Keys;
    }
  }

  lemma TakeInv(m: Mem, f: nat, data: Data)
    requires Inv(m) && (f !in m.frames || IsLoose(m, f))
    ensures Inv(Take(m, f, data))
  {
    LooseInv(m, Take(m, f, data), f);
  }

  /** A frame stays good when only frame f, loose or unused, changes to loose. */
  lemma KeepFrame(m: Mem, m': Mem, g: nat, f: nat)
    requires g in m.frames && g in m.owner && FrameOk(m, g) && g != f
    requires f !in m.frames || IsLoose(m, f)
    requires forall h | h in m.frames && h != f :: h in m'.frames && m'.frames[h] == m.frames[h]
    requires forall h | h in m.owner && h != f :: h in m'.owner && m'.owner[h] == m.owner[h]
    ensures g in m'.frames && g in m'.owner && FrameOk(m', g)
  {
    match m.frames[g]
    case Dir(pdes) =>
      forall i | 0 <= i < NPDENTRIES
        ensures PdeOk(m', g, i)
      {
        assert PdeOk(m, g, i);
      }
    case Table(ptes) =>
      forall j | 0 <= j < NPTENTRIES
        ensures PteOk(m', g, j)
      {
        assert PteOk(m, g, j);
      }
    case Page(data) =>
  }

  lemma DropInv(m: Mem, f: nat)
    requires Inv(m) && IsLoose(m, f)
    ensures Inv(Drop(m, f))
  {
    var m' := Drop(m, f);
    forall g | g in m'.frames
      ensures FrameOk(m', g)
    {
      assert FrameOk(m, g);
      KeepFrame(m, m', g, f);
    }
  }

  lemma AddTableInv(m: Mem, d: nat, i: nat, t: nat)
    requires Inv(m) && IsDir(m, d) && i < NPDENTRIES && m.frames[d].pdes[i] == NoTable && IsLoose(m, t)
    ensures Inv(AddTable(m, d, i, t))
  {
    var m' := AddTable(m, d, i, t);
    forall g | g in m'.frames
      ensures FrameOk(m', g)
    {
      assert FrameOk(m, g) && FrameOk(m, d);
      AddTableFrame(m, d, i, t, g);
    }
  }

  lemma AddTableFrame(m: Mem, d: nat, i: nat, t: nat, g: nat)
    requires IsDir(m, d) && i < NPDENTRIES && m.frames[d].pdes[i] == NoTable && IsLoose(m, t)
    requires g in m.frames && g in m.owner && d in m.owner && FrameOk(m, g) && FrameOk(m, d)
    ensures var m' := AddTable(m, d, i, t); g in m'.owner && FrameOk(m', g)
  {
    var m' := AddTable(m, d, i, t);
    if m'.frames[g].Dir? {
      forall k | 0 <= k < NPDENTRIES
        ensures PdeOk(m', g, k)
      {
        assert PdeOk(m, g, k);
      }
    } else if m'.frames[g].Table? {
      forall j | 0 <= j < NPTENTRIES
        ensures PteOk(m', g, j)
      {
        assert g != t ==> PteOk(m, g, j);
      }
    }
  }

  /** Entry j of user table t changes; frame g stays good if what the entry led to, and leads to, is frame f. */
  lemma PteFrame(m: Mem, m': Mem, t: nat, j: nat, f: nat, g: nat)
    requires IsTable(m, t) && j < NPTENTRIES && f != t && f != g && IsTable(m', t) && m.owner[t].i < KERNEL
    requires g in m.frames && g in m.owner && FrameOk(m, g)
    requires f in m.frames && m.frames[f].Page? && f in m.owner && (m.owner[f] == Loose || m.owner[f] == PageOf(t, j))
    requires forall h | h in m.frames && h != t && h != f :: h in m'.frames && m'.frames[h] == m.frames[h]
    requires forall h | h in m.owner && h != f :: h in m'.owner && m'.owner[h] == m.owner[h]
    requires forall k | 0 <= k < NPTENTRIES && k != j :: m'.frames[t].ptes[k] == m.frames[t].ptes[k]
    requires m.frames[t].ptes[j].Present? ==> m.frames[t].ptes[j].frame == f
    requires PteOk(m', t, j)
    ensures g in m'.frames && g in m'.owner && FrameOk(m', g)
  {
    if m.frames[g].Dir? {
      forall k | 0 <= k < NPDENTRIES
        ensures PdeOk(m', g, k)
      {
        assert PdeOk(m, g, k);
      }
    } else if m.frames[g].Table? {
      forall k | 0 <= k < NPTENTRIES
        ensures PteOk(m', g, k)
      {
        assert PteOk(m, g, k);
      }
    }
  }

  lemma MapPageInv(m: Mem, t: nat, j: nat, f: nat, flags: nat)
    requires Inv(m) && IsTable(m, t) && m.owner[t].i < KERNEL && j < NPTENTRIES && m.frames[t].ptes[j] == Absent && IsLoose(m, f)
    ensures Inv(MapPage(m, t, j, f, flags))
  {
    var m' := MapPage(m, t, j, f, flags);
    forall g | g in m'.frames
      ensures FrameOk(m', g)
    {
      assert FrameOk(m, g);
      if g != f {
        PteFrame(m, m', t, j, f, g);
      }
    }
  }

  lemma UnmapInv(m: Mem, t: nat, j: nat, f: nat)
    requires Inv(m) && IsTable(m, t) && m.owner[t].i < KERNEL && j < NPTENTRIES
    requires m.frames[t].ptes[j].Present? && m.frames[t].ptes[j].frame == f
    ensures f in m.frames && Inv(Unmap(m, t, j, f))
  {
    assert FrameOk(m, t);
    assert PteOk(m, t, j);
    var m' := Unmap(m, t, j, f);
    forall g | g in m'.frames
      ensures FrameOk(m', g)
    {
      assert FrameOk(m, g);
      PteFrame(m, m', t, j, f, g);
    }
  }

  lemma MapKernelInv(m: Mem, t: nat, j: nat, e: Pte)
    requires Inv(m) && IsTable(m, t) && m.owner[t].i >= KERNEL && j < NPTENTRIES
    ensures Inv(SetPte(m, t, j, e))
  {
    var m' := SetPte(m, t, j, e);
    forall g | g in m'.frames
      ensures FrameOk(m', g)
    {
      assert FrameOk(m, g);
      MapKernelFrame(m, t, j, e, g);
    }
  }

  lemma MapKernelFrame(m: Mem, t: nat, j: nat, e: Pte, g: nat)
    requires IsTable(m, t) && m.owner[t].i >= KERNEL && j < NPTENTRIES
    requires g in m.frames && g in m.owner && FrameOk(m, g)
    ensures FrameOk(SetPte(m, t, j, e), g)
  {
    var m' := SetPte(m, t, j, e);
    if m.frames[g].Dir? {
      forall k | 0 <= k < NPDENTRIES
        ensures PdeOk(m', g, k)
      {
        assert PdeOk(m, g, k);
      }
    } else if m.frames[g].Table? {
      forall k | 0 <= k < NPTENTRIES
        ensures PteOk(m', g, k)
      {
        assert PteOk(m, g, k);
      }
    }
  }

  // ------------------------------------------------------------------ what the steps do to address spaces

  /** Where a user page is mapped from: nowhere else. */
  lemma MappedOnce(m: Mem, d: nat, v: nat, d': nat, v': nat)
    requires Inv(m) && IsDir(m, d) && IsDir(m, d') && v < KERNEL * NPTENTRIES && v' < KERNEL * NPTENTRIES
    requires Lookup(m, d, v).Present? && Lookup(m, d', v').Present? && Lookup(m, d, v).frame == Lookup(m, d', v').frame
    ensures d == d' && v == v'
  {
    LookupOk(m, d, v);
    LookupOk(m, d', v');
    PageNumber(v, v');
  }

  /** The way from a directory to an entry. */
  lemma LookupOk(m: Mem, d: nat, v: nat)
    requires Inv(m) && IsDir(m, d) && v < NPAGES
    ensures var e := TableFor(m, d, v);
            e.ToTable? ==> IsTable(m, e.t) && m.owner[e.t] == TableOf(d, Pdx(v)) && Lookup(m, d, v) == m.frames[e.t].ptes[Ptx(v)]
    ensures Lookup(m, d, v).Present? && v < KERNEL * NPTENTRIES ==>
              var f := Lookup(m, d, v).frame;
              f in m.frames && m.frames[f].Page? && m.owner[f] == PageOf(TableFor(m, d, v).t, Ptx(v))
  {
    assert FrameOk(m, d);
    assert PdeOk(m, d, Pdx(v));
    var e := TableFor(m, d, v);
    PageNumber(v, v);
    if e.ToTable? {
      assert FrameOk(m, e.t);
      assert PteOk(m, e.t, Ptx(v));
    }
  }

  lemma SameRestTwice(a: Mem, b: Mem, c: Mem, d: nat, x: set<nat>, y: set<nat>)
    requires SameRest(a, b, d, x) && SameRest(b, c, d, y)
    ensures SameRest(a, c, d, x + y)
  {
    forall f | f !in x + y
      ensures SameFrame(a, c, d, f)
    {
      assert SameFrame(a, b, d, f) && SameFrame(b, c, d, f);
    }
  }

  lemma SameRestStep(a: Mem, b: Mem, c: Mem, d: nat)
    requires SameRest(a, b, d, {}) && SameRest(b, c, d, {})
    ensures SameRest(a, c, d, {})
  {
    SameRestTwice(a, b, c, d, {}, {});
    forall f | f !in {}
      ensures SameFrame(a, c, d, f)
    {
      assert f !in {} + {};
    }
  }

  /** The other spaces do not change. */
  lemma OtherSpaces(m: Mem, m': Mem, d: nat, d': nat, v: nat)
    requires Inv(m) && Inv(m') && SameRest(m, m', d, {}) && d' != d && IsDir(m, d') && v < NPAGES
    requires d in m.frames ==> m.frames[d].Dir?
    ensures IsDir(m', d') && ViewAt(m', d', v) == ViewAt(m, d', v)
  {
    LookupOk(m, d', v);
    assert FrameOk(m, d');
    assert SameFrame(m, m', d, d');
    var e := TableFor(m, d', v);
    PageNumber(v, v);
    if e.ToTable? {
      assert Rest(m, e.t, d) && SameFrame(m, m', d, e.t);
      assert Lookup(m', d', v) == Lookup(m, d', v);
      if Lookup(m, d', v).Present? && Pdx(v) < KERNEL {
        assert Rest(m, Lookup(m, d', v).frame, d) && SameFrame(m, m', d, Lookup(m, d', v).frame);
      }
    }
  }

  lemma AddTableSame(m: Mem, d: nat, i: nat, t: nat)
    requires Inv(m) && IsDir(m, d) && i < NPDENTRIES && m.frames[d].pdes[i] == NoTable && IsLoose(m, t)
    ensures SameRest(m, AddTable(m, d, i, t), d, {t}) && Belongs(AddTable(m, d, i, t), t, d)
    ensures SameView(m, AddTable(m, d, i, t), d, 0, 0)
  {
    var m' := AddTable(m, d, i, t);
    forall f | f != t
      ensures SameFrame(m, m', d, f)
    {
      if f in m.frames {
        assert FrameOk(m, f);
      }
    }
    forall v | 0 <= v < NPAGES
      ensures ViewAt(m', d, v) == ViewAt(m, d, v)
    {
      LookupOk(m, d, v);
      PageNumber(v, v);
    }
  }

  lemma MapPageSame(m: Mem, d: nat, v: nat, t: nat, f: nat, flags: nat)
    requires Inv(m) && IsDir(m, d) && v < KERNEL * NPTENTRIES && TableFor(m, d, v) == ToTable(t) && IsTable(m, t)
    requires Lookup(m, d, v) == Absent && IsLoose(m, f)
    ensures var m' := MapPage(m, t, Ptx(v), f, flags);
            && SameRest(m, m', d, {f}) && Belongs(m', f, d)
            && SameView(m, m', d, v, v + 1) && ViewAt(m', d, v) == Shows(Present(f, flags), m.frames[f].data)
  {
    var m' := MapPage(m, t, Ptx(v), f, flags);
    LookupOk(m, d, v);
    PageNumber(v, v);
    forall g | g != f
      ensures SameFrame(m, m', d, g)
    {
      if g in m.frames {
        assert FrameOk(m, g);
      }
    }
    forall u | 0 <= u < NPAGES && u != v
      ensures ViewAt(m', d, u) == ViewAt(m, d, u)
    {
      LookupOk(m, d, u);
      PageNumber(u, v);
    }
  }

  lemma UnmapSame(m: Mem, d: nat, v: nat, t: nat, f: nat)
    requires Inv(m) && IsDir(m, d) && v < KERNEL * NPTENTRIES && TableFor(m, d, v) == ToTable(t) && IsTable(m, t)
    requires Lookup(m, d, v).Present? && Lookup(m, d, v).frame == f
    ensures var m' := Unmap(m, t, Ptx(v), f);
            SameRest(m, m', d, {}) && SameView(m, m', d, v, v + 1) && ViewAt(m', d, v) == Hole
  {
    var m' := Unmap(m, t, Ptx(v), f);
    LookupOk(m, d, v);
    PageNumber(v, v);
    forall g | g !in {}
      ensures SameFrame(m, m', d, g)
    {
      if g in m.frames {
        assert FrameOk(m, g);
      }
    }
    forall u | 0 <= u < NPAGES && u != v
      ensures ViewAt(m', d, u) == ViewAt(m, d, u)
    {
      LookupOk(m, d, u);
      PageNumber(u, v);
    }
  }

  lemma MapKernelSame(m: Mem, d: nat, v: nat, t: nat, e: Pte)
    requires Inv(m) && IsDir(m, d) && KERNEL * NPTENTRIES <= v < NPAGES && TableFor(m, d, v) == ToTable(t) && IsTable(m, t)
    requires e.Present?
    ensures var m' := SetPte(m, t, Ptx(v), e);
            SameRest(m, m', d, {}) && SameView(m, m', d, v, v + 1) && ViewAt(m', d, v) == Shows(e, [])
  {
    var m' := SetPte(m, t, Ptx(v), e);
    LookupOk(m, d, v);
    PageNumber(v, v);
    forall g | g !in {}
      ensures SameFrame(m, m', d, g)
    {
      if g in m.frames {
        assert FrameOk(m, g);
      }
    }
    forall u | 0 <= u < NPAGES && u != v
      ensures ViewAt(m', d, u) == ViewAt(m, d, u)
    {
      LookupOk(m, d, u);
      PageNumber(u, v);
    }
  }

  /** Taking or giving back a loose frame shows in no space. */
  lemma LooseSame(m: Mem, m': Mem, d: nat, f: nat)
    requires Inv(m) && IsDir(m, d) && (f !in m.frames || IsLoose(m, f))
    requires forall g | g in m.frames && g != f :: g in m'.frames && m'.frames[g] == m.frames[g]
    requires forall g | g in m'.frames && g != f :: g in m.frames
    requires forall g | g in m.owner && g != f :: g in m'.owner && m'.owner[g] == m.owner[g]
    requires forall g | g in m'.owner && g != f :: g in m.owner
    ensures SameRest(m, m', d, {f}) && SameView(m, m', d, 0, 0)
  {
    forall g | g != f
      ensures SameFrame(m, m', d, g)
    {
      if g in m.frames {
        assert FrameOk(m, g);
      }
    }
    forall v | 0 <= v < NPAGES
      ensures ViewAt(m', d, v) == ViewAt(m, d, v)
    {
      LookupOk(m, d, v);
      PageNumber(v, v);
    }
  }

  // ------------------------------------------------------------------ taking a space apart

  /** The memory without space d. */
  ghost predicate Without(m: Mem, m': Mem, d: nat) {
    && (forall f :: f in m'.frames <==> Rest(m, f, d))
    && (forall f | f in m'.frames :: m'.frames[f] == m.frames[f])
    && m'.owner.Keys == m'.frames.Keys
    && (forall f | f in m'.frames :: f in m.owner && m'.owner[f] == m.owner[f])
  }

  lemma WithoutInv(m: Mem, m': Mem, d: nat)
    requires Inv(m) && IsDir(m, d) && Without(m, m', d)
    ensures Inv(m')
  {
    forall f | f in m'.frames
      ensures FrameOk(m', f)
    {
      assert FrameOk(m, f);
      WithoutFrame(m, m', d, f);
    }
  }

  lemma WithoutFrame(m: Mem, m': Mem, d: nat, f: nat)
    requires Inv(m) && IsDir(m, d) && Without(m, m', d) && f in m'.frames && f in m.frames && f in m.owner && f in m'.owner && FrameOk(m, f)
    ensures FrameOk(m', f)
  {
    if m.frames[f].Dir? {
      forall i | 0 <= i < NPDENTRIES
        ensures PdeOk(m', f, i)
      {
        assert PdeOk(m, f, i);
      }
    } else if m.frames[f].Table? {
      forall j | 0 <= j < NPTENTRIES
        ensures PteOk(m', f, j)
      {
        assert PteOk(m, f, j);
      }
    }
  }

  lemma RestBefore(m: Mem, d: nat, f: nat)
    requires Inv(m) && d !in m.frames
    ensures f in m.frames ==> Rest(m, f, d)
  {
    if f in m.frames {
      assert FrameOk(m, f);
    }
  }

  lemma BuiltFrame(m0: Mem, m: Mem, m': Mem, d: nat, f: nat)
    requires Inv(m0) && d !in m0.frames && SameRest(m0, m, d, {}) && Without(m, m', d)
    ensures f in m'.frames <==> f in m0.frames
    ensures f in m'.owner <==> f in m0.owner
    ensures f in m0.frames ==> m'.frames[f] == m0.frames[f] && m'.owner[f] == m0.owner[f]
  {
    assert SameFrame(m0, m, d, f);
    RestBefore(m0, d, f);
    assert f in m'.owner.Keys <==> f in m'.frames.Keys;
    assert f in m0.owner.Keys <==> f in m0.frames.Keys;
  }

  /** A space built up from nothing and taken apart again leaves no trace. */
  lemma BuiltAndFreed(m0: Mem, m: Mem, m': Mem, d: nat)
    requires Inv(m0) && d !in m0.frames && SameRest(m0, m, d, {}) && Without(m, m', d)
    ensures m' == m0
  {
    forall f
      ensures f in m'.frames <==> f in m0.frames
      ensures f in m'.owner <==> f in m0.owner
      ensures f in m0.frames ==> m'.frames[f] == m0.frames[f]
      ensures f in m0.owner ==> m'.owner[f] == m0.owner[f]
    {
      BuiltFrame(m0, m, m', d, f);
      assert f in m0.owner.Keys <==> f in m0.frames.Keys;
    }
    hide Inv, SameRest, Without;
    assert m'.frames == m0.frames;
    assert m'.owner == m0.owner;
  }
}
