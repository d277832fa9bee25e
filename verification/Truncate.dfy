/** itrunc of xv6/fs.c: it frees exactly the blocks of its inode. */
module Truncate {
  import opened Blocks
  import opened Common
  import opened FsSpec
  import opened FsLemmas
  import opened FileSystem
  import opened FileIO

  /** bfree touches a bitmap block and nothing that holds addresses or data. */
  lemma FreeSame(l: Layout, fs: Fs, owner: map<nat, Slot>, dead: set<Slot>, b: nat)
    requires Owned(l, fs, owner, dead) && Marked(l, fs.blocks, owner, {}) && b in owner
    ensures l.datastart <= b < l.size && Used(l, fs.blocks, b)
    ensures var fs' := Fs(FreeBlocks(l, fs.blocks, b), fs.inodes);
            && SameIndirect(l, fs, fs') && Owned(l, fs', owner, dead) && Marked(l, fs'.blocks, owner - {b}, {})
            && forall x | l.datastart <= x < l.size :: fs'.blocks[x] == fs.blocks[x]
  {
    FreeMarks(l, fs.blocks, owner, b);
    var fs' := Fs(FreeBlocks(l, fs.blocks, b), fs.inodes);
    ElsewhereSame(l, fs, owner, dead, BBlock(l, b), fs'.blocks[BBlock(l, b)]);
    assert fs'.blocks == fs.blocks[BBlock(l, b) := fs'.blocks[BBlock(l, b)]];
    SameOwned(l, fs, fs', owner, dead);
  }

  /** Rewriting metadata blocks alone leaves the other files as they are. */
  lemma OthersSame(l: Layout, fs: Fs, fs': Fs, owner: map<nat, Slot>, dead: set<Slot>, inum: nat)
    requires Owned(l, fs, owner, dead) && SameIndirect(l, fs, fs') && forall s | s in dead :: s.inum == inum
    requires forall x | l.datastart <= x < l.size :: fs'.blocks[x] == fs.blocks[x]
    ensures SameOthers(l, fs, fs', inum)
  {
    forall i: nat, n: nat | i < |fs.inodes| && i != inum && n < MAXFILE ensures SameBlock(l, fs, fs', i, n) {
      SameAddrs(l, fs, fs', SlotFor(i, n));
      assert SlotFor(i, n) !in dead;
    }
  }

  /** So does clearing a slot of file inum. */
  lemma OthersKept(l: Layout, fs: Fs, fs1: Fs, fs': Fs, inum: nat, s: Slot)
    requires SameOthers(l, fs, fs1, inum) && OnlySlot(l, fs1, fs', s) && s.inum == inum && fs'.blocks == fs1.blocks
    requires SameShape(l, fs1, fs')
    ensures SameOthers(l, fs, fs', inum)
  {
    forall i: nat, n: nat | i < |fs.inodes| && i != inum && n < MAXFILE ensures SameBlock(l, fs, fs', i, n) {
      assert SameBlock(l, fs, fs1, i, n);
      assert ValidSlot(fs1, SlotFor(i, n)) && SlotFor(i, n) != s;
    }
  }

  lemma OthersTransitive(l: Layout, fs0: Fs, fs: Fs, fs': Fs, inum: nat)
    requires SameOthers(l, fs0, fs, inum) && SameOthers(l, fs, fs', inum)
    ensures SameOthers(l, fs0, fs', inum)
  {
    forall i: nat, n: nat | i < |fs0.inodes| && i != inum && n < MAXFILE ensures SameBlock(l, fs0, fs', i, n) {
      assert SameBlock(l, fs0, fs, i, n) && SameBlock(l, fs, fs', i, n);
    }
  }

  /** Freeing a direct block and clearing its slot. */
  lemma FreeDirect(l: Layout, fs: Fs, owner: map<nat, Slot>, inum: nat, k: nat)
    requires FsInv(l, fs, owner) && inum < |fs.inodes| && k < NDIRECT && fs.inodes[inum].addrs[k] != 0
    ensures var b := fs.inodes[inum].addrs[k];
            && b in owner && owner[b] == Direct(inum, k) && b < l.size && Used(l, fs.blocks, b)
            && var fs' := SetAddr(Fs(FreeBlocks(l, fs.blocks, b), fs.inodes), inum, k, 0);
               FsInv(l, fs', owner - {b}) && SameOthers(l, fs, fs', inum)
  {
    hide FreeBlocks, Marked, Used;
    var b, s := fs.inodes[inum].addrs[k], Direct(inum, k);
    assert ValidSlot(fs, s) && AddrOf(l, fs, s) == b;
    FreeSame(l, fs, owner, {}, b);
    var fs1 := Fs(FreeBlocks(l, fs.blocks, b), fs.inodes);
    SameAddrs(l, fs, fs1, s);
    SetDirect(l, fs1, inum, k, 0);
    var fs' := SetAddr(fs1, inum, k, 0);
    ReleaseOwned(l, fs1, fs', owner, {}, s);
    OthersSame(l, fs, fs1, owner, {}, inum);
    OthersKept(l, fs, fs1, fs', inum, s);
  }

  /** Freeing the block of an indirect entry; the entry itself stays as it is. */
  lemma FreeEntry(l: Layout, fs: Fs, owner: map<nat, Slot>, dead: set<Slot>, inum: nat, k: nat)
    requires Owned(l, fs, owner, dead) && Marked(l, fs.blocks, owner, {}) && inum < |fs.inodes| && k < WORDS
    requires Entry(inum, k) !in dead && AddrOf(l, fs, Entry(inum, k)) != 0
    ensures var b := AddrOf(l, fs, Entry(inum, k));
            && b in owner && owner[b] == Entry(inum, k) && b < l.size && Used(l, fs.blocks, b)
            && var fs' := Fs(FreeBlocks(l, fs.blocks, b), fs.inodes);
            && Owned(l, fs', owner - {b}, dead + {Entry(inum, k)}) && Marked(l, fs'.blocks, owner - {b}, {})
            && SameIndirect(l, fs, fs')
            && forall x | l.datastart <= x < l.size :: fs'.blocks[x] == fs.blocks[x]
  {
    var s := Entry(inum, k);
    var b := AddrOf(l, fs, s);
    FreeSame(l, fs, owner, dead, b);
    var fs' := Fs(FreeBlocks(l, fs.blocks, b), fs.inodes);
    SameAddrs(l, fs, fs', s);
    ReleaseOwned(l, fs', fs', owner, dead, s);
  }

  /** Without its indirect block a file has no entries; every other slot is as it was. */
  lemma DroppedAddr(l: Layout, fs: Fs, fs1: Fs, inum: nat, s: Slot)
    requires SameIndirect(l, fs, fs1) && inum < |fs.inodes| && ValidSlot(fs, s)
    ensures var fs' := SetAddr(fs1, inum, NDIRECT, 0);
            && WfFs(l, fs') && |fs'.inodes| == |fs.inodes|
            && AddrOf(l, fs', s) == if s == Indirect(inum) || (s.Entry? && s.inum == inum) then 0 else AddrOf(l, fs, s)
  {
    SameAddrs(l, fs, fs1, s);
  }

  /** Freeing the indirect block once all its entries have been freed. */
  lemma FreeIndirect(l: Layout, fs: Fs, owner: map<nat, Slot>, dead: set<Slot>, inum: nat)
    requires Owned(l, fs, owner, dead) && Marked(l, fs.blocks, owner, {}) && inum < |fs.inodes|
    requires fs.inodes[inum].addrs[NDIRECT] != 0
    requires forall s | s in dead :: s.inum == inum
    requires forall k: nat | k < WORDS :: Entry(inum, k) in dead || AddrOf(l, fs, Entry(inum, k)) == 0
    ensures var b := fs.inodes[inum].addrs[NDIRECT];
            && b in owner && owner[b] == Indirect(inum) && b < l.size && Used(l, fs.blocks, b)
            && var fs' := SetAddr(Fs(FreeBlocks(l, fs.blocks, b), fs.inodes), inum, NDIRECT, 0);
               FsInv(l, fs', owner - {b}) && SameOthers(l, fs, fs', inum)
  {
    var b := fs.inodes[inum].addrs[NDIRECT];
    assert ValidSlot(fs, Indirect(inum)) && AddrOf(l, fs, Indirect(inum)) == b;
    FreeSame(l, fs, owner, dead, b);
    var fs1 := Fs(FreeBlocks(l, fs.blocks, b), fs.inodes);
    var fs' := SetAddr(fs1, inum, NDIRECT, 0);
    hide FreeBlocks, Marked, Used, AddrOf, Owned, SameOthers, SameIndirect;
    forall s: Slot | ValidSlot(fs, s)
      ensures AddrOf(l, fs', s) == if s == Indirect(inum) || (s.Entry? && s.inum == inum) then 0 else AddrOf(l, fs, s)
    {
      DroppedAddr(l, fs, fs1, inum, s);
    }
    OthersSame(l, fs, fs1, owner, dead, inum);
    IndirectCleared(l, fs, fs', owner, dead, inum);
    OthersCleared(l, fs, fs1, fs', inum);
  }

  lemma OthersCleared(l: Layout, fs: Fs, fs1: Fs, fs': Fs, inum: nat)
    requires SameOthers(l, fs, fs1, inum) && WfFs(l, fs') && fs'.blocks == fs1.blocks && SameShape(l, fs1, fs')
    requires forall s: Slot | ValidSlot(fs, s) && s.inum != inum :: AddrOf(l, fs', s) == AddrOf(l, fs, s)
    ensures SameOthers(l, fs, fs', inum)
  {
    forall i: nat, n: nat | i < |fs.inodes| && i != inum && n < MAXFILE ensures SameBlock(l, fs, fs', i, n) {
      assert SameBlock(l, fs, fs1, i, n);
      assert ValidSlot(fs, SlotFor(i, n));
    }
  }

  lemma IndirectCleared(l: Layout, fs: Fs, fs': Fs, owner: map<nat, Slot>, dead: set<Slot>, inum: nat)
    requires Owned(l, fs, owner, dead) && WfFs(l, fs') && |fs'.inodes| == |fs.inodes| && inum < |fs.inodes|
    requires forall s | s in dead :: s.inum == inum
    requires forall k: nat | k < WORDS :: Entry(inum, k) in dead || AddrOf(l, fs, Entry(inum, k)) == 0
    requires forall s: Slot | ValidSlot(fs, s) ::
      AddrOf(l, fs', s) == if s == Indirect(inum) || (s.Entry? && s.inum == inum) then 0 else AddrOf(l, fs, s)
    ensures Owned(l, fs', owner - {AddrOf(l, fs, Indirect(inum))}, {})
  {
    var b := AddrOf(l, fs, Indirect(inum));
    var owner' := owner - {b};
    hide AddrOf;
    forall s: Slot | ValidSlot(fs', s) && AddrOf(l, fs', s) != 0
      ensures AddrOf(l, fs', s) in owner' && owner'[AddrOf(l, fs', s)] == s
    {
      assert s !in dead && AddrOf(l, fs', s) == AddrOf(l, fs, s);
      assert owner[AddrOf(l, fs, s)] == s;
    }
    forall x | x in owner'
      ensures ValidSlot(fs', owner'[x]) && AddrOf(l, fs', owner'[x]) == x
    {
      assert AddrOf(l, fs, owner[x]) == x;
    }
  }

  // ----- The loops of itrunc -------------------------------------------------------------------

  /** owner has lost nothing but slots of file inum. */
  ghost predicate Kept(owner0: map<nat, Slot>, owner: map<nat, Slot>, inum: nat)
  {
    && (forall b | b in owner :: b in owner0 && owner0[b] == owner[b])
    && forall b | b in owner0 && owner0[b].inum != inum :: b in owner
  }

  lemma KeptStep(owner0: map<nat, Slot>, owner: map<nat, Slot>, inum: nat, b: nat)
    requires Kept(owner0, owner, inum) && b in owner && owner[b].inum == inum
    ensures Kept(owner0, owner - {b}, inum)
  {
  }

  /** The first upto addresses of file inum are cleared, and nothing of another file is touched. */
  ghost predicate Cut(v: Volume, fs0: Fs, owner0: map<nat, Slot>, inum: nat, upto: nat)
    reads v
  {
    && v.Valid() && SameOthers(v.l, fs0, v.Img(), inum) && Kept(owner0, v.owner, inum)
    && inum < |v.inodes| && upto <= NDIRECT + 1
    && v.inodes == fs0.inodes[inum := v.inodes[inum]]
    && forall k: nat | k < upto :: v.inodes[inum].addrs[k] == 0
  }

  /** The body of the first loop. */
  method CutDirect(v: Volume, ghost fs0: Fs, ghost owner0: map<nat, Slot>, inum: nat, i: nat) returns (ok: bool)
    requires Cut(v, fs0, owner0, inum, i) && i < NDIRECT
    modifies v`blocks, v`inodes, v`logged, v`owner
    ensures AllLogged(old(v.blocks), v.blocks, v.logged) && old(v.logged) <= v.logged
    ensures ok && Cut(v, fs0, owner0, inum, i + 1)
  {
    ok := true;
    CutWf(v, fs0, owner0, inum, i);
    hide FsInv, SameOthers, FreeBlocks, Used, Kept;
    var b := v.inodes[inum].addrs[i];
    if b != 0 {
      DirectReady(v, fs0, owner0, inum, i);
      ok := v.Bfree(b);
      v.owner := v.owner - {b};
      var ip := v.inodes[inum];
      v.inodes := v.inodes[inum := Inode(ip.device, ip.size, ip.addrs[i := 0])];
    }
  }

  lemma CutWf(v: Volume, fs0: Fs, owner0: map<nat, Slot>, inum: nat, i: nat)
    requires Cut(v, fs0, owner0, inum, i)
    ensures WfFs(v.l, v.Img()) && inum < |fs0.inodes|
  {
  }

  lemma DirectReady(v: Volume, fs0: Fs, owner0: map<nat, Slot>, inum: nat, i: nat)
    requires Cut(v, fs0, owner0, inum, i) && i < NDIRECT && WfFs(v.l, v.Img()) && v.inodes[inum].addrs[i] != 0
    ensures var b := v.inodes[inum].addrs[i];
            && b < v.l.size && Used(v.l, v.blocks, b)
            && var fs' := SetAddr(Fs(FreeBlocks(v.l, v.blocks, b), v.inodes), inum, i, 0);
               FsInv(v.l, fs', v.owner - {b}) && SameOthers(v.l, fs0, fs', inum) && Kept(owner0, v.owner - {b}, inum)
  {
    hide FsInv, SameOthers, FreeBlocks, Used;
    var fs, b := v.Img(), v.inodes[inum].addrs[i];
    FreeDirect(v.l, fs, v.owner, inum, i);
    KeptStep(owner0, v.owner, inum, b);
    OthersTransitive(v.l, fs0, fs, SetAddr(Fs(FreeBlocks(v.l, fs.blocks, b), fs.inodes), inum, i, 0), inum);
  }

  /** The second loop under way: the blocks of the first j entries are free again. */
  ghost predicate CutEntries(v: Volume, fs0: Fs, owner0: map<nat, Slot>, inum: nat, j: nat, dead: set<Slot>)
    reads v
  {
    && Owned(v.l, v.Img(), v.owner, dead) && Marked(v.l, v.blocks, v.owner, {})
    && SameOthers(v.l, fs0, v.Img(), inum) && Kept(owner0, v.owner, inum)
    && inum < |v.inodes| && v.inodes == fs0.inodes[inum := v.inodes[inum]]
    && EntriesDone(v.l, v.Img(), inum, j, dead)
  }

  /** Entries below j of the indirect block of file inum are dead or empty, and no other slot is dead. */
  ghost predicate EntriesDone(l: Layout, fs: Fs, inum: nat, j: nat, dead: set<Slot>)
  {
    && WfFs(l, fs) && inum < |fs.inodes|
    && (forall s | s in dead :: s.inum == inum && s.Entry? && s.k < j)
    && forall k: nat | k < j && k < WORDS :: Entry(inum, k) in dead || AddrOf(l, fs, Entry(inum, k)) == 0
  }

  /** The body of the second loop. */
  method CutEntry(v: Volume, ghost fs0: Fs, ghost owner0: map<nat, Slot>, inum: nat, j: nat, a: nat, ghost dead: set<Slot>)
    returns (ok: bool, ghost dead': set<Slot>)
    requires CutEntries(v, fs0, owner0, inum, j, dead) && j < WORDS && a == AddrOf(v.l, v.Img(), Entry(inum, j))
    modifies v`blocks, v`logged, v`owner
    ensures AllLogged(old(v.blocks), v.blocks, v.logged) && old(v.logged) <= v.logged
    ensures ok && CutEntries(v, fs0, owner0, inum, j + 1, dead')
    ensures SameIndirect(v.l, old(v.Img()), v.Img())
  {
    hide Owned, Marked, SameOthers, FreeBlocks, Used, Kept, SameIndirect, EntriesDone, AddrOf;
    ok, dead' := true, dead;
    CutEntriesWf(v, fs0, owner0, inum, j, dead);
    EntriesSkip(v.l, v.Img(), inum, j, dead);
    if a != 0 {
      EntryReady(v, fs0, owner0, inum, j, dead);
      dead' := dead + {Entry(inum, j)};
      ok := v.Bfree(a);
      v.owner := v.owner - {a};
    } else {
      SameIndirectReflexive(v.l, v.Img());
    }
  }

  lemma EntryReady(v: Volume, fs0: Fs, owner0: map<nat, Slot>, inum: nat, j: nat, dead: set<Slot>)
    requires CutEntries(v, fs0, owner0, inum, j, dead) && j < WORDS && AddrOf(v.l, v.Img(), Entry(inum, j)) != 0
    ensures var a := AddrOf(v.l, v.Img(), Entry(inum, j));
            && a < v.l.size && Used(v.l, v.blocks, a)
            && var fs' := Fs(FreeBlocks(v.l, v.blocks, a), v.inodes);
            && Owned(v.l, fs', v.owner - {a}, dead + {Entry(inum, j)}) && Marked(v.l, fs'.blocks, v.owner - {a}, {})
            && SameIndirect(v.l, v.Img(), fs') && SameOthers(v.l, fs0, fs', inum) && Kept(owner0, v.owner - {a}, inum)
            && EntriesDone(v.l, fs', inum, j + 1, dead + {Entry(inum, j)})
  {
    hide Marked, FreeBlocks, Used, AddrOf;
    var fs := v.Img();
    var a := AddrOf(v.l, fs, Entry(inum, j));
    FreeEntry(v.l, fs, v.owner, dead, inum, j);
    var fs' := Fs(FreeBlocks(v.l, fs.blocks, a), fs.inodes);
    OthersSame(v.l, fs, fs', v.owner, dead, inum);
    OthersTransitive(v.l, fs0, fs, fs', inum);
    KeptStep(owner0, v.owner, inum, a);
    EntriesCut(v.l, fs, fs', inum, j, dead);
  }

  lemma SameIndirectReflexive(l: Layout, fs: Fs)
    requires WfFs(l, fs)
    ensures SameIndirect(l, fs, fs)
  {
  }

  lemma EntriesCut(l: Layout, fs: Fs, fs': Fs, inum: nat, j: nat, dead: set<Slot>)
    requires SameIndirect(l, fs, fs') && EntriesDone(l, fs, inum, j, dead) && j < WORDS
    ensures EntriesDone(l, fs', inum, j + 1, dead + {Entry(inum, j)})
  {
    forall k: nat | k < j && k < WORDS ensures AddrOf(l, fs', Entry(inum, k)) == AddrOf(l, fs, Entry(inum, k)) {
      SameAddrs(l, fs, fs', Entry(inum, k));
    }
  }

  lemma EntriesSkip(l: Layout, fs: Fs, inum: nat, j: nat, dead: set<Slot>)
    requires EntriesDone(l, fs, inum, j, dead) && j < WORDS
    ensures AddrOf(l, fs, Entry(inum, j)) == 0 ==> EntriesDone(l, fs, inum, j + 1, dead)
  {
  }

  lemma EntryIs(l: Layout, fs: Fs, inum: nat, ind: nat, data: Block, j: nat)
    requires WfFs(l, fs) && inum < |fs.inodes| && fs.inodes[inum].addrs[NDIRECT] == ind && j < WORDS
    requires 0 < ind < |fs.blocks| && fs.blocks[ind] == data
    ensures AddrOf(l, fs, Entry(inum, j)) == GetWord(data, j)
  {
  }

  lemma IndirectStays(l: Layout, fs: Fs, fs': Fs, inum: nat, ind: nat)
    requires SameIndirect(l, fs, fs') && inum < |fs.inodes| && fs.inodes[inum].addrs[NDIRECT] == ind && 0 < ind < |fs.blocks|
    ensures ind < |fs'.blocks| && fs'.blocks[ind] == fs.blocks[ind] && fs'.inodes == fs.inodes
  {
  }

  lemma StartEntries(v: Volume, fs0: Fs, owner0: map<nat, Slot>, inum: nat)
    requires Cut(v, fs0, owner0, inum, NDIRECT)
    ensures CutEntries(v, fs0, owner0, inum, 0, {})
    ensures v.inodes[inum].addrs[NDIRECT] != 0 ==> 0 < v.inodes[inum].addrs[NDIRECT] < |v.blocks|
    ensures WfFs(v.l, v.Img())
  {
    IndirectInRange(v.l, v.Img(), v.owner, inum);
  }

  /** The loop over the indirect block, whose contents are data. */
  method CutAllEntries(v: Volume, ghost fs0: Fs, ghost owner0: map<nat, Slot>, inum: nat, ind: nat, data: Block)
    returns (ok: bool, ghost dead: set<Slot>)
    requires CutEntries(v, fs0, owner0, inum, 0, {}) && WfFs(v.l, v.Img())
    requires v.inodes[inum].addrs[NDIRECT] == ind && 0 < ind < |v.blocks| && v.blocks[ind] == data
    modifies v`blocks, v`logged, v`owner
    ensures AllLogged(old(v.blocks), v.blocks, v.logged) && old(v.logged) <= v.logged
    ensures ok && CutEntries(v, fs0, owner0, inum, WORDS, dead)
  {
    dead, ok := {}, true;
    for j := 0 to WORDS
      invariant ok && CutEntries(v, fs0, owner0, inum, j, dead) && WfFs(v.l, v.Img()) && inum < |v.inodes|
      invariant v.inodes == old(v.inodes) && ind < |v.blocks| && v.blocks[ind] == data
      invariant AllLogged(old(v.blocks), v.blocks, v.logged) && old(v.logged) <= v.logged
    {
      hide CutEntries, SameIndirect, AddrOf;
      ghost var fs := v.Img();
      EntryIs(v.l, fs, inum, ind, data, j);
      ok, dead := CutEntry(v, fs0, owner0, inum, j, GetWord(data, j), dead);
      IndirectStays(v.l, fs, v.Img(), inum, ind);
      CutEntriesWf(v, fs0, owner0, inum, j + 1, dead);
    }
  }

  lemma CutEntriesWf(v: Volume, fs0: Fs, owner0: map<nat, Slot>, inum: nat, j: nat, dead: set<Slot>)
    requires CutEntries(v, fs0, owner0, inum, j, dead)
    ensures WfFs(v.l, v.Img())
  {
  }

  /** Free the indirect block itself and clear its slot. */
  method DropIndirect(v: Volume, ghost fs0: Fs, ghost owner0: map<nat, Slot>, inum: nat, ghost dead: set<Slot>) returns (ok: bool)
    requires CutEntries(v, fs0, owner0, inum, WORDS, dead) && v.inodes[inum].addrs[NDIRECT] != 0
    requires forall k: nat | k < NDIRECT :: v.inodes[inum].addrs[k] == 0
    modifies v`blocks, v`inodes, v`logged, v`owner
    ensures AllLogged(old(v.blocks), v.blocks, v.logged) && old(v.logged) <= v.logged
    ensures ok && Cut(v, fs0, owner0, inum, NDIRECT + 1)
  {
    DropReady(v, fs0, owner0, inum, dead);
    hide CutEntries, FsInv, SameOthers, FreeBlocks, Used, Kept;
    var b := v.inodes[inum].addrs[NDIRECT];
    ok := v.Bfree(b);
    v.owner := v.owner - {b};
    var ip := v.inodes[inum];
    v.inodes := v.inodes[inum := Inode(ip.device, ip.size, ip.addrs[NDIRECT := 0])];
  }

  lemma DropReady(v: Volume, fs0: Fs, owner0: map<nat, Slot>, inum: nat, dead: set<Slot>)
    requires CutEntries(v, fs0, owner0, inum, WORDS, dead) && v.inodes[inum].addrs[NDIRECT] != 0
    ensures WfFs(v.l, v.Img()) && inum < |fs0.inodes| && v.inodes == fs0.inodes[inum := v.inodes[inum]]
    ensures var b := v.inodes[inum].addrs[NDIRECT];
            && b < v.l.size && Used(v.l, v.blocks, b)
            && var fs' := SetAddr(Fs(FreeBlocks(v.l, v.blocks, b), v.inodes), inum, NDIRECT, 0);
               FsInv(v.l, fs', v.owner - {b}) && SameOthers(v.l, fs0, fs', inum) && Kept(owner0, v.owner - {b}, inum)
  {
    hide FreeBlocks, Used, AddrOf, Marked;
    var fs, b := v.Img(), v.inodes[inum].addrs[NDIRECT];
    FreeIndirect(v.l, fs, v.owner, dead, inum);
    KeptStep(owner0, v.owner, inum, b);
    OthersTransitive(v.l, fs0, fs, SetAddr(Fs(FreeBlocks(v.l, fs.blocks, b), fs.inodes), inum, NDIRECT, 0), inum);
  }

  /** The block of addrs[NDIRECT] and everything behind it. */
  method CutIndirect(v: Volume, ghost fs0: Fs, ghost owner0: map<nat, Slot>, inum: nat) returns (ok: bool)
    requires Cut(v, fs0, owner0, inum, NDIRECT)
    modifies v`blocks, v`inodes, v`logged, v`owner
    ensures AllLogged(old(v.blocks), v.blocks, v.logged) && old(v.logged) <= v.logged
    ensures ok && Cut(v, fs0, owner0, inum, NDIRECT + 1)
  {
    ok := true;
    StartEntries(v, fs0, owner0, inum);
    hide FsInv, SameOthers, Kept, CutEntries;
    var b := v.inodes[inum].addrs[NDIRECT];
    if b != 0 {
      ghost var dead;
      ok, dead := CutAllEntries(v, fs0, owner0, inum, b, v.blocks[b]);
      ok := DropIndirect(v, fs0, owner0, inum, dead);
    }
  }

  // ----- itrunc ----------------------------------------------------------------------------------

  /** The slots of other files. */
  function Others(owner: map<nat, Slot>, inum: nat): map<nat, Slot>
  {
    map b | b in owner && owner[b].inum != inum :: owner[b]
  }

  lemma CutOwner(l: Layout, fs: Fs, owner0: map<nat, Slot>, owner: map<nat, Slot>, inum: nat)
    requires FsInv(l, fs, owner) && Kept(owner0, owner, inum) && inum < |fs.inodes|
    requires forall k: nat | k < NDIRECT + 1 :: fs.inodes[inum].addrs[k] == 0
    ensures owner == Others(owner0, inum)
  {
    forall b | b in owner ensures owner[b].inum != inum {
      assert AddrOf(l, fs, owner[b]) == b;
    }
  }

  lemma CutDone(l: Layout, fs0: Fs, fs: Fs, owner: map<nat, Slot>, inum: nat)
    requires AllFiles(l, fs0) && FsInv(l, fs, owner) && SameOthers(l, fs0, fs, inum) && inum < |fs.inodes|
    ensures var fs' := SetSize(fs, inum, 0);
            && FsInv(l, fs', owner) && AllFiles(l, fs') && Content(l, fs', inum) == []
            && forall i: nat | i < |fs'.inodes| && i != inum :: Content(l, fs', i) == Content(l, fs0, i)
  {
    SizeOnlyInv(l, fs, owner, inum, 0);
    var fs' := SetSize(fs, inum, 0);
    forall i: nat | i < |fs'.inodes| && i != inum
      ensures NoHoles(l, fs', i, fs'.inodes[i].size) && Content(l, fs', i) == Content(l, fs0, i)
    {
      OtherFile(l, fs0, fs, inum, 0, i);
    }
  }

  /**
   * itrunc.  bfree never panics; afterwards the file is empty, every block it owned is free, and
   * no other block has changed hands.
   */
  method Itrunc(v: Volume, inum: nat) returns (ok: bool)
    requires Settled(v) && inum < |v.inodes|
    modifies v`blocks, v`inodes, v`dinodes, v`logged, v`owner
    ensures AllLogged(old(v.blocks), v.blocks, v.logged) && old(v.logged) <= v.logged
    ensures InodesLogged(v.l, v.ipb, old(v.dinodes), v.dinodes, v.logged)
    ensures ok && Settled(v) && |v.inodes| == |old(v.inodes)|
    ensures Operation(v.l, v.ipb, old(v.OnDisk()), v.OnDisk(), v.logged)
    ensures v.owner == Others(old(v.owner), inum)
    ensures forall b: nat | b < v.l.size ::
              Used(v.l, v.blocks, b) <==> Used(v.l, old(v.blocks), b) && !(b in old(v.owner) && old(v.owner)[b].inum == inum)
    ensures v.inodes[inum].size == 0 && Content(v.l, v.Img(), inum) == []
    ensures forall i: nat | i < |v.inodes| && i != inum :: Content(v.l, v.Img(), i) == Content(v.l, old(v.Img()), i)
  {
    ghost var fs0, owner0 := v.Img(), v.owner;
    ok := CutAll(v, inum, fs0, owner0);
    CutOwner(v.l, v.Img(), owner0, v.owner, inum);
    CutDone(v.l, fs0, v.Img(), v.owner, inum);
    MarksTell(v.l, fs0.blocks, v.blocks, owner0, v.owner, inum);
    hide FsInv, SameOthers, Content, AllFiles, Used;
    var ip := v.inodes[inum];
    v.inodes := v.inodes[inum := Inode(ip.device, 0, ip.addrs)];
    v.dinodes := v.dinodes[inum := v.inodes[inum]];
    v.logged := v.logged + {IBlock(v.l, v.ipb, inum)};
  }

  lemma MarksTell(l: Layout, blocks0: seq<Block>, blocks: seq<Block>, owner0: map<nat, Slot>, owner: map<nat, Slot>, inum: nat)
    requires Marked(l, blocks0, owner0, {}) && Marked(l, blocks, owner, {}) && owner == Others(owner0, inum)
    requires forall b | b in owner0 :: l.datastart <= b
    ensures forall b: nat | b < l.size ::
              Used(l, blocks, b) <==> Used(l, blocks0, b) && !(b in owner0 && owner0[b].inum == inum)
  {
  }

  /** Both loops of itrunc. */
  method CutAll(v: Volume, inum: nat, ghost fs0: Fs, ghost owner0: map<nat, Slot>) returns (ok: bool)
    requires v.Valid() && inum < |v.inodes| && fs0 == v.Img() && owner0 == v.owner
    modifies v`blocks, v`inodes, v`logged, v`owner
    ensures AllLogged(old(v.blocks), v.blocks, v.logged) && old(v.logged) <= v.logged
    ensures ok && Cut(v, fs0, owner0, inum, NDIRECT + 1)
  {
    ok := true;
    assert WfFs(v.l, fs0);
    hide FsInv;
    assert Cut(v, fs0, owner0, inum, 0);
    hide Cut;
    for i := 0 to NDIRECT
      invariant ok && Cut(v, fs0, owner0, inum, i)
      invariant AllLogged(old(v.blocks), v.blocks, v.logged) && old(v.logged) <= v.logged
    {
      ok := CutDirect(v, fs0, owner0, inum, i);
    }
    ok := CutIndirect(v, fs0, owner0, inum);
  }
}
