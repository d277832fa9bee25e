/** How updates of bitmap, block map and data blocks carry the invariants of FsSpec along. */
module FsLemmas {
  import opened Blocks
  import opened Common
  import opened FsSpec

  // ----- The bitmap ------------------------------------------------------------------------

  lemma BitPlace(a: nat, b: nat)
    requires a != b
    ensures Quotient(a, BPB) != Quotient(b, BPB) || Remainder(a, BPB) != Remainder(b, BPB)
  {
    Division(a, BPB);
    Division(b, BPB);
  }

  /** Rewriting the bitmap block of b changes the mark of b alone. */
  lemma MarkOne(l: Layout, blocks: seq<Block>, b: nat, bits: Block, on: bool, x: nat)
    requires WfLayout(l) && |blocks| == l.size && b < l.size && x < l.size
    requires bits == if on then SetBit(blocks[BBlock(l, b)], Remainder(b, BPB)) else ClearBit(blocks[BBlock(l, b)], Remainder(b, BPB))
    ensures Used(l, blocks[BBlock(l, b) := bits], x) <==> if x == b then on else Used(l, blocks, x)
  {
    BitUpdates(blocks[BBlock(l, b)], Remainder(b, BPB), Remainder(x, BPB));
    if x != b {
      BitPlace(x, b);
    }
  }

  /** Overwriting a data block leaves the bitmap alone. */
  lemma DataKeepsMarks(l: Layout, blocks: seq<Block>, owner: map<nat, Slot>, extra: set<nat>, a: nat, data: Block)
    requires Marked(l, blocks, owner, extra) && l.datastart <= a < l.size
    ensures Marked(l, blocks[a := data], owner, extra)
  {
    forall x: nat | x < l.size ensures Used(l, blocks[a := data], x) <==> Used(l, blocks, x) {
      assert BBlock(l, x) < l.datastart;
    }
  }

  /** The disk after balloc has taken block b: marked and zeroed. */
  function AllocBlocks(l: Layout, blocks: seq<Block>, b: nat): (r: seq<Block>)
    requires b < |blocks| && BBlock(l, b) < |blocks|
    ensures |r| == |blocks| && r[b] == ZeroBlock()
  {
    blocks[BBlock(l, b) := SetBit(blocks[BBlock(l, b)], Remainder(b, BPB))][b := ZeroBlock()]
  }

  /** The disk after bfree of block b. */
  function FreeBlocks(l: Layout, blocks: seq<Block>, b: nat): (r: seq<Block>)
    requires BBlock(l, b) < |blocks|
    ensures |r| == |blocks|
  {
    blocks[BBlock(l, b) := ClearBit(blocks[BBlock(l, b)], Remainder(b, BPB))]
  }

  /** balloc marks a free block and zeroes it. */
  lemma AllocMarks(l: Layout, blocks: seq<Block>, owner: map<nat, Slot>, extra: set<nat>, b: nat)
    requires Marked(l, blocks, owner, extra) && b < l.size && !Used(l, blocks, b)
    ensures l.datastart <= b && b !in owner
    ensures Marked(l, AllocBlocks(l, blocks, b), owner, extra + {b})
  {
    var blocks' := blocks[BBlock(l, b) := SetBit(blocks[BBlock(l, b)], Remainder(b, BPB))];
    forall x: nat | x < l.size ensures Used(l, blocks', x) <==> x == b || Used(l, blocks, x) {
      MarkOne(l, blocks, b, SetBit(blocks[BBlock(l, b)], Remainder(b, BPB)), true, x);
    }
    assert Marked(l, blocks', owner, extra + {b});
    DataKeepsMarks(l, blocks', owner, extra + {b}, b, ZeroBlock());
  }

  /** bfree clears the mark of an owned block. */
  lemma FreeMarks(l: Layout, blocks: seq<Block>, owner: map<nat, Slot>, b: nat)
    requires Marked(l, blocks, owner, {}) && l.datastart <= b < l.size && b in owner
    ensures Marked(l, FreeBlocks(l, blocks, b), owner - {b}, {})
  {
    var blocks' := FreeBlocks(l, blocks, b);
    forall x: nat | x < l.size ensures Used(l, blocks', x) <==> x != b && Used(l, blocks, x) {
      MarkOne(l, blocks, b, ClearBit(blocks[BBlock(l, b)], Remainder(b, BPB)), false, x);
    }
  }

  // ----- Addresses -------------------------------------------------------------------------

  /** The indirect blocks read the same in both. */
  ghost predicate SameIndirect(l: Layout, fs: Fs, fs': Fs)
  {
    && WfFs(l, fs) && WfFs(l, fs') && fs'.inodes == fs.inodes
    && forall i | 0 <= i < |fs.inodes| && 0 < fs.inodes[i].addrs[NDIRECT] < |fs.blocks| ::
         fs'.blocks[fs.inodes[i].addrs[NDIRECT]] == fs.blocks[fs.inodes[i].addrs[NDIRECT]]
  }

  lemma SameAddrs(l: Layout, fs: Fs, fs': Fs, s: Slot)
    requires SameIndirect(l, fs, fs') && ValidSlot(fs, s)
    ensures AddrOf(l, fs', s) == AddrOf(l, fs, s)
  {
  }

  /** A block that no Indirect slot owns may be overwritten. */
  lemma ElsewhereSame(l: Layout, fs: Fs, owner: map<nat, Slot>, dead: set<Slot>, a: nat, data: Block)
    requires Owned(l, fs, owner, dead) && a < l.size && (a in owner ==> !owner[a].Indirect?)
    ensures SameIndirect(l, fs, fs.(blocks := fs.blocks[a := data]))
  {
    forall i | 0 <= i < |fs.inodes| && 0 < fs.inodes[i].addrs[NDIRECT] < |fs.blocks|
      ensures fs.inodes[i].addrs[NDIRECT] != a
    {
      assert AddrOf(l, fs, Indirect(i)) == fs.inodes[i].addrs[NDIRECT];
    }
  }

  lemma SameOwned(l: Layout, fs: Fs, fs': Fs, owner: map<nat, Slot>, dead: set<Slot>)
    requires SameIndirect(l, fs, fs') && Owned(l, fs, owner, dead)
    ensures Owned(l, fs', owner, dead)
  {
    forall s: Slot | ValidSlot(fs, s) ensures AddrOf(l, fs', s) == AddrOf(l, fs, s) {
      SameAddrs(l, fs, fs', s);
    }
  }

  /** Every slot but s reads the same in both. */
  ghost predicate OnlySlot(l: Layout, fs: Fs, fs': Fs, s: Slot)
  {
    && WfFs(l, fs) && WfFs(l, fs') && |fs'.inodes| == |fs.inodes| && ValidSlot(fs, s)
    && forall t: Slot | ValidSlot(fs, t) && t != s :: AddrOf(l, fs', t) == AddrOf(l, fs, t)
  }

  /** Storing a fresh address in an empty slot. */
  lemma AssignOwned(l: Layout, fs: Fs, fs': Fs, owner: map<nat, Slot>, dead: set<Slot>, s: Slot, b: nat)
    requires Owned(l, fs, owner, dead) && OnlySlot(l, fs, fs', s) && s !in dead
    requires AddrOf(l, fs, s) == 0 && AddrOf(l, fs', s) == b
    requires l.datastart <= b < l.size && b !in owner
    ensures Owned(l, fs', owner[b := s], dead)
  {
    var owner' := owner[b := s];
    forall t: Slot | ValidSlot(fs', t) && t !in dead && AddrOf(l, fs', t) != 0
      ensures AddrOf(l, fs', t) in owner' && owner'[AddrOf(l, fs', t)] == t
    {
      if t != s {
        assert AddrOf(l, fs', t) == AddrOf(l, fs, t);
      }
    }
    forall x | x in owner'
      ensures var t := owner'[x]; ValidSlot(fs', t) && t !in dead && AddrOf(l, fs', t) == x
    {
      if x != b {
        assert AddrOf(l, fs, owner[x]) == x && owner[x] != s;
      }
    }
  }

  /** Clearing a slot, or declaring it dead, releases its block. */
  lemma ReleaseOwned(l: Layout, fs: Fs, fs': Fs, owner: map<nat, Slot>, dead: set<Slot>, s: Slot)
    requires Owned(l, fs, owner, dead) && OnlySlot(l, fs, fs', s) && s !in dead && AddrOf(l, fs, s) != 0
    requires AddrOf(l, fs', s) == 0 || s.Entry?
    ensures Owned(l, fs', owner - {AddrOf(l, fs, s)}, if AddrOf(l, fs', s) == 0 then dead else dead + {s})
  {
    var b := AddrOf(l, fs, s);
    var owner', dead' := owner - {b}, if AddrOf(l, fs', s) == 0 then dead else dead + {s};
    forall t: Slot | ValidSlot(fs', t) && t !in dead' && AddrOf(l, fs', t) != 0
      ensures AddrOf(l, fs', t) in owner' && owner'[AddrOf(l, fs', t)] == t
    {
      assert t != s && AddrOf(l, fs', t) == AddrOf(l, fs, t);
      assert owner[AddrOf(l, fs, t)] == t;
    }
    forall x | x in owner'
      ensures var t := owner'[x]; ValidSlot(fs', t) && t !in dead' && AddrOf(l, fs', t) == x
    {
      assert AddrOf(l, fs, owner[x]) == x && owner[x] != s;
    }
  }

  // ----- The states bmap passes through ------------------------------------------------------

  /** After balloc: block b is marked and zero, and no slot holds it yet. */
  lemma AllocOwned(l: Layout, fs: Fs, owner: map<nat, Slot>, b: nat)
    requires FsInv(l, fs, owner) && b < l.size && !Used(l, fs.blocks, b)
    ensures var fs' := fs.(blocks := AllocBlocks(l, fs.blocks, b));
            && l.datastart <= b && b !in owner && fs'.blocks[b] == ZeroBlock()
            && SameIndirect(l, fs, fs')
            && Owned(l, fs', owner, {}) && Marked(l, fs'.blocks, owner, {b})
            && forall x | x in owner :: fs'.blocks[x] == fs.blocks[x]
  {
    AllocMarks(l, fs.blocks, owner, {}, b);
    var bits := SetBit(fs.blocks[BBlock(l, b)], Remainder(b, BPB));
    var fs1 := fs.(blocks := fs.blocks[BBlock(l, b) := bits]);
    ElsewhereSame(l, fs, owner, {}, BBlock(l, b), bits);
    SameOwned(l, fs, fs1, owner, {});
    ElsewhereSame(l, fs1, owner, {}, b, ZeroBlock());
    var fs' := fs.(blocks := AllocBlocks(l, fs.blocks, b));
    SameOwned(l, fs1, fs', owner, {});
    assert {} + {b} == {b};
  }

  function SetAddr(fs: Fs, inum: nat, k: nat, b: nat): Fs
    requires inum < |fs.inodes| && k < |fs.inodes[inum].addrs|
  {
    var ip := fs.inodes[inum];
    Fs(fs.blocks, fs.inodes[inum := Inode(ip.device, ip.size, ip.addrs[k := b])])
  }

  /** ip->addrs[k] = b, for a direct block. */
  lemma SetDirect(l: Layout, fs: Fs, inum: nat, k: nat, b: nat)
    requires WfFs(l, fs) && inum < |fs.inodes| && k < NDIRECT
    ensures var fs' := SetAddr(fs, inum, k, b);
            OnlySlot(l, fs, fs', Direct(inum, k)) && AddrOf(l, fs', Direct(inum, k)) == b
  {
  }

  /** ip->addrs[NDIRECT] = b, for a zeroed block b. */
  lemma SetIndirect(l: Layout, fs: Fs, inum: nat, b: nat)
    requires WfFs(l, fs) && inum < |fs.inodes| && fs.inodes[inum].addrs[NDIRECT] == 0
    requires 0 < b < l.size && fs.blocks[b] == ZeroBlock()
    ensures var fs' := SetAddr(fs, inum, NDIRECT, b);
            OnlySlot(l, fs, fs', Indirect(inum)) && AddrOf(l, fs', Indirect(inum)) == b
  {
    ZeroWords();
  }

  function SetEntry(fs: Fs, ind: nat, k: nat, b: nat): Fs
    requires ind < |fs.blocks| && k < WORDS && b < UINT_LIMIT
  {
    fs.(blocks := fs.blocks[ind := PutWord(fs.blocks[ind], k, b)])
  }

  /** a[k] = b in the indirect block of file inum. */
  lemma EntrySet(l: Layout, fs: Fs, owner: map<nat, Slot>, inum: nat, k: nat, b: nat)
    requires Owned(l, fs, owner, {}) && inum < |fs.inodes| && k < WORDS && b < UINT_LIMIT
    requires fs.inodes[inum].addrs[NDIRECT] != 0
    ensures var ind := fs.inodes[inum].addrs[NDIRECT];
            && ind in owner && owner[ind] == Indirect(inum) && l.datastart <= ind < l.size
            && var fs' := SetEntry(fs, ind, k, b);
               OnlySlot(l, fs, fs', Entry(inum, k)) && AddrOf(l, fs', Entry(inum, k)) == b
  {
    var ind := fs.inodes[inum].addrs[NDIRECT];
    assert AddrOf(l, fs, Indirect(inum)) == ind;
    GetPut(fs.blocks[ind], k, b);
    hide GetWord, PutWord;
    var fs' := SetEntry(fs, ind, k, b);
    forall t: Slot | ValidSlot(fs, t) && t != Entry(inum, k) ensures AddrOf(l, fs', t) == AddrOf(l, fs, t) {
      if t.Entry? && t.inum != inum {
        assert ValidSlot(fs, Indirect(t.inum));
        assert AddrOf(l, fs, Indirect(t.inum)) == fs.inodes[t.inum].addrs[NDIRECT];
      }
    }
  }

  // ----- What an operation may do to files -----------------------------------------------------

  ghost predicate SameShape(l: Layout, fs: Fs, fs': Fs)
  {
    && WfFs(l, fs) && WfFs(l, fs') && |fs'.inodes| == |fs.inodes|
    && forall i | 0 <= i < |fs.inodes| :: fs'.inodes[i].size == fs.inodes[i].size && fs'.inodes[i].device == fs.inodes[i].device
  }

  /** Block bn of file inum has the same address and bytes in both. */
  ghost predicate SameBlock(l: Layout, fs: Fs, fs': Fs, inum: nat, bn: nat)
    requires WfFs(l, fs) && WfFs(l, fs') && inum < |fs.inodes| && inum < |fs'.inodes| && bn < MAXFILE
  {
    var a := BlockAddr(l, fs, inum, bn);
    BlockAddr(l, fs', inum, bn) == a && (0 < a < l.size ==> fs'.blocks[a] == fs.blocks[a])
  }

  /** Every block of every file but block bn of file inum is the same. */
  ghost predicate SameBut(l: Layout, fs: Fs, fs': Fs, inum: nat, bn: nat)
  {
    && SameShape(l, fs, fs')
    && forall i: nat, k: nat | i < |fs.inodes| && k < MAXFILE && !(i == inum && k == bn) :: SameBlock(l, fs, fs', i, k)
  }

  ghost predicate SameFiles(l: Layout, fs: Fs, fs': Fs)
  {
    SameShape(l, fs, fs') && forall i: nat, k: nat | i < |fs.inodes| && k < MAXFILE :: SameBlock(l, fs, fs', i, k)
  }

  lemma SameFilesThen(l: Layout, fs: Fs, fs1: Fs, fs2: Fs, inum: nat, bn: nat)
    requires SameFiles(l, fs, fs1) && SameBut(l, fs1, fs2, inum, bn)
    ensures SameBut(l, fs, fs2, inum, bn)
  {
    forall i: nat, k: nat | i < |fs.inodes| && k < MAXFILE && !(i == inum && k == bn) ensures SameBlock(l, fs, fs2, i, k) {
      assert SameBlock(l, fs, fs1, i, k) && SameBlock(l, fs1, fs2, i, k);
    }
  }

  lemma OwnedBlock(l: Layout, fs: Fs, owner: map<nat, Slot>, i: nat, k: nat)
    requires Owned(l, fs, owner, {}) && i < |fs.inodes| && k < MAXFILE
    ensures ValidSlot(fs, SlotFor(i, k))
    ensures var a := BlockAddr(l, fs, i, k); a != 0 ==> l.datastart <= a < l.size && a in owner && owner[a] == SlotFor(i, k)
  {
  }

  /** A new block b in the empty slot s: every other block of every file is the same. */
  lemma OnlySlotSame(l: Layout, fs: Fs, fs': Fs, owner: map<nat, Slot>, s: Slot, i: nat, k: nat)
    requires Owned(l, fs, owner, {}) && OnlySlot(l, fs, fs', s) && i < |fs.inodes| && k < MAXFILE && SlotFor(i, k) != s
    requires forall x | x in owner && !owner[x].Indirect? :: fs'.blocks[x] == fs.blocks[x]
    ensures SameBlock(l, fs, fs', i, k)
  {
    OwnedBlock(l, fs, owner, i, k);
  }

  /** balloc, and the new address goes to addrs[bn]. */
  lemma DirectAlloc(l: Layout, fs: Fs, owner: map<nat, Slot>, inum: nat, bn: nat, b: nat)
    requires FsInv(l, fs, owner) && inum < |fs.inodes| && bn < NDIRECT && BlockAddr(l, fs, inum, bn) == 0
    requires b < l.size && !Used(l, fs.blocks, b)
    ensures var fs' := SetAddr(Fs(AllocBlocks(l, fs.blocks, b), fs.inodes), inum, bn, b);
            && FsInv(l, fs', owner[b := Direct(inum, bn)]) && SameBut(l, fs, fs', inum, bn)
            && l.datastart <= b && 0 < b && BlockAddr(l, fs', inum, bn) == b && fs'.blocks[b] == ZeroBlock()
  {
    hide AllocBlocks, Used, ZeroBlock;
    var s := Direct(inum, bn);
    AllocOwned(l, fs, owner, b);
    var fs1 := Fs(AllocBlocks(l, fs.blocks, b), fs.inodes);
    SameAddrs(l, fs, fs1, s);
    SetDirect(l, fs1, inum, bn, b);
    var fs' := SetAddr(fs1, inum, bn, b);
    AssignOwned(l, fs1, fs', owner, {}, s, b);
    MarkedAdopt(l, fs'.blocks, owner, b, s);
    hide Marked;
    forall i: nat, k: nat | i < |fs.inodes| && k < MAXFILE && !(i == inum && k == bn) ensures SameBlock(l, fs, fs', i, k) {
      SameAddrs(l, fs, fs1, SlotFor(i, k));
      OnlySlotSame(l, fs1, fs', owner, s, i, k);
      OwnedBlock(l, fs, owner, i, k);
    }
  }

  /** balloc, and the new address goes to addrs[NDIRECT]. */
  lemma IndirectAlloc(l: Layout, fs: Fs, owner: map<nat, Slot>, inum: nat, b: nat)
    requires FsInv(l, fs, owner) && inum < |fs.inodes| && fs.inodes[inum].addrs[NDIRECT] == 0
    requires b < l.size && !Used(l, fs.blocks, b)
    ensures var fs' := SetAddr(Fs(AllocBlocks(l, fs.blocks, b), fs.inodes), inum, NDIRECT, b);
            && FsInv(l, fs', owner[b := Indirect(inum)]) && SameFiles(l, fs, fs')
            && 0 < b && fs'.inodes[inum].addrs[NDIRECT] == b
  {
    hide AllocBlocks, Used, ZeroBlock;
    var s := Indirect(inum);
    AllocOwned(l, fs, owner, b);
    var fs1 := Fs(AllocBlocks(l, fs.blocks, b), fs.inodes);
    SameAddrs(l, fs, fs1, s);
    SetIndirect(l, fs1, inum, b);
    var fs' := SetAddr(fs1, inum, NDIRECT, b);
    AssignOwned(l, fs1, fs', owner, {}, s, b);
    MarkedAdopt(l, fs'.blocks, owner, b, s);
    hide Marked;
    forall i: nat, k: nat | i < |fs.inodes| && k < MAXFILE ensures SameBlock(l, fs, fs', i, k) {
      SameAddrs(l, fs, fs1, SlotFor(i, k));
      OnlySlotSame(l, fs1, fs', owner, s, i, k);
      OwnedBlock(l, fs, owner, i, k);
    }
  }

  lemma OnlySlotShape(l: Layout, fs: Fs, fs': Fs, s: Slot)
    requires OnlySlot(l, fs, fs', s)
    ensures WfFs(l, fs) && WfFs(l, fs')
  {
  }

  lemma SameInodes(l: Layout, fs: Fs, fs': Fs)
    requires WfFs(l, fs) && WfFs(l, fs') && fs'.inodes == fs.inodes
    ensures SameShape(l, fs, fs')
  {
  }

  /** The same block through an allocation (fs to fs1) and an assignment to slot s (fs1 to fs'). */
  lemma StepsSame(l: Layout, fs: Fs, fs1: Fs, fs': Fs, owner: map<nat, Slot>, s: Slot, i: nat, k: nat)
    requires Owned(l, fs, owner, {}) && Owned(l, fs1, owner, {}) && SameIndirect(l, fs, fs1) && OnlySlot(l, fs1, fs', s)
    requires forall x | x in owner && !owner[x].Indirect? :: fs'.blocks[x] == fs1.blocks[x] == fs.blocks[x]
    requires i < |fs.inodes| && k < MAXFILE && SlotFor(i, k) != s
    ensures SameBlock(l, fs, fs', i, k)
  {
    SameAddrs(l, fs, fs1, SlotFor(i, k));
    OnlySlotSame(l, fs1, fs', owner, s, i, k);
    OwnedBlock(l, fs, owner, i, k);
  }

  lemma AssignedSame(l: Layout, fs: Fs, fs1: Fs, fs': Fs, owner: map<nat, Slot>, inum: nat, bn: nat)
    requires Owned(l, fs, owner, {}) && Owned(l, fs1, owner, {}) && SameIndirect(l, fs, fs1)
    requires bn < MAXFILE && OnlySlot(l, fs1, fs', SlotFor(inum, bn)) && fs'.inodes == fs.inodes
    requires forall x | x in owner && !owner[x].Indirect? :: fs'.blocks[x] == fs1.blocks[x] == fs.blocks[x]
    ensures SameBut(l, fs, fs', inum, bn)
  {
    OnlySlotShape(l, fs1, fs', SlotFor(inum, bn));
    SameInodes(l, fs, fs');
    assert WfFs(l, fs);
    hide Owned, OnlySlot, SameIndirect, SameBlock;
    forall i: nat, k: nat | i < |fs.inodes| && k < MAXFILE && !(i == inum && k == bn) ensures SameBlock(l, fs, fs', i, k) {
      StepsSame(l, fs, fs1, fs', owner, SlotFor(inum, bn), i, k);
    }
  }

  /** balloc, and the new address goes to an entry of the indirect block. */
  lemma EntryAllocInv(l: Layout, fs: Fs, owner: map<nat, Slot>, inum: nat, bn: nat, b: nat)
    requires FsInv(l, fs, owner) && inum < |fs.inodes| && NDIRECT <= bn < MAXFILE && BlockAddr(l, fs, inum, bn) == 0
    requires fs.inodes[inum].addrs[NDIRECT] != 0 && b < l.size && !Used(l, fs.blocks, b)
    ensures EntryAllocated(l, fs, owner, inum, bn, b)
  {
    hide AllocBlocks, PutWord, GetWord, ZeroBlock, Used, Marked, OnlySlot;
    var s, ind := SlotFor(inum, bn), fs.inodes[inum].addrs[NDIRECT];
    AllocOwned(l, fs, owner, b);
    var fs1 := Fs(AllocBlocks(l, fs.blocks, b), fs.inodes);
    SameAddrs(l, fs, fs1, s);
    EntrySet(l, fs1, owner, inum, bn - NDIRECT, b);
    var fs' := SetEntry(fs1, ind, bn - NDIRECT, b);
    AssignOwned(l, fs1, fs', owner, {}, s, b);
    DataKeepsMarks(l, fs1.blocks, owner, {b}, ind, fs'.blocks[ind]);
    MarkedAdopt(l, fs'.blocks, owner, b, s);
    hide Owned, Marked, OnlySlot, SameIndirect, AddrOf;
  }

  lemma MarkedAdopt(l: Layout, blocks: seq<Block>, owner: map<nat, Slot>, b: nat, s: Slot)
    requires Marked(l, blocks, owner, {b})
    ensures Marked(l, blocks, owner[b := s], {})
  {
  }

  ghost predicate EntryAllocated(l: Layout, fs: Fs, owner: map<nat, Slot>, inum: nat, bn: nat, b: nat)
    requires WfFs(l, fs) && inum < |fs.inodes| && NDIRECT <= bn < MAXFILE && b < l.size
  {
    var ind := fs.inodes[inum].addrs[NDIRECT];
    && l.datastart <= ind < l.size && 0 < b < UINT_LIMIT && b != ind && l.datastart <= b
    && var fs1 := Fs(AllocBlocks(l, fs.blocks, b), fs.inodes);
    && var fs' := SetEntry(fs1, ind, bn - NDIRECT, b);
    && FsInv(l, fs', owner[b := SlotFor(inum, bn)]) && fs'.blocks[b] == ZeroBlock()
    && SameIndirect(l, fs, fs1) && Owned(l, fs1, owner, {}) && OnlySlot(l, fs1, fs', SlotFor(inum, bn))
    && BlockAddr(l, fs', inum, bn) == b
    && (forall x | x in owner && !owner[x].Indirect? :: fs'.blocks[x] == fs1.blocks[x] == fs.blocks[x])
  }

  lemma EntryAlloc(l: Layout, fs: Fs, owner: map<nat, Slot>, inum: nat, bn: nat, b: nat)
    requires FsInv(l, fs, owner) && inum < |fs.inodes| && NDIRECT <= bn < MAXFILE && BlockAddr(l, fs, inum, bn) == 0
    requires fs.inodes[inum].addrs[NDIRECT] != 0 && b < l.size && !Used(l, fs.blocks, b)
    ensures EntryAllocated(l, fs, owner, inum, bn, b)
    ensures var fs1 := Fs(AllocBlocks(l, fs.blocks, b), fs.inodes);
            SameBut(l, fs, SetEntry(fs1, fs.inodes[inum].addrs[NDIRECT], bn - NDIRECT, b), inum, bn)
  {
    EntryAllocInv(l, fs, owner, inum, bn, b);
    assert Owned(l, fs, owner, {});
    var fs1 := Fs(AllocBlocks(l, fs.blocks, b), fs.inodes);
    hide AllocBlocks, PutWord, GetWord, ZeroBlock, FsInv, Owned, OnlySlot, SameIndirect, SameBut, BlockAddr;
    AssignedSame(l, fs, fs1, SetEntry(fs1, fs.inodes[inum].addrs[NDIRECT], bn - NDIRECT, b), owner, inum, bn);
  }

  lemma DataSameBlock(l: Layout, fs: Fs, fs': Fs, owner: map<nat, Slot>, a: nat, i: nat, k: nat)
    requires Owned(l, fs, owner, {}) && SameIndirect(l, fs, fs') && i < |fs.inodes| && k < MAXFILE
    requires forall b | 0 <= b < l.size && b != a :: fs'.blocks[b] == fs.blocks[b]
    requires a in owner && owner[a] != SlotFor(i, k)
    ensures SameBlock(l, fs, fs', i, k)
  {
    OwnedBlock(l, fs, owner, i, k);
    SameAddrs(l, fs, fs', SlotFor(i, k));
    hide Owned, SameIndirect, AddrOf;
  }

  /** Writing a data block keeps who owns what, and changes this block of this file alone. */
  lemma DataOwned(l: Layout, fs: Fs, owner: map<nat, Slot>, inum: nat, bn: nat, data: Block)
    requires Owned(l, fs, owner, {}) && inum < |fs.inodes| && bn < MAXFILE && BlockAddr(l, fs, inum, bn) != 0
    ensures var a := BlockAddr(l, fs, inum, bn);
            && l.datastart <= a < l.size && a in owner
            && var fs' := Fs(fs.blocks[a := data], fs.inodes);
            && Owned(l, fs', owner, {}) && SameBut(l, fs, fs', inum, bn)
            && BlockAddr(l, fs', inum, bn) == a && fs'.blocks[a] == data
  {
    var a := BlockAddr(l, fs, inum, bn);
    OwnedBlock(l, fs, owner, inum, bn);
    var fs' := Fs(fs.blocks[a := data], fs.inodes);
    ElsewhereSame(l, fs, owner, {}, a, data);
    SameOwned(l, fs, fs', owner, {});
    SameAddrs(l, fs, fs', SlotFor(inum, bn));
    hide Owned, SameIndirect, AddrOf, SameBlock;
    forall i: nat, k: nat | i < |fs.inodes| && k < MAXFILE && !(i == inum && k == bn) ensures SameBlock(l, fs, fs', i, k) {
      DataSameBlock(l, fs, fs', owner, a, i, k);
    }
  }

  /** Overwriting a data block of a file. */
  lemma DataWrite(l: Layout, fs: Fs, owner: map<nat, Slot>, inum: nat, bn: nat, data: Block)
    requires FsInv(l, fs, owner) && inum < |fs.inodes| && bn < MAXFILE && BlockAddr(l, fs, inum, bn) != 0
    ensures var a := BlockAddr(l, fs, inum, bn);
            && l.datastart <= a < l.size
            && var fs' := Fs(fs.blocks[a := data], fs.inodes);
            && FsInv(l, fs', owner) && SameBut(l, fs, fs', inum, bn)
            && BlockAddr(l, fs', inum, bn) == a && fs'.blocks[a] == data
  {
    assert WfFs(l, fs);
    hide Owned, Marked, SameBut, BlockAddr;
    DataOwned(l, fs, owner, inum, bn, data);
    DataKeepsMarks(l, fs.blocks, owner, {}, BlockAddr(l, fs, inum, bn), data);
  }
}
