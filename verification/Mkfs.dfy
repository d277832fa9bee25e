/**
 * The image builder of xv6/mkfs.c: blocks are handed out in order, and the bitmap is written at
 * the end.  The image satisfies the invariants the kernel's file system starts from.
 */
module Mkfs {
  import opened Blocks
  import opened Common
  import opened FsSpec
  import opened FsLemmas
  import opened FileSystem
  import opened FileIO

  /** The owned blocks are those handed out so far; the rest of the disk, and the bitmap, is zero. */
  ghost predicate Building(l: Layout, fs: Fs, owner: map<nat, Slot>, freeblock: nat)
  {
    && Owned(l, fs, owner, {}) && l.datastart <= freeblock <= l.size
    && (forall b :: b in owner <==> l.datastart <= b < freeblock)
    && (forall b | freeblock <= b < l.size :: fs.blocks[b] == ZeroBlock())
    && forall b | l.bmapstart <= b < l.datastart :: fs.blocks[b] == ZeroBlock()
  }

  /** Exactly the blocks that begin before upto have an address. */
  ghost predicate Exact(l: Layout, fs: Fs, inum: nat, upto: nat)
  {
    && WfFs(l, fs) && inum < |fs.inodes| && upto <= MaxBytes()
    && forall bn: nat | bn < MAXFILE :: BlockAddr(l, fs, inum, bn) != 0 <==> BlockStart(bn) < upto
  }

  /** din.addrs[fbn] = freeblock++ */
  lemma NextDirect(l: Layout, fs: Fs, owner: map<nat, Slot>, free: nat, inum: nat, bn: nat)
    requires Building(l, fs, owner, free) && free < l.size && inum < |fs.inodes| && bn < NDIRECT && BlockAddr(l, fs, inum, bn) == 0
    ensures var fs' := SetAddr(fs, inum, bn, free);
            Building(l, fs', owner[free := Direct(inum, bn)], free + 1) && MapsTo(l, fs, fs', inum, bn, free)
  {
    hide ZeroBlock;
    var s := Direct(inum, bn);
    SetDirect(l, fs, inum, bn, free);
    var fs' := SetAddr(fs, inum, bn, free);
    AssignOwned(l, fs, fs', owner, {}, s, free);
    forall i: nat, k: nat | i < |fs.inodes| && k < MAXFILE && !(i == inum && k == bn) ensures SameBlock(l, fs, fs', i, k) {
      OnlySlotSame(l, fs, fs', owner, s, i, k);
    }
  }

  /** din.addrs[NDIRECT] = freeblock++ */
  lemma NextIndirect(l: Layout, fs: Fs, owner: map<nat, Slot>, free: nat, inum: nat)
    requires Building(l, fs, owner, free) && free < l.size && inum < |fs.inodes| && fs.inodes[inum].addrs[NDIRECT] == 0
    ensures var fs' := SetAddr(fs, inum, NDIRECT, free);
            Building(l, fs', owner[free := Indirect(inum)], free + 1) && SameFiles(l, fs, fs')
  {
    hide ZeroBlock;
    var s := Indirect(inum);
    SetIndirect(l, fs, inum, free);
    var fs' := SetAddr(fs, inum, NDIRECT, free);
    AssignOwned(l, fs, fs', owner, {}, s, free);
    forall i: nat, k: nat | i < |fs.inodes| && k < MAXFILE ensures SameBlock(l, fs, fs', i, k) {
      OnlySlotSame(l, fs, fs', owner, s, i, k);
    }
  }

  /** indirect[fbn - NDIRECT] = freeblock++ */
  lemma NextEntry(l: Layout, fs: Fs, owner: map<nat, Slot>, free: nat, inum: nat, bn: nat)
    requires Building(l, fs, owner, free) && free < l.size && inum < |fs.inodes| && NDIRECT <= bn < MAXFILE
    requires BlockAddr(l, fs, inum, bn) == 0 && fs.inodes[inum].addrs[NDIRECT] != 0
    ensures var ind := fs.inodes[inum].addrs[NDIRECT];
            && l.datastart <= ind < free && free < UINT_LIMIT
            && var fs' := SetEntry(fs, ind, bn - NDIRECT, free);
               Building(l, fs', owner[free := SlotFor(inum, bn)], free + 1) && MapsTo(l, fs, fs', inum, bn, free)
  {
    hide ZeroBlock, PutWord, GetWord;
    var s, ind := SlotFor(inum, bn), fs.inodes[inum].addrs[NDIRECT];
    EntrySet(l, fs, owner, inum, bn - NDIRECT, free);
    var fs' := SetEntry(fs, ind, bn - NDIRECT, free);
    AssignOwned(l, fs, fs', owner, {}, s, free);
    SameInodes(l, fs, fs');
    forall i: nat, k: nat | i < |fs.inodes| && k < MAXFILE && !(i == inum && k == bn) ensures SameBlock(l, fs, fs', i, k) {
      OnlySlotSame(l, fs, fs', owner, s, i, k);
    }
  }

  /** Writing a data block keeps what is being built. */
  lemma BuildWrite(l: Layout, fs: Fs, owner: map<nat, Slot>, free: nat, inum: nat, bn: nat, data: Block)
    requires Building(l, fs, owner, free) && inum < |fs.inodes| && bn < MAXFILE && BlockAddr(l, fs, inum, bn) != 0
    ensures var a := BlockAddr(l, fs, inum, bn);
            && l.datastart <= a < free
            && var fs' := Fs(fs.blocks[a := data], fs.inodes);
            && Building(l, fs', owner, free) && SameBut(l, fs, fs', inum, bn)
            && BlockAddr(l, fs', inum, bn) == a && fs'.blocks[a] == data
  {
    DataOwned(l, fs, owner, inum, bn, data);
    hide Owned, SameBut, BlockAddr, ZeroBlock;
  }

  // ----- iappend -----------------------------------------------------------------------------

  lemma RoundExact(l: Layout, fs: Fs, fs1: Fs, fs2: Fs, inum: nat, off: nat, d: seq<byte>)
    requires Round(l, fs, fs1, fs2, inum, off, d) && Exact(l, fs, inum, off) && d != [] && off + |d| <= MaxBytes()
    ensures Exact(l, fs2, inum, off + |d|)
  {
    var bn := Quotient(off, BSIZE);
    RoundSame(l, fs, fs1, fs2, inum, off, d);
    Division(off, BSIZE);
    assert BlockStart(bn) <= off;
    forall k: nat | k < MAXFILE ensures BlockAddr(l, fs2, inum, k) != 0 <==> BlockStart(k) < off + |d| {
      if k != bn {
        assert SameBlock(l, fs, fs2, inum, k);
        if BlockStart(k) < off + |d| {
          BeforeRound(off, |d|, k, off);
        }
      }
    }
  }

  lemma OtherExact(l: Layout, fs: Fs, fs': Fs, inum: nat, i: nat, upto: nat)
    requires SameOthers(l, fs, fs', inum) && i != inum && Exact(l, fs, i, upto)
    ensures Exact(l, fs', i, upto)
  {
    forall k: nat | k < MAXFILE ensures BlockAddr(l, fs', i, k) == BlockAddr(l, fs, i, k) {
      assert SameBlock(l, fs, fs', i, k);
    }
  }

  ghost predicate AllExact(l: Layout, fs: Fs)
  {
    WfFs(l, fs) && forall i: nat | i < |fs.inodes| :: Exact(l, fs, i, fs.inodes[i].size)
  }

  lemma ExactFiles(l: Layout, fs: Fs)
    requires AllExact(l, fs)
    ensures AllFiles(l, fs)
  {
    forall i: nat | i < |fs.inodes| ensures NoHoles(l, fs, i, fs.inodes[i].size) {
      assert Exact(l, fs, i, fs.inodes[i].size);
    }
  }

  lemma SizedExact(l: Layout, fs: Fs, inum: nat, i: nat, size: nat, upto: nat)
    requires Exact(l, fs, i, upto) && inum < |fs.inodes|
    ensures Exact(l, SetSize(fs, inum, size), i, upto)
  {
    SizeOnly(l, fs, inum, size);
    forall k: nat | k < MAXFILE ensures BlockAddr(l, SetSize(fs, inum, size), i, k) == BlockAddr(l, fs, i, k) {
      assert ValidSlot(fs, SlotFor(i, k));
    }
  }

  class Image {
    const l: Layout
    var blocks: seq<Block>
    var inodes: seq<Inode>
    var freeblock: nat
    ghost var owner: map<nat, Slot>

    ghost function Img(): Fs
      reads this
    {
      Fs(blocks, inodes)
    }

    ghost predicate Built()
      reads this
    {
      Building(l, Img(), owner, freeblock)
    }

    /** iappend's lookup of block fbn.  Not ok: the image is full, which mkfs does not check. */
    method BlockFor(inum: nat, fbn: nat) returns (ok: bool, x: nat)
      requires Built() && inum < |inodes| && fbn < MAXFILE
      modifies this`blocks, this`inodes, this`freeblock, this`owner
      ensures !ok ==> freeblock >= l.size
      ensures ok ==> Built() && MapsTo(l, old(Img()), Img(), inum, fbn, x)
    {
      ghost var fs := Img();
      if fbn < NDIRECT {
        if inodes[inum].addrs[fbn] == 0 {
          if freeblock >= l.size {
            return false, 0;
          }
          NextDirect(l, fs, owner, freeblock, inum, fbn);
          hide Building, MapsTo;
          owner := owner[freeblock := Direct(inum, fbn)];
          var ip := inodes[inum];
          inodes := inodes[inum := Inode(ip.device, ip.size, ip.addrs[fbn := freeblock])];
          freeblock := freeblock + 1;
          return true, freeblock - 1;
        }
        MapsAlready(l, fs, owner, freeblock, inum, fbn);
        return true, inodes[inum].addrs[fbn];
      }
      ok, x := EntryFor(inum, fbn);
    }

    /** The indirect block, if it is missing. */
    method NeedIndirect(inum: nat) returns (ok: bool)
      requires Built() && inum < |inodes|
      modifies this`inodes, this`freeblock, this`owner
      ensures !ok ==> freeblock >= l.size
      ensures ok ==> Built() && SameFiles(l, old(Img()), Img()) && |inodes| == |old(inodes)|
      ensures ok ==> inodes == old(inodes)[inum := inodes[inum]]
      ensures ok ==> inodes[inum].addrs[NDIRECT] != 0
      ensures old(inodes[inum]).addrs[NDIRECT] != 0 ==> inodes == old(inodes)
    {
      ghost var fs := Img();
      if inodes[inum].addrs[NDIRECT] == 0 {
        if freeblock >= l.size {
          return false;
        }
        NextIndirect(l, fs, owner, freeblock, inum);
        owner := owner[freeblock := Indirect(inum)];
        var ip := inodes[inum];
        inodes := inodes[inum := Inode(ip.device, ip.size, ip.addrs[NDIRECT := freeblock])];
        freeblock := freeblock + 1;
      } else {
        SameFilesReflexive(l, fs);
      }
      return true;
    }

    /** The entry for block fbn, if it is missing. */
    method NeedEntry(inum: nat, fbn: nat) returns (ok: bool, x: nat)
      requires Built() && inum < |inodes| && NDIRECT <= fbn < MAXFILE && inodes[inum].addrs[NDIRECT] != 0
      modifies this`blocks, this`freeblock, this`owner
      ensures !ok ==> freeblock >= l.size
      ensures ok ==> Built() && MapsTo(l, old(Img()), Img(), inum, fbn, x)
    {
      ghost var fs := Img();
      IndirectBlock(l, fs, owner, freeblock, inum);
      var ind := inodes[inum].addrs[NDIRECT];
      x := GetWord(blocks[ind], fbn - NDIRECT);
      assert BlockAddr(l, fs, inum, fbn) == x;
      if x == 0 {
        if freeblock >= l.size {
          return false, 0;
        }
        NextEntry(l, fs, owner, freeblock, inum, fbn);
        hide Building, MapsTo, PutWord;
        owner := owner[freeblock := SlotFor(inum, fbn)];
        blocks := blocks[ind := PutWord(blocks[ind], fbn - NDIRECT, freeblock)];
        x, freeblock := freeblock, freeblock + 1;
      } else {
        MapsAlready(l, fs, owner, freeblock, inum, fbn);
      }
      ok := true;
    }

    method EntryFor(inum: nat, fbn: nat) returns (ok: bool, x: nat)
      requires Built() && inum < |inodes| && NDIRECT <= fbn < MAXFILE
      modifies this`blocks, this`inodes, this`freeblock, this`owner
      ensures !ok ==> freeblock >= l.size
      ensures ok ==> Built() && MapsTo(l, old(Img()), Img(), inum, fbn, x)
    {
      hide Building, MapsTo, SameFiles;
      ghost var fs := Img();
      ok := NeedIndirect(inum);
      x := 0;
      if ok {
        ghost var fs1 := Img();
        ok, x := NeedEntry(inum, fbn);
        if ok {
          MapsThen(l, fs, fs1, Img(), inum, fbn, x);
        }
      }
    }

    /** One round of iappend's loop. */
    method AppendRound(inum: nat, off: nat, d: seq<byte>) returns (ok: bool, ghost fs1: Fs)
      requires Built() && inum < |inodes| && Quotient(off, BSIZE) < MAXFILE && Remainder(off, BSIZE) + |d| <= BSIZE
      modifies this`blocks, this`inodes, this`freeblock, this`owner
      ensures !ok ==> freeblock >= l.size
      ensures ok ==> Built() && Round(l, old(Img()), fs1, Img(), inum, off, d)
    {
      var fbn, at := Quotient(off, BSIZE), Remainder(off, BSIZE);
      var x;
      ok, x := BlockFor(inum, fbn);
      fs1 := Img();
      if ok {
        BuildWrite(l, fs1, owner, freeblock, inum, fbn, Patch(blocks[x], at, d));
        hide Building, SameBut, Patch;
        blocks := blocks[x := Patch(blocks[x], at, d)];
      }
    }

    /** iappend under way: tot bytes of p are in the file. */
    ghost predicate Appending(fs0: Fs, inum: nat, off0: nat, p: seq<byte>, tot: nat)
      reads this
    {
      && Built() && Progress(l, fs0, Img(), inum, off0, p, tot) && Exact(l, Img(), inum, off0 + tot)
    }

    /** The body of iappend's loop. */
    method AppendStep(ghost fs0: Fs, inum: nat, ghost off0: nat, off: nat, p: seq<byte>, tot: nat, n1: nat) returns (ok: bool)
      requires Appending(fs0, inum, off0, p, tot) && tot < |p| && off == off0 + tot && off0 + |p| <= MaxBytes()
      requires n1 == Min(|p| - tot, BSIZE - Remainder(off, BSIZE))
      modifies this`blocks, this`inodes, this`freeblock, this`owner
      ensures !ok ==> freeblock >= l.size
      ensures ok ==> n1 > 0 && tot + n1 <= |p| && Appending(fs0, inum, off0, p, tot + n1)
    {
      hide Building, Progress, Exact, Round, MaxBytes, Quotient, Remainder, Min;
      ghost var fs := Img();
      AppendReady(l, fs0, fs, inum, off0, p, tot, n1);
      ghost var fs1;
      ok, fs1 := AppendRound(inum, off, p[tot..tot+n1]);
      if ok {
        ProgressStep(l, fs0, fs, fs1, Img(), inum, off0, p, tot, n1);
        RoundExact(l, fs, fs1, Img(), inum, off, p[tot..tot+n1]);
      }
    }

    /** The loop of iappend. */
    method AppendLoop(inum: nat, p: seq<byte>) returns (ok: bool)
      requires Built() && AllExact(l, Img()) && inum < |inodes| && inodes[inum].size + |p| <= MaxBytes()
      modifies this`blocks, this`inodes, this`freeblock, this`owner
      ensures !ok ==> freeblock >= l.size
      ensures ok ==> Appending(old(Img()), inum, old(inodes[inum]).size, p, |p|)
    {
      ghost var fs0 := Img();
      var off0, off, tot := inodes[inum].size, inodes[inum].size, 0;
      AppendStart(l, fs0, inum, p);
      hide Appending;
      while tot < |p|
        invariant 0 <= tot <= |p| && off == off0 + tot && Appending(fs0, inum, off0, p, tot)
      {
        var n1 := Min(|p| - tot, BSIZE - Remainder(off, BSIZE));
        ok := AppendStep(fs0, inum, off0, off, p, tot, n1);
        if !ok {
          return;
        }
        tot, off := tot + n1, off + n1;
      }
      ok := true;
    }

    /** iappend: the bytes of p go to the end of file inum, and nothing else changes. */
    method Iappend(inum: nat, p: seq<byte>, ghost want: seq<seq<byte>>) returns (ok: bool)
      requires Built() && AllExact(l, Img()) && inum < |inodes| && Holds(l, Img(), want)
      modifies this`blocks, this`inodes, this`freeblock, this`owner
      ensures !ok ==> freeblock >= l.size || |want[inum] + p| > MaxBytes()
      ensures ok ==> Built() && AllExact(l, Img()) && |inodes| == |old(inodes)|
      ensures ok ==> Holds(l, Img(), want[inum := want[inum] + p])
    {
      // assert(fbn < MAXFILE)
      if inodes[inum].size + |p| > MaxBytes() {
        return false;
      }
      ghost var fs0 := Img();
      var off0 := inodes[inum].size;
      ExactFiles(l, fs0);
      ok := AppendLoop(inum, p);
      if ok {
        AppendDone(l, fs0, Img(), owner, freeblock, inum, off0, p);
        HoldsMore(l, fs0, SetSize(Img(), inum, off0 + |p|), want, inum, p);
        hide Building, AllExact, AllFiles, Content, Holds;
        var ip := inodes[inum];
        inodes := inodes[inum := Inode(ip.device, off0 + |p|, ip.addrs)];
      }
    }

    /** balloc of mkfs.c: mark the first used blocks.  Not ok is its assertion. */
    method WriteBitmap(used: nat) returns (ok: bool)
      requires Built() && used == freeblock
      modifies this`blocks
      ensures ok <==> used < BPB
      ensures ok ==> FsInv(l, Img(), owner) && inodes == old(inodes)
      ensures ok ==> forall b | l.datastart <= b < l.size :: blocks[b] == old(blocks)[b]
    {
      if used >= BPB {
        return false;
      }
      var buf := FillBits(used);
      BitmapWritten(l, Img(), owner, used, buf);
      hide FsInv, Building, GetBit;
      blocks := blocks[l.bmapstart := buf];
      ok := true;
    }

    /** The files of the list go to inodes 2, 3, ...; each gets an entry in the root directory. */
    method AddFiles(files: seq<seq<byte>>, names: seq<seq<byte>>, ghost want0: seq<seq<byte>>) returns (ok: bool)
      requires Built() && AllExact(l, Img()) && Holds(l, Img(), want0) && |names| == |files| && |files| + 2 <= |inodes|
      requires forall i | 2 <= i < |want0| :: want0[i] == []
      modifies this`blocks, this`inodes, this`freeblock, this`owner
      ensures !ok ==> freeblock >= l.size || TooLong(want0, files, names)
      ensures ok ==> Built() && AllExact(l, Img()) && |inodes| == |old(inodes)|
      ensures ok ==> Holds(l, Img(), Wanted(want0, files, names, |files|))
    {
      ok := true;
      WantedNone(want0, files, names);
      hide Building, AllExact, Holds, Wanted, TooLong, MaxBytes;
      for k := 0 to |files|
        invariant ok && Built() && AllExact(l, Img()) && |inodes| == |old(inodes)|
        invariant Holds(l, Img(), Wanted(want0, files, names, k))
      {
        ghost var want := Wanted(want0, files, names, k);
        WantedMore(want0, files, names, k);
        TooLongAt(want0, files, names, k);
        ok := Iappend(1, names[k], want);
        if !ok {
          return;
        }
        ok := Iappend(k + 2, files[k], want[1 := want[1] + names[k]]);
        if !ok {
          return;
        }
      }
    }

    /** An image of zeroes, with freeblock at the first data block. */
    constructor (l: Layout)
      requires WfLayout(l)
      ensures this.l == l && Built() && AllExact(l, Img()) && |inodes| == l.ninodes
      ensures Holds(l, Img(), seq(l.ninodes, _ => []))
      ensures forall i | 0 <= i < |inodes| :: !inodes[i].device
    {
      this.l := l;
      blocks := seq(l.size, _ => ZeroBlock());
      inodes := seq(l.ninodes, _ => Inode(false, 0, seq(NDIRECT + 1, _ => 0)));
      freeblock := l.datastart;
      owner := map[];
      new;
      EmptyImage(l, Img());
    }

    /**
     * main of mkfs.c: the root directory with its entries, the files, the root's size rounded up,
     * and the bitmap.  The image holds them all and satisfies the ownership invariant; it is free
     * of holes exactly when the root directory did not fill its last block.
     */
    method Make(dots: seq<byte>, files: seq<seq<byte>>, names: seq<seq<byte>>) returns (ok: bool)
      requires Built() && AllExact(l, Img()) && |inodes| == l.ninodes && Holds(l, Img(), seq(l.ninodes, _ => []))
      requires |names| == |files| && |files| + 2 <= l.ninodes
      modifies this`blocks, this`inodes, this`freeblock, this`owner
      ensures !ok ==> freeblock >= l.size || freeblock >= BPB || |dots| > MaxBytes()
                      || TooLong(seq(l.ninodes, i => if i == 1 then dots else []), files, names)
      ensures ok ==> FsInv(l, Img(), owner)
      ensures ok ==> var want := Wanted(seq(l.ninodes, i => if i == 1 then dots else []), files, names, |files|);
                     Finished(l, Img(), want) && RoundingTells(l, Img(), want)
    {
      ghost var want := seq(l.ninodes, _ => []);
      ghost var want1 := seq(l.ninodes, i => if i == 1 then dots else []);
      assert [] + dots == dots;
      assert want[1 := want[1] + dots] == want1;
      hide Building, AllExact, Holds, Wanted, Finished, RoundingTells;
      ok := Iappend(1, dots, want);
      if ok {
        ok := AddFiles(files, names, want1);
      }
      if ok {
        ok := Finish(Wanted(want1, files, names, |files|));
      }
    }

    /** The root's size and the bitmap. */
    method Finish(ghost want: seq<seq<byte>>) returns (ok: bool)
      requires Built() && AllExact(l, Img()) && Holds(l, Img(), want) && 1 < |inodes|
      modifies this`blocks, this`inodes
      ensures !ok ==> freeblock >= BPB
      ensures ok ==> FsInv(l, Img(), owner) && Finished(l, Img(), want) && RoundingTells(l, Img(), want)
    {
      ghost var before := Img();
      var ip := inodes[1];
      BuildingSized(l, before, owner, freeblock, 1, RoundedUp(ip.size));
      hide Building, AllExact, Holds, FsInv, Finished, RoundingTells;
      inodes := inodes[1 := Inode(ip.device, RoundedUp(ip.size), ip.addrs)];
      ok := WriteBitmap(freeblock);
      if ok {
        FinishedImage(l, before, Img(), owner, freeblock, want);
      }
    }
  }

  /** The image has every file as wanted; the root directory is longer than wanted, but begins so. */
  ghost predicate Finished(l: Layout, fs: Fs, want: seq<seq<byte>>)
  {
    WfFs(l, fs) && 1 < |want| == |fs.inodes| && forall i: nat | i < |want| :: FinishedFile(l, fs, i, want[i])
  }

  ghost predicate FinishedFile(l: Layout, fs: Fs, i: nat, want: seq<byte>)
    requires WfFs(l, fs) && i < |fs.inodes|
  {
    && fs.inodes[i].size == (if i == 1 then RoundedUp(|want|) else |want|) && |want| <= MaxBytes()
    && forall p: nat | p < |want| :: Quotient(p, BSIZE) < MAXFILE && ByteAt(l, fs, i, p) == want[p]
  }

  /** A finished file other than the root has exactly the wanted contents. */
  lemma FinishedContent(l: Layout, fs: Fs, want: seq<seq<byte>>, i: nat)
    requires Finished(l, fs, want) && i < |want| && i != 1
    ensures fs.inodes[i].size <= MaxBytes() && Content(l, fs, i) == want[i]
  {
    assert FinishedFile(l, fs, i, want[i]);
    var c := Content(l, fs, i);
    hide MaxBytes, Quotient, Remainder, ByteAt;
    assert |c| == |want[i]|;
    forall p: nat | p < |c| ensures c[p] == want[i][p] {
    }
  }

  /** No file has a hole exactly when the root directory did not fill its last block. */
  ghost predicate RoundingTells(l: Layout, fs: Fs, want: seq<seq<byte>>)
  {
    1 < |want| && (AllFiles(l, fs) <==> Remainder(|want[1]|, BSIZE) != 0)
  }

  lemma FinishedImage(l: Layout, fs: Fs, fs': Fs, owner: map<nat, Slot>, free: nat, want: seq<seq<byte>>)
    requires Building(l, fs, owner, free) && AllExact(l, fs) && Holds(l, fs, want) && 1 < |fs.inodes|
    requires FsInv(l, fs', owner) && fs'.inodes == SetSize(fs, 1, RoundedUp(fs.inodes[1].size)).inodes
    requires forall b | l.datastart <= b < l.size :: fs'.blocks[b] == fs.blocks[b]
    ensures Finished(l, fs', want) && RoundingTells(l, fs', want)
  {
    var size := RoundedUp(fs.inodes[1].size);
    BuildingSized(l, fs, owner, free, 1, size);
    SameDataAddrs(l, SetSize(fs, 1, size), fs', owner, free);
    HoldsSize(l, fs, want, 1);
    hide RoundedUp, Building, SameIndirect, Content, FsInv, MaxBytes, Remainder, FinishedFile;
    RootRounded(l, fs, fs');
    ExactFiles(l, fs);
    hide AllFiles, AllExact, Holds;
    forall i: nat | i < |want|
      ensures FinishedFile(l, fs', i, want[i])
    {
      FileFinished(l, fs, fs', owner, free, want, i);
    }
  }

  lemma HoldsSize(l: Layout, fs: Fs, want: seq<seq<byte>>, i: nat)
    requires Holds(l, fs, want) && i < |want|
    ensures fs.inodes[i].size == |want[i]| <= MaxBytes() && Content(l, fs, i) == want[i]
  {
  }

  lemma FileFinished(l: Layout, fs: Fs, fs': Fs, owner: map<nat, Slot>, free: nat, want: seq<seq<byte>>, i: nat)
    requires Building(l, fs, owner, free) && AllFiles(l, fs) && Holds(l, fs, want) && 1 < |fs.inodes| && i < |want|
    requires SameIndirect(l, SetSize(fs, 1, RoundedUp(fs.inodes[1].size)), fs')
    requires forall b | l.datastart <= b < l.size :: fs'.blocks[b] == fs.blocks[b]
    ensures FinishedFile(l, fs', i, want[i])
  {
    var size := RoundedUp(fs.inodes[1].size);
    HoldsSize(l, fs, want, i);
    SizeOnly(l, fs, 1, size);
    assert NoHoles(l, fs, i, fs.inodes[i].size);
    forall k: nat | k < MAXFILE
      ensures SameBlock(l, fs, fs', i, k)
    {
      assert ValidSlot(fs, SlotFor(i, k));
      SameAddrs(l, SetSize(fs, 1, size), fs', SlotFor(i, k));
    }
    hide SameIndirect, Building, SameBlock, NoHoles, Content, ByteAt, AddrOf, RoundedUp, MaxBytes, Quotient;
    forall p: nat | p < |want[i]|
      ensures Quotient(p, BSIZE) < MAXFILE && ByteAt(l, fs', i, p) == want[i][p]
    {
      SameByte(l, fs, fs', i, p);
      ContentByte(l, fs, i, p);
    }
  }

  /** off = ((off/BSIZE) + 1) * BSIZE */
  function RoundedUp(off: nat): nat
  {
    (Quotient(off, BSIZE) + 1) * BSIZE
  }

  lemma EmptyImage(l: Layout, fs: Fs)
    requires WfLayout(l) && fs.blocks == seq(l.size, _ => ZeroBlock())
    requires fs.inodes == seq(l.ninodes, _ => Inode(false, 0, seq(NDIRECT + 1, _ => 0)))
    ensures Building(l, fs, map[], l.datastart) && AllExact(l, fs)
    ensures Holds(l, fs, seq(l.ninodes, _ => []))
  {
    assert WfFs(l, fs);
    forall s: Slot | ValidSlot(fs, s) ensures AddrOf(l, fs, s) == 0 {
    }
    forall i: nat | i < |fs.inodes| ensures Exact(l, fs, i, fs.inodes[i].size) {
      forall bn: nat | bn < MAXFILE ensures BlockAddr(l, fs, i, bn) == 0 {
        assert ValidSlot(fs, SlotFor(i, bn));
      }
    }
  }

  /** Block addresses are the same when only the bitmap has been written. */
  lemma SameDataAddrs(l: Layout, fs: Fs, fs': Fs, owner: map<nat, Slot>, free: nat)
    requires Building(l, fs, owner, free) && WfFs(l, fs') && fs'.inodes == fs.inodes
    requires forall b | l.datastart <= b < l.size :: fs'.blocks[b] == fs.blocks[b]
    ensures SameIndirect(l, fs, fs')
  {
    forall i | 0 <= i < |fs.inodes| && 0 < fs.inodes[i].addrs[NDIRECT] < |fs.blocks|
      ensures l.datastart <= fs.inodes[i].addrs[NDIRECT]
    {
      IndirectBlock(l, fs, owner, free, i);
    }
  }

  /** The blocks below the rounded size are those below the size and the one the size falls in. */
  lemma RoundedBlocks(off: nat, bn: nat)
    ensures BlockStart(bn) < RoundedUp(off) <==> bn <= Quotient(off, BSIZE)
    ensures bn < Quotient(off, BSIZE) ==> BlockStart(bn) < off
    ensures bn == Quotient(off, BSIZE) ==> (BlockStart(bn) < off <==> Remainder(off, BSIZE) != 0)
  {
    var q := Quotient(off, BSIZE);
    Division(off, BSIZE);
    hide Quotient, Remainder;
    if bn <= q {
      MulMonotone(bn, q, BSIZE);
      if bn < q {
        MulMonotone(bn + 1, q, BSIZE);
      }
    } else {
      MulMonotone(q + 1, bn, BSIZE);
    }
  }

  /** Each file's addresses after the root's size has been rounded up and the bitmap written. */
  ghost predicate AddressedUpTo(l: Layout, fs: Fs, fs': Fs)
  {
    && WfFs(l, fs) && WfFs(l, fs') && |fs'.inodes| == |fs.inodes|
    && forall i: nat, bn: nat | i < |fs.inodes| && bn < MAXFILE ::
         BlockAddr(l, fs', i, bn) != 0 <==> BlockStart(bn) < fs.inodes[i].size
  }

  lemma RoundedAddresses(l: Layout, fs: Fs, fs': Fs, size: nat)
    requires AllExact(l, fs) && 1 < |fs.inodes| && SameIndirect(l, SetSize(fs, 1, size), fs')
    ensures AddressedUpTo(l, fs, fs')
  {
    SizeOnly(l, fs, 1, size);
    forall i: nat, bn: nat | i < |fs.inodes| && bn < MAXFILE
      ensures BlockAddr(l, fs', i, bn) != 0 <==> BlockStart(bn) < fs.inodes[i].size
    {
      assert Exact(l, fs, i, fs.inodes[i].size);
      assert ValidSlot(fs, SlotFor(i, bn));
      SameAddrs(l, SetSize(fs, 1, size), fs', SlotFor(i, bn));
    }
  }

  /** Only the size of the longest file is rounded up beyond it. */
  lemma RoundedTooLong(off: nat)
    requires off <= MaxBytes() < RoundedUp(off)
    ensures Remainder(off, BSIZE) == 0
  {
    var q := Quotient(off, BSIZE);
    RoundedBlocks(off, q);
    RoundedBlocks(off, MAXFILE);
    hide Quotient, Remainder, RoundedUp;
    MulMonotone(MAXFILE, q, BSIZE);
  }

  lemma RootRoundedWithin(l: Layout, fs: Fs, fs': Fs)
    requires AllExact(l, fs) && 1 < |fs.inodes| && RoundedUp(fs.inodes[1].size) <= MaxBytes()
    requires SameIndirect(l, SetSize(fs, 1, RoundedUp(fs.inodes[1].size)), fs')
    ensures AllFiles(l, fs') <==> Remainder(fs.inodes[1].size, BSIZE) != 0
  {
    var off := fs.inodes[1].size;
    var q := Quotient(off, BSIZE);
    RoundedAddresses(l, fs, fs', RoundedUp(off));
    RoundedBlocks(off, q);
    RoundedBlocks(off, MAXFILE);
    hide Quotient, Remainder, RoundedUp, BlockStart, BlockAddr;
    if AllFiles(l, fs') {
      assert NoHoles(l, fs', 1, RoundedUp(off));
    }
    if Remainder(off, BSIZE) != 0 {
      forall i: nat | i < |fs'.inodes| ensures NoHoles(l, fs', i, fs'.inodes[i].size) {
        NoHolesRounded(l, fs, fs', i);
      }
    }
  }

  /** Rounding the root's size up leaves a hole exactly when its last block was full. */
  lemma RootRounded(l: Layout, fs: Fs, fs': Fs)
    requires AllExact(l, fs) && 1 < |fs.inodes|
    requires SameIndirect(l, SetSize(fs, 1, RoundedUp(fs.inodes[1].size)), fs')
    ensures AllFiles(l, fs') <==> Remainder(fs.inodes[1].size, BSIZE) != 0
  {
    hide Quotient, Remainder, RoundedUp, BlockStart, BlockAddr, MaxBytes;
    var off := fs.inodes[1].size;
    if RoundedUp(off) <= MaxBytes() {
      RootRoundedWithin(l, fs, fs');
    } else {
      assert Exact(l, fs, 1, off);
      RoundedTooLong(off);
      assert !NoHoles(l, fs', 1, fs'.inodes[1].size);
    }
  }

  lemma NoHolesRounded(l: Layout, fs: Fs, fs': Fs, i: nat)
    requires AllExact(l, fs) && AddressedUpTo(l, fs, fs') && i < |fs.inodes| && 1 < |fs.inodes|
    requires fs'.inodes == SetSize(fs, 1, RoundedUp(fs.inodes[1].size)).inodes && RoundedUp(fs.inodes[1].size) <= MaxBytes()
    requires Remainder(fs.inodes[1].size, BSIZE) != 0
    ensures NoHoles(l, fs', i, fs'.inodes[i].size)
  {
    assert Exact(l, fs, i, fs.inodes[i].size);
    hide Quotient, Remainder, RoundedUp, BlockStart, BlockAddr;
    forall bn: nat | bn < MAXFILE && BlockStart(bn) < fs'.inodes[i].size ensures BlockAddr(l, fs', i, bn) != 0 {
      RoundedBlocks(fs.inodes[1].size, bn);
    }
  }

  /** The contents of all files, by inode number. */
  ghost predicate Holds(l: Layout, fs: Fs, want: seq<seq<byte>>)
  {
    && WfFs(l, fs) && |want| == |fs.inodes|
    && forall i: nat | i < |want| :: fs.inodes[i].size <= MaxBytes() && Content(l, fs, i) == want[i]
  }

  lemma HoldsMore(l: Layout, fs0: Fs, fs: Fs, want: seq<seq<byte>>, inum: nat, p: seq<byte>)
    requires Holds(l, fs0, want) && AllFiles(l, fs0) && AllFiles(l, fs) && |fs.inodes| == |fs0.inodes| && inum < |want|
    requires Content(l, fs, inum) == Content(l, fs0, inum) + p
    requires forall i: nat | i < |fs.inodes| && i != inum :: Content(l, fs, i) == Content(l, fs0, i)
    ensures Holds(l, fs, want[inum := want[inum] + p])
  {
    hide Content;
    forall i: nat | i < |want| ensures fs.inodes[i].size <= MaxBytes() {
      assert NoHoles(l, fs, i, fs.inodes[i].size);
    }
  }

  function Joined(parts: seq<seq<byte>>): seq<byte>
  {
    if parts == [] then [] else Joined(parts[..|parts|-1]) + parts[|parts|-1]
  }

  /** The contents once k files have been added. */
  function Wanted(want: seq<seq<byte>>, files: seq<seq<byte>>, names: seq<seq<byte>>, k: nat): (r: seq<seq<byte>>)
    requires k <= |files| == |names| && |files| + 2 <= |want|
    ensures |r| == |want|
  {
    seq(|want|, i requires 0 <= i < |want| =>
      if i == 1 then want[1] + Joined(names[..k]) else if 2 <= i < k + 2 then files[i-2] else want[i])
  }

  /** Some file, at some stage, is longer than a file can be. */
  ghost predicate TooLong(want: seq<seq<byte>>, files: seq<seq<byte>>, names: seq<seq<byte>>)
  {
    && |files| == |names| && |files| + 2 <= |want|
    && exists k: nat, i: nat | k <= |files| && i < |want| :: |Wanted(want, files, names, k)[i]| > MaxBytes()
  }

  lemma WantedNone(want: seq<seq<byte>>, files: seq<seq<byte>>, names: seq<seq<byte>>)
    requires |files| == |names| && |files| + 2 <= |want|
    ensures Wanted(want, files, names, 0) == want
  {
    assert names[..0] == [];
    assert want[1] + [] == want[1];
  }

  lemma WantedMore(want: seq<seq<byte>>, files: seq<seq<byte>>, names: seq<seq<byte>>, k: nat)
    requires k < |files| == |names| && |files| + 2 <= |want| && forall i | 2 <= i < |want| :: want[i] == []
    ensures var w := Wanted(want, files, names, k);
            w[1 := w[1] + names[k]][k + 2 := w[1 := w[1] + names[k]][k+2] + files[k]] == Wanted(want, files, names, k + 1)
  {
    assert names[..k+1][..k] == names[..k];
    assert [] + files[k] == files[k];
    assert want[1] + Joined(names[..k]) + names[k] == want[1] + (Joined(names[..k]) + names[k]);
  }

  /** The two files that step k extends are too long only if the stage it leads to is. */
  lemma TooLongAt(want: seq<seq<byte>>, files: seq<seq<byte>>, names: seq<seq<byte>>, k: nat)
    requires k < |files| == |names| && |files| + 2 <= |want| && forall i | 2 <= i < |want| :: want[i] == []
    ensures var w := Wanted(want, files, names, k); var w1 := w[1 := w[1] + names[k]];
            |w[1] + names[k]| > MaxBytes() || |w1[k + 2] + files[k]| > MaxBytes() ==> TooLong(want, files, names)
  {
    WantedMore(want, files, names, k);
    var next := Wanted(want, files, names, k + 1);
    var w := Wanted(want, files, names, k);
    var w1 := w[1 := w[1] + names[k]];
    hide Wanted, MaxBytes;
    assert next[1] == w[1] + names[k] && next[k + 2] == w1[k + 2] + files[k];
  }

  // ----- The bitmap --------------------------------------------------------------------------

  lemma ZeroBits(k: nat)
    ensures !TestMask(0, k)
  {
    if k > 0 {
      ZeroBits(k - 1);
    }
  }

  lemma ZeroBlockBits(i: nat)
    requires i < BPB
    ensures !GetBit(ZeroBlock(), i)
  {
    ZeroBits(i % 8);
  }

  /** A block whose first used bits are set. */
  method FillBits(used: nat) returns (buf: Block)
    requires used < BPB
    ensures forall i: nat | i < BPB :: GetBit(buf, i) <==> i < used
  {
    buf := ZeroBlock();
    forall i: nat | i < BPB ensures !GetBit(buf, i) {
      ZeroBlockBits(i);
    }
    for i := 0 to used
      invariant forall j: nat | j < BPB :: GetBit(buf, j) <==> j < i
    {
      ghost var before := buf;
      buf := SetBit(buf, i);
      forall j: nat | j < BPB ensures GetBit(buf, j) <==> j == i || GetBit(before, j) {
        BitUpdates(before, i, j);
      }
    }
  }

  /** With the bitmap written, exactly the metadata and the owned blocks are marked. */
  lemma BitmapWritten(l: Layout, fs: Fs, owner: map<nat, Slot>, used: nat, buf: Block)
    requires Building(l, fs, owner, used) && used < BPB && forall i: nat | i < BPB :: GetBit(buf, i) <==> i < used
    ensures FsInv(l, Fs(fs.blocks[l.bmapstart := buf], fs.inodes), owner)
  {
    var fs' := Fs(fs.blocks[l.bmapstart := buf], fs.inodes);
    ElsewhereSame(l, fs, owner, {}, l.bmapstart, buf);
    SameOwned(l, fs, fs', owner, {});
    hide GetBit, ZeroBlock, Owned;
    forall b: nat | b < l.size ensures Used(l, fs'.blocks, b) <==> b < used {
      Division(b, BPB);
      ZeroBlockBits(Remainder(b, BPB));
      if Quotient(b, BPB) > 0 {
        MulMonotone(1, Quotient(b, BPB), BPB);
      }
    }
  }

  lemma AppendReady(l: Layout, fs0: Fs, fs: Fs, inum: nat, off0: nat, p: seq<byte>, tot: nat, n1: nat)
    requires Progress(l, fs0, fs, inum, off0, p, tot) && tot < |p| && off0 + |p| <= MaxBytes()
    requires n1 == Min(|p| - tot, BSIZE - Remainder(off0 + tot, BSIZE))
    ensures inum < |fs.inodes| && Quotient(off0 + tot, BSIZE) < MAXFILE
    ensures 0 < n1 && tot + n1 <= |p| && Remainder(off0 + tot, BSIZE) + |p[tot..tot+n1]| <= BSIZE
  {
    BlockIndex(off0 + tot, MAXFILE);
  }

  lemma AppendStart(l: Layout, fs: Fs, inum: nat, p: seq<byte>)
    requires AllExact(l, fs) && inum < |fs.inodes|
    ensures Progress(l, fs, fs, inum, fs.inodes[inum].size, p, 0) && Exact(l, fs, inum, fs.inodes[inum].size)
  {
    ExactFiles(l, fs);
    assert NoHoles(l, fs, inum, fs.inodes[inum].size);
    ProgressStart(l, fs, inum, fs.inodes[inum].size, p);
  }

  lemma AppendDone(l: Layout, fs0: Fs, fs: Fs, owner: map<nat, Slot>, free: nat, inum: nat, off0: nat, p: seq<byte>)
    requires AllExact(l, fs0) && AllFiles(l, fs0) && Building(l, fs, owner, free) && Progress(l, fs0, fs, inum, off0, p, |p|)
    requires Exact(l, fs, inum, off0 + |p|) && off0 == fs0.inodes[inum].size
    ensures var fs' := SetSize(fs, inum, off0 + |p|);
            && Building(l, fs', owner, free) && AllExact(l, fs') && AllFiles(l, fs') && |fs'.inodes| == |fs0.inodes|
            && Content(l, fs', inum) == Content(l, fs0, inum) + p
            && forall i: nat | i < |fs'.inodes| && i != inum :: Content(l, fs', i) == Content(l, fs0, i)
  {
    hide Building, Progress, SameOthers, Exact, Content, AllFiles, AllExact;
    AppendedFile(l, fs0, fs, inum, off0, p);
    AppendedOthers(l, fs0, fs, inum, off0 + |p|);
    BuildingSized(l, fs, owner, free, inum, off0 + |p|);
    SameSizes(l, fs0, fs, inum, inum);
    AllExactNow(l, SetSize(fs, inum, off0 + |p|), inum);
    ExactFiles(l, SetSize(fs, inum, off0 + |p|));
  }

  lemma AppendedFile(l: Layout, fs0: Fs, fs: Fs, inum: nat, off0: nat, p: seq<byte>)
    requires AllFiles(l, fs0) && Progress(l, fs0, fs, inum, off0, p, |p|)
    requires Exact(l, fs, inum, off0 + |p|) && off0 == fs0.inodes[inum].size
    ensures var fs' := SetSize(fs, inum, off0 + |p|);
            && Exact(l, fs', inum, off0 + |p|) && fs0.inodes[inum].size <= MaxBytes()
            && Content(l, fs', inum) == Content(l, fs0, inum) + p
            && SameOthers(l, fs0, fs, inum) && inum < |fs.inodes|
  {
    assert NoHoles(l, fs0, inum, off0);
    WrittenFile(l, fs0, fs, inum, off0, p);
    SizedExact(l, fs, inum, inum, off0 + |p|, off0 + |p|);
    var c := Content(l, fs0, inum);
    assert SameOthers(l, fs0, fs, inum);
    hide Progress, Exact, Content, SameOthers, NoHoles;
    assert Splice(c, |c|, p) == c + p;
  }

  lemma AllExactNow(l: Layout, fs: Fs, inum: nat)
    requires inum < |fs.inodes| && Exact(l, fs, inum, fs.inodes[inum].size)
    requires forall i: nat | i < |fs.inodes| && i != inum :: Exact(l, fs, i, fs.inodes[i].size)
    ensures AllExact(l, fs)
  {
  }

  lemma AppendedOthers(l: Layout, fs0: Fs, fs: Fs, inum: nat, size: nat)
    requires AllExact(l, fs0) && AllFiles(l, fs0) && SameOthers(l, fs0, fs, inum) && inum < |fs.inodes|
    ensures var fs' := SetSize(fs, inum, size);
            && WfFs(l, fs')
            && forall i: nat | i < |fs'.inodes| && i != inum ::
                 Exact(l, fs', i, fs'.inodes[i].size) && Content(l, fs', i) == Content(l, fs0, i)
  {
    var fs' := SetSize(fs, inum, size);
    SizeOnly(l, fs, inum, size);
    hide SameOthers, Exact, Content, AllFiles, AddrOf;
    forall i: nat | i < |fs'.inodes| && i != inum
      ensures Exact(l, fs', i, fs'.inodes[i].size) && Content(l, fs', i) == Content(l, fs0, i)
    {
      SameSizes(l, fs0, fs, inum, i);
      OtherExact(l, fs0, fs, inum, i, fs0.inodes[i].size);
      SizedExact(l, fs, inum, i, size, fs0.inodes[i].size);
      OtherFile(l, fs0, fs, inum, size, i);
    }
  }

  lemma SameSizes(l: Layout, fs: Fs, fs': Fs, inum: nat, i: nat)
    requires SameOthers(l, fs, fs', inum) && i < |fs'.inodes|
    ensures |fs'.inodes| == |fs.inodes| && fs'.inodes[i].size == fs.inodes[i].size
  {
  }

  lemma BuildingSized(l: Layout, fs: Fs, owner: map<nat, Slot>, free: nat, inum: nat, size: nat)
    requires Building(l, fs, owner, free) && inum < |fs.inodes|
    ensures Building(l, SetSize(fs, inum, size), owner, free)
  {
    SizeOnly(l, fs, inum, size);
  }

  lemma MapsAlready(l: Layout, fs: Fs, owner: map<nat, Slot>, free: nat, inum: nat, bn: nat)
    requires Building(l, fs, owner, free) && inum < |fs.inodes| && bn < MAXFILE && BlockAddr(l, fs, inum, bn) != 0
    ensures MapsTo(l, fs, fs, inum, bn, BlockAddr(l, fs, inum, bn))
  {
    OwnedBlock(l, fs, owner, inum, bn);
  }

  lemma IndirectBlock(l: Layout, fs: Fs, owner: map<nat, Slot>, free: nat, inum: nat)
    requires Building(l, fs, owner, free) && inum < |fs.inodes| && fs.inodes[inum].addrs[NDIRECT] != 0
    ensures l.datastart <= fs.inodes[inum].addrs[NDIRECT] < |fs.blocks|
  {
    assert ValidSlot(fs, Indirect(inum)) && AddrOf(l, fs, Indirect(inum)) == fs.inodes[inum].addrs[NDIRECT];
  }

  lemma MapsThen(l: Layout, fs: Fs, fs1: Fs, fs2: Fs, inum: nat, bn: nat, x: nat)
    requires SameFiles(l, fs, fs1) && MapsTo(l, fs1, fs2, inum, bn, x) && fs1.inodes == fs.inodes[inum := fs1.inodes[inum]]
    requires fs1.blocks == fs.blocks && (fs.inodes[inum].addrs[NDIRECT] != 0 ==> fs1 == fs)
    requires bn >= NDIRECT
    ensures MapsTo(l, fs, fs2, inum, bn, x)
  {
    assert SameBlock(l, fs, fs1, inum, bn);
    SameFilesThen(l, fs, fs1, fs2, inum, bn);
    assert fs.inodes[inum].addrs[NDIRECT] == 0 ==> BlockAddr(l, fs, inum, bn) == 0;
  }
}
