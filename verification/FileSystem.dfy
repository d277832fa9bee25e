/**
 * The block and inode layer of xv6/fs.c.  blocks is the disk as the running transaction sees
 * it, logged the set of blocks it has passed to log_write, inodes the in-memory inodes and
 * dinodes what iupdate last stored for them.
 */
module FileSystem {
  import opened Blocks
  import opened Common
  import opened FsSpec
  import opened FsLemmas

  /** The two loops of balloc: the first block whose bit is clear. */
  method FindFree(l: Layout, blocks: seq<Block>) returns (ok: bool, r: nat)
    requires WfLayout(l) && |blocks| == l.size
    ensures ok ==> r < l.size && !Used(l, blocks, r) && forall x: nat | x < r :: Used(l, blocks, x)
    ensures !ok ==> forall x: nat | x < l.size :: Used(l, blocks, x)
  {
    var b := 0;
    ghost var q := 0;
    while b < l.size
      invariant b == q * BPB
      invariant forall x: nat | x < b && x < l.size :: Used(l, blocks, x)
      decreases l.size - b
    {
      var found;
      found, r := FindInBlock(l, blocks, b, q);
      if found {
        return true, r;
      }
      b, q := b + BPB, q + 1;
    }
    return false, 0;
  }

  /** The first block that bitmap block q is about. */
  ghost function BitmapStart(q: nat): nat
  {
    q * BPB
  }

  /** Bit bi of the bitmap block for b is the mark of b + bi. */
  lemma BitmapBit(l: Layout, blocks: seq<Block>, b: nat, q: nat, bi: nat)
    requires WfLayout(l) && |blocks| == l.size && b == BitmapStart(q) && bi < BPB && b + bi < l.size
    ensures BBlock(l, b) == BBlock(l, b + bi) < |blocks|
    ensures Used(l, blocks, b + bi) <==> GetBit(blocks[BBlock(l, b)], bi)
  {
    DivisionUnique(b, BPB, q, 0);
    DivisionUnique(b + bi, BPB, q, bi);
    hide Quotient, Remainder, GetBit;
  }

  /** The inner loop, over the bits of one bitmap block. */
  method FindInBlock(l: Layout, blocks: seq<Block>, b: nat, ghost q: nat) returns (found: bool, r: nat)
    requires WfLayout(l) && |blocks| == l.size && b < l.size && b == BitmapStart(q)
    ensures found ==> b <= r < l.size && !Used(l, blocks, r) && forall x: nat | b <= x < r :: Used(l, blocks, x)
    ensures !found ==> forall x: nat | b <= x < b + BPB && x < l.size :: Used(l, blocks, x)
  {
    hide Quotient, Remainder, GetBit, BitmapStart;
    BitmapBit(l, blocks, b, q, 0);
    var bp := blocks[BBlock(l, b)];
    var bi := 0;
    while bi < BPB && b + bi < l.size
      invariant 0 <= bi <= BPB
      invariant forall x: nat | b <= x < b + bi && x < l.size :: Used(l, blocks, x)
    {
      BitmapBit(l, blocks, b, q, bi);
      if !GetBit(bp, bi) {
        return true, b + bi;
      }
      bi := bi + 1;
    }
    return false, 0;
  }

  datatype MapResult = Mapped(addr: nat) | OutOfRange | NoSpace

  class Volume {
    const l: Layout
    const ipb: Positive
    var blocks: seq<Block>
    var inodes: seq<Inode>
    var dinodes: seq<Inode>
    var logged: set<nat>
    /** Which slot holds each allocated block. */
    ghost var owner: map<nat, Slot>

    ghost function Img(): Fs
      reads this
    {
      Fs(blocks, inodes)
    }

    /** What is stored: iupdate has yet to copy the inodes that are ahead of it. */
    ghost function OnDisk(): Fs
      reads this
    {
      Fs(blocks, dinodes)
    }

    ghost predicate Valid()
      reads this
    {
      FsInv(l, Fs(blocks, inodes), owner)
    }

    /** balloc.  Not ok is the panic "out of blocks". */
    method Balloc() returns (ok: bool, b: nat)
      requires WfLayout(l) && |blocks| == l.size
      modifies this`blocks, this`logged
      ensures AllLogged(old(blocks), blocks, logged) && old(logged) <= logged
      ensures ok ==> b < l.size && !Used(l, old(blocks), b) && forall x: nat | x < b :: Used(l, old(blocks), x)
      ensures ok ==> blocks == AllocBlocks(l, old(blocks), b) && logged == old(logged) + {BBlock(l, b), b}
      ensures !ok ==> Full(l, blocks) && blocks == old(blocks) && logged == old(logged)
    {
      ok, b := FindFree(l, blocks);
      if ok {
        var bno := BBlock(l, b);
        blocks := blocks[bno := SetBit(blocks[bno], Remainder(b, BPB))];
        logged := logged + {bno};
        blocks := blocks[b := ZeroBlock()];
        logged := logged + {b};
      }
    }

    /** bfree.  Not ok is the panic "freeing free block". */
    method Bfree(b: nat) returns (ok: bool)
      requires WfLayout(l) && |blocks| == l.size && b < l.size
      modifies this`blocks, this`logged
      ensures AllLogged(old(blocks), blocks, logged) && old(logged) <= logged
      ensures ok <==> Used(l, old(blocks), b)
      ensures ok ==> blocks == FreeBlocks(l, old(blocks), b) && logged == old(logged) + {BBlock(l, b)}
      ensures !ok ==> blocks == old(blocks) && logged == old(logged)
    {
      var bno := BBlock(l, b);
      if !GetBit(blocks[bno], Remainder(b, BPB)) {
        return false;
      }
      blocks := blocks[bno := ClearBit(blocks[bno], Remainder(b, BPB))];
      logged := logged + {bno};
      return true;
    }

    /** bmap's direct branch when the slot is empty. */
    method MapDirect(inum: nat, bn: nat) returns (r: MapResult)
      requires Valid() && inum < |inodes| && bn < NDIRECT && BlockAddr(l, Img(), inum, bn) == 0
      modifies this`blocks, this`inodes, this`logged, this`owner
      ensures AllLogged(old(blocks), blocks, logged) && old(logged) <= logged
      ensures !r.OutOfRange?
      ensures r.Mapped? ==> Valid() && SameBut(l, old(Img()), Img(), inum, bn) && r.addr != 0
      ensures r.Mapped? ==> BlockAddr(l, Img(), inum, bn) == r.addr < l.size && blocks[r.addr] == ZeroBlock()
      ensures r.Mapped? ==> l.datastart <= r.addr
      ensures r.Mapped? ==> logged == old(logged) + {BBlock(l, r.addr), r.addr}
      ensures r.Mapped? ==> inodes[inum].addrs[NDIRECT] == old(inodes[inum].addrs[NDIRECT])
      ensures r.Mapped? ==> inodes == old(inodes)[inum := inodes[inum]]
      ensures r.NoSpace? ==> Full(l, blocks)
    {
      ghost var fs := Img();
      var ok, b := Balloc();
      if !ok {
        return NoSpace;
      }
      DirectAlloc(l, fs, owner, inum, bn, b);
      hide FsInv, SameBut, AllocBlocks, ZeroBlock;
      var ip := inodes[inum];
      inodes := inodes[inum := Inode(ip.device, ip.size, ip.addrs[bn := b])];
      owner := owner[b := Direct(inum, bn)];
      return Mapped(b);
    }

    /** bmap's indirect branch, given the indirect block, when the entry is empty. */
    method MapEntry(inum: nat, bn: nat) returns (r: MapResult)
      requires Valid() && inum < |inodes| && NDIRECT <= bn < MAXFILE && BlockAddr(l, Img(), inum, bn) == 0
      requires inodes[inum].addrs[NDIRECT] != 0
      modifies this`blocks, this`logged, this`owner
      ensures AllLogged(old(blocks), blocks, logged) && old(logged) <= logged
      ensures !r.OutOfRange?
      ensures r.Mapped? ==> Valid() && SameBut(l, old(Img()), Img(), inum, bn) && r.addr != 0
      ensures r.Mapped? ==> BlockAddr(l, Img(), inum, bn) == r.addr < l.size && blocks[r.addr] == ZeroBlock()
      ensures r.Mapped? ==> l.datastart <= r.addr
      ensures r.Mapped? ==> logged == old(logged) + {BBlock(l, r.addr), r.addr, inodes[inum].addrs[NDIRECT]}
      ensures r.NoSpace? ==> Full(l, blocks)
    {
      ghost var fs := Img();
      var ok, b := Balloc();
      if !ok {
        return NoSpace;
      }
      EntryAlloc(l, fs, owner, inum, bn, b);
      hide FsInv, SameBut, AllocBlocks, ZeroBlock;
      var ind := inodes[inum].addrs[NDIRECT];
      blocks := blocks[ind := PutWord(blocks[ind], bn - NDIRECT, b)];
      logged := logged + {ind};
      owner := owner[b := Entry(inum, bn - NDIRECT)];
      return Mapped(b);
    }

    /** bmap's allocation of the indirect block. */
    method MapIndirect(inum: nat) returns (ok: bool)
      requires Valid() && inum < |inodes| && inodes[inum].addrs[NDIRECT] == 0
      modifies this`blocks, this`inodes, this`logged, this`owner
      ensures AllLogged(old(blocks), blocks, logged) && old(logged) <= logged
      ensures ok ==> Valid() && SameFiles(l, old(Img()), Img()) && |inodes| == |old(inodes)| && inodes[inum].addrs[NDIRECT] != 0
      ensures ok ==> logged == old(logged) + {BBlock(l, inodes[inum].addrs[NDIRECT]), inodes[inum].addrs[NDIRECT]}
      ensures ok ==> inodes == old(inodes)[inum := inodes[inum]]
      ensures !ok ==> Full(l, blocks)
    {
      ghost var fs := Img();
      var b;
      ok, b := Balloc();
      if ok {
        IndirectAlloc(l, fs, owner, inum, b);
        hide FsInv, SameFiles, AllocBlocks, ZeroBlock;
        var ip := inodes[inum];
        inodes := inodes[inum := Inode(ip.device, ip.size, ip.addrs[NDIRECT := b])];
        owner := owner[b := Indirect(inum)];
      }
    }

    /** bmap for a direct block. */
    method BmapDirect(inum: nat, bn: nat) returns (r: MapResult)
      requires Valid() && inum < |inodes| && bn < NDIRECT
      modifies this`blocks, this`inodes, this`logged, this`owner
      ensures AllLogged(old(blocks), blocks, logged) && old(logged) <= logged
      ensures !r.OutOfRange?
      ensures BlockAddr(l, old(Img()), inum, bn) != 0 ==> r.Mapped? && Same(old(Img()), old(logged), old(owner))
      ensures r.NoSpace? ==> Full(l, blocks)
      ensures r.Mapped? ==> Valid() && MapsTo(l, old(Img()), Img(), inum, bn, r.addr) && MapLogs(l, old(Img()), Img(), inum, bn, old(logged), logged)
    {
      var addr := inodes[inum].addrs[bn];
      if addr == 0 {
        assert BlockAddr(l, Img(), inum, bn) == 0;
        r := MapDirect(inum, bn);
        hide FsInv;
      } else {
        ThereAlready(l, Img(), owner, inum, bn, logged);
        hide FsInv, MapsTo, MapLogs;
        r := Mapped(addr);
      }
    }

    /** bmap for a block behind the indirect block. */
    method BmapIndirect(inum: nat, bn: nat) returns (r: MapResult)
      requires Valid() && inum < |inodes| && NDIRECT <= bn < MAXFILE
      modifies this`blocks, this`inodes, this`logged, this`owner
      ensures AllLogged(old(blocks), blocks, logged) && old(logged) <= logged
      ensures !r.OutOfRange?
      ensures BlockAddr(l, old(Img()), inum, bn) != 0 ==> r.Mapped? && Same(old(Img()), old(logged), old(owner))
      ensures r.NoSpace? ==> Full(l, blocks)
      ensures r.Mapped? ==> Valid() && MapsTo(l, old(Img()), Img(), inum, bn, r.addr) && MapLogs(l, old(Img()), Img(), inum, bn, old(logged), logged)
    {
      ghost var fs := Img();
      NoneLogged(blocks, logged);
      hide AllLogged;
      if inodes[inum].addrs[NDIRECT] == 0 {
        assert BlockAddr(l, fs, inum, bn) == 0;
        var ok := MapIndirect(inum);
        if !ok {
          return NoSpace;
        }
        assert SameBlock(l, fs, Img(), inum, bn);
      } else {
        SameFilesReflexive(l, fs);
      }
      ghost var fs1, logged1 := Img(), logged;
      IndirectInRange(l, fs1, owner, inum);
      var addr := GetWord(blocks[inodes[inum].addrs[NDIRECT]], bn - NDIRECT);
      if addr == 0 {
        r := MapEntry(inum, bn);
        AllLoggedThen(fs.blocks, fs1.blocks, blocks, logged1, logged);
        if r.Mapped? {
          SameFilesThen(l, fs, fs1, Img(), inum, bn);
        }
        hide FsInv, SameBut, SameFiles;
      } else {
        ThereAlready(l, Img(), owner, inum, bn, logged);
        hide FsInv, MapsTo, MapLogs;
        r := Mapped(addr);
      }
    }

    ghost predicate Same(fs: Fs, logged0: set<nat>, owner0: map<nat, Slot>)
      reads this
    {
      Img() == fs && logged == logged0 && owner == owner0
    }

    /** bmap: the address of block bn of file inum, allocating what is missing. */
    method Bmap(inum: nat, bn: nat) returns (r: MapResult)
      requires Valid() && inum < |inodes|
      modifies this`blocks, this`inodes, this`logged, this`owner
      ensures AllLogged(old(blocks), blocks, logged) && old(logged) <= logged
      ensures r.OutOfRange? <==> bn >= MAXFILE
      ensures r.OutOfRange? ==> Same(old(Img()), old(logged), old(owner))
      ensures bn < MAXFILE && BlockAddr(l, old(Img()), inum, bn) != 0 ==> r.Mapped? && Same(old(Img()), old(logged), old(owner))
      ensures r.NoSpace? ==> Full(l, blocks)
      ensures r.Mapped? ==> Valid() && MapsTo(l, old(Img()), Img(), inum, bn, r.addr) && MapLogs(l, old(Img()), Img(), inum, bn, old(logged), logged)
    {
      if bn < NDIRECT {
        hide FsInv, MapsTo, MapLogs;
        r := BmapDirect(inum, bn);
      } else if bn < MAXFILE {
        hide FsInv, MapsTo, MapLogs;
        r := BmapIndirect(inum, bn);
      } else {
        r := OutOfRange;
      }
    }
  }

  /** Block bn of file inum is at addr, zeroed if it is new, and every other block is the same. */
  ghost predicate MapsTo(l: Layout, fs: Fs, fs': Fs, inum: nat, bn: nat, addr: nat)
  {
    && SameBut(l, fs, fs', inum, bn) && inum < |fs.inodes| && bn < MAXFILE
    && BlockAddr(l, fs', inum, bn) == addr && l.datastart <= addr < l.size && addr != 0
    && (BlockAddr(l, fs, inum, bn) == 0 ==> fs'.blocks[addr] == ZeroBlock())
    && (BlockAddr(l, fs, inum, bn) != 0 ==> fs' == fs)
    && fs'.inodes == fs.inodes[inum := fs'.inodes[inum]]
  }

  lemma ThereAlready(l: Layout, fs: Fs, owner: map<nat, Slot>, inum: nat, bn: nat, logged: set<nat>)
    requires FsInv(l, fs, owner) && inum < |fs.inodes| && bn < MAXFILE && BlockAddr(l, fs, inum, bn) != 0
    ensures MapsTo(l, fs, fs, inum, bn, BlockAddr(l, fs, inum, bn)) && MapLogs(l, fs, fs, inum, bn, logged, logged)
  {
    OwnedBlock(l, fs, owner, inum, bn);
  }

  lemma IndirectInRange(l: Layout, fs: Fs, owner: map<nat, Slot>, inum: nat)
    requires FsInv(l, fs, owner) && inum < |fs.inodes|
    ensures fs.inodes[inum].addrs[NDIRECT] != 0 ==> l.datastart <= fs.inodes[inum].addrs[NDIRECT] < |fs.blocks|
  {
    assert ValidSlot(fs, Indirect(inum)) && AddrOf(l, fs, Indirect(inum)) == fs.inodes[inum].addrs[NDIRECT];
  }

  lemma SameFilesReflexive(l: Layout, fs: Fs)
    requires WfFs(l, fs)
    ensures SameFiles(l, fs, fs)
  {
  }

  /** What bmap logs: nothing if the block was there, else the blocks it changed. */
  ghost predicate MapLogs(l: Layout, fs: Fs, fs': Fs, inum: nat, bn: nat, logged: set<nat>, logged': set<nat>)
  {
    && WfFs(l, fs) && WfFs(l, fs') && inum < |fs.inodes| && inum < |fs'.inodes| && bn < MAXFILE
    && var ind, ind', addr := fs.inodes[inum].addrs[NDIRECT], fs'.inodes[inum].addrs[NDIRECT], BlockAddr(l, fs', inum, bn);
    && (ind != 0 ==> ind' == ind)
    && (BlockAddr(l, fs, inum, bn) != 0 ==> logged' == logged)
    && (BlockAddr(l, fs, inum, bn) == 0 && bn < NDIRECT ==> logged' == logged + {BBlock(l, addr), addr} && ind' == ind)
    && (BlockAddr(l, fs, inum, bn) == 0 && bn >= NDIRECT ==>
          logged' == logged + {BBlock(l, addr), addr, ind'} + if ind == 0 then {BBlock(l, ind'), ind'} else {})
  }
}
