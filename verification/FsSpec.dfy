/**
 * The on-disk structures of xv6/fs.c: the free bitmap, the direct and indirect block map of an
 * inode, who owns which block, and the byte sequence a file stands for.
 */
module FsSpec {
  import opened Blocks
  import opened Common

  type DirectCount = n: nat | 1 <= n witness 12

  /** NDIRECT of fs.h. */
  const NDIRECT: DirectCount

  /** MAXFILE of fs.h, in blocks. */
  const MAXFILE: nat := NDIRECT + WORDS

  /** The largest size of a file, MAXFILE*BSIZE in fs.c. */
  function MaxBytes(): nat
  {
    MAXFILE * BSIZE
  }

  /** The offset at which block bn of a file begins. */
  function BlockStart(bn: nat): nat
  {
    bn * BSIZE
  }

  /** The layout the superblock describes: inode blocks, bitmap blocks, then data blocks. */
  datatype Layout = Layout(size: nat, ninodes: nat, inodestart: nat, bmapstart: nat, datastart: nat)

  /** IBLOCK(i, sb), with ipb inodes to a block. */
  function IBlock(l: Layout, ipb: nat, inum: nat): nat
    requires ipb > 0
  {
    inum / ipb + l.inodestart
  }

  /** BBLOCK(b, sb). */
  function BBlock(l: Layout, b: nat): nat
  {
    Quotient(b, BPB) + l.bmapstart
  }

  ghost predicate WfLayout(l: Layout)
  {
    && 0 < l.bmapstart < l.datastart <= l.size < UINT_LIMIT
    && (forall b: nat | b < l.size :: BBlock(l, b) < l.datastart)
    && MaxBytes() < UINT_LIMIT
  }

  datatype Inode = Inode(device: bool, size: nat, addrs: seq<nat>)

  /** The blocks of the disk, as the current transaction sees them, and the in-memory inodes. */
  datatype Fs = Fs(blocks: seq<Block>, inodes: seq<Inode>)

  ghost predicate WfFs(l: Layout, fs: Fs)
  {
    && WfLayout(l)
    && |fs.blocks| == l.size && |fs.inodes| == l.ninodes
    && forall i | 0 <= i < |fs.inodes| :: |fs.inodes[i].addrs| == NDIRECT + 1
  }

  /** The bitmap's bit for block b. */
  predicate Used(l: Layout, blocks: seq<Block>, b: nat)
    requires BBlock(l, b) < |blocks|
  {
    GetBit(blocks[BBlock(l, b)], Remainder(b, BPB))
  }

  /** Every block is marked used: where balloc panics. */
  ghost predicate Full(l: Layout, blocks: seq<Block>)
  {
    WfLayout(l) && |blocks| == l.size && forall x: nat | x < l.size :: Used(l, blocks, x)
  }

  /** Every block that differs was handed to log_write. */
  ghost predicate AllLogged(before: seq<Block>, after: seq<Block>, logged: set<nat>)
  {
    |after| == |before| && forall b | 0 <= b < |after| && b !in logged :: after[b] == before[b]
  }

  lemma NoneLogged(a: seq<Block>, logged: set<nat>)
    ensures AllLogged(a, a, logged)
  {
  }

  lemma AllLoggedThen(a: seq<Block>, b: seq<Block>, c: seq<Block>, logged: set<nat>, logged': set<nat>)
    requires AllLogged(a, b, logged) && AllLogged(b, c, logged') && logged <= logged'
    ensures AllLogged(a, c, logged')
  {
  }

  /** Every inode whose stored copy differs has had its block handed to log_write. */
  ghost predicate InodesLogged(l: Layout, ipb: nat, before: seq<Inode>, after: seq<Inode>, logged: set<nat>)
  {
    && ipb > 0 && |after| == |before|
    && forall i | 0 <= i < |after| && IBlock(l, ipb, i) !in logged :: after[i] == before[i]
  }

  /** iupdate logs the block of the inode it stores. */
  lemma OneInodeLogged(l: Layout, ipb: nat, inodes: seq<Inode>, inum: nat, ip: Inode, logged: set<nat>)
    requires ipb > 0 && inum < |inodes|
    ensures InodesLogged(l, ipb, inodes, inodes, logged)
    ensures InodesLogged(l, ipb, inodes, inodes[inum := ip], logged + {IBlock(l, ipb, inum)})
  {
  }

  // ----- Slots: the places that hold a block address -------------------------------------

  /** addrs[k], addrs[NDIRECT], and entry k of the indirect block. */
  datatype Slot = Direct(inum: nat, k: nat) | Indirect(inum: nat) | Entry(inum: nat, k: nat)

  predicate ValidSlot(fs: Fs, s: Slot)
  {
    && s.inum < |fs.inodes|
    && (s.Direct? ==> s.k < NDIRECT)
    && (s.Entry? ==> s.k < WORDS)
  }

  /** The address in slot s, 0 when there is none. */
  function AddrOf(l: Layout, fs: Fs, s: Slot): nat
    requires WfFs(l, fs) && ValidSlot(fs, s)
  {
    var addrs := fs.inodes[s.inum].addrs;
    match s
    case Direct(_, k) => addrs[k]
    case Indirect(_) => addrs[NDIRECT]
    case Entry(_, k) => if 0 < addrs[NDIRECT] < |fs.blocks| then GetWord(fs.blocks[addrs[NDIRECT]], k) else 0
  }

  /** The slot that holds the address of block bn of file inum. */
  function SlotFor(inum: nat, bn: nat): Slot
  {
    if bn < NDIRECT then Direct(inum, bn) else Entry(inum, bn - NDIRECT)
  }

  function BlockAddr(l: Layout, fs: Fs, inum: nat, bn: nat): nat
    requires WfFs(l, fs) && inum < |fs.inodes| && bn < MAXFILE
  {
    AddrOf(l, fs, SlotFor(inum, bn))
  }

  // ----- Ownership -------------------------------------------------------------------------

  /**
   * owner is the inverse of AddrOf, so no block is held by two slots.  The slots in dead are
   * being freed and hold stale addresses.
   */
  ghost predicate Owned(l: Layout, fs: Fs, owner: map<nat, Slot>, dead: set<Slot>)
  {
    && WfFs(l, fs)
    && (forall s: Slot | ValidSlot(fs, s) && s !in dead && AddrOf(l, fs, s) != 0 ::
          AddrOf(l, fs, s) in owner && owner[AddrOf(l, fs, s)] == s)
    && (forall s | s in dead :: s.Entry?)
    && (forall b | b in owner ::
          l.datastart <= b < l.size && ValidSlot(fs, owner[b]) && owner[b] !in dead && AddrOf(l, fs, owner[b]) == b)
  }

  /** The bitmap marks exactly the metadata, the owned blocks, and the blocks of extra. */
  ghost predicate Marked(l: Layout, blocks: seq<Block>, owner: map<nat, Slot>, extra: set<nat>)
  {
    && WfLayout(l) && |blocks| == l.size
    && forall b: nat | b < l.size :: Used(l, blocks, b) <==> b < l.datastart || b in owner || b in extra
  }

  /** Between operations: every used block is metadata or owned by exactly one slot. */
  ghost predicate FsInv(l: Layout, fs: Fs, owner: map<nat, Slot>)
  {
    Owned(l, fs, owner, {}) && Marked(l, fs.blocks, owner, {})
  }

  /** Distinct slots hold distinct blocks. */
  lemma SlotsDisjoint(l: Layout, fs: Fs, owner: map<nat, Slot>, s: Slot, t: Slot)
    requires FsInv(l, fs, owner) && ValidSlot(fs, s) && ValidSlot(fs, t) && s != t && AddrOf(l, fs, s) != 0
    ensures AddrOf(l, fs, s) != AddrOf(l, fs, t)
    ensures l.datastart <= AddrOf(l, fs, s) < l.size && Used(l, fs.blocks, AddrOf(l, fs, s))
  {
    assert owner[AddrOf(l, fs, s)] == s;
  }

  /** No block is lost: a used block outside the metadata is held by some slot. */
  lemma NoLeaks(l: Layout, fs: Fs, owner: map<nat, Slot>, b: nat)
    requires FsInv(l, fs, owner) && l.datastart <= b < l.size && Used(l, fs.blocks, b)
    ensures exists s :: ValidSlot(fs, s) && AddrOf(l, fs, s) == b
  {
    assert ValidSlot(fs, owner[b]);
  }

  // ----- Files as byte sequences -----------------------------------------------------------

  /** Every block below upto bytes has an address. */
  ghost predicate NoHoles(l: Layout, fs: Fs, inum: nat, upto: nat)
  {
    && WfFs(l, fs) && inum < |fs.inodes| && upto <= MaxBytes()
    && forall bn: nat | bn < MAXFILE && BlockStart(bn) < upto :: BlockAddr(l, fs, inum, bn) != 0
  }

  ghost predicate AllFiles(l: Layout, fs: Fs)
  {
    WfFs(l, fs) && forall i: nat | i < |fs.inodes| :: NoHoles(l, fs, i, fs.inodes[i].size)
  }

  /** No block is shared or lost, and no file has a hole. */
  ghost predicate Sound(l: Layout, fs: Fs)
  {
    AllFiles(l, fs) && exists owner :: FsInv(l, fs, owner)
  }

  /**
   * What an operation does to the stored volume: of the inodes, the bitmap and the data it changes only
   * what it hands to log_write, and it keeps the volume sound.
   */
  ghost predicate Operation(l: Layout, ipb: nat, fs: Fs, fs': Fs, logged: set<nat>)
  {
    && WfFs(l, fs) && WfFs(l, fs')
    && (forall b | l.inodestart <= b < l.size && b !in logged :: fs'.blocks[b] == fs.blocks[b])
    && InodesLogged(l, ipb, fs.inodes, fs'.inodes, logged)
    && (Sound(l, fs) ==> Sound(l, fs'))
  }

  lemma OperationOf(l: Layout, ipb: nat, fs: Fs, fs': Fs, owner: map<nat, Slot>, owner': map<nat, Slot>, logged: set<nat>)
    requires FsInv(l, fs, owner) && FsInv(l, fs', owner') && AllFiles(l, fs')
    requires AllLogged(fs.blocks, fs'.blocks, logged) && InodesLogged(l, ipb, fs.inodes, fs'.inodes, logged)
    ensures Operation(l, ipb, fs, fs', logged)
  {
  }

  /** Byte pos of file inum. */
  function ByteAt(l: Layout, fs: Fs, inum: nat, pos: nat): byte
    requires WfFs(l, fs) && inum < |fs.inodes| && Quotient(pos, BSIZE) < MAXFILE
  {
    var a := BlockAddr(l, fs, inum, Quotient(pos, BSIZE));
    if a < |fs.blocks| then fs.blocks[a][Remainder(pos, BSIZE)] else 0
  }

  lemma BlockIndex(pos: nat, n: nat)
    requires pos < n * BSIZE
    ensures Quotient(pos, BSIZE) < n
  {
    Division(pos, BSIZE);
    if Quotient(pos, BSIZE) >= n {
      MulMonotone(n, Quotient(pos, BSIZE), BSIZE);
    }
  }

  /** The contents of file inum. */
  ghost function Content(l: Layout, fs: Fs, inum: nat): (c: seq<byte>)
    requires WfFs(l, fs) && inum < |fs.inodes| && fs.inodes[inum].size <= MaxBytes()
    ensures |c| == fs.inodes[inum].size
    ensures forall p: nat | p < |c| :: Quotient(p, BSIZE) < MAXFILE && c[p] == ByteAt(l, fs, inum, p)
  {
    BlockIndices(fs.inodes[inum].size);
    seq(fs.inodes[inum].size, p requires 0 <= p < fs.inodes[inum].size => ByteAt(l, fs, inum, p))
  }

  lemma BlockIndices(size: nat)
    requires size <= MaxBytes()
    ensures forall p: nat | p < size :: Quotient(p, BSIZE) < MAXFILE
  {
    forall p: nat | p < size ensures Quotient(p, BSIZE) < MAXFILE {
      BlockIndex(p, MAXFILE);
    }
  }
}
