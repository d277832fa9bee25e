/** readi and writei of xv6/fs.c, and filewrite of xv6/file.c, against files as byte sequences. */
module FileIO {
  import opened Blocks
  import opened Common
  import opened FsSpec
  import opened FsLemmas
  import opened FileSystem

  /** The byte j places further on in the same block. */
  lemma SameBlockIndex(off: nat, j: nat)
    requires Remainder(off, BSIZE) + j < BSIZE
    ensures Quotient(off + j, BSIZE) == Quotient(off, BSIZE) && Remainder(off + j, BSIZE) == Remainder(off, BSIZE) + j
  {
    Division(off, BSIZE);
    DivisionUnique(off + j, BSIZE, Quotient(off, BSIZE), Remainder(off, BSIZE) + j);
  }

  // ----- readi -------------------------------------------------------------------------------

  /** Every byte of a file lies in an allocated block. */
  lemma BlockThere(l: Layout, fs: Fs, inum: nat, upto: nat, p: nat)
    requires NoHoles(l, fs, inum, upto) && p < upto
    ensures Quotient(p, BSIZE) < MAXFILE && BlockAddr(l, fs, inum, Quotient(p, BSIZE)) != 0
  {
    BlockIndex(p, MAXFILE);
    Division(p, BSIZE);
  }

  lemma HolesFacts(l: Layout, fs: Fs, owner: map<nat, Slot>, inum: nat)
    requires FsInv(l, fs, owner) && inum < |fs.inodes| && NoHoles(l, fs, inum, fs.inodes[inum].size)
    ensures WfFs(l, fs) && fs.inodes[inum].size <= MaxBytes() && |fs.blocks| == l.size
  {
  }

  lemma SliceByte(l: Layout, fs: Fs, inum: nat, off: nat, j: nat)
    requires WfFs(l, fs) && inum < |fs.inodes| && off + j < fs.inodes[inum].size <= MaxBytes()
    requires Quotient(off, BSIZE) < MAXFILE && Remainder(off, BSIZE) + j < BSIZE
    requires BlockAddr(l, fs, inum, Quotient(off, BSIZE)) < |fs.blocks|
    ensures Content(l, fs, inum)[off + j] == fs.blocks[BlockAddr(l, fs, inum, Quotient(off, BSIZE))][Remainder(off, BSIZE) + j]
  {
    SameBlockIndex(off, j);
    assert Content(l, fs, inum)[off + j] == ByteAt(l, fs, inum, off + j);
  }

  /** Within one block, a stretch of the file is a stretch of the block. */
  lemma BlockSlice(l: Layout, fs: Fs, owner: map<nat, Slot>, inum: nat, off: nat, m: nat)
    requires FsInv(l, fs, owner) && inum < |fs.inodes| && NoHoles(l, fs, inum, fs.inodes[inum].size)
    requires off + m <= fs.inodes[inum].size && Remainder(off, BSIZE) + m <= BSIZE && m > 0
    ensures var bn := Quotient(off, BSIZE);
            && bn < MAXFILE && 0 < BlockAddr(l, fs, inum, bn) < |fs.blocks|
            && Content(l, fs, inum)[off..off+m]
               == fs.blocks[BlockAddr(l, fs, inum, bn)][Remainder(off, BSIZE)..Remainder(off, BSIZE) + m]
  {
    HolesFacts(l, fs, owner, inum);
    hide FsInv, NoHoles, Quotient, Remainder, BlockAddr, Content, MaxBytes, WfLayout, ByteAt;
    var bn, at := Quotient(off, BSIZE), Remainder(off, BSIZE);
    BlockThere(l, fs, inum, fs.inodes[inum].size, off);
    OwnedBlock(l, fs, owner, inum, bn);
    var c, d := Content(l, fs, inum), fs.blocks[BlockAddr(l, fs, inum, bn)];
    var c', d' := c[off..off+m], d[at..at+m];
    forall j: nat | j < m ensures c'[j] == d'[j] {
      SliceByte(l, fs, inum, off, j);
    }
  }

  datatype ReadResult = ReadFailed | ReadDevice | Read(data: seq<byte>)

  /** The body of readi's loop: the bytes of one block. */
  method ReadStep(v: Volume, inum: nat, off: nat, m: nat) returns (bytes: seq<byte>)
    requires v.Valid() && inum < |v.inodes| && NoHoles(v.l, v.Img(), inum, v.inodes[inum].size)
    requires off + m <= v.inodes[inum].size && Remainder(off, BSIZE) + m <= BSIZE && m > 0
    modifies v`blocks, v`inodes, v`logged, v`owner
    ensures v.Same(old(v.Img()), old(v.logged), old(v.owner))
    ensures bytes == Content(v.l, old(v.Img()), inum)[off..off+m]
  {
    ghost var fs := v.Img();
    BlockSlice(v.l, fs, v.owner, inum, off, m);
    hide FsInv, NoHoles, Content, BlockAddr, MapsTo, MapLogs;
    var r := v.Bmap(inum, Quotient(off, BSIZE));
    MappedAt(v.l, fs, inum, Quotient(off, BSIZE), r);
    bytes := v.blocks[r.addr][Remainder(off, BSIZE)..Remainder(off, BSIZE) + m];
  }

  /** The loop of readi, for a range inside the file. */
  method ReadLoop(v: Volume, inum: nat, off0: nat, n: nat) returns (dst: seq<byte>)
    requires v.Valid() && inum < |v.inodes| && NoHoles(v.l, v.Img(), inum, v.inodes[inum].size)
    requires off0 + n <= v.inodes[inum].size
    modifies v`blocks, v`inodes, v`logged, v`owner
    ensures v.Same(old(v.Img()), old(v.logged), old(v.owner))
    ensures dst == Content(v.l, old(v.Img()), inum)[off0..off0+n]
  {
    ghost var fs, logged, owner := v.Img(), v.logged, v.owner;
    ghost var c := Content(v.l, fs, inum);
    var tot, off := 0, off0;
    dst := [];
    hide FsInv, NoHoles, Content;
    while tot < n
      invariant 0 <= tot <= n && off == off0 + tot
      invariant v.Same(fs, logged, owner)
      invariant dst == c[off0..off]
    {
      var m := Min(n - tot, BSIZE - Remainder(off, BSIZE));
      var bytes := ReadStep(v, inum, off, m);
      assert c[off0..off] + c[off..off+m] == c[off0..off+m];
      dst := dst + bytes;
      tot, off := tot + m, off + m;
    }
  }

  lemma MappedAt(l: Layout, fs: Fs, inum: nat, bn: nat, r: MapResult)
    requires r.Mapped? && MapsTo(l, fs, fs, inum, bn, r.addr)
    ensures BlockAddr(l, fs, inum, bn) == r.addr < |fs.blocks|
  {
  }

  /** readi.  It changes nothing: no block of the range is missing, so bmap never allocates. */
  method ReadI(v: Volume, inum: nat, off: nat, n: nat) returns (r: ReadResult)
    requires v.Valid() && inum < |v.inodes| && NoHoles(v.l, v.Img(), inum, v.inodes[inum].size)
    requires off < UINT_LIMIT && n < UINT_LIMIT
    modifies v`blocks, v`inodes, v`logged, v`owner
    ensures v.Same(old(v.Img()), old(v.logged), old(v.owner))
    ensures r.ReadDevice? <==> v.inodes[inum].device
    ensures r.ReadFailed? <==> !v.inodes[inum].device && (off > v.inodes[inum].size || off + n >= UINT_LIMIT)
    ensures r.Read? ==> r.data == Content(v.l, v.Img(), inum)[off..Min(off + n, v.inodes[inum].size)]
  {
    if v.inodes[inum].device {
      return ReadDevice;
    }
    if off > v.inodes[inum].size || (off + n) % UINT_LIMIT < off {
      return ReadFailed;
    }
    var n1 := if off + n > v.inodes[inum].size then v.inodes[inum].size - off else n;
    hide FsInv, Content;
    var data := ReadLoop(v, inum, off, n1);
    return Read(data);
  }

  // ----- writei ------------------------------------------------------------------------------

  function Max(a: nat, b: nat): nat
  {
    if a < b then b else a
  }

  /** Block b with the bytes d stored from at on. */
  function Patch(b: Block, at: nat, d: seq<byte>): (r: Block)
    requires at + |d| <= BSIZE
    ensures forall j | 0 <= j < BSIZE :: r[j] == if at <= j < at + |d| then d[j-at] else b[j]
  {
    b[..at] + d + b[at+|d|..]
  }

  ghost predicate SameOthers(l: Layout, fs: Fs, fs': Fs, inum: nat)
  {
    && SameShape(l, fs, fs')
    && forall i: nat, k: nat | i < |fs.inodes| && i != inum && k < MAXFILE :: SameBlock(l, fs, fs', i, k)
  }

  /** Byte p of file inum, after the first tot bytes of src have been stored from off on. */
  ghost predicate ByteIs(l: Layout, fs0: Fs, fs: Fs, inum: nat, off: nat, src: seq<byte>, tot: nat, p: nat)
    requires WfFs(l, fs0) && WfFs(l, fs) && inum < |fs0.inodes| && inum < |fs.inodes| && tot <= |src|
  {
    && Quotient(p, BSIZE) < MAXFILE
    && ByteAt(l, fs, inum, p) == if off <= p < off + tot then src[p-off] else ByteAt(l, fs0, inum, p)
  }

  /** writei under way: tot bytes of src are stored from off on, and nothing else has changed. */
  ghost predicate Progress(l: Layout, fs0: Fs, fs: Fs, inum: nat, off: nat, src: seq<byte>, tot: nat)
  {
    && SameOthers(l, fs0, fs, inum) && inum < |fs0.inodes| && tot <= |src|
    && off <= fs0.inodes[inum].size
    && fs.inodes == fs0.inodes[inum := fs.inodes[inum]]
    && (off + tot <= fs0.inodes[inum].size ==> fs.inodes == fs0.inodes)
    && var end := Max(fs0.inodes[inum].size, off + tot);
    && NoHoles(l, fs, inum, end)
    && forall p: nat | p < end :: ByteIs(l, fs0, fs, inum, off, src, tot, p)
  }

  lemma ProgressStart(l: Layout, fs: Fs, inum: nat, off: nat, src: seq<byte>)
    requires WfFs(l, fs) && inum < |fs.inodes| && off <= fs.inodes[inum].size && NoHoles(l, fs, inum, fs.inodes[inum].size)
    ensures Progress(l, fs, fs, inum, off, src, 0)
  {
    BlockIndices(fs.inodes[inum].size);
  }

  /** A byte of another block reads the same. */
  lemma OtherByte(l: Layout, fs: Fs, fs': Fs, inum: nat, bn: nat, p: nat)
    requires SameBut(l, fs, fs', inum, bn) && inum < |fs.inodes| && Quotient(p, BSIZE) < MAXFILE && Quotient(p, BSIZE) != bn
    ensures ByteAt(l, fs', inum, p) == ByteAt(l, fs, inum, p) || BlockAddr(l, fs, inum, Quotient(p, BSIZE)) == 0
  {
    assert SameBlock(l, fs, fs', inum, Quotient(p, BSIZE));
  }

  /** One round of writei's loop: bmap takes fs to fs1, and storing the patched block takes it to fs2. */
  ghost predicate Round(l: Layout, fs: Fs, fs1: Fs, fs2: Fs, inum: nat, off: nat, d: seq<byte>)
  {
    var bn, at := Quotient(off, BSIZE), Remainder(off, BSIZE);
    && bn < MAXFILE && inum < |fs.inodes| && WfFs(l, fs1) && inum < |fs1.inodes| && at + |d| <= BSIZE
    && var a := BlockAddr(l, fs1, inum, bn);
    && MapsTo(l, fs, fs1, inum, bn, a)
    && SameBut(l, fs1, fs2, inum, bn) && BlockAddr(l, fs2, inum, bn) == a && fs2.inodes == fs1.inodes
    && fs2.blocks[a] == Patch(fs1.blocks[a], at, d)
  }

  lemma SameButTransitive(l: Layout, fs: Fs, fs1: Fs, fs2: Fs, inum: nat, bn: nat)
    requires SameBut(l, fs, fs1, inum, bn) && SameBut(l, fs1, fs2, inum, bn)
    ensures SameBut(l, fs, fs2, inum, bn)
  {
    forall i: nat, k: nat | i < |fs.inodes| && k < MAXFILE && !(i == inum && k == bn) ensures SameBlock(l, fs, fs2, i, k) {
      assert SameBlock(l, fs, fs1, i, k) && SameBlock(l, fs1, fs2, i, k);
    }
  }

  lemma RoundSame(l: Layout, fs: Fs, fs1: Fs, fs2: Fs, inum: nat, off: nat, d: seq<byte>)
    requires Round(l, fs, fs1, fs2, inum, off, d)
    ensures SameBut(l, fs, fs2, inum, Quotient(off, BSIZE))
  {
    SameButTransitive(l, fs, fs1, fs2, inum, Quotient(off, BSIZE));
  }

  /** The bytes of the block the round wrote. */
  lemma RoundByte(l: Layout, fs: Fs, fs1: Fs, fs2: Fs, inum: nat, off: nat, d: seq<byte>, p: nat)
    requires Round(l, fs, fs1, fs2, inum, off, d) && Quotient(p, BSIZE) == Quotient(off, BSIZE)
    ensures off <= p < off + |d| ==> ByteAt(l, fs2, inum, p) == d[p-off]
    ensures !(off <= p < off + |d|) && BlockAddr(l, fs, inum, Quotient(off, BSIZE)) != 0 ==>
              ByteAt(l, fs2, inum, p) == ByteAt(l, fs, inum, p)
  {
    Division(p, BSIZE);
    Division(off, BSIZE);
  }

  /** A block other than the one the round writes begins before the round does. */
  lemma BeforeRound(off: nat, n: nat, k: nat, end: nat)
    requires Remainder(off, BSIZE) + n <= BSIZE && k != Quotient(off, BSIZE) && off <= end && BlockStart(k) < Max(end, off + n)
    ensures BlockStart(k) < end
  {
    var bn := Quotient(off, BSIZE);
    Division(off, BSIZE);
    if k > bn {
      MulMonotone(bn + 1, k, BSIZE);
    } else {
      MulMonotone(k + 1, bn, BSIZE);
    }
  }

  lemma RoundNoHoles(l: Layout, fs: Fs, fs1: Fs, fs2: Fs, inum: nat, off: nat, d: seq<byte>, end: nat)
    requires Round(l, fs, fs1, fs2, inum, off, d) && NoHoles(l, fs, inum, end) && off <= end
    requires off + |d| <= MaxBytes()
    ensures NoHoles(l, fs2, inum, Max(end, off + |d|))
  {
    var bn := Quotient(off, BSIZE);
    RoundSame(l, fs, fs1, fs2, inum, off, d);
    forall k: nat | k < MAXFILE && BlockStart(k) < Max(end, off + |d|) ensures BlockAddr(l, fs2, inum, k) != 0 {
      if k != bn {
        assert SameBlock(l, fs, fs2, inum, k);
        BeforeRound(off, |d|, k, end);
      }
    }
  }

  lemma RoundBytes(l: Layout, fs0: Fs, fs: Fs, fs1: Fs, fs2: Fs, inum: nat, off0: nat, src: seq<byte>, tot: nat, m: nat, p: nat)
    requires Progress(l, fs0, fs, inum, off0, src, tot) && m > 0 && tot + m <= |src|
    requires Round(l, fs, fs1, fs2, inum, off0 + tot, src[tot..tot+m]) && off0 + tot + m <= MaxBytes()
    requires p < Max(fs0.inodes[inum].size, off0 + tot + m)
    ensures WfFs(l, fs2) && inum < |fs2.inodes| && ByteIs(l, fs0, fs2, inum, off0, src, tot + m, p)
  {
    var off, d, end := off0 + tot, src[tot..tot+m], Max(fs0.inodes[inum].size, off0 + tot);
    RoundSame(l, fs, fs1, fs2, inum, off, d);
    BlockIndex(p, MAXFILE);
    if p < end {
      BlockThere(l, fs, inum, end, p);
      assert ByteIs(l, fs0, fs, inum, off0, src, tot, p);
    }
    if Quotient(p, BSIZE) == Quotient(off, BSIZE) {
      RoundByte(l, fs, fs1, fs2, inum, off, d, p);
    } else {
      OtherByte(l, fs, fs2, inum, Quotient(off, BSIZE), p);
      if off <= p < off + m {
        SameBlockIndex(off, p - off);
      }
    }
  }

  lemma SameOthersThen(l: Layout, fs0: Fs, fs: Fs, fs2: Fs, inum: nat, bn: nat)
    requires SameOthers(l, fs0, fs, inum) && SameBut(l, fs, fs2, inum, bn)
    ensures SameOthers(l, fs0, fs2, inum)
  {
    forall i: nat, k: nat | i < |fs0.inodes| && i != inum && k < MAXFILE ensures SameBlock(l, fs0, fs2, i, k) {
      assert SameBlock(l, fs0, fs, i, k) && SameBlock(l, fs, fs2, i, k);
    }
  }

  lemma ProgressStep(l: Layout, fs0: Fs, fs: Fs, fs1: Fs, fs2: Fs, inum: nat, off0: nat, src: seq<byte>, tot: nat, m: nat)
    requires Progress(l, fs0, fs, inum, off0, src, tot) && m > 0 && tot + m <= |src|
    requires Round(l, fs, fs1, fs2, inum, off0 + tot, src[tot..tot+m]) && off0 + tot + m <= MaxBytes()
    ensures Progress(l, fs0, fs2, inum, off0, src, tot + m)
  {
    var off, d, end := off0 + tot, src[tot..tot+m], Max(fs0.inodes[inum].size, off0 + tot);
    RoundSame(l, fs, fs1, fs2, inum, off, d);
    SameOthersThen(l, fs0, fs, fs2, inum, Quotient(off, BSIZE));
    RoundNoHoles(l, fs, fs1, fs2, inum, off, d, end);
    if off + m <= fs0.inodes[inum].size {
      BlockThere(l, fs, inum, end, off);
    }
    hide Round, NoHoles, ByteIs, SameOthers;
    var tot' := tot + m;
    forall p: nat | p < Max(fs0.inodes[inum].size, off0 + tot') ensures ByteIs(l, fs0, fs2, inum, off0, src, tot', p) {
      RoundBytes(l, fs0, fs, fs1, fs2, inum, off0, src, tot, m, p);
    }
  }

  // ----- What writei logs --------------------------------------------------------------------

  /**
   * The blocks a round adds to the transaction: one if its block was there, else two (bitmap
   * and data) unless the indirect block is logged for the first time, which makes at most four.
   */
  ghost predicate RoundCost(l: Layout, fs: Fs, fs': Fs, inum: nat, bn: nat, logged: set<nat>, logged': set<nat>)
  {
    && WfFs(l, fs) && WfFs(l, fs') && inum < |fs.inodes| && inum < |fs'.inodes| && bn < MAXFILE
    && logged <= logged'
    && var ind, ind' := fs.inodes[inum].addrs[NDIRECT], fs'.inodes[inum].addrs[NDIRECT];
    && (ind != 0 ==> ind' == ind)
    && (BlockAddr(l, fs, inum, bn) != 0 ==> |logged'| <= |logged| + 1)
    && (|logged'| <= |logged| + 2
        || (!(ind != 0 && ind in logged) && ind' != 0 && ind' in logged' && |logged'| <= |logged| + 4))
  }

  lemma AddAtMost(a: set<nat>, b: set<nat>)
    ensures |a + b| <= |a| + |b|
  {
    assert |a + b| == |a| + |b - a|;
    SubsetSize(b - a, b);
  }

  lemma MapCost(l: Layout, fs: Fs, fs1: Fs, fs2: Fs, inum: nat, bn: nat, logged: set<nat>, mid: set<nat>, addr: nat)
    requires MapLogs(l, fs, fs1, inum, bn, logged, mid) && addr == BlockAddr(l, fs1, inum, bn)
    requires WfFs(l, fs2) && fs2.inodes == fs1.inodes
    requires bn >= NDIRECT && BlockAddr(l, fs, inum, bn) == 0 ==> fs1.inodes[inum].addrs[NDIRECT] != 0
    ensures RoundCost(l, fs, fs2, inum, bn, logged, mid + {addr})
  {
    var ind' := fs1.inodes[inum].addrs[NDIRECT];
    if BlockAddr(l, fs, inum, bn) != 0 {
      AddAtMost(logged, {addr});
    } else if bn < NDIRECT {
      assert mid + {addr} == logged + {BBlock(l, addr), addr};
      AddAtMost(logged, {BBlock(l, addr), addr});
    } else if fs.inodes[inum].addrs[NDIRECT] != 0 && ind' in logged {
      assert mid + {addr} == logged + {BBlock(l, addr), addr};
      AddAtMost(logged, {BBlock(l, addr), addr});
    } else {
      var more := {BBlock(l, addr), addr, BBlock(l, ind'), ind'};
      SubsetSize(mid + {addr}, logged + more);
      AddAtMost(logged, more);
    }
  }

  lemma IndirectUsed(l: Layout, fs: Fs, inum: nat, bn: nat)
    requires WfFs(l, fs) && inum < |fs.inodes| && NDIRECT <= bn < MAXFILE && BlockAddr(l, fs, inum, bn) != 0
    ensures fs.inodes[inum].addrs[NDIRECT] != 0
  {
  }

  lemma InvWf(l: Layout, fs: Fs, owner: map<nat, Slot>)
    requires FsInv(l, fs, owner)
    ensures WfFs(l, fs)
  {
  }

  // ----- The methods ---------------------------------------------------------------------------

  /** The body of writei's loop.  Not ok is balloc's panic. */
  method WriteRound(v: Volume, inum: nat, off: nat, d: seq<byte>) returns (ok: bool, ghost fs1: Fs)
    requires v.Valid() && inum < |v.inodes| && Quotient(off, BSIZE) < MAXFILE && Remainder(off, BSIZE) + |d| <= BSIZE
    modifies v`blocks, v`inodes, v`logged, v`owner
    ensures AllLogged(old(v.blocks), v.blocks, v.logged) && old(v.logged) <= v.logged
    ensures !ok ==> Full(v.l, v.blocks)
    ensures ok ==> v.Valid() && Round(v.l, old(v.Img()), fs1, v.Img(), inum, off, d)
    ensures ok ==> RoundCost(v.l, old(v.Img()), v.Img(), inum, Quotient(off, BSIZE), old(v.logged), v.logged)
  {
    hide Owned, Marked, SameBut, MapLogs, RoundCost, Patch, Quotient, Remainder;
    ghost var fs, logged := v.Img(), v.logged;
    InvWf(v.l, fs, v.owner);
    var bn, at := Quotient(off, BSIZE), Remainder(off, BSIZE);
    var r := v.Bmap(inum, bn);
    fs1 := v.Img();
    if !r.Mapped? {
      return false, fs1;
    }
    InvWf(v.l, fs1, v.owner);
    DataWrite(v.l, fs1, v.owner, inum, bn, Patch(v.blocks[r.addr], at, d));
    if bn >= NDIRECT {
      IndirectUsed(v.l, fs1, inum, bn);
    }
    ghost var fs2 := Fs(v.blocks[r.addr := Patch(v.blocks[r.addr], at, d)], v.inodes);
    MapCost(v.l, fs, fs1, fs2, inum, bn, logged, v.logged, r.addr);
    v.blocks := v.blocks[r.addr := Patch(v.blocks[r.addr], at, d)];
    v.logged := v.logged + {r.addr};
    ok := true;
  }

  /** Where writei is after a number of rounds. */
  predicate AfterRounds(off0: nat, n: nat, tot: nat, rounds: nat)
  {
    var q := Quotient(off0, BSIZE);
    && tot <= n && (rounds == 0 ==> tot == 0)
    && (rounds > 0 ==> (q + rounds - 1) * BSIZE < off0 + tot <= (q + rounds) * BSIZE)
    && (rounds > 0 && tot < n ==> off0 + tot == (q + rounds) * BSIZE)
  }

  lemma NextRound(off0: nat, n: nat, tot: nat, rounds: nat)
    requires AfterRounds(off0, n, tot, rounds) && tot < n
    ensures var off := off0 + tot; var m := Min(n - tot, BSIZE - Remainder(off, BSIZE));
            && m > 0 && AfterRounds(off0, n, tot + m, rounds + 1)
            && (rounds > 0 ==> Remainder(off, BSIZE) == 0)
  {
    var q, off := Quotient(off0, BSIZE), off0 + tot;
    Division(off0, BSIZE);
    if rounds > 0 {
      DivisionUnique(off, BSIZE, q + rounds, 0);
    }
    Division(off, BSIZE);
    assert (q + rounds + 1) * BSIZE == (q + rounds) * BSIZE + BSIZE;
  }

  /** A write of at most k blocks' worth of bytes takes k rounds, or k + 1 if it starts inside a block. */
  lemma RoundBound(off0: nat, n: nat, rounds: nat, k: nat)
    requires AfterRounds(off0, n, n, rounds) && n <= k * BSIZE
    ensures rounds <= if Remainder(off0, BSIZE) == 0 then k else k + 1
  {
    Division(off0, BSIZE);
    var q, r := Quotient(off0, BSIZE), Remainder(off0, BSIZE);
    if rounds > k {
      assert (q + rounds - 1) * BSIZE == q * BSIZE + (rounds - 1) * BSIZE;
      MulMonotone(k, rounds - 1, BSIZE);
      if rounds > k + 1 {
        MulMonotone(k + 1, rounds - 1, BSIZE);
      }
    }
  }

  /** The blocks logged after a number of rounds, and two more once the indirect block is among them. */
  ghost predicate Cost(l: Layout, fs: Fs, inum: nat, before: nat, logged: set<nat>, rounds: nat, aligned: bool)
  {
    && WfFs(l, fs) && inum < |fs.inodes|
    && var ind := fs.inodes[inum].addrs[NDIRECT];
    && var spent := |logged| + if rounds > 0 && !aligned then 1 else 0;
    && spent <= before + 2 * rounds + 2
    && (spent <= before + 2 * rounds || (ind != 0 && ind in logged))
  }

  lemma CostStep(l: Layout, fs: Fs, fs': Fs, inum: nat, bn: nat, before: nat, logged: set<nat>, logged': set<nat>,
                 rounds: nat, aligned: bool)
    requires Cost(l, fs, inum, before, logged, rounds, aligned) && RoundCost(l, fs, fs', inum, bn, logged, logged')
    requires rounds == 0 && !aligned ==> BlockAddr(l, fs, inum, bn) != 0
    ensures Cost(l, fs', inum, before, logged', rounds + 1, aligned)
  {
  }

  /** The state of writei's loop. */
  ghost predicate Writing(v: Volume, fs0: Fs, before: nat, inum: nat, src: seq<byte>, off0: nat, tot: nat, rounds: nat)
    reads v
  {
    && v.Valid() && Progress(v.l, fs0, v.Img(), inum, off0, src, tot)
    && AfterRounds(off0, |src|, tot, rounds)
    && Cost(v.l, v.Img(), inum, before, v.logged, rounds, Remainder(off0, BSIZE) == 0)
  }

  /** A write that starts inside a block starts in one that exists. */
  lemma FirstBlockThere(l: Layout, fs0: Fs, fs: Fs, inum: nat, off0: nat, src: seq<byte>)
    requires Progress(l, fs0, fs, inum, off0, src, 0) && Remainder(off0, BSIZE) != 0
    ensures Quotient(off0, BSIZE) < MAXFILE && BlockAddr(l, fs, inum, Quotient(off0, BSIZE)) != 0
  {
    Division(off0, BSIZE);
    var p := Quotient(off0, BSIZE) * BSIZE;
    DivisionUnique(p, BSIZE, Quotient(off0, BSIZE), 0);
    BlockThere(l, fs, inum, Max(fs0.inodes[inum].size, off0), p);
  }

  /** The body of writei's loop, storing m bytes. */
  method WriteStep(v: Volume, ghost fs0: Fs, ghost before: nat, inum: nat, src: seq<byte>, ghost off0: nat, off: nat,
                   tot: nat, m: nat, ghost rounds: nat) returns (ok: bool)
    requires Writing(v, fs0, before, inum, src, off0, tot, rounds) && tot < |src| && off == off0 + tot
    requires off0 + |src| <= MaxBytes() && m == Min(|src| - tot, BSIZE - Remainder(off, BSIZE))
    modifies v`blocks, v`inodes, v`logged, v`owner
    ensures AllLogged(old(v.blocks), v.blocks, v.logged) && old(v.logged) <= v.logged
    ensures !ok ==> Full(v.l, v.blocks)
    ensures ok ==> m > 0 && tot + m <= |src| && Writing(v, fs0, before, inum, src, off0, tot + m, rounds + 1)
  {
    hide FsInv, Progress, AfterRounds, Cost, RoundCost, Round, BlockAddr, Quotient, Remainder, Min;
    ghost var fs, logged, l := v.Img(), v.logged, v.l;
    StepReady(l, fs0, fs, inum, src, off0, tot, rounds, m);
    ghost var fs1;
    ok, fs1 := WriteRound(v, inum, off, src[tot..tot+m]);
    if ok {
      ProgressStep(l, fs0, fs, fs1, v.Img(), inum, off0, src, tot, m);
      CostStep(l, fs, v.Img(), inum, Quotient(off, BSIZE), before, logged, v.logged, rounds, Remainder(off0, BSIZE) == 0);
    }
  }

  lemma StepReady(l: Layout, fs0: Fs, fs: Fs, inum: nat, src: seq<byte>, off0: nat, tot: nat, rounds: nat, m: nat)
    requires Progress(l, fs0, fs, inum, off0, src, tot) && AfterRounds(off0, |src|, tot, rounds) && tot < |src|
    requires off0 + |src| <= MaxBytes() && m == Min(|src| - tot, BSIZE - Remainder(off0 + tot, BSIZE))
    ensures inum < |fs.inodes| && WfFs(l, fs) && Quotient(off0 + tot, BSIZE) < MAXFILE
    ensures m > 0 && tot + m <= |src| && Remainder(off0 + tot, BSIZE) + |src[tot..tot+m]| <= BSIZE
    ensures AfterRounds(off0, |src|, tot + m, rounds + 1)
    ensures rounds == 0 && Remainder(off0, BSIZE) != 0 ==> BlockAddr(l, fs, inum, Quotient(off0 + tot, BSIZE)) != 0
  {
    NextRound(off0, |src|, tot, rounds);
    BlockIndex(off0 + tot, MAXFILE);
    if rounds == 0 && Remainder(off0, BSIZE) != 0 {
      FirstBlockThere(l, fs0, fs, inum, off0, src);
    }
  }

  /** The loop of writei.  Not ok is balloc's panic. */
  method WriteLoop(v: Volume, inum: nat, src: seq<byte>, off0: nat) returns (ok: bool, ghost rounds: nat)
    requires v.Valid() && inum < |v.inodes| && NoHoles(v.l, v.Img(), inum, v.inodes[inum].size)
    requires off0 <= v.inodes[inum].size && off0 + |src| <= MaxBytes()
    modifies v`blocks, v`inodes, v`logged, v`owner
    ensures AllLogged(old(v.blocks), v.blocks, v.logged) && old(v.logged) <= v.logged
    ensures !ok ==> Full(v.l, v.blocks)
    ensures ok ==> Writing(v, old(v.Img()), |old(v.logged)|, inum, src, off0, |src|, rounds)
  {
    ghost var fs0, before := v.Img(), |v.logged|;
    var n, tot, off := |src|, 0, off0;
    rounds := 0;
    ProgressStart(v.l, fs0, inum, off0, src);
    assert Writing(v, fs0, before, inum, src, off0, tot, rounds);
    hide Writing;
    while tot < n
      invariant 0 <= tot <= n && off == off0 + tot
      invariant Writing(v, fs0, before, inum, src, off0, tot, rounds)
      invariant AllLogged(old(v.blocks), v.blocks, v.logged) && old(v.logged) <= v.logged
    {
      var m := Min(n - tot, BSIZE - Remainder(off, BSIZE));
      ok := WriteStep(v, fs0, before, inum, src, off0, off, tot, m, rounds);
      if !ok {
        return;
      }
      tot, off, rounds := tot + m, off + m, rounds + 1;
    }
    ok := true;
  }

  // ----- writei as an operation on byte sequences ------------------------------------------------

  /** The bytes c with d stored from off on, longer if d reaches past the end. */
  function Splice(c: seq<byte>, off: nat, d: seq<byte>): (r: seq<byte>)
    requires off <= |c|
    ensures |r| == Max(|c|, off + |d|)
  {
    c[..off] + d + if off + |d| < |c| then c[off+|d|..] else []
  }

  /** File inum had src stored at off; every other file is as it was. */
  ghost predicate Stored(l: Layout, fs0: Fs, fs: Fs, inum: nat, off: nat, src: seq<byte>)
  {
    && AllFiles(l, fs0) && AllFiles(l, fs) && |fs.inodes| == |fs0.inodes| && inum < |fs0.inodes|
    && off <= fs0.inodes[inum].size
    && (forall i: nat | i < |fs.inodes| :: fs.inodes[i].device == fs0.inodes[i].device)
    && Content(l, fs, inum) == Splice(Content(l, fs0, inum), off, src)
    && forall i: nat | i < |fs.inodes| && i != inum :: Content(l, fs, i) == Content(l, fs0, i)
  }

  function SetSize(fs: Fs, inum: nat, size: nat): Fs
    requires inum < |fs.inodes|
  {
    var ip := fs.inodes[inum];
    Fs(fs.blocks, fs.inodes[inum := Inode(ip.device, size, ip.addrs)])
  }

  /** The size of a file has no bearing on its block map. */
  lemma SizeOnly(l: Layout, fs: Fs, inum: nat, size: nat)
    requires WfFs(l, fs) && inum < |fs.inodes|
    ensures WfFs(l, SetSize(fs, inum, size))
    ensures forall s: Slot | ValidSlot(fs, s) :: AddrOf(l, SetSize(fs, inum, size), s) == AddrOf(l, fs, s)
  {
  }

  lemma SizeOnlyInv(l: Layout, fs: Fs, owner: map<nat, Slot>, inum: nat, size: nat)
    requires FsInv(l, fs, owner) && inum < |fs.inodes|
    ensures FsInv(l, SetSize(fs, inum, size), owner)
  {
    SizeOnly(l, fs, inum, size);
  }

  lemma ContentByte(l: Layout, fs: Fs, i: nat, p: nat)
    requires WfFs(l, fs) && i < |fs.inodes| && p < fs.inodes[i].size <= MaxBytes()
    ensures Quotient(p, BSIZE) < MAXFILE && Content(l, fs, i)[p] == ByteAt(l, fs, i, p)
  {
    hide MaxBytes, Quotient, Remainder, ByteAt, WfLayout;
    assert p < |Content(l, fs, i)|;
  }

  lemma SameByte(l: Layout, fs: Fs, fs': Fs, i: nat, p: nat)
    requires WfFs(l, fs) && WfFs(l, fs') && i < |fs.inodes| && i < |fs'.inodes| && NoHoles(l, fs, i, fs.inodes[i].size)
    requires p < fs.inodes[i].size && forall k: nat | k < MAXFILE :: SameBlock(l, fs, fs', i, k)
    ensures Quotient(p, BSIZE) < MAXFILE && ByteAt(l, fs', i, p) == ByteAt(l, fs, i, p)
  {
    BlockThere(l, fs, i, fs.inodes[i].size, p);
    assert SameBlock(l, fs, fs', i, Quotient(p, BSIZE));
  }

  /** The content of a file depends only on its size and its blocks. */
  lemma ContentSame(l: Layout, fs: Fs, fs': Fs, i: nat)
    requires WfFs(l, fs) && WfFs(l, fs') && i < |fs.inodes| && i < |fs'.inodes|
    requires fs'.inodes[i].size == fs.inodes[i].size && NoHoles(l, fs, i, fs.inodes[i].size)
    requires forall k: nat | k < MAXFILE :: SameBlock(l, fs, fs', i, k)
    ensures NoHoles(l, fs', i, fs'.inodes[i].size) && Content(l, fs', i) == Content(l, fs, i)
  {
    forall bn: nat | bn < MAXFILE && BlockStart(bn) < fs.inodes[i].size ensures BlockAddr(l, fs', i, bn) != 0 {
      assert SameBlock(l, fs, fs', i, bn);
    }
    var c, c' := Content(l, fs, i), Content(l, fs', i);
    hide Content, SameBlock, ByteAt, NoHoles;
    forall p: nat | p < |c| ensures c'[p] == c[p] {
      SameByte(l, fs, fs', i, p);
      ContentByte(l, fs, i, p);
      ContentByte(l, fs', i, p);
    }
  }

  lemma OtherFile(l: Layout, fs0: Fs, fs: Fs, inum: nat, size: nat, i: nat)
    requires AllFiles(l, fs0) && SameOthers(l, fs0, fs, inum) && inum < |fs.inodes| && i < |fs.inodes| && i != inum
    ensures var fs' := SetSize(fs, inum, size);
            WfFs(l, fs') && NoHoles(l, fs', i, fs'.inodes[i].size) && Content(l, fs', i) == Content(l, fs0, i)
  {
    var fs' := SetSize(fs, inum, size);
    SizeOnly(l, fs, inum, size);
    assert NoHoles(l, fs0, i, fs0.inodes[i].size);
    forall k: nat | k < MAXFILE ensures SameBlock(l, fs0, fs', i, k) {
      assert SameBlock(l, fs0, fs, i, k);
    }
    ContentSame(l, fs0, fs', i);
  }

  lemma WrittenByte(l: Layout, fs0: Fs, fs: Fs, inum: nat, off: nat, src: seq<byte>, p: nat)
    requires Progress(l, fs0, fs, inum, off, src, |src|) && p < Max(fs0.inodes[inum].size, off + |src|)
    requires fs0.inodes[inum].size <= MaxBytes()
    ensures var size := Max(fs0.inodes[inum].size, off + |src|); var fs' := SetSize(fs, inum, size);
            && WfFs(l, fs0) && WfFs(l, fs') && size <= MaxBytes()
            && Content(l, fs', inum)[p] == Splice(Content(l, fs0, inum), off, src)[p]
  {
    var size := Max(fs0.inodes[inum].size, off + |src|);
    SizeOnly(l, fs, inum, size);
    assert ByteIs(l, fs0, fs, inum, off, src, |src|, p);
    ContentByte(l, SetSize(fs, inum, size), inum, p);
    if p < fs0.inodes[inum].size {
      ContentByte(l, fs0, inum, p);
    }
    assert ByteAt(l, SetSize(fs, inum, size), inum, p) == ByteAt(l, fs, inum, p);
    hide Content, ByteAt, Progress;
  }

  lemma NoHolesSize(l: Layout, fs: Fs, inum: nat, size: nat)
    requires NoHoles(l, fs, inum, size)
    ensures WfFs(l, SetSize(fs, inum, size)) && NoHoles(l, SetSize(fs, inum, size), inum, size) && size <= MaxBytes()
  {
    SizeOnly(l, fs, inum, size);
    var fs' := SetSize(fs, inum, size);
    hide AddrOf;
    forall bn: nat | bn < MAXFILE && BlockStart(bn) < size ensures BlockAddr(l, fs', inum, bn) != 0 {
      assert ValidSlot(fs, SlotFor(inum, bn));
      assert BlockAddr(l, fs, inum, bn) != 0;
    }
  }

  lemma WrittenFile(l: Layout, fs0: Fs, fs: Fs, inum: nat, off: nat, src: seq<byte>)
    requires AllFiles(l, fs0) && Progress(l, fs0, fs, inum, off, src, |src|)
    ensures var size := Max(fs0.inodes[inum].size, off + |src|); var fs' := SetSize(fs, inum, size);
            && WfFs(l, fs') && NoHoles(l, fs', inum, size)
            && Content(l, fs', inum) == Splice(Content(l, fs0, inum), off, src)
  {
    var size := Max(fs0.inodes[inum].size, off + |src|);
    var fs' := SetSize(fs, inum, size);
    assert NoHoles(l, fs0, inum, fs0.inodes[inum].size);
    NoHolesSize(l, fs, inum, size);
    hide Progress, AllFiles, NoHoles, Content, Splice, AddrOf;
    var c, c' := Content(l, fs0, inum), Content(l, fs', inum);
    var e := Splice(c, off, src);
    forall p: nat | p < size ensures c'[p] == e[p] {
      WrittenByte(l, fs0, fs, inum, off, src, p);
    }
  }

  lemma WriteDone(l: Layout, fs0: Fs, fs: Fs, owner: map<nat, Slot>, inum: nat, off: nat, src: seq<byte>)
    requires AllFiles(l, fs0) && Progress(l, fs0, fs, inum, off, src, |src|) && FsInv(l, fs, owner)
    ensures var fs' := SetSize(fs, inum, Max(fs0.inodes[inum].size, off + |src|));
            FsInv(l, fs', owner) && Stored(l, fs0, fs', inum, off, src)
  {
    var size := Max(fs0.inodes[inum].size, off + |src|);
    var fs' := SetSize(fs, inum, size);
    SizeOnlyInv(l, fs, owner, inum, size);
    WrittenFile(l, fs0, fs, inum, off, src);
    assert SameOthers(l, fs0, fs, inum);
    hide Progress, FsInv, SameOthers, NoHoles, Content, Splice;
    forall i: nat | i < |fs'.inodes| && i != inum
      ensures NoHoles(l, fs', i, fs'.inodes[i].size) && Content(l, fs', i) == Content(l, fs0, i)
    {
      OtherFile(l, fs0, fs, inum, size, i);
    }
  }

  datatype WriteResult = WriteFailed | WriteDevice | WritePanic | Wrote(n: nat)

  /** The file system between system calls: consistent, without holes, and stored as it is cached. */
  ghost predicate Settled(v: Volume)
    reads v
  {
    v.Valid() && AllFiles(v.l, v.Img()) && v.dinodes == v.inodes
  }

  /** Why writei returns -1. */
  predicate Refuses(ip: Inode, off: nat, n: nat)
  {
    off > ip.size || off + n >= UINT_LIMIT || off + n > MaxBytes()
  }

  /** At most this many more blocks are logged by writing k blocks' worth of bytes. */
  lemma CostBound(l: Layout, fs: Fs, inum: nat, before: nat, logged: set<nat>, rounds: nat, off: nat, n: nat, k: nat)
    requires AfterRounds(off, n, n, rounds) && n <= k * BSIZE
    requires Cost(l, fs, inum, before, logged, rounds, Remainder(off, BSIZE) == 0)
    ensures |logged| <= before + 2 * k + 3
  {
    RoundBound(off, n, rounds, k);
  }

  /**
   * writei.  It stores src at off and nothing else, whichever blocks that takes; at most 2 * k + 4
   * blocks join the transaction when src fits in k blocks.
   */
  method WriteI(v: Volume, inum: nat, src: seq<byte>, off: nat, ghost k: nat) returns (r: WriteResult)
    requires Settled(v) && inum < |v.inodes| && off < UINT_LIMIT && |src| < UINT_LIMIT && |src| <= k * BSIZE
    modifies v`blocks, v`inodes, v`dinodes, v`logged, v`owner
    ensures AllLogged(old(v.blocks), v.blocks, v.logged) && old(v.logged) <= v.logged
    ensures !r.WritePanic? ==> InodesLogged(v.l, v.ipb, old(v.dinodes), v.dinodes, v.logged)
    ensures r.WriteDevice? <==> old(v.inodes[inum]).device
    ensures r.WriteFailed? <==> !old(v.inodes[inum]).device && Refuses(old(v.inodes[inum]), off, |src|)
    ensures r.WriteDevice? || r.WriteFailed? ==> Settled(v) && v.Same(old(v.Img()), old(v.logged), old(v.owner))
    ensures r.WritePanic? ==> Full(v.l, v.blocks)
    ensures r.Wrote? ==> r.n == |src| && Settled(v) && Stored(v.l, old(v.Img()), v.Img(), inum, off, src)
    ensures r.Wrote? ==> |v.logged| <= |old(v.logged)| + 2 * k + 4
  {
    if v.inodes[inum].device {
      return WriteDevice;
    }
    if off > v.inodes[inum].size || (off + |src|) % UINT_LIMIT < off {
      return WriteFailed;
    }
    if off + |src| > MaxBytes() {
      return WriteFailed;
    }
    var ok := WriteBody(v, inum, src, off, k);
    r := if ok then Wrote(|src|) else WritePanic;
  }

  /** writei once its checks have passed. */
  method WriteBody(v: Volume, inum: nat, src: seq<byte>, off: nat, ghost k: nat) returns (ok: bool)
    requires Settled(v) && inum < |v.inodes| && off <= v.inodes[inum].size && off + |src| <= MaxBytes()
    requires |src| <= k * BSIZE
    modifies v`blocks, v`inodes, v`dinodes, v`logged, v`owner
    ensures AllLogged(old(v.blocks), v.blocks, v.logged) && old(v.logged) <= v.logged
    ensures ok ==> InodesLogged(v.l, v.ipb, old(v.dinodes), v.dinodes, v.logged)
    ensures !ok ==> Full(v.l, v.blocks)
    ensures ok ==> Settled(v) && Stored(v.l, old(v.Img()), v.Img(), inum, off, src)
    ensures ok ==> |v.logged| <= |old(v.logged)| + 2 * k + 4
  {
    ghost var fs0, before := v.Img(), |v.logged|;
    assert NoHoles(v.l, fs0, inum, v.inodes[inum].size);
    hide FsInv, AllFiles, NoHoles;
    ghost var rounds;
    ok, rounds := WriteLoop(v, inum, src, off);
    if ok {
      UpdateSize(v, fs0, before, inum, src, off, rounds, k);
    }
  }

  /** The end of writei: the new size, if any, and iupdate. */
  method UpdateSize(v: Volume, ghost fs0: Fs, ghost before: nat, inum: nat, src: seq<byte>, off: nat, ghost rounds: nat, ghost k: nat)
    requires Writing(v, fs0, before, inum, src, off, |src|, rounds) && AllFiles(v.l, fs0) && v.dinodes == fs0.inodes
    requires |src| <= k * BSIZE
    modifies v`inodes, v`dinodes, v`logged
    ensures old(v.logged) <= v.logged && InodesLogged(v.l, v.ipb, old(v.dinodes), v.dinodes, v.logged)
    ensures Settled(v) && Stored(v.l, fs0, v.Img(), inum, off, src)
    ensures |v.logged| <= before + 2 * k + 4
  {
    hide FsInv, AllFiles, Progress, Stored, Cost, AfterRounds, InodesLogged, IBlock;
    UpdateReady(v.l, v.ipb, fs0, v.Img(), v.owner, before, v.logged, inum, src, off, rounds, k);
    if |src| > 0 && off + |src| > v.inodes[inum].size {
      var ip := v.inodes[inum];
      v.inodes := v.inodes[inum := Inode(ip.device, off + |src|, ip.addrs)];
      v.dinodes := v.dinodes[inum := v.inodes[inum]];
      v.logged := v.logged + {IBlock(v.l, v.ipb, inum)};
    }
  }

  /** The size and the inode block, or nothing when the file does not grow. */
  lemma UpdateReady(l: Layout, ipb: Positive, fs0: Fs, fs: Fs, owner: map<nat, Slot>, before: nat, logged: set<nat>,
                    inum: nat, src: seq<byte>, off: nat, rounds: nat, k: nat)
    requires FsInv(l, fs, owner) && Progress(l, fs0, fs, inum, off, src, |src|) && AllFiles(l, fs0)
    requires AfterRounds(off, |src|, |src|, rounds) && |src| <= k * BSIZE
    requires Cost(l, fs, inum, before, logged, rounds, Remainder(off, BSIZE) == 0)
    ensures inum < |fs.inodes| == |fs0.inodes|
    ensures var grows := |src| > 0 && off + |src| > fs.inodes[inum].size;
            var fs' := if grows then SetSize(fs, inum, off + |src|) else fs;
            var logged' := if grows then logged + {IBlock(l, ipb, inum)} else logged;
            && FsInv(l, fs', owner) && AllFiles(l, fs') && Stored(l, fs0, fs', inum, off, src)
            && fs'.inodes == (if grows then fs0.inodes[inum := fs'.inodes[inum]] else fs0.inodes)
            && InodesLogged(l, ipb, fs0.inodes, fs'.inodes, logged') && |logged'| <= before + 2 * k + 4
  {
    CostBound(l, fs, inum, before, logged, rounds, off, |src|, k);
    WriteDone(l, fs0, fs, owner, inum, off, src);
    SizeStays(l, fs0, fs, inum, off, src);
    hide FsInv, AllFiles, Progress, Stored, Cost, AfterRounds, InodesLogged, IBlock;
    var size := Max(fs0.inodes[inum].size, off + |src|);
    StoredAll(l, fs0, SetSize(fs, inum, size), inum, off, src);
    OneInodeLogged(l, ipb, fs0.inodes, inum, SetSize(fs, inum, size).inodes[inum], logged);
    AddAtMost(logged, {IBlock(l, ipb, inum)});
  }

  lemma StoredAll(l: Layout, fs0: Fs, fs: Fs, inum: nat, off: nat, src: seq<byte>)
    requires Stored(l, fs0, fs, inum, off, src)
    ensures AllFiles(l, fs)
  {
  }

  lemma SizeStays(l: Layout, fs0: Fs, fs: Fs, inum: nat, off: nat, src: seq<byte>)
    requires AllFiles(l, fs0) && Progress(l, fs0, fs, inum, off, src, |src|)
    ensures inum < |fs.inodes| == |fs0.inodes| && fs.inodes[inum].size == fs0.inodes[inum].size
    ensures off <= fs0.inodes[inum].size
    ensures off + |src| <= fs0.inodes[inum].size ==> fs.inodes == fs0.inodes && SetSize(fs, inum, fs.inodes[inum].size) == fs
    ensures fs.inodes == fs0.inodes[inum := fs.inodes[inum]]
  {
  }

  // ----- filewrite ---------------------------------------------------------------------------------

  lemma SpliceSplice(c: seq<byte>, off: nat, a: seq<byte>, b: seq<byte>)
    requires off <= |c|
    ensures Splice(Splice(c, off, a), off + |a|, b) == Splice(c, off, a + b)
  {
  }

  lemma StoredThen(l: Layout, fs0: Fs, fs1: Fs, fs2: Fs, inum: nat, off: nat, a: seq<byte>, b: seq<byte>)
    requires Stored(l, fs0, fs1, inum, off, a) && Stored(l, fs1, fs2, inum, off + |a|, b)
    ensures Stored(l, fs0, fs2, inum, off, a + b)
  {
    SpliceSplice(Content(l, fs0, inum), off, a, b);
  }

  /** Blocks of data in one of filewrite's transactions; its max is this many bytes' worth of blocks. */
  const CHUNK: Positive := (MAXOPBLOCKS - 1 - 1 - 2) / 2

  /** One more chunk. */
  lemma ChunkStored(l: Layout, fs0: Fs, fs: Fs, fs': Fs, inum: nat, off0: nat, addr: seq<byte>, i: nat, n1: nat)
    requires i + n1 <= |addr| && Stored(l, fs, fs', inum, off0 + i, addr[i..i+n1])
    requires if i == 0 then fs == fs0 else Stored(l, fs0, fs, inum, off0, addr[..i])
    ensures Stored(l, fs0, fs', inum, off0, addr[..i+n1])
    ensures |fs'.inodes| == |fs.inodes| && inum < |fs.inodes| && fs'.inodes[inum].device == fs.inodes[inum].device
  {
    hide MaxBytes, Content, Splice, AllFiles;
    assert |fs'.inodes| == |fs.inodes| && fs'.inodes[inum].device == fs.inodes[inum].device;
    hide Stored;
    assert addr[..i] + addr[i..i+n1] == addr[..i+n1];
    if i > 0 {
      StoredThen(l, fs0, fs, fs', inum, off0, addr[..i], addr[i..i+n1]);
    } else {
      assert addr[..i+n1] == addr[i..i+n1];
    }
  }

  function ChunkBytes(): Positive
  {
    ChunkPositive();
    CHUNK * BSIZE
  }

  lemma ChunkPositive()
    ensures CHUNK * BSIZE > 0
  {
  }

  /** n bytes are a number of full chunks. */
  ghost predicate WholeChunks(n: nat)
  {
    exists k: nat :: n == Chunks(k)
  }

  function Chunks(k: nat): nat
  {
    k * ChunkBytes()
  }

  datatype FileResult = NotWritable | DeviceWrite | Panicked | Short(written: nat) | All

  /** A struct file of type FD_INODE. */
  class File {
    const writable: bool
    const inum: nat
    var off: nat

    /** What filewrite has done when written bytes of addr are in the file. */
    ghost predicate WroteSome(v: Volume, fs0: Fs, off0: nat, addr: seq<byte>, written: nat)
      reads this, v
    {
      && Settled(v) && written <= |addr| && off == off0 + written && |v.inodes| == |fs0.inodes|
      && (inum < |fs0.inodes| ==> v.inodes[inum].device == fs0.inodes[inum].device)
      && (written == 0 ==> v.Img() == fs0)
      && (written > 0 ==> Stored(v.l, fs0, v.Img(), inum, off0, addr[..written]))
    }

    /** One transaction of filewrite's loop, of n1 bytes from addr[i] on. */
    method WriteChunk(v: Volume, addr: seq<byte>, i: nat, n1: nat, ghost fs0: Fs, ghost off0: nat) returns (r: WriteResult)
      requires WroteSome(v, fs0, off0, addr, i) && inum < |fs0.inodes| && 0 < n1 <= ChunkBytes() && i + n1 <= |addr|
      requires off < UINT_LIMIT && |addr| < UINT_LIMIT
      modifies this`off, v`blocks, v`inodes, v`dinodes, v`logged, v`owner
      ensures AllLogged(old(v.blocks), v.blocks, v.logged)
      ensures !r.WritePanic? ==> InodesLogged(v.l, v.ipb, old(v.dinodes), v.dinodes, v.logged)
      ensures r.WritePanic? ==> Full(v.l, v.blocks)
      ensures r.Wrote? ==> r.n == n1 && WroteSome(v, fs0, off0, addr, i + n1) && |v.logged| <= MAXOPBLOCKS
      ensures r.Wrote? ==> Operation(v.l, v.ipb, old(v.OnDisk()), v.OnDisk(), v.logged)
      ensures r.WriteDevice? <==> fs0.inodes[inum].device
      ensures r.WriteFailed? ==> WroteSome(v, fs0, off0, addr, i) && |v.inodes| == |fs0.inodes| && Refuses(v.inodes[inum], off, n1)
    {
      hide AllFiles, FsInv, Stored, Refuses;
      ghost var fs := v.Img();
      v.logged := {};
      r := WriteI(v, inum, addr[i..i+n1], off, CHUNK);
      if r.Wrote? {
        ChunkStored(v.l, fs0, fs, v.Img(), inum, off0, addr, i, n1);
        OperationOf(v.l, v.ipb, fs, v.Img(), old(v.owner), v.owner, v.logged);
        off := off + r.n;
      }
    }

    /** The whole range fits in a file. */
    ghost predicate Fits(fs0: Fs, off0: nat, n: nat)
    {
      inum < |fs0.inodes| && off0 <= fs0.inodes[inum].size && off0 + n <= MaxBytes()
    }

    lemma OffsetInside(v: Volume, fs0: Fs, off0: nat, addr: seq<byte>, written: nat)
      requires WroteSome(v, fs0, off0, addr, written) && inum < |fs0.inodes| && off0 < UINT_LIMIT
      ensures written > 0 ==> off <= v.inodes[inum].size <= MaxBytes() && Fits(fs0, off0, written)
      ensures off < UINT_LIMIT
    {
      if written > 0 {
        assert NoHoles(v.l, v.Img(), inum, v.inodes[inum].size);
        assert |Content(v.l, v.Img(), inum)| == |Splice(Content(v.l, fs0, inum), off0, addr[..written])|;
      }
    }

    /** A chunk is refused only if the whole range does not fit. */
    lemma RefusedShort(v: Volume, fs0: Fs, off0: nat, addr: seq<byte>, i: nat, n1: nat)
      requires WroteSome(v, fs0, off0, addr, i) && inum < |fs0.inodes| && off0 < UINT_LIMIT && i + n1 <= |addr|
      requires Refuses(v.inodes[inum], off, n1)
      ensures !Fits(fs0, off0, |addr|)
    {
      OffsetInside(v, fs0, off0, addr, i);
    }

    /** filewrite's loop. */
    method FileLoop(v: Volume, addr: seq<byte>, ghost fs0: Fs, ghost off0: nat) returns (r: FileResult)
      requires WroteSome(v, fs0, off0, addr, 0) && inum < |fs0.inodes| && off0 < UINT_LIMIT && |addr| < UINT_LIMIT
      modifies this`off, v`blocks, v`inodes, v`dinodes, v`logged, v`owner
      ensures !r.NotWritable?
      ensures r.DeviceWrite? ==> fs0.inodes[inum].device && addr != []
      ensures r.Panicked? ==> Full(v.l, v.blocks)
      ensures r.All? ==> WroteSome(v, fs0, off0, addr, |addr|)
      ensures r.Short? ==> r.written < |addr| && WroteSome(v, fs0, off0, addr, r.written) && !Fits(fs0, off0, |addr|)
      ensures r.Short? ==> WholeChunks(r.written)
    {
      hide WroteSome, Refuses, Fits;
      var i, n := 0, |addr|;
      ghost var k: nat := 0;
      while i < n
        invariant 0 <= i <= n && WroteSome(v, fs0, off0, addr, i)
        invariant i < n ==> i == Chunks(k)
      {
        var n1 := Min(n - i, ChunkBytes());
        OffsetInside(v, fs0, off0, addr, i);
        ghost var inodes, off1 := v.inodes, off;
        var w := WriteChunk(v, addr, i, n1, fs0, off0);
        if w.WriteDevice? {
          return DeviceWrite;
        }
        if w.WritePanic? {
          return Panicked;
        }
        if w.WriteFailed? {
          RefusedShort(v, fs0, off0, addr, i, n1);
          return Short(i);
        }
        i := i + w.n;
        k := k + 1;
      }
      return All;
    }

    /**
     * filewrite on an inode: chunk by chunk, each in its own transaction of at most MAXOPBLOCKS
     * blocks.  Short is a return of -1 after some whole chunks have been written.
     */
    method FileWrite(v: Volume, addr: seq<byte>) returns (r: FileResult)
      requires Settled(v) && inum < |v.inodes| && off < UINT_LIMIT && |addr| < UINT_LIMIT
      modifies this`off, v`blocks, v`inodes, v`dinodes, v`logged, v`owner
      ensures r.NotWritable? <==> !writable
      ensures r.NotWritable? ==> v.Img() == old(v.Img()) && off == old(off)
      ensures r.DeviceWrite? ==> old(v.inodes)[inum].device && addr != []
      ensures r.Panicked? ==> Full(v.l, v.blocks)
      ensures r.All? ==> WroteSome(v, old(v.Img()), old(off), addr, |addr|)
      ensures r.Short? ==> r.written < |addr| && WroteSome(v, old(v.Img()), old(off), addr, r.written)
      ensures r.Short? ==> WholeChunks(r.written)
      // all of it, or not, exactly as the whole range fits in a file
      ensures r.All? && addr != [] ==> Fits(old(v.Img()), old(off), |addr|)
      ensures r.Short? ==> !Fits(old(v.Img()), old(off), |addr|)
    {
      if !writable {
        return NotWritable;
      }
      ghost var fs0, off0 := v.Img(), off;
      r := FileLoop(v, addr, fs0, off0);
      if r.All? && |addr| > 0 {
        OffsetInside(v, fs0, off0, addr, |addr|);
      }
    }
  }
}
