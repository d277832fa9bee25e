/**
 * The file system over the log: whatever the interleaving and wherever the machine crashes, what
 * recovery leaves on the disk is a sound volume, the one operations saw when none was running.
 * A volume changes when the last operation of a group ends, by what the group's operations do; a
 * reboot reads it back from the disk.
 */
module FsCrash {
  import opened Blocks
  import opened Common
  import opened BufferCache
  import opened LogSpec
  import opened Log
  import opened LogProtocol
  import opened LogSpace
  import opened FsSpec
  import opened Dinodes

  // ----- A volume in the blocks of a disk ----------------------------------------------------

  /** The inodes fit in the blocks between inodestart and bmapstart. */
  ghost predicate Packed(l: Layout, ipb: nat)
  {
    0 < ipb && FitIn(ipb) && l.inodestart <= l.bmapstart && forall i: nat | i < l.ninodes :: IBlock(l, ipb, i) < l.bmapstart
  }

  /** Block b of the disk holds what the volume says: the inodes of an inode block, or the block. */
  ghost predicate StoredAt(l: Layout, ipb: nat, home: Home, fs: Fs, b: nat)
    requires Packed(l, ipb) && WfFs(l, fs) && b < l.size
  {
    && b in home
    && (l.bmapstart <= b ==> home[b] == fs.blocks[b])
    && (forall i: nat | i < l.ninodes && IBlock(l, ipb, i) == b ::
          InodeOf(GetDinode(home[b], ipb, Remainder(i, ipb))) == fs.inodes[i])
  }

  ghost predicate StoredOutside(l: Layout, ipb: nat, home: Home, fs: Fs, changed: set<nat>)
  {
    && Packed(l, ipb) && WfFs(l, fs)
    && forall b | l.inodestart <= b < l.size && b !in changed :: StoredAt(l, ipb, home, fs, b)
  }

  ghost predicate StoredInside(l: Layout, ipb: nat, home: Home, fs: Fs, changed: set<nat>)
  {
    && Packed(l, ipb) && WfFs(l, fs)
    && forall b | l.inodestart <= b < l.size && b in changed :: StoredAt(l, ipb, home, fs, b)
  }

  /** The disk's blocks hold the volume. */
  ghost predicate Stores(l: Layout, ipb: nat, home: Home, fs: Fs)
  {
    StoredOutside(l, ipb, home, fs, {})
  }

  /** iupdate stores the inode in its block and leaves the block's other inodes. */
  lemma IupdateStored(l: Layout, ipb: nat, home: Home, fs: Fs, inum: nat, d: Dinode)
    requires Packed(l, ipb) && WfFs(l, fs) && inum < l.ninodes && WfDinode(d)
    requires StoredAt(l, ipb, home, fs, IBlock(l, ipb, inum))
    ensures var b := IBlock(l, ipb, inum);
            var home': Home := home[b := PutDinode(home[b], ipb, Remainder(inum, ipb), d)];
            var fs' := fs.(inodes := fs.inodes[inum := InodeOf(d)]);
            WfFs(l, fs') && StoredAt(l, ipb, home', fs', b)
  {
    hide GetDinode, PutDinode, FitIn, WfDinode, Remainder, IBlock, InodeOf;
    var b := IBlock(l, ipb, inum);
    forall i: nat | i < l.ninodes && IBlock(l, ipb, i) == b
      ensures var block := PutDinode(home[b], ipb, Remainder(inum, ipb), d);
              InodeOf(GetDinode(block, ipb, Remainder(i, ipb))) == if i == inum then InodeOf(d) else fs.inodes[i]
    {
      DinodeRoundTrip(home[b], ipb, Remainder(inum, ipb), d, Remainder(i, ipb));
      if Remainder(i, ipb) == Remainder(inum, ipb) {
        SlotOf(l, ipb, i, inum);
      }
    }
    InodeOfWf(d);
  }

  lemma InodeOfWf(d: Dinode)
    requires WfDinode(d)
    ensures |InodeOf(d).addrs| == NDIRECT + 1
  {
  }

  /** Inodes of the same block are in different slots. */
  lemma SlotOf(l: Layout, ipb: Positive, i: nat, j: nat)
    requires IBlock(l, ipb, i) == IBlock(l, ipb, j) && Remainder(i, ipb) == Remainder(j, ipb)
    ensures i == j
  {
    Division(i, ipb);
    Division(j, ipb);
  }

  // ----- The disk determines the volume -------------------------------------------------------

  ghost predicate SameUpper(l: Layout, fs: Fs, fs': Fs)
  {
    && WfFs(l, fs) && WfFs(l, fs') && fs'.inodes == fs.inodes
    && forall b | l.bmapstart <= b < l.size :: fs'.blocks[b] == fs.blocks[b]
  }

  lemma StoredInode(l: Layout, ipb: nat, home: Home, fs: Fs, i: nat)
    requires Stores(l, ipb, home, fs) && i < l.ninodes
    ensures IBlock(l, ipb, i) in home
    ensures fs.inodes[i] == InodeOf(GetDinode(home[IBlock(l, ipb, i)], ipb, Remainder(i, ipb)))
  {
    hide GetDinode, InodeOf, FitIn, Remainder;
    assert l.inodestart <= IBlock(l, ipb, i) < l.size;
    assert StoredAt(l, ipb, home, fs, IBlock(l, ipb, i));
  }

  lemma StoredBlock(l: Layout, ipb: nat, home: Home, fs: Fs, b: nat)
    requires Stores(l, ipb, home, fs) && l.bmapstart <= b < l.size
    ensures b in home && home[b] == fs.blocks[b]
  {
    hide GetDinode, InodeOf, FitIn, Remainder;
    assert StoredAt(l, ipb, home, fs, b);
  }

  lemma StoresSame(l: Layout, ipb: nat, home: Home, fs: Fs, fs': Fs)
    requires Stores(l, ipb, home, fs) && Stores(l, ipb, home, fs')
    ensures SameUpper(l, fs, fs')
  {
    assert WfFs(l, fs) && WfFs(l, fs') && Packed(l, ipb);
    hide Stores, GetDinode, InodeOf, FitIn, Remainder, IBlock;
    forall b | l.bmapstart <= b < l.size
      ensures fs'.blocks[b] == fs.blocks[b]
    {
      StoredBlock(l, ipb, home, fs, b);
      StoredBlock(l, ipb, home, fs', b);
    }
    forall i: nat | i < l.ninodes
      ensures fs'.inodes[i] == fs.inodes[i]
    {
      StoredInode(l, ipb, home, fs, i);
      StoredInode(l, ipb, home, fs', i);
    }
  }

  lemma SameAddr(l: Layout, fs: Fs, fs': Fs, owner: map<nat, Slot>, s: Slot)
    requires SameUpper(l, fs, fs') && Owned(l, fs, owner, {}) && ValidSlot(fs, s)
    ensures AddrOf(l, fs', s) == AddrOf(l, fs, s)
  {
    var ind := Indirect(s.inum);
    assert AddrOf(l, fs, ind) == fs.inodes[s.inum].addrs[NDIRECT];
    assert AddrOf(l, fs, ind) != 0 ==> AddrOf(l, fs, ind) in owner;
  }

  lemma SameInv(l: Layout, fs: Fs, fs': Fs, owner: map<nat, Slot>)
    requires SameUpper(l, fs, fs') && FsInv(l, fs, owner)
    ensures FsInv(l, fs', owner)
  {
    forall s: Slot | ValidSlot(fs, s)
      ensures AddrOf(l, fs', s) == AddrOf(l, fs, s)
    {
      SameAddr(l, fs, fs', owner, s);
    }
    hide AddrOf;
    assert Owned(l, fs', owner, {});
    forall b: nat | b < l.size
      ensures Used(l, fs'.blocks, b) == Used(l, fs.blocks, b)
    {
      assert l.bmapstart <= BBlock(l, b) < l.size;
    }
  }

  lemma SameContents(l: Layout, fs: Fs, fs': Fs, owner: map<nat, Slot>, inum: nat)
    requires SameUpper(l, fs, fs') && FsInv(l, fs, owner) && AllFiles(l, fs) && inum < l.ninodes
    ensures NoHoles(l, fs', inum, fs'.inodes[inum].size)
    ensures Content(l, fs', inum) == Content(l, fs, inum)
  {
    assert NoHoles(l, fs, inum, fs.inodes[inum].size);
    forall bn: nat | bn < MAXFILE
      ensures BlockAddr(l, fs', inum, bn) == BlockAddr(l, fs, inum, bn)
      ensures BlockAddr(l, fs, inum, bn) != 0 ==> l.datastart <= BlockAddr(l, fs, inum, bn) < l.size
    {
      SameAddr(l, fs, fs', owner, SlotFor(inum, bn));
      assert AddrOf(l, fs, SlotFor(inum, bn)) != 0 ==> AddrOf(l, fs, SlotFor(inum, bn)) in owner;
    }
    hide AddrOf, Owned, Marked, MaxBytes, BlockAddr, Quotient, Remainder;
    SameBytes(l, fs, fs', inum);
  }

  lemma SameBytes(l: Layout, fs: Fs, fs': Fs, inum: nat)
    requires SameUpper(l, fs, fs') && inum < l.ninodes && NoHoles(l, fs, inum, fs.inodes[inum].size)
    requires forall bn: nat | bn < MAXFILE :: BlockAddr(l, fs', inum, bn) == BlockAddr(l, fs, inum, bn)
    requires forall bn: nat | bn < MAXFILE && BlockAddr(l, fs, inum, bn) != 0 ::
               l.datastart <= BlockAddr(l, fs, inum, bn) < l.size
    ensures Content(l, fs', inum) == Content(l, fs, inum)
  {
    var c, c' := Content(l, fs, inum), Content(l, fs', inum);
    forall p: nat | p < |c|
      ensures c'[p] == c[p]
    {
      Division(p, BSIZE);
      assert BlockStart(Quotient(p, BSIZE)) < |c|;
    }
  }

  /** Two volumes the same blocks hold are both sound or neither, and have the same files. */
  lemma DiskDetermines(l: Layout, ipb: nat, home: Home, fs: Fs, fs': Fs)
    requires Stores(l, ipb, home, fs) && Stores(l, ipb, home, fs') && Sound(l, fs)
    ensures Sound(l, fs') && fs'.inodes == fs.inodes
    ensures forall i: nat | i < l.ninodes ::
              && fs.inodes[i].size <= MaxBytes() && fs'.inodes[i].size <= MaxBytes()
              && Content(l, fs', i) == Content(l, fs, i)
  {
    StoresSame(l, ipb, home, fs, fs');
    var owner :| FsInv(l, fs, owner);
    SameInv(l, fs, fs', owner);
    hide FsInv;
    forall i: nat | i < l.ninodes
      ensures NoHoles(l, fs', i, fs'.inodes[i].size) && NoHoles(l, fs, i, fs.inodes[i].size)
      ensures Content(l, fs', i) == Content(l, fs, i)
    {
      SameContents(l, fs, fs', owner, i);
    }
  }

  // ----- Operations ----------------------------------------------------------------------------

  /** One operation after another is one for the group. */
  lemma OperationThen(l: Layout, ipb: nat, a: Fs, b: Fs, c: Fs, first: set<nat>, second: set<nat>)
    requires Operation(l, ipb, a, b, first) && Operation(l, ipb, b, c, second)
    ensures Operation(l, ipb, a, c, first + second)
  {
  }

  /** Where a group of operations shows its result in the blocks it logged, the disk's blocks hold the result. */
  lemma GroupStored(l: Layout, ipb: nat, home: Home, fs: Fs, fs': Fs, logged: set<nat>)
    requires StoredOutside(l, ipb, home, fs, logged) && Operation(l, ipb, fs, fs', logged)
    requires StoredInside(l, ipb, home, fs', logged)
    ensures Stores(l, ipb, home, fs')
  {
    hide GetDinode, InodeOf, FitIn, WfLayout, Remainder, Sound;
    forall b | l.inodestart <= b < l.size
      ensures StoredAt(l, ipb, home, fs', b)
    {
      if b !in logged {
        assert StoredAt(l, ipb, home, fs, b);
      }
    }
  }

  // ----- Runs ----------------------------------------------------------------------------------

  function BlockSet(blocks: seq<nat>): set<nat>
  {
    set b | b in blocks
  }

  /** How the volume goes along with a step of the log's protocol. */
  ghost predicate VolumeStep(g: Geometry, l: Layout, ipb: nat, s: State, t: State, fs: Fs, fs': Fs)
  {
    if Crash(s, t) then
      GoodLog(g, t.disk) && Stores(l, ipb, HomeOf(g, Recovered(g, t.disk)), fs')
    else if s.ops != [] && t.ops == [] then
      && Operation(l, ipb, fs, fs', BlockSet(s.blocks))
      && StoredInside(l, ipb, HomeOf(g, s.view), fs', BlockSet(s.blocks))
    else
      fs' == fs
  }

  /** A run of the log's protocol with the volume in each state. */
  ghost predicate VolumeRun(g: Geometry, l: Layout, ipb: nat, budget: nat, run: seq<State>, vols: seq<Fs>)
  {
    && Run(g, budget, run) && |vols| == |run|
    && GoodLog(g, run[0].disk) && Stores(l, ipb, HomeOf(g, Recovered(g, run[0].disk)), vols[0]) && Sound(l, vols[0])
    && forall i | 0 <= i < |run| - 1 :: VolumeStep(g, l, ipb, run[i], run[i+1], vols[i], vols[i+1])
  }

  /** The blocks in which what operations see may be ahead of the volume. */
  function Ahead(s: State): set<nat>
  {
    if s.phase.Idle? then BlockSet(s.blocks) else {}
  }

  /** What operations see is the volume, but for blocks logged by operations that are running. */
  ghost predicate Hosted(g: Geometry, l: Layout, ipb: nat, s: State, fs: Fs)
  {
    && Inv(g, s)
    && GoodLog(g, s.disk) && StoredOutside(l, ipb, Abs(g, s).current, fs, Ahead(s)) && Sound(l, fs)
  }

  /** What operations see stays, and a group ends at an end_op that starts the commit. */
  ghost predicate Steady(g: Geometry, s: State, t: State)
  {
    && GoodLog(g, s.disk) && GoodLog(g, t.disk) && Abs(g, t).current == Abs(g, s).current
    && (s.ops == [] || t.ops != [] ==> Ahead(t) == Ahead(s))
    && (s.ops != [] ==> Ahead(s) == BlockSet(s.blocks) && Abs(g, s).current == HomeOf(g, s.view))
    && (s.ops != [] && t.ops == [] ==> Ahead(t) == {})
  }

  lemma OpsSteady(g: Geometry, s: State, t: State)
    requires Inv(g, s) && Inv(g, t) && ((exists id :: Begin(s, t, id)) || exists i :: End(g, s, t, i))
    ensures Steady(g, s, t)
  {
    InvGoodLog(g, s);
    InvGoodLog(g, t);
    hide GoodLog, HomeOf, Recovered, Active, Ready, ApplyFirst, HasLog, HomeBlocks, BlockSet;
  }

  lemma CommitSteady(g: Geometry, s: State, t: State)
    requires Inv(g, s) && Inv(g, t) && (CommitStep(g, s, t) || CommitDone(g, s, t))
    ensures Steady(g, s, t)
  {
    InvGoodLog(g, s);
    InvGoodLog(g, t);
    CommittingAbs(g, s);
    hide GoodLog, HomeOf, Recovered, Active, Ready, ApplyFirst, HasLog, HomeBlocks, CommitWrites;
    if CommitStep(g, s, t) {
      CommittingAbs(g, t);
    }
  }

  lemma RecoverSteady(g: Geometry, s: State, t: State)
    requires Inv(g, s) && Inv(g, t) && (RecoverStep(g, s, t) || RecoverDone(g, s, t))
    ensures Steady(g, s, t)
  {
    InvGoodLog(g, s);
    InvGoodLog(g, t);
    RecoveringAbs(g, s);
    hide GoodLog, HomeOf, Recovered, Active, Ready, ApplyFirst, RecoverWrites;
    if RecoverStep(g, s, t) {
      RecoveringAbs(g, t);
    } else {
      ReadySame(g, t.disk, t.view);
      ReadyDurable(g, t.disk, t.view, []);
    }
  }

  lemma StoredBeside(l: Layout, ipb: nat, home: Home, fs: Fs, changed: set<nat>, b: nat, data: Block)
    requires StoredOutside(l, ipb, home, fs, changed)
    ensures StoredOutside(l, ipb, home[b := data], fs, changed + {b})
  {
    hide GetDinode, InodeOf, FitIn, WfLayout, Remainder;
    assert forall x | l.inodestart <= x < l.size && x !in changed + {b} :: StoredAt(l, ipb, home, fs, x);
  }

  /** log_write puts what operations see ahead of the volume in one more block. */
  lemma LogWriteAhead(g: Geometry, budget: nat, s: State, t: State, i: nat, b: nat, data: Block)
    requires Inv(g, s) && Inv(g, t) && LogWrite(g, budget, s, t, i, b, data)
    ensures GoodLog(g, s.disk) && GoodLog(g, t.disk) && s.ops != [] && t.ops != []
    ensures Ahead(t) == Ahead(s) + {b} && Abs(g, t).current == Abs(g, s).current[b := data]
  {
    InvGoodLog(g, s);
    InvGoodLog(g, t);
    LogWriteReadied(g, s.disk, s.view, s.blocks, b, data);
    hide GoodLog, HomeOf, Recovered, Active, Ready, ApplyFirst, HasLog, HomeBlocks;
  }

  lemma LogWriteHosted(g: Geometry, l: Layout, ipb: nat, budget: nat, s: State, t: State, i: nat, b: nat, data: Block, fs: Fs)
    requires Hosted(g, l, ipb, s, fs) && Inv(g, t) && LogWrite(g, budget, s, t, i, b, data)
    ensures Hosted(g, l, ipb, t, fs) && s.ops != [] && t.ops != []
  {
    hide Inv, GoodLog, HomeOf, Recovered, Abs, LogWrite, Sound, StoredOutside, Ahead;
    LogWriteAhead(g, budget, s, t, i, b, data);
    StoredBeside(l, ipb, Abs(g, s).current, fs, Ahead(s), b, data);
  }

  lemma SteadyHosted(g: Geometry, l: Layout, ipb: nat, s: State, t: State, fs: Fs, fs': Fs)
    requires Hosted(g, l, ipb, s, fs) && Inv(g, t) && Steady(g, s, t)
    requires !Crash(s, t) && VolumeStep(g, l, ipb, s, t, fs, fs')
    ensures Hosted(g, l, ipb, t, fs')
  {
    hide Inv, GoodLog, HomeOf, Recovered, Abs, Sound, StoredOutside, StoredInside, Ahead, Crash, BlockSet;
    if s.ops != [] && t.ops == [] {
      GroupStored(l, ipb, Abs(g, s).current, fs, fs', Ahead(s));
    }
  }

  /** A step other than a crash. */
  lemma StepHosted(g: Geometry, l: Layout, ipb: nat, budget: nat, s: State, t: State, fs: Fs, fs': Fs)
    requires Hosted(g, l, ipb, s, fs) && Inv(g, t) && Next(g, budget, s, t) && !Crash(s, t)
    requires VolumeStep(g, l, ipb, s, t, fs, fs')
    ensures Hosted(g, l, ipb, t, fs')
  {
    assert Inv(g, s);
    hide Inv, Hosted, LogWrite, Begin, End, CommitStep, CommitDone, RecoverStep, RecoverDone, Crash, Steady;
    hide Operation, StoredInside, Stores, GoodLog;
    if i, b, data :| LogWrite(g, budget, s, t, i, b, data) {
      LogWriteHosted(g, l, ipb, budget, s, t, i, b, data, fs);
    } else {
      if (exists id :: Begin(s, t, id)) || exists i :: End(g, s, t, i) {
        OpsSteady(g, s, t);
      } else if CommitStep(g, s, t) || CommitDone(g, s, t) {
        CommitSteady(g, s, t);
      } else {
        RecoverSteady(g, s, t);
      }
      SteadyHosted(g, l, ipb, s, t, fs, fs');
    }
  }

  /** After a reboot the volume read from the disk is sound, for the disk holds one that was. */
  lemma CrashHosted(g: Geometry, l: Layout, ipb: nat, s: State, t: State, saved: Fs, fs': Fs)
    requires Inv(g, t) && Crash(s, t) && GoodLog(g, s.disk)
    requires Stores(l, ipb, HomeOf(g, Recovered(g, s.disk)), saved) && Sound(l, saved)
    requires Stores(l, ipb, HomeOf(g, Recovered(g, s.disk)), fs')
    ensures Hosted(g, l, ipb, t, fs')
  {
    hide Inv, GoodLog, HomeOf, Recovered, Sound, StoredOutside, Active;
    DiskDetermines(l, ipb, HomeOf(g, Recovered(g, s.disk)), saved, fs');
  }

  /** With no operation running, what operations see is the volume. */
  lemma RestingStores(g: Geometry, l: Layout, ipb: nat, budget: nat, s: State, fs: Fs)
    requires Hosted(g, l, ipb, s, fs) && CapInv(budget, s) && s.ops == []
    ensures Stores(l, ipb, Abs(g, s).current, fs) && Sound(l, fs)
  {
    assert Ahead(s) == {};
  }

  lemma InitHosted(g: Geometry, l: Layout, ipb: nat, budget: nat, run: seq<State>, vols: seq<Fs>)
    requires VolumeRun(g, l, ipb, budget, run, vols) && Inv(g, run[0])
    ensures Hosted(g, l, ipb, run[0], vols[0])
  {
    hide Inv, Next, GoodLog, HomeOf, Recovered, Sound, StoredOutside, VolumeStep;
    InitRecovering(g, run[0]);
  }

  lemma VolumeRunAt(g: Geometry, l: Layout, ipb: nat, budget: nat, run: seq<State>, vols: seq<Fs>, i: nat)
    requires VolumeRun(g, l, ipb, budget, run, vols) && i < |run| - 1
    ensures Next(g, budget, run[i], run[i+1]) && VolumeStep(g, l, ipb, run[i], run[i+1], vols[i], vols[i+1])
  {
    hide Init, Next, VolumeStep, Stores;
  }

  lemma {:induction false} RunHosted(g: Geometry, l: Layout, ipb: nat, budget: nat, run: seq<State>, vols: seq<Fs>, i: nat)
    requires VolumeRun(g, l, ipb, budget, run, vols) && budget <= MAXOPBLOCKS && i < |run|
    ensures Hosted(g, l, ipb, run[i], vols[i])
    decreases i
  {
    hide Run, Inv, Next, GoodLog, HomeOf, Recovered, Abs, Sound, Stores, Hosted, CapInv;
    RunInv(g, budget, run, i);
    if i == 0 {
      InitHosted(g, l, ipb, budget, run, vols);
    } else {
      var s, t := run[i-1], run[i];
      VolumeRunAt(g, l, ipb, budget, run, vols, i - 1);
      if Crash(s, t) {
        var j := CrashSafety(g, budget, run, i - 1);
        RunHosted(g, l, ipb, budget, run, vols, j);
        RunCap(g, budget, run, j);
        RestingStores(g, l, ipb, budget, run[j], vols[j]);
        CrashHosted(g, l, ipb, s, t, vols[j], vols[i]);
      } else {
        RunHosted(g, l, ipb, budget, run, vols, i - 1);
        StepHosted(g, l, ipb, budget, s, t, vols[i-1], vols[i]);
      }
    }
  }

  /**
   * Crash safety of the file system: if the machine crashes in state i, the disk that recovery leaves
   * holds the volume as it was in an earlier state j in which no operation was running, and that volume
   * is sound.  No volume a quiet state had is lost: j is no earlier than the last quiet state.
   */
  lemma VolumeCrashSafety(g: Geometry, l: Layout, ipb: nat, budget: nat, run: seq<State>, vols: seq<Fs>, i: nat)
    returns (j: nat)
    requires VolumeRun(g, l, ipb, budget, run, vols) && budget <= MAXOPBLOCKS && i < |run|
    ensures j <= i && run[j].ops == [] && GoodLog(g, run[i].disk)
    ensures Stores(l, ipb, HomeOf(g, Recovered(g, run[i].disk)), vols[j]) && Sound(l, vols[j])
    ensures forall k | 0 <= k <= i && Quiet(run[k]) :: k <= j
  {
    hide Run, Inv, GoodLog, HomeOf, Recovered, Abs, Sound, Stores, Hosted, CapInv, VolumeStep;
    j := CrashSafety(g, budget, run, i);
    RunHosted(g, l, ipb, budget, run, vols, j);
    RunCap(g, budget, run, j);
    RestingStores(g, l, ipb, budget, run[j], vols[j]);
  }
}
