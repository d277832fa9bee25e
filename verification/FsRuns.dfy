/**
 * Runs of the file system over the log: any group of operations that fits in the log is a stretch of a
 * run, from begin_op to the end of the commit, and so is any sequence of such groups from the disk that
 * mkfs makes.
 */
module FsRuns {
  import opened Blocks
  import opened Common
  import opened BufferCache
  import opened LogSpec
  import opened Log
  import opened LogProtocol
  import opened LogSpace
  import opened FsSpec
  import opened Dinodes
  import opened FsCrash
  import Mkfs

  // ----- The bytes of a block of the volume ---------------------------------------------------

  /** The type of a file in stat.h. */
  const T_FILE := 2

  /** The record to store for an inode in place of d: what the model leaves out of an inode stays. */
  function DinodeFor(d: Dinode, ip: Inode): Dinode
  {
    var kind := if ip.device then T_DEV else if d.kind == T_DEV then T_FILE else d.kind;
    d.(kind := kind, size := ip.size, addrs := ip.addrs)
  }

  predicate Encodable(ip: Inode)
  {
    ip.size < UINT_LIMIT && |ip.addrs| == NDIRECT + 1 && forall k | 0 <= k < |ip.addrs| :: ip.addrs[k] < UINT_LIMIT
  }

  lemma DinodeForStored(b: Block, ipb: nat, slot: nat, ip: Inode)
    requires FitIn(ipb) && slot < ipb && Encodable(ip)
    ensures WfDinode(DinodeFor(GetDinode(b, ipb, slot), ip)) && InodeOf(DinodeFor(GetDinode(b, ipb, slot), ip)) == ip
  {
    SlotFits(ipb, slot);
  }

  /** A sound volume's inodes fit in their records: sizes and addresses have 32 bits. */
  lemma SoundEncodable(l: Layout, fs: Fs, i: nat)
    requires Sound(l, fs) && i < l.ninodes
    ensures Encodable(fs.inodes[i])
  {
    var owner :| FsInv(l, fs, owner);
    assert NoHoles(l, fs, i, fs.inodes[i].size);
    hide Marked, Used, NoHoles, MaxBytes;
    forall k | 0 <= k <= NDIRECT
      ensures fs.inodes[i].addrs[k] < UINT_LIMIT
    {
      AddressFits(l, fs, owner, i, k);
    }
  }

  lemma AddressFits(l: Layout, fs: Fs, owner: map<nat, Slot>, i: nat, k: nat)
    requires Owned(l, fs, owner, {}) && i < |fs.inodes| && k <= NDIRECT
    ensures fs.inodes[i].addrs[k] < UINT_LIMIT
  {
    var s := if k < NDIRECT then Direct(i, k) else Indirect(i);
    assert ValidSlot(fs, s) && AddrOf(l, fs, s) == fs.inodes[i].addrs[k];
  }

  /** An inode block in which those of the first n records that belong there have been stored. */
  ghost function PutDinodes(l: Layout, ipb: nat, block: Block, ds: seq<Dinode>, b: nat, n: nat): Block
    requires Packed(l, ipb) && n <= |ds| && forall i | 0 <= i < |ds| :: WfDinode(ds[i])
  {
    if n == 0 then block
    else
      var prev := PutDinodes(l, ipb, block, ds, b, n - 1);
      if IBlock(l, ipb, n - 1) == b then PutDinode(prev, ipb, Remainder(n - 1, ipb), ds[n - 1]) else prev
  }

  /** Records of the volume's inodes. */
  ghost predicate Records(l: Layout, fs: Fs, ds: seq<Dinode>)
  {
    && |ds| == l.ninodes == |fs.inodes|
    && forall i | 0 <= i < |ds| :: WfDinode(ds[i]) && InodeOf(ds[i]) == fs.inodes[i]
  }

  /** What a block holds of a volume to begin with. */
  lemma StoredAlready(l: Layout, ipb: nat, home: Home, fs': Fs, b: nat) returns (fs: Fs)
    requires Packed(l, ipb) && WfFs(l, fs') && b < l.bmapstart && b in home
    ensures WfFs(l, fs) && fs.blocks == fs'.blocks && StoredAt(l, ipb, home, fs, b)
  {
    hide FitIn, Remainder;
    fs := Fs(fs'.blocks, seq(l.ninodes, i requires 0 <= i < l.ninodes =>
      if IBlock(l, ipb, i) == b then InodeOf(GetDinode(home[b], ipb, Remainder(i, ipb))) else fs'.inodes[i]));
  }

  lemma {:induction false} FirstStored(l: Layout, ipb: nat, home: Home, fs: Fs, fs': Fs, ds: seq<Dinode>, b: nat, n: nat)
    requires Packed(l, ipb) && WfFs(l, fs) && WfFs(l, fs') && b < l.bmapstart && StoredAt(l, ipb, home, fs, b)
    requires Records(l, fs', ds) && n <= l.ninodes
    ensures var home': Home := home[b := PutDinodes(l, ipb, home[b], ds, b, n)];
            var mid := fs.(inodes := fs'.inodes[..n] + fs.inodes[n..]);
            WfFs(l, mid) && StoredAt(l, ipb, home', mid, b)
    decreases n
  {
    hide GetDinode, PutDinode, FitIn, WfDinode, Remainder, IBlock, InodeOf, WfLayout;
    if n == 0 {
      assert fs'.inodes[..0] + fs.inodes[0..] == fs.inodes;
      assert home[b := home[b]] == home;
    } else {
      FirstStored(l, ipb, home, fs, fs', ds, b, n - 1);
      var prev := PutDinodes(l, ipb, home[b], ds, b, n - 1);
      var home1: Home := home[b := prev];
      var mid := fs.(inodes := fs'.inodes[..n-1] + fs.inodes[n-1..]);
      assert mid.inodes[n - 1 := fs'.inodes[n - 1]] == fs'.inodes[..n] + fs.inodes[n..];
      if IBlock(l, ipb, n - 1) == b {
        IupdateStored(l, ipb, home1, mid, n - 1, ds[n-1]);
        var block := PutDinode(prev, ipb, Remainder(n - 1, ipb), ds[n-1]);
        assert home1[b := block] == home[b := block];
      }
    }
  }

  /** With the records of all its inodes stored, whatever was there before, an inode block holds the volume. */
  lemma RecordsStored(l: Layout, ipb: nat, home: Home, fs: Fs, ds: seq<Dinode>, b: nat)
    requires Packed(l, ipb) && WfFs(l, fs) && b < l.bmapstart && b in home && Records(l, fs, ds)
    ensures StoredAt(l, ipb, home[b := PutDinodes(l, ipb, home[b], ds, b, l.ninodes)], fs, b)
  {
    var was := StoredAlready(l, ipb, home, fs, b);
    hide GetDinode, FitIn, Remainder, IBlock, InodeOf, PutDinodes;
    FirstStored(l, ipb, home, was, fs, ds, b, l.ninodes);
    assert fs.inodes[..l.ninodes] + was.inodes[l.ninodes..] == fs.inodes;
  }

  /** The records to store for the inodes of block b, and for the others any. */
  lemma RecordsFor(l: Layout, ipb: nat, block: Block, fs: Fs) returns (ds: seq<Dinode>)
    requires Packed(l, ipb) && WfFs(l, fs) && Sound(l, fs)
    ensures Records(l, fs, ds)
  {
    forall i: nat | i < l.ninodes
      ensures var d := DinodeFor(GetDinode(block, ipb, Remainder(i, ipb)), fs.inodes[i]);
              WfDinode(d) && InodeOf(d) == fs.inodes[i]
    {
      SoundEncodable(l, fs, i);
      DinodeForStored(block, ipb, Remainder(i, ipb), fs.inodes[i]);
    }
    ds := seq(l.ninodes, i requires 0 <= i < l.ninodes => DinodeFor(GetDinode(block, ipb, Remainder(i, ipb)), fs.inodes[i]));
  }

  /** For every block of a sound volume there is data that holds it. */
  lemma BlockFor(l: Layout, ipb: nat, home: Home, fs: Fs, b: nat) returns (data: Block)
    requires Packed(l, ipb) && WfFs(l, fs) && Sound(l, fs) && l.inodestart <= b < l.size && b in home
    ensures StoredAt(l, ipb, home[b := data], fs, b)
  {
    if l.bmapstart <= b {
      data := fs.blocks[b];
    } else {
      var ds := RecordsFor(l, ipb, home[b], fs);
      RecordsStored(l, ipb, home, fs, ds, b);
      data := PutDinodes(l, ipb, home[b], ds, b, l.ninodes);
    }
  }

  // ----- Runs, step by step --------------------------------------------------------------------

  /** The log, the volume's layout and the blocks an operation may write. */
  datatype System = System(g: Geometry, l: Layout, ipb: nat, budget: nat)

  /** A run so far, with the volume in each state. */
  datatype Trace = Trace(run: seq<State>, vols: seq<Fs>)

  ghost predicate Legal(y: System, tr: Trace)
  {
    y.budget <= MAXOPBLOCKS && |tr.vols| == |tr.run| > 0 && VolumeRun(y.g, y.l, y.ipb, y.budget, tr.run, tr.vols)
  }

  ghost predicate Grows(tr: Trace, tr': Trace)
  {
    tr.run <= tr'.run && tr.vols <= tr'.vols
  }

  ghost function Now(tr: Trace): State
    requires tr.run != []
  {
    tr.run[|tr.run| - 1]
  }

  ghost function Vol(tr: Trace): Fs
    requires tr.vols != []
  {
    tr.vols[|tr.vols| - 1]
  }

  lemma LegalFacts(y: System, tr: Trace)
    requires Legal(y, tr)
    ensures Inv(y.g, Now(tr)) && Hosted(y.g, y.l, y.ipb, Now(tr), Vol(tr)) && CapInv(y.budget, Now(tr))
  {
    hide Run, Inv, Hosted, CapInv, VolumeStep, Stores, Sound, GoodLog;
    RunCap(y.g, y.budget, tr.run, |tr.run| - 1);
    RunHosted(y.g, y.l, y.ipb, y.budget, tr.run, tr.vols, |tr.run| - 1);
  }

  /** A run that goes on from another up to the given volume, with no third one on the way. */
  ghost predicate Continues(y: System, tr: Trace, tr': Trace, fs: Fs)
  {
    && Legal(y, tr) && Legal(y, tr') && Grows(tr, tr') && Vol(tr') == fs
    && forall k | |tr.vols| <= k < |tr'.vols| :: tr'.vols[k] == Vol(tr) || tr'.vols[k] == fs
  }

  lemma ContinuesTwice(y: System, a: Trace, b: Trace, c: Trace, fs: Fs, fs': Fs)
    requires Continues(y, a, b, fs) && Continues(y, b, c, fs') && (fs == Vol(a) || fs == fs')
    ensures Continues(y, a, c, fs')
  {
    hide VolumeRun;
    assert forall k | 0 <= k < |b.vols| :: c.vols[k] == b.vols[k];
  }

  /** One more step. */
  lemma Step(y: System, tr: Trace, t: State, fs: Fs) returns (tr': Trace)
    requires Legal(y, tr)
    requires Next(y.g, y.budget, Now(tr), t) && VolumeStep(y.g, y.l, y.ipb, Now(tr), t, Vol(tr), fs)
    ensures Continues(y, tr, tr', fs) && Now(tr') == t
  {
    hide Init, Next, VolumeStep, Stores, Sound, GoodLog, HomeOf, Recovered;
    tr' := Trace(tr.run + [t], tr.vols + [fs]);
    var n := |tr.run|;
    forall i | 0 <= i < n
      ensures Next(y.g, y.budget, tr'.run[i], tr'.run[i+1])
      ensures VolumeStep(y.g, y.l, y.ipb, tr'.run[i], tr'.run[i+1], tr'.vols[i], tr'.vols[i+1])
    {
      if i < n - 1 {
        assert Next(y.g, y.budget, tr.run[i], tr.run[i+1]);
        assert VolumeStep(y.g, y.l, y.ipb, tr.run[i], tr.run[i+1], tr.vols[i], tr.vols[i+1]);
      }
    }
    assert Run(y.g, y.budget, tr'.run);
  }

  // ----- begin_op ------------------------------------------------------------------------------

  function FreshOps(n: nat): seq<Op>
  {
    seq(n, i requires 0 <= i < n => Op(i, {}))
  }

  /** What is between transactions, with n operations begun. */
  function Begun(s: State, n: nat): State
  {
    s.(outstanding := n, ops := FreshOps(n))
  }

  lemma QuietFacts(g: Geometry, s: State)
    requires Inv(g, s) && Quiet(s)
    ensures Begun(s, 0) == s && !s.committing
  {
    assert FreshOps(0) == [];
  }

  lemma BegunNext(s: State, n: nat)
    requires Quiet(s) && !s.committing && (n + 1) * MAXOPBLOCKS <= LOGSIZE
    ensures Begin(Begun(s, n), Begun(s, n + 1), n)
  {
    assert FreshOps(n) + [Op(n, {})] == FreshOps(n + 1);
  }

  lemma {:induction false} BeginAll(y: System, tr: Trace, n: nat) returns (tr': Trace)
    requires Legal(y, tr)
    requires Inv(y.g, Now(tr)) && Quiet(Now(tr)) && n * MAXOPBLOCKS <= LOGSIZE
    ensures Continues(y, tr, tr', Vol(tr)) && Now(tr') == Begun(Now(tr), n)
    decreases n
  {
    hide VolumeRun, Inv;
    QuietFacts(y.g, Now(tr));
    if n == 0 {
      tr' := tr;
    } else {
      MulMonotone(n - 1, n, MAXOPBLOCKS);
      var mid := BeginAll(y, tr, n - 1);
      BegunNext(Now(tr), n - 1);
      hide Begin, LogWrite, End, CommitStep, CommitDone, RecoverStep, RecoverDone;
      tr' := Step(y, mid, Begun(Now(tr), n), Vol(tr));
      ContinuesTwice(y, tr, mid, tr', Vol(tr), Vol(tr));
    }
  }

  // ----- log_write -----------------------------------------------------------------------------

  /** The blocks done hold the next volume, and the others the one before. */
  ghost predicate Mixed(y: System, home: Home, now: Fs, next: Fs, done: set<nat>)
  {
    StoredOutside(y.l, y.ipb, home, now, done) && StoredInside(y.l, y.ipb, home, next, done)
  }

  lemma MixedStep(y: System, home: Home, now: Fs, next: Fs, done: set<nat>, b: nat, data: Block)
    requires Mixed(y, home, now, next, done) && y.l.inodestart <= b < y.l.size && StoredAt(y.l, y.ipb, home[b := data], next, b)
    ensures Mixed(y, home[b := data], now, next, done + {b})
  {
    hide GetDinode, InodeOf, FitIn, Remainder, WfLayout;
    forall x | y.l.inodestart <= x < y.l.size && x != b
      ensures x !in done ==> StoredAt(y.l, y.ipb, home[b := data], now, x)
      ensures x in done ==> StoredAt(y.l, y.ipb, home[b := data], next, x)
    {
      assert x !in done ==> StoredAt(y.l, y.ipb, home, now, x);
      assert x in done ==> StoredAt(y.l, y.ipb, home, next, x);
    }
  }

  /** An open transaction: operations run, and what they see holds the volume. */
  ghost predicate Writable(y: System, s: State, p: nat)
  {
    Inv(y.g, s) && s.phase.Idle? && p < |s.ops| && |s.blocks| < Limit(y.g)
  }

  /** The step of log_write, for a block within the budget. */
  lemma LogWriteStep(y: System, s: State, p: nat, b: nat, data: Block) returns (t: State)
    requires Writable(y, s, p) && b in HomeOf(y.g, s.view) && b < UINT_LIMIT && |s.ops[p].used + {b}| <= y.budget
    ensures LogWrite(y.g, y.budget, s, t, p, b, data) && t.phase.Idle? && t.blocks == Absorb(s.blocks, b)
    ensures t.ops == s.ops[p := Op(s.ops[p].id, s.ops[p].used + {b})]
    ensures HomeOf(y.g, t.view) == HomeOf(y.g, s.view)[b := data]
  {
    ReadyKeys(y.g, s.disk, s.view, s.blocks);
    LogWriteReadied(y.g, s.disk, s.view, s.blocks, b, data);
    hide Ready;
    var view: Disk := s.view[b := data];
    t := s.(view := view, blocks := Absorb(s.blocks, b), ops := s.ops[p := s.ops[p].(used := s.ops[p].used + {b})]);
  }

  lemma MixedHome(y: System, home: Home, now: Fs, next: Fs, done: set<nat>, b: nat)
    requires Mixed(y, home, now, next, done) && y.l.inodestart <= b < y.l.size
    ensures Packed(y.l, y.ipb) && WfFs(y.l, next) && b in home && b < UINT_LIMIT
  {
    assert b !in done ==> StoredAt(y.l, y.ipb, home, now, b);
    assert b in done ==> StoredAt(y.l, y.ipb, home, next, b);
  }

  /** Operation p logs block b with the bytes of the next volume. */
  lemma WriteOne(y: System, tr: Trace, p: nat, b: nat, now: Fs, next: Fs, done: set<nat>) returns (tr': Trace)
    requires Legal(y, tr) && Writable(y, Now(tr), p) && |Now(tr).ops[p].used + {b}| <= y.budget
    requires y.l.inodestart <= b < y.l.size && Sound(y.l, next) && Mixed(y, HomeOf(y.g, Now(tr).view), now, next, done)
    ensures Continues(y, tr, tr', Vol(tr)) && Now(tr').phase.Idle? && Now(tr').blocks == Absorb(Now(tr).blocks, b)
    ensures var ops := Now(tr).ops; Now(tr').ops == ops[p := Op(ops[p].id, ops[p].used + {b})]
    ensures Mixed(y, HomeOf(y.g, Now(tr').view), now, next, done + {b})
  {
    hide VolumeRun, HomeOf, Mixed, Sound, WfFs, Packed, StoredAt, LogWrite;
    hide Inv, Begin, End, CommitStep, CommitDone, RecoverStep, RecoverDone;
    var s := Now(tr);
    var home := HomeOf(y.g, s.view);
    MixedHome(y, home, now, next, done, b);
    var data := BlockFor(y.l, y.ipb, home, next, b);
    MixedStep(y, home, now, next, done, b, data);
    var t := LogWriteStep(y, s, p, b, data);
    tr' := Step(y, tr, t, Vol(tr));
  }

  lemma BlockSetMore(q: seq<nat>, k: nat)
    requires k < |q|
    ensures BlockSet(q[..k+1]) == BlockSet(q[..k]) + {q[k]}
  {
    assert q[..k+1] == q[..k] + [q[k]];
  }

  lemma {:induction false} BlockSetSize(q: seq<nat>, k: nat)
    requires k <= |q|
    ensures |BlockSet(q[..k])| <= k
    decreases k
  {
    if k > 0 {
      BlockSetSize(q, k - 1);
      BlockSetMore(q, k - 1);
    } else {
      assert BlockSet(q[..0]) == {};
    }
  }

  /** Operation p has logged the first k blocks of q. */
  ghost predicate Wrote(s: State, t: State, p: nat, q: seq<nat>, k: nat)
  {
    && p < |s.ops| && k <= |q| && t.phase.Idle? && t.ops == s.ops[p := Op(s.ops[p].id, BlockSet(q[..k]))]
    && |t.blocks| <= |s.blocks| + k && BlockSet(t.blocks) == BlockSet(s.blocks) + BlockSet(q[..k])
  }

  lemma WroteMore(s: State, t: State, t': State, p: nat, q: seq<nat>, k: nat)
    requires Wrote(s, t, p, q, k) && k < |q| && t'.phase.Idle? && t'.blocks == Absorb(t.blocks, q[k])
    requires t'.ops == t.ops[p := Op(t.ops[p].id, t.ops[p].used + {q[k]})]
    ensures Wrote(s, t', p, q, k + 1)
  {
    BlockSetMore(q, k);
    assert BlockSet(t'.blocks) == BlockSet(t.blocks) + {q[k]};
  }

  lemma {:induction false} WriteFirst(y: System, tr: Trace, p: nat, now: Fs, next: Fs, q: seq<nat>, k: nat) returns (tr': Trace)
    requires Legal(y, tr) && Now(tr).phase.Idle? && p < |Now(tr).ops| && Now(tr).ops[p].used == {}
    requires k <= |q| <= y.budget && |Now(tr).blocks| + |q| <= Limit(y.g)
    requires forall i | 0 <= i < |q| :: y.l.inodestart <= q[i] < y.l.size
    requires WfFs(y.l, next) && Sound(y.l, next) && Stores(y.l, y.ipb, HomeOf(y.g, Now(tr).view), now)
    ensures Continues(y, tr, tr', Vol(tr)) && Wrote(Now(tr), Now(tr'), p, q, k)
    ensures Mixed(y, HomeOf(y.g, Now(tr').view), now, next, BlockSet(q[..k]))
    decreases k
  {
    hide VolumeRun, HomeOf, Sound, WfFs, Packed, StoredAt, Inv, Hosted, CapInv;
    if k == 0 {
      tr' := tr;
      assert BlockSet(q[..0]) == {};
      assert Now(tr).ops[p := Op(Now(tr).ops[p].id, {})] == Now(tr).ops;
    } else {
      var mid := WriteFirst(y, tr, p, now, next, q, k - 1);
      hide Mixed, Wrote;
      WroteFacts(Now(tr), Now(mid), p, q, k - 1);
      LegalFacts(y, mid);
      tr' := WriteOne(y, mid, p, q[k-1], now, next, BlockSet(q[..k-1]));
      WroteMore(Now(tr), Now(mid), Now(tr'), p, q, k - 1);
      BlockSetMore(q, k - 1);
      ContinuesTwice(y, tr, mid, tr', Vol(tr), Vol(tr));
    }
  }

  lemma WroteFacts(s: State, t: State, p: nat, q: seq<nat>, k: nat)
    requires Wrote(s, t, p, q, k) && k < |q|
    ensures t.phase.Idle? && p < |t.ops| && |t.blocks| <= |s.blocks| + k && |t.ops[p].used + {q[k]}| <= k + 1
  {
    BlockSetMore(q, k);
    BlockSetSize(q, k + 1);
  }

  /** The blocks of a set in some order. */
  lemma {:induction false} ListOf(blocks: set<nat>) returns (q: seq<nat>)
    ensures BlockSet(q) == blocks && |q| == |blocks|
    decreases |blocks|
  {
    if b :| b in blocks {
      var rest := ListOf(blocks - {b});
      q := rest + [b];
      assert BlockSet(q) == BlockSet(rest) + {b};
    } else {
      q := [];
    }
  }

  /** The logged blocks that hold inodes, bitmap or data. */
  ghost function Within(l: Layout, logged: set<nat>): set<nat>
  {
    set b | b in logged && l.inodestart <= b < l.size
  }

  lemma OperationWithin(l: Layout, ipb: nat, fs: Fs, fs': Fs, logged: set<nat>)
    requires Operation(l, ipb, fs, fs', logged) && Packed(l, ipb)
    ensures Operation(l, ipb, fs, fs', Within(l, logged)) && |Within(l, logged)| <= |logged|
  {
    SubsetSize(Within(l, logged), logged);
    hide Sound, FitIn, IBlock;
    forall i | 0 <= i < |fs'.inodes| && IBlock(l, ipb, i) !in Within(l, logged)
      ensures fs'.inodes[i] == fs.inodes[i]
    {
      InodeBlockIn(l, ipb, i);
    }
  }

  lemma InodeBlockIn(l: Layout, ipb: nat, i: nat)
    requires Packed(l, ipb) && i < l.ninodes
    ensures l.inodestart <= IBlock(l, ipb, i) < l.bmapstart
  {
  }

  /** Operation p runs: what operations see goes from one volume to the next. */
  lemma WriteAll(y: System, tr: Trace, p: nat, now: Fs, next: Fs, logged: set<nat>) returns (tr': Trace, q: seq<nat>)
    requires Legal(y, tr) && Now(tr).phase.Idle? && p < |Now(tr).ops| && Now(tr).ops[p].used == {}
    requires |logged| <= y.budget && |Now(tr).blocks| + |logged| <= Limit(y.g)
    requires Operation(y.l, y.ipb, now, next, logged) && Sound(y.l, now)
    requires Stores(y.l, y.ipb, HomeOf(y.g, Now(tr).view), now)
    ensures Continues(y, tr, tr', Vol(tr)) && |q| <= |logged| && Wrote(Now(tr), Now(tr'), p, q, |q|)
    ensures Operation(y.l, y.ipb, now, next, BlockSet(q)) && Sound(y.l, next)
    ensures Stores(y.l, y.ipb, HomeOf(y.g, Now(tr').view), next)
  {
    OperationWithin(y.l, y.ipb, now, next, logged);
    q := ListOf(Within(y.l, logged));
    assert forall i | 0 <= i < |q| :: q[i] in BlockSet(q);
    hide VolumeRun, HomeOf, Sound, StoredOutside, StoredInside, Wrote;
    tr' := WriteFirst(y, tr, p, now, next, q, |q|);
    assert q[..|q|] == q;
    GroupStored(y.l, y.ipb, HomeOf(y.g, Now(tr').view), now, next, BlockSet(q));
  }

  // ----- A group of operations -------------------------------------------------------------------

  /** Volumes one after the other, each made from the one before by an operation within the budget. */
  ghost predicate Group(y: System, fss: seq<Fs>, logs: seq<set<nat>>)
  {
    && |fss| == |logs| + 1
    && forall p | 0 <= p < |logs| :: Operation(y.l, y.ipb, fss[p], fss[p+1], logs[p]) && |logs[p]| <= y.budget
  }

  function Total(logs: seq<set<nat>>): nat
  {
    if logs == [] then 0 else Total(logs[..|logs|-1]) + |logs[|logs|-1]|
  }

  lemma {:induction false} TotalPrefix(logs: seq<set<nat>>, p: nat)
    requires p < |logs|
    ensures Total(logs[..p+1]) == Total(logs[..p]) + |logs[p]| && Total(logs[..p+1]) <= Total(logs)
    decreases |logs|
  {
    assert logs[..p+1][..p] == logs[..p];
    if p == |logs| - 1 {
      assert logs[..p+1] == logs;
    } else {
      TotalPrefix(logs[..|logs|-1], p);
      assert logs[..|logs|-1][..p+1] == logs[..p+1] && logs[..|logs|-1][..p] == logs[..p];
    }
  }

  lemma OperationNone(l: Layout, ipb: nat, fs: Fs)
    requires WfFs(l, fs) && ipb > 0
    ensures Operation(l, ipb, fs, fs, {})
  {
  }

  /** The first p operations of the group have run. */
  ghost predicate GroupAt(y: System, s: State, fss: seq<Fs>, logs: seq<set<nat>>, p: nat)
  {
    && p <= |logs| == |s.ops| && |fss| == |logs| + 1 && s.phase.Idle?
    && (forall j | p <= j < |s.ops| :: s.ops[j].used == {})
    && |s.blocks| <= Total(logs[..p])
    && Stores(y.l, y.ipb, HomeOf(y.g, s.view), fss[p]) && Sound(y.l, fss[p])
    && Operation(y.l, y.ipb, fss[0], fss[p], BlockSet(s.blocks))
  }

  lemma GroupMore(y: System, s: State, t: State, fss: seq<Fs>, logs: seq<set<nat>>, p: nat, q: seq<nat>)
    requires GroupAt(y, s, fss, logs, p) && p < |logs| && Wrote(s, t, p, q, |q|) && |q| <= |logs[p]|
    requires Operation(y.l, y.ipb, fss[p], fss[p+1], BlockSet(q)) && Sound(y.l, fss[p+1])
    requires Stores(y.l, y.ipb, HomeOf(y.g, t.view), fss[p+1])
    ensures GroupAt(y, t, fss, logs, p + 1)
  {
    hide HomeOf, Stores, Sound, Operation, BlockSet;
    TotalPrefix(logs, p);
    assert q[..|q|] == q;
    OperationThen(y.l, y.ipb, fss[0], fss[p], fss[p+1], BlockSet(s.blocks), BlockSet(q));
  }

  lemma {:induction false} WriteGroup(y: System, tr: Trace, fss: seq<Fs>, logs: seq<set<nat>>, p: nat) returns (tr': Trace)
    requires Legal(y, tr) && Group(y, fss, logs) && Total(logs) <= Limit(y.g)
    requires GroupAt(y, Now(tr), fss, logs, 0) && p <= |logs|
    ensures Continues(y, tr, tr', Vol(tr)) && GroupAt(y, Now(tr'), fss, logs, p)
    decreases p
  {
    hide VolumeRun, HomeOf, Sound, Operation, Stores;
    if p == 0 {
      tr' := tr;
    } else {
      var mid := WriteGroup(y, tr, fss, logs, p - 1);
      TotalPrefix(logs, p - 1);
      var q;
      tr', q := WriteAll(y, mid, p - 1, fss[p-1], fss[p], logs[p-1]);
      hide GroupAt, Wrote;
      GroupMore(y, Now(mid), Now(tr'), fss, logs, p - 1, q);
      ContinuesTwice(y, tr, mid, tr', Vol(tr), Vol(tr));
    }
  }

  // ----- end_op ----------------------------------------------------------------------------------

  lemma StoresInside(l: Layout, ipb: nat, home: Home, fs: Fs, changed: set<nat>)
    requires Stores(l, ipb, home, fs)
    ensures StoredInside(l, ipb, home, fs, changed)
  {
    hide StoredAt;
  }

  /** The step of end_op. */
  lemma EndStep(y: System, s: State) returns (t: State)
    requires Inv(y.g, s) && s.phase.Idle? && s.ops != []
    ensures End(y.g, s, t, 0) && t.ops == s.ops[1..] && t.view == s.view && t.blocks == s.blocks
    ensures if |s.ops| == 1 then t.phase.Committing? else t.phase.Idle?
  {
    t := s.(outstanding := s.outstanding - 1, ops := Drop(s.ops, 0));
    assert Drop(s.ops, 0) == s.ops[1..];
    if t.outstanding == 0 {
      t := t.(committing := true, phase := Committing(s.disk, s.view, 0));
    }
  }

  /** Every operation ends; with the last one the volume is the group's. */
  lemma {:induction false} EndAll(y: System, tr: Trace, next: Fs) returns (tr': Trace)
    requires Legal(y, tr) && Now(tr).phase.Idle? && Now(tr).ops != []
    requires Stores(y.l, y.ipb, HomeOf(y.g, Now(tr).view), next)
    requires Operation(y.l, y.ipb, Vol(tr), next, BlockSet(Now(tr).blocks))
    ensures Continues(y, tr, tr', next) && Now(tr').phase.Committing?
    decreases |Now(tr).ops|
  {
    hide VolumeRun, HomeOf, Sound, Operation, Stores, Inv, Hosted, CapInv, StoredInside, BlockSet;
    LegalFacts(y, tr);
    var s := Now(tr);
    var t := EndStep(y, s);
    StoresInside(y.l, y.ipb, HomeOf(y.g, s.view), next, BlockSet(s.blocks));
    hide Begin, LogWrite, End, CommitStep, CommitDone, RecoverStep, RecoverDone;
    if |s.ops| == 1 {
      tr' := Step(y, tr, t, next);
    } else {
      var mid := Step(y, tr, t, Vol(tr));
      tr' := EndAll(y, mid, next);
      ContinuesTwice(y, tr, mid, tr', Vol(tr), next);
    }
  }

  // ----- commit ----------------------------------------------------------------------------------

  /** commit goes on to its end. */
  lemma {:induction false} CommitAll(y: System, tr: Trace) returns (tr': Trace)
    requires Legal(y, tr) && Now(tr).phase.Committing?
    ensures Continues(y, tr, tr', Vol(tr)) && Quiet(Now(tr'))
    decreases CommitLeft(y.g, Now(tr))
  {
    hide VolumeRun, HomeOf, Stores, Sound, Hosted, CapInv;
    hide Inv, Begin, LogWrite, End, CommitStep, CommitDone, RecoverStep, RecoverDone, CommitLeft;
    LegalFacts(y, tr);
    var s := Now(tr);
    var t := CommitNext(y.g, s);
    var mid := Step(y, tr, t, Vol(tr));
    if t.phase.Idle? {
      tr' := mid;
    } else {
      tr' := CommitAll(y, mid);
      ContinuesTwice(y, tr, mid, tr', Vol(tr), Vol(tr));
    }
  }

  ghost function CommitLeft(g: Geometry, s: State): nat
  {
    if s.phase.Committing? && HasLog(g, s.phase.target) && HomeBlocks(g, s.phase.target, s.blocks)
         && s.phase.done <= |CommitWrites(g, s.phase.target, s.blocks)|
    then |CommitWrites(g, s.phase.target, s.blocks)| - s.phase.done + 1
    else 0
  }

  lemma CommitNext(g: Geometry, s: State) returns (t: State)
    requires Inv(g, s) && s.phase.Committing?
    ensures s.ops == [] && t.ops == [] && (CommitStep(g, s, t) || CommitDone(g, s, t))
    ensures t.phase.Idle? ==> Quiet(t)
    ensures !t.phase.Idle? ==> t.phase.Committing? && CommitLeft(g, t) < CommitLeft(g, s)
  {
    hide Ready, HasLog, HomeBlocks, CommitWrites;
    var ws := CommitWrites(g, s.phase.target, s.blocks);
    if s.phase.done < |ws| {
      var w := ws[s.phase.done];
      var disk: Disk := s.disk[w.blockno := w.data];
      var view: Disk := s.view[w.blockno := w.data];
      t := s.(disk := disk, view := view, phase := Committing(s.phase.from, s.phase.target, s.phase.done + 1));
    } else {
      t := s.(blocks := [], committing := false, phase := Idle);
    }
  }

  // ----- Whole groups ----------------------------------------------------------------------------

  /**
   * Any operations that can be let in together and fit in the log are a stretch of a run: all begin, write
   * their blocks and end, and the commit completes.  The volume then is the one they make.
   */
  lemma GroupRuns(y: System, tr: Trace, fss: seq<Fs>, logs: seq<set<nat>>) returns (tr': Trace)
    requires Legal(y, tr) && Quiet(Now(tr)) && Group(y, fss, logs) && logs != [] && fss[0] == Vol(tr)
    requires |logs| * MAXOPBLOCKS <= LOGSIZE && Total(logs) <= Limit(y.g)
    ensures Continues(y, tr, tr', fss[|logs|]) && Quiet(Now(tr'))
  {
    hide VolumeRun, Inv, Hosted, CapInv, GroupAt, FreshOps, Operation, Stores, HomeOf, Sound;
    LegalFacts(y, tr);
    var a := BeginAll(y, tr, |logs|);
    BegunGroup(y, Now(tr), fss, logs);
    var b := WriteGroup(y, a, fss, logs, |logs|);
    GroupDone(y, Now(b), fss, logs);
    var c := EndAll(y, b, fss[|logs|]);
    tr' := CommitAll(y, c);
    ContinuesTwice(y, tr, a, b, Vol(tr), Vol(tr));
    ContinuesTwice(y, tr, b, c, Vol(tr), fss[|logs|]);
    ContinuesTwice(y, tr, c, tr', fss[|logs|], fss[|logs|]);
  }

  lemma BegunGroup(y: System, s: State, fss: seq<Fs>, logs: seq<set<nat>>)
    requires |fss| == |logs| + 1 && Hosted(y.g, y.l, y.ipb, s, fss[0]) && CapInv(y.budget, s) && Quiet(s)
    ensures GroupAt(y, Begun(s, |logs|), fss, logs, 0)
  {
    RestingStores(y.g, y.l, y.ipb, y.budget, s, fss[0]);
    hide Inv, Sound, HomeOf, StoredAt;
    assert BlockSet([]) == {} && logs[..0] == [];
    OperationNone(y.l, y.ipb, fss[0]);
  }

  lemma GroupDone(y: System, s: State, fss: seq<Fs>, logs: seq<set<nat>>)
    requires GroupAt(y, s, fss, logs, |logs|) && logs != []
    ensures s.phase.Idle? && s.ops != [] && Stores(y.l, y.ipb, HomeOf(y.g, s.view), fss[|logs|])
    ensures Operation(y.l, y.ipb, fss[0], fss[|logs|], BlockSet(s.blocks))
  {
  }

  // ----- From a disk ----------------------------------------------------------------------------

  lemma {:induction false} RecoverAll(y: System, tr: Trace) returns (tr': Trace)
    requires Legal(y, tr) && Now(tr).phase.Recovering?
    ensures Continues(y, tr, tr', Vol(tr)) && Quiet(Now(tr'))
    decreases RecoverLeft(y.g, Now(tr))
  {
    hide VolumeRun, HomeOf, Stores, Sound, Hosted, CapInv;
    hide Inv, Begin, LogWrite, End, CommitStep, CommitDone, RecoverStep, RecoverDone, RecoverLeft;
    LegalFacts(y, tr);
    var s := Now(tr);
    var t := RecoverNext(y.g, s);
    var mid := Step(y, tr, t, Vol(tr));
    if t.phase.Idle? {
      tr' := mid;
    } else {
      tr' := RecoverAll(y, mid);
      ContinuesTwice(y, tr, mid, tr', Vol(tr), Vol(tr));
    }
  }

  ghost function RecoverLeft(g: Geometry, s: State): nat
  {
    if s.phase.Recovering? && GoodLog(g, s.phase.from) && s.phase.done <= |RecoverWrites(g, s.phase.from)|
    then |RecoverWrites(g, s.phase.from)| - s.phase.done + 1
    else 0
  }

  lemma RecoverNext(g: Geometry, s: State) returns (t: State)
    requires Inv(g, s) && s.phase.Recovering?
    ensures s.ops == [] && t.ops == [] && !Crash(s, t) && (RecoverStep(g, s, t) || RecoverDone(g, s, t))
    ensures t.phase.Idle? ==> Quiet(t)
    ensures !t.phase.Idle? ==> t.phase.Recovering? && RecoverLeft(g, t) < RecoverLeft(g, s)
  {
    hide GoodLog, RecoverWrites;
    var ws := RecoverWrites(g, s.phase.from);
    if s.phase.done < |ws| {
      var w := ws[s.phase.done];
      var disk: Disk := s.disk[w.blockno := w.data];
      t := s.(disk := disk, view := disk, phase := Recovering(s.phase.from, s.phase.done + 1));
    } else {
      t := s.(phase := Idle);
    }
  }

  /** A disk that recovers to a sound volume. */
  ghost predicate Bootable(y: System, d: Disk, fs: Fs)
  {
    GoodLog(y.g, d) && Stores(y.l, y.ipb, HomeOf(y.g, Recovered(y.g, d)), fs) && Sound(y.l, fs)
  }

  /** Booting: recovery completes, with the volume the disk recovers to. */
  lemma Boot(y: System, d: Disk, fs: Fs) returns (tr: Trace)
    requires y.budget <= MAXOPBLOCKS && Bootable(y, d, fs)
    ensures Legal(y, tr) && tr.run[0].disk == d && Vol(tr) == fs && Quiet(Now(tr)) && Among(tr, [fs])
  {
    hide GoodLog, Stores, Sound, HomeOf, Recovered;
    var start := Trace([State(d, d, [], 0, false, [], Recovering(d, 0))], [fs]);
    assert Legal(y, start);
    tr := RecoverAll(y, start);
  }

  /** Every sequence of operations that fit in the log, one transaction each, is in some run, from any good disk. */
  lemma {:induction false} History(y: System, d: Disk, fss: seq<Fs>, logs: seq<set<nat>>) returns (tr: Trace)
    requires y.budget <= MAXOPBLOCKS <= LOGSIZE && Group(y, fss, logs) && Bootable(y, d, fss[0])
    requires forall p | 0 <= p < |logs| :: |logs[p]| <= Limit(y.g)
    ensures Legal(y, tr) && tr.run[0].disk == d && Vol(tr) == fss[|logs|] && Quiet(Now(tr))
    ensures Among(tr, fss) && forall p | 0 <= p <= |logs| :: Visited(tr, fss[p])
    decreases |logs|
  {
    hide VolumeRun, Bootable, Operation;
    var n := |logs|;
    if n == 0 {
      tr := Boot(y, d, fss[0]);
      assert Visited(tr, fss[0]) && fss == [fss[0]];
    } else {
      var before := History(y, d, fss[..n], logs[..n-1]);
      var group, last := [fss[n-1], fss[n]], [logs[n-1]];
      assert Group(y, group, last);
      assert Total(last[..0]) == 0 && last[..0] == [];
      tr := GroupRuns(y, before, group, last);
      AmongMore(y, before, tr, fss[..n], fss);
      forall p | 0 <= p <= n
        ensures Visited(tr, fss[p])
      {
        if p < n {
          assert fss[..n][p] == fss[p];
          VisitedStays(before, tr, fss[p]);
        }
      }
    }
  }

  /** The run has these volumes and no others. */
  ghost predicate Among(tr: Trace, fss: seq<Fs>)
  {
    forall k | 0 <= k < |tr.vols| :: tr.vols[k] in fss
  }

  lemma AmongMore(y: System, tr: Trace, tr': Trace, some: seq<Fs>, fss: seq<Fs>)
    requires Among(tr, some) && some <= fss && fss != [] && Continues(y, tr, tr', fss[|fss| - 1])
    ensures Among(tr', fss)
  {
    hide VolumeRun;
    forall k | 0 <= k < |tr'.vols|
      ensures tr'.vols[k] in fss
    {
      if k < |tr.vols| {
        assert tr'.vols[k] == tr.vols[k];
      } else {
        assert Vol(tr) in some;
      }
    }
  }

  /** The volume is one between transactions. */
  ghost predicate Visited(tr: Trace, fs: Fs)
  {
    |tr.vols| == |tr.run| && exists k :: 0 <= k < |tr.run| && Quiet(tr.run[k]) && tr.vols[k] == fs
  }

  lemma VisitedStays(tr: Trace, tr': Trace, fs: Fs)
    requires Visited(tr, fs) && Grows(tr, tr') && |tr'.vols| == |tr'.run|
    ensures Visited(tr', fs)
  {
    var k :| 0 <= k < |tr.run| && Quiet(tr.run[k]) && tr.vols[k] == fs;
    assert tr'.run[k] == tr.run[k] && tr'.vols[k] == fs;
  }

  /** Wherever such a run is cut short, recovery leaves one of its volumes, sound, on the disk: no operation is half in. */
  lemma HistoryCrash(y: System, tr: Trace, fss: seq<Fs>, i: nat) returns (p: nat)
    requires Legal(y, tr) && Among(tr, fss) && i < |tr.run|
    ensures p < |fss| && Bootable(y, tr.run[i].disk, fss[p])
  {
    hide Stores, Sound, HomeOf, Recovered, GoodLog, Quiet;
    var j := VolumeCrashSafety(y.g, y.l, y.ipb, y.budget, tr.run, tr.vols, i);
    assert tr.vols[j] in fss;
    p :| 0 <= p < |fss| && fss[p] == tr.vols[j];
  }

  // ----- The disk mkfs makes ---------------------------------------------------------------------

  /** The disk mkfs writes for an image: an empty log, the inodes' records in zeroed blocks, the bitmap and the data. */
  ghost predicate Imaged(y: System, d: Disk, fs: Fs, ds: seq<Dinode>)
  {
    && Packed(y.l, y.ipb) && WfFs(y.l, fs) && Records(y.l, fs, ds)
    && 0 < y.g.size && y.g.start + y.g.size <= y.l.inodestart
    && (forall b: nat | b < y.l.size :: b in d)
    && (forall b: nat | InLog(y.g, b) :: b in d && d[b] == ZeroBlock())
    && (forall b: nat | y.l.inodestart <= b < y.l.bmapstart && b in d ::
          d[b] == PutDinodes(y.l, y.ipb, ZeroBlock(), ds, b, y.l.ninodes))
    && (forall b: nat | y.l.bmapstart <= b < y.l.size && b in d :: d[b] == fs.blocks[b])
  }

  lemma ImagedStores(y: System, d: Disk, fs: Fs, ds: seq<Dinode>, home: Home)
    requires Imaged(y, d, fs, ds) && forall b | b in d && !InLog(y.g, b) :: b in home && home[b] == d[b]
    ensures Stores(y.l, y.ipb, home, fs)
  {
    hide GetDinode, InodeOf, FitIn, Remainder, IBlock, ZeroBlock, PutDinodes, Records;
    forall b | y.l.inodestart <= b < y.l.size
      ensures StoredAt(y.l, y.ipb, home, fs, b)
    {
      assert b in d && !InLog(y.g, b);
      if b < y.l.bmapstart {
        var zeroed: Home := home[b := ZeroBlock()];
        RecordsStored(y.l, y.ipb, zeroed, fs, ds, b);
        assert zeroed[b := home[b]] == home;
      }
    }
  }

  lemma ImagedLog(y: System, d: Disk, fs: Fs, ds: seq<Dinode>)
    requires Imaged(y, d, fs, ds)
    ensures GoodLog(y.g, d)
    ensures var home := HomeOf(y.g, Recovered(y.g, d)); forall b | b in d && !InLog(y.g, b) :: b in home && home[b] == d[b]
  {
    ZeroWords();
    assert InLog(y.g, y.g.start);
    EmptyHead(d[y.g.start]);
    hide ZeroBlock, PutDinodes, Records, Packed, WfFs;
    RecoveredIs(y.g, d);
  }

  /** The image boots, with the files mkfs was given, exactly when the root directory did not fill its last block. */
  lemma ImageBoots(y: System, d: Disk, fs: Fs, ds: seq<Dinode>, owner: map<nat, Slot>, want: seq<seq<byte>>)
    requires Imaged(y, d, fs, ds) && FsInv(y.l, fs, owner) && Mkfs.RoundingTells(y.l, fs, want)
    ensures Bootable(y, d, fs) <==> Remainder(|want[1]|, BSIZE) != 0
  {
    ImagedLog(y, d, fs, ds);
    ImagedStores(y, d, fs, ds, HomeOf(y.g, Recovered(y.g, d)));
    hide Imaged, GoodLog, HomeOf, Recovered, FsInv, AllFiles, Stores;
    assert Sound(y.l, fs) <==> AllFiles(y.l, fs);
  }
}
