/**
 * The redo log of xv6/log.c: the in-memory header, the copying loops, commit and recovery,
 * running over the buffer cache.
 */
module Log {
  import opened Blocks
  import opened Common
  import opened BufferCache
  import opened LogSpec
  import opened LogCopy

  // ----- What writes do to the cache and the disk --------------------------------------

  /** The disks, the latest value of every block, and the writes performed so far. */
  datatype Contents = Contents(disks: map<nat, Disk>, latest: map<nat, Disk>, writes: seq<DiskWrite>)

  ghost function ContentsOf(bc: BCache): Contents
    reads bc
  {
    Contents(bc.disks, bc.latest, bc.writes)
  }

  function OnDev(dev: nat, ws: seq<Write>): (r: seq<DiskWrite>)
    ensures |r| == |ws|
  {
    seq(|ws|, t requires 0 <= t < |ws| => DiskWrite(dev, ws[t].blockno, ws[t].data))
  }

  ghost predicate HasDev(c: Contents, dev: nat)
  {
    dev != 0 && dev in c.disks && dev in c.latest && c.latest[dev].Keys == c.disks[dev].Keys
  }

  /** The contents after the writes ws on device dev. */
  ghost function After(c: Contents, dev: nat, ws: seq<Write>): Contents
    requires HasDev(c, dev)
  {
    Contents(c.disks[dev := Apply(c.disks[dev], ws)], c.latest[dev := Apply(c.latest[dev], ws)], c.writes + OnDev(dev, ws))
  }

  ghost function Stored(c: Contents, dev: nat, blockno: nat, data: Block): Contents
    requires HasDev(c, dev)
  {
    Contents(PutBlock(c.disks, dev, blockno, data), PutBlock(c.latest, dev, blockno, data),
             c.writes + [DiskWrite(dev, blockno, data)])
  }

  lemma AfterKeys(c: Contents, dev: nat, ws: seq<Write>)
    requires HasDev(c, dev) && forall t | 0 <= t < |ws| :: ws[t].blockno in c.disks[dev]
    ensures HasDev(After(c, dev, ws), dev) && After(c, dev, ws).disks[dev].Keys == c.disks[dev].Keys
  {
    ApplyKeys(c.disks[dev], ws);
    ApplyKeys(c.latest[dev], ws);
  }

  lemma AfterConcat(c: Contents, dev: nat, a: seq<Write>, b: seq<Write>)
    requires HasDev(c, dev) && HasDev(After(c, dev, a), dev)
    ensures After(After(c, dev, a), dev, b) == After(c, dev, a + b)
  {
    hide Apply;
    ApplyConcat(c.disks[dev], a, b);
    ApplyConcat(c.latest[dev], a, b);
    assert OnDev(dev, a + b) == OnDev(dev, a) + OnDev(dev, b);
  }

  lemma AfterOne(c: Contents, dev: nat, w: Write)
    requires HasDev(c, dev)
    ensures After(c, dev, [w]) == Stored(c, dev, w.blockno, w.data)
  {
    assert Apply(c.disks[dev], [w]) == c.disks[dev][w.blockno := w.data];
    assert Apply(c.latest[dev], [w]) == c.latest[dev][w.blockno := w.data];
  }

  /** The contents after the first k of the writes. */
  ghost function AfterFirst(c: Contents, dev: nat, ws: seq<Write>, k: nat): Contents
    requires HasDev(c, dev) && k <= |ws|
  {
    After(c, dev, ws[..k])
  }

  lemma AfterFirstEnds(c: Contents, dev: nat, ws: seq<Write>)
    requires HasDev(c, dev)
    ensures AfterFirst(c, dev, ws, 0) == c && AfterFirst(c, dev, ws, |ws|) == After(c, dev, ws)
  {
    assert ws[..0] == [] && ws[..|ws|] == ws;
  }

  // ----- One step of a copying loop ------------------------------------------------------

  /** Nobody else uses a buffer, the contents are c, and pins are the pinned blocks. */
  ghost predicate At(bc: BCache, c: Contents, pins: set<Key>)
    reads bc
  {
    CanCopy(bc) && PinnedKeys(bc.buf) == pins && ContentsOf(bc) == c
  }

  ghost function KeysOn(dev: nat, blocks: seq<nat>): set<Key>
  {
    set b | b in blocks :: Key(dev, b)
  }

  /** Copying between logb and home, after the first k of the writes ws, is the write ws[k]. */
  ghost predicate StepIs(c: Contents, dev: nat, logb: nat, home: nat, toLog: bool, ws: seq<Write>, k: nat)
  {
    && HasDev(c, dev) && logb != home && k < |ws|
    && HasDev(AfterFirst(c, dev, ws, k), dev)
    && var view := AfterFirst(c, dev, ws, k).latest[dev];
    && logb in view && home in view
    && ws[k] == if toLog then Write(logb, view[home]) else Write(home, view[logb])
  }

  method CopyStep(bc: BCache, dev: nat, logb: nat, home: nat, toLog: bool, ghost c: Contents, ghost ws: seq<Write>,
                  ghost k: nat, ghost pins: set<Key>)
    requires StepIs(c, dev, logb, home, toLog, ws, k)
    requires At(bc, AfterFirst(c, dev, ws, k), pins)
    requires |pins| + 1 < NBUF || Key(dev, home) in pins
    modifies bc
    ensures At(bc, AfterFirst(c, dev, ws, k + 1), pins - {Key(dev, if toLog then logb else home)})
  {
    AfterOne(AfterFirst(c, dev, ws, k), dev, ws[k]);
    AfterConcat(c, dev, ws[..k], [ws[k]]);
    assert ws[..k] + [ws[k]] == ws[..k+1];
    hide After, AfterFirst, CanCopy, PinnedKeys;
    CopyBlock(bc, dev, logb, home, toLog);
  }

  /** The blocks can be logged on dev: it has a log, and they are home blocks. */
  ghost predicate Loggable(g: Geometry, dev: nat, c: Contents, blocks: seq<nat>)
  {
    && HasDev(c, dev) && HasLog(g, c.latest[dev]) && HomeBlocks(g, c.latest[dev], blocks)
  }

  // ----- write_log -------------------------------------------------------------------------

  /** Everything the body of write_log's loop relies on. */
  lemma LogTargets(g: Geometry, dev: nat, c: Contents, blocks: seq<nat>, ws: seq<Write>, t: nat)
    requires Loggable(g, dev, c, blocks) && t < |blocks|
    requires ws == LogWrites(g, c.latest[dev], blocks)
    ensures StepIs(c, dev, g.start + t + 1, blocks[t], true, ws, t)
    ensures Key(dev, blocks[t]) in KeysOn(dev, blocks)
    ensures KeysOn(dev, blocks) - {Key(dev, g.start + t + 1)} == KeysOn(dev, blocks)
  {
    forall k | 0 <= k < |ws| ensures ws[k].blockno in c.disks[dev] && InLog(g, ws[k].blockno) {
      assert InLog(g, g.start + 1 + k);
    }
    assert InLog(g, g.start + t + 1);
    AfterKeys(c, dev, ws[..t]);
    ApplyMiss(c.latest[dev], ws[..t], blocks[t]);
  }

  /** The loop of write_log. */
  method LogLoop(bc: BCache, g: Geometry, dev: nat, blocks: seq<nat>, ghost c: Contents, ghost ws: seq<Write>,
                 ghost pins: set<Key>)
    requires Loggable(g, dev, c, blocks) && ws == LogWrites(g, c.latest[dev], blocks) && pins == KeysOn(dev, blocks)
    requires At(bc, AfterFirst(c, dev, ws, 0), pins)
    modifies bc
    ensures At(bc, AfterFirst(c, dev, ws, |blocks|), pins)
  {
    hide LogWrites, StepIs, At, AfterFirst, KeysOn, HasLog, HomeBlocks;
    for tail := 0 to |blocks|
      invariant At(bc, AfterFirst(c, dev, ws, tail), pins)
    {
      LogTargets(g, dev, c, blocks, ws, tail);
      CopyStep(bc, dev, g.start + tail + 1, blocks[tail], true, c, ws, tail, pins);
    }
  }

  /** write_log, for the blocks of the in-memory header. */
  method WriteLog(bc: BCache, g: Geometry, dev: nat, blocks: seq<nat>, ghost c: Contents)
    requires Loggable(g, dev, c, blocks) && At(bc, c, KeysOn(dev, blocks))
    modifies bc
    ensures At(bc, After(c, dev, LogWrites(g, c.latest[dev], blocks)), KeysOn(dev, blocks))
  {
    ghost var ws := LogWrites(g, c.latest[dev], blocks);
    AfterFirstEnds(c, dev, ws);
    LogLoop(bc, g, dev, blocks, c, ws, KeysOn(dev, blocks));
  }

  // ----- install_trans ---------------------------------------------------------------------

  /** The blocks still pinned after t installs: none to begin with when recovering. */
  ghost function PinsLeft(pinned: bool, dev: nat, blocks: seq<nat>, t: nat): set<Key>
    requires t <= |blocks|
  {
    if pinned then KeysOn(dev, blocks[t..]) else {}
  }

  lemma PinsLeftStep(pinned: bool, dev: nat, blocks: seq<nat>, t: nat)
    requires t < |blocks| && Distinct(blocks)
    ensures PinsLeft(pinned, dev, blocks, t) - {Key(dev, blocks[t])} == PinsLeft(pinned, dev, blocks, t + 1)
    ensures |PinsLeft(pinned, dev, blocks, t)| + 1 < NBUF || Key(dev, blocks[t]) in PinsLeft(pinned, dev, blocks, t)
  {
    var a, b := blocks[t..], blocks[t+1..];
    assert a == [blocks[t]] + b;
    assert forall x | x in b :: x in a;
    assert forall x | x in a && x != blocks[t] :: x in b;
    assert blocks[t] in a && blocks[t] !in b;
    assert !pinned ==> |PinsLeft(pinned, dev, blocks, t)| == 0;
  }

  /** Everything the body of install_trans's loop relies on. */
  lemma InstallTargets(g: Geometry, dev: nat, c: Contents, blocks: seq<nat>, ws: seq<Write>, t: nat)
    requires Loggable(g, dev, c, blocks) && t < |blocks|
    requires ws == InstallWrites(g, c.latest[dev], blocks)
    ensures StepIs(c, dev, g.start + t + 1, blocks[t], false, ws, t)
    ensures Distinct(blocks)
  {
    assert forall k | 0 <= k < |ws| :: ws[k].blockno in c.disks[dev] && !InLog(g, ws[k].blockno);
    assert InLog(g, g.start + t + 1);
    AfterKeys(c, dev, ws[..t]);
    ApplyMiss(c.latest[dev], ws[..t], g.start + t + 1);
  }

  /** The loop of install_trans. */
  method InstallLoop(bc: BCache, g: Geometry, dev: nat, blocks: seq<nat>, ghost c: Contents, ghost ws: seq<Write>,
                     ghost pinned: bool)
    requires Loggable(g, dev, c, blocks) && ws == InstallWrites(g, c.latest[dev], blocks)
    requires At(bc, AfterFirst(c, dev, ws, 0), PinsLeft(pinned, dev, blocks, 0))
    modifies bc
    ensures At(bc, AfterFirst(c, dev, ws, |blocks|), PinsLeft(pinned, dev, blocks, |blocks|))
  {
    hide InstallWrites, StepIs, At, AfterFirst, PinsLeft, HasLog, HomeBlocks;
    for tail := 0 to |blocks|
      invariant At(bc, AfterFirst(c, dev, ws, tail), PinsLeft(pinned, dev, blocks, tail))
    {
      InstallTargets(g, dev, c, blocks, ws, tail);
      PinsLeftStep(pinned, dev, blocks, tail);
      CopyStep(bc, dev, g.start + tail + 1, blocks[tail], false, c, ws, tail, PinsLeft(pinned, dev, blocks, tail));
    }
  }

  /** install_trans, during commit (the blocks are pinned) or recovery (nothing is). */
  method InstallTrans(bc: BCache, g: Geometry, dev: nat, blocks: seq<nat>, ghost c: Contents, ghost pinned: bool)
    requires Loggable(g, dev, c, blocks) && At(bc, c, if pinned then KeysOn(dev, blocks) else {})
    modifies bc
    ensures At(bc, After(c, dev, InstallWrites(g, c.latest[dev], blocks)), {})
  {
    ghost var ws := InstallWrites(g, c.latest[dev], blocks);
    AfterFirstEnds(c, dev, ws);
    assert blocks[0..] == blocks && PinsLeft(pinned, dev, blocks, |blocks|) == {};
    InstallLoop(bc, g, dev, blocks, c, ws, pinned);
  }

  // ----- The header --------------------------------------------------------------------------

  /** The stores of write_head into the header block. */
  method FillHead(h: Block, blocks: seq<nat>) returns (r: Block)
    requires |blocks| <= LOGSIZE && forall k | 0 <= k < |blocks| :: blocks[k] < UINT_LIMIT
    ensures r == EncodeHead(h, blocks)
  {
    r := PutWord(h, 0, |blocks|);
    for i := 0 to |blocks|
      invariant r == PutWords(PutWord(h, 0, |blocks|), 1, blocks[..i])
    {
      assert blocks[..i+1][..i] == blocks[..i];
      r := PutWord(r, i + 1, blocks[i]);
    }
    assert blocks[..|blocks|] == blocks;
  }

  /** The loads of read_head. */
  method LoadHead(h: Block, block: seq<nat>) returns (n: nat, block': seq<nat>)
    requires HeadCount(h) <= LOGSIZE && |block| == LOGSIZE
    ensures |block'| == LOGSIZE && n == HeadCount(h) && block'[..n] == HeadBlocks(h)
  {
    n, block' := GetWord(h, 0), block;
    for i := 0 to n
      invariant |block'| == LOGSIZE
      invariant forall k | 0 <= k < i :: block'[k] == GetWord(h, k + 1)
    {
      block' := block'[i := GetWord(h, i + 1)];
    }
  }

  lemma HeadFacts(g: Geometry, dev: nat, c: Contents, blocks: seq<nat>)
    requires Loggable(g, dev, c, blocks)
    ensures HasDev(c, dev) && OnDisk(c.disks, dev, g.start) && g.start in c.latest[dev]
    ensures |blocks| <= LOGSIZE && forall k | 0 <= k < |blocks| :: blocks[k] < UINT_LIMIT
  {
    assert InLog(g, g.start);
  }

  /** write_head. */
  method WriteHead(bc: BCache, g: Geometry, dev: nat, blocks: seq<nat>, ghost c: Contents, ghost pins: set<Key>)
    requires Loggable(g, dev, c, blocks) && At(bc, c, pins) && Key(dev, g.start) !in pins
    modifies bc
    ensures g.start in c.latest[dev]
    ensures At(bc, After(c, dev, [Write(g.start, EncodeHead(c.latest[dev][g.start], blocks))]), pins)
  {
    HeadFacts(g, dev, c, blocks);
    hide Loggable, PinnedKeys, RealDevices, EncodeHead, After;
    var b := ReadOne(bc, dev, g.start);
    var h := FillHead(bc.buf[b].data, blocks);
    AfterOne(c, dev, Write(g.start, h));
    StoreOne(bc, dev, b, g.start, h);
    assert pins - {Key(dev, g.start)} == pins;
  }

  // ----- commit ------------------------------------------------------------------------------

  /** The contents and the blocks are ready for commit: see Ready. */
  ghost predicate Committable(g: Geometry, dev: nat, c: Contents, blocks: seq<nat>)
  {
    HasDev(c, dev) && Ready(g, c.disks[dev], c.latest[dev], blocks)
  }

  lemma LoggableAfter(g: Geometry, dev: nat, c: Contents, blocks: seq<nat>, ws: seq<Write>)
    requires Loggable(g, dev, c, blocks) && forall t | 0 <= t < |ws| :: ws[t].blockno in c.latest[dev]
    ensures Loggable(g, dev, After(c, dev, ws), blocks)
    ensures Loggable(g, dev, After(c, dev, ws), [])
    ensures After(c, dev, ws).latest[dev].Keys == c.latest[dev].Keys
  {
    AfterKeys(c, dev, ws);
  }

  /** A view with the header empty is ready for commit over itself. */
  lemma ViewReady(g: Geometry, d: Disk, view: Disk, blocks: seq<nat>)
    requires Ready(g, d, view, blocks)
    ensures Ready(g, view, view, blocks) && HasLog(g, view) && HomeBlocks(g, view, blocks)
    ensures g.start in view && g.start !in blocks
  {
    assert InLog(g, g.start);
  }

  /** Where the log writes of commit lead, and the header write after them. */
  lemma PhaseLog(g: Geometry, dev: nat, c: Contents, blocks: seq<nat>) returns (c1: Contents)
    requires Loggable(g, dev, c, blocks)
    ensures c1 == After(c, dev, LogWrites(g, c.latest[dev], blocks)) && Loggable(g, dev, c1, blocks)
    ensures g.start in c.latest[dev] && g.start in c1.latest[dev]
    ensures c1.latest[dev][g.start] == c.latest[dev][g.start]
  {
    var ws := LogWrites(g, c.latest[dev], blocks);
    assert InLog(g, g.start);
    forall t | 0 <= t < |ws| ensures ws[t].blockno in c.latest[dev] {
      assert InLog(g, g.start + 1 + t);
    }
    c1 := After(c, dev, ws);
    LoggableAfter(g, dev, c, blocks, ws);
    ApplyMiss(c.latest[dev], ws, g.start);
  }

  lemma PhaseHead(g: Geometry, dev: nat, c: Contents, blocks: seq<nat>, h: Block) returns (c2: Contents)
    requires Loggable(g, dev, c, blocks)
    ensures c2 == After(c, dev, [Write(g.start, h)]) && Loggable(g, dev, c2, blocks) && Loggable(g, dev, c2, [])
    ensures g.start in c2.latest[dev]
  {
    assert InLog(g, g.start);
    c2 := After(c, dev, [Write(g.start, h)]);
    LoggableAfter(g, dev, c, blocks, [Write(g.start, h)]);
  }

  lemma PhaseInstall(g: Geometry, dev: nat, c: Contents, blocks: seq<nat>) returns (c3: Contents)
    requires Loggable(g, dev, c, blocks)
    ensures c3 == After(c, dev, InstallWrites(g, c.latest[dev], blocks)) && Loggable(g, dev, c3, [])
    ensures g.start in c.latest[dev] && g.start in c3.latest[dev]
    ensures c3.latest[dev][g.start] == c.latest[dev][g.start]
  {
    var ws := InstallWrites(g, c.latest[dev], blocks);
    assert InLog(g, g.start);
    c3 := After(c, dev, ws);
    LoggableAfter(g, dev, c, blocks, ws);
    ApplyMiss(c.latest[dev], ws, g.start);
  }

  /** The four phases of commit, one after the other, are its list of writes. */
  lemma CommitPhases(g: Geometry, dev: nat, c: Contents, blocks: seq<nat>, c1: Contents, c2: Contents, c3: Contents)
    requires Committable(g, dev, c, blocks) && blocks != []
    requires Loggable(g, dev, c, blocks) && Loggable(g, dev, c1, blocks) && Loggable(g, dev, c2, blocks) && Loggable(g, dev, c3, [])
    requires c1 == After(c, dev, LogWrites(g, c.latest[dev], blocks))
    requires g.start in c.latest[dev] && g.start in c2.latest[dev] && g.start in c3.latest[dev]
    requires c2 == After(c1, dev, [Write(g.start, EncodeHead(c.latest[dev][g.start], blocks))])
    requires c3 == After(c2, dev, InstallWrites(g, c2.latest[dev], blocks))
    requires c3.latest[dev][g.start] == c2.latest[dev][g.start]
    ensures After(c3, dev, [Write(g.start, EncodeHead(c3.latest[dev][g.start], []))])
            == After(c, dev, CommitWrites(g, c.latest[dev], blocks))
  {
    var view := c.latest[dev];
    var h := EncodeHead(view[g.start], blocks);
    var a, b := LogWrites(g, view, blocks), [Write(g.start, h)];
    ViewReady(g, c.disks[dev], view, blocks);
    var e := AtHeader(g, view, view, blocks);
    hide EncodeHead, Ready, HasLog, HomeBlocks;
    AfterConcat(c, dev, a, b);
    assert c2.latest[dev] == e;
    var i := HomeWrites(g, view, blocks);
    var z := [Write(g.start, EncodeHead(h, []))];
    AfterConcat(c, dev, a + b, i);
    AfterConcat(c, dev, a + b + i, z);
  }

  /** commit. */
  method Commit(bc: BCache, g: Geometry, dev: nat, blocks: seq<nat>, ghost c: Contents)
    requires Committable(g, dev, c, blocks) && At(bc, c, KeysOn(dev, blocks))
    modifies bc
    ensures Loggable(g, dev, c, blocks)
    ensures At(bc, After(c, dev, CommitWrites(g, c.latest[dev], blocks)), {})
  {
    ViewReady(g, c.disks[dev], c.latest[dev], blocks);
    if |blocks| > 0 {
      ghost var c1 := PhaseLog(g, dev, c, blocks);
      ghost var c2 := PhaseHead(g, dev, c1, blocks, EncodeHead(c1.latest[dev][g.start], blocks));
      ghost var c3 := PhaseInstall(g, dev, c2, blocks);
      CommitPhases(g, dev, c, blocks, c1, c2, c3);
      hide Ready, HasLog, HomeBlocks, After, At, LogWrites, InstallWrites, CommitWrites, EncodeHead;
      WriteLog(bc, g, dev, blocks, c);
      WriteHead(bc, g, dev, blocks, c1, KeysOn(dev, blocks));
      InstallTrans(bc, g, dev, blocks, c2, true);
      WriteHead(bc, g, dev, [], c3, {});
    } else {
      AfterFirstEnds(c, dev, []);
      assert KeysOn(dev, blocks) == {};
    }
  }

  // ----- recover_from_log ----------------------------------------------------------------------

  /** A device as recovery finds it: nothing cached is newer than the disk, and the log is good. */
  ghost predicate Recoverable(g: Geometry, dev: nat, c: Contents)
  {
    HasDev(c, dev) && c.latest[dev] == c.disks[dev] && GoodLog(g, c.disks[dev])
  }

  lemma RecoverPhases(g: Geometry, dev: nat, c: Contents) returns (c3: Contents)
    requires Recoverable(g, dev, c)
    ensures var blocks := HeadBlocks(c.disks[dev][g.start]);
            && Loggable(g, dev, c, blocks)
            && c3 == After(c, dev, InstallWrites(g, c.latest[dev], blocks)) && Loggable(g, dev, c3, [])
            && g.start in c3.latest[dev]
            && After(c3, dev, [Write(g.start, EncodeHead(c3.latest[dev][g.start], []))])
               == After(c, dev, RecoverWrites(g, c.disks[dev]))
  {
    var h := c.disks[dev][g.start];
    var blocks := HeadBlocks(h);
    c3 := PhaseInstall(g, dev, c, blocks);
    AfterConcat(c, dev, InstallWrites(g, c.latest[dev], blocks), [Write(g.start, EncodeHead(h, []))]);
  }

  /** recover_from_log.  It returns the in-memory header it read. */
  method Recover(bc: BCache, g: Geometry, dev: nat, block: seq<nat>, ghost c: Contents) returns (block': seq<nat>)
    requires Recoverable(g, dev, c) && At(bc, c, {}) && |block| == LOGSIZE
    modifies bc
    ensures |block'| == LOGSIZE
    ensures At(bc, After(c, dev, RecoverWrites(g, c.disks[dev])), {})
  {
    ghost var c3 := RecoverPhases(g, dev, c);
    HeadFacts(g, dev, c, []);
    hide GoodLog, InstallWrites, RecoverWrites, EncodeHead, After, HeadBlocks;
    var n;
    n, block' := ReadHead(bc, g, dev, block, c);
    InstallTrans(bc, g, dev, block'[..n], c, false);
    WriteHead(bc, g, dev, [], c3, {});
  }

  /** read_head. */
  method ReadHead(bc: BCache, g: Geometry, dev: nat, block: seq<nat>, ghost c: Contents) returns (n: nat, block': seq<nat>)
    requires At(bc, c, {}) && HasDev(c, dev) && OnDisk(c.disks, dev, g.start) && |block| == LOGSIZE
    requires HeadCount(c.latest[dev][g.start]) <= LOGSIZE
    modifies bc
    ensures At(bc, c, {})
    ensures |block'| == LOGSIZE && n <= LOGSIZE && block'[..n] == HeadBlocks(c.latest[dev][g.start])
  {
    hide PinnedKeys, HeadBlocks;
    var b := ReadOne(bc, dev, g.start);
    n, block' := LoadHead(bc.buf[b].data, block);
    Release(bc, dev, b, g.start);
  }

  // ----- The log object ------------------------------------------------------------------------

  lemma RecoveredReady(g: Geometry, dev: nat, c: Contents)
    requires Recoverable(g, dev, c)
    ensures Committable(g, dev, After(c, dev, RecoverWrites(g, c.disks[dev])), [])
    ensures KeysOn(dev, []) == {}
  {
    RecoveredIs(g, c.disks[dev]);
  }

  /** The in-memory header after log_write of block b: log absorption. */
  function Absorb(blocks: seq<nat>, b: nat): seq<nat>
  {
    if b in blocks then blocks else blocks + [b]
  }

  class Logger {
    const bc: BCache
    const dev: nat
    const g: Geometry
    var n: nat
    var block: seq<nat>
    var outstanding: nat
    var committing: bool

    /** The log is in step with the cache: what is pinned is what is logged. */
    ghost predicate Valid()
      reads this, bc
    {
      && bc.Valid() && g.size <= NBUF
      && |block| == LOGSIZE && n <= LOGSIZE
      && Committable(g, dev, ContentsOf(bc), block[..n])
      && PinnedKeys(bc.buf) == KeysOn(dev, block[..n])
    }

    /** initlog and recovery on a freshly booted cache. */
    constructor (bc: BCache, dev: nat, g: Geometry)
      requires bc.Valid() && bc.held == {} && OnlyHeld(bc.buf, {}) && PinnedKeys(bc.buf) == {}
      requires Recoverable(g, dev, ContentsOf(bc)) && g.size <= NBUF
      modifies bc
      ensures Valid() && n == 0 && outstanding == 0 && !committing
      ensures this.bc == bc && this.dev == dev && this.g == g
      ensures ContentsOf(bc) == After(old(ContentsOf(bc)), dev, RecoverWrites(g, old(bc.disks)[dev]))
    {
      ghost var c := ContentsOf(bc);
      var header := Recover(bc, g, dev, seq(LOGSIZE, _ => 0), c);
      this.bc, this.dev, this.g := bc, dev, g;
      n, block, outstanding, committing := 0, header, 0, false;
      RecoveredReady(g, dev, c);
    }
  
    /** One pass through the loop of begin_op: the operation is admitted, or sleeps and tries again. */
    method BeginOp() returns (admitted: bool)
      requires Valid()
      modifies this`outstanding
      ensures Valid()
      ensures admitted <==> !committing && n + (old(outstanding) + 1) * MAXOPBLOCKS <= LOGSIZE
      ensures outstanding == old(outstanding) + if admitted then 1 else 0
    {
      if committing {
        admitted := false;
      } else if n + (outstanding + 1) * MAXOPBLOCKS > LOGSIZE {
        admitted := false;
      } else {
        outstanding := outstanding + 1;
        admitted := true;
      }
    }

    /** The locked part of end_op.  Not ok is the panic. */
    method EndOp() returns (ok: bool, doCommit: bool)
      requires Valid() && outstanding > 0
      modifies this`outstanding, this`committing
      ensures Valid()
      ensures outstanding == old(outstanding) - 1
      ensures ok <==> !old(committing)
      ensures ok ==> doCommit == committing == (outstanding == 0)
    {
      outstanding := outstanding - 1;
      ok, doCommit := !committing, false;
      if ok && outstanding == 0 {
        doCommit, committing := true, true;
      }
    }

    /** commit(), and the rest of end_op, by the operation that set committing. */
    method CommitOp()
      requires Valid() && committing && bc.held == {} && OnlyHeld(bc.buf, {})
      modifies this`n, this`committing, bc
      ensures Valid() && n == 0 && !committing && bc.held == {} && OnlyHeld(bc.buf, {})
      ensures Loggable(g, dev, old(ContentsOf(bc)), old(block[..n]))
      ensures ContentsOf(bc) == After(old(ContentsOf(bc)), dev, CommitWrites(g, old(bc.latest)[dev], old(block[..n])))
      ensures SameHome(g, bc.disks[dev], old(bc.latest)[dev])
    {
      hide BCache.Valid, Committable, Loggable, KeysOn, PinnedKeys, CommitWrites, After, SameHome, OnlyHeld;
      ghost var c := ContentsOf(bc);
      CommitStarts();
      CommittedReady(g, dev, c, block[..n]);
      Commit(bc, g, dev, block[..n], c);
      n, committing := 0, false;
    }

    lemma CommitStarts()
      requires Valid() && bc.held == {} && OnlyHeld(bc.buf, {})
      ensures At(bc, ContentsOf(bc), KeysOn(dev, block[..n]))
    {
      CommitSupply(dev, block[..n], g);
    }

    /** log_write on a buffer the caller holds.  Not ok is a panic, and nothing has changed. */
    method LogWrite(b: nat) returns (ok: bool)
      requires Valid() && b in bc.held
      requires bc.buf[b].valid && bc.buf[b].dev == dev && !InLog(g, bc.buf[b].blockno) && bc.buf[b].blockno < UINT_LIMIT
      modifies this`n, this`block, bc`buf, bc`latest
      ensures Valid()
      ensures ok <==> old(n) < LOGSIZE && old(n) < g.size - 1 && outstanding >= 1
      ensures !ok ==> n == old(n) && block == old(block) && bc.buf == old(bc.buf) && bc.latest == old(bc.latest)
      ensures ok ==> block[..n] == Absorb(old(block[..n]), old(bc.buf[b].blockno))
      ensures ok ==> bc.buf == old(bc.buf)[b := old(bc.buf[b]).(dirty := true)]
      ensures ok ==> bc.latest == PutBlock(old(bc.latest), dev, bc.buf[b].blockno, bc.buf[b].data)
    {
      if n >= LOGSIZE || n >= g.size - 1 {
        return false;
      }
      if outstanding < 1 {
        return false;
      }
      Record(b);
      ok := true;
    }

    /** log_write once its checks have passed: the part under log.lock. */
    method Record(b: nat)
      requires Valid() && b in bc.held && n < LOGSIZE && n < g.size - 1
      requires bc.buf[b].valid && bc.buf[b].dev == dev && !InLog(g, bc.buf[b].blockno) && bc.buf[b].blockno < UINT_LIMIT
      modifies this`n, this`block, bc`buf, bc`latest
      ensures Valid()
      ensures block[..n] == Absorb(old(block[..n]), old(bc.buf[b].blockno))
      ensures bc.buf == old(bc.buf)[b := old(bc.buf[b]).(dirty := true)]
      ensures bc.latest == PutBlock(old(bc.latest), dev, bc.buf[b].blockno, bc.buf[b].data)
    {
      hide CacheInv, Linked, Committable, KeysOn, PinnedKeys, PutBlock, Absorb;
      RecordFacts(b);
      var i := FindSlot(block, n, bc.buf[b].blockno);
      block := block[i := bc.buf[b].blockno];
      if i == n {
        n := n + 1;
      }
      bc.Pin(b);
    }

    lemma RecordFacts(b: nat)
      requires Valid() && b in bc.held && n < LOGSIZE && n < g.size - 1
      requires bc.buf[b].valid && bc.buf[b].dev == dev && !InLog(g, bc.buf[b].blockno) && bc.buf[b].blockno < UINT_LIMIT
      ensures b < |bc.buf| && dev != 0 && dev in bc.latest
      ensures var blockno, data := bc.buf[b].blockno, bc.buf[b].data;
              var blocks := Absorb(block[..n], blockno);
              && Committable(g, dev, ContentsOf(bc).(latest := PutBlock(bc.latest, dev, blockno, data)), blocks)
              && KeysOn(dev, blocks) == PinnedKeys(bc.buf[b := bc.buf[b].(dirty := true)])
              && |blocks| <= LOGSIZE
    {
      LogWriteReady(g, dev, ContentsOf(bc), block[..n], bc.buf[b].blockno, bc.buf[b].data);
      PinsAdd(bc.buf, b);
    }
  }

  /** The loop of log_write. */
  method FindSlot(block: seq<nat>, n: nat, blockno: nat) returns (i: nat)
    requires n < |block|
    ensures i <= n
    ensures var n' := if i == n then n + 1 else n;
            block[i := blockno][..n'] == Absorb(block[..n], blockno)
  {
    i := 0;
    while i < n && block[i] != blockno
      invariant 0 <= i <= n
      invariant blockno !in block[..i]
    {
      i := i + 1;
    }
    assert i < n ==> block[..n][i] == blockno && block[i := blockno] == block;
    assert i == n ==> block[i := blockno][..n+1] == block[..n] + [blockno];
  }

  lemma HomeAbsorb(g: Geometry, d: Disk, blocks: seq<nat>, b: nat)
    requires HomeBlocks(g, d, blocks) && |blocks| < LOGSIZE && |blocks| < g.size - 1
    requires b in d && !InLog(g, b) && b < UINT_LIMIT
    ensures HomeBlocks(g, d, Absorb(blocks, b))
  {
  }

  /** Storing into a block and listing it keeps the log ready to commit. */
  lemma ReadyAbsorb(g: Geometry, d: Disk, view: Disk, blocks: seq<nat>, b: nat, data: Block)
    requires Ready(g, d, view, blocks) && |blocks| < LOGSIZE && |blocks| < g.size - 1
    requires b in d && !InLog(g, b) && b < UINT_LIMIT
    ensures Ready(g, d, view[b := data], Absorb(blocks, b)) && view[b := data].Keys == view.Keys
  {
    HomeAbsorb(g, d, blocks, b);
    hide GoodLog, HomeBlocks, HeadCount;
    assert view[b := data].Keys == view.Keys;
    assert forall x | x !in Absorb(blocks, b) :: x != b && x !in blocks;
  }

  lemma LogWriteReady(g: Geometry, dev: nat, c: Contents, blocks: seq<nat>, blockno: nat, data: Block)
    requires Committable(g, dev, c, blocks)
    requires |blocks| < LOGSIZE && |blocks| < g.size - 1
    requires blockno in c.latest[dev] && !InLog(g, blockno) && blockno < UINT_LIMIT
    ensures Committable(g, dev, c.(latest := PutBlock(c.latest, dev, blockno, data)), Absorb(blocks, blockno))
    ensures KeysOn(dev, Absorb(blocks, blockno)) == KeysOn(dev, blocks) + {Key(dev, blockno)}
    ensures |Absorb(blocks, blockno)| <= LOGSIZE
  {
    ReadyAbsorb(g, c.disks[dev], c.latest[dev], blocks, blockno, data);
    hide Ready;
  }

  lemma CommitSupply(dev: nat, blocks: seq<nat>, g: Geometry)
    requires |blocks| < g.size <= NBUF
    ensures |KeysOn(dev, blocks)| < NBUF
  {
    KeysOnSize(dev, blocks);
  }

  lemma {:induction false} KeysOnSize(dev: nat, blocks: seq<nat>)
    ensures |KeysOn(dev, blocks)| <= |blocks|
  {
    if blocks != [] {
      KeysOnSize(dev, blocks[1..]);
      assert KeysOn(dev, blocks) == {Key(dev, blocks[0])} + KeysOn(dev, blocks[1..]);
    }
  }

  lemma ReadyKeys(g: Geometry, d: Disk, view: Disk, blocks: seq<nat>)
    requires Ready(g, d, view, blocks)
    ensures view.Keys == d.Keys
  {
  }

  lemma CommittedReady(g: Geometry, dev: nat, c: Contents, blocks: seq<nat>)
    requires Committable(g, dev, c, blocks)
    ensures Loggable(g, dev, c, blocks)
    ensures var c' := After(c, dev, CommitWrites(g, c.latest[dev], blocks));
            Committable(g, dev, c', []) && SameHome(g, c'.disks[dev], c.latest[dev]) && KeysOn(dev, []) == {}
  {
    hide Ready, HasLog, HomeBlocks, CommitWrites, Apply, SameHome, OnDev;
    var d, view := c.disks[dev], c.latest[dev];
    ViewReady(g, d, view, blocks);
    CommittedDisks(g, d, view, blocks);
    var ws := CommitWrites(g, view, blocks);
    ReadyKeys(g, Apply(d, ws), Apply(view, ws), []);
  }

  /** After a commit the disk and the cached view agree again, and the header is empty. */
  lemma CommittedDisks(g: Geometry, d: Disk, view: Disk, blocks: seq<nat>)
    requires Ready(g, d, view, blocks) && HasLog(g, view) && HomeBlocks(g, view, blocks)
    ensures var ws := CommitWrites(g, view, blocks);
            Ready(g, Apply(d, ws), Apply(view, ws), []) && SameHome(g, Apply(d, ws), view)
  {
    ViewReady(g, d, view, blocks);
    var ws := CommitWrites(g, view, blocks);
    CommitCompletes(g, d, view, blocks);
    CommitCompletes(g, view, view, blocks);
    hide CommitWrites, HeadCount, HeadBlocks, Apply, GoodLog, HomeBlocks;
    forall b | b in d ensures Apply(view, ws)[b] == Apply(d, ws)[b] {
      if InLog(g, b) {
        LogNotListed(g, d, blocks, b);
        ApplyAgree(d, view, ws, b);
      }
    }
    NoBlocks(g, Apply(d, ws));
  }

  lemma LogNotListed(g: Geometry, d: Disk, blocks: seq<nat>, b: nat)
    requires HomeBlocks(g, d, blocks) && InLog(g, b)
    ensures b !in blocks
  {
  }

  lemma NoBlocks(g: Geometry, d: Disk)
    requires GoodLog(g, d)
    ensures HomeBlocks(g, d, [])
  {
  }
}
