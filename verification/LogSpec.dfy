/**
 * What the redo log of xv6/log.c does to the disk: the block writes that commit and
 * recovery issue, and what recovery makes of the disk when a crash cuts them short.
 */
module LogSpec {
  import opened Blocks
  import opened Common
  import opened BufferCache

  type LogCount = n: nat | 1 <= n && (n + 1) * 4 < BSIZE witness 1

  /** LOGSIZE of param.h.  The bound is what initlog insists on. */
  const LOGSIZE: LogCount

  /** Where the log lies on the disk: a header block and then size - 1 log blocks. */
  datatype Geometry = Geometry(start: nat, size: nat)

  datatype Write = Write(blockno: nat, data: Block)

  predicate InLog(g: Geometry, b: nat)
  {
    g.start <= b < g.start + g.size
  }

  /** The disk after the writes ws, in order. */
  function Apply(d: Disk, ws: seq<Write>): Disk
    decreases |ws|
  {
    if ws == [] then d else
      var d': Disk := d[ws[0].blockno := ws[0].data];
      Apply(d', ws[1..])
  }

  // ----- The header block --------------------------------------------------------

  function HeadCount(h: Block): nat
  {
    GetWord(h, 0)
  }

  function HeadBlocks(h: Block): seq<nat>
    requires HeadCount(h) <= LOGSIZE
  {
    seq(HeadCount(h), i requires 0 <= i < HeadCount(h) => GetWord(h, i + 1))
  }

  /** The block write_head stores over h for a log of the given blocks. */
  function EncodeHead(h: Block, blocks: seq<nat>): Block
    requires |blocks| <= LOGSIZE && forall k | 0 <= k < |blocks| :: blocks[k] < UINT_LIMIT
  {
    PutWords(PutWord(h, 0, |blocks|), 1, blocks)
  }

  /** What write_head stores, read_head reads back. */
  lemma HeadRoundTrip(h: Block, blocks: seq<nat>)
    requires |blocks| <= LOGSIZE && forall k | 0 <= k < |blocks| :: blocks[k] < UINT_LIMIT
    ensures HeadCount(EncodeHead(h, blocks)) == |blocks|
    ensures HeadBlocks(EncodeHead(h, blocks)) == blocks
  {
    hide GetWord, PutWord;
    var h1 := PutWord(h, 0, |blocks|);
    GetPut(h, 0, |blocks|);
    PutWordsGet(h1, 1, blocks, 0);
    hide PutWords;
    forall k | 0 <= k < |blocks| ensures GetWord(EncodeHead(h, blocks), k + 1) == blocks[k] {
      PutWordsGet(h1, 1, blocks, k + 1);
    }
  }

  // ----- Disks the log may be on -------------------------------------------------

  /** A duplicate-free list of blocks outside the log. */
  ghost predicate HomeBlocks(g: Geometry, d: Disk, blocks: seq<nat>)
  {
    && |blocks| <= LOGSIZE && |blocks| < g.size
    && Distinct(blocks)
    && forall k | 0 <= k < |blocks| :: blocks[k] in d && !InLog(g, blocks[k]) && blocks[k] < UINT_LIMIT
  }

  ghost predicate HasLog(g: Geometry, d: Disk)
  {
    g.size > 0 && forall b | InLog(g, b) :: b in d
  }

  ghost predicate GoodLog(g: Geometry, d: Disk)
  {
    && HasLog(g, d)
    && HeadCount(d[g.start]) <= LOGSIZE
    && HomeBlocks(g, d, HeadBlocks(d[g.start]))
  }

  ghost predicate SameHome(g: Geometry, d: Disk, e: Disk)
  {
    d.Keys == e.Keys && forall b | b in d && !InLog(g, b) :: d[b] == e[b]
  }

  // ----- The writes of recovery and commit ---------------------------------------

  /** install_trans: copy log block t to home block blocks[t]. */
  ghost function InstallWrites(g: Geometry, d: Disk, blocks: seq<nat>): (ws: seq<Write>)
    requires HasLog(g, d) && |blocks| < g.size
    ensures |ws| == |blocks|
    ensures forall t | 0 <= t < |blocks| :: ws[t] == Write(blocks[t], d[g.start + 1 + t])
  {
    seq(|blocks|, t requires 0 <= t < |blocks| => Write(blocks[t], d[g.start + 1 + t]))
  }

  /** recover_from_log: install what the header names, then clear the header. */
  ghost function RecoverWrites(g: Geometry, d: Disk): (ws: seq<Write>)
    requires GoodLog(g, d)
    ensures |ws| == HeadCount(d[g.start]) + 1
  {
    InstallWrites(g, d, HeadBlocks(d[g.start])) + [Write(g.start, EncodeHead(d[g.start], []))]
  }

  ghost function Recovered(g: Geometry, d: Disk): Disk
    requires GoodLog(g, d)
  {
    Apply(d, RecoverWrites(g, d))
  }

  /** write_log: copy the current value of blocks[t] to log block t. */
  ghost function LogWrites(g: Geometry, view: Disk, blocks: seq<nat>): (ws: seq<Write>)
    requires HomeBlocks(g, view, blocks)
    ensures |ws| == |blocks|
    ensures forall t | 0 <= t < |blocks| :: ws[t] == Write(g.start + 1 + t, view[blocks[t]])
  {
    seq(|blocks|, t requires 0 <= t < |blocks| => Write(g.start + 1 + t, view[blocks[t]]))
  }

  ghost function HomeWrites(g: Geometry, view: Disk, blocks: seq<nat>): (ws: seq<Write>)
    requires HomeBlocks(g, view, blocks)
    ensures |ws| == |blocks|
    ensures forall t | 0 <= t < |blocks| :: ws[t] == Write(blocks[t], view[blocks[t]])
  {
    seq(|blocks|, t requires 0 <= t < |blocks| => Write(blocks[t], view[blocks[t]]))
  }

  /** commit: log, header, home blocks, and an empty header. */
  ghost function CommitWrites(g: Geometry, view: Disk, blocks: seq<nat>): (ws: seq<Write>)
    requires HasLog(g, view) && HomeBlocks(g, view, blocks)
  {
    if blocks == [] then [] else
      var h := EncodeHead(view[g.start], blocks);
      LogWrites(g, view, blocks) + [Write(g.start, h)] + HomeWrites(g, view, blocks) + [Write(g.start, EncodeHead(h, []))]
  }

  // ----- Sequences of writes -----------------------------------------------------

  ghost predicate DistinctTargets(ws: seq<Write>)
  {
    forall i, j | 0 <= i < j < |ws| :: ws[i].blockno != ws[j].blockno
  }

  lemma {:induction false} ApplyConcat(d: Disk, a: seq<Write>, b: seq<Write>)
    ensures Apply(d, a + b) == Apply(Apply(d, a), b)
    decreases |a|
  {
    if a == [] {
      assert a + b == b;
    } else {
      assert (a + b)[0] == a[0] && (a + b)[1..] == a[1..] + b;
      ApplyConcat(d[a[0].blockno := a[0].data], a[1..], b);
    }
  }

  /** A block that ws does not write is unchanged. */
  lemma {:induction false} ApplyMiss(d: Disk, ws: seq<Write>, b: nat)
    requires forall t | 0 <= t < |ws| :: ws[t].blockno != b
    ensures b in Apply(d, ws) <==> b in d
    ensures b in d ==> Apply(d, ws)[b] == d[b]
    decreases |ws|
  {
    if ws != [] {
      ApplyMiss(d[ws[0].blockno := ws[0].data], ws[1..], b);
    }
  }

  lemma {:induction false} ApplyHit(d: Disk, ws: seq<Write>, t: nat)
    requires DistinctTargets(ws) && t < |ws|
    ensures ws[t].blockno in Apply(d, ws) && Apply(d, ws)[ws[t].blockno] == ws[t].data
    decreases |ws|
  {
    var d': Disk := d[ws[0].blockno := ws[0].data];
    if t == 0 {
      ApplyMiss(d', ws[1..], ws[0].blockno);
    } else {
      assert ws[1..][t-1] == ws[t];
      ApplyHit(d', ws[1..], t - 1);
    }
  }

  lemma {:induction false} ApplyAgree(d: Disk, e: Disk, ws: seq<Write>, b: nat)
    requires b in d && b in e && d[b] == e[b]
    ensures b in Apply(d, ws) && b in Apply(e, ws) && Apply(d, ws)[b] == Apply(e, ws)[b]
    decreases |ws|
  {
    if ws != [] {
      ApplyAgree(d[ws[0].blockno := ws[0].data], e[ws[0].blockno := ws[0].data], ws[1..], b);
    }
  }

  lemma {:induction false} ApplyKeys(d: Disk, ws: seq<Write>)
    requires forall t | 0 <= t < |ws| :: ws[t].blockno in d
    ensures Apply(d, ws).Keys == d.Keys
    decreases |ws|
  {
    if ws != [] {
      var d': Disk := d[ws[0].blockno := ws[0].data];
      assert d'.Keys == d.Keys;
      ApplyKeys(d', ws[1..]);
    }
  }

  /** The disk after k of the writes, when there are k. */
  function ApplyFirst(d: Disk, ws: seq<Write>, k: nat): Disk
    requires k <= |ws|
  {
    Apply(d, ws[..k])
  }

  // ----- Recovery ----------------------------------------------------------------

  /** The disk after k installs: the log is untouched, and k home blocks have their logged value. */
  lemma InstalledPrefix(g: Geometry, d: Disk, blocks: seq<nat>, k: nat)
    requires HasLog(g, d) && HomeBlocks(g, d, blocks) && k <= |blocks|
    ensures var d' := ApplyFirst(d, InstallWrites(g, d, blocks), k);
            && d'.Keys == d.Keys
            && (forall t | 0 <= t < k :: d'[blocks[t]] == d[g.start + 1 + t])
            && (forall b | b in d && b !in blocks[..k] :: d'[b] == d[b])
  {
    var ws := InstallWrites(g, d, blocks)[..k];
    ApplyKeys(d, ws);
    forall t | 0 <= t < k ensures Apply(d, ws)[blocks[t]] == d[g.start + 1 + t] {
      ApplyHit(d, ws, t);
      assert ws[t].blockno == blocks[t];
    }
    forall b | b in d && b !in blocks[..k] ensures Apply(d, ws)[b] == d[b] {
      assert forall t | 0 <= t < |ws| :: ws[t].blockno == blocks[..k][t];
      ApplyMiss(d, ws, b);
    }
  }

  /** Completed recovery: every home block named in the header has its logged value, no other changes. */
  lemma RecoveredIs(g: Geometry, d: Disk)
    requires GoodLog(g, d)
    ensures var blocks := HeadBlocks(d[g.start]); var r := Recovered(g, d);
            && r.Keys == d.Keys
            && (forall t | 0 <= t < |blocks| :: r[blocks[t]] == d[g.start + 1 + t])
            && (forall b | b in d && b !in blocks && b != g.start :: r[b] == d[b])
            && r[g.start] == EncodeHead(d[g.start], [])
            && GoodLog(g, r) && HeadCount(r[g.start]) == 0
  {
    var h := d[g.start];
    var blocks, ws := HeadBlocks(h), InstallWrites(g, d, HeadBlocks(h));
    InstalledPrefix(g, d, blocks, |blocks|);
    assert blocks[..|blocks|] == blocks && ws[..|blocks|] == ws;
    ApplyConcat(d, ws, [Write(g.start, EncodeHead(h, []))]);
    HeadRoundTrip(h, []);
    var e := Apply(d, ws);
    assert Recovered(g, d) == e[g.start := EncodeHead(h, [])];
  }

  /** A disk whose header names blocks and whose log holds their new values recovers to the new view. */
  lemma LoggedRecoversNew(g: Geometry, e: Disk, view: Disk, blocks: seq<nat>)
    requires HasLog(g, e) && e.Keys == view.Keys && HomeBlocks(g, view, blocks)
    requires HeadCount(e[g.start]) <= LOGSIZE && HeadBlocks(e[g.start]) == blocks
    requires forall t | 0 <= t < |blocks| :: e[g.start + 1 + t] == view[blocks[t]]
    requires forall b | b in e && !InLog(g, b) && b !in blocks :: e[b] == view[b]
    ensures GoodLog(g, e) && SameHome(g, Recovered(g, e), view)
    ensures InstallWrites(g, e, blocks) == HomeWrites(g, view, blocks)
  {
    LoggedWrites(g, e, view, blocks);
    hide HeadBlocks, HeadCount, Recovered, EncodeHead, InstallWrites, HomeWrites;
    RecoveredIs(g, e);
    forall b | b in e && !InLog(g, b) ensures Recovered(g, e)[b] == view[b] {
      if b in blocks {
        var t :| 0 <= t < |blocks| && blocks[t] == b;
      }
    }
  }

  lemma LoggedWrites(g: Geometry, e: Disk, view: Disk, blocks: seq<nat>)
    requires HasLog(g, e) && e.Keys == view.Keys && HomeBlocks(g, view, blocks)
    requires forall t | 0 <= t < |blocks| :: e[g.start + 1 + t] == view[blocks[t]]
    ensures InstallWrites(g, e, blocks) == HomeWrites(g, view, blocks)
  {
  }

  /** A disk with the same log area and home blocks that differ only where the log will overwrite them. */
  lemma SameLogSameRecovery(g: Geometry, d: Disk, e: Disk)
    requires GoodLog(g, d) && d.Keys == e.Keys
    requires forall b | InLog(g, b) :: d[b] == e[b]
    requires forall b | b in d && b !in HeadBlocks(d[g.start]) :: d[b] == e[b]
    ensures GoodLog(g, e) && SameHome(g, Recovered(g, e), Recovered(g, d))
  {
    var blocks := HeadBlocks(d[g.start]);
    hide HeadBlocks, HeadCount, Recovered, EncodeHead;
    RecoveredIs(g, d);
    assert InLog(g, g.start);
    forall t | 0 <= t < |blocks| ensures e[g.start + 1 + t] == Recovered(g, d)[blocks[t]] {
      assert InLog(g, g.start + 1 + t);
    }
    LoggedRecoversNew(g, e, Recovered(g, d), blocks);
  }

  /** A crash after any k writes of recovery changes nothing: recovering again ends in the same place. */
  lemma CrashDuringRecovery(g: Geometry, d: Disk, k: nat)
    requires GoodLog(g, d) && k <= |RecoverWrites(g, d)|
    ensures var d' := ApplyFirst(d, RecoverWrites(g, d), k);
            GoodLog(g, d') && SameHome(g, Recovered(g, d'), Recovered(g, d))
  {
    var blocks := HeadBlocks(d[g.start]);
    var ws := RecoverWrites(g, d);
    if k <= |blocks| {
      assert ws[..k] == InstallWrites(g, d, blocks)[..k];
      InstalledPrefix(g, d, blocks, k);
      SameLogSameRecovery(g, d, Apply(d, ws[..k]));
    } else {
      assert ws[..k] == ws;
      RecoveredIs(g, d);
      RecoveredIs(g, Recovered(g, d));
    }
  }

  ghost predicate InterruptedRecovery(g: Geometry, d: Disk, e: Disk)
  {
    GoodLog(g, d) && exists k: nat :: k <= |RecoverWrites(g, d)| && e == ApplyFirst(d, RecoverWrites(g, d), k)
  }

  /** ds is what the disk holds at the start of each recovery, every one but the last cut short by a crash. */
  ghost predicate CrashedRecoveries(g: Geometry, ds: seq<Disk>)
  {
    ds != [] && (|ds| > 1 ==> InterruptedRecovery(g, ds[0], ds[1]) && CrashedRecoveries(g, ds[1..]))
  }

  lemma SameHomeTransitive(g: Geometry, d: Disk, e: Disk, f: Disk)
    requires SameHome(g, d, e) && SameHome(g, e, f)
    ensures SameHome(g, d, f)
  {
  }

  /** However many recoveries crash, the one that completes restores what the first would have. */
  lemma {:induction false} RepeatedCrashes(g: Geometry, ds: seq<Disk>)
    requires CrashedRecoveries(g, ds) && GoodLog(g, ds[0])
    ensures GoodLog(g, ds[|ds|-1]) && SameHome(g, Recovered(g, ds[|ds|-1]), Recovered(g, ds[0]))
    decreases |ds|
  {
    hide GoodLog, SameHome, RecoverWrites, Recovered;
    if |ds| > 1 {
      var k: nat :| k <= |RecoverWrites(g, ds[0])| && ds[1] == ApplyFirst(ds[0], RecoverWrites(g, ds[0]), k);
      CrashDuringRecovery(g, ds[0], k);
      RepeatedCrashes(g, ds[1..]);
      SameHomeTransitive(g, Recovered(g, ds[|ds|-1]), Recovered(g, ds[1]), Recovered(g, ds[0]));
    } else {
      SameHomeReflexive(g, Recovered(g, ds[0]));
    }
  }

  lemma SameHomeReflexive(g: Geometry, d: Disk)
    ensures SameHome(g, d, d)
  {
  }

  // ----- Commit ------------------------------------------------------------------

  /**
   * Between transactions the header on disk is empty, and the cached view of the disk differs
   * from it only in the logged blocks.
   */
  ghost predicate Ready(g: Geometry, d: Disk, view: Disk, blocks: seq<nat>)
  {
    && d.Keys == view.Keys
    && GoodLog(g, d) && HeadCount(d[g.start]) == 0
    && HomeBlocks(g, d, blocks)
    && forall b | b in d && b !in blocks :: view[b] == d[b]
  }

  /** The disk after k of the log writes: log blocks have their values, and nothing else changes. */
  lemma LogWritten(g: Geometry, d: Disk, view: Disk, blocks: seq<nat>, k: nat)
    requires HasLog(g, d) && d.Keys == view.Keys && HomeBlocks(g, d, blocks) && k <= |blocks|
    ensures var d' := ApplyFirst(d, LogWrites(g, view, blocks), k);
            && d'.Keys == d.Keys && SameHome(g, d', d) && d'[g.start] == d[g.start]
            && forall t | 0 <= t < k :: d'[g.start + 1 + t] == view[blocks[t]]
  {
    var ws := LogWrites(g, view, blocks)[..k];
    var d' := Apply(d, ws);
    forall t | 0 <= t < k ensures ws[t].blockno in d && InLog(g, ws[t].blockno) {
      assert InLog(g, g.start + 1 + t);
    }
    ApplyKeys(d, ws);
    forall t | 0 <= t < k ensures d'[g.start + 1 + t] == view[blocks[t]] {
      ApplyHit(d, ws, t);
      assert ws[t] == Write(g.start + 1 + t, view[blocks[t]]);
    }
    forall b | b in d && (!InLog(g, b) || b == g.start) ensures d'[b] == d[b] {
      ApplyMiss(d, ws, b);
    }
  }

  /** While the log blocks are being written, recovery leaves every home block old. */
  lemma CrashBeforeHeader(g: Geometry, d: Disk, view: Disk, blocks: seq<nat>, k: nat)
    requires Ready(g, d, view, blocks) && k <= |blocks|
    ensures var d' := ApplyFirst(d, LogWrites(g, view, blocks), k);
            GoodLog(g, d') && SameHome(g, Recovered(g, d'), d)
  {
    LogWritten(g, d, view, blocks, k);
    var d' := ApplyFirst(d, LogWrites(g, view, blocks), k);
    hide ApplyFirst, LogWrites, Recovered, HomeBlocks, HeadCount, EncodeHead;
    EmptyHead(d[g.start]);
    RecoveredIs(g, d');
  }

  lemma EmptyHead(h: Block)
    requires HeadCount(h) == 0
    ensures HeadBlocks(h) == []
  {
  }

  /** The disk right after the header write: this is the commit point. */
  lemma AtHeader(g: Geometry, d: Disk, view: Disk, blocks: seq<nat>) returns (e: Disk)
    requires Ready(g, d, view, blocks) && blocks != []
    ensures e == Apply(d, LogWrites(g, view, blocks) + [Write(g.start, EncodeHead(view[g.start], blocks))])
    ensures GoodLog(g, e) && HeadBlocks(e[g.start]) == blocks && SameHome(g, Recovered(g, e), view)
    ensures InstallWrites(g, e, blocks) == HomeWrites(g, view, blocks)
    ensures e[g.start] == EncodeHead(view[g.start], blocks)
  {
    var ws, h := LogWrites(g, view, blocks), EncodeHead(view[g.start], blocks);
    LogWritten(g, d, view, blocks, |blocks|);
    assert ws[..|blocks|] == ws;
    ApplyConcat(d, ws, [Write(g.start, h)]);
    var d' := Apply(d, ws);
    e := d'[g.start := h];
    assert e == Apply(d', [Write(g.start, h)]);
    HeadRoundTrip(view[g.start], blocks);
    hide EncodeHead, HeadBlocks, HeadCount, Recovered;
    LoggedRecoversNew(g, e, view, blocks);
  }

  /** After the header write commit issues exactly the writes that recovery would. */
  lemma CommitSplits(g: Geometry, d: Disk, view: Disk, blocks: seq<nat>) returns (e: Disk, head: seq<Write>)
    requires Ready(g, d, view, blocks) && blocks != []
    ensures |head| == |blocks| + 1 && e == Apply(d, head)
    ensures head[..|blocks|] == LogWrites(g, view, blocks)
    ensures GoodLog(g, e) && SameHome(g, Recovered(g, e), view)
    ensures CommitWrites(g, view, blocks) == head + RecoverWrites(g, e)
  {
    e := AtHeader(g, d, view, blocks);
    head := LogWrites(g, view, blocks) + [Write(g.start, EncodeHead(view[g.start], blocks))];
    HeadRoundTrip(view[g.start], blocks);
    hide Apply, EncodeHead, HeadBlocks, HeadCount, Recovered, SameHome, LogWrites, HomeWrites, InstallWrites;
    assert CommitWrites(g, view, blocks) == head + (HomeWrites(g, view, blocks) + [Write(g.start, EncodeHead(e[g.start], []))]);
  }

  /** With nothing logged commit writes nothing. */
  lemma CrashWithoutBlocks(g: Geometry, d: Disk, view: Disk, k: nat)
    requires Ready(g, d, view, []) && k <= |CommitWrites(g, view, [])|
    ensures ApplyFirst(d, CommitWrites(g, view, []), k) == d && GoodLog(g, d) && SameHome(g, Recovered(g, d), d)
  {
    assert CommitWrites(g, view, [])[..k] == [];
    RecoveredIs(g, d);
  }

  lemma CrashBeforeCommit(g: Geometry, d: Disk, view: Disk, blocks: seq<nat>, k: nat)
    requires Ready(g, d, view, blocks) && blocks != [] && k <= |blocks| <= |CommitWrites(g, view, blocks)|
    ensures var d' := ApplyFirst(d, CommitWrites(g, view, blocks), k);
            GoodLog(g, d') && SameHome(g, Recovered(g, d'), d)
  {
    assert CommitWrites(g, view, blocks)[..k] == LogWrites(g, view, blocks)[..k];
    hide Apply, CommitWrites, LogWrites, GoodLog, SameHome, Recovered, Ready;
    CrashBeforeHeader(g, d, view, blocks, k);
  }

  lemma CrashAfterCommit(g: Geometry, d: Disk, view: Disk, blocks: seq<nat>, k: nat)
    requires Ready(g, d, view, blocks) && blocks != [] && |blocks| < k <= |CommitWrites(g, view, blocks)|
    ensures var d' := ApplyFirst(d, CommitWrites(g, view, blocks), k);
            GoodLog(g, d') && SameHome(g, Recovered(g, d'), view)
  {
    var e, head := CommitSplits(g, d, view, blocks);
    hide Apply, CommitWrites, LogWrites, RecoverWrites, GoodLog, SameHome, Recovered, Ready;
    var j := k - |head|;
    assert CommitWrites(g, view, blocks)[..k] == head + RecoverWrites(g, e)[..j];
    ApplyConcat(d, head, RecoverWrites(g, e)[..j]);
    CrashDuringRecovery(g, e, j);
    SameHomeTransitive(g, Recovered(g, Apply(e, RecoverWrites(g, e)[..j])), Recovered(g, e), view);
  }

  /**
   * A crash after any k writes of commit: recovery makes all home blocks old if the header
   * write was not among them, and all new if it was.
   */
  lemma CrashDuringCommit(g: Geometry, d: Disk, view: Disk, blocks: seq<nat>, k: nat)
    requires Ready(g, d, view, blocks) && k <= |CommitWrites(g, view, blocks)|
    ensures var d' := ApplyFirst(d, CommitWrites(g, view, blocks), k);
            && GoodLog(g, d')
            && SameHome(g, Recovered(g, d'), if k <= |blocks| then d else view)
  {
    assert |CommitWrites(g, view, blocks)| == if blocks == [] then 0 else 2 * |blocks| + 2;
    hide ApplyFirst, CommitWrites, GoodLog, SameHome, Recovered, Ready;
    if blocks == [] {
      CrashWithoutBlocks(g, d, view, k);
    } else if k <= |blocks| {
      CrashBeforeCommit(g, d, view, blocks, k);
    } else {
      CrashAfterCommit(g, d, view, blocks, k);
    }
  }

  /**
   * Crash atomicity: a crash after k writes of commit, then any number of crashes during
   * recovery, then a recovery that completes.  The home blocks are then all old or all new,
   * and new exactly when the header write had reached the disk.
   */
  lemma CrashAtomicity(g: Geometry, d: Disk, view: Disk, blocks: seq<nat>, k: nat, ds: seq<Disk>)
    requires Ready(g, d, view, blocks) && k <= |CommitWrites(g, view, blocks)|
    requires ds != [] && ds[0] == ApplyFirst(d, CommitWrites(g, view, blocks), k) && CrashedRecoveries(g, ds)
    ensures GoodLog(g, ds[|ds|-1])
    ensures SameHome(g, Recovered(g, ds[|ds|-1]), if k <= |blocks| then d else view)
  {
    hide GoodLog, SameHome, CommitWrites, Recovered, Ready;
    CrashDuringCommit(g, d, view, blocks, k);
    RepeatedCrashes(g, ds);
    SameHomeTransitive(g, Recovered(g, ds[|ds|-1]), Recovered(g, ds[0]), if k <= |blocks| then d else view);
  }

  /** A commit that completes leaves the disk equal to the view and an empty header. */
  lemma CommitCompletes(g: Geometry, d: Disk, view: Disk, blocks: seq<nat>)
    requires Ready(g, d, view, blocks)
    ensures var d' := Apply(d, CommitWrites(g, view, blocks));
            GoodLog(g, d') && HeadCount(d'[g.start]) == 0 && SameHome(g, d', view)
  {
    if blocks != [] {
      var e, head := CommitSplits(g, d, view, blocks);
      ApplyConcat(d, head, RecoverWrites(g, e));
      RecoveredIs(g, e);
    }
  }
}
