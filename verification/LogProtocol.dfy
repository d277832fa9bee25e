/**
 * Group commit of xv6/log.c under every interleaving of any number of file-system operations,
 * with crashes anywhere.  A step is one critical section of begin_op, log_write or end_op, one
 * block write of commit or of recovery, or a crash; log_write's checks and update are one step.
 * The steps refine a machine on which a transaction is a single atomic event.
 */
module LogProtocol {
  import opened Blocks
  import opened Common
  import opened BufferCache
  import opened LogSpec
  import opened Log

  /** An operation between begin_op and end_op, and the blocks it has logged. */
  datatype Op = Op(id: nat, used: set<nat>)

  /**
   * What is running besides operations.  Committing and Recovering record, for the proof, the
   * disk and the view they started from and how many of their writes are done.
   */
  datatype Phase =
    | Idle
    | Committing(from: Disk, target: Disk, done: nat)
    | Recovering(from: Disk, done: nat)

  datatype State = State(disk: Disk, view: Disk, blocks: seq<nat>, outstanding: nat, committing: bool,
                         ops: seq<Op>, phase: Phase)

  // ----- Steps -----------------------------------------------------------------------------

  /** begin_op gets past its two waits. */
  ghost predicate Begin(s: State, t: State, id: nat)
  {
    && !s.phase.Recovering? && !s.committing
    && |s.blocks| + (s.outstanding + 1) * MAXOPBLOCKS <= LOGSIZE
    && (forall i | 0 <= i < |s.ops| :: s.ops[i].id != id)
    && t == s.(outstanding := s.outstanding + 1, ops := s.ops + [Op(id, {})])
  }

  /** Operation i may log block b: it stays within the number of blocks an operation may write. */
  ghost predicate WithinBudget(s: State, i: nat, b: nat, budget: nat)
  {
    i < |s.ops| && |s.ops[i].used + {b}| <= budget
  }

  /** The checks at the start of log_write. */
  predicate LogWritePanics(g: Geometry, s: State)
  {
    |s.blocks| >= LOGSIZE || |s.blocks| >= g.size - 1 || s.outstanding < 1
  }

  ghost predicate LogWrite(g: Geometry, budget: nat, s: State, t: State, i: nat, b: nat, data: Block)
  {
    && !s.phase.Recovering? && WithinBudget(s, i, b, budget)
    && b in s.disk && !InLog(g, b) && b < UINT_LIMIT
    && !LogWritePanics(g, s)
    && var view: Disk := s.view[b := data];
       t == s.(view := view, blocks := Absorb(s.blocks, b), ops := s.ops[i := s.ops[i].(used := s.ops[i].used + {b})])
  }

  function Drop(ops: seq<Op>, i: nat): seq<Op>
    requires i < |ops|
  {
    ops[..i] + ops[i+1..]
  }

  /** The locked part of end_op; the last operation out starts the commit. */
  ghost predicate End(g: Geometry, s: State, t: State, i: nat)
  {
    && !s.phase.Recovering? && i < |s.ops| && s.outstanding > 0 && !s.committing
    && var t0 := s.(outstanding := s.outstanding - 1, ops := Drop(s.ops, i));
       t == if t0.outstanding == 0 then t0.(committing := true, phase := Committing(s.disk, s.view, 0)) else t0
  }

  /** One bwrite of commit. */
  ghost predicate CommitStep(g: Geometry, s: State, t: State)
  {
    && s.phase.Committing? && HasLog(g, s.phase.target) && HomeBlocks(g, s.phase.target, s.blocks)
    && var ws := CommitWrites(g, s.phase.target, s.blocks);
    && s.phase.done < |ws|
    && var w := ws[s.phase.done];
    && var disk: Disk := s.disk[w.blockno := w.data];
    && var view: Disk := s.view[w.blockno := w.data];
       t == s.(disk := disk, view := view, phase := Committing(s.phase.from, s.phase.target, s.phase.done + 1))
  }

  /** commit returns, and end_op lets operations in again. */
  ghost predicate CommitDone(g: Geometry, s: State, t: State)
  {
    && s.phase.Committing? && HasLog(g, s.phase.target) && HomeBlocks(g, s.phase.target, s.blocks)
    && s.phase.done == |CommitWrites(g, s.phase.target, s.blocks)|
    && t == s.(blocks := [], committing := false, phase := Idle)
  }

  /** The machine stops and reboots: only the disk survives. */
  ghost predicate Crash(s: State, t: State)
  {
    t == State(s.disk, s.disk, [], 0, false, [], Recovering(s.disk, 0))
  }

  ghost predicate RecoverStep(g: Geometry, s: State, t: State)
  {
    && s.phase.Recovering? && GoodLog(g, s.phase.from)
    && var ws := RecoverWrites(g, s.phase.from);
    && s.phase.done < |ws|
    && var w := ws[s.phase.done];
    && var disk: Disk := s.disk[w.blockno := w.data];
       t == s.(disk := disk, view := disk, phase := Recovering(s.phase.from, s.phase.done + 1))
  }

  ghost predicate RecoverDone(g: Geometry, s: State, t: State)
  {
    && s.phase.Recovering? && GoodLog(g, s.phase.from)
    && s.phase.done == |RecoverWrites(g, s.phase.from)|
    && t == s.(phase := Idle)
  }

  ghost predicate Next(g: Geometry, budget: nat, s: State, t: State)
  {
    || (exists id :: Begin(s, t, id))
    || (exists i, b, data :: LogWrite(g, budget, s, t, i, b, data))
    || (exists i :: End(g, s, t, i))
    || CommitStep(g, s, t)
    || CommitDone(g, s, t)
    || Crash(s, t)
    || RecoverStep(g, s, t)
    || RecoverDone(g, s, t)
  }

  ghost predicate Init(g: Geometry, s: State)
  {
    && GoodLog(g, s.disk)
    && s == State(s.disk, s.disk, [], 0, false, [], Recovering(s.disk, 0))
  }

  // ----- Log space -------------------------------------------------------------------------

  /** Blocks the running operations may still log, out of a number for each. */
  function Unspent(ops: seq<Op>, each: nat): int
  {
    if ops == [] then 0 else each - |ops[0].used| + Unspent(ops[1..], each)
  }

  lemma {:induction false} UnspentConcat(a: seq<Op>, b: seq<Op>, each: nat)
    ensures Unspent(a + b, each) == Unspent(a, each) + Unspent(b, each)
  {
    if a == [] {
      assert a + b == b;
    } else {
      assert (a + b)[1..] == a[1..] + b;
      UnspentConcat(a[1..], b, each);
    }
  }

  lemma UnspentSplit(ops: seq<Op>, i: nat, each: nat)
    requires i < |ops|
    ensures Unspent(ops, each) == Unspent(Drop(ops, i), each) + each - |ops[i].used|
    ensures forall o: Op :: Unspent(ops[i := o], each) == Unspent(Drop(ops, i), each) + each - |o.used|
  {
    var a, b := ops[..i], ops[i+1..];
    UnspentConcat(a, b, each);
    forall o: Op ensures Unspent(ops[i := o], each) == Unspent(Drop(ops, i), each) + each - |o.used| {
      assert ops[i := o] == a + ([o] + b);
      UnspentConcat(a, [o] + b, each);
      assert ([o] + b)[1..] == b;
    }
    assert ops[i := ops[i]] == ops;
  }

  lemma {:induction false} UnspentNonNegative(ops: seq<Op>, each: nat)
    requires forall i | 0 <= i < |ops| :: |ops[i].used| <= each
    ensures Unspent(ops, each) >= 0
  {
    if ops != [] {
      UnspentNonNegative(ops[1..], each);
    }
  }

  /** Every operation's reservation, less what it has spent, still fits in the log. */
  ghost predicate SpaceInv(s: State)
  {
    && s.outstanding == |s.ops|
    && (forall i | 0 <= i < |s.ops| ::
          |s.ops[i].used| <= MAXOPBLOCKS && forall b | b in s.ops[i].used :: b in s.blocks)
    && (forall i, j | 0 <= i < j < |s.ops| :: s.ops[i].id != s.ops[j].id)
    && |s.blocks| + Unspent(s.ops, MAXOPBLOCKS) <= LOGSIZE
  }

  ghost predicate DiskInv(g: Geometry, s: State)
  {
    match s.phase
    case Idle =>
      !s.committing && Ready(g, s.disk, s.view, s.blocks)
    case Committing(from, target, done) =>
      && s.committing && s.ops == []
      && Ready(g, from, target, s.blocks) && HasLog(g, target) && HomeBlocks(g, target, s.blocks)
      && var ws := CommitWrites(g, target, s.blocks);
         done <= |ws| && s.disk == ApplyFirst(from, ws, done) && s.view == ApplyFirst(target, ws, done)
    case Recovering(from, done) =>
      && !s.committing && s.ops == [] && s.blocks == []
      && GoodLog(g, from) && done <= |RecoverWrites(g, from)|
      && s.disk == s.view == ApplyFirst(from, RecoverWrites(g, from), done)
  }

  ghost predicate Inv(g: Geometry, s: State)
  {
    SpaceInv(s) && DiskInv(g, s)
  }

  // ----- The abstract machine ----------------------------------------------------------------

  /** Blocks outside the log. */
  type Home = map<nat, Block>

  ghost function HomeOf(g: Geometry, d: Disk): Home
  {
    map b | b in d && !InLog(g, b) :: d[b]
  }

  /** What a crash would leave, what operations see, and the operations running. */
  datatype Abstract = Abstract(durable: Home, current: Home, active: set<nat>)

  ghost predicate AbstractNext(a: Abstract, c: Abstract)
  {
    || c == a
    || (exists id :: id !in a.active && c == a.(active := a.active + {id}))
    || (exists id, b, data :: AbstractWrite(a, c, id, b, data))
    || (exists id :: id in a.active && c == a.(active := a.active - {id}))
    // all that has been written becomes durable at once, and only when no operation is running
    || (a.active == {} && c == a.(durable := a.current))
    || c == Abstract(a.durable, a.durable, {})
  }

  ghost predicate AbstractWrite(a: Abstract, c: Abstract, id: nat, b: nat, data: Block)
  {
    id in a.active && b in a.current && var home: Home := a.current[b := data]; c == a.(current := home)
  }

  ghost function Active(ops: seq<Op>): set<nat>
  {
    set i | 0 <= i < |ops| :: ops[i].id
  }

  /** The abstract state: a crash leaves whatever recovery would make of the disk. */
  ghost function Abs(g: Geometry, s: State): Abstract
    requires GoodLog(g, s.disk)
  {
    var durable := HomeOf(g, Recovered(g, s.disk));
    Abstract(durable, if s.phase.Recovering? then durable else HomeOf(g, s.view), Active(s.ops))
  }

  // ----- Inductive steps ---------------------------------------------------------------------

  lemma SameHomeOf(g: Geometry, d: Disk, e: Disk)
    requires SameHome(g, d, e)
    ensures HomeOf(g, d) == HomeOf(g, e)
  {
  }

  lemma ApplyFirstStep(d: Disk, ws: seq<Write>, k: nat)
    requires k < |ws|
    ensures ApplyFirst(d, ws, k + 1) == ApplyFirst(d, ws, k)[ws[k].blockno := ws[k].data]
  {
    ApplyConcat(d, ws[..k], [ws[k]]);
    assert ws[..k] + [ws[k]] == ws[..k+1];
    var e := ApplyFirst(d, ws, k);
    assert Apply(e, [ws[k]]) == e[ws[k].blockno := ws[k].data];
  }

  /** Between transactions what is durable is the disk. */
  lemma ReadyDurable(g: Geometry, d: Disk, view: Disk, blocks: seq<nat>)
    requires Ready(g, d, view, blocks)
    ensures GoodLog(g, d) && HomeOf(g, Recovered(g, d)) == HomeOf(g, d)
  {
    RecoveredIs(g, d);
    SameHomeOf(g, Recovered(g, d), d);
  }

  lemma {:induction false} RewritesSame(d: Disk, ws: seq<Write>, b: nat)
    requires b in d && forall t | 0 <= t < |ws| && ws[t].blockno == b :: ws[t].data == d[b]
    ensures b in Apply(d, ws) && Apply(d, ws)[b] == d[b]
    decreases |ws|
  {
    if ws != [] {
      RewritesSame(d[ws[0].blockno := ws[0].data], ws[1..], b);
    }
  }

  /** commit writes nothing to a home block that is not in the view already. */
  lemma CommitKeepsView(g: Geometry, view: Disk, blocks: seq<nat>, k: nat)
    requires HasLog(g, view) && HomeBlocks(g, view, blocks) && k <= |CommitWrites(g, view, blocks)|
    ensures HomeOf(g, ApplyFirst(view, CommitWrites(g, view, blocks), k)) == HomeOf(g, view)
  {
    var ws := CommitWrites(g, view, blocks);
    forall t | 0 <= t < |ws|
      ensures ws[t].blockno in view && (!InLog(g, ws[t].blockno) ==> ws[t].data == view[ws[t].blockno])
    {
      CommitWriteAt(g, view, blocks, t);
    }
    ApplyKeys(view, ws[..k]);
    forall b | b in view && !InLog(g, b) ensures Apply(view, ws[..k])[b] == view[b] {
      RewritesSame(view, ws[..k], b);
    }
  }

  lemma CommitWriteAt(g: Geometry, view: Disk, blocks: seq<nat>, t: nat)
    requires HasLog(g, view) && HomeBlocks(g, view, blocks) && t < |CommitWrites(g, view, blocks)|
    ensures var w := CommitWrites(g, view, blocks)[t];
            w.blockno in view && (!InLog(g, w.blockno) ==> w.data == view[w.blockno])
  {
    var n := |blocks|;
    assert InLog(g, g.start);
    if t < n {
      assert InLog(g, g.start + 1 + t);
    } else if n < t <= 2 * n {
      assert CommitWrites(g, view, blocks)[t] == HomeWrites(g, view, blocks)[t - n - 1];
    }
  }

  /** What is durable while commit is under way: the old blocks before the header write, the new ones after. */
  lemma CommittingAbs(g: Geometry, s: State)
    requires Inv(g, s) && s.phase.Committing?
    ensures GoodLog(g, s.disk)
    ensures Abs(g, s) == Abstract(HomeOf(g, if s.phase.done <= |s.blocks| then s.phase.from else s.phase.target),
                                  HomeOf(g, s.phase.target), {})
  {
    CrashDuringCommit(g, s.phase.from, s.phase.target, s.blocks, s.phase.done);
    SameHomeOf(g, Recovered(g, s.disk), if s.phase.done <= |s.blocks| then s.phase.from else s.phase.target);
    CommitKeepsView(g, s.phase.target, s.blocks, s.phase.done);
  }

  lemma RecoveringAbs(g: Geometry, s: State)
    requires Inv(g, s) && s.phase.Recovering?
    ensures GoodLog(g, s.disk)
    ensures Abs(g, s).durable == HomeOf(g, Recovered(g, s.phase.from)) && Abs(g, s).active == {}
  {
    CrashDuringRecovery(g, s.phase.from, s.phase.done);
    SameHomeOf(g, Recovered(g, s.disk), Recovered(g, s.phase.from));
  }

  /** Whatever is going on, recovery would find a good log. */
  lemma InvGoodLog(g: Geometry, s: State)
    requires Inv(g, s)
    ensures GoodLog(g, s.disk)
  {
    match s.phase
    case Idle =>
    case Committing(_, _, _) => CommittingAbs(g, s);
    case Recovering(_, _) => RecoveringAbs(g, s);
  }

  // ----- Each step keeps the invariant and refines an abstract step ---------------------------

  ghost predicate Refines(g: Geometry, s: State, t: State)
    requires Inv(g, s)
  {
    Inv(g, t) && GoodLog(g, s.disk) && GoodLog(g, t.disk) && AbstractNext(Abs(g, s), Abs(g, t))
  }

  lemma ActiveAppend(ops: seq<Op>, o: Op)
    ensures Active(ops + [o]) == Active(ops) + {o.id}
  {
    var ops' := ops + [o];
    assert ops'[|ops|].id == o.id;
    forall i | 0 <= i < |ops| ensures ops[i].id in Active(ops') {
      assert ops'[i].id == ops[i].id;
    }
  }

  lemma ActiveDrop(ops: seq<Op>, i: nat)
    requires i < |ops| && forall j, k | 0 <= j < k < |ops| :: ops[j].id != ops[k].id
    ensures Active(Drop(ops, i)) == Active(ops) - {ops[i].id} && ops[i].id in Active(ops)
  {
    var ops' := Drop(ops, i);
    forall j | 0 <= j < |ops| && j != i ensures ops[j].id in Active(ops') {
      assert ops'[if j < i then j else j - 1] == ops[j];
    }
    forall j | 0 <= j < |ops'| ensures ops'[j].id in Active(ops) && ops'[j].id != ops[i].id {
      assert ops'[j] == ops[if j < i then j else j + 1];
    }
  }

  lemma ActiveUpdate(ops: seq<Op>, i: nat, o: Op)
    requires i < |ops| && o.id == ops[i].id
    ensures Active(ops[i := o]) == Active(ops)
  {
    assert forall j | 0 <= j < |ops| :: ops[i := o][j].id == ops[j].id;
  }

  lemma BeginSpace(s: State, t: State, id: nat)
    requires SpaceInv(s) && Begin(s, t, id)
    ensures SpaceInv(t)
  {
    var n, m := s.outstanding, MAXOPBLOCKS;
    assert (n + 1) * m == n * m + m;
    UnspentConcat(s.ops, [Op(id, {})], MAXOPBLOCKS);
    UnspentBound(s.ops, MAXOPBLOCKS);
  }

  lemma BeginRefines(g: Geometry, s: State, t: State, id: nat)
    requires Inv(g, s) && Begin(s, t, id)
    ensures Refines(g, s, t)
  {
    BeginSpace(s, t, id);
    InvGoodLog(g, s);
    ActiveAppend(s.ops, Op(id, {}));
    hide SpaceInv, Ready, GoodLog, Recovered, HomeOf;
    assert id !in Active(s.ops);
  }

  lemma {:induction false} UnspentBound(ops: seq<Op>, each: nat)
    ensures Unspent(ops, each) <= |ops| * each
  {
    if ops != [] {
      UnspentBound(ops[1..], each);
    }
  }

  lemma LogWriteSpace(g: Geometry, budget: nat, s: State, t: State, i: nat, b: nat, data: Block)
    requires SpaceInv(s) && LogWrite(g, budget, s, t, i, b, data) && budget <= MAXOPBLOCKS
    ensures SpaceInv(t)
  {
    UnspentSplit(s.ops, i, MAXOPBLOCKS);
    var used := s.ops[i].used;
    if b in used {
      assert used + {b} == used;
      assert t.ops == s.ops;
    }
  }

  lemma LogWriteReadied(g: Geometry, d: Disk, view: Disk, blocks: seq<nat>, b: nat, data: Block)
    requires Ready(g, d, view, blocks) && |blocks| < LOGSIZE && |blocks| < g.size - 1
    requires b in d && !InLog(g, b) && b < UINT_LIMIT
    ensures Ready(g, d, view[b := data], Absorb(blocks, b))
    ensures HomeOf(g, view[b := data]) == HomeOf(g, view)[b := data]
  {
    ReadyKeys(g, d, view, blocks);
    ReadyAbsorb(g, d, view, blocks, b, data);
    hide Ready, Absorb;
  }

  lemma LogWriteRefines(g: Geometry, budget: nat, s: State, t: State, i: nat, b: nat, data: Block)
    requires Inv(g, s) && LogWrite(g, budget, s, t, i, b, data) && budget <= MAXOPBLOCKS
    ensures Refines(g, s, t)
  {
    LogWriteSpace(g, budget, s, t, i, b, data);
    LogWriteReadied(g, s.disk, s.view, s.blocks, b, data);
    ReadyDurable(g, s.disk, s.view, s.blocks);
    ActiveUpdate(s.ops, i, t.ops[i]);
    assert s.ops[i].id in Active(s.ops);
    assert AbstractWrite(Abs(g, s), Abs(g, t), s.ops[i].id, b, data);
  }

  lemma EndSpace(g: Geometry, s: State, t: State, i: nat)
    requires SpaceInv(s) && End(g, s, t, i)
    ensures SpaceInv(t)
  {
    UnspentSplit(s.ops, i, MAXOPBLOCKS);
    assert forall j | 0 <= j < |t.ops| :: t.ops[j] == s.ops[if j < i then j else j + 1];
  }

  lemma EndDisk(g: Geometry, s: State, t: State, i: nat)
    requires Inv(g, s) && End(g, s, t, i)
    ensures DiskInv(g, t) && s.phase.Idle? && t.disk == s.disk && t.view == s.view && t.ops == Drop(s.ops, i)
    ensures !t.phase.Recovering?
  {
    assert s.phase.Idle?;
    if t.phase.Committing? {
      ViewReady(g, s.disk, s.view, s.blocks);
      hide Ready, HasLog, HomeBlocks, CommitWrites;
      var ws := CommitWrites(g, s.view, s.blocks);
      assert ws[..0] == [];
    }
  }

  lemma EndRefines(g: Geometry, s: State, t: State, i: nat)
    requires Inv(g, s) && End(g, s, t, i)
    ensures Refines(g, s, t)
  {
    EndSpace(g, s, t, i);
    EndDisk(g, s, t, i);
    ActiveDrop(s.ops, i);
    InvGoodLog(g, s);
    hide DiskInv, End, GoodLog, HomeOf, Active, Recovered;
  }

  lemma CommitStepInv(g: Geometry, s: State, t: State)
    requires Inv(g, s) && CommitStep(g, s, t)
    ensures Inv(g, t) && s.phase.Committing? && t.blocks == s.blocks
    ensures t.phase == Committing(s.phase.from, s.phase.target, s.phase.done + 1)
  {
    var ws := CommitWrites(g, s.phase.target, s.blocks);
    hide CommitWrites, Ready, GoodLog, ApplyFirst, HasLog, HomeBlocks;
    ApplyFirstStep(s.phase.from, ws, s.phase.done);
    ApplyFirstStep(s.phase.target, ws, s.phase.done);
  }

  lemma CommitStepRefines(g: Geometry, s: State, t: State)
    requires Inv(g, s) && CommitStep(g, s, t)
    ensures Refines(g, s, t)
  {
    CommitStepInv(g, s, t);
    hide Inv, CommitStep, GoodLog, HomeOf, Abs;
    CommittingAbs(g, s);
    CommittingAbs(g, t);
  }

  lemma CommitDoneInv(g: Geometry, s: State, t: State)
    requires Inv(g, s) && CommitDone(g, s, t)
    ensures Inv(g, t) && s.phase.Committing? && t.phase.Idle? && t.ops == []
    ensures Ready(g, t.disk, t.view, []) && SameHome(g, t.disk, s.phase.target)
    ensures s.phase.done > |s.blocks| || SameHome(g, s.phase.from, s.phase.target)
  {
    hide Ready, SameHome, HasLog, HomeBlocks, CommitWrites, Apply;
    var from, target := s.phase.from, s.phase.target;
    var ws := CommitWrites(g, target, s.blocks);
    assert ws[..|ws|] == ws;
    CommittedDisks(g, from, target, s.blocks);
    if s.blocks == [] {
      ReadySame(g, from, target);
      SameHomeReflexive(g, from);
    } else {
      CommitWritesMore(g, target, s.blocks);
    }
  }

  lemma CommitWritesMore(g: Geometry, view: Disk, blocks: seq<nat>)
    requires HasLog(g, view) && HomeBlocks(g, view, blocks) && blocks != []
    ensures |CommitWrites(g, view, blocks)| > |blocks|
  {
  }

  lemma CommitDoneRefines(g: Geometry, s: State, t: State)
    requires Inv(g, s) && CommitDone(g, s, t)
    ensures Refines(g, s, t)
  {
    CommitDoneInv(g, s, t);
    hide Inv, CommitDone, GoodLog, HomeOf, Ready, SameHome, Recovered;
    CommittingAbs(g, s);
    ReadyDurable(g, t.disk, t.view, []);
    ReadySame(g, t.disk, t.view);
    SameHomeOf(g, t.disk, s.phase.target);
    if s.phase.done <= |s.blocks| {
      SameHomeOf(g, s.phase.from, s.phase.target);
    }
  }

  lemma ReadySame(g: Geometry, d: Disk, view: Disk)
    requires Ready(g, d, view, [])
    ensures d == view
  {
  }

  lemma CrashRefines(g: Geometry, s: State, t: State)
    requires Inv(g, s) && Crash(s, t)
    ensures Refines(g, s, t)
  {
    InvGoodLog(g, s);
    assert RecoverWrites(g, s.disk)[..0] == [];
    RecoveringAbs(g, t);
    assert Active(t.ops) == {};
  }

  lemma RecoverStepRefines(g: Geometry, s: State, t: State)
    requires Inv(g, s) && RecoverStep(g, s, t)
    ensures Refines(g, s, t)
  {
    ApplyFirstStep(s.phase.from, RecoverWrites(g, s.phase.from), s.phase.done);
    RecoveringAbs(g, s);
    RecoveringAbs(g, t);
  }

  lemma RecoverDoneRefines(g: Geometry, s: State, t: State)
    requires Inv(g, s) && RecoverDone(g, s, t)
    ensures Refines(g, s, t)
  {
    var ws := RecoverWrites(g, s.phase.from);
    assert ws[..|ws|] == ws;
    RecoveredIs(g, s.phase.from);
    RecoveringAbs(g, s);
    ReadyDurable(g, t.disk, t.view, []);
  }

  /** Group commit: every step of every interleaving refines the atomic-transaction machine. */
  lemma NextRefines(g: Geometry, budget: nat, s: State, t: State)
    requires Inv(g, s) && Next(g, budget, s, t) && budget <= MAXOPBLOCKS
    ensures Refines(g, s, t)
  {
    hide Inv, Refines, Begin, LogWrite, End, CommitStep, CommitDone, Crash, RecoverStep, RecoverDone;
    if id :| Begin(s, t, id) {
      BeginRefines(g, s, t, id);
    } else if i, b, data :| LogWrite(g, budget, s, t, i, b, data) {
      LogWriteRefines(g, budget, s, t, i, b, data);
    } else if i :| End(g, s, t, i) {
      EndRefines(g, s, t, i);
    } else if CommitStep(g, s, t) {
      CommitStepRefines(g, s, t);
    } else if CommitDone(g, s, t) {
      CommitDoneRefines(g, s, t);
    } else if Crash(s, t) {
      CrashRefines(g, s, t);
    } else if RecoverStep(g, s, t) {
      RecoverStepRefines(g, s, t);
    } else {
      RecoverDoneRefines(g, s, t);
    }
  }

  // ----- Whole runs --------------------------------------------------------------------------

  ghost predicate Run(g: Geometry, budget: nat, run: seq<State>)
  {
    && run != [] && Init(g, run[0])
    && forall i | 0 <= i < |run| - 1 :: Next(g, budget, run[i], run[i+1])
  }

  lemma InitInv(g: Geometry, s: State)
    requires Init(g, s)
    ensures Inv(g, s)
  {
    assert RecoverWrites(g, s.disk)[..0] == [];
  }

  /**
   * In every reachable state: while committing no operation is running, so end_op's panic is
   * unreachable; the header lists no block twice; and the header plus every reservation not
   * yet spent fits in the log.
   */
  lemma {:induction false} RunInv(g: Geometry, budget: nat, run: seq<State>, i: nat)
    requires Run(g, budget, run) && budget <= MAXOPBLOCKS && i < |run|
    ensures Inv(g, run[i])
    ensures run[i].committing ==> run[i].outstanding == 0 && run[i].ops == []
    ensures Distinct(run[i].blocks)
    ensures |run[i].blocks| + Unspent(run[i].ops, MAXOPBLOCKS) <= LOGSIZE && |run[i].blocks| <= LOGSIZE
    decreases i
  {
    if i == 0 {
      InitInv(g, run[0]);
    } else {
      RunInv(g, budget, run, i - 1);
      assert Next(g, budget, run[i-1], run[i-1+1]);
      NextRefines(g, budget, run[i-1], run[i]);
    }
    InvFacts(g, run[i]);
  }

  lemma InvFacts(g: Geometry, s: State)
    requires Inv(g, s)
    ensures s.committing ==> s.outstanding == 0 && s.ops == []
    ensures Distinct(s.blocks)
    ensures |s.blocks| + Unspent(s.ops, MAXOPBLOCKS) <= LOGSIZE && |s.blocks| <= LOGSIZE
  {
    UnspentNonNegative(s.ops, MAXOPBLOCKS);
  }

  /** No operation is running, nothing is listed and nothing is being committed. */
  predicate Quiet(s: State)
  {
    s.phase.Idle? && s.ops == [] && s.blocks == []
  }

  /** In a quiet state everything operations have written is durable. */
  lemma QuietDurable(g: Geometry, s: State)
    requires Inv(g, s) && Quiet(s)
    ensures GoodLog(g, s.disk) && HomeOf(g, Recovered(g, s.disk)) == Abs(g, s).current
  {
    ReadySame(g, s.disk, s.view);
    ReadyDurable(g, s.disk, s.view, []);
  }

  /**
   * Crash safety of whole runs: if the machine crashes in state i, recovery restores the home
   * blocks exactly as operations saw them in some earlier state j in which no operation was
   * running.  No operation is ever half in, and none that a quiet state had in is ever lost:
   * j is no earlier than the last quiet state, such as the one after a commit.
   */
  lemma {:induction false} CrashSafety(g: Geometry, budget: nat, run: seq<State>, i: nat) returns (j: nat)
    requires Run(g, budget, run) && budget <= MAXOPBLOCKS && i < |run|
    ensures j <= i && GoodLog(g, run[i].disk) && GoodLog(g, run[j].disk)
    ensures run[j].ops == []
    ensures HomeOf(g, Recovered(g, run[i].disk)) == Abs(g, run[j]).current
    ensures forall k | 0 <= k <= i && Quiet(run[k]) :: k <= j
    decreases i
  {
    hide Inv, Next, Init, GoodLog, Recovered, HomeOf, Active;
    RunInv(g, budget, run, i);
    InvGoodLog(g, run[i]);
    if Quiet(run[i]) {
      j := i;
      QuietDurable(g, run[i]);
    } else if i == 0 {
      j := 0;
      InitRecovering(g, run[0]);
    } else {
      assert Next(g, budget, run[i-1], run[i-1+1]);
      RunInv(g, budget, run, i - 1);
      NextRefines(g, budget, run[i-1], run[i]);
      var a, c := Abs(g, run[i-1]), Abs(g, run[i]);
      if c.durable == a.durable {
        j := CrashSafety(g, budget, run, i - 1);
      } else {
        j := i - 1;
        NoneActive(run[j].ops);
      }
    }
  }

  lemma InitRecovering(g: Geometry, s: State)
    requires Init(g, s)
    ensures s.phase.Recovering? && s.ops == []
  {
  }

  lemma NoneActive(ops: seq<Op>)
    ensures Active(ops) == {} <==> ops == []
  {
    assert ops != [] ==> ops[0].id in Active(ops);
  }
}
