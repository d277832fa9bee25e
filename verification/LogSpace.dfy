/**
 * When log_write of xv6/log.c runs into "too big a transaction".  It does so at LOGSIZE listed blocks, or
 * at one block less than the log area, even for a block that is listed already.  For operations that keep
 * to a budget of blocks each, at most Cap(budget) blocks are ever listed, and that many are in some run.
 */
module LogSpace {
  import opened Blocks
  import opened Common
  import opened BufferCache
  import opened LogSpec
  import opened Log
  import opened LogProtocol

  /** The length of the list at which log_write panics. */
  function Limit(g: Geometry): int
  {
    if LOGSIZE < g.size - 1 then LOGSIZE else g.size - 1
  }

  /**
   * The most blocks operations within the budget can list.  A second operation is let in only if MAXOPBLOCKS
   * more fit for it and for each one running, of which each then uses no more than the budget.
   */
  function Cap(budget: nat): int
  {
    if 2 * MAXOPBLOCKS <= LOGSIZE then LOGSIZE - 2 * (MAXOPBLOCKS - budget) else budget
  }

  /** Operations can run at all, may write a block, and can list as many as make log_write panic. */
  predicate Overruns(g: Geometry, budget: nat)
  {
    0 < budget && MAXOPBLOCKS <= LOGSIZE && Cap(budget) >= Limit(g)
  }

  /** With three times MAXOPBLOCKS blocks in the log, as in param.h and mkfs.c, only the full budget is too much. */
  lemma ShippedSizes(g: Geometry, budget: nat)
    requires LOGSIZE == 3 * MAXOPBLOCKS == g.size && budget <= MAXOPBLOCKS
    ensures Overruns(g, budget) <==> budget == MAXOPBLOCKS
  {
  }

  ghost predicate Reachable(g: Geometry, budget: nat, s: State)
  {
    exists run :: Run(g, budget, run) && run[|run|-1] == s
  }

  /** Operation i is about to write a block within its budget, and log_write panics. */
  ghost predicate PanicsAt(g: Geometry, budget: nat, s: State, i: nat, b: nat)
  {
    WithinBudget(s, i, b, budget) && b in s.disk && !InLog(g, b) && b < UINT_LIMIT && LogWritePanics(g, s)
  }

  ghost predicate PanicReachable(g: Geometry, budget: nat)
  {
    exists s, i, b :: Reachable(g, budget, s) && PanicsAt(g, budget, s, i, b)
  }

  // ----- No more than Cap(budget) blocks ---------------------------------------------------

  /** What is listed and what the running operations may still list fits in the cap. */
  ghost predicate CapInv(budget: nat, s: State)
  {
    && (forall i | 0 <= i < |s.ops| :: |s.ops[i].used| <= budget)
    && (s.ops == [] && s.phase.Idle? ==> s.blocks == [])
    && (s.ops != [] ==> s.phase.Idle? && MAXOPBLOCKS <= LOGSIZE && |s.blocks| + Unspent(s.ops, budget) <= Cap(budget))
  }

  /** The room begin_op insists on, for n operations running and one more, is within the cap. */
  lemma AdmittedFits(listed: nat, n: nat, budget: nat)
    requires listed + (n + 1) * MAXOPBLOCKS <= LOGSIZE && budget <= MAXOPBLOCKS && (n == 0 ==> listed == 0)
    ensures MAXOPBLOCKS <= LOGSIZE && listed + (n + 1) * budget <= Cap(budget)
  {
    MulMonotone(1, n + 1, MAXOPBLOCKS);
    if n > 0 {
      var spare := MAXOPBLOCKS - budget;
      MulMonotone(2, n + 1, spare);
      MulMonotone(2, n + 1, MAXOPBLOCKS);
      assert (n + 1) * MAXOPBLOCKS == (n + 1) * budget + (n + 1) * spare;
    }
  }

  /** One more operation, none of whose budget is spent. */
  lemma UnspentBegin(ops: seq<Op>, id: nat, budget: nat)
    ensures Unspent(ops + [Op(id, {})], budget) <= (|ops| + 1) * budget
  {
    UnspentConcat(ops, [Op(id, {})], budget);
    UnspentBound(ops, budget);
    assert Unspent([Op(id, {})], budget) == budget;
    hide Unspent;
    assert (|ops| + 1) * budget == |ops| * budget + budget;
  }

  lemma BeginCap(g: Geometry, budget: nat, s: State, t: State, id: nat)
    requires Inv(g, s) && CapInv(budget, s) && Begin(s, t, id) && budget <= MAXOPBLOCKS
    ensures CapInv(budget, t)
  {
    assert s.outstanding == |s.ops| && s.phase.Idle?;
    hide Inv, Cap, Unspent;
    AdmittedFits(|s.blocks|, |s.ops|, budget);
    UnspentBegin(s.ops, id, budget);
    assert t.ops[|s.ops|] == Op(id, {});
  }

  lemma LogWriteCap(g: Geometry, budget: nat, s: State, t: State, i: nat, b: nat, data: Block)
    requires Inv(g, s) && CapInv(budget, s) && LogWrite(g, budget, s, t, i, b, data)
    ensures CapInv(budget, t)
  {
    UnspentSplit(s.ops, i, budget);
    assert t.ops == s.ops[i := Op(s.ops[i].id, s.ops[i].used + {b})];
    assert b !in s.blocks ==> b !in s.ops[i].used;
    SubsetSize(s.ops[i].used, s.ops[i].used + {b});
  }

  lemma EndCap(g: Geometry, budget: nat, s: State, t: State, i: nat)
    requires Inv(g, s) && CapInv(budget, s) && End(g, s, t, i)
    ensures CapInv(budget, t)
  {
    UnspentSplit(s.ops, i, budget);
    assert t.ops == Drop(s.ops, i);
    assert forall j | 0 <= j < |t.ops| :: t.ops[j] == s.ops[if j < i then j else j + 1];
  }

  lemma NextCap(g: Geometry, budget: nat, s: State, t: State)
    requires Inv(g, s) && CapInv(budget, s) && Next(g, budget, s, t) && budget <= MAXOPBLOCKS
    ensures CapInv(budget, t)
  {
    if id :| Begin(s, t, id) {
      BeginCap(g, budget, s, t, id);
    } else if i, b, data :| LogWrite(g, budget, s, t, i, b, data) {
      LogWriteCap(g, budget, s, t, i, b, data);
    } else if i :| End(g, s, t, i) {
      EndCap(g, budget, s, t, i);
    }
  }

  lemma {:induction false} RunCap(g: Geometry, budget: nat, run: seq<State>, i: nat)
    requires Run(g, budget, run) && budget <= MAXOPBLOCKS && i < |run|
    ensures CapInv(budget, run[i]) && Inv(g, run[i])
    decreases i
  {
    hide Inv, Next;
    RunInv(g, budget, run, i);
    if i > 0 {
      RunCap(g, budget, run, i - 1);
      assert Next(g, budget, run[i-1], run[i-1+1]);
      NextCap(g, budget, run[i-1], run[i]);
    }
  }

  /** Within a budget that does not overrun, log_write's checks pass in every reachable state. */
  lemma LogWriteSafe(g: Geometry, budget: nat, s: State, i: nat, b: nat)
    requires Reachable(g, budget, s) && budget <= MAXOPBLOCKS && !Overruns(g, budget) && WithinBudget(s, i, b, budget)
    ensures !LogWritePanics(g, s)
  {
    var run :| Run(g, budget, run) && run[|run|-1] == s;
    hide Run;
    RunCap(g, budget, run, |run| - 1);
    UnspentNonNegative(s.ops, budget);
    SubsetSize({b}, s.ops[i].used + {b});
  }

  // ----- Cap(budget) blocks in some run ------------------------------------------------------

  lemma ReachStep(g: Geometry, budget: nat, s: State, t: State)
    requires Reachable(g, budget, s) && Next(g, budget, s, t)
    ensures Reachable(g, budget, t)
  {
    hide Next, Init;
    var run :| Run(g, budget, run) && run[|run|-1] == s;
    var run' := run + [t];
    forall i | 0 <= i < |run'| - 1 ensures Next(g, budget, run'[i], run'[i+1]) {
      if i < |run| - 1 {
        assert Next(g, budget, run[i], run[i+1]);
      }
    }
    assert Run(g, budget, run') && run'[|run'|-1] == t;
  }

  /** Operations running over a disk that nothing has changed. */
  function Open(d: Disk, blocks: seq<nat>, ops: seq<Op>): State
  {
    State(d, d, blocks, |ops|, false, ops, Idle)
  }

  /** An idle system on a disk whose log is empty. */
  lemma ReachIdle(g: Geometry, budget: nat, d: Disk) returns (d': Disk)
    requires GoodLog(g, d) && HeadCount(d[g.start]) == 0
    ensures d'.Keys == d.Keys && Reachable(g, budget, Open(d', [], []))
  {
    var s0 := State(d, d, [], 0, false, [], Recovering(d, 0));
    var ws := RecoverWrites(g, d);
    d' := d[ws[0].blockno := ws[0].data];
    assert Run(g, budget, [s0]) && [s0][|[s0]|-1] == s0;
    var s1 := State(d', d', [], 0, false, [], Recovering(d, 1));
    assert RecoverStep(g, s0, s1);
    ReachStep(g, budget, s0, s1);
    assert RecoverDone(g, s1, s1.(phase := Idle));
    ReachStep(g, budget, s1, s1.(phase := Idle));
    RecoveredIs(g, d);
    assert d' == Recovered(g, d) by {
      assert ws == [ws[0]] && Apply(d, ws) == Apply(d', ws[1..]);
    }
  }

  /** Distinct blocks outside the log, enough to fill it. */
  ghost predicate Fills(g: Geometry, d: Disk, home: seq<nat>)
  {
    && LOGSIZE <= |home| && Distinct(home)
    && forall t | 0 <= t < |home| :: home[t] in d && !InLog(g, home[t]) && home[t] < UINT_LIMIT
  }

  lemma ReachBegin(g: Geometry, budget: nat, d: Disk, blocks: seq<nat>, ops: seq<Op>, id: nat)
    requires Reachable(g, budget, Open(d, blocks, ops)) && |blocks| + (|ops| + 1) * MAXOPBLOCKS <= LOGSIZE
    requires forall i | 0 <= i < |ops| :: ops[i].id != id
    ensures Reachable(g, budget, Open(d, blocks, ops + [Op(id, {})]))
  {
    var s, t := Open(d, blocks, ops), Open(d, blocks, ops + [Op(id, {})]);
    assert Begin(s, t, id);
    hide Reachable;
    ReachStep(g, budget, s, t);
  }

  /** Operation i logs the next block of home. */
  lemma ReachLog(g: Geometry, budget: nat, d: Disk, home: seq<nat>, m: nat, ops: seq<Op>, i: nat)
    requires Fills(g, d, home) && m < Limit(g) && i < |ops| && |ops[i].used| < budget
    requires Reachable(g, budget, Open(d, home[..m], ops))
    ensures Reachable(g, budget, Open(d, home[..m+1], ops[i := Op(ops[i].id, ops[i].used + {home[m]})]))
  {
    var s := Open(d, home[..m], ops);
    var t := Open(d, home[..m+1], ops[i := Op(ops[i].id, ops[i].used + {home[m]})]);
    assert home[m] !in home[..m] && home[..m] + [home[m]] == home[..m+1];
    assert d[home[m] := d[home[m]]] == d;
    AddOne(ops[i].used, home[m]);
    assert LogWrite(g, budget, s, t, i, home[m], d[home[m]]);
    hide Reachable;
    ReachStep(g, budget, s, t);
  }

  lemma AddOne(used: set<nat>, b: nat)
    ensures |used| <= |used + {b}| <= |used| + 1
  {
    if b in used {
      assert used + {b} == used;
    }
  }

  /** Operation i logs the blocks of home up to n. */
  lemma {:induction false} ReachLogged(g: Geometry, budget: nat, d: Disk, home: seq<nat>, m: nat, n: nat, ops: seq<Op>, i: nat)
    returns (ops': seq<Op>)
    requires Fills(g, d, home) && m <= n <= Limit(g) && i < |ops| && |ops[i].used| + n - m <= budget
    requires Reachable(g, budget, Open(d, home[..m], ops))
    ensures Reachable(g, budget, Open(d, home[..n], ops'))
    ensures |ops'| == |ops| && |ops'[i].used| <= |ops[i].used| + n - m && (n > m ==> home[n-1] in ops'[i].used)
    ensures forall j | 0 <= j < |ops| && j != i :: ops'[j] == ops[j]
    decreases n - m
  {
    hide Reachable, Fills;
    if m == n {
      ops' := ops;
    } else {
      var before := ReachLogged(g, budget, d, home, m, n - 1, ops, i);
      FillsSize(g, d, home);
      ReachLog(g, budget, d, home, n - 1, before, i);
      AddOne(before[i].used, home[n-1]);
      ops' := before[i := Op(before[i].id, before[i].used + {home[n-1]})];
    }
  }

  lemma FillsSize(g: Geometry, d: Disk, home: seq<nat>)
    requires Fills(g, d, home)
    ensures Limit(g) <= |home|
  {
  }

  /** One operation stays open while others come, log one block each and go. */
  lemma {:induction false} ReachListed(g: Geometry, budget: nat, d: Disk, home: seq<nat>, k: nat)
    requires Fills(g, d, home) && k <= Limit(g) && k + 2 * MAXOPBLOCKS <= LOGSIZE && 0 < budget
    requires Reachable(g, budget, Open(d, [], []))
    ensures Reachable(g, budget, Open(d, home[..k], [Op(0, {})]))
    decreases k
  {
    hide Reachable, Fills;
    FillsSize(g, d, home);
    if k == 0 {
      ReachBegin(g, budget, d, [], [], 0);
      assert [] + [Op(0, {})] == [Op(0, {})] && home[..0] == [];
    } else {
      ReachListed(g, budget, d, home, k - 1);
      ReachBegin(g, budget, d, home[..k-1], [Op(0, {})], 1);
      var ops := [Op(0, {})] + [Op(1, {})];
      ReachLog(g, budget, d, home, k - 1, ops, 1);
      var ops' := ops[1 := Op(1, {} + {home[k-1]})];
      var s, t := Open(d, home[..k-1+1], ops'), Open(d, home[..k], [Op(0, {})]);
      assert Drop(ops', 1) == [Op(0, {})];
      assert End(g, s, t, 1);
      ReachStep(g, budget, s, t);
    }
  }

  /** As many blocks as make log_write panic are listed, the last of them by an operation still running. */
  lemma ReachFull(g: Geometry, budget: nat, d: Disk, home: seq<nat>) returns (ops: seq<Op>, i: nat)
    requires Fills(g, d, home) && budget <= MAXOPBLOCKS && Overruns(g, budget) && 0 <= Limit(g)
    requires Reachable(g, budget, Open(d, [], []))
    ensures Limit(g) <= |home| && Reachable(g, budget, Open(d, home[..Limit(g)], ops))
    ensures i < |ops| && |ops[i].used| <= budget && (Limit(g) > 0 ==> home[Limit(g) - 1] in ops[i].used)
    ensures Limit(g) == 0 ==> ops[i].used == {}
  {
    hide Reachable, Fills;
    FillsSize(g, d, home);
    var m := Limit(g);
    assert home[..0] == [];
    if LOGSIZE < 2 * MAXOPBLOCKS || m <= budget {
      ReachBegin(g, budget, d, [], [], 0);
      ops, i := [] + [Op(0, {})], 0;
      ops := ReachLogged(g, budget, d, home, 0, m, ops, i);
    } else {
      var room := LOGSIZE - 2 * MAXOPBLOCKS;
      var k := if m - budget < room then m - budget else room;
      ReachListed(g, budget, d, home, k);
      ReachBegin(g, budget, d, home[..k], [Op(0, {})], 1);
      ops := [Op(0, {})] + [Op(1, {})];
      var mid := if m < k + budget then m else k + budget;
      ops := ReachLogged(g, budget, d, home, k, mid, ops, 1);
      i := if mid < m then 0 else 1;
      if mid < m {
        ops := ReachLogged(g, budget, d, home, mid, m, ops, 0);
      }
    }
  }

  /** A budget that overruns makes log_write panic in some run, on any disk with blocks enough to fill the log. */
  lemma LogWritePanicReachable(g: Geometry, budget: nat, d: Disk, home: seq<nat>)
    requires GoodLog(g, d) && Fills(g, d, home) && budget <= MAXOPBLOCKS && Overruns(g, budget)
    ensures PanicReachable(g, budget)
  {
    RecoveredIs(g, d);
    assert InLog(g, g.start) && 0 <= Limit(g);
    hide GoodLog, Recovered, HeadCount, HeadBlocks, Reachable;
    var d' := ReachIdle(g, budget, Recovered(g, d));
    FillsKeys(g, d, d', home);
    var ops, i := ReachFull(g, budget, d', home);
    var b := FullPanics(g, budget, d', home, ops, i);
    hide PanicsAt, Fills, Overruns;
    assert Reachable(g, budget, Open(d', home[..Limit(g)], ops));
  }

  lemma FullPanics(g: Geometry, budget: nat, d: Disk, home: seq<nat>, ops: seq<Op>, i: nat) returns (b: nat)
    requires Fills(g, d, home) && 0 < budget && 0 <= Limit(g) <= |home|
    requires i < |ops| && |ops[i].used| <= budget && (Limit(g) > 0 ==> home[Limit(g) - 1] in ops[i].used)
    requires Limit(g) == 0 ==> ops[i].used == {}
    ensures PanicsAt(g, budget, Open(d, home[..Limit(g)], ops), i, b)
  {
    var m := Limit(g);
    b := home[if m > 0 then m - 1 else 0];
    assert ops[i].used + {b} == if m > 0 then ops[i].used else {b};
  }

  lemma FillsKeys(g: Geometry, d: Disk, e: Disk, home: seq<nat>)
    requires Fills(g, d, home) && d.Keys == e.Keys
    ensures Fills(g, e, home)
  {
  }

  /** Exactly the budgets that overrun make log_write panic, given a disk with blocks enough to fill the log. */
  lemma LogWritePanicsExactly(g: Geometry, budget: nat, d: Disk, home: seq<nat>)
    requires GoodLog(g, d) && Fills(g, d, home) && budget <= MAXOPBLOCKS
    ensures PanicReachable(g, budget) <==> Overruns(g, budget)
  {
    if Overruns(g, budget) {
      LogWritePanicReachable(g, budget, d, home);
    } else if PanicReachable(g, budget) {
      hide Reachable;
      var s, i, b :| Reachable(g, budget, s) && PanicsAt(g, budget, s, i, b);
      LogWriteSafe(g, budget, s, i, b);
    }
  }
}
