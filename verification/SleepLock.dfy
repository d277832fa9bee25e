/**
 * Sleep locks: acquiresleep and releasesleep run by any number of processes against sleep, wakeup, the scheduler,
 * preemption and kill, one step at a time, with the lock's inner spinlock and the process table's lock.
 */
module SleepLock {
  /** Where a process is, named by what it is about to do. */
  datatype Pc =
    | Idle                     // outside
    | Want                     // acquiresleep: take the spinlock
    | Test                     // look at locked
    | SleepTake                // sleep: take the table lock
    | SleepDrop                // let go of the spinlock
    | SleepPark                // become SLEEPING and switch to the scheduler
    | Parked                   // switched out in sleep
    | Again                    // take the spinlock again
    | Leave                    // holder: let go of the spinlock
    | Holding                  // has the sleep lock
    | Give                     // releasesleep: take the spinlock
    | Clear                    // clear locked
    | WakeTake                 // wakeup: take the table lock
    | Wake(next: nat)          // wakeup1: the next table entry to look at
    | Finish                   // let go of the spinlock
    | Yielded(back: Pc)        // switched out by the clock

  datatype Run = RUNNING | RUNNABLE | SLEEPING

  datatype Proc = Proc(pc: Pc, state: Run, onLock: bool)

  datatype Spin = Free | Held(p: nat) | Scheduler

  /** locked and pid are the sleep lock's fields; the pid of process p is p + 1. */
  datatype State = State(procs: seq<Proc>, inner: Spin, table: Spin, locked: bool, pid: nat)

  ghost predicate Init(s: State) {
    && (forall p | 0 <= p < |s.procs| :: s.procs[p] == Proc(Idle, RUNNING, false))
    && s.inner == Free && s.table == Free && !s.locked && s.pid == 0
  }

  function Put(s: State, p: nat, q: Proc): State
    requires p < |s.procs|
  {
    s.(procs := s.procs[p := q])
  }

  function Go(s: State, p: nat, pc: Pc): State
    requires p < |s.procs|
  {
    Put(s, p, s.procs[p].(pc := pc))
  }

  // ------------------------------------------------------------------ the steps of one process

  /** acquiresleep up to the test, and the holder's way out. */
  predicate AcquireStep(s: State, s': State, p: nat)
    requires p < |s.procs|
  {
    match s.procs[p].pc
    case Idle => s' == Go(s, p, Want)
    case Want => s.inner == Free && s' == Go(s, p, Test).(inner := Held(p))
    case Again => s.inner == Free && s' == Go(s, p, Test).(inner := Held(p))
    case Test =>
      if s.locked then s' == Go(s, p, SleepTake)
      else s' == Go(s, p, Leave).(locked := true, pid := p + 1)
    case Leave => s' == Go(s, p, Holding).(inner := Free)
    case _ => false
  }

  predicate SleepStep(s: State, s': State, p: nat)
    requires p < |s.procs|
  {
    match s.procs[p].pc
    case SleepTake => s.table == Free && s' == Go(s, p, SleepDrop).(table := Held(p))
    case SleepDrop => s' == Go(s, p, SleepPark).(inner := Free)
    case SleepPark => s' == Put(s, p, Proc(Parked, SLEEPING, true)).(table := Scheduler)
    case Parked => s' == Put(s, p, Proc(Again, RUNNING, false)).(table := Free)
    case _ => false
  }

  /** wakeup1's look at one table entry. */
  function WakeOne(q: Proc): Proc {
    if q.state == SLEEPING && q.onLock then q.(state := RUNNABLE) else q
  }

  predicate ReleaseStep(s: State, s': State, p: nat)
    requires p < |s.procs|
  {
    match s.procs[p].pc
    case Holding => s' == Go(s, p, Give)
    case Give => s.inner == Free && s' == Go(s, p, Clear).(inner := Held(p))
    case Clear => s' == Go(s, p, WakeTake).(locked := false, pid := 0)
    case WakeTake => s.table == Free && s' == Go(s, p, Wake(0)).(table := Held(p))
    case Finish => s' == Go(s, p, Idle).(inner := Free)
    case _ => false
  }

  /** wakeup1: one table entry, or the end of the table. */
  predicate WakeStep(s: State, s': State, p: nat)
    requires p < |s.procs|
  {
    match s.procs[p].pc
    case Wake(i) =>
      if i < |s.procs| then s' == Go(Put(s, i, WakeOne(s.procs[i])), p, Wake(i + 1))
      else s' == Go(s, p, Finish).(table := Free)
    case _ => false
  }

  predicate HoldsInner(pc: Pc) {
    pc in {Test, SleepTake, SleepDrop, Leave, Clear, WakeTake, Finish} || pc.Wake?
  }

  predicate HoldsTable(q: Proc) {
    q.pc == SleepDrop || q.pc == SleepPark || q.pc.Wake? || ((q.pc == Parked || q.pc.Yielded?) && q.state == RUNNING)
  }

  /** The clock takes the processor from a process that holds no spinlock; it comes back holding the table lock. */
  predicate YieldStep(s: State, s': State, p: nat)
    requires p < |s.procs|
  {
    var pc := s.procs[p].pc;
    if pc.Yielded? then s' == Go(s, p, pc.back).(table := Free)
    else
      && !HoldsInner(pc) && !HoldsTable(s.procs[p]) && s.table == Free
      && s' == Put(s, p, Proc(Yielded(pc), RUNNABLE, false)).(table := Scheduler)
  }

  predicate ProcStep(s: State, s': State, p: nat)
    requires p < |s.procs|
  {
    && s.procs[p].state == RUNNING
    && (AcquireStep(s, s', p) || SleepStep(s, s', p) || ReleaseStep(s, s', p) || WakeStep(s, s', p) || YieldStep(s, s', p))
  }

  // ------------------------------------------------------------------ the other steps

  predicate SchedulerStep(s: State, s': State) {
    || (s.table == Free && s' == s.(table := Scheduler))
    || (s.table == Scheduler && s' == s.(table := Free))
    || (s.table == Scheduler && exists p | 0 <= p < |s.procs| ::
          s.procs[p].state == RUNNABLE && s' == Put(s, p, s.procs[p].(state := RUNNING)).(table := Held(p)))
  }

  /** kill, one critical section: a sleeper is made runnable whatever it sleeps on. */
  predicate KillStep(s: State, s': State) {
    && s.table == Free
    && exists p | 0 <= p < |s.procs| :: s.procs[p].state == SLEEPING && s' == Put(s, p, s.procs[p].(state := RUNNABLE))
  }

  predicate Next(s: State, s': State) {
    || (exists p | 0 <= p < |s.procs| :: ProcStep(s, s', p))
    || SchedulerStep(s, s') || KillStep(s, s')
  }

  // ------------------------------------------------------------------ what every step keeps

  predicate HasLock(pc: Pc) {
    match pc
    case Leave => true
    case Holding => true
    case Give => true
    case Clear => true
    case Yielded(back) => back == Holding || back == Give
    case _ => false
  }

  /** Sleeping on the lock, or on the way there with no further test. */
  predicate Sleeper(q: Proc) {
    q.pc in {SleepTake, SleepDrop, SleepPark} || (q.pc == Parked && q.state == SLEEPING)
  }

  predicate ProcOk(q: Proc) {
    && (q.onLock <==> q.pc == Parked)
    && (q.state == SLEEPING ==> q.pc == Parked)
    && (q.state == RUNNABLE ==> q.pc == Parked || q.pc.Yielded?)
    && (q.pc.Yielded? ==> q.pc.back in {Idle, Want, Again, Holding, Give})
  }

  /** Somebody will still wake process p: the holder, or a releaser whose scan has not passed p. */
  predicate WillWake(s: State, p: nat) {
    s.locked ||
    (s.inner.Held? && s.inner.p < |s.procs| &&
     var pc := s.procs[s.inner.p].pc; pc == WakeTake || (pc.Wake? && pc.next <= p))
  }

  /** What holds of each process. */
  predicate Local(s: State, p: nat)
    requires p < |s.procs|
  {
    && ProcOk(s.procs[p])
    && (HoldsInner(s.procs[p].pc) <==> s.inner == Held(p))
    && (HoldsTable(s.procs[p]) <==> s.table == Held(p))
    && (HasLock(s.procs[p].pc) <==> s.locked && s.pid == p + 1)
    && (Sleeper(s.procs[p]) ==> WillWake(s, p))
  }

  ghost predicate Inv(s: State) {
    && s.inner != Scheduler && (s.locked ==> 0 < s.pid <= |s.procs|)
    && (forall p | 0 <= p < |s.procs| :: Local(s, p))
  }

  lemma InitInv(s: State)
    requires Init(s)
    ensures Inv(s)
  {
    forall p | 0 <= p < |s.procs|
      ensures Local(s, p)
    {
      assert s.procs[p] == Proc(Idle, RUNNING, false);
    }
  }

  lemma AcquireLocal(s: State, s': State, p: nat, r: nat)
    requires p < |s.procs| && r < |s.procs| && Local(s, p) && Local(s, r)
    requires s.procs[p].state == RUNNING && AcquireStep(s, s', p)
    ensures |s'.procs| == |s.procs| && Local(s', r)
  {
  }

  lemma SleepLocal(s: State, s': State, p: nat, r: nat)
    requires p < |s.procs| && r < |s.procs| && Local(s, p) && Local(s, r)
    requires s.procs[p].state == RUNNING && SleepStep(s, s', p)
    ensures |s'.procs| == |s.procs| && Local(s', r)
  {
  }

  lemma ReleaseLocal(s: State, s': State, p: nat, r: nat)
    requires p < |s.procs| && r < |s.procs| && Local(s, p) && Local(s, r)
    requires s.procs[p].state == RUNNING && ReleaseStep(s, s', p)
    ensures |s'.procs| == |s.procs| && Local(s', r)
  {
  }

  lemma YieldLocal(s: State, s': State, p: nat, r: nat)
    requires p < |s.procs| && r < |s.procs| && Local(s, p) && Local(s, r)
    requires s.procs[p].state == RUNNING && YieldStep(s, s', p)
    ensures |s'.procs| == |s.procs| && Local(s', r)
  {
  }

  lemma WakeLocal(s: State, s': State, p: nat, r: nat)
    requires p < |s.procs| && r < |s.procs| && Local(s, p) && Local(s, r)
    requires s.procs[p].state == RUNNING && WakeStep(s, s', p)
    ensures |s'.procs| == |s.procs| && Local(s', r)
  {
  }

  lemma ProcInv(s: State, s': State, p: nat)
    requires Inv(s) && p < |s.procs| && ProcStep(s, s', p)
    ensures Inv(s')
  {
    assert Local(s, p);
    forall r | 0 <= r < |s'.procs|
      ensures Local(s', r)
    {
      assert r < |s.procs| && Local(s, r);
      if AcquireStep(s, s', p) {
        AcquireLocal(s, s', p, r);
      } else if SleepStep(s, s', p) {
        SleepLocal(s, s', p, r);
      } else if ReleaseStep(s, s', p) {
        ReleaseLocal(s, s', p, r);
      } else if WakeStep(s, s', p) {
        WakeLocal(s, s', p, r);
      } else {
        YieldLocal(s, s', p, r);
      }
    }
  }

  /** The scheduler and kill change the state of one process, which holds nothing, and who has the table lock. */
  lemma RestateInv(s: State, s': State, p: nat)
    requires Inv(s) && p < |s.procs|
    requires
      || (s.table == Scheduler && s.procs[p].state == RUNNABLE && s' == Put(s, p, s.procs[p].(state := RUNNING)).(table := Held(p)))
      || (s.table == Free && s.procs[p].state == SLEEPING && s' == Put(s, p, s.procs[p].(state := RUNNABLE)))
    ensures Inv(s')
  {
    forall r | 0 <= r < |s'.procs|
      ensures Local(s', r)
    {
      assert Local(s, r) && Local(s, p);
    }
  }

  lemma NextInv(s: State, s': State)
    requires Inv(s) && Next(s, s')
    ensures Inv(s')
  {
    if p :| 0 <= p < |s.procs| && ProcStep(s, s', p) {
      ProcInv(s, s', p);
    } else if KillStep(s, s') {
      var p :| 0 <= p < |s.procs| && s.procs[p].state == SLEEPING && s' == Put(s, p, s.procs[p].(state := RUNNABLE));
      RestateInv(s, s', p);
    } else if s' == s.(table := Scheduler) || s' == s.(table := Free) {
      forall r | 0 <= r < |s'.procs|
        ensures Local(s', r)
      {
        assert Local(s, r);
      }
    } else {
      var p :| 0 <= p < |s.procs| && s.procs[p].state == RUNNABLE
               && s' == Put(s, p, s.procs[p].(state := RUNNING)).(table := Held(p));
      RestateInv(s, s', p);
    }
  }

  // ------------------------------------------------------------------ every run

  ghost predicate Behavior(run: seq<State>) {
    && |run| > 0 && Init(run[0])
    && (forall i | 0 < i < |run| :: Next(run[i - 1], run[i]))
  }

  lemma {:induction false} RunInv(run: seq<State>, i: nat)
    requires Behavior(run) && i < |run|
    ensures Inv(run[i])
    decreases i
  {
    if i == 0 {
      InitInv(run[0]);
    } else {
      RunInv(run, i - 1);
      NextInv(run[i - 1], run[i]);
    }
  }

  /** In every run at most one process has the lock, and the lock's own fields say which. */
  lemma MutualExclusion(run: seq<State>, i: nat)
    requires Behavior(run) && i < |run|
    ensures var s := run[i];
            && (forall p, q | 0 <= p < |s.procs| && 0 <= q < |s.procs| && HasLock(s.procs[p].pc) && HasLock(s.procs[q].pc) :: p == q)
            && (forall p | 0 <= p < |s.procs| :: HasLock(s.procs[p].pc) <==> s.locked && s.pid == p + 1)
            && (s.locked <==> exists p | 0 <= p < |s.procs| :: HasLock(s.procs[p].pc))
  {
    RunInv(run, i);
    var s := run[i];
    forall p | 0 <= p < |s.procs|
      ensures HasLock(s.procs[p].pc) <==> s.locked && s.pid == p + 1
    {
      assert Local(s, p);
    }
    if s.locked {
      assert Local(s, s.pid - 1);
    }
  }

  /** In every run, when the spinlock is free and the lock is not taken, nobody sleeps on it or is about to. */
  lemma NoLostWakeup(run: seq<State>, i: nat)
    requires Behavior(run) && i < |run| && run[i].inner == Free && !run[i].locked
    ensures forall p | 0 <= p < |run[i].procs| :: !Sleeper(run[i].procs[p])
  {
    RunInv(run, i);
    var s := run[i];
    forall p | 0 <= p < |s.procs|
      ensures !Sleeper(s.procs[p])
    {
      assert Local(s, p);
    }
  }
}
