/**
 * The process table as a value: states, parents, channels and the memory each process holds, with a record of every
 * process there has been.  Each operation is one step on this value, made under the table's lock or by the only
 * process that can see the entry it changes.
 */
module ProcSpec {
  const NPROC := 64
  const INIT := 0

  datatype St = UNUSED | EMBRYO | SLEEPING | RUNNABLE | RUNNING | ZOMBIE
  datatype Ref = Null | Slot(i: nat)
  datatype Chan = NoChan | OnProc(i: nat) | Other(c: nat)
  datatype Proc = Proc(state: St, pid: int, parent: Ref, chan: Chan, killed: bool, kstack: nat, pgdir: nat)

  /** Where a process is in the kernel: making a child in one of three stages, inside wait, or elsewhere. */
  datatype Act = Elsewhere | Stacking(np: nat) | Copying(np: nat) | Ready(np: nat) | InWait

  /** What became of a process: it is in a slot, exited in a slot, collected by its parent, or never started. */
  datatype Stage = Living(slot: nat) | Exited(slot: nat) | Collected | Aborted
  datatype Life = Life(pid: int, stage: Stage)

  datatype Use = Stack(i: nat) | Directory(i: nat)

  /**
   * act: where each process is; maker: who makes an EMBRYO; gen: which life a slot holds; lives: every process so far;
   * owner: what each allocated piece of memory is used for.
   */
  datatype World = World(procs: seq<Proc>, act: seq<Act>, maker: seq<nat>, gen: seq<nat>, lives: seq<Life>, owner: map<nat, Use>)

  predicate Alive(p: Proc) {
    p.state in {SLEEPING, RUNNABLE, RUNNING}
  }

  predicate Making(a: Act) {
    a.Stacking? || a.Copying? || a.Ready?
  }

  predicate Shape(w: World) {
    |w.procs| == NPROC && |w.act| == NPROC && |w.maker| == NPROC && |w.gen| == NPROC
  }

  predicate HasStack(w: World, i: nat)
    requires Shape(w) && i < NPROC
  {
    || Alive(w.procs[i]) || w.procs[i].state == ZOMBIE
    || (w.procs[i].state == EMBRYO && w.maker[i] < NPROC && !w.act[w.maker[i]].Stacking?)
  }

  predicate HasDirectory(w: World, i: nat)
    requires Shape(w) && i < NPROC
  {
    || Alive(w.procs[i]) || w.procs[i].state == ZOMBIE
    || (w.procs[i].state == EMBRYO && w.maker[i] < NPROC && w.act[w.maker[i]].Ready?)
  }

  predicate AliveAt(w: World, i: nat)
    requires Shape(w)
  {
    i < NPROC && Alive(w.procs[i])
  }

  /** Every parent is alive; only init and processes not yet started have none. */
  predicate Family(w: World, i: nat)
    requires Shape(w) && i < NPROC
  {
    var p := w.procs[i];
    && (p.state == UNUSED ==> p.parent == Null)
    && (p.parent.Slot? ==> p.parent.i != i && AliveAt(w, p.parent.i))
    && ((Alive(p) || p.state == ZOMBIE) && i != INIT ==> p.parent.Slot?)
    && (i == INIT ==> Alive(p) && p.parent == Null)
  }

  /** A process inside wait sleeps on itself; one making a child is alive, and the child is its own. */
  predicate Control(w: World, i: nat)
    requires Shape(w) && i < NPROC
  {
    var p, a := w.procs[i], w.act[i];
    && (p.state == SLEEPING && p.chan.OnProc? ==> p.chan.i == i && a == InWait)
    && (a != Elsewhere ==> Alive(p))
    && (Making(a) ==> a.np < NPROC && w.procs[a.np].state == EMBRYO && w.maker[a.np] == i)
    && (p.state == EMBRYO ==>
      && w.maker[i] < NPROC && Making(w.act[w.maker[i]]) && w.act[w.maker[i]].np == i
      && p.parent == if w.act[w.maker[i]].Ready? then Slot(w.maker[i]) else Null)
  }

  predicate Record(w: World, i: nat)
    requires Shape(w) && i < NPROC
  {
    var p := w.procs[i];
    p.state != UNUSED ==>
      w.gen[i] < |w.lives| && w.lives[w.gen[i]] == Life(p.pid, if p.state == ZOMBIE then Exited(i) else Living(i))
  }

  predicate Memory(w: World, i: nat)
    requires Shape(w) && i < NPROC
  {
    && (HasStack(w, i) ==> w.procs[i].kstack in w.owner && w.owner[w.procs[i].kstack] == Stack(i))
    && (HasDirectory(w, i) ==> w.procs[i].pgdir in w.owner && w.owner[w.procs[i].pgdir] == Directory(i))
  }

  predicate Local(w: World, i: nat)
    requires Shape(w) && i < NPROC
  {
    Family(w, i) && Control(w, i) && Record(w, i) && Memory(w, i)
  }

  /** No process sleeping in wait has an exited child. */
  predicate NoMissedExit(w: World, i: nat, j: nat)
    requires Shape(w) && i < NPROC && j < NPROC
  {
    w.procs[j].parent == Slot(i) && w.procs[j].state == ZOMBIE ==>
      !(w.procs[i].state == SLEEPING && w.procs[i].chan == OnProc(i))
  }

  /** A life not over is in the slot it says. */
  predicate LifeOk(w: World, g: nat)
    requires Shape(w) && g < |w.lives|
  {
    match w.lives[g].stage
    case Living(i) => i < NPROC && w.gen[i] == g && w.procs[i].state !in {UNUSED, ZOMBIE}
    case Exited(i) => i < NPROC && w.gen[i] == g && w.procs[i].state == ZOMBIE
    case _ => true
  }

  /** Every allocated piece of memory is held by the process it is used for: none is leaked or shared. */
  predicate OwnerOk(w: World, h: nat)
    requires Shape(w) && h in w.owner
  {
    match w.owner[h]
    case Stack(i) => i < NPROC && HasStack(w, i) && w.procs[i].kstack == h
    case Directory(i) => i < NPROC && HasDirectory(w, i) && w.procs[i].pgdir == h
  }

  ghost predicate Inv(w: World) {
    && Shape(w)
    && (forall i | 0 <= i < NPROC :: Local(w, i))
    && (forall i, j | 0 <= i < NPROC && 0 <= j < NPROC :: NoMissedExit(w, i, j))
    && (forall g | 0 <= g < |w.lives| :: LifeOk(w, g))
    && (forall h | h in w.owner :: OwnerOk(w, h))
  }

  /** Lives only go forward: a collected process is never collected again. */
  predicate StageAdvances(a: Stage, b: Stage) {
    match a
    case Living(i) => true
    case Exited(i) => b == a || b == Collected
    case Collected => b == Collected
    case Aborted => b == Aborted
  }

  ghost predicate Advances(w: World, w': World) {
    && |w.lives| <= |w'.lives|
    && (forall g | 0 <= g < |w.lives| :: w'.lives[g].pid == w.lives[g].pid && StageAdvances(w.lives[g].stage, w'.lives[g].stage))
  }

  // ------------------------------------------------------------------ making a child

  function SetProc(w: World, i: nat, p: Proc): World
    requires i < |w.procs|
  {
    w.(procs := w.procs[i := p])
  }

  function SetAct(w: World, i: nat, a: Act): World
    requires i < |w.act|
  {
    w.(act := w.act[i := a])
  }

  function SetStage(w: World, g: nat, s: Stage): World
    requires g < |w.lives|
  {
    w.(lives := w.lives[g := Life(w.lives[g].pid, s)])
  }

  /** A process in the kernel on its own business. */
  predicate Runs(w: World, cur: nat)
    requires Shape(w)
  {
    cur < NPROC && w.procs[cur].state == RUNNING
  }

  /** allocproc takes slot np for process cur. */
  function Allocated(w: World, cur: nat, np: nat, pid: int): World
    requires Shape(w) && cur < NPROC && np < NPROC
  {
    var w1 := SetAct(SetProc(w, np, w.procs[np].(state := EMBRYO, pid := pid)), cur, Stacking(np));
    w1.(maker := w.maker[np := cur], gen := w.gen[np := |w.lives|], lives := w.lives + [Life(pid, Living(np))])
  }

  lemma AllocatedLocal(w: World, cur: nat, np: nat, pid: int, i: nat)
    requires Shape(w) && np < NPROC && i < NPROC && cur < NPROC && Local(w, i) && Local(w, cur) && Local(w, np)
    requires Runs(w, cur) && w.act[cur] == Elsewhere && w.procs[np].state == UNUSED
    ensures Local(Allocated(w, cur, np, pid), i)
  {
  }

  lemma AllocatedInv(w: World, cur: nat, np: nat, pid: int)
    requires Inv(w) && np < NPROC
    requires Runs(w, cur) && w.act[cur] == Elsewhere && w.procs[np].state == UNUSED
    ensures Inv(Allocated(w, cur, np, pid)) && Advances(w, Allocated(w, cur, np, pid))
  {
    var w' := Allocated(w, cur, np, pid);
    forall i | 0 <= i < NPROC
      ensures Local(w', i)
    {
      assert Local(w, i) && Local(w, cur) && Local(w, np);
      AllocatedLocal(w, cur, np, pid, i);
    }
    forall i, j | 0 <= i < NPROC && 0 <= j < NPROC
      ensures NoMissedExit(w', i, j)
    {
      assert NoMissedExit(w, i, j);
    }
    forall g | 0 <= g < |w'.lives|
      ensures LifeOk(w', g)
    {
      assert g < |w.lives| ==> LifeOk(w, g);
    }
    forall h | h in w'.owner
      ensures OwnerOk(w', h)
    {
      assert OwnerOk(w, h);
      assert Local(w, w.owner[h].i) && Local(w, np);
    }
  }

  /** The kernel stack is in place, at frame h. */
  function Stacked(w: World, cur: nat, np: nat, h: nat): World
    requires Shape(w) && cur < NPROC && np < NPROC
  {
    SetAct(SetProc(w, np, w.procs[np].(kstack := h)), cur, Copying(np)).(owner := w.owner[h := Stack(np)])
  }

  /** The memory is copied to directory d, and the parent is set. */
  function Copied(w: World, cur: nat, np: nat, d: nat): World
    requires Shape(w) && cur < NPROC && np < NPROC
  {
    SetAct(SetProc(w, np, w.procs[np].(pgdir := d, parent := Slot(cur))), cur, Ready(np)).(owner := w.owner[d := Directory(np)])
  }

  /** The child may run. */
  function Published(w: World, cur: nat, np: nat): World
    requires Shape(w) && cur < NPROC && np < NPROC
  {
    SetAct(SetProc(w, np, w.procs[np].(state := RUNNABLE)), cur, Elsewhere)
  }

  /** Giving up on child np before it ran: its stack, if it has one, and its slot are free again. */
  function Abandoned(w: World, cur: nat, np: nat, freed: set<nat>, pgdir: nat): World
    requires Shape(w) && cur < NPROC && np < NPROC && w.gen[np] < |w.lives|
  {
    var w1 := SetProc(w, np, w.procs[np].(state := UNUSED, kstack := 0, pgdir := pgdir));
    SetStage(SetAct(w1, cur, Elsewhere), w.gen[np], Aborted).(owner := w.owner - freed)
  }

  /** One of the three steps that carry the making of child np further, with memory h new. */
  ghost predicate ChildStep(w: World, w': World, cur: nat, np: nat, h: nat) {
    && Shape(w) && Runs(w, cur) && Making(w.act[cur]) && w.act[cur].np == np && np < NPROC
    && (w.act[cur].Ready? || h !in w.owner)
    && (|| (w.act[cur].Stacking? && w' == Stacked(w, cur, np, h))
        || (w.act[cur].Copying? && w' == Copied(w, cur, np, h))
        || (w.act[cur].Ready? && w' == Published(w, cur, np)))
  }

  lemma StackedLocal(w: World, w': World, cur: nat, np: nat, h: nat, i: nat)
    requires ChildStep(w, w', cur, np, h) && w.act[cur].Stacking?
    requires i < NPROC && Local(w, i) && Local(w, cur) && Local(w, np)
    ensures Shape(w') && Local(w', i)
  {
  }

  lemma CopiedLocal(w: World, w': World, cur: nat, np: nat, h: nat, i: nat)
    requires ChildStep(w, w', cur, np, h) && w.act[cur].Copying?
    requires i < NPROC && Local(w, i) && Local(w, cur) && Local(w, np)
    ensures Shape(w') && Local(w', i)
  {
  }

  lemma PublishedLocal(w: World, w': World, cur: nat, np: nat, h: nat, i: nat)
    requires ChildStep(w, w', cur, np, h) && w.act[cur].Ready?
    requires i < NPROC && Local(w, i) && Local(w, cur) && Local(w, np)
    ensures Shape(w') && Local(w', i)
  {
  }

  lemma ChildLocal(w: World, w': World, cur: nat, np: nat, h: nat, i: nat)
    requires ChildStep(w, w', cur, np, h) && i < NPROC && Local(w, i) && Local(w, cur) && Local(w, np)
    ensures Shape(w') && Local(w', i)
  {
    hide Local;
    if w.act[cur].Stacking? {
      StackedLocal(w, w', cur, np, h, i);
    } else if w.act[cur].Copying? {
      CopiedLocal(w, w', cur, np, h, i);
    } else {
      PublishedLocal(w, w', cur, np, h, i);
    }
  }

  lemma ChildOwner(w: World, w': World, cur: nat, np: nat, h: nat, f: nat)
    requires ChildStep(w, w', cur, np, h) && f in w'.owner && Local(w, cur) && Local(w, np)
    requires f in w.owner ==> OwnerOk(w, f) && Local(w, w.owner[f].i)
    ensures OwnerOk(w', f)
  {
  }

  lemma ChildInv(w: World, w': World, cur: nat, np: nat, h: nat)
    requires Inv(w) && ChildStep(w, w', cur, np, h)
    ensures Inv(w') && Advances(w, w')
  {
    assert Local(w, cur) && Local(w, np);
    forall i | 0 <= i < NPROC
      ensures Local(w', i)
    {
      assert Local(w, i);
      ChildLocal(w, w', cur, np, h, i);
    }
    forall i, j | 0 <= i < NPROC && 0 <= j < NPROC
      ensures NoMissedExit(w', i, j)
    {
      assert NoMissedExit(w, i, j);
    }
    forall g | 0 <= g < |w'.lives|
      ensures LifeOk(w', g)
    {
      assert LifeOk(w, g);
    }
    forall f | f in w'.owner
      ensures OwnerOk(w', f)
    {
      assert f in w.owner ==> OwnerOk(w, f) && Local(w, w.owner[f].i);
      ChildOwner(w, w', cur, np, h, f);
    }
  }

  ghost predicate AbandonStep(w: World, w': World, cur: nat, np: nat) {
    && Shape(w) && Runs(w, cur) && Making(w.act[cur]) && w.act[cur].np == np && np < NPROC && w.gen[np] < |w.lives|
    && (|| (w.act[cur].Stacking? && w' == Abandoned(w, cur, np, {}, w.procs[np].pgdir))
        || (w.act[cur].Copying? && w' == Abandoned(w, cur, np, {w.procs[np].kstack}, 0)))
  }

  lemma AbandonMemory(w: World, w': World, cur: nat, np: nat, i: nat)
    requires AbandonStep(w, w', cur, np) && i < NPROC && Control(w, i) && Memory(w, i)
    requires Control(w, cur) && Control(w, np) && Memory(w, np)
    ensures Shape(w') && Memory(w', i)
  {
  }

  lemma AbandonControl(w: World, w': World, cur: nat, np: nat, i: nat)
    requires AbandonStep(w, w', cur, np) && i < NPROC && Control(w, i) && Control(w, cur) && Control(w, np)
    ensures Shape(w') && Control(w', i)
  {
  }

  lemma AbandonFamily(w: World, w': World, cur: nat, np: nat, i: nat)
    requires AbandonStep(w, w', cur, np) && i < NPROC && Family(w, i) && Record(w, i) && Record(w, np)
    requires Control(w, cur) && Control(w, np)
    ensures Shape(w') && Family(w', i) && Record(w', i)
  {
  }

  lemma AbandonLocal(w: World, w': World, cur: nat, np: nat, i: nat)
    requires AbandonStep(w, w', cur, np) && i < NPROC && Local(w, i) && Local(w, cur) && Local(w, np)
    ensures Shape(w') && Local(w', i)
  {
    hide AbandonStep, Family, Control, Record, Memory;
    AbandonFamily(w, w', cur, np, i);
    AbandonControl(w, w', cur, np, i);
    AbandonMemory(w, w', cur, np, i);
  }

  lemma AbandonOwner(w: World, w': World, cur: nat, np: nat, f: nat)
    requires Inv(w) && AbandonStep(w, w', cur, np) && f in w'.owner
    ensures OwnerOk(w', f)
  {
    assert Local(w, cur) && Local(w, np);
    assert OwnerOk(w, f) && Local(w, w.owner[f].i);
  }

  lemma AbandonInv(w: World, w': World, cur: nat, np: nat)
    requires Inv(w) && AbandonStep(w, w', cur, np)
    ensures Inv(w') && Advances(w, w')
  {
    assert Local(w, cur) && Local(w, np);
    forall i | 0 <= i < NPROC
      ensures Local(w', i)
    {
      assert Local(w, i);
      AbandonLocal(w, w', cur, np, i);
    }
    forall i, j | 0 <= i < NPROC && 0 <= j < NPROC
      ensures NoMissedExit(w', i, j)
    {
      assert NoMissedExit(w, i, j);
    }
    forall g | 0 <= g < |w'.lives|
      ensures LifeOk(w', g)
    {
      assert LifeOk(w, g);
    }
    forall f | f in w'.owner
      ensures OwnerOk(w', f)
    {
      AbandonOwner(w, w', cur, np, f);
    }
  }

  // ------------------------------------------------------------------ running and sleeping

  function Marked(p: Proc): Proc {
    if p.state == SLEEPING then p.(killed := true).(state := RUNNABLE) else p.(killed := true)
  }

  /** kill marks the first entry with the pid, and wakes it if it sleeps. */
  ghost predicate Killed(procs: seq<Proc>, procs': seq<Proc>, pid: int, i: nat) {
    && i < |procs| && procs[i].pid == pid && (forall k | 0 <= k < i :: procs[k].pid != pid)
    && procs' == procs[i := Marked(procs[i])]
  }

  /** A change of running state, channel or killed flag that puts nobody to sleep in wait. */
  predicate Restated(p: Proc, p': Proc) {
    && p'.pid == p.pid && p'.parent == p.parent && p'.kstack == p.kstack && p'.pgdir == p.pgdir
    && (if Alive(p) then Alive(p') else p'.state == p.state)
    && (p'.state == SLEEPING && p'.chan.OnProc? ==> p.state == SLEEPING && p.chan == p'.chan)
  }

  ghost predicate SameMarks(procs: seq<Proc>, procs': seq<Proc>) {
    |procs'| == |procs| && forall i | 0 <= i < |procs| :: procs'[i].killed == procs[i].killed
  }

  lemma RestatedInv(w: World, procs: seq<Proc>)
    requires Inv(w) && |procs| == NPROC && forall i | 0 <= i < NPROC :: Restated(w.procs[i], procs[i])
    ensures Inv(w.(procs := procs)) && Advances(w, w.(procs := procs))
  {
    var w' := w.(procs := procs);
    forall i | 0 <= i < NPROC
      ensures Local(w', i)
    {
      RestatedLocal(w, procs, i);
    }
    forall i, j | 0 <= i < NPROC && 0 <= j < NPROC
      ensures NoMissedExit(w', i, j)
    {
      assert NoMissedExit(w, i, j) && Restated(w.procs[i], procs[i]) && Restated(w.procs[j], procs[j]);
    }
    forall g | 0 <= g < |w'.lives|
      ensures LifeOk(w', g)
    {
      assert LifeOk(w, g);
    }
    forall f | f in w'.owner
      ensures OwnerOk(w', f)
    {
      assert OwnerOk(w, f);
    }
  }

  lemma RestatedLocal(w: World, procs: seq<Proc>, i: nat)
    requires Inv(w) && |procs| == NPROC && (forall k | 0 <= k < NPROC :: Restated(w.procs[k], procs[k])) && i < NPROC
    ensures Local(w.(procs := procs), i)
  {
    assert Local(w, i) && Restated(w.procs[i], procs[i]);
  }

  // ------------------------------------------------------------------ exit

  /** Some child of cur has exited. */
  ghost predicate LeavesZombie(procs: seq<Proc>, cur: nat) {
    exists j | 0 <= j < |procs| :: procs[j].parent == Slot(cur) && procs[j].state == ZOMBIE
  }

  /** wakeup1 on one entry. */
  function Woken(p: Proc, chan: Chan): Proc {
    if p.state == SLEEPING && p.chan == chan then p.(state := RUNNABLE) else p
  }

  function Adopted(p: Proc, cur: nat): Proc {
    if p.parent == Slot(cur) then p.(parent := Slot(INIT)) else p
  }

  /** One entry after cur has exited. */
  ghost function AfterExit(procs: seq<Proc>, cur: nat, i: nat): Proc
    requires cur < |procs| && i < |procs|
  {
    var p := Adopted(Woken(procs[i], OnProc(if procs[cur].parent.Slot? then procs[cur].parent.i else NPROC)), cur);
    var q := if LeavesZombie(procs, cur) then Woken(p, OnProc(INIT)) else p;
    if i == cur then q.(state := ZOMBIE) else q
  }

  ghost predicate ExitStep(w: World, w': World, cur: nat) {
    && Shape(w) && Runs(w, cur) && cur != INIT && w.act[cur] == Elsewhere && w.gen[cur] < |w.lives|
    && |w'.procs| == NPROC && (forall i | 0 <= i < NPROC :: w'.procs[i] == AfterExit(w.procs, cur, i))
    && w' == SetStage(w, w.gen[cur], Exited(cur)).(procs := w'.procs)
  }

  /** What exit does to an entry: only cur changes from alive to not, and nobody new sleeps. */
  lemma AfterExitFacts(procs: seq<Proc>, cur: nat, i: nat)
    requires cur < |procs| && i < |procs|
    ensures var p, p' := procs[i], AfterExit(procs, cur, i);
            && p'.pid == p.pid && p'.kstack == p.kstack && p'.pgdir == p.pgdir && p'.chan == p.chan
            && p'.parent == (if p.parent == Slot(cur) then Slot(INIT) else p.parent)
            && (i == cur ==> p'.state == ZOMBIE)
            && (i != cur ==> (if Alive(p) then Alive(p') else p'.state == p.state))
            && (p'.state == SLEEPING ==> p.state == SLEEPING)
            && (p'.state == SLEEPING ==> p.chan != OnProc(INIT) || !LeavesZombie(procs, cur))
            && (p'.state == SLEEPING && procs[cur].parent.Slot? ==> p.chan != OnProc(procs[cur].parent.i))
  {
  }

  lemma ExitFamily(w: World, w': World, cur: nat, i: nat)
    requires ExitStep(w, w', cur) && i < NPROC && Local(w, i) && Local(w, cur) && Local(w, INIT)
    ensures Shape(w') && Family(w', i)
  {
    AfterExitFacts(w.procs, cur, i);
    AfterExitFacts(w.procs, cur, INIT);
    hide LeavesZombie, AfterExit, Control, Record, Memory;
    if w.procs[i].parent.Slot? {
      AfterExitFacts(w.procs, cur, w.procs[i].parent.i);
    }
  }

  lemma ExitLocal(w: World, w': World, cur: nat, i: nat)
    requires ExitStep(w, w', cur) && i < NPROC && Local(w, i) && Local(w, cur) && Local(w, INIT)
    ensures Shape(w') && Local(w', i)
  {
    ExitFamily(w, w', cur, i);
    AfterExitFacts(w.procs, cur, i);
    hide LeavesZombie, AfterExit;
    if Making(w.act[i]) {
      AfterExitFacts(w.procs, cur, w.act[i].np);
    }
  }

  lemma ExitInv(w: World, w': World, cur: nat)
    requires Inv(w) && ExitStep(w, w', cur)
    ensures Inv(w') && Advances(w, w')
  {
    assert Local(w, cur) && Local(w, INIT);
    forall i | 0 <= i < NPROC
      ensures Local(w', i)
    {
      assert Local(w, i);
      ExitLocal(w, w', cur, i);
    }
    forall i, j | 0 <= i < NPROC && 0 <= j < NPROC
      ensures NoMissedExit(w', i, j)
    {
      assert NoMissedExit(w, i, j);
      ExitNoMissed(w, w', cur, i, j);
    }
    hide AfterExit, LeavesZombie;
    forall g | 0 <= g < |w'.lives|
      ensures LifeOk(w', g)
    {
      assert LifeOk(w, g);
      if !w.lives[g].stage.Collected? && !w.lives[g].stage.Aborted? {
        AfterExitFacts(w.procs, cur, w.lives[g].stage.slot);
      }
    }
    forall f | f in w'.owner
      ensures OwnerOk(w', f)
    {
      assert OwnerOk(w, f);
      AfterExitFacts(w.procs, cur, w.owner[f].i);
    }
  }

  lemma ExitNoMissed(w: World, w': World, cur: nat, i: nat, j: nat)
    requires ExitStep(w, w', cur) && i < NPROC && j < NPROC && NoMissedExit(w, i, j) && Local(w, cur)
    ensures Shape(w') && NoMissedExit(w', i, j)
  {
    AfterExitFacts(w.procs, cur, i);
    AfterExitFacts(w.procs, cur, j);
    assert w.procs[j].parent == Slot(cur) && w.procs[j].state == ZOMBIE ==> LeavesZombie(w.procs, cur);
    hide AfterExit, LeavesZombie;
  }

  // ------------------------------------------------------------------ wait

  /** Child j of cur is collected: its memory is free, its slot unused, its life over. */
  function CollectedWorld(w: World, cur: nat, j: nat): World
    requires Shape(w) && cur < NPROC && j < NPROC && w.gen[j] < |w.lives|
  {
    var p := w.procs[j];
    var w1 := SetProc(w, j, p.(state := UNUSED, pid := 0, parent := Null, killed := false, kstack := 0));
    SetStage(SetAct(w1, cur, Elsewhere), w.gen[j], Collected).(owner := w.owner - {p.kstack, p.pgdir})
  }

  ghost predicate CollectStep(w: World, w': World, cur: nat, j: nat) {
    && Shape(w) && Runs(w, cur) && w.act[cur] in {Elsewhere, InWait} && j < NPROC && w.gen[j] < |w.lives|
    && w.procs[j].parent == Slot(cur) && w.procs[j].state == ZOMBIE
    && w' == CollectedWorld(w, cur, j)
  }

  lemma CollectLocal(w: World, w': World, cur: nat, j: nat, i: nat)
    requires CollectStep(w, w', cur, j) && i < NPROC && Local(w, i) && Local(w, cur) && Local(w, j)
    ensures Shape(w') && Local(w', i)
  {
  }

  lemma CollectOwner(w: World, w': World, cur: nat, j: nat, f: nat)
    requires CollectStep(w, w', cur, j) && f in w'.owner && OwnerOk(w, f) && Local(w, w.owner[f].i) && Local(w, cur) && Local(w, j)
    ensures OwnerOk(w', f)
  {
  }

  lemma CollectInv(w: World, w': World, cur: nat, j: nat)
    requires Inv(w) && CollectStep(w, w', cur, j)
    ensures Inv(w') && Advances(w, w')
    ensures w.lives[w.gen[j]] == Life(w.procs[j].pid, Exited(j)) && w'.lives[w.gen[j]].stage == Collected
  {
    assert Local(w, cur) && Local(w, j);
    forall i | 0 <= i < NPROC
      ensures Local(w', i)
    {
      assert Local(w, i);
      CollectLocal(w, w', cur, j, i);
    }
    forall i, k | 0 <= i < NPROC && 0 <= k < NPROC
      ensures NoMissedExit(w', i, k)
    {
      assert NoMissedExit(w, i, k);
    }
    forall g | 0 <= g < |w'.lives|
      ensures LifeOk(w', g)
    {
      assert LifeOk(w, g);
    }
    forall f | f in w'.owner
      ensures OwnerOk(w', f)
    {
      assert OwnerOk(w, f) && Local(w, w.owner[f].i);
      CollectOwner(w, w', cur, j, f);
    }
  }

  ghost predicate NoExitedChild(procs: seq<Proc>, cur: nat) {
    forall j | 0 <= j < |procs| :: procs[j].parent == Slot(cur) ==> procs[j].state != ZOMBIE
  }

  /** A process in wait goes to sleep on itself, or leaves wait without a child. */
  ghost predicate WaitStep(w: World, w': World, cur: nat) {
    && Shape(w) && Runs(w, cur) && w.act[cur] in {Elsewhere, InWait}
    && (|| (NoExitedChild(w.procs, cur)
            && w' == SetAct(SetProc(w, cur, w.procs[cur].(state := SLEEPING, chan := OnProc(cur))), cur, InWait))
        || w' == SetAct(w, cur, Elsewhere))
  }

  lemma WaitFamily(w: World, w': World, cur: nat, i: nat)
    requires WaitStep(w, w', cur) && i < NPROC && Family(w, i) && Record(w, i)
    ensures Shape(w') && Family(w', i) && Record(w', i)
  {
    hide NoExitedChild;
  }

  lemma WaitControl(w: World, w': World, cur: nat, i: nat)
    requires WaitStep(w, w', cur) && i < NPROC && Control(w, i)
    ensures Shape(w') && Control(w', i)
  {
    hide NoExitedChild;
  }

  lemma WaitMemory(w: World, w': World, cur: nat, i: nat)
    requires WaitStep(w, w', cur) && i < NPROC && Memory(w, i)
    ensures Shape(w') && Memory(w', i)
  {
    hide NoExitedChild;
  }

  lemma WaitLocal(w: World, w': World, cur: nat, i: nat)
    requires WaitStep(w, w', cur) && i < NPROC && Local(w, i)
    ensures Shape(w') && Local(w', i)
  {
    hide WaitStep, Family, Control, Record, Memory;
    WaitFamily(w, w', cur, i);
    WaitControl(w, w', cur, i);
    WaitMemory(w, w', cur, i);
  }

  lemma WaitInv(w: World, w': World, cur: nat)
    requires Inv(w) && WaitStep(w, w', cur)
    ensures Inv(w') && Advances(w, w')
  {
    hide Family, Control, Record, Memory;
    forall i | 0 <= i < NPROC
      ensures Local(w', i)
    {
      assert Local(w, i);
      WaitLocal(w, w', cur, i);
    }
    forall i, j | 0 <= i < NPROC && 0 <= j < NPROC
      ensures NoMissedExit(w', i, j)
    {
      assert NoMissedExit(w, i, j);
    }
    forall g | 0 <= g < |w'.lives|
      ensures LifeOk(w', g)
    {
      assert LifeOk(w, g);
    }
    forall f | f in w'.owner
      ensures OwnerOk(w', f)
    {
      assert OwnerOk(w, f);
    }
  }

  // ------------------------------------------------------------------ what the invariant says

  /** The process tree, whenever the table lock is free. */
  lemma ProcessTree(w: World, i: nat)
    requires Inv(w) && i < NPROC && w.procs[i].state != UNUSED
    ensures w.procs[i].parent.Slot? ==> w.procs[i].parent.i < NPROC && Alive(w.procs[w.procs[i].parent.i])
    ensures w.procs[i].state == ZOMBIE ==> w.procs[i].parent.Slot?
    ensures forall j | 0 <= j < NPROC && w.procs[j].parent == Slot(i) && w.procs[j].state == ZOMBIE ::
              !(w.procs[i].state == SLEEPING && w.act[i] == InWait && w.procs[i].chan == OnProc(i))
  {
    assert Local(w, i) && Local(w, INIT);
    forall j | 0 <= j < NPROC && w.procs[j].parent == Slot(i) && w.procs[j].state == ZOMBIE
      ensures !(w.procs[i].state == SLEEPING && w.act[i] == InWait && w.procs[i].chan == OnProc(i))
    {
      assert NoMissedExit(w, i, j);
    }
  }

  /** The processes that have exited and not been collected are exactly the ZOMBIE slots. */
  lemma ZombiesAreExited(w: World, g: nat, i: nat)
    requires Inv(w) && g < |w.lives| && i < NPROC
    ensures w.lives[g].stage == Exited(i) <==> w.procs[i].state == ZOMBIE && w.gen[i] == g
  {
    assert Local(w, i) && LifeOk(w, g);
  }

  /** No piece of memory is held twice, and none allocated is lost. */
  lemma MemoryHeldOnce(w: World, i: nat, j: nat)
    requires Inv(w) && i < NPROC && j < NPROC
    ensures HasStack(w, i) && HasStack(w, j) && w.procs[i].kstack == w.procs[j].kstack ==> i == j
    ensures HasDirectory(w, i) && HasDirectory(w, j) && w.procs[i].pgdir == w.procs[j].pgdir ==> i == j
    ensures HasStack(w, i) && HasDirectory(w, j) ==> w.procs[i].kstack != w.procs[j].pgdir
  {
    assert Local(w, i) && Local(w, j);
  }

  // ------------------------------------------------------------------ every run

  /** The table after userinit: the first process alone. */
  ghost predicate Start(w: World) {
    && Shape(w)
    && w.procs[INIT].state == RUNNABLE && w.procs[INIT].parent == Null && w.procs[INIT].kstack != w.procs[INIT].pgdir
    && (forall i | 0 < i < NPROC :: w.procs[i].state == UNUSED && w.procs[i].parent == Null)
    && (forall i | 0 <= i < NPROC :: !w.procs[i].killed)
    && (forall i | 0 <= i < NPROC :: w.act[i] == Elsewhere)
    && w.gen[INIT] == 0 && w.lives == [Life(w.procs[INIT].pid, Living(INIT))]
    && w.owner == map[w.procs[INIT].kstack := Stack(INIT), w.procs[INIT].pgdir := Directory(INIT)]
  }

  lemma StartInv(w: World)
    requires Start(w)
    ensures Inv(w)
  {
    forall i | 0 <= i < NPROC
      ensures Local(w, i)
    {
    }
  }

  ghost predicate AllocStep(w: World, w': World, cur: nat, np: nat, pid: int) {
    && Shape(w) && np < NPROC && Runs(w, cur) && w.act[cur] == Elsewhere && w.procs[np].state == UNUSED
    && w' == Allocated(w, cur, np, pid)
  }

  /** Scheduling, sleep other than in wait, and wakeup. */
  ghost predicate RestateStep(w: World, w': World) {
    && Shape(w) && |w'.procs| == NPROC && (forall i | 0 <= i < NPROC :: Restated(w.procs[i], w'.procs[i]))
    && SameMarks(w.procs, w'.procs) && w' == w.(procs := w'.procs)
  }

  ghost predicate KillStep(w: World, w': World, pid: int, i: nat) {
    Shape(w) && Killed(w.procs, w'.procs, pid, i) && w' == w.(procs := w'.procs)
  }

  ghost predicate KillsFirst(w: World, w': World, pid: int) {
    exists i :: KillStep(w, w', pid, i)
  }

  ghost predicate Next(w: World, w': World) {
    || (exists cur, np, pid :: AllocStep(w, w', cur, np, pid))
    || (exists cur, np, h :: ChildStep(w, w', cur, np, h))
    || (exists cur, np :: AbandonStep(w, w', cur, np))
    || (exists cur :: ExitStep(w, w', cur))
    || (exists cur, j :: CollectStep(w, w', cur, j))
    || (exists cur :: WaitStep(w, w', cur))
    || (exists pid, i :: KillStep(w, w', pid, i))
    || RestateStep(w, w')
  }

  lemma NextInv(w: World, w': World)
    requires Inv(w) && Next(w, w')
    ensures Inv(w') && Advances(w, w')
  {
    hide Inv, Advances;
    if cur, np, pid :| AllocStep(w, w', cur, np, pid) {
      AllocatedInv(w, cur, np, pid);
    } else if cur, np, h :| ChildStep(w, w', cur, np, h) {
      ChildInv(w, w', cur, np, h);
    } else if cur, np :| AbandonStep(w, w', cur, np) {
      AbandonInv(w, w', cur, np);
    } else if cur :| ExitStep(w, w', cur) {
      ExitInv(w, w', cur);
    } else if cur, j :| CollectStep(w, w', cur, j) {
      CollectInv(w, w', cur, j);
    } else if cur :| WaitStep(w, w', cur) {
      WaitInv(w, w', cur);
    } else if pid, i :| KillStep(w, w', pid, i) {
      KillInv(w, w', pid, i);
    } else {
      RestatedInv(w, w'.procs);
    }
  }

  lemma KillInv(w: World, w': World, pid: int, i: nat)
    requires Inv(w) && KillStep(w, w', pid, i)
    ensures Inv(w') && Advances(w, w')
  {
    assert Shape(w) && forall k | 0 <= k < NPROC :: Restated(w.procs[k], w'.procs[k]);
    hide Inv, Advances;
    RestatedInv(w, w'.procs);
  }

  ghost predicate Behavior(run: seq<World>) {
    && |run| > 0 && Start(run[0])
    && (forall k | 0 < k < |run| :: Next(run[k - 1], run[k]))
  }

  lemma {:induction false} RunInv(run: seq<World>, k: nat)
    requires Behavior(run) && k < |run|
    ensures Inv(run[k])
    decreases k
  {
    hide Next, Inv, Start;
    if k == 0 {
      StartInv(run[0]);
    } else {
      RunInv(run, k - 1);
      NextInv(run[k - 1], run[k]);
    }
  }

  // ------------------------------------------------------------------ who starts killed

  /** A kill finds slot s, in use or not. */
  ghost predicate Hit(w: World, w': World, s: nat) {
    exists pid :: KillStep(w, w', pid, s)
  }

  /** wait collects the process in slot s. */
  ghost predicate Cleared(w: World, w': World, s: nat) {
    exists cur :: CollectStep(w, w', cur, s)
  }

  /** Only a kill that finds the slot sets the mark, and only collecting its process clears it. */
  lemma KilledAfter(w: World, w': World, s: nat)
    requires Shape(w) && Shape(w') && Next(w, w') && s < NPROC
    ensures w'.procs[s].killed <==> Hit(w, w', s) || (w.procs[s].killed && !Cleared(w, w', s))
  {
    assert Hit(w, w', s) ==> w'.procs[s].killed;
    assert Cleared(w, w', s) ==> !w'.procs[s].killed;
    if !Hit(w, w', s) && !Cleared(w, w', s) {
      KilledStays(w, w', s);
    }
  }

  lemma MakingKeepsMarks(w: World, w': World, cur: nat, np: nat, h: nat, pid: int)
    requires AllocStep(w, w', cur, np, pid) || ChildStep(w, w', cur, np, h) || AbandonStep(w, w', cur, np)
    ensures SameMarks(w.procs, w'.procs)
  {
  }

  lemma ExitKeepsMarks(w: World, w': World, cur: nat)
    requires ExitStep(w, w', cur)
    ensures SameMarks(w.procs, w'.procs)
  {
    hide LeavesZombie;
  }

  lemma KilledStays(w: World, w': World, s: nat)
    requires Shape(w) && Shape(w') && Next(w, w') && s < NPROC && !Hit(w, w', s) && !Cleared(w, w', s)
    ensures w'.procs[s].killed == w.procs[s].killed
  {
    hide AllocStep, ChildStep, AbandonStep, ExitStep, NoExitedChild;
    if cur, j :| CollectStep(w, w', cur, j) {
      assert j != s;
    } else if pid, i :| KillStep(w, w', pid, i) {
      assert i != s;
    } else if cur :| ExitStep(w, w', cur) {
      ExitKeepsMarks(w, w', cur);
    } else if cur, np, pid :| AllocStep(w, w', cur, np, pid) {
      MakingKeepsMarks(w, w', cur, np, 0, pid);
    } else if cur, np, h :| ChildStep(w, w', cur, np, h) {
      MakingKeepsMarks(w, w', cur, np, h, 0);
    } else if cur, np :| AbandonStep(w, w', cur, np) {
      MakingKeepsMarks(w, w', cur, np, 0, 0);
    }
  }

  ghost predicate HitAt(run: seq<World>, s: nat, c: nat) {
    0 < c < |run| && Hit(run[c - 1], run[c], s)
  }

  ghost predicate ClearedAt(run: seq<World>, s: nat, c: nat) {
    0 < c < |run| && Cleared(run[c - 1], run[c], s)
  }

  /** A kill has found the slot up to step b, and its process has not been collected since. */
  ghost predicate HitSince(run: seq<World>, s: nat, b: nat) {
    exists c: nat :: c <= b && HitAt(run, s, c) && forall k: nat | c < k <= b :: !ClearedAt(run, s, k)
  }

  lemma HitSinceStep(run: seq<World>, s: nat, b: nat)
    requires b > 0
    ensures HitSince(run, s, b) <==> HitAt(run, s, b) || (HitSince(run, s, b - 1) && !ClearedAt(run, s, b))
  {
    hide HitAt, ClearedAt;
    if HitSince(run, s, b - 1) && !ClearedAt(run, s, b) {
      var c: nat :| c <= b - 1 && HitAt(run, s, c) && forall k: nat | c < k <= b - 1 :: !ClearedAt(run, s, k);
      assert forall k: nat | c < k <= b :: !ClearedAt(run, s, k);
    }
  }

  /**
   * In every run the entry in a slot is marked killed exactly if a kill has found the slot since it was last
   * collected.  Neither allocproc nor a fork that fails clears the mark, so the slot may have been unused then,
   * and a child may start killed.
   */
  lemma {:induction false} KilledSince(run: seq<World>, s: nat, b: nat)
    requires Behavior(run) && s < NPROC && b < |run|
    ensures Shape(run[b]) && (run[b].procs[s].killed <==> HitSince(run, s, b))
    decreases b
  {
    RunInv(run, b);
    InvShape(run[b]);
    hide Next, Hit, Cleared, Inv;
    if b == 0 {
      assert forall c: nat :: c <= 0 ==> !HitAt(run, s, c);
    } else {
      hide Start, HitSince;
      KilledSince(run, s, b - 1);
      assert Next(run[b - 1], run[b]);
      KilledAfter(run[b - 1], run[b], s);
      HitSinceStep(run, s, b);
    }
  }

  lemma InvShape(w: World)
    requires Inv(w)
    ensures Shape(w)
  {
  }

  /** kill(0) while only the first process runs: the next fork's child starts killed. */
  lemma KillZero(w: World) returns (w1: World, w2: World)
    requires Shape(w) && w.procs[INIT].state == RUNNING && w.procs[INIT].pid == 1 && w.act[INIT] == Elsewhere
    requires w.procs[1].state == UNUSED && w.procs[1].pid == 0
    ensures KillStep(w, w1, 0, 1) && AllocStep(w1, w2, INIT, 1, 2) && w2.procs[1].killed
  {
    w1 := w.(procs := w.procs[1 := w.procs[1].(killed := true)]);
    w2 := Allocated(w1, INIT, 1, 2);
  }

  lemma AdvancesSelf(w: World)
    ensures Advances(w, w)
  {
  }

  lemma AdvancesTwice(a: World, b: World, c: World)
    requires Advances(a, b) && Advances(b, c)
    ensures Advances(a, c)
  {
  }

  lemma {:induction false} LivesAdvance(run: seq<World>, i: nat, k: nat)
    requires Behavior(run) && i <= k < |run|
    ensures Advances(run[i], run[k])
    decreases k - i
  {
    hide Next, Inv, Start, Advances;
    if i < k {
      LivesAdvance(run, i, k - 1);
      RunInv(run, k - 1);
      assert Next(run[k - 1], run[k]);
      NextInv(run[k - 1], run[k]);
      AdvancesTwice(run[i], run[k - 1], run[k]);
    } else {
      AdvancesSelf(run[i]);
    }
  }

  /** In every run a process is collected at most once, and what it is collected with is its own pid. */
  lemma CollectedOnce(run: seq<World>, i: nat, k: nat, cur: nat, j: nat, cur': nat, j': nat)
    requires Behavior(run) && i < k && k + 1 < |run|
    requires CollectStep(run[i], run[i + 1], cur, j) && CollectStep(run[k], run[k + 1], cur', j')
    ensures run[i].gen[j] != run[k].gen[j']
    ensures run[i].gen[j] < |run[k].lives| && run[k].lives[run[i].gen[j]] == Life(run[i].procs[j].pid, Collected)
  {
    hide Inv, Behavior;
    RunInv(run, i);
    CollectInv(run[i], run[i + 1], cur, j);
    LivesAdvance(run, i + 1, k);
    RunInv(run, k);
    CollectInv(run[k], run[k + 1], cur', j');
  }
}
