/**
 * The process table as the kernel changes it: the scans of allocproc, exit, wait, wakeup1 and kill over the table,
 * each one stay under the table's lock, and the steps fork makes on a child nobody else can see yet.
 */
module Procs {
  import opened ProcSpec

  const INT_MAX := 0x7fff_ffff

  function NextPid(pid: int): int {
    if pid == INT_MAX then -INT_MAX - 1 else pid + 1
  }

  class ProcTable {
    var procs: seq<Proc>
    var nextpid: int
    ghost var w: World

    ghost predicate Valid()
      reads this
    {
      Inv(w) && w.procs == procs
    }

    /** The table once the first process may run, in kernel stack h with page directory d. */
    constructor (h: nat, d: nat)
      requires h != d
      ensures Valid() && Start(w) && nextpid == 2
    {
      var empty := Proc(UNUSED, 0, Null, NoChan, false, 0, 0);
      var first := Proc(RUNNABLE, 1, Null, NoChan, false, h, d);
      procs := seq(NPROC, i => if i == INIT then first else empty);
      nextpid := 2;
      w := World(seq(NPROC, i => if i == INIT then first else empty), seq(NPROC, i => Elsewhere), seq(NPROC, i => 0), seq(NPROC, i => 0),
                 [Life(1, Living(INIT))], map[h := Stack(INIT), d := Directory(INIT)]);
      new;
      StartInv(w);
    }

    /** allocproc under the lock: the first unused slot, or none when there is none. */
    method AllocProc(cur: nat) returns (np: Ref)
      requires Valid() && Runs(w, cur) && w.act[cur] == Elsewhere
      modifies this
      ensures Valid() && Advances(old(w), w)
      ensures np == Null ==> w == old(w) && nextpid == old(nextpid) && forall i | 0 <= i < NPROC :: procs[i].state != UNUSED
      ensures np.Slot? ==> AllocStep(old(w), w, cur, np.i, old(nextpid)) && nextpid == NextPid(old(nextpid))
    {
      var i := 0;
      while i < NPROC && procs[i].state != UNUSED
        invariant 0 <= i <= NPROC && forall k | 0 <= k < i :: procs[k].state != UNUSED
      {
        i := i + 1;
      }
      if i == NPROC {
        return Null;
      }
      AllocatedInv(w, cur, i, nextpid);
      hide Inv;
      w := Allocated(w, cur, i, nextpid);
      procs := procs[i := procs[i].(state := EMBRYO, pid := nextpid)];
      nextpid := NextPid(nextpid);
      return Slot(i);
    }

    /** allocproc after the lock: a kernel stack at h, or none to be had. */
    method GiveStack(cur: nat, np: nat, h: nat) returns (ok: bool)
      requires Valid() && Runs(w, cur) && w.act[cur] == Stacking(np) && (h != 0 ==> h !in w.owner)
      modifies this
      ensures Valid() && Advances(old(w), w) && nextpid == old(nextpid) && (ok <==> h != 0)
      ensures if ok then ChildStep(old(w), w, cur, np, h) else AbandonStep(old(w), w, cur, np)
    {
      assert Local(w, cur) && Local(w, np);
      hide Inv;
      procs := procs[np := procs[np].(kstack := h)];
      ok := h != 0;
      if ok {
        ChildInv(w, Stacked(w, cur, np, h), cur, np, h);
        w := Stacked(w, cur, np, h);
      } else {
        AbandonInv(w, Abandoned(w, cur, np, {}, w.procs[np].pgdir), cur, np);
        procs := procs[np := procs[np].(state := UNUSED)];
        w := Abandoned(w, cur, np, {}, w.procs[np].pgdir);
      }
    }

    /** fork: the memory is copied to directory d and the parent set, or the stack and the slot are given back. */
    method CopyMemory(cur: nat, np: nat, d: nat) returns (ok: bool)
      requires Valid() && Runs(w, cur) && w.act[cur] == Copying(np) && (d != 0 ==> d !in w.owner)
      modifies this
      ensures Valid() && Advances(old(w), w) && nextpid == old(nextpid) && (ok <==> d != 0)
      ensures if ok then ChildStep(old(w), w, cur, np, d) else AbandonStep(old(w), w, cur, np) && old(w.procs[np].kstack) !in w.owner
    {
      assert Local(w, cur) && Local(w, np);
      hide Inv;
      procs := procs[np := procs[np].(pgdir := d)];
      ok := d != 0;
      if ok {
        ChildInv(w, Copied(w, cur, np, d), cur, np, d);
        procs := procs[np := procs[np].(parent := Slot(cur))];
        w := Copied(w, cur, np, d);
      } else {
        ghost var w' := Abandoned(w, cur, np, {w.procs[np].kstack}, 0);
        AbandonInv(w, w', cur, np);
        procs := procs[np := procs[np].(kstack := 0)];
        procs := procs[np := procs[np].(state := UNUSED)];
        w := w';
      }
    }

    /** fork: the child may run, and its pid is returned. */
    method Publish(cur: nat, np: nat) returns (pid: int)
      requires Valid() && Runs(w, cur) && w.act[cur] == Ready(np)
      modifies this
      ensures Valid() && Advances(old(w), w) && nextpid == old(nextpid)
      ensures ChildStep(old(w), w, cur, np, 0)
      ensures np < NPROC && pid == procs[np].pid && procs[np].parent == Slot(cur) && procs[np].state == RUNNABLE
    {
      assert Local(w, cur) && Local(w, np);
      hide Inv;
      pid := procs[np].pid;
      ChildInv(w, Published(w, cur, np), cur, np, 0);
      procs := procs[np := procs[np].(state := RUNNABLE)];
      w := Published(w, cur, np);
    }

    /** wakeup1: everyone asleep on the channel, and nobody else, becomes runnable. */
    method Wakeup1(chan: Chan)
      requires |procs| == NPROC
      modifies this`procs
      ensures |procs| == NPROC && forall i | 0 <= i < NPROC :: procs[i] == Woken(old(procs)[i], chan)
    {
      var i := 0;
      while i < NPROC
        invariant 0 <= i <= NPROC && |procs| == NPROC
        invariant forall k | 0 <= k < NPROC :: procs[k] == if k < i then Woken(old(procs)[k], chan) else old(procs)[k]
      {
        if procs[i].state == SLEEPING && procs[i].chan == chan {
          procs := procs[i := procs[i].(state := RUNNABLE)];
        }
        i := i + 1;
      }
    }

    /** wakeup: wakeup1 under the lock; nothing but sleepers on the channel changes. */
    method Wakeup(chan: Chan)
      requires Valid()
      modifies this
      ensures Valid() && Advances(old(w), w) && RestateStep(old(w), w)
      ensures forall i | 0 <= i < NPROC :: procs[i] == Woken(old(procs)[i], chan)
    {
      Wakeup1(chan);
      RestatedInv(w, procs);
      w := w.(procs := procs);
    }

    /** kill: the first process with the pid is marked, and woken if it sleeps. */
    method Kill(pid: int) returns (ok: bool)
      requires Valid()
      modifies this
      ensures Valid() && Advances(old(w), w)
      ensures ok <==> exists i | 0 <= i < NPROC :: old(procs)[i].pid == pid
      ensures !ok ==> procs == old(procs) && w == old(w)
      ensures ok ==> KillsFirst(old(w), w, pid)
    {
      var i := 0;
      while i < NPROC
        invariant 0 <= i <= NPROC && procs == old(procs) && w == old(w) && Valid()
        invariant forall k | 0 <= k < i :: procs[k].pid != pid
      {
        if procs[i].pid == pid {
          var p := procs[i].(killed := true);
          procs := procs[i := if p.state == SLEEPING then p.(state := RUNNABLE) else p];
          RestatedInv(w, procs);
          w := w.(procs := procs);
          assert KillStep(old(w), w, pid, i) && KillsFirst(old(w), w, pid);
          return true;
        }
        i := i + 1;
      }
      RestatedInv(w, procs);
      return false;
    }

    /** scheduler: a runnable process runs, with no channel. */
    method Schedule(i: nat)
      requires Valid() && i < NPROC && procs[i].state == RUNNABLE
      modifies this
      ensures Valid() && Advances(old(w), w) && RestateStep(old(w), w)
      ensures procs == old(procs)[i := old(procs)[i].(state := RUNNING, chan := NoChan)]
    {
      procs := procs[i := procs[i].(state := RUNNING, chan := NoChan)];
      RestatedInv(w, procs);
      w := w.(procs := procs);
    }

    /** yield, or sleep on a channel that is not a process. */
    method GiveUp(cur: nat, chan: Chan)
      requires Valid() && Runs(w, cur) && !chan.OnProc?
      modifies this
      ensures Valid() && Advances(old(w), w) && RestateStep(old(w), w)
      ensures procs == old(procs)[cur := old(procs)[cur].(state := if chan == NoChan then RUNNABLE else SLEEPING, chan := chan)]
    {
      procs := procs[cur := procs[cur].(state := if chan == NoChan then RUNNABLE else SLEEPING, chan := chan)];
      RestatedInv(w, procs);
      w := w.(procs := procs);
    }

    /** exit's scan: children go to init, which is woken if one of them has already exited. */
    method Abandon(cur: nat)
      requires |procs| == NPROC && cur < NPROC
      modifies this`procs
      ensures |procs| == NPROC
      ensures forall i | 0 <= i < NPROC :: procs[i] == PassedOn(old(procs)[i], cur, LeavesZombie(old(procs), cur))
    {
      var i := 0;
      ghost var woke := false;
      while i < NPROC
        invariant 0 <= i <= NPROC && |procs| == NPROC
        invariant woke <==> exists j | 0 <= j < i :: old(procs)[j].parent == Slot(cur) && old(procs)[j].state == ZOMBIE
        invariant forall k | 0 <= k < NPROC ::
                    procs[k] == if k < i then PassedOn(old(procs)[k], cur, woke)
                                else if woke then Woken(old(procs)[k], OnProc(INIT)) else old(procs)[k]
      {
        if procs[i].parent == Slot(cur) {
          procs := procs[i := procs[i].(parent := Slot(INIT))];
          if procs[i].state == ZOMBIE {
            Wakeup1(OnProc(INIT));
            woke := true;
          }
        }
        i := i + 1;
      }
    }

    /** exit: init may not; any other process wakes its parent, leaves its children to init and becomes a ZOMBIE. */
    method Exit(cur: nat) returns (panicked: bool)
      requires Valid() && Runs(w, cur) && w.act[cur] == Elsewhere
      modifies this
      ensures Valid() && Advances(old(w), w) && nextpid == old(nextpid) && (panicked <==> cur == INIT)
      ensures if panicked then w == old(w) else ExitStep(old(w), w, cur)
    {
      panicked := cur == INIT;
      if panicked {
        return;
      }
      assert Local(w, cur);
      hide Inv;
      var parent := procs[cur].parent;
      Wakeup1(OnProc(parent.i));
      ghost var woken := procs;
      Abandon(cur);
      procs := procs[cur := procs[cur].(state := ZOMBIE)];
      forall i | 0 <= i < NPROC
        ensures procs[i] == AfterExit(w.procs, cur, i)
      {
        ExitEntry(w.procs, woken, cur, i);
      }
      ghost var w' := SetStage(w, w.gen[cur], Exited(cur)).(procs := procs);
      ExitInv(w, w', cur);
      w := w';
    }

    /**
     * wait, one pass: a child that has exited is collected and its pid returned; with no children, or killed, -1;
     * otherwise the process sleeps on itself.
     */
    method Wait(cur: nat) returns (pid: int, asleep: bool)
      requires Valid() && Runs(w, cur) && (w.act[cur] == Elsewhere || w.act[cur] == InWait)
      modifies this
      ensures Valid() && Advances(old(w), w) && nextpid == old(nextpid)
      ensures asleep ==> WaitStep(old(w), w, cur) && procs[cur].state == SLEEPING && procs[cur].chan == OnProc(cur)
      ensures !asleep ==>
                if NoExitedChild(old(procs), cur) then
                  pid == -1 && w == SetAct(old(w), cur, Elsewhere) && (NoChild(procs, cur) || procs[cur].killed)
                else exists j: nat :: CollectStep(old(w), w, cur, j) && pid == old(procs)[j].pid
    {
      var havekids := false;
      var j := 0;
      while j < NPROC
        invariant 0 <= j <= NPROC && w == old(w) && procs == old(procs) && Valid()
        invariant forall k | 0 <= k < j :: procs[k].parent == Slot(cur) ==> havekids && procs[k].state != ZOMBIE
        invariant havekids ==> !NoChild(procs, cur)
      {
        if procs[j].parent == Slot(cur) {
          havekids := true;
          if procs[j].state == ZOMBIE {
            pid := Collect(cur, j);
            return pid, false;
          }
        }
        j := j + 1;
      }
      if !havekids || procs[cur].killed {
        WaitInv(w, SetAct(w, cur, Elsewhere), cur);
        w := SetAct(w, cur, Elsewhere);
        return -1, false;
      }
      ghost var w' := SetAct(SetProc(w, cur, w.procs[cur].(state := SLEEPING, chan := OnProc(cur))), cur, InWait);
      WaitInv(w, w', cur);
      procs := procs[cur := procs[cur].(state := SLEEPING, chan := OnProc(cur))];
      w := w';
      return 0, true;
    }

    /** A child that has exited gives up its memory, its slot and its pid. */
    method Collect(cur: nat, j: nat) returns (pid: int)
      requires Valid() && Runs(w, cur) && (w.act[cur] == Elsewhere || w.act[cur] == InWait)
      requires j < NPROC && procs[j].parent == Slot(cur) && procs[j].state == ZOMBIE
      modifies this
      ensures Valid() && Advances(old(w), w) && nextpid == old(nextpid)
      ensures CollectStep(old(w), w, cur, j) && pid == old(procs)[j].pid
    {
      assert Local(w, j);
      CollectInv(w, CollectedWorld(w, cur, j), cur, j);
      hide Inv;
      pid := procs[j].pid;
      procs := procs[j := procs[j].(kstack := 0)];
      procs := procs[j := procs[j].(pid := 0, parent := Null, killed := false)];
      procs := procs[j := procs[j].(state := UNUSED)];
      w := CollectedWorld(w, cur, j);
    }
  }

  ghost predicate NoChild(procs: seq<Proc>, cur: nat) {
    forall j | 0 <= j < |procs| :: procs[j].parent != Slot(cur)
  }

  /** An entry after exit's scan. */
  ghost function PassedOn(p: Proc, cur: nat, woke: bool): Proc {
    if woke then Woken(Adopted(p, cur), OnProc(INIT)) else Adopted(p, cur)
  }

  lemma ExitEntry(procs: seq<Proc>, woken: seq<Proc>, cur: nat, i: nat)
    requires |procs| == NPROC == |woken| && cur < NPROC && i < NPROC && procs[cur].parent.Slot? && procs[cur].state == RUNNING
    requires forall k | 0 <= k < NPROC :: woken[k] == Woken(procs[k], OnProc(procs[cur].parent.i))
    ensures AfterExit(procs, cur, i) ==
            var p := PassedOn(woken[i], cur, LeavesZombie(woken, cur)); if i == cur then p.(state := ZOMBIE) else p
  {
    if LeavesZombie(procs, cur) {
      var j :| 0 <= j < |procs| && procs[j].parent == Slot(cur) && procs[j].state == ZOMBIE;
      assert woken[j] == procs[j];
    }
    if LeavesZombie(woken, cur) {
      var j :| 0 <= j < |woken| && woken[j].parent == Slot(cur) && woken[j].state == ZOMBIE;
      assert woken[j] == procs[j];
    }
  }
}
