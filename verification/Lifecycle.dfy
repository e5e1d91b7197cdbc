/** The life-cycle code of procs.c and syscalls.c in its own form: loops over the process table that
    update entries in place, on top of the page allocator.  Every method is proved to compute the
    corresponding function of module ProcTable, so what module ProcRuns proves of all runs holds of it.
 */
module Lifecycle {
  import opened Defs
  import opened FreeList
  import opened PageAllocator
  import opened ProcTable
  import opened ProcMemory
  import opened ProcRuns

  /** No slice of the allocator's slice list lies in a stack. */
  ghost predicate StacksOff(procs: seq<Proc>, slices: seq<nat>) {
    forall i :: 0 <= i < |procs| ==> StackOff(procs[i], slices)
  }

  ghost predicate StackOff(p: Proc, slices: seq<nat>) {
    p.state != Unused ==> BlockOff(StackOf(p).addr, StackOf(p).pages, slices)
  }

  class Code {
    const ptable: array<Proc>
    const kmem: Kmem
    const init: nat
    var nextPid: nat
    var current: int                    // the entry of the process that has the CPU, or NOBODY
    ghost var deaths: seq<Death>
    ghost var deliveries: seq<Delivery>
    var born: nat                       // history, like the serial numbers of the entries

    ghost function Abs(): Kernel
      reads this, ptable, kmem
    {
      Kernel(ptable[..], init, nextPid, kmem.list, deaths, deliveries, born, current)
    }

    ghost predicate Valid()
      reads this, ptable, kmem
    {
      kmem.Valid() && MemOk(kmem.list, ptable[..]) && StacksOff(ptable[..], kmem.slices) && init < ptable.Length
    }

    constructor (ptable: array<Proc>, kmem: Kmem, init: nat, nextPid: nat, born: nat)
      requires kmem.Valid() && MemOk(kmem.list, ptable[..]) && StacksOff(ptable[..], kmem.slices) && init < ptable.Length
      ensures Valid() && Abs() == Kernel(ptable[..], init, nextPid, kmem.list, [], [], born, NOBODY)
      ensures this.ptable == ptable && this.kmem == kmem
    {
      this.ptable, this.kmem, this.init, this.nextPid := ptable, kmem, init, nextPid;
      deaths, deliveries, this.born, current := [], [], born, NOBODY;
    }

    /** Store an entry that has the same stack as before. */
    method Put(i: nat, p: Proc)
      requires Valid() && i < ptable.Length
      requires StackOf(p) == StackOf(ptable[i]) && (p.state == Unused <==> ptable[i].state == Unused)
      modifies ptable
      ensures Valid() && Abs() == old(Abs()).(procs := old(ptable[..])[i := p])
    {
      ghost var k := Abs();
      ptable[i] := p;
      assert ptable[..] == k.procs[i := p];
      SameStacksMem(k, Abs());
    }

    /** pcb_cleanup: return the stack to the pool, mark the entry unused. */
    method CleanUp(i: nat)
      requires Valid() && InUse(ptable[..], i)
      modifies ptable, kmem`mem, kmem`freePages, kmem`nPages, kmem`list
      ensures Valid() && Abs() == ProcTable.CleanUp(old(Abs()), i)
    {
      ghost var k := Abs();
      CleanUpMem(k, i);
      var p := ptable[i];
      assert StackOk(k.free, k.procs, i) && StackOff(k.procs[i], kmem.slices);
      kmem.PageFreeMulti(p.stack, if p.stkpgs == 0 then N_USTKPAGES else p.stkpgs);
      ptable[i] := p.(state := Unused);
      assert ptable[..] == WithState(k.procs, i, Unused);
    }

    /** Hand the status of `child` to the waiting `to`, schedule `to`, reclaim `child`. */
    method Deliver(to: nat, child: nat)
      requires Valid() && to < ptable.Length && ptable[to].state == Waiting && InUse(ptable[..], child)
      modifies this`deaths, this`deliveries, ptable, kmem`mem, kmem`freePages, kmem`nPages, kmem`list
      ensures Valid() && Abs() == ProcTable.Deliver(old(Abs()), to, child)
      decreases 1, 0
    {
      var c := ptable[child];
      Put(to, ptable[to].(ret := c.pid));
      deliveries := deliveries + [Delivery(to, DeathOf(c))];
      Schedule(to);
      CleanUp(child);
    }

    /** Put a process on the ready queue; one that has been killed is terminated instead. */
    method Schedule(p: nat)
      requires Valid() && p < ptable.Length && ptable[p].state != Unused && ptable[p].state != Zombie
      requires ptable[p].state == Killed ==> 0 <= ptable[p].parent < ptable.Length
      modifies this`deaths, this`deliveries, ptable, kmem`mem, kmem`freePages, kmem`nPages, kmem`list
      ensures Valid()
      ensures old(ptable[p].state) != Killed ==> Abs() == old(Abs()).(procs := WithState(old(ptable[..]), p, Ready))
      ensures old(ptable[p].state) == Killed ==> Abs() == ProcTable.Zombify(old(Abs()), p)
      decreases if ptable[p].state == Killed then 3 else 0
    {
      if ptable[p].state == Killed {
        Zombify(p);
        return;
      }
      Put(p, ptable[p].(state := Ready));
    }

    /** The loop of pcb_zombify: every child of the victim goes to init; the last zombie among them
        is remembered. */
    method ReparentChildren(v: nat) returns (zchild: int)
      requires v < ptable.Length
      modifies ptable
      ensures zchild == ZombieOrphan(old(ptable[..]), v, ptable.Length)
      ensures ptable[..] == Reparent(old(ptable[..]), v, init, ptable.Length)
    {
      ghost var procs := ptable[..];
      var parent := ptable[v].parent;
      zchild := -1;
      var i := 0;
      while i < ptable.Length
        invariant 0 <= i <= ptable.Length
        invariant ptable[..] == Reparent(procs, v, init, i)
        invariant zchild == ZombieOrphan(procs, v, i)
      {
        ghost var before, moved := ptable[..], procs[i].(parent := init);
        assert ptable[i] == before[i] == procs[i];
        assert Orphan(procs, v, i) <==> ptable[i].state != Unused && i != parent && ptable[i].parent == v;
        if ptable[i].state != Unused && i != parent && ptable[i].parent == v {
          ptable[i] := ptable[i].(parent := init);
          assert ptable[..] == before[i := moved];
          if ptable[i].state == Zombie {
            zchild := i;
          }
        }
        i := i + 1;
      }
    }

    /** The first half of pcb_zombify: reparenting, and the wakeup of init for an inherited zombie. */
    method InheritByInit(v: nat)
      requires Valid() && v < ptable.Length
      modifies this`deaths, this`deliveries, ptable, kmem`mem, kmem`freePages, kmem`nPages, kmem`list
      ensures Valid() && Abs() == GiveToInit(old(Abs()), v)
      decreases 1, 1
    {
      ghost var k := Abs();
      var zchild := ReparentChildren(v);
      SameStacksMem(k, Abs());
      if zchild >= 0 && ptable[init].state == Waiting {
        Deliver(init, zchild);
      }
    }

    /** pcb_zombify */
    method Zombify(v: nat)
      requires Valid() && v < ptable.Length && ptable[v].state != Unused && ptable[v].state != Zombie
      requires 0 <= ptable[v].parent < ptable.Length
      modifies this`deaths, this`deliveries, ptable, kmem`mem, kmem`freePages, kmem`nPages, kmem`list
      ensures Valid() && Abs() == ProcTable.Zombify(old(Abs()), v)
      decreases 2
    {
      ghost var k := Abs();
      var parent, pid := ptable[v].parent, ptable[v].pid;
      InheritByInit(v);
      deaths := deaths + [DeathOf(ptable[v])];
      if ptable[parent].state == Waiting && (ptable[parent].target == 0 || ptable[parent].target == pid) {
        Deliver(parent, v);
      } else {
        Put(v, ptable[v].(state := Zombie));
      }
    }

    /** pcb_find_pid: the first entry in use with this pid, or -1. */
    method FindProc(pid: nat) returns (i: int)
      ensures i == FindPid(ptable[..], pid, ptable.Length)
    {
      if pid < 1 {
        return -1;
      }
      var n := 0;
      while n < ptable.Length
        invariant 0 <= n <= ptable.Length
        invariant FindPid(ptable[..], pid, n) == -1
      {
        if ptable[n].pid == pid && ptable[n].state != Unused {
          FindPidStable(ptable[..], pid, n + 1, ptable.Length);
          return n;
        }
        n := n + 1;
      }
      return -1;
    }

    /** The any-child scan of waitpid: whether any entry names `p` as its parent, up to the first
        zombie that does. */
    method ScanChildren(p: nat) returns (found: bool, child: int)
      ensures child == ZombieChild(ptable[..], p, ptable.Length)
      ensures found <==> HasEntryWithParent(ptable[..], p)
    {
      found, child := false, -1;
      var n := 0;
      while n < ptable.Length
        invariant 0 <= n <= ptable.Length
        invariant ZombieChild(ptable[..], p, n) == -1 && child == -1
        invariant found <==> exists i :: 0 <= i < n && ptable[..][i].parent == p
      {
        if ptable[n].parent == p {
          found := true;
          assert ptable[..][n].parent == p;
          if ptable[n].state == Zombie {
            child := n;
            ZombieChildStable(ptable[..], p, n + 1, ptable.Length);
            return;
          }
        }
        n := n + 1;
      }
    }

    /** sys_exit */
    method Exit(p: nat, status: int)
      requires Valid() && p < ptable.Length && ptable[p].state != Unused && ptable[p].state != Zombie
      requires 0 <= ptable[p].parent < ptable.Length
      modifies this`deaths, this`deliveries, ptable, kmem`mem, kmem`freePages, kmem`nPages, kmem`list
      ensures Valid() && Abs() == ProcTable.Exit(old(Abs()), p, status)
    {
      Put(p, ptable[p].(exitStatus := status));
      Zombify(p);
    }

    /** sys_waitpid */
    method Waitpid(p: nat, target: nat)
      requires Valid() && p < ptable.Length && ptable[p].state == Running
      modifies this`deaths, this`deliveries, ptable, kmem`mem, kmem`freePages, kmem`nPages, kmem`list
      ensures Valid() && Abs() == ProcTable.Waitpid(old(Abs()), p, target)
    {
      var child: int;
      if target == ptable[p].pid {
        Put(p, ptable[p].(ret := E_BAD_PARAM));
        return;
      }
      if target != 0 {
        child := FindProc(target);
        if child < 0 || ptable[child].parent != p {
          Put(p, ptable[p].(ret := E_BAD_PARAM));
          return;
        }
        if ptable[child].state != Zombie {
          child := -1;
        }
      } else {
        var found;
        found, child := ScanChildren(p);
        if !found {
          Put(p, ptable[p].(ret := E_NO_CHILDREN));
          return;
        }
      }
      if child < 0 {
        Put(p, ptable[p].(state := Waiting, target := target));
      } else {
        Collect(p, child);
      }
    }

    /** The end of sys_waitpid: the caller receives the pid and status of a zombie, which is reclaimed. */
    method Collect(p: nat, child: nat)
      requires Valid() && p < ptable.Length && ptable[p].state == Running && IsZombie(ptable[..], child)
      modifies this`deaths, this`deliveries, ptable, kmem`mem, kmem`freePages, kmem`nPages, kmem`list
      ensures Valid()
      ensures var k := old(Abs());
              var d := Delivery(p, DeathOf(k.procs[child]));
              Abs() == ProcTable.CleanUp(k.(procs := WithRet(k.procs, p, k.procs[child].pid),
                deliveries := k.deliveries + [d]), child)
    {
      var c := ptable[child];
      Put(p, ptable[p].(ret := c.pid));
      deliveries := deliveries + [Delivery(p, DeathOf(c))];
      CleanUp(child);
    }

    /** sys_kill.  A victim found in state Running gets the caller terminated instead. */
    method Kill(p: nat, pid: nat)
      requires Valid() && p < ptable.Length && ptable[p].state == Running
      requires forall i :: InUse(ptable[..], i) ==> 0 <= ptable[..][i].parent < ptable.Length
      modifies this`deaths, this`deliveries, ptable, kmem`mem, kmem`freePages, kmem`nPages, kmem`list
      ensures Valid() && Abs() == ProcTable.Kill(old(Abs()), p, pid)
    {
      if pid == ptable[p].pid {
        Exit(p, EXIT_KILLED);
        return;
      }
      if pid < FIRST_USER_PID {
        Put(p, ptable[p].(ret := E_FAILURE));
        return;
      }
      var v := FindProc(pid);
      if v < 0 {
        Put(p, ptable[p].(ret := E_NOT_FOUND));
        return;
      }
      KillFound(p, pid, v);
    }

    /** The victim of a kill has been found: what happens depends on its state. */
    method KillFound(p: nat, pid: nat, v: nat)
      requires Valid() && p < ptable.Length && ptable[p].state == Running
      requires forall i :: InUse(ptable[..], i) ==> 0 <= ptable[..][i].parent < ptable.Length
      requires pid != ptable[p].pid && pid >= FIRST_USER_PID && v == FindPid(ptable[..], pid, ptable.Length)
      modifies this`deaths, this`deliveries, ptable, kmem`mem, kmem`freePages, kmem`nPages, kmem`list
      ensures Valid() && Abs() == ProcTable.Kill(old(Abs()), p, pid)
    {
      var st := ptable[v].state;
      if st == Ready || st == Sleeping || st == Blocked {
        assert KillOutcome(ptable[..], p, pid) == KillMark(v);
        Put(v, ptable[v].(state := Killed));
        Put(p, ptable[p].(ret := SUCCESS));
      } else if st == Running {
        assert KillOutcome(ptable[..], p, pid) == KillNow(p);
        Exit(p, EXIT_KILLED);
      } else if st == Waiting {
        assert KillOutcome(ptable[..], p, pid) == KillNow(v);
        KillWaiting(p, v);
      } else if st == New {
        assert KillOutcome(ptable[..], p, pid) == KillPanic;
      } else {
        assert KillOutcome(ptable[..], p, pid) == KillNothing;
        Put(p, ptable[p].(ret := SUCCESS));
      }
    }

    method KillWaiting(p: nat, v: nat)
      requires Valid() && p < ptable.Length && v < ptable.Length && ptable[v].state == Waiting
      requires 0 <= ptable[v].parent < ptable.Length
      modifies this`deaths, this`deliveries, ptable, kmem`mem, kmem`freePages, kmem`nPages, kmem`list
      ensures Valid()
      ensures var k := ProcTable.Exit(old(Abs()), v, EXIT_KILLED); Abs() == k.(procs := WithRet(k.procs, p, SUCCESS))
    {
      Exit(v, EXIT_KILLED);
      Put(p, ptable[p].(ret := SUCCESS));
    }

    /** sys_fork, with the entry that pcb_alloc took from the free list. */
    method Fork(p: nat, slot: nat)
      requires Valid() && p < ptable.Length && ptable[p].state == Running
      requires slot < ptable.Length && ptable[slot].state == Unused
      modifies this`nextPid, this`born, ptable, kmem`mem, kmem`freePages, kmem`nPages, kmem`list
      ensures Valid() && Abs() == ProcTable.Fork(old(Abs()), p, slot)
    {
      ghost var k := Abs();
      ForkMem(k, p, slot);
      CoalescedIsOrdered(k.free);
      var stack := kmem.PageAlloc(N_USTKPAGES);
      if stack == NULL {
        AllocCorrect(k.free, N_USTKPAGES);
        Put(p, ptable[p].(ret := E_NO_PROCS));
        return;
      }
      AllocatedIsOff(k.free, N_USTKPAGES, kmem.slices);
      ptable[slot] := ptable[slot].(state := Ready, parent := p, pid := nextPid, ret := 0,
                                    stack := stack, stkpgs := N_USTKPAGES, serial := born);
      ghost var procs1 := ptable[..];
      assert procs1 == k.procs[slot := procs1[slot]];
      ptable[p] := ptable[p].(ret := nextPid);
      assert ptable[..] == WithRet(procs1, p, nextPid);
      nextPid, born := (nextPid + 1) % TWO_32, born + 1;
    }

    /** sys_exec, as far as the stacks are concerned; not `ok` where the kernel panics. */
    method Exec(p: nat) returns (ok: bool)
      requires Valid() && p < ptable.Length && ptable[p].state == Running
      modifies ptable, kmem`mem, kmem`freePages, kmem`nPages, kmem`list
      ensures Valid() && Abs() == ProcTable.Exec(old(Abs()), p)
      ensures ok <==> AllocAddr(old(kmem.list), N_USTKPAGES) != NULL
    {
      ghost var k := Abs();
      ExecMem(k, p);
      CoalescedIsOrdered(k.free);
      var oldstack, oldsize := ptable[p].stack, if ptable[p].stkpgs == 0 then N_USTKPAGES else ptable[p].stkpgs;
      var stack := kmem.PageAlloc(N_USTKPAGES);
      ok := stack != NULL;
      if !ok {
        AllocCorrect(k.free, N_USTKPAGES);
        return;
      }
      OldStackStillHeld(k, p);
      AllocatedIsOff(k.free, N_USTKPAGES, kmem.slices);
      assert StackOff(k.procs[p], kmem.slices);
      kmem.PageFreeMulti(oldstack, oldsize);
      ptable[p] := ptable[p].(state := Ready, stack := stack, stkpgs := N_USTKPAGES);
      assert ptable[..] == k.procs[p := ptable[p]];
    }

    /** Any event of a run, up to the change of the running process. */
    method Carry(e: Event)
      requires Valid() && WellLinked(Abs()) && Enabled(Abs(), e)
      modifies this`nextPid, this`born, this`deaths, this`deliveries, ptable, kmem`mem, kmem`freePages, kmem`nPages, kmem`list
      ensures Valid() && Abs() == Effect(old(Abs()), e) && current == old(current)
    {
      match e
      case DoFork(p, slot) => Fork(p, slot);
      case DoForkNoPcb(p) => Put(p, ptable[p].(ret := E_NO_PROCS));
      case DoExec(p) => var ok := Exec(p);
      case DoExit(p, status) => Exit(p, status);
      case DoWaitpid(p, target) => Waitpid(p, target);
      case DoKill(p, pid) => Kill(p, pid);
      case DoBlock(p) => Put(p, ptable[p].(state := Blocked));
      case DoSleep(p) =>
      case DoSchedule(p) => Schedule(p);
      case DoDispatch(p) => Put(p, ptable[p].(state := Running));
    }

    /** Any event of a run. */
    method Perform(e: Event)
      requires Valid() && WellLinked(Abs()) && Enabled(Abs(), e)
      modifies this, ptable, kmem`mem, kmem`freePages, kmem`nPages, kmem`list
      ensures Valid() && Abs() == Step(old(Abs()), e)
    {
      Carry(e);
      SetCurrent(e);
    }

    /** Who has the CPU now. */
    method SetCurrent(e: Event)
      requires Valid()
      modifies this`current
      ensures Valid() && Abs() == old(Abs()).(current := Holder(old(current), e, ptable[..]))
    {
      if e.DoDispatch? {
        current := e.p;
      } else if e.DoSleep? || !(0 <= current < ptable.Length && ptable[current].state == Running) {
        current := NOBODY;
      }
    }

    /** Any run. */
    method PerformAll(es: seq<Event>)
      requires Valid() && IsRun(Abs(), es)
      modifies this, ptable, kmem`mem, kmem`freePages, kmem`nPages, kmem`list
      ensures Valid() && Abs() == Run(old(Abs()), es)
      decreases |es|
    {
      if es != [] {
        Perform(es[0]);
        PerformAll(es[1..]);
      }
    }
  }

  lemma {:induction false} FindPidStable(procs: seq<Proc>, pid: nat, m: nat, n: nat)
    requires m <= n <= |procs| && FindPid(procs, pid, m) >= 0
    ensures FindPid(procs, pid, n) == FindPid(procs, pid, m)
    decreases n
  {
    if m < n {
      FindPidStable(procs, pid, m, n - 1);
    }
  }

  lemma {:induction false} ZombieChildStable(procs: seq<Proc>, p: nat, m: nat, n: nat)
    requires m <= n <= |procs| && ZombieChild(procs, p, m) >= 0
    ensures ZombieChild(procs, p, n) == ZombieChild(procs, p, m)
    decreases n
  {
    if m < n {
      ZombieChildStable(procs, p, m, n - 1);
    }
  }

  /** After the new stack has been allocated, the old one can still be given back. */
  lemma OldStackStillHeld(k: Kernel, p: nat)
    requires MemOk(k.free, k.procs) && InUse(k.procs, p) && AllocAddr(k.free, N_USTKPAGES) != NULL
    ensures Releasable(AllocRest(k.free, N_USTKPAGES), StackOf(k.procs[p]).addr, StackOf(k.procs[p]).pages)
  {
    assert StackOk(k.free, k.procs, p);
    CoalescedIsOrdered(k.free);
    forall b | Free(AllocRest(k.free, N_USTKPAGES), b)
      ensures Free(k.free, b)
    {
      AllocFree(k.free, 1, 0, N_USTKPAGES, b);
    }
  }
}
