/** What the system calls return, to whom, and in which state they leave the processes: laws in terms of the
    fields of the process table, for every event in every sound state.
 */
module ProcReturns {
  import opened Defs
  import opened FreeList
  import opened ProcTable
  import opened ProcTree
  import opened ProcWakeups
  import opened ProcMemory
  import opened ProcRuns
  import opened ProcHistory

  // ----- answers

  /** The step has told process `u` about a termination. */
  ghost predicate Told(k: Kernel, k': Kernel, u: int) {
    exists m :: |k.deliveries| <= m < |k'.deliveries| && k'.deliveries[m].to == u
  }

  /** The recipient of a delivery returns the pid of the terminated process; if it was waiting, it is ready. */
  ghost predicate Answered(k: Kernel, k': Kernel, d: Delivery) {
    && d.to < |k.procs| == |k'.procs|
    && k'.procs[d.to].ret == d.death.pid
    && k'.procs[d.to].state == if k.procs[d.to].state == Waiting then Ready else k.procs[d.to].state
  }

  /** Every delivery of the step is answered, and apart from the recipients and `callers` nobody's return value
      changes. */
  ghost predicate Answers(k: Kernel, k': Kernel, callers: set<int>) {
    && |k'.procs| == |k.procs|
    && (forall m :: |k.deliveries| <= m < |k'.deliveries| ==> Answered(k, k', k'.deliveries[m]))
    && (forall u :: 0 <= u < |k.procs| && u !in callers && !Told(k, k', u) ==> k'.procs[u].ret == k.procs[u].ret)
  }

  lemma InheritAnswers(k: Kernel, v: nat)
    requires v < |k.procs| && k.init < |k.procs| && v != k.init && !IsZombie(k.procs, v) && !IsZombie(k.procs, k.init)
    ensures Answers(k, GiveToInit(k, v), {})
  {
    InitIsTold(k, v);
    var k1, n := GiveToInit(k, v), |k.deliveries|;
    if k1.deliveries != k.deliveries {
      assert k1.deliveries[n].to == k.init;
    }
  }

  /** One more delivery, to a process that has not been told before. */
  lemma OneMoreAnswer(k: Kernel, k1: Kernel, k': Kernel, d: Delivery, callers: set<int>)
    requires Answers(k, k1, callers) && |k1.deliveries| >= |k.deliveries| && |k'.procs| == |k.procs|
    requires k'.deliveries == k1.deliveries + [d] && Answered(k, k', d) && !Told(k, k1, d.to)
    requires forall u :: 0 <= u < |k.procs| && u != d.to ==> k'.procs[u].ret == k1.procs[u].ret
    requires forall u :: 0 <= u < |k.procs| && Told(k, k1, u) ==> k'.procs[u].state == k1.procs[u].state
    ensures Answers(k, k', callers)
  {
    var n := |k1.deliveries|;
    assert k'.deliveries[n] == d;
    forall m | |k.deliveries| <= m < |k'.deliveries|
      ensures Answered(k, k', k'.deliveries[m])
    {
      if m < n {
        assert k'.deliveries[m] == k1.deliveries[m] && Answered(k, k1, k1.deliveries[m]);
        assert Told(k, k1, k1.deliveries[m].to);
      }
    }
    forall u | 0 <= u < |k.procs| && u !in callers && !Told(k, k', u)
      ensures k'.procs[u].ret == k.procs[u].ret
    {
      forall m | |k.deliveries| <= m < |k1.deliveries|
        ensures k1.deliveries[m].to != u
      {
        assert k'.deliveries[m] == k1.deliveries[m];
      }
    }
  }

  /** Only init is told by the first half of a termination, and then it no longer waits. */
  lemma ToldIsInit(k: Kernel, v: nat, u: int)
    requires v < |k.procs| && k.init < |k.procs| && v != k.init && !IsZombie(k.procs, v) && !IsZombie(k.procs, k.init)
    requires Told(k, GiveToInit(k, v), u)
    ensures u == k.init && GiveToInit(k, v).procs[u].state != Waiting
  {
    InitIsTold(k, v);
  }

  lemma VictimAnswered(k: Kernel, v: nat)
    requires WellLinked(k) && InUse(k.procs, v) && !IsZombie(k.procs, v) && v != k.init && k.procs[v].parent != v
    requires WaitsFor(GiveToInit(k, v).procs[k.procs[v].parent], k.procs[v].pid)
    ensures Answered(k, Zombify(k, v), Delivery(k.procs[v].parent, DeathOf(k.procs[v])))
    ensures forall u :: 0 <= u < |k.procs| && u != k.procs[v].parent ==>
      Zombify(k, v).procs[u].ret == GiveToInit(k, v).procs[u].ret
    ensures forall u :: 0 <= u < |k.procs| && u != k.procs[v].parent && u != v ==>
      Zombify(k, v).procs[u].state == GiveToInit(k, v).procs[u].state
  {
    GiveToInitKeeps(k, v);
    StillWaiting(k, v, k.procs[v].parent);
  }

  /** Reparenting changes nobody's state, except that init may stop waiting. */
  lemma StillWaiting(k: Kernel, v: nat, p: nat)
    requires v < |k.procs| && k.init < |k.procs| && p < |k.procs|
    requires GiveToInit(k, v).procs[p].state == Waiting
    ensures k.procs[p].state == Waiting
  {
  }

  lemma ZombifyAnswers(k: Kernel, v: nat)
    requires WellLinked(k) && InUse(k.procs, v) && !IsZombie(k.procs, v) && v != k.init && k.procs[v].parent != v
    requires !IsZombie(k.procs, k.init) && !IsZombie(k.procs, k.procs[v].parent)
    ensures Answers(k, Zombify(k, v), {})
  {
    InheritAnswers(k, v);
    GiveToInitKeeps(k, v);
    InitIsTold(k, v);
    var k1, k', p := GiveToInit(k, v), Zombify(k, v), k.procs[v].parent;
    forall u | Told(k, k1, u)
      ensures u == k.init && k1.procs[u].state != Waiting
    {
      ToldIsInit(k, v, u);
    }
    if WaitsFor(k1.procs[p], k.procs[v].pid) {
      VictimReported(k, v);
      VictimAnswered(k, v);
      OneMoreAnswer(k, k1, k', Delivery(p, DeathOf(k.procs[v])), {});
    } else {
      QuietAnswers(k, k1, k', {});
    }
  }

  /** Changes that deliver nothing and concern nobody who has been told. */
  lemma QuietAnswers(k: Kernel, k1: Kernel, k': Kernel, callers: set<int>)
    requires Answers(k, k1, callers) && k'.deliveries == k1.deliveries && |k'.procs| == |k.procs|
    requires forall u :: 0 <= u < |k.procs| && u !in callers ==> k'.procs[u].ret == k1.procs[u].ret
    requires forall u :: 0 <= u < |k.procs| && Told(k, k1, u) ==>
      k'.procs[u].state == k1.procs[u].state && k'.procs[u].ret == k1.procs[u].ret
    ensures Answers(k, k', callers)
  {
    forall m | |k.deliveries| <= m < |k'.deliveries|
      ensures Answered(k, k', k'.deliveries[m])
    {
      assert Answered(k, k1, k1.deliveries[m]) && Told(k, k1, k1.deliveries[m].to);
    }
    assert forall u :: Told(k, k', u) <==> Told(k, k1, u);
  }

  lemma ExitAnswers(k: Kernel, v: nat, status: int)
    requires Sound(k) && WellLinked(k) && InUse(k.procs, v) && !IsZombie(k.procs, v) && v != k.init
    ensures Answers(k, Exit(k, v, status), {})
    ensures forall u :: Told(k, Exit(k, v, status), u) ==> 0 <= u < |k.procs| && k.procs[u].state == Waiting
  {
    var rank :| Ranked(k.procs, k.init, rank);
    ParentFacts(k, rank, v);
    var k1, k' := k.(procs := k.procs[v := k.procs[v].(exitStatus := status)]), Exit(k, v, status);
    ZombifyAnswers(k1, v);
    WaitersTold(k1, v);
    assert forall u :: Told(k1, k', u) <==> Told(k, k', u);
    forall m | |k.deliveries| <= m < |k'.deliveries|
      ensures Answered(k, k', k'.deliveries[m])
    {
      assert Answered(k1, k', k'.deliveries[m]);
    }
  }

  /** Only waiting processes are told by a termination. */
  lemma WaitersTold(k: Kernel, v: nat)
    requires WellLinked(k) && InUse(k.procs, v) && !IsZombie(k.procs, v) && v != k.init && !IsZombie(k.procs, k.init)
    ensures forall u :: Told(k, Zombify(k, v), u) ==> 0 <= u < |k.procs| && k.procs[u].state == Waiting
  {
    GiveToInitKeeps(k, v);
    InitIsTold(k, v);
    var k1, k', p := GiveToInit(k, v), Zombify(k, v), k.procs[v].parent;
    if WaitsFor(k1.procs[p], k.procs[v].pid) {
      VictimReported(k, v);
      StillWaiting(k, v, p);
    } else {
      assert k'.deliveries == k1.deliveries;
    }
  }

  /** Whose return value an event sets besides those who are told of a termination. */
  function Callers(e: Event): set<int> {
    match e
    case DoFork(p, slot) => {p, slot}
    case DoForkNoPcb(p) => {p}
    case DoWaitpid(p, _) => {p}
    case DoKill(p, _) => {p}
    case _ => {}
  }

  lemma KillAnswers(k: Kernel, p: nat, pid: nat)
    requires Sound(k) && WellLinked(k) && Enabled(k, DoKill(p, pid))
    ensures Answers(k, Kill(k, p, pid), {p})
  {
    KillVictim(k, p, pid);
    match KillOutcome(k.procs, p, pid)
    case KillNow(v) =>
      ExitAnswers(k, v, EXIT_KILLED);
      QuietAnswers(k, Exit(k, v, EXIT_KILLED), Kill(k, p, pid), {p});
    case _ =>
  }

  lemma WaitpidAnswers(k: Kernel, p: nat, target: nat)
    requires Enabled(k, DoWaitpid(p, target))
    ensures Answers(k, Waitpid(k, p, target), {p})
  {
  }

  lemma EndAnswers(k: Kernel, v: nat)
    requires Sound(k) && WellLinked(k) && InUse(k.procs, v) && !IsZombie(k.procs, v) && v != k.init
    ensures Answers(k, Zombify(k, v), {})
  {
    var rank :| Ranked(k.procs, k.init, rank);
    ParentFacts(k, rank, v);
    ZombifyAnswers(k, v);
  }

  lemma EffectAnswers(k: Kernel, e: Event)
    requires Sound(k) && WellLinked(k) && Enabled(k, e)
    ensures Answers(k, Effect(k, e), Callers(e))
  {
    match e
    case DoExit(p, status) => ExitAnswers(k, p, status);
    case DoWaitpid(p, target) => WaitpidAnswers(k, p, target);
    case DoKill(p, pid) => KillAnswers(k, p, pid);
    case DoSchedule(p) =>
      if k.procs[p].state == Killed {
        var rank :| Ranked(k.procs, k.init, rank);
        EndAnswers(k, p);
      }
    case _ =>
  }

  /** In every step the pid that a waitpid returns is that of the process whose termination it reports, a waiting
      recipient becomes ready, and nobody else's return value changes, except that of the caller. */
  lemma StepAnswers(k: Kernel, e: Event)
    requires Sound(k) && WellLinked(k) && Enabled(k, e)
    ensures Answers(k, Step(k, e), Callers(e))
  {
    EffectAnswers(k, e);
    var k1, k' := Effect(k, e), Step(k, e);
    forall m | |k.deliveries| <= m < |k'.deliveries|
      ensures Answered(k, k', k'.deliveries[m])
    {
      assert Answered(k, k1, k1.deliveries[m]);
    }
    assert forall u :: Told(k, k', u) <==> Told(k, k1, u);
  }

  // ----- fork and exec

  /** There are `n` contiguous free pages. */
  ghost predicate Room(free: seq<Block>, n: nat) {
    exists a: nat :: Range(a, n) <= FreeBytes(free)
  }

  lemma RoomExact(free: seq<Block>, n: nat)
    requires Coalesced(free) && n >= 1
    ensures Room(free, n) <==> AllocAddr(free, n) != 0
    ensures Room(free, n) ==> Range(AllocAddr(free, n), n) <= FreeBytes(free)
  {
    FirstFitExact(free, n);
  }

  /** Nothing but entry `p` has changed, and of it nothing but the return value. */
  ghost predicate OnlyReturns(k: Kernel, k': Kernel, p: nat, ret: int) {
    && |k'.procs| == |k.procs| && p < |k.procs|
    && k'.procs[p].ret == ret && k'.procs[p].(ret := k.procs[p].ret) == k.procs[p]
    && (forall u :: 0 <= u < |k.procs| && u != p ==> k'.procs[u] == k.procs[u])
    && k'.nextPid == k.nextPid && k'.born == k.born && k'.free == k.free
    && k'.deaths == k.deaths && k'.deliveries == k.deliveries
  }

  /** A fork succeeds exactly when there is room for a stack.  Then the child is a ready child of the caller with
      the next pid, its call returns 0 and the caller's returns the child's pid; otherwise nobody is born and
      the call returns E_NO_PROCS. */
  lemma ForkExact(k: Kernel, p: nat, slot: nat)
    requires Sound(k) && WellLinked(k) && Enabled(k, DoFork(p, slot))
    ensures var k' := Step(k, DoFork(p, slot));
      if Room(k.free, N_USTKPAGES) then
        var c := k'.procs[slot];
        && |k'.procs| == |k.procs| && p != slot
        && c.state == Ready && c.parent == p && c.pid == k.nextPid && c.ret == 0 && c.serial == k.born
        && c.stkpgs == N_USTKPAGES && Range(c.stack, N_USTKPAGES) <= FreeBytes(k.free)
        && FreeBytes(k'.free) == FreeBytes(k.free) - Range(c.stack, N_USTKPAGES)
        && k'.procs[p].ret == c.pid && k'.procs[p].(ret := k.procs[p].ret) == k.procs[p]
        && (forall u :: 0 <= u < |k.procs| && u != p && u != slot ==> k'.procs[u] == k.procs[u])
        && k'.nextPid == (k.nextPid + 1) % TWO_32 && k'.born == k.born + 1
      else OnlyReturns(k, k', p, E_NO_PROCS)
  {
    RoomExact(k.free, N_USTKPAGES);
    CoalescedIsOrdered(k.free);
    AllocCorrect(k.free, N_USTKPAGES);
  }

  lemma ForkWithoutEntry(k: Kernel, p: nat)
    requires WellLinked(k) && Enabled(k, DoForkNoPcb(p))
    ensures OnlyReturns(k, Step(k, DoForkNoPcb(p)), p, E_NO_PROCS)
  {
  }

  /** A successful exec leaves the caller ready with a new stack of the default size, and the rest alone. */
  lemma ExecExact(k: Kernel, p: nat)
    requires Sound(k) && WellLinked(k) && Enabled(k, DoExec(p)) && Room(k.free, N_USTKPAGES)
    ensures var k', q := Step(k, DoExec(p)), k.procs[p];
      var q' := k'.procs[p];
      && |k'.procs| == |k.procs| && q'.state == Ready && k'.current == NOBODY
      && q'.stkpgs == N_USTKPAGES && Range(q'.stack, N_USTKPAGES) <= FreeBytes(k.free)
      && q' == q.(state := Ready, stack := q'.stack, stkpgs := q'.stkpgs)
      && (forall u :: 0 <= u < |k.procs| && u != p ==> k'.procs[u] == k.procs[u])
      && FreeBytes(k'.free) == FreeBytes(k.free) - Range(q'.stack, N_USTKPAGES) + Range(q.stack, StackOf(q).pages)
  {
    RoomExact(k.free, N_USTKPAGES);
    ExecBytes(k, p);
  }

  lemma ExecBytes(k: Kernel, p: nat)
    requires MemOk(k.free, k.procs) && InUse(k.procs, p) && AllocAddr(k.free, N_USTKPAGES) != 0
    ensures var s := StackOf(k.procs[p]);
      FreeBytes(Exec(k, p).free) ==
        FreeBytes(k.free) - Range(AllocAddr(k.free, N_USTKPAGES), N_USTKPAGES) + Range(s.addr, s.pages)
  {
    var s, rest := StackOf(k.procs[p]), AllocRest(k.free, N_USTKPAGES);
    assert StackOk(k.free, k.procs, p);
    CoalescedIsOrdered(k.free);
    AllocCorrect(k.free, N_USTKPAGES);
    forall b | Free(rest, b)
      ensures Free(k.free, b)
    {
      assert b in FreeBytes(rest);
    }
    ReleaseCorrect(rest, s.addr, s.pages);
  }

  // ----- waitpid and kill

  /** What a wait does in each of its four cases. */
  lemma WaitEffect(k: Kernel, p: nat, target: nat)
    requires WellLinked(k) && Enabled(k, DoWaitpid(p, target))
    ensures var k' := Step(k, DoWaitpid(p, target));
      match WaitOutcome(k.procs, p, target)
      case WaitError(code) => OnlyReturns(k, k', p, code) && k'.current == p
      case WaitBlock =>
        && k'.procs == k.procs[p := k.procs[p].(state := Waiting, target := target)] && k'.current == NOBODY
        && k'.free == k.free && k'.deliveries == k.deliveries
      case WaitReap(c) =>
        && c != p && k'.procs[p] == k.procs[p].(ret := k.procs[c].pid) && k'.procs[c] == k.procs[c].(state := Unused)
        && (forall u :: 0 <= u < |k.procs| && u != p && u != c ==> k'.procs[u] == k.procs[u])
        && k'.deliveries == k.deliveries + [Delivery(p, DeathOf(k.procs[c]))] && k'.current == p
  {
  }

  /** The calls of kill that are refused, and what they return. */
  lemma KillRefused(k: Kernel, p: nat, pid: nat)
    requires WellLinked(k) && Enabled(k, DoKill(p, pid)) && pid != k.procs[p].pid
    ensures pid < FIRST_USER_PID ==> OnlyReturns(k, Step(k, DoKill(p, pid)), p, E_FAILURE)
    ensures pid >= FIRST_USER_PID && (forall i :: InUse(k.procs, i) ==> k.procs[i].pid != pid) ==>
      OnlyReturns(k, Step(k, DoKill(p, pid)), p, E_NOT_FOUND)
  {
  }

  lemma FindUnique(procs: seq<Proc>, init: nat, v: nat)
    requires PidsOk(procs, init) && InUse(procs, v) && procs[v].pid >= 1
    ensures FindPid(procs, procs[v].pid, |procs|) == v
  {
  }

  /** The calls of kill that do nothing or mark the victim. */
  lemma KillMarks(k: Kernel, p: nat, v: nat)
    requires WellLinked(k) && PidsOk(k.procs, k.init) && InUse(k.procs, v) && v != p && k.procs[v].pid >= FIRST_USER_PID
    requires Enabled(k, DoKill(p, k.procs[v].pid))
    ensures var k' := Step(k, DoKill(p, k.procs[v].pid));
      && (k.procs[v].state in {Killed, Zombie} ==> OnlyReturns(k, k', p, SUCCESS))
      && (k.procs[v].state in {Ready, Sleeping, Blocked} ==>
            k'.procs == k.procs[v := k.procs[v].(state := Killed)][p := k.procs[p].(ret := SUCCESS)])
  {
    FindUnique(k.procs, k.init, v);
    KillExact(k.procs, p, k.procs[v].pid);
  }

  /** A kill that ends a waiting process succeeds. */
  lemma KillOfWaiter(k: Kernel, p: nat, v: nat)
    requires Sound(k) && WellLinked(k) && PidsOk(k.procs, k.init) && HasState(k.procs, v, {Waiting})
    requires Enabled(k, DoKill(p, k.procs[v].pid)) && v != k.init && v != p && k.procs[v].pid >= FIRST_USER_PID
    ensures Step(k, DoKill(p, k.procs[v].pid)).procs[p].ret == SUCCESS
  {
    KillExact(k.procs, p, k.procs[v].pid);
  }

  /** A process that kills itself ends with EXIT_KILLED. */
  lemma KillSelf(k: Kernel, p: nat)
    requires Sound(k) && WellLinked(k) && p < |k.procs| && Enabled(k, DoKill(p, k.procs[p].pid)) && p != k.init
    ensures var k' := Step(k, DoKill(p, k.procs[p].pid));
      && Ended(k, k', p) && k'.current == NOBODY
      && k'.deaths == k.deaths + [Death(k.procs[p].serial, k.procs[p].pid, EXIT_KILLED)]
  {
    var k1 := k.(procs := k.procs[p := k.procs[p].(exitStatus := EXIT_KILLED)]);
    ZombifyEnds(k1, p);
  }

  /** Reclaiming an entry frees exactly its stack, which is of the default size when none is recorded. */
  lemma ReclaimExact(k: Kernel, i: nat)
    requires MemOk(k.free, k.procs) && InUse(k.procs, i)
    ensures var k', p := CleanUp(k, i), k.procs[i];
      && FreeBytes(k'.free) == FreeBytes(k.free) + Range(p.stack, if p.stkpgs == 0 then 2 else p.stkpgs)
      && k'.procs == k.procs[i := p.(state := Unused)]
  {
    assert StackOk(k.free, k.procs, i);
    CoalescedIsOrdered(k.free);
    ReleaseCorrect(k.free, StackOf(k.procs[i]).addr, StackOf(k.procs[i]).pages);
  }

  // ----- states and the CPU

  /** The events that only change the state of one process. */
  lemma StateEffect(k: Kernel, e: Event)
    requires WellLinked(k) && Enabled(k, e)
    requires e.DoBlock? || e.DoSleep? || e.DoDispatch? || (e.DoSchedule? && k.procs[e.p].state != Killed)
    ensures Step(k, e).procs == k.procs[e.p := k.procs[e.p].(state :=
      if e.DoBlock? then Blocked else if e.DoSleep? then k.procs[e.p].state else if e.DoDispatch? then Running else Ready)]
  {
  }

  /** The process that has the CPU is in state Running. */
  predicate CpuOk(k: Kernel) {
    k.current == NOBODY || HasState(k.procs, k.current, {Running})
  }

  /** Who has the CPU after a step: the process that is dispatched; nobody after a sleep or when the process that
      had it is no longer in state Running; otherwise the same as before. */
  lemma CpuExact(k: Kernel, e: Event)
    requires WellLinked(k) && Enabled(k, e)
    ensures var k' := Step(k, e);
      && CpuOk(k')
      && (e.DoDispatch? ==> k'.current == e.p)
      && (e.DoSleep? || e.DoBlock? || e.DoExit? ==> k'.current == NOBODY)
      && (e.DoFork? || e.DoForkNoPcb? ==> k'.current == e.p)
      && (!e.DoDispatch? && !e.DoSleep? && HasState(k'.procs, k.current, {Running}) ==> k'.current == k.current)
      && (!e.DoDispatch? && !HasState(k'.procs, k.current, {Running}) ==> k'.current == NOBODY)
  {
    if e.DoExit? {
      ZombifyEnds(k.(procs := k.procs[e.p := k.procs[e.p].(exitStatus := e.status)]), e.p);
    }
  }
}
