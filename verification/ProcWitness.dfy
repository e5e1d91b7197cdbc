/** States that the kernel reaches from boot, and in which it does not do what its comments suggest. */
module ProcWitness {
  import opened Defs
  import opened FreeList
  import opened ProcTable
  import opened ProcTree
  import opened ProcWakeups
  import opened ProcRuns
  import opened ProcHistory

  const START := [Block(4096, 102)]
  const SIZE := 4

  /** Some run leads from `k0` to `k`. */
  ghost predicate RunsTo(k0: Kernel, k: Kernel) {
    exists es :: IsRun(k0, es) && Run(k0, es) == k
  }

  /** Some run of a kernel with 102 pages and four process table entries leads to `k`. */
  ghost predicate Reached(k: Kernel) {
    RunsTo(Boot(START, SIZE), k)
  }

  lemma {:induction false} RunAppend(k: Kernel, es: seq<Event>, e: Event)
    requires IsRun(k, es) && WellLinked(Run(k, es)) && Enabled(Run(k, es), e)
    ensures IsRun(k, es + [e]) && Run(k, es + [e]) == Step(Run(k, es), e)
    decreases |es|
  {
    var fs := es + [e];
    if es == [] {
      assert fs[1..] == [];
    } else {
      assert fs[1..] == es[1..] + [e];
      RunAppend(Step(k, es[0]), es[1..], e);
    }
  }

  lemma Go(k0: Kernel, k: Kernel, e: Event, k': Kernel)
    requires RunsTo(k0, k) && WellLinked(k) && Enabled(k, e) && Step(k, e) == k'
    ensures RunsTo(k0, k')
  {
    var es :| IsRun(k0, es) && Run(k0, es) == k;
    RunAppend(k0, es, e);
  }

  lemma Reach(k: Kernel, e: Event, k': Kernel)
    requires Reached(k) && WellLinked(k) && Enabled(k, e) && Step(k, e) == k'
    ensures Reached(k')
  {
    Go(Boot(START, SIZE), k, e, k');
  }

  lemma ReachBoot()
    ensures Reached(Boot(START, SIZE))
  {
    assert IsRun(Boot(START, SIZE), []) && Run(Boot(START, SIZE), []) == Boot(START, SIZE);
  }

  /** The CPU goes from `p`, at the end of its quantum, to `q`. */
  function Switched(k: Kernel, p: nat, q: nat): Kernel
    requires p < |k.procs| && q < |k.procs|
  {
    k.(procs := WithState(WithState(k.procs, p, Ready), q, Running), current := q)
  }

  lemma GoSwitch(k0: Kernel, k: Kernel, p: nat, q: nat)
    requires RunsTo(k0, k) && WellLinked(k) && Runs(k, p) && HasState(k.procs, q, {Ready, Killed}) && p != q
    ensures RunsTo(k0, Switched(k, p, q))
  {
    var k1 := k.(procs := WithState(k.procs, p, Ready), current := NOBODY);
    Go(k0, k, DoSchedule(p), k1);
    Go(k0, k1, DoDispatch(q), Switched(k, p, q));
  }

  lemma Switch(k: Kernel, p: nat, q: nat)
    requires Reached(k) && WellLinked(k) && Runs(k, p) && HasState(k.procs, q, {Ready, Killed}) && p != q
    ensures Reached(Switched(k, p, q))
  {
    GoSwitch(Boot(START, SIZE), k, p, q);
  }

  /** The CPU, which nobody has, goes to `q`. */
  lemma Give(k: Kernel, q: nat)
    requires Reached(k) && WellLinked(k) && k.current == NOBODY && HasState(k.procs, q, {Ready, Killed})
    ensures Reached(k.(procs := WithState(k.procs, q, Running), current := q))
  {
    Reach(k, DoDispatch(q), k.(procs := WithState(k.procs, q, Running), current := q));
  }

  function Init(state: State, ret: int): Proc {
    Proc(state, 0, PID_INIT, 0, 0, ret, 4096, 2, 0)
  }

  /** The first process that init creates. */
  function First(state: State, ret: int): Proc {
    Proc(state, 0, 2, 0, 0, ret, 12288, 2, 1)
  }

  /** The process in the third entry. */
  function Second(state: State, parent: int): Proc {
    Proc(state, parent, 3, 0, 0, 0, 20480, 2, 2)
  }

  /** Nobody has terminated yet. */
  function Table(p0: Proc, p1: Proc, p2: Proc, p3: Proc, free: seq<Block>, born: nat, current: int): Kernel {
    Kernel([p0, p1, p2, p3], 0, born + 1, free, [], [], born, current)
  }

  /** With the first process, and with the second one. */
  function With1(p0: Proc, p1: Proc, current: int): Kernel {
    Table(p0, p1, BLANK, BLANK, [Block(20480, 98)], 2, current)
  }

  function With2(p0: Proc, p1: Proc, p2: Proc, current: int): Kernel {
    Table(p0, p1, p2, BLANK, [Block(28672, 96)], 3, current)
  }

  lemma FirstCreated()
    ensures Reached(With1(Init(Running, 2), First(Ready, 0), 0))
  {
    var k0 := Boot(START, SIZE);
    var k1 := Table(Init(Running, 0), BLANK, BLANK, BLANK, [Block(12288, 100)], 1, 0);
    ReachBoot();
    assert k0.procs == [Init(Ready, 0), BLANK, BLANK, BLANK];
    Reach(k0, DoDispatch(0), k1);
    Reach(k1, DoFork(0, 1), With1(Init(Running, 2), First(Ready, 0), 0));
  }

  /** The first process has the CPU. */
  lemma FirstRuns()
    ensures Reached(With1(Init(Ready, 2), First(Running, 0), 1))
  {
    FirstCreated();
    var k := With1(Init(Running, 2), First(Ready, 0), 0);
    Switch(k, 0, 1);
    assert Switched(k, 0, 1) == With1(Init(Ready, 2), First(Running, 0), 1);
  }

  // ----- killing somebody who sleeps

  /** There are two user processes, and the first has the CPU. */
  lemma TwoReady()
    ensures Reached(With2(Init(Ready, 3), First(Running, 0), Second(Ready, 0), 1))
  {
    SecondCreated();
    var k := With2(Init(Running, 3), First(Ready, 0), Second(Ready, 0), 0);
    Switch(k, 0, 1);
    assert Switched(k, 0, 1) == With2(Init(Ready, 3), First(Running, 0), Second(Ready, 0), 1);
  }

  lemma SecondCreated()
    ensures Reached(With2(Init(Running, 3), First(Ready, 0), Second(Ready, 0), 0))
  {
    FirstCreated();
    var k := With1(Init(Running, 2), First(Ready, 0), 0);
    Reach(k, DoFork(0, 2), With2(Init(Running, 3), First(Ready, 0), Second(Ready, 0), 0));
  }

  /** The first process sleeps, and the second has the CPU: both are in state Running. */
  function BothRunning(): Kernel {
    With2(Init(Ready, 3), First(Running, 0), Second(Running, 0), 2)
  }

  lemma BothRunningReached()
    ensures Reached(BothRunning())
  {
    TwoReady();
    var k := With2(Init(Ready, 3), First(Running, 0), Second(Ready, 0), 1);
    var k1 := With2(Init(Ready, 3), First(Running, 0), Second(Ready, 0), NOBODY);
    Reach(k, DoSleep(1), k1);
    Reach(k1, DoDispatch(2), BothRunning());
  }

  /** There, when the second kills the first, it is the second that ends. */
  lemma KillerDies()
    ensures Reached(BothRunning())
    ensures var k' := Kill(BothRunning(), 2, 2);
      k'.procs[2].state == Zombie && k'.procs[1] == BothRunning().procs[1]
  {
    BothRunningReached();
    var k := BothRunning();
    assert FindPid(k.procs, 2, 1) == -1 && FindPid(k.procs, 2, 2) == 1 && FindPid(k.procs, 2, 3) == 1;
    assert FindPid(k.procs, 2, 4) == 1;
    assert KillOutcome(k.procs, 2, 2) == KillNow(2);
    QuietExit(k, 2, EXIT_KILLED);
  }

  /** The exit of a process without children whose parent does not wait. */
  lemma QuietExit(k: Kernel, p: nat, status: int)
    requires WellLinked(k) && InUse(k.procs, p) && !IsZombie(k.procs, p) && NoChildren(k.procs, p)
    requires k.procs[k.procs[p].parent].state != Waiting
    ensures Exit(k, p, status) ==
      var q := k.procs[p].(exitStatus := status);
      k.(procs := k.procs[p := q.(state := Zombie)], deaths := k.deaths + [DeathOf(q)])
  {
    var k1 := k.(procs := k.procs[p := k.procs[p].(exitStatus := status)]);
    assert ZombieOrphan(k1.procs, p, |k1.procs|) == -1;
    assert Reparent(k1.procs, p, k.init, |k1.procs|) == k1.procs;
  }

  // ----- killing somebody who is ready

  /** The second process is marked as killed. */
  function Marked(): Kernel {
    With2(Init(Ready, 3), First(Running, 0), Second(Killed, 0), 1)
  }

  /** A lost kill: the process that has been killed runs, because it is dispatched and not scheduled. */
  lemma LostKill()
    ensures Reached(Marked())
    ensures Reached(With2(Init(Ready, 3), First(Ready, 0), Second(Running, 0), 2))
  {
    TwoReady();
    var k := With2(Init(Ready, 3), First(Running, 0), Second(Ready, 0), 1);
    assert FindPid(k.procs, 3, 2) == -1 && FindPid(k.procs, 3, 3) == 2 && FindPid(k.procs, 3, 4) == 2;
    Reach(k, DoKill(1, 3), Marked());
    Switch(Marked(), 1, 2);
    assert Switched(Marked(), 1, 2) == With2(Init(Ready, 3), First(Ready, 0), Second(Running, 0), 2);
  }

  // ----- the status of somebody who was marked

  lemma SecondBlocks()
    ensures Reached(With2(Init(Ready, 3), First(Running, 0), Second(Blocked, 0), 1))
  {
    TwoReady();
    var k := With2(Init(Ready, 3), First(Running, 0), Second(Ready, 0), 1);
    Switch(k, 1, 2);
    var k1 := With2(Init(Ready, 3), First(Ready, 0), Second(Running, 0), 2);
    assert Switched(k, 1, 2) == k1;
    var k2 := With2(Init(Ready, 3), First(Ready, 0), Second(Blocked, 0), NOBODY);
    Reach(k1, DoBlock(2), k2);
    Give(k2, 1);
    assert k2.(procs := WithState(k2.procs, 1, Running), current := 1) ==
           With2(Init(Ready, 3), First(Running, 0), Second(Blocked, 0), 1);
  }

  /** Killed while it waits for input and ended by the scheduler, it is recorded with status 0. */
  lemma KilledReportsZero() returns (k: Kernel)
    ensures Reached(k) && k.deaths == [Death(2, 3, 0)] && EXIT_KILLED != 0
  {
    SecondBlocks();
    var k0 := With2(Init(Ready, 3), First(Running, 0), Second(Blocked, 0), 1);
    assert FindPid(k0.procs, 3, 2) == -1 && FindPid(k0.procs, 3, 3) == 2 && FindPid(k0.procs, 3, 4) == 2;
    Reach(k0, DoKill(1, 3), Marked());
    var k1 := Marked();
    assert k1.procs[2 := k1.procs[2].(exitStatus := 0)] == k1.procs;
    QuietExit(k1, 2, 0);
    k := Step(k1, DoSchedule(2));
    Reach(k1, DoSchedule(2), k);
  }

  // ----- waiting once too often

  /** The first process has created the second, which has the CPU. */
  lemma ChildRuns()
    ensures Reached(With2(Init(Ready, 2), First(Ready, 3), Second(Running, 1), 2))
  {
    ChildCreated();
    var k := With2(Init(Ready, 2), First(Running, 3), Second(Ready, 1), 1);
    Switch(k, 1, 2);
    assert Switched(k, 1, 2) == With2(Init(Ready, 2), First(Ready, 3), Second(Running, 1), 2);
  }

  lemma ChildCreated()
    ensures Reached(With2(Init(Ready, 2), First(Running, 3), Second(Ready, 1), 1))
  {
    FirstRuns();
    var k := With1(Init(Ready, 2), First(Running, 0), 1);
    Reach(k, DoFork(1, 2), With2(Init(Ready, 2), First(Running, 3), Second(Ready, 1), 1));
  }

  function ChildEnded(): Kernel {
    With2(Init(Ready, 2), First(Running, 3), Second(Zombie, 1), 1).(deaths := [Death(2, 3, 0)])
  }

  lemma ChildEndedReached()
    ensures Reached(ChildEnded())
  {
    ChildRuns();
    var k := With2(Init(Ready, 2), First(Ready, 3), Second(Running, 1), 2);
    QuietExit(k, 2, 0);
    var k1 := With2(Init(Ready, 2), First(Ready, 3), Second(Zombie, 1), NOBODY).(deaths := [Death(2, 3, 0)]);
    Reach(k, DoExit(2, 0), k1);
    Give(k1, 1);
    assert k1.(procs := WithState(k1.procs, 1, Running), current := 1) == ChildEnded();
  }

  /** After its only child has been reaped, a process that waits again finds the stale entry and is stuck. */
  lemma StaleEntryBlocks() returns (k: Kernel)
    ensures Reached(k) && Stuck(k, 1)
  {
    ChildEndedReached();
    var k0 := ChildEnded();
    assert ZombieChild(k0.procs, 1, 1) == -1 && ZombieChild(k0.procs, 1, 2) == -1;
    assert ZombieChild(k0.procs, 1, 3) == 2 && ZombieChild(k0.procs, 1, 4) == 2;
    assert k0.procs[2].parent == 1;
    var k1 := Step(k0, DoWaitpid(1, 0));
    Reach(k0, DoWaitpid(1, 0), k1);
    assert k1.procs == [Init(Ready, 2), First(Running, 3), Second(Unused, 1), BLANK] && k1.current == 1;
    SecondWait(k1);
    k := Step(k1, DoWaitpid(1, 0));
    Reach(k1, DoWaitpid(1, 0), k);
  }

  lemma SecondWait(k: Kernel)
    requires k.procs == [Init(Ready, 2), First(Running, 3), Second(Unused, 1), BLANK] && k.current == 1 && k.init == 0
    ensures WellLinked(k) && Enabled(k, DoWaitpid(1, 0)) && Stuck(Step(k, DoWaitpid(1, 0)), 1)
  {
    assert k.procs[2].parent == 1 && NoChildren(k.procs, 1);
    WaitWithoutChildren(k.procs, 1);
  }

  // ----- a lost wakeup

  function Third(state: State): Proc {
    Proc(state, 1, 4, 0, 0, 0, 28672, 2, 3)
  }

  function With3(p1: Proc, p2: Proc, p3: Proc, current: int, deaths: seq<Death>): Kernel {
    Table(Init(Ready, 2), p1, p2, p3, [Block(36864, 94)], 4, current).(deaths := deaths)
  }

  lemma TwoChildren()
    ensures Reached(With3(First(Running, 4), Second(Ready, 1), Third(Ready), 1, []))
  {
    ChildCreated();
    var k := With2(Init(Ready, 2), First(Running, 3), Second(Ready, 1), 1);
    Reach(k, DoFork(1, 3), With3(First(Running, 4), Second(Ready, 1), Third(Ready), 1, []));
  }

  lemma FirstChildRuns()
    ensures Reached(With3(First(Ready, 4), Second(Running, 1), Third(Ready), 2, []))
  {
    TwoChildren();
    var k := With3(First(Running, 4), Second(Ready, 1), Third(Ready), 1, []);
    Switch(k, 1, 2);
    assert Switched(k, 1, 2) == With3(First(Ready, 4), Second(Running, 1), Third(Ready), 2, []);
  }

  lemma OneEnded()
    ensures Reached(With3(First(Ready, 4), Second(Zombie, 1), Third(Running), 3, [Death(2, 3, 0)]))
  {
    FirstChildRuns();
    var k1 := With3(First(Ready, 4), Second(Running, 1), Third(Ready), 2, []);
    QuietExit(k1, 2, 0);
    var k2 := With3(First(Ready, 4), Second(Zombie, 1), Third(Ready), NOBODY, [Death(2, 3, 0)]);
    Reach(k1, DoExit(2, 0), k2);
    Give(k2, 3);
    assert k2.(procs := WithState(k2.procs, 3, Running), current := 3) ==
           With3(First(Ready, 4), Second(Zombie, 1), Third(Running), 3, [Death(2, 3, 0)]);
  }

  lemma BothEnded()
    ensures Reached(With3(First(Running, 4), Second(Zombie, 1), Third(Zombie), 1, [Death(2, 3, 0), Death(3, 4, 0)]))
  {
    OneEnded();
    var k := With3(First(Ready, 4), Second(Zombie, 1), Third(Running), 3, [Death(2, 3, 0)]);
    QuietExit(k, 3, 0);
    var k1 := With3(First(Ready, 4), Second(Zombie, 1), Third(Zombie), NOBODY, [Death(2, 3, 0), Death(3, 4, 0)]);
    Reach(k, DoExit(3, 0), k1);
    Give(k1, 1);
    assert k1.(procs := WithState(k1.procs, 1, Running), current := 1) ==
           With3(First(Running, 4), Second(Zombie, 1), Third(Zombie), 1, [Death(2, 3, 0), Death(3, 4, 0)]);
  }

  /** The first process and its children: one that comes and goes in entry 2, and a zombie with pid 4 that is
      never reaped. */
  ghost predicate Phase(k: Kernel, n: nat, s1: State, s2: State, current: int) {
    && |k.procs| == 4 && k.init == 0 && k.current == current && k.nextPid == n
    && k.procs[0].state == Ready && k.procs[0].pid == 1 && k.procs[0].parent == 0
    && k.procs[1].state == s1 && k.procs[1].pid == 2 && k.procs[1].parent == 0
    && k.procs[2].state == s2 && k.procs[2].parent == 1
    && (s2 != Unused ==> k.procs[2].stack == 20480 && k.procs[2].stkpgs == 2)
    && k.procs[3].state == Zombie && k.procs[3].pid == 4 && k.procs[3].parent == 1
    && k.free == if s2 == Unused then [Block(20480, 2), Block(36864, 94)] else [Block(36864, 94)]
  }

  lemma PhaseLinked(k: Kernel, n: nat, s1: State, s2: State, current: int)
    requires Phase(k, n, s1, s2, current)
    ensures WellLinked(k) && NoChildren(k.procs, 2)
  {
  }

  /** Entry 2 is free for the first time. */
  lemma FirstLull() returns (k: Kernel)
    ensures Reached(k) && Phase(k, 5, Running, Unused, 1)
  {
    BothEnded();
    var k0 := With3(First(Running, 4), Second(Zombie, 1), Third(Zombie), 1, [Death(2, 3, 0), Death(3, 4, 0)]);
    assert FindPid(k0.procs, 3, 2) == -1 && FindPid(k0.procs, 3, 3) == 2 && FindPid(k0.procs, 3, 4) == 2;
    assert WaitOutcome(k0.procs, 1, 3) == WaitReap(2);
    k := Step(k0, DoWaitpid(1, 3));
    assert Release([Block(36864, 94)], 20480, 2) == [Block(20480, 2), Block(36864, 94)];
    Reach(k0, DoWaitpid(1, 3), k);
  }

  lemma ForkState(k: Kernel, n: nat)
    requires Phase(k, n, Running, Unused, 1)
    ensures WellLinked(k) && Enabled(k, DoFork(1, 2))
    ensures var k' := Step(k, DoFork(1, 2)); Phase(k', (n + 1) % TWO_32, Running, Ready, 1) && k'.procs[2].pid == n
  {
    PhaseLinked(k, n, Running, Unused, 1);
    assert AllocAddr(k.free, 2) == 20480 && AllocRest(k.free, 2) == [Block(36864, 94)];
  }

  lemma PhaseFork(k0: Kernel, k: Kernel, n: nat) returns (k': Kernel)
    requires RunsTo(k0, k) && Phase(k, n, Running, Unused, 1)
    ensures RunsTo(k0, k') && Phase(k', (n + 1) % TWO_32, Running, Ready, 1) && k'.procs[2].pid == n
  {
    ForkState(k, n);
    k' := Step(k, DoFork(1, 2));
    Go(k0, k, DoFork(1, 2), k');
  }

  lemma PhaseExit(k0: Kernel, k: Kernel, n: nat) returns (k': Kernel)
    requires RunsTo(k0, k) && Phase(k, n, Running, Ready, 1)
    ensures RunsTo(k0, k') && Phase(k', n, Ready, Zombie, NOBODY)
  {
    PhaseLinked(k, n, Running, Ready, 1);
    GoSwitch(k0, k, 1, 2);
    var k1 := Switched(k, 1, 2);
    assert Phase(k1, n, Ready, Running, 2);
    PhaseLinked(k1, n, Ready, Running, 2);
    QuietExit(k1, 2, 0);
    k' := Step(k1, DoExit(2, 0));
    Go(k0, k1, DoExit(2, 0), k');
  }

  lemma PhaseReap(k0: Kernel, k: Kernel, n: nat) returns (k': Kernel)
    requires RunsTo(k0, k) && Phase(k, n, Ready, Zombie, NOBODY)
    ensures RunsTo(k0, k') && Phase(k', n, Running, Unused, 1)
  {
    PhaseLinked(k, n, Ready, Zombie, NOBODY);
    var k1 := k.(procs := WithState(k.procs, 1, Running), current := 1);
    Go(k0, k, DoDispatch(1), k1);
    assert Phase(k1, n, Running, Zombie, 1);
    PhaseLinked(k1, n, Running, Zombie, 1);
    ReapsEntry2(k1, n);
    k' := Step(k1, DoWaitpid(1, 0));
    Go(k0, k1, DoWaitpid(1, 0), k');
  }

  lemma ReapsEntry2(k: Kernel, n: nat)
    requires Phase(k, n, Running, Zombie, 1) && WellLinked(k)
    ensures Phase(Step(k, DoWaitpid(1, 0)), n, Running, Unused, 1)
  {
    assert ZombieChild(k.procs, 1, 1) == -1 && ZombieChild(k.procs, 1, 2) == -1;
    assert ZombieChild(k.procs, 1, 3) == 2 && ZombieChild(k.procs, 1, 4) == 2;
    assert WaitOutcome(k.procs, 1, 0) == WaitReap(2);
    assert Release([Block(36864, 94)], 20480, 2) == [Block(20480, 2), Block(36864, 94)];
  }

  /** The 32-bit successor of a pid. */
  function Succ(n: nat): nat {
    if n + 1 < TWO_32 then n + 1 else 0
  }

  lemma SuccMod(n: nat)
    requires n < TWO_32
    ensures (n + 1) % TWO_32 == Succ(n)
  {
  }

  /** Entry 2 is free, and the next child gets pid `n`. */
  ghost predicate Lull(k0: Kernel, k: Kernel, n: nat) {
    n < TWO_32 && RunsTo(k0, k) && Phase(k, n, Running, Unused, 1)
  }

  /** A child is created, ends and is reaped. */
  lemma OneCycle(k0: Kernel, k: Kernel, n: nat) returns (k': Kernel)
    requires Lull(k0, k, n)
    ensures Lull(k0, k', Succ(n))
  {
    SuccMod(n);
    var k1 := PhaseFork(k0, k, n);
    var k2 := PhaseExit(k0, k1, Succ(n));
    k' := PhaseReap(k0, k2, Succ(n));
  }

  /** The pid counter after `m` forks. */
  function Count(n: nat, m: nat): nat {
    if m == 0 then n else Succ(Count(n, m - 1))
  }

  lemma {:induction false} CountWraps(n: nat, m: nat)
    requires n < TWO_32 && m <= TWO_32
    ensures Count(n, m) == if n + m < TWO_32 then n + m else n + m - TWO_32
  {
    if m > 0 {
      CountWraps(n, m - 1);
    }
  }

  /** Every cycle advances the pid counter by one. */
  lemma {:induction false} Cycles(k0: Kernel, k: Kernel, n: nat, m: nat) returns (k': Kernel)
    requires Lull(k0, k, n)
    ensures Lull(k0, k', Count(n, m))
  {
    if m == 0 {
      k' := k;
    } else {
      var k1 := Cycles(k0, k, n, m - 1);
      k' := OneCycle(k0, k1, Count(n, m - 1));
    }
  }

  lemma SharedPid(k: Kernel, n: nat)
    requires Phase(k, n, Running, Ready, 1) && k.procs[2].pid == 4
    ensures WellLinked(k) && Enabled(k, DoWaitpid(1, 4)) && Misses(k.procs, 1, 4)
    ensures var k' := Step(k, DoWaitpid(1, 4)); !NoLostWakeup(k'.procs, k'.init)
  {
    PhaseLinked(k, n, Running, Ready, 1);
    assert FindPid(k.procs, 4, 2) == -1 && FindPid(k.procs, 4, 3) == 2 && FindPid(k.procs, 4, 4) == 2;
    assert IsZombie(k.procs, 3);
    assert WaitOutcome(k.procs, 1, 4) == WaitBlock;
    var r := Step(k, DoWaitpid(1, 4)).procs;
    assert IsZombie(r, 3) && r[3].parent == 1 && WaitsFor(r[1], 4);
  }

  /** When the counter comes back to the pid of the zombie, the next child gets it too. */
  lemma LosesWakeup(k0: Kernel, k: Kernel, n: nat, m: nat) returns (k': Kernel)
    requires Lull(k0, k, n) && m <= TWO_32 && n + m == TWO_32 + 4
    ensures RunsTo(k0, k') && !NoLostWakeup(k'.procs, k'.init)
  {
    CountWraps(n, m);
    var k1 := Cycles(k0, k, n, m);
    k' := SecondFour(k0, k1, Count(n, m));
  }

  lemma SecondFour(k0: Kernel, k: Kernel, n: nat) returns (k': Kernel)
    requires Lull(k0, k, n) && n == 4
    ensures RunsTo(k0, k') && !NoLostWakeup(k'.procs, k'.init)
  {
    var k1 := PhaseFork(k0, k, n);
    SharedPid(k1, (n + 1) % TWO_32);
    k' := Step(k1, DoWaitpid(1, 4));
    Go(k0, k1, DoWaitpid(1, 4), k');
  }

  /** After the pid counter has wrapped around, the kernel reaches a state in which a wakeup is lost: the first
      process waits for its new child 4, although its old child 4 is a zombie. */
  lemma LostWakeup() returns (k: Kernel)
    ensures Reached(k) && !NoLostWakeup(k.procs, k.init)
  {
    var k1 := FirstLull();
    k := LosesWakeup(Boot(START, SIZE), k1, 5, TWO_32 - 1);
  }
}
