/** Whole runs of the process life cycle, and what every one of them keeps.  init neither exits nor
    waits for a particular child; apart from that any process may do anything at any time.
 */
module ProcRuns {
  import opened Defs
  import opened FreeList
  import opened ProcTable
  import opened ProcTree
  import opened ProcWakeups
  import opened ProcMemory

  datatype Event =
    | DoFork(p: nat, slot: nat)
    | DoForkNoPcb(p: nat)
    | DoExec(p: nat)
    | DoExit(p: nat, status: int)
    | DoWaitpid(p: nat, target: nat)
    | DoKill(p: nat, pid: nat)
    | DoBlock(p: nat)       // wait for input
    | DoSleep(p: nat)
    | DoSchedule(p: nat)    // end of a quantum, of a sleep or of a wait for input
    | DoDispatch(p: nat)

  predicate HasState(procs: seq<Proc>, i: int, ss: set<State>) {
    0 <= i < |procs| && procs[i].state in ss
  }

  /** `p` has the CPU. */
  predicate Runs(k: Kernel, p: nat) {
    p == k.current && HasState(k.procs, p, {Running})
  }

  /** System calls are made by the process that has the CPU.  A sleeping process is still in state Running,
      although it has not.  A dispatch needs a free CPU. */
  predicate Enabled(k: Kernel, e: Event) {
    match e
    case DoFork(p, slot) => Runs(k, p) && HasState(k.procs, slot, {Unused})
    case DoForkNoPcb(p) => Runs(k, p)
    case DoExec(p) => Runs(k, p)
    case DoExit(p, _) => Runs(k, p) && p != k.init
    case DoWaitpid(p, target) => Runs(k, p) && (p == k.init ==> target == 0)
    case DoKill(p, pid) => Runs(k, p) && (p == k.init ==> KillOutcome(k.procs, p, pid) != KillNow(p))
    case DoBlock(p) => Runs(k, p)
    case DoSleep(p) => Runs(k, p)
    case DoSchedule(p) => HasState(k.procs, p, {Running, Sleeping, Blocked, Killed})
    case DoDispatch(p) => HasState(k.procs, p, {Ready, Killed}) && k.current == NOBODY
  }

  predicate WellLinked(k: Kernel) {
    k.init < |k.procs| && forall i :: 0 <= i < |k.procs| && InUse(k.procs, i) ==> 0 <= k.procs[i].parent < |k.procs|
  }

  /** What an event does to everything but the CPU. */
  function Effect(k: Kernel, e: Event): Kernel
    requires WellLinked(k) && Enabled(k, e)
  {
    match e
    case DoFork(p, slot) => Fork(k, p, slot)
    case DoForkNoPcb(p) => ForkNoPcb(k, p)
    case DoExec(p) => Exec(k, p)
    case DoExit(p, status) => Exit(k, p, status)
    case DoWaitpid(p, target) => Waitpid(k, p, target)
    case DoKill(p, pid) => Kill(k, p, pid)
    case DoBlock(p) => k.(procs := WithState(k.procs, p, Blocked))
    case DoSleep(p) => k
    case DoSchedule(p) => Schedule(k, p)
    case DoDispatch(p) => k.(procs := WithState(k.procs, p, Running))
  }

  /** Who has the CPU after an event that leaves the table `procs`: it is given by a dispatch, and given up by
      a sleep and by everything that takes its holder out of state Running. */
  function Holder(current: int, e: Event, procs: seq<Proc>): int {
    match e
    case DoDispatch(p) => p
    case DoSleep(_) => NOBODY
    case _ => if HasState(procs, current, {Running}) then current else NOBODY
  }

  function Step(k: Kernel, e: Event): Kernel
    requires WellLinked(k) && Enabled(k, e)
  {
    var k' := Effect(k, e);
    k'.(current := Holder(k.current, e, k'.procs))
  }

  /** A run: every event is enabled when it happens. */
  predicate IsRun(k: Kernel, es: seq<Event>)
    decreases |es|
  {
    es == [] || (WellLinked(k) && Enabled(k, es[0]) && IsRun(Step(k, es[0]), es[1..]))
  }

  function Run(k: Kernel, es: seq<Event>): Kernel
    requires IsRun(k, es)
    decreases |es|
  {
    if es == [] then k else Run(Step(k, es[0]), es[1..])
  }

  // ----- the tree and the memory

  ghost predicate Sound(k: Kernel) {
    && k.init < |k.procs| && k.procs[k.init].pid == PID_INIT
    && Tree(k.procs, k.init) && MemOk(k.free, k.procs)
  }

  lemma SoundIsLinked(k: Kernel)
    requires Sound(k)
    ensures WellLinked(k)
  {
    var rank :| Ranked(k.procs, k.init, rank);
    forall i | InUse(k.procs, i)
      ensures 0 <= k.procs[i].parent < |k.procs|
    {
      assert ParentOk(k.procs, k.init, rank, i);
    }
  }

  /** A process other than init has another process as its parent. */
  lemma ParentFacts(k: Kernel, rank: seq<nat>, v: nat)
    requires Ranked(k.procs, k.init, rank) && InUse(k.procs, v) && v != k.init
    ensures InUse(k.procs, k.procs[v].parent) && !IsZombie(k.procs, k.procs[v].parent) && k.procs[v].parent != v
    ensures InUse(k.procs, k.init) && !IsZombie(k.procs, k.init)
  {
    assert ParentOk(k.procs, k.init, rank, v);
  }

  /** `k'` is as sound as `k` and has the same memory. */
  ghost predicate SoundStep(k: Kernel, k': Kernel) {
    Sound(k') && MemStep(k, k') && k'.init == k.init
  }

  /** Steps that touch neither the tree nor the stacks. */
  lemma QuietSound(k: Kernel, k': Kernel)
    requires Sound(k) && SameTree(k.procs, k'.procs) && SameStacks(k.procs, k'.procs)
    requires k'.init == k.init && k'.free == k.free
    requires k'.procs[k.init].state != Killed && k'.procs[k.init].pid == PID_INIT
    ensures SoundStep(k, k')
  {
    var rank :| Ranked(k.procs, k.init, rank);
    SameTreeTree(k.procs, k'.procs, k.init, rank);
    SameStacksMem(k, k');
  }

  lemma ForkSound(k: Kernel, p: nat, slot: nat)
    requires Sound(k) && Enabled(k, DoFork(p, slot))
    ensures SoundStep(k, Fork(k, p, slot))
  {
    var rank :| Ranked(k.procs, k.init, rank);
    ForkTree(k, rank, p, slot);
    ForkMem(k, p, slot);
  }

  lemma ExecSound(k: Kernel, p: nat)
    requires Sound(k) && Enabled(k, DoExec(p))
    ensures SoundStep(k, Exec(k, p))
  {
    var rank :| Ranked(k.procs, k.init, rank);
    SameTreeTree(k.procs, Exec(k, p).procs, k.init, rank);
    ExecMem(k, p);
  }

  lemma WaitpidSound(k: Kernel, p: nat, target: nat)
    requires Sound(k) && Enabled(k, DoWaitpid(p, target))
    ensures SoundStep(k, Waitpid(k, p, target))
  {
    var rank :| Ranked(k.procs, k.init, rank);
    WaitpidTree(k, rank, p, target);
    WaitpidMem(k, p, target);
  }

  lemma ZombifySound(k: Kernel, v: nat)
    requires Sound(k) && WellLinked(k) && InUse(k.procs, v) && !IsZombie(k.procs, v) && v != k.init
    ensures SoundStep(k, Zombify(k, v))
  {
    var rank :| Ranked(k.procs, k.init, rank);
    ParentFacts(k, rank, v);
    ZombifyTree(k, rank, v);
    ZombifyMem(k, v);
    ZombifySamePids(k, v);
  }

  lemma ExitSound(k: Kernel, v: nat, status: int)
    requires Sound(k) && WellLinked(k) && InUse(k.procs, v) && !IsZombie(k.procs, v) && v != k.init
    ensures SoundStep(k, Exit(k, v, status))
  {
    var k1 := k.(procs := k.procs[v := k.procs[v].(exitStatus := status)]);
    QuietSound(k, k1) by {
      var rank :| Ranked(k.procs, k.init, rank);
    }
    SoundIsLinked(k1);
    ZombifySound(k1, v);
    MemStepCompose(k, k1, Exit(k, v, status));
  }

  /** The victims of a kill: never init, which has a pid below those that may be killed. */
  lemma KillVictim(k: Kernel, p: nat, pid: nat)
    requires Sound(k) && Enabled(k, DoKill(p, pid))
    ensures match KillOutcome(k.procs, p, pid)
            case KillNow(v) => InUse(k.procs, v) && !IsZombie(k.procs, v) && v != k.init
            case KillMark(v) => HasState(k.procs, v, {Ready, Sleeping, Blocked}) && v != k.init && v != p
            case _ => true
  {
  }

  lemma KillSound(k: Kernel, p: nat, pid: nat)
    requires Sound(k) && WellLinked(k) && Enabled(k, DoKill(p, pid))
    ensures SoundStep(k, Kill(k, p, pid))
  {
    KillVictim(k, p, pid);
    match KillOutcome(k.procs, p, pid)
    case KillNow(v) =>
      var k1, k2 := Exit(k, v, EXIT_KILLED), Kill(k, p, pid);
      ExitSound(k, v, EXIT_KILLED);
      if v != p {
        RetSound(k1, p, SUCCESS);
        MemStepCompose(k, k1, k2);
      }
    case KillMark(v) => MarkSound(k, v, p);
    case KillError(code) => RetSound(k, p, code);
    case KillNothing => RetSound(k, p, SUCCESS);
    case KillPanic => SameStacksMem(k, k);
  }

  lemma RetSound(k: Kernel, p: nat, r: int)
    requires Sound(k) && p < |k.procs|
    ensures SoundStep(k, k.(procs := WithRet(k.procs, p, r)))
  {
    var rank :| Ranked(k.procs, k.init, rank);
    QuietSound(k, k.(procs := WithRet(k.procs, p, r)));
  }

  lemma MarkSound(k: Kernel, v: nat, p: nat)
    requires Sound(k) && p < |k.procs| && HasState(k.procs, v, {Ready, Sleeping, Blocked}) && v != k.init
    ensures SoundStep(k, k.(procs := WithRet(WithState(k.procs, v, Killed), p, SUCCESS)))
  {
    var rank :| Ranked(k.procs, k.init, rank);
    QuietSound(k, k.(procs := WithRet(WithState(k.procs, v, Killed), p, SUCCESS)));
  }

  /** A change between the states of a living process. */
  lemma StateSound(k: Kernel, p: nat, s: State)
    requires Sound(k) && HasState(k.procs, p, {Ready, Running, Sleeping, Blocked, Killed}) && s in {Ready, Running, Blocked}
    ensures SoundStep(k, k.(procs := WithState(k.procs, p, s)))
  {
    var rank :| Ranked(k.procs, k.init, rank);
    QuietSound(k, k.(procs := WithState(k.procs, p, s)));
  }

  lemma ScheduleSound(k: Kernel, p: nat)
    requires Sound(k) && WellLinked(k) && Enabled(k, DoSchedule(p))
    ensures SoundStep(k, Schedule(k, p))
  {
    if k.procs[p].state == Killed {
      var rank :| Ranked(k.procs, k.init, rank);
      ZombifySound(k, p);
    } else {
      StateSound(k, p, Ready);
    }
  }

  lemma EffectSound(k: Kernel, e: Event)
    requires Sound(k) && WellLinked(k) && Enabled(k, e)
    ensures SoundStep(k, Effect(k, e))
  {
    match e
    case DoFork(p, slot) => ForkSound(k, p, slot);
    case DoForkNoPcb(p) => RetSound(k, p, E_NO_PROCS);
    case DoExec(p) => ExecSound(k, p);
    case DoExit(p, status) => ExitSound(k, p, status);
    case DoWaitpid(p, target) => WaitpidSound(k, p, target);
    case DoKill(p, pid) => KillSound(k, p, pid);
    case DoBlock(p) => StateSound(k, p, Blocked);
    case DoSleep(p) => SameStacksMem(k, k);
    case DoSchedule(p) => ScheduleSound(k, p);
    case DoDispatch(p) => StateSound(k, p, Running);
  }

  lemma StepSound(k: Kernel, e: Event)
    requires Sound(k) && WellLinked(k) && Enabled(k, e)
    ensures SoundStep(k, Step(k, e))
  {
    EffectSound(k, e);
  }

  /** Over every run the process tree is kept, and so is the memory: no two stacks overlap, none
      overlaps the free list, and free pages plus recorded stack pages stay the same. */
  lemma {:induction false} RunsKeepTreeAndMemory(k: Kernel, es: seq<Event>)
    requires Sound(k) && IsRun(k, es)
    ensures SoundStep(k, Run(k, es))
    decreases |es|
  {
    if es == [] {
      SameStacksMem(k, k);
    } else {
      StepSound(k, es[0]);
      RunsKeepTreeAndMemory(Step(k, es[0]), es[1..]);
      MemStepCompose(k, Step(k, es[0]), Run(k, es));
    }
  }

  // ----- exit statuses

  /** The ledger of exit statuses is in order. */
  ghost predicate Booked(k: Kernel) {
    SerialsOk(k.procs, k.born) && Ledger(k, -1)
  }

  /** The termination of `v` as the exit, kill and schedule paths perform it. */
  lemma ZombifyBooked(k: Kernel, v: nat)
    requires Sound(k) && WellLinked(k) && InUse(k.procs, v) && !IsZombie(k.procs, v) && v != k.init && Booked(k)
    ensures Booked(Zombify(k, v))
  {
    var rank :| Ranked(k.procs, k.init, rank);
    ParentFacts(k, rank, v);
    ZombifySamePids(k, v);
    ZombifyLedger(k, v);
    SameSerialsKeep(k.procs, Zombify(k, v).procs, k.born);
  }

  /** Steps that change nobody's life. */
  lemma QuietBooked(k: Kernel, k': Kernel)
    requires SameLives(k.procs, k'.procs) && Booked(k)
    requires k'.born == k.born && k'.deaths == k.deaths && k'.deliveries == k.deliveries
    ensures Booked(k')
  {
    SameLivesLedger(k, k');
    SameSerialsKeep(k.procs, k'.procs, k.born);
  }

  lemma ExitBooked(k: Kernel, v: nat, status: int)
    requires Sound(k) && WellLinked(k) && InUse(k.procs, v) && !IsZombie(k.procs, v) && v != k.init && Booked(k)
    ensures Booked(Exit(k, v, status))
  {
    var k1 := k.(procs := k.procs[v := k.procs[v].(exitStatus := status)]);
    QuietBooked(k, k1);
    QuietSound(k, k1) by {
      var rank :| Ranked(k.procs, k.init, rank);
    }
    SoundIsLinked(k1);
    ZombifyBooked(k1, v);
  }

  /** Everything is as before, except for states of living processes and return values. */
  ghost predicate Quiet(k: Kernel, k': Kernel) {
    && SameLives(k.procs, k'.procs) && Calmer(k.procs, k'.procs)
    && k'.born == k.born && k'.deaths == k.deaths && k'.deliveries == k.deliveries && k'.nextPid == k.nextPid
  }

  lemma QuietEffect(k: Kernel, e: Event)
    requires WellLinked(k) && Enabled(k, e)
    requires e.DoForkNoPcb? || e.DoExec? || e.DoBlock? || e.DoSleep? || e.DoDispatch? ||
      (e.DoSchedule? && k.procs[e.p].state != Killed)
    ensures Quiet(k, Effect(k, e))
  {
  }

  lemma QuietKill(k: Kernel, p: nat, pid: nat)
    requires WellLinked(k) && Enabled(k, DoKill(p, pid)) && !KillOutcome(k.procs, p, pid).KillNow?
    ensures Quiet(k, Kill(k, p, pid))
  {
  }

  lemma QuietRet(k: Kernel, p: nat, r: int)
    requires p < |k.procs|
    ensures Quiet(k, k) && Quiet(k, k.(procs := WithRet(k.procs, p, r)))
  {
  }

  /** A kill that ends somebody at once is an exit of that process, apart from a return value. */
  lemma KillIsExit(k: Kernel, p: nat, pid: nat, v: nat)
    requires Sound(k) && WellLinked(k) && Enabled(k, DoKill(p, pid)) && KillOutcome(k.procs, p, pid) == KillNow(v)
    ensures v < |k.procs| && 0 <= k.procs[v].parent < |k.procs|
    ensures Quiet(Exit(k, v, EXIT_KILLED), Kill(k, p, pid))
  {
    KillVictim(k, p, pid);
    QuietRet(Exit(k, v, EXIT_KILLED), p, SUCCESS);
  }

  lemma KillBooked(k: Kernel, p: nat, pid: nat)
    requires Sound(k) && WellLinked(k) && Enabled(k, DoKill(p, pid)) && Booked(k)
    ensures Booked(Kill(k, p, pid))
  {
    KillVictim(k, p, pid);
    match KillOutcome(k.procs, p, pid)
    case KillNow(v) =>
      ExitBooked(k, v, EXIT_KILLED);
      KillIsExit(k, p, pid, v);
      QuietBooked(Exit(k, v, EXIT_KILLED), Kill(k, p, pid));
    case _ =>
      QuietKill(k, p, pid);
      QuietBooked(k, Kill(k, p, pid));
  }

  lemma ForkBooked(k: Kernel, p: nat, slot: nat)
    requires Enabled(k, DoFork(p, slot)) && Booked(k)
    ensures Booked(Fork(k, p, slot))
  {
    ForkLedger(k, p, slot);
    ForkSerials(k, p, slot);
  }

  lemma EffectBooked(k: Kernel, e: Event)
    requires Sound(k) && WellLinked(k) && Enabled(k, e) && Booked(k)
    ensures Booked(Effect(k, e))
  {
    if e.DoFork? {
      ForkBooked(k, e.p, e.slot);
    } else if e.DoExit? {
      ExitBooked(k, e.p, e.status);
    } else if e.DoWaitpid? {
      WaitpidBooked(k, e.p, e.target);
    } else if e.DoKill? {
      KillBooked(k, e.p, e.pid);
    } else if e.DoSchedule? && k.procs[e.p].state == Killed {
      var rank :| Ranked(k.procs, k.init, rank);
      ZombifyBooked(k, e.p);
    } else {
      QuietEffect(k, e);
      QuietBooked(k, Effect(k, e));
    }
  }

  lemma WaitpidBooked(k: Kernel, p: nat, target: nat)
    requires Enabled(k, DoWaitpid(p, target)) && Booked(k)
    ensures Booked(Waitpid(k, p, target))
  {
    WaitpidLedger(k, p, target);
    SameSerialsKeep(k.procs, Waitpid(k, p, target).procs, k.born);
  }

  /** Over every run, however long: every termination is recorded once and then held by a zombie or
      delivered, and delivered at most once. */
  lemma {:induction false} RunsDeliverOnce(k: Kernel, es: seq<Event>)
    requires Sound(k) && Booked(k) && IsRun(k, es)
    ensures Booked(Run(k, es))
    decreases |es|
  {
    if es != [] {
      StepSound(k, es[0]);
      EffectBooked(k, es[0]);
      QuietBooked(Effect(k, es[0]), Step(k, es[0]));
      RunsDeliverOnce(Step(k, es[0]), es[1..]);
    }
  }

  // ----- wakeups

  /** A wait by `p` for a pid that two of its children have, of which the first in the table is alive and
      another one is a zombie. */
  predicate Misses(procs: seq<Proc>, p: nat, target: nat) {
    && p < |procs| && target != 0 && target != procs[p].pid
    && (var c := FindPid(procs, target, |procs|); c >= 0 && procs[c].parent == p && procs[c].state != Zombie)
    && exists z :: 0 <= z < |procs| && IsZombie(procs, z) && procs[z].parent == p && procs[z].pid == target
  }

  predicate WaitMisses(k: Kernel, e: Event) {
    e.DoWaitpid? && Misses(k.procs, e.p, e.target)
  }

  /** A wait loses a wakeup exactly when it misses. */
  lemma WaitpidExact(k: Kernel, p: nat, target: nat)
    requires NoLostWakeup(k.procs, k.init) && Enabled(k, DoWaitpid(p, target))
    ensures NoLostWakeup(Waitpid(k, p, target).procs, k.init) <==> !Misses(k.procs, p, target)
  {
    var r := Waitpid(k, p, target).procs;
    if WaitOutcome(k.procs, p, target) == WaitBlock {
      if Misses(k.procs, p, target) {
        var z :| 0 <= z < |k.procs| && IsZombie(k.procs, z) && k.procs[z].parent == p && k.procs[z].pid == target;
        assert IsZombie(r, z) && r[z].parent == p && WaitsFor(r[p], r[z].pid);
      } else {
        BlockedWakes(k, p, target);
      }
    } else {
      CalmerKeeps(k.procs, r, k.init);
    }
  }

  lemma BlockedWakes(k: Kernel, p: nat, target: nat)
    requires NoLostWakeup(k.procs, k.init) && Enabled(k, DoWaitpid(p, target))
    requires WaitOutcome(k.procs, p, target) == WaitBlock && !Misses(k.procs, p, target)
    ensures NoLostWakeup(Waitpid(k, p, target).procs, k.init)
  {
    var r := Waitpid(k, p, target).procs;
    forall w, z | 0 <= w < |r| && IsZombie(r, z) && r[z].parent == w
      ensures !WaitsFor(r[w], r[z].pid)
    {
      assert IsZombie(k.procs, z);
    }
  }

  lemma KillWakes(k: Kernel, p: nat, pid: nat)
    requires Sound(k) && WellLinked(k) && NoLostWakeup(k.procs, k.init) && Enabled(k, DoKill(p, pid))
    ensures NoLostWakeup(Kill(k, p, pid).procs, k.init)
  {
    KillVictim(k, p, pid);
    match KillOutcome(k.procs, p, pid)
    case KillNow(v) =>
      ExitWakes(k, v, EXIT_KILLED);
      KillIsExit(k, p, pid, v);
      CalmerKeeps(Exit(k, v, EXIT_KILLED).procs, Kill(k, p, pid).procs, k.init);
    case _ =>
      QuietKill(k, p, pid);
      CalmerKeeps(k.procs, Kill(k, p, pid).procs, k.init);
  }

  lemma ExitWakes(k: Kernel, v: nat, status: int)
    requires Sound(k) && WellLinked(k) && NoLostWakeup(k.procs, k.init)
    requires InUse(k.procs, v) && !IsZombie(k.procs, v) && v != k.init
    ensures NoLostWakeup(Exit(k, v, status).procs, k.init)
  {
    var rank :| Ranked(k.procs, k.init, rank);
    ParentFacts(k, rank, v);
    var k1 := k.(procs := k.procs[v := k.procs[v].(exitStatus := status)]);
    CalmerKeeps(k.procs, k1.procs, k.init);
    ZombifyWakes(k1, v);
  }

  lemma EndWakes(k: Kernel, v: nat)
    requires Sound(k) && WellLinked(k) && NoLostWakeup(k.procs, k.init)
    requires InUse(k.procs, v) && !IsZombie(k.procs, v) && v != k.init
    ensures NoLostWakeup(Zombify(k, v).procs, k.init)
  {
    var rank :| Ranked(k.procs, k.init, rank);
    ParentFacts(k, rank, v);
    ZombifyWakes(k, v);
  }

  /** One step of any kind: a wakeup is lost exactly when the step is a wait that misses. */
  lemma StepWakes(k: Kernel, e: Event)
    requires Sound(k) && WellLinked(k) && Enabled(k, e) && NoLostWakeup(k.procs, k.init)
    ensures NoLostWakeup(Step(k, e).procs, k.init) <==> !WaitMisses(k, e)
  {
    if e.DoFork? {
      CalmerKeeps(k.procs, Fork(k, e.p, e.slot).procs, k.init);
    } else if e.DoExit? {
      ExitWakes(k, e.p, e.status);
    } else if e.DoWaitpid? {
      WaitpidExact(k, e.p, e.target);
    } else if e.DoKill? {
      KillWakes(k, e.p, e.pid);
    } else if e.DoSchedule? && k.procs[e.p].state == Killed {
      var rank :| Ranked(k.procs, k.init, rank);
      EndWakes(k, e.p);
    } else {
      QuietEffect(k, e);
      CalmerKeeps(k.procs, Effect(k, e).procs, k.init);
    }
  }

  /** No wakeup is lost in any state of the run. */
  ghost predicate NeverLosesWakeup(k: Kernel, es: seq<Event>)
    requires IsRun(k, es)
    decreases |es|
  {
    NoLostWakeup(k.procs, k.init) && (es != [] ==> NeverLosesWakeup(Step(k, es[0]), es[1..]))
  }

  /** No wait of the run misses. */
  predicate NeverMisses(k: Kernel, es: seq<Event>)
    requires IsRun(k, es)
    decreases |es|
  {
    es != [] ==> !WaitMisses(k, es[0]) && NeverMisses(Step(k, es[0]), es[1..])
  }

  /** Over every run, however long: no process ever waits for a child that is already a zombie, exactly when
      no wait of the run misses. */
  lemma {:induction false} WakeupsExact(k: Kernel, es: seq<Event>)
    requires Sound(k) && NoLostWakeup(k.procs, k.init) && IsRun(k, es)
    ensures NeverLosesWakeup(k, es) <==> NeverMisses(k, es)
    decreases |es|
  {
    if es != [] {
      StepSound(k, es[0]);
      StepWakes(k, es[0]);
      if !WaitMisses(k, es[0]) {
        WakeupsExact(Step(k, es[0]), es[1..]);
      }
    }
  }

  // ----- pids

  ghost predicate Orderly(k: Kernel) {
    Sound(k) && Booked(k) && PidsOk(k.procs, k.init) && NoLostWakeup(k.procs, k.init)
  }

  /** With unique pids no wait misses. */
  lemma UniqueNeverMisses(procs: seq<Proc>, init: nat, p: nat, target: nat)
    requires PidsOk(procs, init)
    ensures !Misses(procs, p, target)
  {
    assert forall z :: IsZombie(procs, z) ==> InUse(procs, z);
  }

  ghost predicate PidsKept(k: Kernel, k': Kernel) {
    SamePids(k.procs, k'.procs) && k'.nextPid == k.nextPid
  }

  lemma ExitPids(k: Kernel, v: nat, status: int)
    requires WellLinked(k) && InUse(k.procs, v) && !IsZombie(k.procs, v) && v != k.init && InUse(k.procs, k.init)
    ensures PidsKept(k, Exit(k, v, status))
  {
    var k1 := k.(procs := k.procs[v := k.procs[v].(exitStatus := status)]);
    ZombifySamePids(k1, v);
  }

  lemma KillPids(k: Kernel, p: nat, pid: nat)
    requires Sound(k) && WellLinked(k) && Enabled(k, DoKill(p, pid))
    ensures PidsKept(k, Kill(k, p, pid))
  {
    var rank :| Ranked(k.procs, k.init, rank);
    KillVictim(k, p, pid);
    match KillOutcome(k.procs, p, pid)
    case KillNow(v) =>
      ExitPids(k, v, EXIT_KILLED);
      KillIsExit(k, p, pid, v);
    case _ => QuietKill(k, p, pid);
  }

  lemma WaitpidPids(k: Kernel, p: nat, target: nat)
    requires Enabled(k, DoWaitpid(p, target))
    ensures PidsKept(k, Waitpid(k, p, target))
  {
  }

  lemma StepPids(k: Kernel, e: Event)
    requires Sound(k) && WellLinked(k) && Enabled(k, e) && !e.DoFork?
    ensures PidsKept(k, Step(k, e))
  {
    var rank :| Ranked(k.procs, k.init, rank);
    if e.DoExit? {
      ExitPids(k, e.p, e.status);
    } else if e.DoWaitpid? {
      WaitpidPids(k, e.p, e.target);
    } else if e.DoKill? {
      KillPids(k, e.p, e.pid);
    } else if e.DoSchedule? && k.procs[e.p].state == Killed {
      ZombifySamePids(k, e.p);
    } else {
      QuietEffect(k, e);
    }
  }

  /** A fork must not reuse a pid that is still in use. */
  predicate Fresh(k: Kernel, e: Event) {
    e.DoFork? ==> PidFree(k)
  }

  /** No fork of the run reuses a pid that is still in use. */
  predicate FreshPids(k: Kernel, es: seq<Event>)
    requires IsRun(k, es)
    decreases |es|
  {
    es == [] || (Fresh(k, es[0]) && FreshPids(Step(k, es[0]), es[1..]))
  }

  lemma StepUnique(k: Kernel, e: Event)
    requires Sound(k) && WellLinked(k) && Enabled(k, e) && PidsOk(k.procs, k.init) && Fresh(k, e)
    ensures PidsOk(Step(k, e).procs, k.init)
  {
    if e.DoFork? {
      var rank :| Ranked(k.procs, k.init, rank);
      ForkPids(k, e.p, e.slot);
    } else {
      StepPids(k, e);
      SamePidsKeep(k.procs, Step(k, e).procs, k.init);
    }
  }

  /** In particular no wakeup is lost while no fork reuses a pid that is still in use. */
  lemma {:induction false} RunsLoseNoWakeup(k: Kernel, es: seq<Event>)
    requires Sound(k) && PidsOk(k.procs, k.init) && NoLostWakeup(k.procs, k.init) && IsRun(k, es) && FreshPids(k, es)
    ensures NeverLosesWakeup(k, es)
    decreases |es|
  {
    if es != [] {
      StepSound(k, es[0]);
      StepWakes(k, es[0]);
      StepUnique(k, es[0]);
      if es[0].DoWaitpid? {
        UniqueNeverMisses(k.procs, k.init, es[0].p, es[0].target);
      }
      RunsLoseNoWakeup(Step(k, es[0]), es[1..]);
    }
  }

  // ----- when pids are fresh

  function Forks(es: seq<Event>): nat {
    if es == [] then 0 else (if es[0].DoFork? then 1 else 0) + Forks(es[1..])
  }

  /** All pids in use have been given out since the counter last was 0. */
  ghost predicate PidsBelow(k: Kernel) {
    forall i :: InUse(k.procs, i) ==> k.procs[i].pid < k.nextPid
  }

  lemma {:induction false} NoForksAreFresh(k: Kernel, es: seq<Event>)
    requires IsRun(k, es) && Forks(es) == 0
    ensures FreshPids(k, es)
    decreases |es|
  {
    if es != [] {
      NoForksAreFresh(Step(k, es[0]), es[1..]);
    }
  }

  lemma ForkPidsBelow(k: Kernel, p: nat, slot: nat)
    requires PidsBelow(k) && Enabled(k, DoFork(p, slot)) && k.nextPid + 1 < TWO_32
    ensures PidsBelow(Fork(k, p, slot)) && Fork(k, p, slot).nextPid <= k.nextPid + 1
  {
    assert (k.nextPid + 1) % TWO_32 == k.nextPid + 1;
  }

  /** Until the 32-bit counter wraps around, that is for the first 2^32 - 2 forks, pids are fresh. */
  lemma {:induction false} FewForksAreFresh(k: Kernel, es: seq<Event>)
    requires Sound(k) && PidsBelow(k) && IsRun(k, es) && k.nextPid + Forks(es) <= TWO_32
    ensures FreshPids(k, es)
    decreases |es|
  {
    if es != [] {
      var e, k' := es[0], Step(k, es[0]);
      StepSound(k, e);
      if !e.DoFork? {
        StepPids(k, e);
        FewForksAreFresh(k', es[1..]);
      } else if k.nextPid + 1 < TWO_32 {
        ForkPidsBelow(k, e.p, e.slot);
        FewForksAreFresh(k', es[1..]);
      } else {
        NoForksAreFresh(k', es[1..]);
      }
    }
  }

  // ----- boot

  /** An entry of the process table before its first use. */
  const BLANK := Proc(Unused, NULL_PARENT, 0, 0, 0, 0, 0, 0, 0)

  /** The table when the initial process has been created: init is its own parent. */
  function Boot(free: seq<Block>, size: nat): Kernel
    requires size >= 1
  {
    var init := Proc(Ready, 0, PID_INIT, 0, 0, 0, AllocAddr(free, N_USTKPAGES), N_USTKPAGES, 0);
    Kernel(seq(size, _ => BLANK)[0 := init], 0, FIRST_USER_PID, AllocRest(free, N_USTKPAGES), [], [], 1, NOBODY)
  }

  lemma BootTree(free: seq<Block>, size: nat)
    requires size >= 1
    ensures Tree(Boot(free, size).procs, 0)
  {
    var procs := Boot(free, size).procs;
    var rank := seq(size, _ => 0);
    forall i | InUse(procs, i)
      ensures ParentOk(procs, 0, rank, i)
    {
    }
    assert Ranked(procs, 0, rank);
  }

  lemma BootMem(free: seq<Block>, size: nat)
    requires Coalesced(free) && size >= 1 && AllocAddr(free, N_USTKPAGES) != 0
    ensures MemOk(Boot(free, size).free, Boot(free, size).procs)
  {
    var k := Boot(free, size);
    var k0 := k.(procs := seq(size, _ => BLANK), free := free);
    BirthMem(k0, k, 0, N_USTKPAGES);
  }

  lemma BootBooked(free: seq<Block>, size: nat)
    requires size >= 1
    ensures var k := Boot(free, size);
      Booked(k) && PidsOk(k.procs, 0) && NoLostWakeup(k.procs, 0) && PidsBelow(k)
  {
    var k := Boot(free, size);
    forall i | 0 <= i < size
      ensures InUse(k.procs, i) <==> i == 0
      ensures !IsZombie(k.procs, i)
    {
    }
  }

  /** The kernel boots into an orderly state. */
  lemma BootOrderly(free: seq<Block>, size: nat)
    requires Coalesced(free) && size >= 1 && AllocAddr(free, N_USTKPAGES) != 0
    ensures Orderly(Boot(free, size)) && PidsBelow(Boot(free, size))
  {
    BootTree(free, size);
    BootMem(free, size);
    BootBooked(free, size);
  }

  // ----- waiting without children

  /** With no child in use, a wait for any child fails with E_NO_CHILDREN exactly when no entry,
      used or not, names the caller as its parent; otherwise the caller blocks. */
  lemma WaitWithoutChildren(procs: seq<Proc>, p: nat)
    requires p < |procs| && procs[p].pid != 0 && NoChildren(procs, p)
    ensures WaitOutcome(procs, p, 0) == WaitError(E_NO_CHILDREN) <==> !HasEntryWithParent(procs, p)
    ensures WaitOutcome(procs, p, 0) == WaitBlock <==> HasEntryWithParent(procs, p)
  {
    var z := ZombieChild(procs, p, |procs|);
    if z >= 0 {
      assert InUse(procs, z);
    }
  }
}
