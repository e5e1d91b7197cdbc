/** How processes end: who ends in which step, which exit status is recorded and delivered, and what becomes
    of a process that has been marked as killed.
 */
module ProcFates {
  import opened Defs
  import opened ProcTable
  import opened ProcTree
  import opened ProcWakeups
  import opened ProcRuns
  import opened ProcHistory

  // ----- who ends

  /** The process that an event ends, or NOBODY. */
  function Victim(k: Kernel, e: Event): int
    requires Enabled(k, e)
  {
    match e
    case DoExit(p, _) => p
    case DoKill(p, pid) => (match KillOutcome(k.procs, p, pid) case KillNow(v) => v case _ => NOBODY)
    case DoSchedule(p) => if k.procs[p].state == Killed then p else NOBODY
    case _ => NOBODY
  }

  /** The status it ends with: the argument of the exit, EXIT_KILLED for a kill that takes effect at once, and
      whatever the table entry holds for a process that was marked and ends in the scheduler. */
  function StatusOf(k: Kernel, e: Event, v: nat): int
    requires v < |k.procs|
  {
    match e
    case DoExit(_, status) => status
    case DoKill(_, _) => EXIT_KILLED
    case _ => k.procs[v].exitStatus
  }

  lemma VictimAlive(k: Kernel, e: Event)
    requires Sound(k) && WellLinked(k) && Enabled(k, e)
    ensures var v := Victim(k, e); v == NOBODY || (InUse(k.procs, v) && !IsZombie(k.procs, v) && v != k.init)
  {
    var rank :| Ranked(k.procs, k.init, rank);
    if e.DoKill? {
      KillVictim(k, e.p, e.pid);
    }
  }

  /** With a victim, the step is its termination with that status, apart from states of others. */
  lemma EffectIsEnd(k: Kernel, e: Event, v: nat)
    requires Sound(k) && WellLinked(k) && Enabled(k, e) && Victim(k, e) == v
    ensures v < |k.procs| && 0 <= k.procs[v].parent < |k.procs|
    ensures var k1 := Exit(k, v, StatusOf(k, e, v));
      Effect(k, e) == k1 || (e.DoKill? && Effect(k, e) == k1.(procs := WithRet(k1.procs, e.p, SUCCESS)))
  {
    VictimAlive(k, e);
    assert k.procs[v := k.procs[v].(exitStatus := k.procs[v].exitStatus)] == k.procs;
  }

  /** Exactly the victim ends. */
  lemma StepEnds(k: Kernel, e: Event, u: nat)
    requires Sound(k) && WellLinked(k) && Enabled(k, e) && InUse(k.procs, u) && !IsZombie(k.procs, u)
    ensures Ended(k, Step(k, e), u) <==> u == Victim(k, e)
    ensures u != Victim(k, e) ==> LivesOn(k, Step(k, e), u)
  {
    var v := Victim(k, e);
    VictimAlive(k, e);
    if v == NOBODY {
      NobodyEnds(k, e, u);
    } else {
      EffectIsEnd(k, e, v);
      if u == v {
        ZombifyEnds(k.(procs := k.procs[v := k.procs[v].(exitStatus := StatusOf(k, e, v))]), v);
      } else {
        ExitOthers(k, v, StatusOf(k, e, v), u);
      }
    }
  }

  lemma NobodyEnds(k: Kernel, e: Event, u: nat)
    requires WellLinked(k) && Enabled(k, e) && InUse(k.procs, u) && !IsZombie(k.procs, u) && Victim(k, e) == NOBODY
    ensures LivesOn(k, Step(k, e), u) && Step(k, e).deaths == k.deaths
  {
  }

  // ----- which status

  /** A step records the termination of its victim, with the status it ends with, and nothing else. */
  lemma StepRecords(k: Kernel, e: Event)
    requires Sound(k) && WellLinked(k) && Enabled(k, e)
    ensures var v := Victim(k, e);
      Step(k, e).deaths ==
        if v == NOBODY then k.deaths else k.deaths + [Death(k.procs[v].serial, k.procs[v].pid, StatusOf(k, e, v))]
  {
    var v := Victim(k, e);
    VictimAlive(k, e);
    if v != NOBODY {
      EffectIsEnd(k, e, v);
    }
  }

  /** Step `m` of the run ends the process of which `x` tells, with the status recorded. */
  ghost predicate EndsAt(k: Kernel, es: seq<Event>, m: nat, x: Death) {
    && m < |es| && IsRun(k, es[..m])
    && var k1 := Run(k, es[..m]);
    && WellLinked(k1) && Enabled(k1, es[m])
    && var v := Victim(k1, es[m]);
    && 0 <= v < |k1.procs|
    && x == Death(k1.procs[v].serial, k1.procs[v].pid, StatusOf(k1, es[m], v))
  }

  lemma EndsLater(k: Kernel, es: seq<Event>, m: nat, x: Death)
    requires es != [] && WellLinked(k) && Enabled(k, es[0]) && EndsAt(Step(k, es[0]), es[1..], m, x)
    ensures EndsAt(k, es, m + 1, x)
  {
    assert es[..m + 1][1..] == es[1..][..m] && es[..m + 1][0] == es[0];
  }

  /** Over every run: each recorded termination is that of one of its steps. */
  lemma {:induction false} DeathRecorded(k: Kernel, es: seq<Event>, x: Death) returns (m: nat)
    requires Sound(k) && IsRun(k, es) && x in Run(k, es).deaths && x !in k.deaths
    ensures EndsAt(k, es, m, x)
    decreases |es|
  {
    var k1 := Step(k, es[0]);
    StepSound(k, es[0]);
    StepRecords(k, es[0]);
    if x in k1.deaths {
      m := 0;
      VictimAlive(k, es[0]);
      assert es[..0] == [];
    } else {
      var m1 := DeathRecorded(k1, es[1..], x);
      EndsLater(k, es, m1, x);
      m := m1 + 1;
    }
  }

  /** Over every run since boot: the status that a parent is told is the one given to exit, or EXIT_KILLED when
      the process was killed at once, or what its entry held when it was marked and ended in the scheduler. */
  lemma DeliveredStatus(k: Kernel, es: seq<Event>, n: nat) returns (m: nat)
    requires Sound(k) && Booked(k) && k.deaths == [] && IsRun(k, es) && n < |Run(k, es).deliveries|
    ensures EndsAt(k, es, m, Run(k, es).deliveries[n].death)
  {
    RunsDeliverOnce(k, es);
    m := DeathRecorded(k, es, Run(k, es).deliveries[n].death);
  }

  /** No step of the run ends `u`. */
  predicate Survives(k: Kernel, es: seq<Event>, u: nat)
    requires IsRun(k, es)
    decreases |es|
  {
    es == [] || (Victim(k, es[0]) != u && Survives(Step(k, es[0]), es[1..], u))
  }

  /** While a process lives, nothing writes the status in its entry.  So a marked process reports what the
      entry held when it was created, which is what the previous user of the entry left there. */
  lemma {:induction false} StaleStatus(k: Kernel, es: seq<Event>, u: nat)
    requires Sound(k) && IsRun(k, es) && InUse(k.procs, u) && !IsZombie(k.procs, u) && Survives(k, es, u)
    ensures LivesOn(k, Run(k, es), u)
    decreases |es|
  {
    if es != [] {
      StepSound(k, es[0]);
      StepEnds(k, es[0], u);
      StaleStatus(Step(k, es[0]), es[1..], u);
    }
  }

  lemma ForkKeepsStatus(k: Kernel, p: nat, slot: nat)
    requires Enabled(k, DoFork(p, slot))
    ensures Fork(k, p, slot).procs[slot].exitStatus == k.procs[slot].exitStatus
  {
  }

  // ----- marked processes

  predicate Touches(e: Event, v: nat) {
    e == DoSchedule(v) || e == DoDispatch(v)
  }

  /** A mark stays until its bearer is scheduled, which ends it, or dispatched, which removes the mark. */
  lemma MarkedStep(k: Kernel, e: Event, v: nat)
    requires Sound(k) && WellLinked(k) && Enabled(k, e) && HasState(k.procs, v, {Killed})
    ensures !Touches(e, v) ==> HasState(Step(k, e).procs, v, {Killed})
    ensures e == DoSchedule(v) ==> Ended(k, Step(k, e), v)
    ensures e == DoDispatch(v) ==> HasState(Step(k, e).procs, v, {Running})
  {
    var u := Victim(k, e);
    VictimAlive(k, e);
    StepEnds(k, e, v);
    if u == NOBODY {
      MarkKept(k, e, v);
    } else if u != v {
      EffectIsEnd(k, e, u);
      ExitOthers(k, u, StatusOf(k, e, u), v);
    } else if e.DoKill? {
      KillSparesMarked(k, e.p, e.pid, v);
    }
  }

  lemma MarkKept(k: Kernel, e: Event, v: nat)
    requires WellLinked(k) && Enabled(k, e) && HasState(k.procs, v, {Killed}) && Victim(k, e) == NOBODY
    ensures !Touches(e, v) ==> HasState(Step(k, e).procs, v, {Killed})
    ensures e == DoDispatch(v) ==> HasState(Step(k, e).procs, v, {Running})
  {
  }

  lemma KillSparesMarked(k: Kernel, p: nat, pid: nat, v: nat)
    requires Enabled(k, DoKill(p, pid)) && HasState(k.procs, v, {Killed})
    ensures KillOutcome(k.procs, p, pid) != KillNow(v)
  {
  }

  lemma {:induction false} MarkedUntil(k: Kernel, es: seq<Event>, v: nat)
    requires Sound(k) && IsRun(k, es) && HasState(k.procs, v, {Killed})
    requires forall i :: 0 <= i < |es| ==> !Touches(es[i], v)
    ensures Sound(Run(k, es)) && HasState(Run(k, es).procs, v, {Killed})
    decreases |es|
  {
    if es != [] {
      StepSound(k, es[0]);
      MarkedStep(k, es[0], v);
      MarkedUntil(Step(k, es[0]), es[1..], v);
    }
  }

  /** Whatever else happens in between: the first event that touches a marked process ends it exactly when it
      is a schedule; a dispatch makes it run as if it had never been killed. */
  lemma MarkedFate(k: Kernel, es: seq<Event>, e: Event, v: nat)
    requires Sound(k) && IsRun(k, es) && HasState(k.procs, v, {Killed})
    requires forall i :: 0 <= i < |es| ==> !Touches(es[i], v)
    requires var k1 := Run(k, es); WellLinked(k1) && Enabled(k1, e) && Touches(e, v)
    ensures var k1 := Run(k, es); Ended(k1, Step(k1, e), v) <==> e.DoSchedule?
    ensures var k1 := Run(k, es); HasState(Step(k1, e).procs, v, {Running}) <==> e.DoDispatch?
  {
    MarkedUntil(k, es, v);
    MarkedStep(Run(k, es), e, v);
  }
}
