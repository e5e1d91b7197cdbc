/** Consequences for whole histories: to whom terminations are reported, whom a kill really ends, and
    who waits for ever.
 */
module ProcHistory {
  import opened Defs
  import opened FreeList
  import opened ProcTable
  import opened ProcTree
  import opened ProcWakeups
  import opened ProcRuns

  // ----- what a termination does to others

  /** `v` was alive in `k` and is a zombie or reclaimed in `k'`. */
  ghost predicate Ended(k: Kernel, k': Kernel, v: int) {
    InUse(k.procs, v) && !IsZombie(k.procs, v) && (!InUse(k'.procs, v) || IsZombie(k'.procs, v))
  }

  /** The same process, in the same state. */
  ghost predicate Untouched(k: Kernel, k': Kernel, u: int) {
    && 0 <= u < |k.procs| == |k'.procs|
    && k'.procs[u].state == k.procs[u].state && k'.procs[u].serial == k.procs[u].serial
    && k'.procs[u].target == k.procs[u].target
  }

  /** The same process, alive, with the same status in its entry. */
  ghost predicate LivesOn(k: Kernel, k': Kernel, u: int) {
    && 0 <= u < |k.procs| == |k'.procs|
    && InUse(k'.procs, u) && !IsZombie(k'.procs, u)
    && k'.procs[u].serial == k.procs[u].serial && k'.procs[u].exitStatus == k.procs[u].exitStatus
  }

  lemma ZombifyEnds(k: Kernel, v: nat)
    requires WellLinked(k) && InUse(k.procs, v) && !IsZombie(k.procs, v) && v != k.init
    ensures Ended(k, Zombify(k, v), v)
  {
    GiveToInitKeeps(k, v);
  }

  /** Everybody else who is alive is left alone, except that init or the parent may be woken. */
  lemma ZombifyOthers(k: Kernel, v: nat, u: nat)
    requires WellLinked(k) && InUse(k.procs, v) && !IsZombie(k.procs, v) && v != k.init
    requires u != v && InUse(k.procs, u) && !IsZombie(k.procs, u)
    ensures Untouched(k, Zombify(k, v), u) ||
            (k.procs[u].state == Waiting && (u == k.init || u == k.procs[v].parent))
    ensures LivesOn(k, Zombify(k, v), u)
  {
    GiveToInitKeeps(k, v);
    var k1 := GiveToInit(k, v);
    assert Untouched(k, k1, u) || (k.procs[u].state == Waiting && u == k.init);
    assert LivesOn(k, k1, u);
  }

  lemma ExitOthers(k: Kernel, v: nat, status: int, u: nat)
    requires WellLinked(k) && InUse(k.procs, v) && !IsZombie(k.procs, v) && v != k.init
    requires u != v && InUse(k.procs, u) && !IsZombie(k.procs, u)
    ensures Ended(k, Exit(k, v, status), v) && LivesOn(k, Exit(k, v, status), u)
    ensures Untouched(k, Exit(k, v, status), u) ||
            (k.procs[u].state == Waiting && (u == k.init || u == k.procs[v].parent))
  {
    var k1 := k.(procs := k.procs[v := k.procs[v].(exitStatus := status)]);
    ZombifyEnds(k1, v);
    ZombifyOthers(k1, v, u);
  }

  // ----- whom a kill ends

  /** The result of a kill of somebody else, by the state the victim is found in.  A victim in state
      Running, which a sleeping process still has, is spared and the caller ended in its place. */
  lemma KillExact(procs: seq<Proc>, p: nat, pid: nat)
    requires p < |procs| && pid != procs[p].pid && pid >= FIRST_USER_PID && FindPid(procs, pid, |procs|) >= 0
    ensures var v, r := FindPid(procs, pid, |procs|), KillOutcome(procs, p, pid);
      && v != p
      && (r == KillNow(p) <==> procs[v].state == Running)
      && (r == KillNow(v) <==> procs[v].state == Waiting)
      && (r == KillMark(v) <==> procs[v].state in {Ready, Sleeping, Blocked})
      && (r == KillNothing <==> procs[v].state in {Killed, Zombie})
      && (r == KillPanic <==> procs[v].state == New)
  {
  }

  /** In effect: the caller is ended and the victim untouched exactly when the victim is found Running, and
      the victim is ended or marked, and the caller spared, exactly when it is found Ready, Sleeping, Blocked
      or Waiting. */
  lemma KillEffect(k: Kernel, p: nat, pid: nat)
    requires Sound(k) && WellLinked(k) && Enabled(k, DoKill(p, pid))
    requires pid != k.procs[p].pid && pid >= FIRST_USER_PID && FindPid(k.procs, pid, |k.procs|) >= 0
    ensures var v, k' := FindPid(k.procs, pid, |k.procs|), Kill(k, p, pid);
      && (Ended(k, k', p) && Untouched(k, k', v) <==> k.procs[v].state == Running)
      && (Untouched(k, k', p) && (Ended(k, k', v) || (k'.procs[v].state == Killed != k.procs[v].state)) <==>
          k.procs[v].state in {Ready, Sleeping, Blocked, Waiting})
  {
    KillVictim(k, p, pid);
    KillExact(k.procs, p, pid);
    var v, k' := FindPid(k.procs, pid, |k.procs|), Kill(k, p, pid);
    match KillOutcome(k.procs, p, pid)
    case KillNow(w) =>
      var k1 := Exit(k, w, EXIT_KILLED);
      ExitOthers(k, w, EXIT_KILLED, if w == p then v else p);
      assert w != p ==> Ended(k, k1, v) && Untouched(k, k1, p) && k'.procs[v] == k1.procs[v];
    case _ =>
  }

  // ----- who is told

  /** The parent of the process in entry `c` at the moment of the step from `k` to `k'`: its own, or init
      when its own terminates in this very step. */
  ghost predicate ParentNow(k: Kernel, k': Kernel, c: nat, to: nat)
    requires c < |k.procs|
  {
    k.procs[c].parent == to || (to == k.init && Ended(k, k', k.procs[c].parent))
  }

  /** What there is to tell about entry `c`: what the zombie holds, or what this very step has recorded. */
  ghost predicate Tells(k: Kernel, k': Kernel, c: nat, x: Death)
    requires c < |k.procs|
  {
    && x.serial == k.procs[c].serial && x.pid == k.procs[c].pid
    && if IsZombie(k.procs, c) then x == DeathOf(k.procs[c]) else k'.deaths == k.deaths + [x]
  }

  /** The delivery reports a process, with its status, to its parent. */
  ghost predicate ToParent(k: Kernel, k': Kernel, d: Delivery) {
    exists c :: InUse(k.procs, c) && !InUse(k'.procs, c) && Tells(k, k', c, d.death) && ParentNow(k, k', c, d.to)
  }

  /** The step makes at most two deliveries, to different processes, each to the parent. */
  ghost predicate TellsParents(k: Kernel, k': Kernel) {
    var n, ds := |k.deliveries|, k'.deliveries;
    && n <= |ds| <= n + 2 && ds[..n] == k.deliveries
    && (forall m :: n <= m < |ds| ==> ToParent(k, k', ds[m]))
    && (|ds| == n + 2 ==> ds[n].to != ds[n + 1].to)
  }

  /** The inherited zombie that is reported to init. */
  lemma InitIsTold(k: Kernel, v: nat)
    requires v < |k.procs| && k.init < |k.procs| && v != k.init && !IsZombie(k.procs, v)
    ensures var z, k1 := ZombieOrphan(k.procs, v, |k.procs|), GiveToInit(k, v);
      if z >= 0 && k.procs[k.init].state == Waiting
      then
        && k1.deliveries == k.deliveries + [Delivery(k.init, DeathOf(k.procs[z]))]
        && !InUse(k1.procs, z) && z != v && k1.procs[k.init].state != Waiting
      else k1.deliveries == k.deliveries
  {
  }

  /** The delivery that reports an inherited zombie. */
  lemma ZombieReported(k: Kernel, v: nat, z: nat)
    requires WellLinked(k) && InUse(k.procs, v) && !IsZombie(k.procs, v) && v != k.init
    requires z == ZombieOrphan(k.procs, v, |k.procs|) && k.procs[k.init].state == Waiting
    ensures ToParent(k, Zombify(k, v), Delivery(k.init, DeathOf(k.procs[z])))
  {
    ZombifyEnds(k, v);
    GiveToInitKeeps(k, v);
    InitIsTold(k, v);
    var k' := Zombify(k, v);
    assert InUse(k.procs, z) && !InUse(k'.procs, z) && Tells(k, k', z, DeathOf(k.procs[z])) && ParentNow(k, k', z, k.init);
  }

  /** The delivery that reports the terminating process itself. */
  lemma VictimReported(k: Kernel, v: nat)
    requires WellLinked(k) && InUse(k.procs, v) && !IsZombie(k.procs, v) && v != k.init
    requires WaitsFor(GiveToInit(k, v).procs[k.procs[v].parent], k.procs[v].pid)
    ensures ToParent(k, Zombify(k, v), Delivery(k.procs[v].parent, DeathOf(k.procs[v])))
    ensures Zombify(k, v).deliveries ==
            GiveToInit(k, v).deliveries + [Delivery(k.procs[v].parent, DeathOf(k.procs[v]))]
  {
    GiveToInitKeeps(k, v);
    var k' := Zombify(k, v);
    assert k'.deaths == k.deaths + [DeathOf(k.procs[v])];
    assert InUse(k.procs, v) && !InUse(k'.procs, v) && Tells(k, k', v, DeathOf(k.procs[v]));
    assert ParentNow(k, k', v, k.procs[v].parent);
  }

  lemma TellsAll(k: Kernel, k': Kernel, ds: seq<Delivery>)
    requires k'.deliveries == k.deliveries + ds && |ds| <= 2 && (|ds| == 2 ==> ds[0].to != ds[1].to)
    requires forall d :: d in ds ==> ToParent(k, k', d)
    ensures TellsParents(k, k')
  {
    forall m | |k.deliveries| <= m < |k'.deliveries|
      ensures ToParent(k, k', k'.deliveries[m])
    {
      assert k'.deliveries[m] == ds[m - |k.deliveries|];
    }
  }

  lemma ZombifyTells(k: Kernel, v: nat)
    requires WellLinked(k) && InUse(k.procs, v) && !IsZombie(k.procs, v) && v != k.init
    ensures TellsParents(k, Zombify(k, v))
  {
    GiveToInitKeeps(k, v);
    InitIsTold(k, v);
    var z, k1, p := ZombieOrphan(k.procs, v, |k.procs|), GiveToInit(k, v), k.procs[v].parent;
    var ds: seq<Delivery> := [];
    if z >= 0 && k.procs[k.init].state == Waiting {
      ZombieReported(k, v, z);
      ds := [Delivery(k.init, DeathOf(k.procs[z]))];
    }
    assert k1.deliveries == k.deliveries + ds;
    if WaitsFor(k1.procs[p], k.procs[v].pid) {
      VictimReported(k, v);
      ds := ds + [Delivery(p, DeathOf(k.procs[v]))];
    }
    assert Zombify(k, v).deliveries == k.deliveries + ds;
    TellsAll(k, Zombify(k, v), ds);
  }

  predicate SameButStatus(p: Proc, q: Proc) {
    && p.state == q.state && p.pid == q.pid && p.serial == q.serial && p.parent == q.parent
    && (p.state == Zombie ==> p.exitStatus == q.exitStatus)
  }

  /** Only what `TellsParents` looks at matters. */
  lemma TellsSame(k: Kernel, k1: Kernel, k2: Kernel, k': Kernel)
    requires TellsParents(k1, k2) && k1.init == k.init && k1.deliveries == k.deliveries && k'.deliveries == k2.deliveries
    requires k1.deaths == k.deaths && k2.deaths == k'.deaths
    requires |k1.procs| == |k.procs| && |k2.procs| == |k'.procs|
    requires forall i :: 0 <= i < |k.procs| ==> SameButStatus(k1.procs[i], k.procs[i])
    requires forall i :: 0 <= i < |k'.procs| ==> k2.procs[i].state == k'.procs[i].state
    ensures TellsParents(k, k')
  {
    forall m | |k.deliveries| <= m < |k'.deliveries|
      ensures ToParent(k, k', k'.deliveries[m])
    {
      var d := k2.deliveries[m];
      assert ToParent(k1, k2, d);
      var c :| InUse(k1.procs, c) && !InUse(k2.procs, c) && Tells(k1, k2, c, d.death) && ParentNow(k1, k2, c, d.to);
      assert InUse(k.procs, c) && !InUse(k'.procs, c) && Tells(k, k', c, d.death) && ParentNow(k, k', c, d.to);
    }
  }

  lemma EndTells(k: Kernel, v: nat)
    requires Sound(k) && WellLinked(k) && InUse(k.procs, v) && !IsZombie(k.procs, v) && v != k.init
    ensures TellsParents(k, Zombify(k, v))
  {
    var rank :| Ranked(k.procs, k.init, rank);
    ParentFacts(k, rank, v);
    ZombifyTells(k, v);
  }

  lemma ExitTells(k: Kernel, v: nat, status: int, k': Kernel)
    requires Sound(k) && WellLinked(k) && InUse(k.procs, v) && !IsZombie(k.procs, v) && v != k.init
    requires k'.deliveries == Exit(k, v, status).deliveries && k'.deaths == Exit(k, v, status).deaths
    requires |k'.procs| == |k.procs|
    requires forall i :: 0 <= i < |k'.procs| ==> k'.procs[i].state == Exit(k, v, status).procs[i].state
    ensures TellsParents(k, k')
  {
    var k1 := k.(procs := k.procs[v := k.procs[v].(exitStatus := status)]);
    QuietSound(k, k1) by {
      var rank :| Ranked(k.procs, k.init, rank);
    }
    SoundIsLinked(k1);
    EndTells(k1, v);
    TellsSame(k, k1, Exit(k, v, status), k');
  }

  lemma WaitpidTells(k: Kernel, p: nat, target: nat)
    requires Enabled(k, DoWaitpid(p, target))
    ensures TellsParents(k, Waitpid(k, p, target))
  {
    var k' := Waitpid(k, p, target);
    match WaitOutcome(k.procs, p, target)
    case WaitReap(c) =>
      assert InUse(k.procs, c) && !InUse(k'.procs, c) && Tells(k, k', c, DeathOf(k.procs[c])) && ParentNow(k, k', c, p);
      assert k'.deliveries == k.deliveries + [Delivery(p, DeathOf(k.procs[c]))];
      assert ToParent(k, k', Delivery(p, DeathOf(k.procs[c])));
    case _ =>
  }

  lemma KillTells(k: Kernel, p: nat, pid: nat)
    requires Sound(k) && WellLinked(k) && Enabled(k, DoKill(p, pid))
    ensures TellsParents(k, Kill(k, p, pid))
  {
    KillVictim(k, p, pid);
    match KillOutcome(k.procs, p, pid)
    case KillNow(v) => ExitTells(k, v, EXIT_KILLED, Kill(k, p, pid));
    case _ =>
  }

  /** Every step of every kind reports terminations only to the parent at that moment. */
  lemma StepTells(k: Kernel, e: Event)
    requires Sound(k) && WellLinked(k) && Enabled(k, e)
    ensures TellsParents(k, Step(k, e))
  {
    EffectTells(k, e);
    TellsSame(k, k, Effect(k, e), Step(k, e));
  }

  lemma EffectTells(k: Kernel, e: Event)
    requires Sound(k) && WellLinked(k) && Enabled(k, e)
    ensures TellsParents(k, Effect(k, e))
  {
    match e
    case DoExit(p, status) => ExitTells(k, p, status, Exit(k, p, status));
    case DoWaitpid(p, target) => WaitpidTells(k, p, target);
    case DoKill(p, pid) => KillTells(k, p, pid);
    case DoSchedule(p) =>
      if k.procs[p].state == Killed {
        var rank :| Ranked(k.procs, k.init, rank);
        EndTells(k, p);
      }
    case _ =>
  }

  /** Over every run: each delivery was made by one of its steps, to the parent at that moment. */
  lemma {:induction false} DeliveredToParent(k: Kernel, es: seq<Event>, n: nat) returns (m: nat)
    requires Sound(k) && IsRun(k, es) && |k.deliveries| <= n < |Run(k, es).deliveries|
    ensures m < |es| && IsRun(k, es[..m])
    ensures var k1 := Run(k, es[..m]);
      && WellLinked(k1) && Enabled(k1, es[m])
      && |k1.deliveries| <= n < |Step(k1, es[m]).deliveries|
      && Run(k, es).deliveries[n] == Step(k1, es[m]).deliveries[n]
      && ToParent(k1, Step(k1, es[m]), Run(k, es).deliveries[n])
    decreases |es|
  {
    var k1 := Step(k, es[0]);
    StepSound(k, es[0]);
    StepTells(k, es[0]);
    if n < |k1.deliveries| {
      m := 0;
      LogGrows(k1, es[1..]);
      assert es[..0] == [];
    } else {
      var m1 := DeliveredToParent(k1, es[1..], n);
      m := m1 + 1;
      assert es[..m][1..] == es[1..][..m1] && es[..m][0] == es[0];
    }
  }

  lemma {:induction false} LogGrows(k: Kernel, es: seq<Event>)
    requires Sound(k) && IsRun(k, es)
    ensures |k.deliveries| <= |Run(k, es).deliveries| && Run(k, es).deliveries[..|k.deliveries|] == k.deliveries
    decreases |es|
  {
    if es != [] {
      StepSound(k, es[0]);
      StepTells(k, es[0]);
      LogGrows(Step(k, es[0]), es[1..]);
    }
  }

  // ----- what a wait finds

  /** Entry `c` is a child of `p` that a wait for `target` is about. */
  ghost predicate Matches(procs: seq<Proc>, p: nat, target: nat, c: int) {
    InUse(procs, c) && procs[c].parent == p && (target == 0 || procs[c].pid == target)
  }

  /** The four results of a wait, each exactly when.  Entries that are not in use count as children in a wait
      for any child. */
  lemma WaitExact(procs: seq<Proc>, init: nat, p: nat, target: nat)
    requires PidsOk(procs, init) && p < |procs|
    ensures var r, self := WaitOutcome(procs, p, target), target == procs[p].pid;
      var found := exists c :: Matches(procs, p, target, c);
      var reap := exists c :: Matches(procs, p, target, c) && IsZombie(procs, c);
      && (r == WaitError(E_BAD_PARAM) <==> self || (target != 0 && !found))
      && (r == WaitError(E_NO_CHILDREN) <==> !self && target == 0 && !HasEntryWithParent(procs, p))
      && (r.WaitReap? <==> !self && reap)
      && (r.WaitReap? ==> Matches(procs, p, target, r.child) && IsZombie(procs, r.child))
      && (r == WaitBlock <==> !self && !reap && (found || (target == 0 && HasEntryWithParent(procs, p))))
  {
    var f, z := FindPid(procs, target, |procs|), ZombieChild(procs, p, |procs|);
    assert z >= 0 && target == 0 ==> Matches(procs, p, target, z);
    assert f >= 0 && target != 0 && procs[f].parent == p ==> Matches(procs, p, target, f);
    assert forall c :: Matches(procs, p, target, c) && target != 0 ==> c == f;
    assert forall c :: Matches(procs, p, target, c) ==> HasEntryWithParent(procs, p);
  }

  // ----- who waits for ever

  /** `w` waits although it has no children. */
  ghost predicate Stuck(k: Kernel, w: nat) {
    w != k.init && HasState(k.procs, w, {Waiting}) && NoChildren(k.procs, w)
  }

  predicate Kills(k: Kernel, e: Event, w: nat) {
    e.DoKill? && e.p < |k.procs| && KillOutcome(k.procs, e.p, e.pid) == KillNow(w)
  }

  lemma GiveToInitStuck(k: Kernel, v: nat, w: nat)
    requires WellLinked(k) && v < |k.procs| && Stuck(k, w)
    ensures NoChildren(GiveToInit(k, v).procs, w)
  {
  }

  lemma ZombifyStuck(k: Kernel, v: nat, w: nat)
    requires WellLinked(k) && InUse(k.procs, v) && !IsZombie(k.procs, v) && v != k.init && v != w && Stuck(k, w)
    ensures Stuck(Zombify(k, v), w)
  {
    ZombifyOthers(k, v, w);
    GiveToInitStuck(k, v, w);
  }

  lemma ExitStuck(k: Kernel, v: nat, status: int, w: nat)
    requires WellLinked(k) && InUse(k.procs, v) && !IsZombie(k.procs, v) && v != k.init && v != w && Stuck(k, w)
    ensures Stuck(Exit(k, v, status), w)
  {
    ZombifyStuck(k.(procs := k.procs[v := k.procs[v].(exitStatus := status)]), v, w);
  }

  lemma KillStuck(k: Kernel, p: nat, pid: nat, w: nat)
    requires Sound(k) && WellLinked(k) && Enabled(k, DoKill(p, pid)) && Stuck(k, w) && !Kills(k, DoKill(p, pid), w)
    ensures Stuck(Kill(k, p, pid), w)
  {
    KillVictim(k, p, pid);
    match KillOutcome(k.procs, p, pid)
    case KillNow(v) => ExitStuck(k, v, EXIT_KILLED, w);
    case _ =>
  }

  lemma WaitpidStuck(k: Kernel, p: nat, target: nat, w: nat)
    requires Enabled(k, DoWaitpid(p, target)) && Stuck(k, w)
    ensures Stuck(Waitpid(k, p, target), w)
  {
  }

  lemma ForkStuck(k: Kernel, p: nat, slot: nat, w: nat)
    requires Enabled(k, DoFork(p, slot)) && Stuck(k, w)
    ensures Stuck(Fork(k, p, slot), w)
  {
  }

  lemma StuckStep(k: Kernel, e: Event, w: nat)
    requires Sound(k) && WellLinked(k) && Enabled(k, e) && Stuck(k, w) && !Kills(k, e, w)
    ensures Stuck(Step(k, e), w)
  {
    match e
    case DoFork(p, slot) => ForkStuck(k, p, slot, w);
    case DoExit(p, status) => ExitStuck(k, p, status, w);
    case DoWaitpid(p, target) => WaitpidStuck(k, p, target, w);
    case DoKill(p, pid) => KillStuck(k, p, pid, w);
    case DoSchedule(p) =>
      if k.procs[p].state == Killed {
        var rank :| Ranked(k.procs, k.init, rank);
        ZombifyStuck(k, p, w);
      }
    case _ =>
  }

  /** Nobody kills `w` in the run. */
  predicate Spared(k: Kernel, es: seq<Event>, w: nat)
    requires IsRun(k, es)
    decreases |es|
  {
    es == [] || (!Kills(k, es[0], w) && Spared(Step(k, es[0]), es[1..], w))
  }

  /** Such a process waits for ever, unless somebody kills it. */
  lemma {:induction false} StuckForEver(k: Kernel, es: seq<Event>, w: nat)
    requires Sound(k) && IsRun(k, es) && Stuck(k, w) && Spared(k, es, w)
    ensures Stuck(Run(k, es), w)
    decreases |es|
  {
    if es != [] {
      StepSound(k, es[0]);
      StuckStep(k, es[0], w);
      StuckForEver(Step(k, es[0]), es[1..], w);
    }
  }
}
