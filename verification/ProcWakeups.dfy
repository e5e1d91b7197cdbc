/** No lost wakeup, and the book-keeping of exit statuses: pids are unique, nobody waits for a child
    that is already a zombie, and every terminated process is either still a zombie or has had its
    status handed over exactly once.
 */
module ProcWakeups {
  import opened Defs
  import opened FreeList
  import opened ProcTable

  /** No two processes in use have the same pid. */
  ghost predicate PidsOk(procs: seq<Proc>, init: nat) {
    && init < |procs| && procs[init].pid == PID_INIT
    && (forall i, j :: InUse(procs, i) && InUse(procs, j) && i != j ==> procs[i].pid != procs[j].pid)
  }

  ghost predicate SerialsOk(procs: seq<Proc>, born: nat) {
    && (forall i :: InUse(procs, i) ==> procs[i].serial < born)
    && (forall i, j :: InUse(procs, i) && InUse(procs, j) && i != j ==> procs[i].serial != procs[j].serial)
  }

  /** No process waits for a child that has already terminated; init only waits for any child. */
  ghost predicate NoLostWakeup(procs: seq<Proc>, init: nat) {
    && (forall w, z :: 0 <= w < |procs| && IsZombie(procs, z) && procs[z].parent == w && procs[w].state == Waiting ==>
          procs[w].target != 0 && procs[w].target != procs[z].pid)
    && (init < |procs| && procs[init].state == Waiting ==> procs[init].target == 0)
  }

  /** Entry `i` is a zombie, or the process whose termination is being handled. */
  predicate Dead(procs: seq<Proc>, dying: int, i: int) {
    IsZombie(procs, i) || (i == dying && InUse(procs, i))
  }

  ghost predicate Delivered(ds: seq<Delivery>, x: Death) {
    exists n :: 0 <= n < |ds| && ds[n].death == x
  }

  ghost predicate Held(procs: seq<Proc>, dying: int, x: Death) {
    exists i :: Dead(procs, dying, i) && DeathOf(procs[i]) == x
  }

  /** Each termination is recorded once, held by a zombie or delivered, and delivered at most once. */
  ghost predicate Ledger(k: Kernel, dying: int) {
    && (forall m, n :: 0 <= m < n < |k.deliveries| ==> k.deliveries[m].death.serial != k.deliveries[n].death.serial)
    && (forall m, n :: 0 <= m < n < |k.deaths| ==> k.deaths[m].serial != k.deaths[n].serial)
    && (forall n, i :: 0 <= n < |k.deliveries| && InUse(k.procs, i) ==>
          k.procs[i].serial != k.deliveries[n].death.serial)
    && (forall n, i :: 0 <= n < |k.deaths| && InUse(k.procs, i) && !Dead(k.procs, dying, i) ==>
          k.procs[i].serial != k.deaths[n].serial)
    && (forall n :: 0 <= n < |k.deliveries| ==> k.deliveries[n].death in k.deaths)
    && (forall i :: Dead(k.procs, dying, i) ==> DeathOf(k.procs[i]) in k.deaths)
    && (forall x :: x in k.deaths ==> x.serial < k.born && (Delivered(k.deliveries, x) || Held(k.procs, dying, x)))
  }

  // ----- wakeups

  /** `r` has no waiter and no zombie that `procs` does not have. */
  ghost predicate Calmer(procs: seq<Proc>, r: seq<Proc>) {
    && |r| == |procs|
    && forall i :: 0 <= i < |procs| ==>
         && (r[i].state == Waiting ==> procs[i].state == Waiting && r[i].target == procs[i].target)
         && (r[i].state == Zombie ==> procs[i].state == Zombie && r[i].parent == procs[i].parent && r[i].pid == procs[i].pid)
  }

  lemma CalmerKeeps(procs: seq<Proc>, r: seq<Proc>, init: nat)
    requires NoLostWakeup(procs, init) && Calmer(procs, r)
    ensures NoLostWakeup(r, init)
  {
    forall w, z | 0 <= w < |r| && IsZombie(r, z) && r[z].parent == w
      ensures !WaitsFor(r[w], r[z].pid)
    {
      assert IsZombie(procs, z);
    }
  }

  /** Zombies inherited by init do not go unnoticed: if init waits, one of them wakes it. */
  lemma GiveToInitWakes(k: Kernel, v: nat)
    requires NoLostWakeup(k.procs, k.init) && v < |k.procs| && k.init < |k.procs| && v != k.init
    ensures NoLostWakeup(GiveToInit(k, v).procs, k.init)
  {
    var z := ZombieOrphan(k.procs, v, |k.procs|);
    var r := Reparent(k.procs, v, k.init, |k.procs|);
    var k' := GiveToInit(k, v);
    forall w, c | 0 <= w < |k'.procs| && IsZombie(k'.procs, c) && k'.procs[c].parent == w
      ensures !WaitsFor(k'.procs[w], k'.procs[c].pid)
    {
      assert IsZombie(k.procs, c);
      assert w != k.init ==> k.procs[c].parent == w;
    }
  }

  /** Whoever waits for the terminating process is woken; only then may it become a zombie. */
  lemma TellParentWakes(k: Kernel, v: nat, p: nat)
    requires NoLostWakeup(k.procs, k.init) && v < |k.procs| && p < |k.procs| && k.procs[v].parent == p
    requires k.procs[v].state != Waiting || p != v
    ensures NoLostWakeup(TellParent(k, v, p).procs, k.init)
  {
    var r := TellParent(k, v, p).procs;
    if WaitsFor(k.procs[p], k.procs[v].pid) {
      CalmerKeeps(k.procs, r, k.init);
    } else {
      forall w, z | 0 <= w < |r| && IsZombie(r, z) && r[z].parent == w
        ensures !WaitsFor(r[w], r[z].pid)
      {
        if z != v {
          assert IsZombie(k.procs, z);
        }
      }
    }
  }

  /** Reparenting and the delivery to init leave the terminating process itself alone. */
  lemma GiveToInitKeeps(k: Kernel, v: nat)
    requires v < |k.procs| && k.init < |k.procs| && v != k.init && !IsZombie(k.procs, v)
    ensures GiveToInit(k, v).procs[v] == k.procs[v]
  {
  }

  lemma ZombifyWakes(k: Kernel, v: nat)
    requires NoLostWakeup(k.procs, k.init) && v < |k.procs| && k.init < |k.procs|
    requires 0 <= k.procs[v].parent < |k.procs| && v != k.init && v != k.procs[v].parent && !IsZombie(k.procs, v)
    ensures NoLostWakeup(Zombify(k, v).procs, k.init)
  {
    GiveToInitWakes(k, v);
    GiveToInitKeeps(k, v);
    TellParentWakes(GiveToInit(k, v).(deaths := k.deaths + [DeathOf(k.procs[v])]), v, k.procs[v].parent);
  }

  /** A process only blocks in waitpid when no zombie child matches. */
  lemma WaitpidWakes(k: Kernel, p: nat, target: nat)
    requires NoLostWakeup(k.procs, k.init) && PidsOk(k.procs, k.init) && p < |k.procs|
    requires k.procs[p].state == Running && (p == k.init ==> target == 0)
    ensures NoLostWakeup(Waitpid(k, p, target).procs, k.init)
  {
    var r := Waitpid(k, p, target).procs;
    match WaitOutcome(k.procs, p, target)
    case WaitBlock =>
      forall w, z | 0 <= w < |r| && IsZombie(r, z) && r[z].parent == w
        ensures !WaitsFor(r[w], r[z].pid)
      {
        assert IsZombie(k.procs, z) && InUse(k.procs, z);
        if w == p && target != 0 {
          var c := FindPid(k.procs, target, |k.procs|);
          assert InUse(k.procs, c) && c != z;
        }
      }
    case _ =>
      CalmerKeeps(k.procs, r, k.init);
  }

  // ----- pids and serial numbers

  /** `r` has no process that `procs` does not have, and the same pids and serial numbers. */
  ghost predicate SamePids(procs: seq<Proc>, r: seq<Proc>) {
    && |r| == |procs|
    && forall i :: 0 <= i < |procs| ==>
         r[i].pid == procs[i].pid && r[i].serial == procs[i].serial && (InUse(r, i) ==> InUse(procs, i))
  }

  lemma SamePidsKeep(procs: seq<Proc>, r: seq<Proc>, init: nat)
    requires PidsOk(procs, init) && SamePids(procs, r)
    ensures PidsOk(r, init)
  {
  }

  lemma SameSerialsKeep(procs: seq<Proc>, r: seq<Proc>, born: nat)
    requires SerialsOk(procs, born) && SamePids(procs, r)
    ensures SerialsOk(r, born)
  {
  }

  lemma DeliverSamePids(k: Kernel, to: nat, child: nat)
    requires InUse(k.procs, to) && child < |k.procs|
    ensures SamePids(k.procs, Deliver(k, to, child).procs)
  {
  }

  lemma GiveToInitSamePids(k: Kernel, v: nat)
    requires v < |k.procs| && InUse(k.procs, k.init)
    ensures SamePids(k.procs, GiveToInit(k, v).procs)
  {
    var z := ZombieOrphan(k.procs, v, |k.procs|);
    var k1 := k.(procs := Reparent(k.procs, v, k.init, |k.procs|));
    if z >= 0 && k1.procs[k.init].state == Waiting {
      DeliverSamePids(k1, k.init, z);
    }
  }

  lemma ZombifySamePids(k: Kernel, v: nat)
    requires InUse(k.procs, v) && !IsZombie(k.procs, v) && v != k.init && InUse(k.procs, k.init)
    requires 0 <= k.procs[v].parent < |k.procs|
    ensures SamePids(k.procs, Zombify(k, v).procs)
  {
    var p := k.procs[v].parent;
    GiveToInitSamePids(k, v);
    GiveToInitKeeps(k, v);
    var k2 := GiveToInit(k, v).(deaths := k.deaths + [DeathOf(k.procs[v])]);
    if WaitsFor(k2.procs[p], k2.procs[v].pid) {
      DeliverSamePids(k2, p, v);
    }
  }

  /** A fork keeps pids unique when the new one is not in use. */
  lemma ForkPids(k: Kernel, p: nat, slot: nat)
    requires PidsOk(k.procs, k.init) && p < |k.procs| && slot < |k.procs|
    requires k.procs[slot].state == Unused && InUse(k.procs, p) && InUse(k.procs, k.init)
    requires PidFree(k)
    ensures PidsOk(Fork(k, p, slot).procs, k.init)
  {
  }

  /** The next pid to be given out is not in use, or there is no memory for another process. */
  predicate PidFree(k: Kernel) {
    AllocAddr(k.free, N_USTKPAGES) != 0 ==> forall i :: 0 <= i < |k.procs| && InUse(k.procs, i) ==> k.procs[i].pid != k.nextPid
  }

  lemma ForkSerials(k: Kernel, p: nat, slot: nat)
    requires SerialsOk(k.procs, k.born) && p < |k.procs| && slot < |k.procs|
    requires k.procs[slot].state == Unused && InUse(k.procs, p)
    ensures SerialsOk(Fork(k, p, slot).procs, Fork(k, p, slot).born)
  {
  }

  // ----- the ledger of exit statuses

  /** Nobody is born, reclaimed, becomes a zombie or changes pid; only the status of somebody alive may change. */
  ghost predicate SameLives(procs: seq<Proc>, r: seq<Proc>) {
    && |r| == |procs|
    && forall i :: 0 <= i < |procs| ==>
         && r[i].pid == procs[i].pid && r[i].serial == procs[i].serial
         && (r[i].state == Unused <==> procs[i].state == Unused)
         && (r[i].state == Zombie <==> procs[i].state == Zombie)
         && (r[i].state == Zombie ==> r[i].exitStatus == procs[i].exitStatus)
  }

  lemma SameLivesLedger(k: Kernel, k': Kernel)
    requires Ledger(k, -1) && SameLives(k.procs, k'.procs) && k.born <= k'.born
    requires k'.deaths == k.deaths && k'.deliveries == k.deliveries
    ensures Ledger(k', -1)
  {
    forall x | x in k.deaths && !Delivered(k.deliveries, x)
      ensures Held(k'.procs, -1, x)
    {
      var i :| Dead(k.procs, -1, i) && DeathOf(k.procs[i]) == x;
      assert Dead(k'.procs, -1, i);
    }
  }

  /** Handing over the status of a dead child removes it from those held and adds it to those delivered. */
  lemma DeliverLedger(k: Kernel, to: nat, child: nat, dying: int)
    requires Ledger(k, dying) && SerialsOk(k.procs, k.born) && (dying == -1 || dying == child)
    requires to < |k.procs| && Dead(k.procs, dying, child) && to != child && InUse(k.procs, to) && !Dead(k.procs, dying, to)
    ensures Ledger(Deliver(k, to, child), -1)
  {
    var k' := Deliver(k, to, child);
    var d := Delivery(to, DeathOf(k.procs[child]));
    HandOver(k, k', d, child, dying);
  }

  /** The same for any change of the table that reclaims `child` and keeps everybody else's life. */
  lemma HandOver(k: Kernel, k': Kernel, d: Delivery, child: nat, dying: int)
    requires Ledger(k, dying) && SerialsOk(k.procs, k.born) && (dying == -1 || dying == child)
    requires child < |k.procs| && Dead(k.procs, dying, child)
    requires d.death == DeathOf(k.procs[child])
    requires |k'.procs| == |k.procs| && k'.procs[child].state == Unused
    requires SameLives(k.procs, k'.procs[child := k.procs[child]])
    requires k'.deaths == k.deaths && k'.deliveries == k.deliveries + [d] && k'.born == k.born
    ensures Ledger(k', -1)
  {
    var s := k'.procs[child := k.procs[child]];
    assert forall i :: 0 <= i < |k.procs| && i != child ==> s[i] == k'.procs[i];
    forall i | InUse(k'.procs, i)
      ensures i != child && InUse(k.procs, i) && DeathOf(k'.procs[i]).serial == k.procs[i].serial
      ensures Dead(k'.procs, -1, i) <==> Dead(k.procs, dying, i)
      ensures Dead(k'.procs, -1, i) ==> DeathOf(k'.procs[i]) == DeathOf(k.procs[i])
      ensures k.procs[i].serial != d.death.serial
    {
    }
    HandOverHeld(k, k', d, child, dying);
  }

  lemma HandOverHeld(k: Kernel, k': Kernel, d: Delivery, child: nat, dying: int)
    requires Ledger(k, dying) && (dying == -1 || dying == child) && child < |k.procs| && Dead(k.procs, dying, child)
    requires d.death == DeathOf(k.procs[child])
    requires |k'.procs| == |k.procs| && SameLives(k.procs, k'.procs[child := k.procs[child]])
    requires k'.deliveries == k.deliveries + [d]
    ensures forall x :: x in k.deaths ==> Delivered(k'.deliveries, x) || Held(k'.procs, -1, x)
  {
    forall x | x in k.deaths
      ensures Delivered(k'.deliveries, x) || Held(k'.procs, -1, x)
    {
      if Delivered(k.deliveries, x) {
        var n :| 0 <= n < |k.deliveries| && k.deliveries[n].death == x;
        assert k'.deliveries[n] == k.deliveries[n];
      } else {
        var i :| Dead(k.procs, dying, i) && DeathOf(k.procs[i]) == x;
        if i == child {
          assert k'.deliveries[|k.deliveries|] == d;
        } else {
          assert k'.procs[child := k.procs[child]][i] == k'.procs[i];
          assert Dead(k'.procs, -1, i);
        }
      }
    }
  }

  /** The termination of a live process is entered in the ledger. */
  lemma RecordLedger(k: Kernel, v: nat)
    requires Ledger(k, -1) && SerialsOk(k.procs, k.born) && InUse(k.procs, v) && !IsZombie(k.procs, v)
    ensures Ledger(k.(deaths := k.deaths + [DeathOf(k.procs[v])]), v)
  {
    var x0 := DeathOf(k.procs[v]);
    var k' := k.(deaths := k.deaths + [x0]);
    assert forall i :: Dead(k.procs, v, i) <==> Dead(k.procs, -1, i) || i == v;
    assert !Dead(k.procs, -1, v);
    forall x | x in k'.deaths
      ensures Delivered(k.deliveries, x) || Held(k.procs, v, x)
    {
      if x == x0 {
        assert Dead(k.procs, v, v);
      } else if !Delivered(k.deliveries, x) {
        var i :| Dead(k.procs, -1, i) && DeathOf(k.procs[i]) == x;
        assert Dead(k.procs, v, i);
      }
    }
  }

  lemma BuryLedger(k: Kernel, v: nat)
    requires Ledger(k, v) && v < |k.procs| && InUse(k.procs, v)
    ensures Ledger(k.(procs := WithState(k.procs, v, Zombie)), -1)
  {
    var r := WithState(k.procs, v, Zombie);
    assert forall i :: Dead(r, -1, i) <==> Dead(k.procs, v, i);
    forall x | x in k.deaths && !Delivered(k.deliveries, x)
      ensures Held(r, -1, x)
    {
      var i :| Dead(k.procs, v, i) && DeathOf(k.procs[i]) == x;
      assert Dead(r, -1, i);
    }
  }

  lemma GiveToInitLedger(k: Kernel, v: nat)
    requires Ledger(k, -1) && SerialsOk(k.procs, k.born) && v < |k.procs| && v != k.init
    requires InUse(k.procs, k.init) && !IsZombie(k.procs, k.init)
    ensures Ledger(GiveToInit(k, v), -1) && SerialsOk(GiveToInit(k, v).procs, k.born)
  {
    var z := ZombieOrphan(k.procs, v, |k.procs|);
    var k1 := k.(procs := Reparent(k.procs, v, k.init, |k.procs|));
    SameLivesLedger(k, k1);
    SameSerialsKeep(k.procs, k1.procs, k.born);
    if z >= 0 && k1.procs[k.init].state == Waiting {
      DeliverLedger(k1, k.init, z, -1);
    }
    GiveToInitSamePids(k, v);
    SameSerialsKeep(k.procs, GiveToInit(k, v).procs, k.born);
  }

  lemma ZombifyLedger(k: Kernel, v: nat)
    requires Ledger(k, -1) && SerialsOk(k.procs, k.born) && InUse(k.procs, v) && !IsZombie(k.procs, v) && v != k.init
    requires InUse(k.procs, k.init) && !IsZombie(k.procs, k.init)
    requires InUse(k.procs, k.procs[v].parent) && !IsZombie(k.procs, k.procs[v].parent) && k.procs[v].parent != v
    ensures Ledger(Zombify(k, v), -1)
  {
    var p := k.procs[v].parent;
    var k1 := GiveToInit(k, v);
    GiveToInitLedger(k, v);
    GiveToInitKeeps(k, v);
    RecordLedger(k1, v);
    var k2 := k1.(deaths := k1.deaths + [DeathOf(k.procs[v])]);
    if WaitsFor(k2.procs[p], k2.procs[v].pid) {
      DeliverLedger(k2, p, v, v);
    } else {
      BuryLedger(k2, v);
    }
  }

  lemma WaitpidLedger(k: Kernel, p: nat, target: nat)
    requires Ledger(k, -1) && SerialsOk(k.procs, k.born) && p < |k.procs| && k.procs[p].state == Running
    ensures Ledger(Waitpid(k, p, target), -1)
  {
    match WaitOutcome(k.procs, p, target)
    case WaitReap(c) =>
      HandOver(k, Waitpid(k, p, target), Delivery(p, DeathOf(k.procs[c])), c, -1);
    case _ =>
      SameLivesLedger(k, Waitpid(k, p, target));
  }

  lemma ForkLedger(k: Kernel, p: nat, slot: nat)
    requires Ledger(k, -1) && SerialsOk(k.procs, k.born) && p < |k.procs| && slot < |k.procs|
    requires k.procs[slot].state == Unused && InUse(k.procs, p) && !IsZombie(k.procs, p)
    ensures Ledger(Fork(k, p, slot), -1)
  {
    var k' := Fork(k, p, slot);
    if SameLives(k.procs, k'.procs) {
      SameLivesLedger(k, k');
    } else {
      BirthLedger(k, k', slot);
    }
  }

  /** A birth with a new serial number. */
  lemma BirthLedger(k: Kernel, k': Kernel, slot: nat)
    requires Ledger(k, -1) && slot < |k.procs| == |k'.procs| && k.procs[slot].state == Unused
    requires k'.procs[slot].state == Ready && k'.procs[slot].serial == k.born
    requires SameLives(k.procs, k'.procs[slot := k.procs[slot]])
    requires k'.deaths == k.deaths && k'.deliveries == k.deliveries && k.born < k'.born
    ensures Ledger(k', -1)
  {
    DeliveredWereBorn(k);
    var s := k'.procs[slot := k.procs[slot]];
    forall i | 0 <= i < |k.procs| && i != slot
      ensures s[i] == k'.procs[i]
      ensures InUse(k'.procs, i) <==> InUse(k.procs, i)
      ensures Dead(k'.procs, -1, i) <==> Dead(k.procs, -1, i)
    {
    }
    forall x | x in k.deaths && !Delivered(k.deliveries, x)
      ensures Held(k'.procs, -1, x)
    {
      var i :| Dead(k.procs, -1, i) && DeathOf(k.procs[i]) == x;
      assert Dead(k'.procs, -1, i);
    }
  }

  lemma DeliveredWereBorn(k: Kernel)
    requires Ledger(k, -1)
    ensures forall n :: 0 <= n < |k.deliveries| ==> k.deliveries[n].death.serial < k.born
  {
    forall n | 0 <= n < |k.deliveries|
      ensures k.deliveries[n].death.serial < k.born
    {
      assert k.deliveries[n].death in k.deaths;
    }
  }
}
