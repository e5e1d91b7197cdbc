/** Priority round-robin scheduling and the clock interrupt (procs.c, clock.c).

    The first part is the clock tick as a function on values and its theorems; the second part
    is the interrupt handler itself, over the linked queues, proved to compute that function.
 */
module Scheduler {
  import opened Defs
  import opened QueueSpec
  import opened PcbQueue

  const QUANTUM_STANDARD := 3

  /** The running process, its remaining ticks, and the ready queue; keys are priorities. */
  datatype Sched<T> = Sched(cur: Entry<T>, ticks: nat, ready: seq<Entry<T>>)

  function Dispatch<T>(q: seq<Entry<T>>): Sched<T>
    requires q != []
  {
    Sched(q[0], QUANTUM_STANDARD, q[1..])
  }

  /** A tick with nobody to wake. */
  function Tick<T>(s: Sched<T>): Sched<T> {
    if s.ticks > 1 then s.(ticks := s.ticks - 1)
    else
      EnqueueMembers(s.ready, s.cur);
      Dispatch(Enqueue(s.ready, s.cur))
  }

  function Ticks<T>(s: Sched<T>, n: nat): Sched<T>
    decreases n
  {
    if n == 0 then s else Ticks(Tick(s), n - 1)
  }

  /** Nobody on the ready queue has a better priority than the running process. */
  ghost predicate TopRunning<T>(s: Sched<T>) {
    s.ticks >= 1 && Sorted(s.ready) && (s.ready != [] ==> s.cur.key <= s.ready[0].key)
  }

  ghost predicate AllDistinct<T>(s: Sched<T>) {
    && (forall i :: 0 <= i < |s.ready| ==> s.ready[i] != s.cur)
    && (forall i, j :: 0 <= i < j < |s.ready| ==> s.ready[i] != s.ready[j])
  }

  // ----- round robin

  lemma {:induction false} TicksCompose<T>(s: Sched<T>, m: nat, n: nat)
    ensures Ticks(s, m + n) == Ticks(Ticks(s, m), n)
    decreases m
  {
    if m > 0 {
      TicksCompose(Tick(s), m - 1, n);
    }
  }

  lemma {:induction false} WithinQuantum<T>(s: Sched<T>, t: nat)
    requires t < s.ticks
    ensures Ticks(s, t) == s.(ticks := s.ticks - t)
    decreases t
  {
    if t > 0 {
      WithinQuantum(Tick(s), t - 1);
    }
  }

  /** At the end of its quantum the running process goes behind its peers and the next one starts. */
  lemma {:induction false} QuantumEnd<T>(s: Sched<T>)
    requires s.ticks >= 1
    ensures |Enqueue(s.ready, s.cur)| == |s.ready| + 1
    ensures Ticks(s, s.ticks) == Dispatch(Enqueue(s.ready, s.cur))
    decreases s.ticks
  {
    EnqueueMembers(s.ready, s.cur);
    if s.ticks > 1 {
      QuantumEnd(Tick(s));
    } else {
      assert Ticks(s, 1) == Ticks(Tick(s), 0);
    }
  }

  lemma {:induction false} EnqueueKeepsPrefix<T>(q: seq<Entry<T>>, e: Entry<T>, m: nat)
    requires m < |q| && forall j :: 0 <= j <= m ==> q[j].key <= e.key
    ensures |Enqueue(q, e)| == |q| + 1 && forall j :: 0 <= j <= m ==> Enqueue(q, e)[j] == q[j]
    decreases m
  {
    EnqueueMembers(q, e);
    if m > 0 {
      EnqueueKeepsPrefix(q[1..], e, m - 1);
    }
  }

  /** A peer with `i` peers ahead of it is dispatched after exactly the rest of the running quantum
      plus `i` whole quanta, and not before; meanwhile only processes of that priority run. */
  lemma {:induction false} RoundRobin<T>(s: Sched<T>, i: nat)
    requires TopRunning(s) && AllDistinct(s)
    requires i < |s.ready| && forall j :: 0 <= j <= i ==> s.ready[j].key == s.cur.key
    ensures Ticks(s, s.ticks + QUANTUM_STANDARD * i).cur == s.ready[i]
    ensures Ticks(s, s.ticks + QUANTUM_STANDARD * i).ticks == QUANTUM_STANDARD
    ensures forall t :: 0 <= t < s.ticks + QUANTUM_STANDARD * i ==> Ticks(s, t).cur != s.ready[i]
    ensures forall t :: 0 <= t <= s.ticks + QUANTUM_STANDARD * i ==> Ticks(s, t).cur.key == s.cur.key
    decreases i
  {
    QuantumEnd(s);
    EnqueueKeepsPrefix(s.ready, s.cur, i);
    var n, target := s.ticks + QUANTUM_STANDARD * i, s.ready[i];
    var s' := Ticks(s, s.ticks);
    if i > 0 {
      NextTurn(s);
      assert s'.ready[i - 1] == target;
      forall j | 0 <= j <= i - 1
        ensures s'.ready[j].key == s'.cur.key
      {
        assert s'.ready[j] == s.ready[j + 1];
      }
      RoundRobin(s', i - 1);
      TicksCompose(s, s.ticks, QUANTUM_STANDARD * i);
    }
    forall t | 0 <= t <= n
      ensures t < n ==> Ticks(s, t).cur != target
      ensures Ticks(s, t).cur.key == s.cur.key
    {
      if t < s.ticks {
        WithinQuantum(s, t);
      } else if i > 0 {
        TicksCompose(s, s.ticks, t - s.ticks);
      }
    }
  }

  /** A whole quantum keeps the scheduling invariant. */
  lemma NextTurn<T>(s: Sched<T>)
    requires TopRunning(s) && AllDistinct(s) && s.ready != [] && s.ready[0].key == s.cur.key
    ensures var s' := Ticks(s, s.ticks);
            && s'.cur == s.ready[0] && s'.ticks == QUANTUM_STANDARD && s'.ready == Enqueue(s.ready[1..], s.cur)
            && TopRunning(s') && AllDistinct(s')
  {
    QuantumEnd(s);
    LowerPriorityNeverRuns(s, s.ticks);
    var s' := Ticks(s, s.ticks);
    assert s'.ready == Enqueue(s.ready[1..], s.cur);
    TurnDistinct(s.ready, s.cur);
  }

  lemma TurnDistinct<T>(q: seq<Entry<T>>, e: Entry<T>)
    requires q != [] && e !in q && forall i, j :: 0 <= i < j < |q| ==> q[i] != q[j]
    ensures AllDistinct(Sched(q[0], QUANTUM_STANDARD, Enqueue(q[1..], e)))
  {
    var r := Enqueue(q[1..], e);
    EnqueueMembers(q[1..], e);
    EnqueueDistinct(q[1..], e);
    forall k | 0 <= k < |r|
      ensures r[k] != q[0]
    {
      assert r[k] in r;
    }
  }

  lemma {:induction false} EnqueueDistinct<T>(q: seq<Entry<T>>, e: Entry<T>)
    requires e !in q && forall i, j :: 0 <= i < j < |q| ==> q[i] != q[j]
    ensures var r := Enqueue(q, e);
            forall i, j :: 0 <= i < j < |r| ==> r[i] != r[j]
    decreases |q|
  {
    if q != [] && q[0].key <= e.key {
      EnqueueDistinct(q[1..], e);
      EnqueueMembers(q[1..], e);
      var r := Enqueue(q, e);
      forall i, j | 0 <= i < j < |r|
        ensures r[i] != r[j]
      {
        assert r[j] in Enqueue(q[1..], e);
      }
    }
  }

  lemma TickKeepsTop<T>(s: Sched<T>)
    requires TopRunning(s)
    ensures TopRunning(Tick(s)) && Tick(s).cur.key == s.cur.key
  {
    if s.ticks == 1 {
      EnqueueSorted(s.ready, s.cur);
      EnqueueMembers(s.ready, s.cur);
      var r := Enqueue(s.ready, s.cur);
      assert r[0] in r;
      assert s.cur in r;
      assert r[0] in s.ready || r[0] == s.cur;
      HeadIsLeast(r);
      if |r| > 1 {
        assert r[1..][0] == r[1];
      }
    }
  }

  lemma HeadIsLeast<T>(q: seq<Entry<T>>)
    requires Sorted(q) && q != []
    ensures forall x :: x in q ==> q[0].key <= x.key
    ensures Sorted(q[1..])
  {
  }

  /** With no sleepers and no system calls, no process of a lower priority ever runs. */
  lemma {:induction false} LowerPriorityNeverRuns<T>(s: Sched<T>, t: nat)
    requires TopRunning(s)
    ensures TopRunning(Ticks(s, t)) && Ticks(s, t).cur.key == s.cur.key
    decreases t
  {
    if t > 0 {
      TickKeepsTop(s);
      LowerPriorityNeverRuns(Tick(s), t - 1);
    }
  }

  lemma TickConserves<T>(s: Sched<T>, e: Entry<T>)
    ensures |Tick(s).ready| == |s.ready|
    ensures e == Tick(s).cur || e in Tick(s).ready <==> e == s.cur || e in s.ready
  {
    if s.ticks <= 1 {
      EnqueueMembers(s.ready, s.cur);
      var r := Enqueue(s.ready, s.cur);
      assert r == [r[0]] + r[1..];
      assert e in r <==> e == r[0] || e in r[1..];
    }
  }

  /** Ticks neither lose nor duplicate processes. */
  lemma {:induction false} TicksConserve<T>(s: Sched<T>, t: nat, e: Entry<T>)
    ensures |Ticks(s, t).ready| == |s.ready|
    ensures e == Ticks(s, t).cur || e in Ticks(s, t).ready <==> e == s.cur || e in s.ready
    decreases t
  {
    if t > 0 {
      TickConserves(s, e);
      TicksConserve(Tick(s), t - 1, e);
    }
  }

  // ----- waking sleepers

  /** How many leading entries of the sleep queue are due. */
  function Due<T>(q: seq<Entry<T>>, now: int): (n: nat)
    ensures n <= |q|
    ensures forall i :: 0 <= i < n ==> q[i].key <= now
    ensures n < |q| ==> now < q[n].key
  {
    if q == [] || now < q[0].key then 0 else 1 + Due(q[1..], now)
  }

  /** The wake loop on values: the remaining sleep queue and the new ready queue. */
  function WakeAll<T>(asleep: seq<Entry<T>>, ready: seq<Entry<T>>, prio: map<T, nat>, now: int)
    : (seq<Entry<T>>, seq<Entry<T>>)
  {
    if asleep == [] || now < asleep[0].key then (asleep, ready)
    else WakeAll(asleep[1..], Enqueue(ready, ReadyEntry(asleep[0], prio)), prio, now)
  }

  /** The ready-queue entry of a sleeper. */
  function ReadyEntry<T>(e: Entry<T>, prio: map<T, nat>): Entry<T> {
    Entry(e.item, if e.item in prio then prio[e.item] else 0)
  }

  function ReadyEntries<T>(es: seq<Entry<T>>, prio: map<T, nat>): (rs: seq<Entry<T>>)
    ensures |rs| == |es| && forall i :: 0 <= i < |es| ==> rs[i] == ReadyEntry(es[i], prio)
  {
    if es == [] then [] else [ReadyEntry(es[0], prio)] + ReadyEntries(es[1..], prio)
  }

  /** The loop wakes exactly the leading due sleepers, enqueueing them in wakeup order. */
  lemma {:induction false} WakeAllIsDuePrefix<T>(asleep: seq<Entry<T>>, ready: seq<Entry<T>>, prio: map<T, nat>, now: int)
    ensures var n := Due(asleep, now);
            WakeAll(asleep, ready, prio, now) ==
              (asleep[n..], EnqueueAll(ready, ReadyEntries(asleep[..n], prio)))
    decreases |asleep|
  {
    var n := Due(asleep, now);
    if n == 0 {
      assert asleep[..0] == [];
    } else {
      WakeAllIsDuePrefix(asleep[1..], Enqueue(ready, ReadyEntry(asleep[0], prio)), prio, now);
      assert asleep[..n][1..] == asleep[1..][..n - 1];
      assert asleep[1..][n - 1..] == asleep[n..];
    }
  }

  /** One tick on sorted queues: exactly the sleepers whose time has come leave the sleep queue,
      the others stay in order with a later wakeup time, and the ready queue is the stable
      priority merge of the old one and the woken in wakeup order. */
  lemma WakeExact<T>(asleep: seq<Entry<T>>, ready: seq<Entry<T>>, prio: map<T, nat>, now: int, k: int)
    requires Sorted(asleep) && Sorted(ready)
    ensures var n := Due(asleep, now);
            var (asleep', ready') := WakeAll(asleep, ready, prio, now);
            && asleep' == asleep[n..]
            && (forall i :: 0 <= i < |asleep| ==> (i < n <==> asleep[i].key <= now))
            && Sorted(ready')
            && WithKey(ready', k) == WithKey(ready, k) + WithKey(ReadyEntries(asleep[..n], prio), k)
  {
    var n := Due(asleep, now);
    WakeAllIsDuePrefix(asleep, ready, prio, now);
    forall i | 0 <= i < |asleep|
      ensures i < n <==> asleep[i].key <= now
    {
      DueExact(asleep, now, i);
    }
    EnqueueAllSorted(ready, ReadyEntries(asleep[..n], prio));
    EnqueueAllStable(ready, ReadyEntries(asleep[..n], prio), k);
  }

  /** On a sorted sleep queue the due entries are exactly those whose wakeup time has arrived. */
  lemma DueExact<T>(q: seq<Entry<T>>, now: int, i: nat)
    requires Sorted(q) && i < |q|
    ensures i < Due(q, now) <==> q[i].key <= now
  {
    var n := Due(q, now);
    if i >= n {
      SortedPairs(q, n, i);
    }
  }

  // ----- the clock interrupt handler

  /** A queue none of whose PCBs changed is still the same queue. */
  twostate lemma Untouched(q: Queue)
    requires old(q.Valid()) && unchanged(q)
    requires forall p :: p in q.spine ==> p.next == old(p.next)
    requires forall p :: p in q.spine ==> p.pid == old(p.pid) && p.priority == old(p.priority) && p.wakeup == old(p.wakeup)
    ensures q.Valid()
  {
    forall i | 0 <= i < |q.spine|
      ensures NextAt(q.spine, i)
    {
      assert old(NextAt(q.spine, i));
    }
  }

  class Cpu {
    ghost const ptable: set<Pcb>   // every PCB there is
    const ready: Queue
    const sleeping: Queue
    var current: Pcb?
    var systemTime: nat

    ghost predicate Valid()
      reads ready, sleeping, ptable`next, ptable`pid, ptable`priority, ptable`wakeup
    {
      && (forall p :: p in ready.spine ==> p in ptable)
      && (forall p :: p in sleeping.spine ==> p in ptable)
      && ready != sleeping && ready.Valid() && sleeping.Valid()
      && ready.order == Prio && sleeping.order == Wakeup
      && (forall p :: p in sleeping.spine ==> p !in ready.spine)
    }

    /** Nobody has both the CPU and a place on a queue. */
    ghost predicate OffQueues(p: Pcb?)
      reads ready, sleeping
    {
      p != null && p in ptable && p !in ready.spine && p !in sleeping.spine
    }

    /** The priorities of all processes. */
    ghost function Prios(): map<Pcb, nat>
      reads ptable`priority
    {
      map p | p in ptable :: p.priority
    }

    /** The running process with its priority. */
    ghost function RunningEntry(): Entry<Pcb>
      requires current != null
      reads this`current, current`priority
    {
      var p: Pcb := current;
      Entry(p, p.priority)
    }

    constructor (ghost ptable: set<Pcb>)
      ensures Valid() && fresh(ready) && fresh(sleeping) && this.ptable == ptable
      ensures current == null && systemTime == 0 && ready.spine == [] && sleeping.spine == []
    {
      this.ptable := ptable;
      ready := new Queue(Prio);
      sleeping := new Queue(Wakeup);
      current, systemTime := null, 0;
    }

    /** Put a process that has not been killed on the ready queue. */
    method Schedule(p: Pcb)
      requires Valid() && OffQueues(p) && p.state != Killed
      modifies ready, ptable`next, p`state
      ensures Valid() && p.state == Ready
      ensures ready.contents == Enqueue(old(ready.contents), Entry(p, p.priority))
      ensures forall q :: q in ready.spine <==> q in old(ready.spine) || q == p
    {
      p.state := Ready;
      p.next := null;
      Untouched(ready);
      var status := ready.Insert(p);
      Untouched(sleeping);
    }

    /** Wake the first sleeper. */
    method WakeFirst()
      requires Valid() && sleeping.spine != [] && sleeping.spine[0].state != Killed
      modifies ready, sleeping, ptable`next, sleeping.spine`state
      ensures Valid()
      ensures sleeping.spine == old(sleeping.spine)[1..] && sleeping.contents == old(sleeping.contents)[1..]
      ensures var p := old(sleeping.spine)[0];
              && p.state == Ready
              && ready.contents == Enqueue(old(ready.contents), Entry(p, p.priority))
              && forall q :: q in ready.spine <==> q in old(ready.spine) || q == p
      ensures forall q :: q in sleeping.spine ==> q.state == old(q.state)
    {
      var status, p := sleeping.Remove();
      Untouched(ready);
      Schedule(p);
    }

    /** One round of the wake loop: wake the first sleeper if its time has come. */
    method WakeNext() returns (woke: bool)
      requires Valid() && OffQueues(current) && forall p :: p in sleeping.spine ==> p.state != Killed
      modifies ready, sleeping, ptable`next, ptable`state
      ensures Valid() && OffQueues(current) && forall q :: q in sleeping.spine ==> q.state != Killed
      ensures current.state == old(current.state)
      ensures woke <==> old(sleeping.contents) != [] && old(sleeping.contents)[0].key <= systemTime
      ensures !woke ==> ready.contents == old(ready.contents) && sleeping.contents == old(sleeping.contents)
      ensures woke ==>
                var p := old(sleeping.contents)[0].item;
                && p in ptable && sleeping.contents == old(sleeping.contents)[1..]
                && ready.contents == Enqueue(old(ready.contents), Entry(p, p.priority))
    {
      var empty := sleeping.Empty();
      if empty {
        return false;
      }
      var tmp := sleeping.Peek();
      assert sleeping.contents[0].item == tmp && sleeping.contents[0].key == tmp.wakeup;
      if tmp.wakeup > systemTime {
        return false;
      }
      WakeFirst();
      return true;
    }

    /** Wake every process whose wakeup time has arrived. */
    method WakeDue()
      requires Valid() && OffQueues(current) && forall p :: p in sleeping.spine ==> p.state != Killed
      modifies ready, sleeping, ptable`next, ptable`state
      ensures Valid() && OffQueues(current) && current.state == old(current.state)
      ensures forall q :: q in sleeping.spine ==> q.state != Killed
      ensures (sleeping.contents, ready.contents) ==
                WakeAll(old(sleeping.contents), old(ready.contents), old(Prios()), systemTime)
    {
      ghost var prio := Prios();
      ghost var goal := WakeAll(sleeping.contents, ready.contents, prio, systemTime);
      var more := true;
      while more
        invariant Valid() && OffQueues(current) && forall q :: q in sleeping.spine ==> q.state != Killed
        invariant current.state == old(current.state)
        invariant goal == WakeAll(sleeping.contents, ready.contents, prio, systemTime)
        invariant !more ==> goal == (sleeping.contents, ready.contents)
        decreases |sleeping.contents|, more
      {
        more := WakeNext();
      }
    }

    /** Nobody on the sleep queue has come, gone or changed state. */
    twostate predicate SleepersKept()
      reads sleeping, ptable`state, sleeping.spine`state
    {
      sleeping.spine == old(sleeping.spine) && forall q :: q in sleeping.spine ==> q.state == old(q.state)
    }

    /** Which sleepers wake, in terms of their wakeup times. */
    method WakeExpired()
      requires Valid() && OffQueues(current) && forall p :: p in sleeping.spine ==> p.state != Killed
      modifies ready, sleeping, ptable`next, ptable`state
      ensures Valid() && OffQueues(current) && current.state == old(current.state)
      ensures forall q :: q in sleeping.spine ==> q.state != Killed
      ensures (sleeping.contents, ready.contents) ==
                WakeAll(old(sleeping.contents), old(ready.contents), old(Prios()), systemTime)
      ensures forall p :: p in old(sleeping.spine) ==> (p in sleeping.spine <==> p.wakeup > systemTime)
      ensures forall p :: p in old(sleeping.spine) && p.wakeup <= systemTime ==> p in ready.spine
    {
      ghost var s, es, r, prio := sleeping.spine, sleeping.contents, ready.contents, Prios();
      ghost var n := Due(es, systemTime);
      WakeDue();
      WakeAllIsDuePrefix(es, r, prio, systemTime);
      SleptOn(s, es, n);
      WokenUp(s, es, n, r, prio);
    }

    /** The sleepers that stay are those from position `n` on. */
    lemma SleptOn(s: seq<Pcb>, es: seq<Entry<Pcb>>, n: nat)
      requires sleeping.Valid() && sleeping.order == Wakeup && Sorted(es) && Keyed(s, es, Wakeup)
      requires n == Due(es, systemTime) && sleeping.contents == es[n..] && PcbQueue.Distinct(s)
      ensures forall p :: p in s ==> (p in sleeping.spine <==> p.wakeup > systemTime)
    {
      forall j | 0 <= j < |sleeping.spine|
        ensures sleeping.spine[j] == s[n + j]
      {
        assert sleeping.contents[j].item == es[n + j].item;
      }
      forall p | p in s
        ensures p in sleeping.spine <==> p.wakeup > systemTime
      {
        var i :| 0 <= i < |s| && s[i] == p;
        DueExact(es, systemTime, i);
        assert es[i].item == p && es[i].key == p.wakeup;
        if i >= n {
          assert sleeping.contents[i - n].item == sleeping.spine[i - n] == p;
        }
      }
    }

    lemma WokenUp(s: seq<Pcb>, es: seq<Entry<Pcb>>, n: nat, r: seq<Entry<Pcb>>, prio: map<Pcb, nat>)
      requires ready.Valid() && Sorted(es) && Keyed(s, es, Wakeup) && n == Due(es, systemTime)
      requires ready.contents == EnqueueAll(r, ReadyEntries(es[..n], prio))
      ensures forall p :: p in s && p.wakeup <= systemTime ==> p in ready.spine
    {
      forall p | p in s && p.wakeup <= systemTime
        ensures p in ready.spine
      {
        var i :| 0 <= i < |s| && s[i] == p;
        DueExact(es, systemTime, i);
        var woken := ReadyEntries(es[..n], prio);
        var e := ReadyEntry(es[i], prio);
        assert woken[i] == e && e.item == p;
        EnqueueAllMembers(r, woken, e);
        var j :| 0 <= j < |ready.contents| && ready.contents[j] == e;
        assert ready.spine[j] == p;
      }
    }

    /** Give the CPU to the first ready process, with a full quantum. */
    method DispatchNext()
      requires Valid() && ready.spine != []
      modifies this`current, ready, ptable`next, ptable`state, ptable`ticks
      ensures Valid() && current == old(ready.spine)[0] && current !in ready.spine
      ensures current.state == Running && current.ticks == QUANTUM_STANDARD && SleepersKept()
      ensures ready.contents == old(ready.contents)[1..] && ready.spine == old(ready.spine)[1..]
    {
      var status, p := ready.Remove();
      Untouched(sleeping);
      current := p;
      label removed:
      p.state := Running;
      p.ticks := QUANTUM_STANDARD;
      Untouched@removed(ready);
      Untouched@removed(sleeping);
    }

    /** Put the running process back on the ready queue and dispatch. */
    method Expire()
      requires Valid() && OffQueues(current) && current.state != Killed
      modifies this`current, ready, ptable`next, ptable`state, ptable`ticks
      ensures Valid() && OffQueues(current) && current.state == Running
      ensures sleeping.contents == old(sleeping.contents) && SleepersKept()
      ensures var q := Enqueue(old(ready.contents), old(RunningEntry()));
              && q != [] && RunningEntry() == q[0] && current.ticks == QUANTUM_STANDARD
              && ready.contents == q[1..]
    {
      Schedule(current);
      assert ready.contents[0].item == ready.spine[0] && ready.contents[0].key == KeyOf(ready.spine[0], Prio);
      DispatchNext();
    }

    /** The state that a tick works on. */
    ghost function State(): Sched<Pcb>
      requires current != null
      reads this`current, current, ready
    {
      Sched(RunningEntry(), current.ticks, ready.contents)
    }

    /** Take a tick from the running process and replace it when its quantum is used up. */
    method Charge()
      requires Valid() && OffQueues(current) && current.ticks >= 1 && current.state != Killed
      modifies this`current, ready, ptable`next, ptable`state, ptable`ticks
      ensures Valid() && OffQueues(current)
      ensures sleeping.contents == old(sleeping.contents) && State() == Tick(old(State())) && SleepersKept()
      ensures current.state == if old(current.ticks) == 1 then Running else old(current.state)
      ensures forall p :: p in old(ready.spine) ==> p in ready.spine || p == current
    {
      current.ticks := current.ticks - 1;
      if current.ticks < 1 {
        Expire();
      }
      StillSomewhere();
    }

    /** What the handler needs at every interrupt, and keeps: a running process with ticks left, and
        nobody killed among it and the sleepers. */
    ghost predicate Ticking()
      reads this, ready, sleeping, ptable, sleeping.spine, current
    {
      && Valid() && OffQueues(current) && current.ticks >= 1 && current.state != Killed
      && forall p :: p in sleeping.spine ==> p.state != Killed
    }

    /** The clock interrupt: advance the time, wake the due sleepers in order, then charge the
        running process for a tick and replace it when its quantum is used up. */
    method ClkIsr()
      requires Ticking()
      modifies this, ready, sleeping, ptable`next, ptable`state, ptable`ticks
      ensures Ticking() && systemTime == (old(systemTime) + 1) % TWO_32
      ensures forall p :: p in old(sleeping.spine) ==> (p in sleeping.spine <==> p.wakeup > systemTime)
      ensures forall p :: p in old(sleeping.spine) && p.wakeup <= systemTime ==> p in ready.spine || p == current
      ensures current.state == if old(current.ticks) == 1 then Running else old(current.state)
      ensures var (asleep, awake) := WakeAll(old(sleeping.contents), old(ready.contents), old(Prios()), systemTime);
              sleeping.contents == asleep && State() == Tick(old(State()).(ready := awake))
    {
      systemTime := (systemTime + 1) % TWO_32;
      WakeAndCharge();
    }

    /** The interrupt at the time that has been reached. */
    method WakeAndCharge()
      requires Ticking()
      modifies this`current, ready, sleeping, ptable`next, ptable`state, ptable`ticks
      ensures Ticking()
      ensures forall p :: p in old(sleeping.spine) ==> (p in sleeping.spine <==> p.wakeup > systemTime)
      ensures forall p :: p in old(sleeping.spine) && p.wakeup <= systemTime ==> p in ready.spine || p == current
      ensures current.state == if old(current.ticks) == 1 then Running else old(current.state)
      ensures var (asleep, awake) := WakeAll(old(sleeping.contents), old(ready.contents), old(Prios()), systemTime);
              sleeping.contents == asleep && State() == Tick(old(State()).(ready := awake))
    {
      ghost var s := State();
      WakeExpired();
      assert State() == s.(ready := ready.contents);
      Charge();
    }

    /** A tick loses nobody: who was on the ready queue is there or has the CPU. */
    twostate lemma StillSomewhere()
      requires old(Valid()) && Valid() && old(current) != null && current != null
      requires State() == Tick(old(State()))
      requires forall p :: p in ptable ==> p.priority == old(p.priority)
      ensures forall p :: p in old(ready.spine) ==> p in ready.spine || p == current
    {
      forall p | p in old(ready.spine)
        ensures p in ready.spine || p == current
      {
        var i :| 0 <= i < |old(ready.spine)| && old(ready.spine)[i] == p;
        var e := old(ready.contents)[i];
        assert e.item == p;
        TickConserves(old(State()), e);
        if e in ready.contents {
          var j :| 0 <= j < |ready.contents| && ready.contents[j] == e;
          assert ready.spine[j] == p;
        }
      }
    }

    /** `n` interrupts with nobody asleep are `n` ticks. */
    method Interrupts(n: nat)
      requires Ticking() && sleeping.contents == []
      modifies this, ready, sleeping, ptable`next, ptable`state, ptable`ticks
      ensures Ticking() && sleeping.contents == [] && State() == Ticks(old(State()), n)
    {
      var i := 0;
      while i < n
        invariant 0 <= i <= n && Ticking() && sleeping.contents == [] && State() == Ticks(old(State()), i)
      {
        ClkIsr();
        TicksCompose(old(State()), i, 1);
        i := i + 1;
      }
    }

    /** Round robin, by the handler: with nobody asleep, a ready process with `i` peers ahead of it has the
        CPU after the rest of the running quantum and `i` whole quanta. */
    method PeerRuns(i: nat)
      requires Ticking() && sleeping.contents == [] && i < |ready.contents|
      requires forall j :: 0 <= j <= i ==> ready.contents[j].key == current.priority
      modifies this, ready, sleeping, ptable`next, ptable`state, ptable`ticks
      ensures Ticking() && sleeping.contents == []
      ensures current == old(ready.contents)[i].item && current.ticks == QUANTUM_STANDARD == 3
    {
      ghost var s := State();
      StateFacts();
      assert s.ready[0].key == s.cur.key;
      HeadIsLeast(s.ready);
      RoundRobin(s, i);
      Interrupts(current.ticks + QUANTUM_STANDARD * i);
    }

    /** The contents of the ready queue are in order and different from each other and the running process. */
    lemma StateFacts()
      requires Valid() && OffQueues(current)
      ensures Sorted(State().ready) && AllDistinct(State())
    {
    }
  }
}
