/** Stack pages across the process table and the page allocator: the stacks of processes in use never
    overlap each other or free memory, and no page is ever lost or counted twice.
 */
module ProcMemory {
  import opened Defs
  import opened FreeList
  import opened ProcTable

  /** The pages recorded by a table entry. */
  function PagesOf(p: Proc): nat {
    if p.state == Unused then 0 else StackOf(p).pages
  }

  function StackPages(procs: seq<Proc>): nat {
    if procs == [] then 0 else PagesOf(procs[0]) + StackPages(procs[1..])
  }

  /** Byte `b` belongs to the stack of the process in entry `i`. */
  predicate OnStack(procs: seq<Proc>, i: int, b: int) {
    InUse(procs, i) && StackOf(procs[i]).Has(b)
  }

  ghost predicate StackOk(free: seq<Block>, procs: seq<Proc>, i: nat)
    requires i < |procs|
  {
    Releasable(free, StackOf(procs[i]).addr, StackOf(procs[i]).pages)
  }

  ghost predicate MemOk(free: seq<Block>, procs: seq<Proc>) {
    && Coalesced(free)
    && (forall i :: InUse(procs, i) ==> StackOk(free, procs, i))
    && (forall i, j, b :: OnStack(procs, i, b) && OnStack(procs, j, b) ==> i == j)
  }

  /** Byte `b` is free or on somebody's stack. */
  ghost predicate Accounted(free: seq<Block>, procs: seq<Proc>, b: int) {
    Free(free, b) || exists i :: OnStack(procs, i, b)
  }

  function Total(k: Kernel): nat {
    Pages(k.free) + StackPages(k.procs)
  }

  /** Memory stays in order from `k` to `k'`, with the same bytes and the same number of pages. */
  ghost predicate MemStep(k: Kernel, k': Kernel) {
    && MemOk(k'.free, k'.procs)
    && Total(k') == Total(k)
    && forall b :: Accounted(k'.free, k'.procs, b) <==> Accounted(k.free, k.procs, b)
  }

  lemma {:induction false} StackPagesUpdate(procs: seq<Proc>, i: nat, p: Proc)
    requires i < |procs|
    ensures StackPages(procs[i := p]) == StackPages(procs) - PagesOf(procs[i]) + PagesOf(p)
    decreases i
  {
    var r := procs[i := p];
    if i == 0 {
      assert r[1..] == procs[1..];
    } else {
      StackPagesUpdate(procs[1..], i - 1, p);
      assert r[1..] == procs[1..][i - 1 := p];
    }
  }

  // ----- the table changes, the stacks do not

  ghost predicate SameStacks(procs: seq<Proc>, r: seq<Proc>) {
    && |r| == |procs|
    && forall i :: 0 <= i < |procs| ==>
         && (r[i].state == Unused <==> procs[i].state == Unused)
         && StackOf(r[i]) == StackOf(procs[i])
  }

  lemma {:induction false} SameStacksPages(procs: seq<Proc>, r: seq<Proc>)
    requires SameStacks(procs, r)
    ensures StackPages(r) == StackPages(procs)
    decreases |procs|
  {
    if procs != [] {
      SameStacksPages(procs[1..], r[1..]);
    }
  }

  lemma SameStacksMem(k: Kernel, k': Kernel)
    requires MemOk(k.free, k.procs) && SameStacks(k.procs, k'.procs) && k'.free == k.free
    ensures MemStep(k, k')
  {
    SameStacksPages(k.procs, k'.procs);
    forall i, b
      ensures OnStack(k'.procs, i, b) <==> OnStack(k.procs, i, b)
    {
    }
    forall i | InUse(k'.procs, i)
      ensures StackOk(k.free, k'.procs, i)
    {
      assert InUse(k.procs, i);
      assert StackOk(k.free, k.procs, i);
    }
  }

  lemma MemStepCompose(k: Kernel, k1: Kernel, k2: Kernel)
    requires MemStep(k, k1) && MemStep(k1, k2)
    ensures MemStep(k, k2)
  {
  }

  // ----- reclaiming a stack

  lemma CleanUpMem(k: Kernel, i: nat)
    requires MemOk(k.free, k.procs) && InUse(k.procs, i)
    ensures MemStep(k, CleanUp(k, i))
  {
    var k' := CleanUp(k, i);
    var s := StackOf(k.procs[i]);
    assert StackOk(k.free, k.procs, i) && Block(s.addr, s.pages) == s;
    ReleaseFrom(k.free, 0, 1, s.addr, s.pages);
    StackPagesUpdate(k.procs, i, k'.procs[i]);
    forall j, b
      ensures OnStack(k'.procs, j, b) <==> OnStack(k.procs, j, b) && j != i
    {
    }
    forall j | InUse(k'.procs, j)
      ensures StackOk(k'.free, k'.procs, j)
    {
      assert InUse(k.procs, j) && StackOk(k.free, k.procs, j);
      var t := StackOf(k.procs[j]);
      assert Block(t.addr, t.pages) == t;
      forall b | Free(k'.free, b)
        ensures !t.Has(b)
      {
        assert s.Has(b) ==> OnStack(k.procs, i, b);
        assert t.Has(b) ==> OnStack(k.procs, j, b);
      }
    }
    forall b
      ensures Accounted(k'.free, k'.procs, b) <==> Accounted(k.free, k.procs, b)
    {
      if j :| OnStack(k'.procs, j, b) {
        assert OnStack(k.procs, j, b);
      }
      if j :| OnStack(k.procs, j, b) {
        assert j != i ==> OnStack(k'.procs, j, b);
      }
      assert s.Has(b) ==> OnStack(k.procs, i, b);
    }
  }

  // ----- allocating a stack

  /** Giving an unused entry the first `n` contiguous free pages. */
  lemma BirthMem(k: Kernel, k': Kernel, slot: nat, n: nat)
    requires MemOk(k.free, k.procs) && slot < |k.procs| && k.procs[slot].state == Unused && n >= 1
    requires AllocAddr(k.free, n) != 0 && k'.free == AllocRest(k.free, n)
    requires |k'.procs| == |k.procs| && InUse(k'.procs, slot) && StackOf(k'.procs[slot]) == Block(AllocAddr(k.free, n), n)
    requires k'.procs == k.procs[slot := k'.procs[slot]]
    ensures MemStep(k, k')
  {
    var s := StackOf(k'.procs[slot]);
    CoalescedIsOrdered(k.free);
    AllocKeepsOrder(k.free, 0, 1, n);
    FreeList.AllocPages(k.free, n);
    StackPagesUpdate(k.procs, slot, k'.procs[slot]);
    forall b
      ensures Free(k'.free, b) <==> Free(k.free, b) && !s.Has(b)
      ensures s.Has(b) ==> Free(k.free, b)
    {
      AllocFree(k.free, 1, 0, n, b);
    }
    AllocFree(k.free, 1, 0, n, 0);
    forall j, b
      ensures OnStack(k'.procs, j, b) <==> OnStack(k.procs, j, b) || (j == slot && s.Has(b))
      ensures OnStack(k.procs, j, b) ==> j != slot && !Free(k.free, b)
    {
      if OnStack(k.procs, j, b) {
        assert StackOk(k.free, k.procs, j);
        assert Block(StackOf(k.procs[j]).addr, StackOf(k.procs[j]).pages).Has(b);
      }
    }
    forall j | InUse(k'.procs, j)
      ensures StackOk(k'.free, k'.procs, j)
    {
      assert j != slot ==> InUse(k.procs, j) && StackOk(k.free, k.procs, j);
      assert j == slot ==> Block(s.addr, s.pages) == s;
    }
    forall b
      ensures Accounted(k'.free, k'.procs, b) <==> Accounted(k.free, k.procs, b)
    {
      if j :| OnStack(k.procs, j, b) {
        assert OnStack(k'.procs, j, b);
      }
      assert s.Has(b) ==> OnStack(k'.procs, slot, b);
    }
  }

  // ----- the operations

  lemma DeliverMem(k: Kernel, to: nat, child: nat)
    requires MemOk(k.free, k.procs) && InUse(k.procs, to) && InUse(k.procs, child)
    ensures MemStep(k, Deliver(k, to, child))
  {
    var c := k.procs[child];
    var k1 := k.(procs := WithState(WithRet(k.procs, to, c.pid), to, Ready),
                 deliveries := k.deliveries + [Delivery(to, DeathOf(c))]);
    SameStacksMem(k, k1);
    CleanUpMem(k1, child);
    MemStepCompose(k, k1, CleanUp(k1, child));
  }

  lemma GiveToInitMem(k: Kernel, v: nat)
    requires MemOk(k.free, k.procs) && v < |k.procs| && InUse(k.procs, k.init)
    ensures MemStep(k, GiveToInit(k, v))
  {
    var z := ZombieOrphan(k.procs, v, |k.procs|);
    var k1 := k.(procs := Reparent(k.procs, v, k.init, |k.procs|));
    SameStacksMem(k, k1);
    if z >= 0 && k1.procs[k.init].state == Waiting {
      DeliverMem(k1, k.init, z);
      MemStepCompose(k, k1, Deliver(k1, k.init, z));
    }
  }

  lemma TellParentMem(k: Kernel, v: nat, p: nat)
    requires MemOk(k.free, k.procs) && InUse(k.procs, v) && p < |k.procs|
    ensures MemStep(k, TellParent(k, v, p))
  {
    if WaitsFor(k.procs[p], k.procs[v].pid) {
      DeliverMem(k, p, v);
    } else {
      SameStacksMem(k, TellParent(k, v, p));
    }
  }

  lemma ZombifyMem(k: Kernel, v: nat)
    requires MemOk(k.free, k.procs) && InUse(k.procs, v) && !IsZombie(k.procs, v) && v != k.init && InUse(k.procs, k.init)
    requires 0 <= k.procs[v].parent < |k.procs|
    ensures MemStep(k, Zombify(k, v))
  {
    GiveToInitMem(k, v);
    var k1 := GiveToInit(k, v);
    var k2 := k1.(deaths := k.deaths + [DeathOf(k.procs[v])]);
    assert InUse(k1.procs, v);
    SameStacksMem(k1, k2);
    MemStepCompose(k, k1, k2);
    TellParentMem(k2, v, k.procs[v].parent);
    MemStepCompose(k, k2, Zombify(k, v));
  }

  lemma WaitpidMem(k: Kernel, p: nat, target: nat)
    requires MemOk(k.free, k.procs) && InUse(k.procs, p)
    ensures MemStep(k, Waitpid(k, p, target))
  {
    match WaitOutcome(k.procs, p, target)
    case WaitReap(c) =>
      var d := Delivery(p, DeathOf(k.procs[c]));
      var k1 := k.(procs := WithRet(k.procs, p, k.procs[c].pid), deliveries := k.deliveries + [d]);
      SameStacksMem(k, k1);
      CleanUpMem(k1, c);
      MemStepCompose(k, k1, Waitpid(k, p, target));
    case _ =>
      SameStacksMem(k, Waitpid(k, p, target));
  }

  lemma ForkMem(k: Kernel, p: nat, slot: nat)
    requires MemOk(k.free, k.procs) && InUse(k.procs, p) && slot < |k.procs| && k.procs[slot].state == Unused
    ensures MemStep(k, Fork(k, p, slot))
  {
    var a := AllocAddr(k.free, N_USTKPAGES);
    var k' := Fork(k, p, slot);
    if a == 0 {
      SameStacksMem(k, k');
    } else {
      var k1 := k'.(procs := k.procs[slot := k'.procs[slot]]);
      BirthMem(k, k1, slot, N_USTKPAGES);
      SameStacksMem(k1, k');
      MemStepCompose(k, k1, k');
    }
  }

  /** Exec allocates the new stack while it still holds the old one.  Seen as a birth in a spare
      entry, the reclaiming of the old entry and a renumbering, it conserves memory. */
  lemma ExecMem(k: Kernel, p: nat)
    requires MemOk(k.free, k.procs) && InUse(k.procs, p)
    ensures MemStep(k, Exec(k, p))
  {
    var a := AllocAddr(k.free, N_USTKPAGES);
    if a == 0 {
      SameStacksMem(k, k);
    } else {
      var spare := k.procs[p].(state := Unused);
      var k0 := k.(procs := k.procs + [spare]);
      AddSpare(k, spare);
      var n := |k.procs|;
      var k1 := k0.(procs := k0.procs[n := k.procs[p].(state := Ready, stack := a, stkpgs := N_USTKPAGES)],
                    free := AllocRest(k.free, N_USTKPAGES));
      BirthMem(k0, k1, n, N_USTKPAGES);
      CleanUpMem(k1, p);
      var k2 := CleanUp(k1, p);
      MemStepCompose(k0, k1, k2);
      var k' := Exec(k, p);
      assert k2.free == k'.free;
      MoveSpare(k2, k', p);
      MemSame(k, k0, k2, k');
    }
  }

  /** Adding an unused entry changes nothing. */
  lemma AddSpare(k: Kernel, spare: Proc)
    requires MemOk(k.free, k.procs) && spare.state == Unused
    ensures MemStep(k, k.(procs := k.procs + [spare]))
  {
    var r := k.procs + [spare];
    StackPagesAppend(k.procs, spare);
    forall i, b
      ensures OnStack(r, i, b) <==> OnStack(k.procs, i, b)
    {
    }
    forall i | InUse(r, i)
      ensures StackOk(k.free, r, i)
    {
      assert InUse(k.procs, i) && StackOk(k.free, k.procs, i);
    }
  }

  lemma {:induction false} StackPagesAppend(procs: seq<Proc>, p: Proc)
    ensures StackPages(procs + [p]) == StackPages(procs) + PagesOf(p)
    decreases |procs|
  {
    if procs == [] {
      assert (procs + [p])[1..] == [];
    } else {
      assert (procs + [p])[1..] == procs[1..] + [p];
      StackPagesAppend(procs[1..], p);
    }
  }

  /** The last entry of `k` takes the place of its unused entry `p` in `k'`. */
  lemma MoveSpare(k: Kernel, k': Kernel, p: nat)
    requires MemOk(k.free, k.procs) && k'.free == k.free && |k.procs| == |k'.procs| + 1 && p < |k'.procs|
    requires k.procs[p].state == Unused
    requires k'.procs == k.procs[..|k'.procs|][p := k.procs[|k'.procs|]]
    ensures MemStep(k, k')
  {
    var n := |k'.procs|;
    var base := k.procs[..n];
    assert k.procs == base + [k.procs[n]];
    StackPagesAppend(base, k.procs[n]);
    StackPagesUpdate(base, p, k.procs[n]);
    forall i, b
      ensures OnStack(k'.procs, i, b) <==> 0 <= i < n && OnStack(k.procs, if i == p then n else i, b)
    {
    }
    forall i | InUse(k'.procs, i)
      ensures StackOk(k.free, k'.procs, i)
    {
      var i' := if i == p then n else i;
      assert InUse(k.procs, i') && StackOk(k.free, k.procs, i');
    }
    forall b
      ensures Accounted(k'.free, k'.procs, b) <==> Accounted(k.free, k.procs, b)
    {
      if i :| OnStack(k.procs, i, b) {
        assert OnStack(k'.procs, if i == n then p else i, b);
      }
      if i :| OnStack(k'.procs, i, b) {
        assert OnStack(k.procs, if i == p then n else i, b);
      }
    }
  }

  lemma MemSame(k: Kernel, k0: Kernel, k2: Kernel, k': Kernel)
    requires MemStep(k, k0) && MemStep(k0, k2) && MemStep(k2, k')
    ensures MemStep(k, k')
  {
    MemStepCompose(k, k0, k2);
    MemStepCompose(k, k2, k');
  }
}
