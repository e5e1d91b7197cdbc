/** The parent tree: while init does not exit, every process in use reaches init through processes
    in use, zombies have no children, and no process in use points at a reclaimed entry.
 */
module ProcTree {
  import opened Defs
  import opened FreeList
  import opened ProcTable

  /** `rank` decreases from child to parent, down to init, which is its own parent.  Parents are in
      use and not zombies. */
  ghost predicate Ranked(procs: seq<Proc>, init: nat, rank: seq<nat>) {
    && init < |procs| && |rank| == |procs|
    && procs[init].state !in {Unused, Killed, Zombie} && procs[init].parent == init
    && forall i {:trigger ParentOk(procs, init, rank, i)} :: InUse(procs, i) ==> ParentOk(procs, init, rank, i)
  }

  ghost predicate ParentOk(procs: seq<Proc>, init: nat, rank: seq<nat>, i: nat)
    requires i < |procs| == |rank|
  {
    var p := procs[i].parent;
    InUse(procs, p) && !IsZombie(procs, p) && (i != init ==> rank[p] < rank[i])
  }

  ghost predicate Tree(procs: seq<Proc>, init: nat) {
    exists rank :: Ranked(procs, init, rank)
  }

  ghost predicate NoChildren(procs: seq<Proc>, v: int) {
    forall i :: InUse(procs, i) ==> procs[i].parent != v
  }

  /** The parent, `n` generations up. */
  function Ancestor(procs: seq<Proc>, i: int, n: nat): int
    decreases n
  {
    if n == 0 || !(0 <= i < |procs|) then i else Ancestor(procs, procs[i].parent, n - 1)
  }

  /** In a tree, following parents from any process in use stays within processes in use that
      are not zombies and ends at init. */
  lemma {:induction false} ReachesInit(procs: seq<Proc>, init: nat, rank: seq<nat>, i: nat) returns (n: nat)
    requires Ranked(procs, init, rank) && InUse(procs, i)
    ensures Ancestor(procs, i, n) == init
    ensures forall m :: 0 < m <= n ==> InUse(procs, Ancestor(procs, i, m)) && !IsZombie(procs, Ancestor(procs, i, m))
    decreases rank[i]
  {
    if i == init {
      n := 0;
    } else {
      assert ParentOk(procs, init, rank, i);
      var p := procs[i].parent;
      var n' := ReachesInit(procs, init, rank, p);
      n := n' + 1;
      forall m | 0 < m <= n
        ensures InUse(procs, Ancestor(procs, i, m)) && !IsZombie(procs, Ancestor(procs, i, m))
      {
        assert Ancestor(procs, i, m) == Ancestor(procs, p, m - 1);
      }
    }
  }

  // ----- what each change of the table does to the tree

  lemma ZombieHasNoChildren(procs: seq<Proc>, init: nat, rank: seq<nat>, z: nat)
    requires Ranked(procs, init, rank) && IsZombie(procs, z)
    ensures NoChildren(procs, z)
  {
    forall i | InUse(procs, i)
      ensures procs[i].parent != z
    {
      assert ParentOk(procs, init, rank, i);
    }
  }

  /** The loop misses no child: the parent it skips cannot also be a child. */
  lemma ReparentTree(procs: seq<Proc>, init: nat, rank: seq<nat>, v: nat)
    requires Ranked(procs, init, rank) && v != init && InUse(procs, v)
    ensures Ranked(Reparent(procs, v, init, |procs|), init, rank)
    ensures NoChildren(Reparent(procs, v, init, |procs|), v)
  {
    var r := Reparent(procs, v, init, |procs|);
    assert ParentOk(procs, init, rank, v);
    forall i | InUse(r, i)
      ensures ParentOk(r, init, rank, i) && r[i].parent != v
    {
      assert ParentOk(procs, init, rank, i);
      if i != init {
        RanksAboveInit(procs, init, rank, i);
      }
    }
  }

  lemma {:induction false} RanksAboveInit(procs: seq<Proc>, init: nat, rank: seq<nat>, i: nat)
    requires Ranked(procs, init, rank) && InUse(procs, i) && i != init
    ensures rank[init] < rank[i]
    decreases rank[i]
  {
    assert ParentOk(procs, init, rank, i);
    if procs[i].parent != init {
      RanksAboveInit(procs, init, rank, procs[i].parent);
    }
  }

  /** An entry without children can become unused or a zombie. */
  lemma DropTree(procs: seq<Proc>, init: nat, rank: seq<nat>, i: nat, s: State)
    requires Ranked(procs, init, rank) && i < |procs| && i != init && NoChildren(procs, i) && s in {Unused, Zombie}
    requires s == Zombie ==> InUse(procs, i)
    ensures Ranked(WithState(procs, i, s), init, rank)
    ensures forall v :: NoChildren(procs, v) ==> NoChildren(WithState(procs, i, s), v)
  {
    var r := WithState(procs, i, s);
    forall c | InUse(r, c)
      ensures ParentOk(r, init, rank, c)
    {
      assert ParentOk(procs, init, rank, c);
    }
    forall v, c | NoChildren(procs, v) && InUse(r, c)
      ensures r[c].parent != v
    {
      assert InUse(procs, c);
    }
  }

  /** `r` has the same parents as `procs`, and nobody is born, reclaimed or turned into a zombie. */
  ghost predicate SameTree(procs: seq<Proc>, r: seq<Proc>) {
    && |r| == |procs|
    && forall i :: 0 <= i < |procs| ==>
         && r[i].parent == procs[i].parent
         && (r[i].state == Unused <==> procs[i].state == Unused)
         && (r[i].state == Zombie <==> procs[i].state == Zombie)
  }

  lemma SameTreeTree(procs: seq<Proc>, r: seq<Proc>, init: nat, rank: seq<nat>)
    requires Ranked(procs, init, rank) && SameTree(procs, r) && r[init].state != Killed
    ensures Ranked(r, init, rank)
    ensures forall v :: NoChildren(procs, v) ==> NoChildren(r, v)
  {
    forall c | InUse(r, c)
      ensures ParentOk(r, init, rank, c)
    {
      assert InUse(procs, c);
      assert ParentOk(procs, init, rank, c);
    }
    forall v, c | NoChildren(procs, v) && InUse(r, c)
      ensures r[c].parent != v
    {
      assert InUse(procs, c);
    }
  }

  /** Waking `to` and reclaiming a `child` that has no children. */
  lemma DeliverTree(k: Kernel, rank: seq<nat>, to: nat, child: nat)
    requires Ranked(k.procs, k.init, rank) && to < |k.procs| && child < |k.procs| && child != k.init
    requires k.procs[to].state == Waiting && NoChildren(k.procs, child)
    ensures Ranked(Deliver(k, to, child).procs, k.init, rank)
    ensures forall v :: NoChildren(k.procs, v) ==> NoChildren(Deliver(k, to, child).procs, v)
  {
    var r := WithState(WithRet(k.procs, to, k.procs[child].pid), to, Ready);
    SameTreeTree(k.procs, r, k.init, rank);
    DropTree(r, k.init, rank, child, Unused);
  }

  lemma GiveToInitTree(k: Kernel, rank: seq<nat>, v: nat)
    requires Ranked(k.procs, k.init, rank) && v != k.init && InUse(k.procs, v) && !IsZombie(k.procs, v)
    ensures var k' := GiveToInit(k, v);
            Ranked(k'.procs, k.init, rank) && NoChildren(k'.procs, v) && InUse(k'.procs, v)
  {
    ReparentTree(k.procs, k.init, rank, v);
    var z := ZombieOrphan(k.procs, v, |k.procs|);
    var k1 := k.(procs := Reparent(k.procs, v, k.init, |k.procs|));
    if z >= 0 && k1.procs[k.init].state == Waiting {
      ZombieHasNoChildren(k1.procs, k.init, rank, z);
      DeliverTree(k1, rank, k.init, z);
    }
  }

  lemma ZombifyTree(k: Kernel, rank: seq<nat>, v: nat)
    requires Ranked(k.procs, k.init, rank) && v != k.init && InUse(k.procs, v) && !IsZombie(k.procs, v)
    requires 0 <= k.procs[v].parent < |k.procs|
    ensures Ranked(Zombify(k, v).procs, k.init, rank)
  {
    GiveToInitTree(k, rank, v);
    var p := k.procs[v].parent;
    var k2 := GiveToInit(k, v).(deaths := k.deaths + [DeathOf(k.procs[v])]);
    if WaitsFor(k2.procs[p], k2.procs[v].pid) {
      DeliverTree(k2, rank, p, v);
    } else {
      DropTree(k2.procs, k.init, rank, v, Zombie);
    }
  }

  lemma ForkTree(k: Kernel, rank: seq<nat>, p: nat, slot: nat)
    requires Ranked(k.procs, k.init, rank) && p < |k.procs| && slot < |k.procs|
    requires k.procs[p].state == Running && k.procs[slot].state == Unused
    ensures Ranked(Fork(k, p, slot).procs, k.init, rank[slot := rank[p] + 1]) ||
            Ranked(Fork(k, p, slot).procs, k.init, rank)
  {
    var r := Fork(k, p, slot).procs;
    if AllocOk(k) {
      var rank' := rank[slot := rank[p] + 1];
      forall i | InUse(r, i)
        ensures ParentOk(r, k.init, rank', i)
      {
        if i != slot {
          assert ParentOk(k.procs, k.init, rank, i);
        }
      }
    } else {
      SameTreeTree(k.procs, r, k.init, rank);
    }
  }

  predicate AllocOk(k: Kernel) {
    AllocAddr(k.free, N_USTKPAGES) != 0
  }

  lemma WaitpidTree(k: Kernel, rank: seq<nat>, p: nat, target: nat)
    requires Ranked(k.procs, k.init, rank) && p < |k.procs| && k.procs[p].state == Running
    ensures Ranked(Waitpid(k, p, target).procs, k.init, rank)
  {
    match WaitOutcome(k.procs, p, target)
    case WaitReap(c) =>
      ZombieHasNoChildren(k.procs, k.init, rank, c);
      var r := WithRet(k.procs, p, k.procs[c].pid);
      SameTreeTree(k.procs, r, k.init, rank);
      DropTree(r, k.init, rank, c, Unused);
    case _ =>
      SameTreeTree(k.procs, Waitpid(k, p, target).procs, k.init, rank);
  }
}
