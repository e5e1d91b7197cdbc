/** The process life cycle of procs.c and syscalls.c at the level of the process table: fork, exec,
    exit, waitpid and kill as functions on the table, the page pool and the history of
    terminations and of exit statuses handed to parents.
 */
module ProcTable {
  import opened Defs
  import opened FreeList

  const NULL_PARENT := -1
  const NOBODY := -1
  const N_USTKPAGES := 2
  const FIRST_USER_PID := 2
  const PID_INIT := 1

  /** A table entry.  `parent` is the index of the parent's entry; `target` the pid given to the
      waitpid call that a Waiting process is blocked in; `ret` the return value of its last call.
      `serial` is history that the kernel never reads: how many processes were created before this one.
      Unlike pids, which wrap around after 2^32 forks, serial numbers are never used again. */
  datatype Proc = Proc(
    state: State,
    parent: int,
    pid: nat,
    exitStatus: int,
    target: nat,
    ret: int,
    stack: nat,
    stkpgs: nat,
    serial: nat
  )

  /** A process terminated with this status. */
  datatype Death = Death(serial: nat, pid: nat, status: int)

  /** The process in slot `to` was told of this termination. */
  datatype Delivery = Delivery(to: nat, death: Death)

  /** `current` is the entry of the process that has the CPU, or NOBODY; `deaths`, `deliveries` and `born`
      are history. */
  datatype Kernel = Kernel(
    procs: seq<Proc>,
    init: nat,
    nextPid: nat,
    free: seq<Block>,
    deaths: seq<Death>,
    deliveries: seq<Delivery>,
    born: nat,
    current: int
  )

  predicate InUse(procs: seq<Proc>, i: int) {
    0 <= i < |procs| && procs[i].state != Unused
  }

  predicate IsZombie(procs: seq<Proc>, i: int) {
    0 <= i < |procs| && procs[i].state == Zombie
  }

  function WithState(procs: seq<Proc>, i: nat, s: State): seq<Proc>
    requires i < |procs|
  {
    procs[i := procs[i].(state := s)]
  }

  function WithRet(procs: seq<Proc>, i: nat, r: int): seq<Proc>
    requires i < |procs|
  {
    procs[i := procs[i].(ret := r)]
  }

  /** The stack of entry `i`; a recorded size of 0 stands for the default size. */
  function StackOf(p: Proc): Block {
    Block(p.stack, if p.stkpgs == 0 then N_USTKPAGES else p.stkpgs)
  }

  /** What there is to tell about a terminated process. */
  function DeathOf(p: Proc): Death {
    Death(p.serial, p.pid, p.exitStatus)
  }

  // ----- termination

  /** Return the stack to the pool and mark the entry unused. */
  function CleanUp(k: Kernel, i: nat): Kernel
    requires i < |k.procs|
  {
    var s := StackOf(k.procs[i]);
    k.(procs := WithState(k.procs, i, Unused), free := Release(k.free, s.addr, s.pages))
  }

  /** Tell the waiting process `to` about the terminated `child`, make it ready, reclaim the child. */
  function Deliver(k: Kernel, to: nat, child: nat): Kernel
    requires to < |k.procs| && child < |k.procs|
  {
    var c := k.procs[child];
    CleanUp(k.(procs := WithState(WithRet(k.procs, to, c.pid), to, Ready),
               deliveries := k.deliveries + [Delivery(to, DeathOf(c))]), child)
  }

  /** Entry `i` is a child of `v` that the reparenting loop considers: it skips `v`'s own parent. */
  predicate Orphan(procs: seq<Proc>, v: nat, i: int)
    requires v < |procs|
  {
    InUse(procs, i) && i != procs[v].parent && procs[i].parent == v
  }

  function Reparent(procs: seq<Proc>, v: nat, init: nat, n: nat): (r: seq<Proc>)
    requires v < |procs| && n <= |procs|
    ensures |r| == |procs|
    ensures forall i :: 0 <= i < |procs| ==>
              r[i] == if i < n && Orphan(procs, v, i) then procs[i].(parent := init) else procs[i]
  {
    if n == 0 then procs
    else
      var r := Reparent(procs, v, init, n - 1);
      if Orphan(procs, v, n - 1) then r[n - 1 := procs[n - 1].(parent := init)] else r
  }

  /** The last zombie among the orphans below `n`, or -1. */
  function ZombieOrphan(procs: seq<Proc>, v: nat, n: nat): (z: int)
    requires v < |procs| && n <= |procs|
    ensures z == -1 || (0 <= z < n && Orphan(procs, v, z) && IsZombie(procs, z))
    ensures forall i :: 0 <= i < n && Orphan(procs, v, i) && IsZombie(procs, i) ==> i <= z
  {
    if n == 0 then -1
    else if Orphan(procs, v, n - 1) && IsZombie(procs, n - 1) then n - 1
    else ZombieOrphan(procs, v, n - 1)
  }

  /** The children of `v` go to init, and a zombie among them wakes init if it waits. */
  function GiveToInit(k: Kernel, v: nat): (k': Kernel)
    requires v < |k.procs| && k.init < |k.procs|
    ensures |k'.procs| == |k.procs| && k'.init == k.init && k'.nextPid == k.nextPid && k'.born == k.born
  {
    var z := ZombieOrphan(k.procs, v, |k.procs|);
    var k1 := k.(procs := Reparent(k.procs, v, k.init, |k.procs|));
    if z >= 0 && k1.procs[k.init].state == Waiting then Deliver(k1, k.init, z) else k1
  }

  predicate WaitsFor(parent: Proc, pid: nat) {
    parent.state == Waiting && (parent.target == 0 || parent.target == pid)
  }

  /** Wake a parent that waits for `v`, reclaiming `v`; otherwise `v` becomes a zombie. */
  function TellParent(k: Kernel, v: nat, p: nat): (k': Kernel)
    requires v < |k.procs| && p < |k.procs|
    ensures |k'.procs| == |k.procs| && k'.init == k.init && k'.nextPid == k.nextPid && k'.born == k.born
  {
    if WaitsFor(k.procs[p], k.procs[v].pid) then Deliver(k, p, v)
    else k.(procs := WithState(k.procs, v, Zombie))
  }

  function Zombify(k: Kernel, v: nat): (k': Kernel)
    requires v < |k.procs| && k.init < |k.procs| && 0 <= k.procs[v].parent < |k.procs|
    ensures |k'.procs| == |k.procs| && k'.init == k.init && k'.nextPid == k.nextPid && k'.born == k.born
  {
    TellParent(GiveToInit(k, v).(deaths := k.deaths + [DeathOf(k.procs[v])]), v, k.procs[v].parent)
  }

  // ----- system calls

  /** First entry in use with this pid, or -1; 0 is nobody's pid. */
  function FindPid(procs: seq<Proc>, pid: nat, n: nat): (i: int)
    requires n <= |procs|
    ensures -1 <= i < n
    ensures i >= 0 ==> InUse(procs, i) && procs[i].pid == pid
    ensures i == -1 && pid >= 1 ==> forall j :: 0 <= j < n && InUse(procs, j) ==> procs[j].pid != pid
  {
    if n == 0 || pid < 1 then -1
    else
      var i := FindPid(procs, pid, n - 1);
      if i >= 0 then i
      else if InUse(procs, n - 1) && procs[n - 1].pid == pid then n - 1
      else -1
  }

  /** First zombie whose parent is `p`, or -1. */
  function ZombieChild(procs: seq<Proc>, p: nat, n: nat): (i: int)
    requires n <= |procs|
    ensures -1 <= i < n
    ensures i >= 0 ==> IsZombie(procs, i) && procs[i].parent == p
    ensures i == -1 ==> forall j :: 0 <= j < n ==> !(IsZombie(procs, j) && procs[j].parent == p)
  {
    if n == 0 then -1
    else
      var i := ZombieChild(procs, p, n - 1);
      if i >= 0 then i
      else if IsZombie(procs, n - 1) && procs[n - 1].parent == p then n - 1
      else -1
  }

  /** Some entry has `p` as its parent; unused entries keep the parent of their last user. */
  predicate HasEntryWithParent(procs: seq<Proc>, p: nat) {
    exists i :: 0 <= i < |procs| && procs[i].parent == p
  }

  /** What a waitpid call finds. */
  datatype WaitResult = WaitError(code: int) | WaitBlock | WaitReap(child: nat)

  function WaitOutcome(procs: seq<Proc>, p: nat, target: nat): (r: WaitResult)
    requires p < |procs|
    ensures r.WaitReap? ==> IsZombie(procs, r.child) && procs[r.child].parent == p
  {
    if target == procs[p].pid then WaitError(E_BAD_PARAM)
    else if target != 0 then
      var c := FindPid(procs, target, |procs|);
      if c < 0 || procs[c].parent != p then WaitError(E_BAD_PARAM)
      else if procs[c].state == Zombie then WaitReap(c)
      else WaitBlock
    else
      var z := ZombieChild(procs, p, |procs|);
      if !HasEntryWithParent(procs, p) then WaitError(E_NO_CHILDREN)
      else if z >= 0 then WaitReap(z)
      else WaitBlock
  }

  function Waitpid(k: Kernel, p: nat, target: nat): Kernel
    requires p < |k.procs|
  {
    match WaitOutcome(k.procs, p, target)
    case WaitError(code) => k.(procs := WithRet(k.procs, p, code))
    case WaitBlock => k.(procs := k.procs[p := k.procs[p].(state := Waiting, target := target)])
    case WaitReap(c) =>
      CleanUp(k.(procs := WithRet(k.procs, p, k.procs[c].pid),
                 deliveries := k.deliveries + [Delivery(p, DeathOf(k.procs[c]))]), c)
  }

  /** `slot` is the entry taken from the free list; without memory for a stack it goes back. */
  function Fork(k: Kernel, p: nat, slot: nat): Kernel
    requires p < |k.procs| && slot < |k.procs|
  {
    var a := AllocAddr(k.free, N_USTKPAGES);
    if a == 0 then k.(procs := WithRet(k.procs, p, E_NO_PROCS))
    else
      var child := k.procs[slot].(state := Ready, parent := p, pid := k.nextPid, ret := 0,
                                  stack := a, stkpgs := N_USTKPAGES, serial := k.born);
      k.(procs := WithRet(k.procs[slot := child], p, k.nextPid), nextPid := (k.nextPid + 1) % TWO_32,
         free := AllocRest(k.free, N_USTKPAGES), born := k.born + 1)
  }

  /** Fork when the free list of PCBs is empty. */
  function ForkNoPcb(k: Kernel, p: nat): Kernel
    requires p < |k.procs|
  {
    k.(procs := WithRet(k.procs, p, E_NO_PROCS))
  }

  /** A new default stack is allocated before the old one is returned; failure is a kernel panic,
      after which there is no further step.  The process goes back to the ready queue. */
  function Exec(k: Kernel, p: nat): Kernel
    requires p < |k.procs|
  {
    var a := AllocAddr(k.free, N_USTKPAGES);
    if a == 0 then k
    else
      var old_ := StackOf(k.procs[p]);
      k.(procs := k.procs[p := k.procs[p].(state := Ready, stack := a, stkpgs := N_USTKPAGES)],
         free := Release(AllocRest(k.free, N_USTKPAGES), old_.addr, old_.pages))
  }

  function Exit(k: Kernel, p: nat, status: int): (k': Kernel)
    requires p < |k.procs| && k.init < |k.procs| && 0 <= k.procs[p].parent < |k.procs|
    ensures |k'.procs| == |k.procs|
  {
    Zombify(k.(procs := k.procs[p := k.procs[p].(exitStatus := status)]), p)
  }

  /** What a kill does: refuse, nothing, mark the victim, terminate somebody at once, or panic. */
  datatype KillResult = KillError(code: int) | KillNothing | KillMark(v: nat) | KillNow(v: nat) | KillPanic

  /** A victim found in state Running terminates the caller: the handler passes its own PCB. */
  function KillOutcome(procs: seq<Proc>, p: nat, pid: nat): (r: KillResult)
    requires p < |procs|
    ensures r.KillMark? || r.KillNow? ==> InUse(procs, r.v) || r.v == p
  {
    if pid == procs[p].pid then KillNow(p)
    else if pid < FIRST_USER_PID then KillError(E_FAILURE)
    else
      var v := FindPid(procs, pid, |procs|);
      if v < 0 then KillError(E_NOT_FOUND)
      else match procs[v].state
        case Killed => KillNothing
        case Zombie => KillNothing
        case Ready => KillMark(v)
        case Sleeping => KillMark(v)
        case Blocked => KillMark(v)
        case Running => KillNow(p)
        case Waiting => KillNow(v)
        case _ => KillPanic
  }

  function Kill(k: Kernel, p: nat, pid: nat): Kernel
    requires p < |k.procs| && k.init < |k.procs|
    requires forall i :: InUse(k.procs, i) ==> 0 <= k.procs[i].parent < |k.procs|
    requires InUse(k.procs, p)
  {
    match KillOutcome(k.procs, p, pid)
    case KillError(code) => k.(procs := WithRet(k.procs, p, code))
    case KillNothing => k.(procs := WithRet(k.procs, p, SUCCESS))
    case KillPanic => k
    case KillMark(v) => k.(procs := WithRet(WithState(k.procs, v, Killed), p, SUCCESS))
    case KillNow(v) =>
      var k' := Exit(k, v, EXIT_KILLED);
      if v == p then k' else k'.(procs := WithRet(k'.procs, p, SUCCESS))
  }

  /** The scheduler: a killed process is terminated, any other becomes ready. */
  function Schedule(k: Kernel, p: nat): Kernel
    requires p < |k.procs| && k.init < |k.procs| && 0 <= k.procs[p].parent < |k.procs|
  {
    if k.procs[p].state == Killed then Zombify(k, p)
    else k.(procs := WithState(k.procs, p, Ready))
  }
}
