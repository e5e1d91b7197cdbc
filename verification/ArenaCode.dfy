/** The allocator code of module PageAllocator driven by its clients: every operation, performed on the
    linked lists in memory, is the step of module Arena, so what is proved of all runs there holds of it.
 */
module ArenaCode {
  import opened Defs
  import opened FreeList
  import opened PageAllocator
  import opened Arena

  /** A slice that exists lies within a carved page. */
  lemma SliceInPage(p: Pool, s: nat) returns (k: nat)
    requires Inv(p) && (s in p.slices || s in p.liveSlices)
    ensures k < |p.carved| && Held(p)[|p.live| + k] == p.carved[k]
    ensures p.carved[k].addr <= s && s + SZ_SLICE <= p.carved[k].End()
  {
    k :| 0 <= k < |p.carved| && SliceOf(p.carved[k], s);
  }

  /** A block held by a client contains no slice. */
  lemma LiveIsOff(p: Pool, i: nat)
    requires Inv(p) && i < |p.live|
    ensures BlockOff(p.live[i].addr, p.live[i].pages, p.slices)
    ensures Releasable(p.free, p.live[i].addr, p.live[i].pages)
  {
    var b := p.live[i];
    assert Held(p)[i] == b && Block(b.addr, b.pages) == b;
    forall s | s in p.slices
      ensures s + SZ_SLICE <= b.addr || b.End() <= s
    {
      var k := SliceInPage(p, s);
      HeldApart(p, i, |p.live| + k);
    }
  }

  /** A slice held by a client overlaps neither the free pages nor the free slices. */
  lemma LiveSliceIsOff(p: Pool, s: nat)
    requires Inv(p) && s in p.liveSlices
    ensures s != NULL && SlicesOff(p.free, [s])
    ensures forall t :: t in p.slices ==> SlicesDisjoint(s, t)
  {
    var k := SliceInPage(p, s);
    var page := p.carved[k];
    assert Releasable(p.free, page.addr, page.pages) && Block(page.addr, page.pages) == page;
    forall b | SliceHas(s, b)
      ensures !Free(p.free, b)
    {
      assert page.Has(b);
    }
    forall t | t in p.slices
      ensures SlicesDisjoint(s, t)
    {
      SlicesApart(p, s, t);
    }
  }

  class Clients {
    const kmem: Kmem
    var live: seq<Block>           // the page blocks held
    var liveSlices: set<nat>       // the slices held
    ghost var carved: seq<Block>   // the pages that were turned into slices

    ghost function Abs(): Pool
      reads this, kmem
    {
      Pool(kmem.list, kmem.nPages, live, carved, kmem.slices, liveSlices, kmem.nSlices)
    }

    ghost predicate Valid()
      reads this, kmem
    {
      kmem.Valid() && Inv(Abs())
    }

    /** Nobody holds anything yet. */
    constructor (kmem: Kmem)
      requires kmem.Valid() && Coalesced(kmem.list) && kmem.slices == [] && kmem.nSlices == 0
      requires forall b :: Free(kmem.list, b) ==> b < TWO_32
      ensures Valid() && this.kmem == kmem && Abs() == Pool(kmem.list, kmem.nPages, [], [], [], {}, 0)
    {
      this.kmem := kmem;
      live, liveSlices, carved := [], {}, [];
    }

    method TakePages(n: nat)
      requires Valid()
      modifies this`live, kmem
      ensures Valid() && Abs() == Step(old(Abs()), AllocPages(n))
    {
      StepIsSafe(Abs(), AllocPages(n));
      if n >= 1 {
        AllocCorrect(kmem.list, n);
      }
      var a := kmem.PageAlloc(n);
      if a != NULL {
        live := [Block(a, n)] + live;
      }
    }

    /** Regard a held block as two. */
    method Cut(i: nat, k: nat)
      requires Valid()
      modifies this`live
      ensures Valid() && Abs() == Step(old(Abs()), Split(i, k))
    {
      StepIsSafe(Abs(), Split(i, k));
      if i < |live| && 0 < k < live[i].pages {
        var b := live[i];
        live := live[..i] + [Block(b.addr, k), Block(b.addr + k * SZ_PAGE, b.pages - k)] + live[i + 1..];
      }
    }

    method GivePages(i: nat)
      requires Valid()
      modifies this`live, kmem
      ensures Valid() && Abs() == Step(old(Abs()), FreePages(i))
    {
      StepIsSafe(Abs(), FreePages(i));
      if i < |live| {
        LiveIsOff(Abs(), i);
        kmem.PageFreeMulti(live[i].addr, live[i].pages);
        live := Without(live, i);
      }
    }

    method TakeSlice()
      requires Valid()
      modifies this`liveSlices, this`carved, kmem
      ensures Valid() && Abs() == Step(old(Abs()), AllocSlice)
    {
      ghost var p := Abs();
      StepIsSafe(p, AllocSlice);
      var ok, s := kmem.SliceAlloc();
      if ok {
        liveSlices := {s} + liveSlices;
        if p.slices == [] {
          carved := [Block(AllocAddr(p.free, 1), 1)] + carved;
          assert ([s] + kmem.slices)[1..] == kmem.slices && ([s] + kmem.slices)[0] == s;
        } else {
          assert p.slices[1..] == kmem.slices && p.slices[0] == s;
        }
      }
    }

    method GiveSlice(s: nat)
      requires Valid()
      modifies this`liveSlices, kmem
      ensures Valid() && Abs() == Step(old(Abs()), FreeSlice(s))
    {
      StepIsSafe(Abs(), FreeSlice(s));
      if s in liveSlices {
        LiveSliceIsOff(Abs(), s);
        kmem.SliceFree(s);
        liveSlices := liveSlices - {s};
      }
    }

    /** Any operation of a client. */
    method Perform(op: Op)
      requires Valid()
      modifies this, kmem
      ensures Valid() && Abs() == Step(old(Abs()), op)
    {
      match op
      case AllocPages(n) => TakePages(n);
      case Split(i, k) => Cut(i, k);
      case FreePages(i) => GivePages(i);
      case AllocSlice => TakeSlice();
      case FreeSlice(s) => GiveSlice(s);
    }

    /** Any sequence of operations. */
    method PerformAll(ops: seq<Op>)
      requires Valid()
      modifies this, kmem
      ensures Valid() && Abs() == Run(old(Abs()), ops)
      decreases |ops|
    {
      if ops != [] {
        Perform(ops[0]);
        PerformAll(ops[1..]);
      }
    }
  }
}
