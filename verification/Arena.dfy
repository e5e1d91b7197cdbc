/** Whole runs of the allocator of kmem.c: page allocations, legal frees, slice allocations and
    slice frees in any order.  The pool records what the kernel's clients hold, so that the
    invariant can say that nothing is ever handed out twice and nothing is lost.
 */
module Arena {
  import opened Defs
  import opened FreeList
  import opened PageAllocator

  /** `free`, `nPages`, `slices` and `nSlices` are the allocator's own state.  `live` are the page
      blocks its clients hold, `carved` the pages turned into slices, `liveSlices` the slices held. */
  datatype Pool = Pool(
    free: seq<Block>,
    nPages: nat,
    live: seq<Block>,
    carved: seq<Block>,
    slices: seq<nat>,
    liveSlices: set<nat>,
    nSlices: nat
  )

  /** `Split` is a client regarding one of its blocks as two, so that it can free part of it. */
  datatype Op =
    | AllocPages(n: nat)
    | Split(i: nat, k: nat)
    | FreePages(i: nat)
    | AllocSlice
    | FreeSlice(s: nat)

  function Without<T>(s: seq<T>, i: nat): seq<T>
    requires i < |s|
  {
    s[..i] + s[i + 1..]
  }

  /** One operation.  A failed allocation, a kernel panic and an operation on something the
      client does not hold change nothing. */
  function Step(p: Pool, op: Op): Pool {
    match op
    case AllocPages(n) =>
      var a := AllocAddr(p.free, n);
      if n < 1 || a == NULL then p
      else p.(free := AllocRest(p.free, n), nPages := (p.nPages - n) % TWO_32,
              live := [Block(a, n)] + p.live)
    case Split(i, k) =>
      if i < |p.live| && 0 < k < p.live[i].pages
      then
        var b := p.live[i];
        p.(live := p.live[..i] + [Block(b.addr, k), Block(b.addr + k * SZ_PAGE, b.pages - k)] + p.live[i + 1..])
      else p
    case FreePages(i) =>
      if i < |p.live|
      then p.(free := Release(p.free, p.live[i].addr, p.live[i].pages), nPages := (p.nPages + p.live[i].pages) % TWO_32,
              live := Without(p.live, i))
      else p
    case AllocSlice =>
      if p.slices != [] then
        p.(slices := p.slices[1..], liveSlices := {p.slices[0]} + p.liveSlices, nSlices := (p.nSlices - 1) % TWO_32)
      else
        var a := AllocAddr(p.free, 1);
        if a == NULL then p
        else
          var four := CarvedSlices(a);
          p.(free := AllocRest(p.free, 1), nPages := (p.nPages - 1) % TWO_32,
             carved := [Block(a, 1)] + p.carved,
             slices := four[1..], liveSlices := {four[0]} + p.liveSlices, nSlices := (p.nSlices + 7) % TWO_32)
    case FreeSlice(s) =>
      if s in p.liveSlices
      then p.(slices := [s] + p.slices, liveSlices := p.liveSlices - {s}, nSlices := (p.nSlices + 1) % TWO_32)
      else p
  }

  function Run(p: Pool, ops: seq<Op>): Pool
    decreases |ops|
  {
    if ops == [] then p else Run(Step(p, ops[0]), ops[1..])
  }

  /** The blocks held by clients or turned into slices. */
  function Held(p: Pool): seq<Block> {
    p.live + p.carved
  }

  ghost predicate AccountedIn(free: seq<Block>, held: seq<Block>, b: int) {
    Free(free, b) || Free(held, b)
  }

  /** The free list is coalesced and counted, and everything held is disjoint from it and from
      everything else held; it all lies in a 32-bit address space. */
  ghost predicate PagesSafe(free: seq<Block>, nPages: nat, held: seq<Block>) {
    && Coalesced(free) && nPages == Pages(free)
    && AllReleasable(free, held)
    && forall b :: AccountedIn(free, held, b) ==> b < TWO_32
  }

  /** `s` is one of the four slices of the page. */
  predicate SliceOf(page: Block, s: nat) {
    exists q :: 0 <= q < 4 && s == page.addr + q * SZ_SLICE
  }

  /** No slice is free and held, or free twice; the slices in existence are exactly those of the
      carved pages. */
  ghost predicate SlicesSafe(p: Pool) {
    && (forall i, j :: 0 <= i < j < |p.slices| ==> p.slices[i] != p.slices[j])
    && (forall s :: s in p.slices ==> s !in p.liveSlices)
    && (forall s :: s in p.slices || s in p.liveSlices <==> exists k :: 0 <= k < |p.carved| && SliceOf(p.carved[k], s))
    && (forall k :: 0 <= k < |p.carved| ==> p.carved[k].pages == 1)
  }

  /** The slice counter is the list length plus 4 for every carved page. */
  predicate SlicesCounted(p: Pool) {
    p.nSlices == (|p.slices| + 4 * |p.carved|) % TWO_32
  }

  ghost predicate Inv(p: Pool) {
    PagesSafe(p.free, p.nPages, Held(p)) && SlicesSafe(p) && SlicesCounted(p)
  }

  /** Every byte the pool accounts for. */
  ghost predicate Accounted(p: Pool, b: int) {
    AccountedIn(p.free, Held(p), b)
  }

  // ----- sequences of blocks

  lemma {:induction false} FreeAppend(x: seq<Block>, y: seq<Block>, b: int)
    ensures Free(x + y, b) <==> Free(x, b) || Free(y, b)
    decreases |x|
  {
    if x == [] {
      assert x + y == y;
    } else {
      assert (x + y)[1..] == x[1..] + y;
      FreeAppend(x[1..], y, b);
    }
  }

  lemma FreeInsert(x: seq<Block>, k: nat, n: Block, b: int)
    requires k <= |x|
    ensures Free(x[..k] + [n] + x[k..], b) <==> Free(x, b) || n.Has(b)
  {
    FreeAppend(x[..k] + [n], x[k..], b);
    FreeAppend(x[..k], [n], b);
    FreeAppend(x[..k], x[k..], b);
    assert x == x[..k] + x[k..];
    assert [n][1..] == [];
  }

  lemma FreeWithout(x: seq<Block>, i: nat, b: int)
    requires i < |x|
    ensures Free(x, b) <==> Free(Without(x, i), b) || x[i].Has(b)
  {
    FreeInsert(Without(x, i), i, x[i], b);
    assert x == Without(x, i)[..i] + [x[i]] + Without(x, i)[i..];
  }

  // ----- what is handed out stays apart

  lemma OwnNew(free: seq<Block>, x: seq<Block>, k: nat, n: nat)
    requires Coalesced(free) && AllReleasable(free, x) && k <= |x| && n >= 1 && AllocAddr(free, n) != NULL
    ensures AllReleasable(AllocRest(free, n), x[..k] + [Block(AllocAddr(free, n), n)] + x[k..])
  {
    CoalescedIsOrdered(free);
    var new_ := Block(AllocAddr(free, n), n);
    var y := x[..k] + [new_] + x[k..];
    forall b
      ensures Free(AllocRest(free, n), b) <==> Free(free, b) && !new_.Has(b)
      ensures new_.Has(b) ==> Free(free, b)
    {
      AllocFree(free, 1, 0, n, b);
    }
    AllocFree(free, 1, 0, n, 0);
    forall j | 0 <= j < |x|
      ensures Releasable(AllocRest(free, n), x[j].addr, x[j].pages)
      ensures forall b :: new_.Has(b) ==> !x[j].Has(b)
    {
      assert Releasable(free, x[j].addr, x[j].pages) && Block(x[j].addr, x[j].pages) == x[j];
    }
    InsertApart(x, k, new_);
    forall j | 0 <= j < |y|
      ensures Releasable(AllocRest(free, n), y[j].addr, y[j].pages)
    {
      if j != k {
        assert y[j] == x[if j < k then j else j - 1];
      }
    }
  }

  lemma InsertApart(x: seq<Block>, k: nat, n: Block)
    requires k <= |x|
    requires forall i, j, b :: 0 <= i < j < |x| && x[i].Has(b) ==> !x[j].Has(b)
    requires forall j, b :: 0 <= j < |x| && n.Has(b) ==> !x[j].Has(b)
    ensures var y := x[..k] + [n] + x[k..];
            forall i, j, b :: 0 <= i < j < |y| && y[i].Has(b) ==> !y[j].Has(b)
  {
    var y := x[..k] + [n] + x[k..];
    forall i, j, b | 0 <= i < j < |y| && y[i].Has(b)
      ensures !y[j].Has(b)
    {
      var i' := if i < k then i else i - 1;
      var j' := if j < k then j else j - 1;
      assert i != k ==> y[i] == x[i'];
      assert j != k ==> y[j] == x[j'];
    }
  }

  lemma WithoutApart(x: seq<Block>, i: nat)
    requires i < |x|
    requires forall i, j, b :: 0 <= i < j < |x| && x[i].Has(b) ==> !x[j].Has(b)
    ensures var y := Without(x, i);
            forall i, j, b :: 0 <= i < j < |y| && y[i].Has(b) ==> !y[j].Has(b)
    ensures forall j, b :: 0 <= j < |x| && j != i && x[i].Has(b) ==> !x[j].Has(b)
  {
    var y := Without(x, i);
    forall p, q, b | 0 <= p < q < |y| && y[p].Has(b)
      ensures !y[q].Has(b)
    {
      assert y[p] == x[if p < i then p else p + 1];
      assert y[q] == x[if q < i then q else q + 1];
    }
  }

  lemma DisownOne(free: seq<Block>, x: seq<Block>, i: nat)
    requires Coalesced(free) && AllReleasable(free, x) && i < |x|
    ensures AllReleasable(Release(free, x[i].addr, x[i].pages), Without(x, i))
  {
    var free' := Release(free, x[i].addr, x[i].pages);
    var y := Without(x, i);
    assert Releasable(free, x[i].addr, x[i].pages) && Block(x[i].addr, x[i].pages) == x[i];
    ReleaseFrom(free, 0, 1, x[i].addr, x[i].pages);
    WithoutApart(x, i);
    forall j | 0 <= j < |y|
      ensures Releasable(free', y[j].addr, y[j].pages)
    {
      var j' := if j < i then j else j + 1;
      assert y[j] == x[j'] && Block(y[j].addr, y[j].pages) == y[j];
      assert Releasable(free, x[j'].addr, x[j'].pages);
    }
  }

  /** The two pieces of a block cover exactly its bytes. */
  lemma CutBytes(b: Block, k: nat)
    requires 0 < k < b.pages
    ensures var lo, hi := Block(b.addr, k), Block(b.addr + k * SZ_PAGE, b.pages - k);
            forall x :: (b.Has(x) <==> lo.Has(x) || hi.Has(x)) && !(lo.Has(x) && hi.Has(x))
  {
  }

  lemma CutApart(x: seq<Block>, i: nat, lo: Block, hi: Block)
    requires i < |x|
    requires forall p, q, b :: 0 <= p < q < |x| && x[p].Has(b) ==> !x[q].Has(b)
    requires forall b :: (x[i].Has(b) <==> lo.Has(b) || hi.Has(b)) && !(lo.Has(b) && hi.Has(b))
    ensures var w := x[..i] + [lo, hi] + x[i + 1..];
            forall p, q, b :: 0 <= p < q < |w| && w[p].Has(b) ==> !w[q].Has(b)
  {
    var w := x[..i] + [lo, hi] + x[i + 1..];
    forall p, q, b | 0 <= p < q < |w| && w[p].Has(b)
      ensures !w[q].Has(b)
    {
      var p' := if p <= i then p else p - 1;
      var q' := if q <= i then q else q - 1;
      assert x[p'].Has(b) by {
        assert p < i || p > i + 1 ==> w[p] == x[p'];
      }
      assert w[q].Has(b) ==> x[q'].Has(b) by {
        assert q < i || q > i + 1 ==> w[q] == x[q'];
      }
    }
  }

  /** Cutting a held block in two keeps everything apart. */
  lemma CutOne(free: seq<Block>, x: seq<Block>, i: nat, k: nat)
    requires AllReleasable(free, x) && i < |x| && 0 < k < x[i].pages
    ensures var lo, hi := Block(x[i].addr, k), Block(x[i].addr + k * SZ_PAGE, x[i].pages - k);
            && AllReleasable(free, x[..i] + [lo, hi] + x[i + 1..])
            && forall b :: x[i].Has(b) <==> lo.Has(b) || hi.Has(b)
  {
    var lo, hi := Block(x[i].addr, k), Block(x[i].addr + k * SZ_PAGE, x[i].pages - k);
    CutBytes(x[i], k);
    CutApart(x, i, lo, hi);
    assert Releasable(free, x[i].addr, x[i].pages) && Block(x[i].addr, x[i].pages) == x[i];
    var w := x[..i] + [lo, hi] + x[i + 1..];
    forall j | 0 <= j < |w|
      ensures Releasable(free, w[j].addr, w[j].pages)
    {
      if j < i || j > i + 1 {
        assert w[j] == x[if j < i then j else j - 1];
      } else {
        assert Block(w[j].addr, w[j].pages) == w[j];
      }
    }
  }

  // ----- every step keeps the invariant and the set of bytes accounted for

  lemma CountFits(free: seq<Block>, held: seq<Block>)
    requires Coalesced(free) && forall b :: AccountedIn(free, held, b) ==> b < TWO_32
    ensures Pages(free) < TWO_32
  {
    assert forall b :: Free(free, b) ==> AccountedIn(free, held, b);
    Widen(free, 0, 0, 1, 0);
    PagesBounded(free, 0, TWO_32);
  }

  /** Taking `n` pages and handing them out at position `k` of the held blocks. */
  lemma TakePages(free: seq<Block>, nPages: nat, x: seq<Block>, k: nat, n: nat)
    requires PagesSafe(free, nPages, x) && k <= |x| && n >= 1 && AllocAddr(free, n) != NULL
    ensures var y := x[..k] + [Block(AllocAddr(free, n), n)] + x[k..];
            && PagesSafe(AllocRest(free, n), (nPages - n) % TWO_32, y)
            && forall b :: AccountedIn(AllocRest(free, n), y, b) <==> AccountedIn(free, x, b)
  {
    CoalescedIsOrdered(free);
    AllocKeepsOrder(free, 0, 1, n);
    FreeList.AllocPages(free, n);
    OwnNew(free, x, k, n);
    CountFits(free, x);
    var y := x[..k] + [Block(AllocAddr(free, n), n)] + x[k..];
    forall b
      ensures AccountedIn(AllocRest(free, n), y, b) <==> AccountedIn(free, x, b)
    {
      AllocFree(free, 1, 0, n, b);
      FreeInsert(x, k, Block(AllocAddr(free, n), n), b);
    }
  }

  lemma GivePages(free: seq<Block>, nPages: nat, x: seq<Block>, i: nat)
    requires PagesSafe(free, nPages, x) && i < |x|
    ensures var free' := Release(free, x[i].addr, x[i].pages);
            && PagesSafe(free', (nPages + x[i].pages) % TWO_32, Without(x, i))
            && forall b :: AccountedIn(free', Without(x, i), b) <==> AccountedIn(free, x, b)
  {
    assert Releasable(free, x[i].addr, x[i].pages) && Block(x[i].addr, x[i].pages) == x[i];
    DisownOne(free, x, i);
    ReleaseFrom(free, 0, 1, x[i].addr, x[i].pages);
    var free' := Release(free, x[i].addr, x[i].pages);
    forall b
      ensures AccountedIn(free', Without(x, i), b) <==> AccountedIn(free, x, b)
    {
      FreeWithout(x, i, b);
    }
    CountFits(free', Without(x, i));
  }

  lemma CutHeld(free: seq<Block>, nPages: nat, x: seq<Block>, i: nat, k: nat)
    requires PagesSafe(free, nPages, x) && i < |x| && 0 < k < x[i].pages
    ensures var y := x[..i] + [Block(x[i].addr, k), Block(x[i].addr + k * SZ_PAGE, x[i].pages - k)] + x[i + 1..];
            && PagesSafe(free, nPages, y)
            && forall b :: AccountedIn(free, y, b) <==> AccountedIn(free, x, b)
  {
    CutOne(free, x, i, k);
    var lo, hi := Block(x[i].addr, k), Block(x[i].addr + k * SZ_PAGE, x[i].pages - k);
    var y := x[..i] + [lo, hi] + x[i + 1..];
    forall b
      ensures AccountedIn(free, y, b) <==> AccountedIn(free, x, b)
    {
      FreeWithout(x, i, b);
      FreeWithout(y, i, b);
      FreeWithout(Without(y, i), i, b);
      assert Without(Without(y, i), i) == Without(x, i);
    }
  }

  lemma StepAllocPages(p: Pool, n: nat)
    requires Inv(p)
    ensures Inv(Step(p, AllocPages(n)))
    ensures forall b :: Accounted(Step(p, AllocPages(n)), b) <==> Accounted(p, b)
  {
    var p' := Step(p, AllocPages(n));
    if n >= 1 && AllocAddr(p.free, n) != NULL {
      var x := Held(p);
      TakePages(p.free, p.nPages, x, 0, n);
      assert Held(p') == x[..0] + [Block(AllocAddr(p.free, n), n)] + x[0..];
    }
  }

  lemma StepSplit(p: Pool, i: nat, k: nat)
    requires Inv(p)
    ensures Inv(Step(p, Split(i, k)))
    ensures forall b :: Accounted(Step(p, Split(i, k)), b) <==> Accounted(p, b)
  {
    var p' := Step(p, Split(i, k));
    if i < |p.live| && 0 < k < p.live[i].pages {
      var x := Held(p);
      CutHeld(p.free, p.nPages, x, i, k);
      assert Held(p') == x[..i] + [Block(x[i].addr, k), Block(x[i].addr + k * SZ_PAGE, x[i].pages - k)] + x[i + 1..];
    }
  }

  lemma StepFreePages(p: Pool, i: nat)
    requires Inv(p)
    ensures Inv(Step(p, FreePages(i)))
    ensures forall b :: Accounted(Step(p, FreePages(i)), b) <==> Accounted(p, b)
  {
    var p' := Step(p, FreePages(i));
    if i < |p.live| {
      GivePages(p.free, p.nPages, Held(p), i);
      assert Held(p') == Without(Held(p), i);
    }
  }

  lemma StepCounts(p: Pool, op: Op)
    requires SlicesCounted(p)
    ensures SlicesCounted(Step(p, op))
  {
    var n, p' := |p.slices| + 4 * |p.carved|, Step(p, op);
    if p' != p {
      match op {
        case AllocSlice =>
          assert p.slices != [] ==> |p'.slices| + 4 * |p'.carved| == n - 1;
          assert p.slices == [] ==> |p'.slices| + 4 * |p'.carved| == n + 7;
          ModShift(n, if p.slices != [] then -1 else 7);
        case FreeSlice(s) => ModShift(n, 1);
        case _ =>
      }
    }
  }

  lemma ModShift(n: int, k: int)
    ensures (n % TWO_32 + k) % TWO_32 == (n + k) % TWO_32
  {
  }

  lemma StepAllocSlice(p: Pool)
    requires Inv(p)
    ensures Inv(Step(p, AllocSlice))
    ensures forall b :: Accounted(Step(p, AllocSlice), b) <==> Accounted(p, b)
  {
    var p' := Step(p, AllocSlice);
    StepCounts(p, AllocSlice);
    if p.slices != [] {
      PopSafe(p);
    } else if AllocAddr(p.free, 1) != NULL {
      var x, k := Held(p), |p.live|;
      TakePages(p.free, p.nPages, x, k, 1);
      assert Held(p') == x[..k] + [Block(AllocAddr(p.free, 1), 1)] + x[k..];
      NewPageIsNoSlice(p);
      CarveSafe(p, p', Block(AllocAddr(p.free, 1), 1));
    }
  }

  lemma PopSafe(p: Pool)
    requires SlicesSafe(p) && p.slices != []
    ensures SlicesSafe(Step(p, AllocSlice))
  {
    var p' := Step(p, AllocSlice);
    forall s
      ensures s in p'.slices || s in p'.liveSlices <==> s in p.slices || s in p.liveSlices
    {
      assert p.slices == [p.slices[0]] + p.slices[1..];
    }
  }

  lemma NewPageIsNoSlice(p: Pool)
    requires Inv(p) && AllocAddr(p.free, 1) != NULL
    ensures forall s: nat :: SliceOf(Block(AllocAddr(p.free, 1), 1), s) ==> s !in p.slices && s !in p.liveSlices
  {
    CoalescedIsOrdered(p.free);
    forall s: nat | SliceOf(Block(AllocAddr(p.free, 1), 1), s)
      ensures s !in p.slices && s !in p.liveSlices
    {
      AllocFree(p.free, 1, 0, 1, s);
      FreeIsNoSlice(p, s);
    }
  }

  /** Carving a new page, none of whose slices existed before. */
  lemma CarveSafe(p: Pool, p': Pool, page: Block)
    requires SlicesSafe(p) && p.slices == [] && page.pages == 1
    requires forall s: nat :: SliceOf(page, s) ==> s !in p.liveSlices
    requires p'.carved == [page] + p.carved
    requires var four := CarvedSlices(page.addr); p'.slices == four[1..] && p'.liveSlices == {four[0]} + p.liveSlices
    ensures SlicesSafe(p')
  {
    CarvedAreSlices(page);
    CarvedCover(p, p', page);
    var four := CarvedSlices(page.addr);
    forall s | s in p'.slices
      ensures s !in p'.liveSlices
    {
      assert s in four && s != four[0];
    }
  }

  lemma CarvedAreSlices(page: Block)
    ensures var four := CarvedSlices(page.addr);
            forall s :: s in four <==> SliceOf(page, s)
  {
    var four := CarvedSlices(page.addr);
    forall s
      ensures s in four <==> SliceOf(page, s)
    {
      if s in four {
        var i :| 0 <= i < 4 && four[i] == s;
        assert s == page.addr + (3 - i) * SZ_SLICE;
      }
      if SliceOf(page, s) {
        var q :| 0 <= q < 4 && s == page.addr + q * SZ_SLICE;
        assert four[3 - q] == s;
      }
    }
  }

  lemma CarvedCover(p: Pool, p': Pool, page: Block)
    requires SlicesSafe(p) && p.slices == [] && p'.carved == [page] + p.carved
    requires var four := CarvedSlices(page.addr); p'.slices == four[1..] && p'.liveSlices == {four[0]} + p.liveSlices
    ensures forall s :: s in p'.slices || s in p'.liveSlices <==>
              exists k :: 0 <= k < |p'.carved| && SliceOf(p'.carved[k], s)
  {
    var four := CarvedSlices(page.addr);
    assert four == [four[0]] + four[1..];
    CarvedAreSlices(page);
    forall s
      ensures s in p'.slices || s in p'.liveSlices <==> exists k :: 0 <= k < |p'.carved| && SliceOf(p'.carved[k], s)
    {
      assert s in p'.slices || s in p'.liveSlices <==> SliceOf(page, s) || s in p.liveSlices;
      if s in p.liveSlices {
        var k :| 0 <= k < |p.carved| && SliceOf(p.carved[k], s);
        assert SliceOf(p'.carved[k + 1], s);
      }
      if SliceOf(page, s) {
        assert SliceOf(p'.carved[0], s);
      }
      if k :| 0 <= k < |p'.carved| && SliceOf(p'.carved[k], s) {
        assert k > 0 ==> SliceOf(p.carved[k - 1], s);
      }
    }
  }

  /** Free memory holds no slice. */
  lemma FreeIsNoSlice(p: Pool, s: nat)
    requires Inv(p) && Free(p.free, s)
    ensures s !in p.slices && s !in p.liveSlices
  {
    forall k | 0 <= k < |p.carved|
      ensures !SliceOf(p.carved[k], s)
    {
      var b := Held(p)[|p.live| + k];
      assert b == p.carved[k] && Releasable(p.free, b.addr, b.pages);
      assert !Block(b.addr, b.pages).Has(s);
    }
  }

  lemma StepFreeSlice(p: Pool, s: nat)
    requires Inv(p)
    ensures Inv(Step(p, FreeSlice(s)))
    ensures forall b :: Accounted(Step(p, FreeSlice(s)), b) <==> Accounted(p, b)
  {
    var p' := Step(p, FreeSlice(s));
    StepCounts(p, FreeSlice(s));
    forall t
      ensures t in p'.slices || t in p'.liveSlices <==> t in p.slices || t in p.liveSlices
    {
    }
  }

  lemma StepIsSafe(p: Pool, op: Op)
    requires Inv(p)
    ensures Inv(Step(p, op))
    ensures forall b :: Accounted(Step(p, op), b) <==> Accounted(p, b)
  {
    match op
    case AllocPages(n) => StepAllocPages(p, n);
    case Split(i, k) => StepSplit(p, i, k);
    case FreePages(i) => StepFreePages(p, i);
    case AllocSlice => StepAllocSlice(p);
    case FreeSlice(s) => StepFreeSlice(p, s);
  }

  /** Over every run the free list stays coalesced and counted, nothing handed out overlaps the
      free list or anything else handed out, and every byte of the pool stays accounted for. */
  lemma {:induction false} RunsAreSafe(p: Pool, ops: seq<Op>)
    requires Inv(p)
    ensures Inv(Run(p, ops))
    ensures forall b :: Accounted(Run(p, ops), b) <==> Accounted(p, b)
    decreases |ops|
  {
    if ops != [] {
      StepIsSafe(p, ops[0]);
      RunsAreSafe(Step(p, ops[0]), ops[1..]);
    }
  }

  lemma {:induction false} HeldNotFree(free: seq<Block>, held: seq<Block>, b: int)
    requires Free(held, b) && forall k :: 0 <= k < |held| ==> Releasable(free, held[k].addr, held[k].pages)
    ensures !Free(free, b)
    decreases |held|
  {
    if held[0].Has(b) {
      assert Releasable(free, held[0].addr, held[0].pages) && Block(held[0].addr, held[0].pages) == held[0];
    } else {
      HeldNotFree(free, held[1..], b);
    }
  }

  /** When the bytes in use are those that were in use before, the free list is the one the run started
      from, whatever was allocated, carved and freed in between. */
  lemma EverythingReturned(p: Pool, ops: seq<Op>)
    requires Inv(p) && FreeBytes(Held(Run(p, ops))) == FreeBytes(Held(p))
    ensures Run(p, ops).free == p.free && Run(p, ops).nPages == p.nPages
  {
    RunsAreSafe(p, ops);
    var q := Run(p, ops);
    forall b
      ensures Free(q.free, b) <==> Free(p.free, b)
    {
      assert Accounted(q, b) <==> Accounted(p, b);
      assert b in FreeBytes(Held(q)) <==> b in FreeBytes(Held(p));
      if Free(Held(p), b) {
        HeldNotFree(p.free, Held(p), b);
        HeldNotFree(q.free, Held(q), b);
      }
    }
    CanonicalFrom(q.free, 0, p.free, 0);
  }

  // ----- slices

  /** Two different slices in existence, free or held, never overlap. */
  lemma SlicesApart(p: Pool, s: nat, t: nat)
    requires Inv(p) && s != t
    requires (s in p.slices || s in p.liveSlices) && (t in p.slices || t in p.liveSlices)
    ensures s + SZ_SLICE <= t || t + SZ_SLICE <= s
  {
    var a :| 0 <= a < |p.carved| && SliceOf(p.carved[a], s);
    var c :| 0 <= c < |p.carved| && SliceOf(p.carved[c], t);
    assert Held(p)[|p.live| + a] == p.carved[a] && Held(p)[|p.live| + c] == p.carved[c];
    if a != c {
      HeldApart(p, |p.live| + a, |p.live| + c);
    }
  }

  /** Two held blocks do not overlap. */
  lemma HeldApart(p: Pool, a: nat, c: nat)
    requires Inv(p) && a < |Held(p)| && c < |Held(p)| && a != c
    ensures Held(p)[a].End() <= Held(p)[c].addr || Held(p)[c].End() <= Held(p)[a].addr
  {
    var x := Held(p);
    assert Releasable(p.free, x[a].addr, x[a].pages) && Releasable(p.free, x[c].addr, x[c].pages);
    assert x[a].Has(x[a].addr) && x[c].Has(x[c].addr);
  }

  // ----- what each operation does, in terms of bytes and of what the clients hold

  /** An allocation succeeds exactly when there are `n` contiguous free pages, which the client then holds. */
  lemma AllocPagesEffect(p: Pool, n: nat)
    requires Inv(p) && n >= 1
    ensures var q := Step(p, AllocPages(n));
      if exists a: nat :: Range(a, n) <= FreeBytes(p.free) then
        && |q.live| == |p.live| + 1 && q.live[1..] == p.live && q.live[0].pages == n
        && Range(q.live[0].addr, n) <= FreeBytes(p.free)
        && FreeBytes(q.free) == FreeBytes(p.free) - Range(q.live[0].addr, n)
        && q.carved == p.carved && q.slices == p.slices && q.liveSlices == p.liveSlices
      else q == p
  {
    CoalescedIsOrdered(p.free);
    FirstFitExact(p.free, n);
    AllocCorrect(p.free, n);
  }

  /** A free gives exactly the held block back. */
  lemma FreePagesEffect(p: Pool, i: nat)
    requires Inv(p) && i < |p.live|
    ensures var q := Step(p, FreePages(i));
      && FreeBytes(q.free) == FreeBytes(p.free) + Range(p.live[i].addr, p.live[i].pages)
      && q.live == p.live[..i] + p.live[i + 1..]
      && q.carved == p.carved && q.slices == p.slices && q.liveSlices == p.liveSlices
  {
    assert Held(p)[i] == p.live[i];
    CoalescedIsOrdered(p.free);
    ReleaseCorrect(p.free, p.live[i].addr, p.live[i].pages);
  }

  /** A slice allocation takes the first free slice, or carves a free page into four, of which the client then holds
      one and the others are free; it fails exactly when there is neither a slice nor a page. */
  lemma AllocSliceEffect(p: Pool)
    requires Inv(p)
    ensures var q := Step(p, AllocSlice);
      if p.slices != [] then
        && q.slices == p.slices[1..] && q.liveSlices == p.liveSlices + {p.slices[0]}
        && q.free == p.free && q.live == p.live && q.carved == p.carved
      else if FreeBytes(p.free) == iset{} then q == p
      else
        && |q.carved| == |p.carved| + 1 && q.carved[1..] == p.carved && q.live == p.live
        && var page := q.carved[0];
        && page.pages == 1 && Range(page.addr, 1) <= FreeBytes(p.free)
        && FreeBytes(q.free) == FreeBytes(p.free) - Range(page.addr, 1)
        && q.liveSlices == p.liveSlices + {page.addr + 3 * SZ_SLICE}
        && q.slices == [page.addr + 2 * SZ_SLICE, page.addr + SZ_SLICE, page.addr]
  {
    if p.slices == [] {
      CoalescedIsOrdered(p.free);
      AllocCorrect(p.free, 1);
      SomethingFree(p.free);
    }
  }

  /** A list with a free byte has a page to give. */
  lemma SomethingFree(l: seq<Block>)
    requires Coalesced(l)
    ensures AllocAddr(l, 1) == NULL <==> FreeBytes(l) == iset{}
  {
    if l != [] {
      assert l[0].addr in FreeBytes(l);
    }
  }

  /** A slice that a client holds goes to the front of the free slices; nothing else can be freed. */
  lemma FreeSliceEffect(p: Pool, s: nat)
    ensures var q := Step(p, FreeSlice(s));
      if s in p.liveSlices then
        && q.slices == [s] + p.slices && s !in q.liveSlices && q.liveSlices + {s} == p.liveSlices
        && q.free == p.free && q.live == p.live && q.carved == p.carved
      else q == p
  {
  }
}
