/** Boot-time construction of the free list from the BIOS memory map (km_init in kmem.c):
    which regions are used, how they are clipped to the managed range, and what list results.
 */
module MemoryMap {
  import opened Defs
  import opened FreeList
  import opened PageAllocator

  const TWO_64 := 0x1_0000_0000_0000_0000
  const KM_LOW_CUTOFF := 0x10_0000       // 1MB
  const KM_HIGH_CUTOFF := 0x4000_0000    // 1GB
  const REGION_USABLE := 1

  type Word64 = n: nat | n < TWO_64

  /** A BIOS region descriptor: 64-bit base and length, type, and the ACPI 3.0 flag word. */
  datatype Region = Region(base: Word64, length: Word64, kind: nat, acpi: nat)

  /** 64-bit addition and subtraction. */
  function Add64(a: Word64, b: Word64): Word64 {
    if a + b < TWO_64 then a + b else a + b - TWO_64
  }

  function Sub64(a: Word64, b: Word64): Word64 {
    if a >= b then a - b else a - b + TWO_64
  }

  datatype Clipped = Ignored | Usable(base: nat, length: nat)

  /** Bit 0 of the flags must be set and bit 1 clear, and the type must be "usable". */
  predicate Considered(r: Region) {
    r.acpi % 2 != 0 && (r.acpi / 2) % 2 == 0 && r.kind == REGION_USABLE
  }

  /** The clipping arithmetic, with its 64-bit wrap-around and 32-bit truncations. */
  function Clip(base: Word64, length: Word64): Clipped {
    var sum := Add64(base, length);
    var tooHigh := base >= KM_HIGH_CUTOFF || sum >= KM_HIGH_CUTOFF;
    if tooHigh && base > KM_HIGH_CUTOFF then Ignored
    else
      var endpt := if tooHigh then KM_HIGH_CUTOFF else sum;
      var tooLow := base < KM_LOW_CUTOFF || endpt < KM_LOW_CUTOFF;
      if tooLow && endpt < KM_LOW_CUTOFF then Ignored
      else
        var start := if tooLow then KM_LOW_CUTOFF else base;
        Usable(start % TWO_32, Sub64(endpt, start) % TWO_32)
  }

  /** When a region does not wrap around the 64-bit address space, clipping keeps exactly its
      bytes in the managed range. */
  lemma ClipKeepsManagedBytes(base: Word64, length: Word64, x: nat)
    requires base + length < TWO_64
    ensures var c := Clip(base, length);
            c.Usable? && c.base <= x < c.base + c.length <==>
            base <= x < base + length && KM_LOW_CUTOFF <= x < KM_HIGH_CUTOFF
  {
    ClipStartsHigh(base, length);
    if base <= KM_HIGH_CUTOFF && base + length >= KM_LOW_CUTOFF {
      var start := if base < KM_LOW_CUTOFF then KM_LOW_CUTOFF else base;
      var endpt := if base + length >= KM_HIGH_CUTOFF then KM_HIGH_CUTOFF else base + length;
      ModSmall(endpt - start);
      assert Clip(base, length) == Usable(start, endpt - start);
    }
  }

  lemma ModSmall(n: nat)
    requires n < TWO_32
    ensures n % TWO_32 == n
  {
  }

  /** The part that is kept lies in the managed range exactly when the region does not both start
      below the upper limit and wrap around to an end at or above the lower limit. */
  lemma ClipInRange(base: Word64, length: Word64)
    ensures var c := Clip(base, length);
            (c.Usable? ==> KM_LOW_CUTOFF <= c.base && c.base + c.length <= KM_HIGH_CUTOFF) <==>
            !(base < KM_HIGH_CUTOFF && base + length >= TWO_64 + KM_LOW_CUTOFF)
  {
    if base < KM_HIGH_CUTOFF && base + length >= TWO_64 + KM_LOW_CUTOFF {
      ClipWraps(base, length);
    } else if base + length < TWO_64 {
      ClipInRangeNoWrap(base, length);
    }
  }

  lemma ClipInRangeNoWrap(base: Word64, length: Word64)
    requires base + length < TWO_64
    ensures var c := Clip(base, length);
            c.Usable? ==> KM_LOW_CUTOFF <= c.base && c.base + c.length <= KM_HIGH_CUTOFF
  {
    var c := Clip(base, length);
    ClipStartsHigh(base, length);
    if c.Usable? && c.length > 0 {
      ClipKeepsManagedBytes(base, length, c.base + c.length - 1);
    }
  }

  /** A region from 2MB up that wraps around by 1MB keeps almost 4GB. */
  lemma WrappedRegion()
    ensures Clip(0x20_0000, TWO_64 - 0x10_0000) == Usable(0x20_0000, 0xfff0_0000)
  {
    ClipWraps(0x20_0000, TWO_64 - 0x10_0000);
  }

  /** A wrapped region: the kept length is 4GB less the distance by which the end precedes the start. */
  lemma ClipWraps(base: Word64, length: Word64)
    requires base < KM_HIGH_CUTOFF && base + length >= TWO_64 + KM_LOW_CUTOFF
    ensures Clip(base, length) == Usable(base, TWO_32 - (TWO_64 - length))
  {
    var d := TWO_64 - length;
    assert Sub64(Add64(base, length), base) == TWO_64 - d;
    assert (TWO_64 - d) % TWO_32 == TWO_32 - d by {
      assert TWO_64 - d == (TWO_32 - 1) * TWO_32 + (TWO_32 - d);
    }
    ModSmall(base);
  }

  /** The blocks that reach `add_block` with at least one page, in map order. */
  function UsableBlocks(rs: seq<Region>): seq<Block> {
    if rs == [] then []
    else
      var c := Clip(rs[0].base, rs[0].length);
      var rest := UsableBlocks(rs[1..]);
      if Considered(rs[0]) && c.Usable? && c.length >= SZ_PAGE
      then [Block(c.base, c.length / SZ_PAGE)] + rest
      else rest
  }

  function AddAll(l: seq<Block>, bs: seq<Block>): seq<Block>
    decreases |bs|
  {
    if bs == [] then l else AddAll(AddTo(l, bs[0]), bs[1..])
  }

  ghost predicate Disjoint(l: seq<Block>, bs: seq<Block>) {
    && (forall k, x :: 0 <= k < |bs| && bs[k].Has(x) ==> !Free(l, x))
    && (forall j, k, x :: 0 <= j < k < |bs| && bs[j].Has(x) ==> !bs[k].Has(x))
    && (forall k :: 0 <= k < |bs| ==> bs[k].addr > 0 && bs[k].pages > 0)
  }

  lemma AddFirst(l: seq<Block>, bs: seq<Block>)
    requires Ordered(l) && Disjoint(l, bs) && bs != []
    ensures Ordered(AddTo(l, bs[0])) && Disjoint(AddTo(l, bs[0]), bs[1..])
    ensures Pages(AddTo(l, bs[0])) == Pages(l) + bs[0].pages
    ensures forall x :: Free(AddTo(l, bs[0]), x) <==> Free(l, x) || bs[0].Has(x)
  {
    AddToFrom(l, 1, 0, bs[0]);
  }

  /** The list built from disjoint regions is in address order, covers exactly their pages and
      counts them. */
  lemma {:induction false} BootList(l: seq<Block>, bs: seq<Block>)
    requires Ordered(l) && Disjoint(l, bs)
    ensures Ordered(AddAll(l, bs))
    ensures Pages(AddAll(l, bs)) == Pages(l) + Pages(bs)
    ensures forall x :: Free(AddAll(l, bs), x) <==> Free(l, x) || Free(bs, x)
    decreases |bs|
  {
    if bs != [] {
      AddFirst(l, bs);
      BootList(AddTo(l, bs[0]), bs[1..]);
    }
  }

  lemma {:induction false} AddToMembers(l: seq<Block>, b: Block)
    ensures forall x :: x in AddTo(l, b) <==> x in l || x == b
    decreases |l|
  {
    if l != [] && b.addr > l[0].addr {
      AddToMembers(l[1..], b);
      assert l == [l[0]] + l[1..];
    }
  }

  lemma {:induction false} AddAllMembers(l: seq<Block>, bs: seq<Block>)
    ensures forall x :: x in AddAll(l, bs) <==> x in l || x in bs
    decreases |bs|
  {
    if bs != [] {
      AddToMembers(l, bs[0]);
      AddAllMembers(AddTo(l, bs[0]), bs[1..]);
      assert bs == [bs[0]] + bs[1..];
    }
  }

  /** The blocks are real and no two of them start at the same address, nor where a block of `l` does. */
  ghost predicate NewStarts(l: seq<Block>, bs: seq<Block>) {
    && (forall k :: 0 <= k < |bs| ==> bs[k].addr > 0 && bs[k].pages > 0)
    && (forall j, k :: 0 <= j < k < |bs| ==> bs[j].addr != bs[k].addr)
    && (forall x, k :: x in l && 0 <= k < |bs| ==> x.addr != bs[k].addr)
  }

  /** If adding a block gives an ordered list, the block overlaps nothing on it. */
  lemma {:induction false} AddToBack(l: seq<Block>, lo: nat, b: Block)
    requires Spaced(AddTo(l, b), lo, 0)
    ensures Spaced(l, lo, 0) && lo <= b.addr && b.pages > 0 && forall x :: Free(l, x) ==> !b.Has(x)
    decreases |l|
  {
    var r := AddTo(l, b);
    if l == [] || b.addr <= l[0].addr {
      assert r[1..] == l;
      Widen(l, b.End(), lo, 0, 0);
      forall x | Free(l, x)
        ensures !b.Has(x)
      {
        FreeAbove(l, b.End(), 0, x);
      }
    } else {
      assert r[1..] == AddTo(l[1..], b);
      AddToBack(l[1..], l[0].End(), b);
    }
  }

  lemma {:induction false} AddAllBack(l: seq<Block>, bs: seq<Block>)
    requires Ordered(AddAll(l, bs))
    ensures Ordered(l) && Disjoint(l, bs)
    decreases |bs|
  {
    if bs != [] {
      var l1 := AddTo(l, bs[0]);
      AddAllBack(l1, bs[1..]);
      AddToBack(l, 1, bs[0]);
      AddToFrom(l, 1, 0, bs[0]);
      forall k, x | 0 <= k < |bs| && bs[k].Has(x)
        ensures !Free(l, x) && (k > 0 ==> !bs[0].Has(x))
      {
        assert k > 0 ==> bs[1..][k - 1] == bs[k];
      }
      forall k | 0 <= k < |bs|
        ensures bs[k].addr > 0 && bs[k].pages > 0
      {
        assert k > 0 ==> bs[1..][k - 1] == bs[k];
      }
      forall j, k, x | 0 <= j < k < |bs| && bs[j].Has(x)
        ensures !bs[k].Has(x)
      {
        assert bs[k] == bs[1..][k - 1] && (j > 0 ==> bs[j] == bs[1..][j - 1]);
      }
    }
  }

  /** The boot list is in order exactly when the blocks do not overlap. */
  lemma BootOrdered(bs: seq<Block>)
    ensures Ordered(AddAll([], bs)) <==> Disjoint([], bs)
  {
    if Disjoint([], bs) {
      BootList([], bs);
    }
    if Ordered(AddAll([], bs)) {
      AddAllBack([], bs);
    }
  }

  /** It is coalesced exactly when moreover no block ends where another one starts. */
  lemma BootCoalesced(bs: seq<Block>)
    requires Disjoint([], bs)
    ensures Coalesced(AddAll([], bs)) <==> forall j, k :: 0 <= j < |bs| && 0 <= k < |bs| ==> bs[j].End() != bs[k].addr
  {
    var l := AddAll([], bs);
    BootList([], bs);
    AddAllMembers([], bs);
    CoalescedExactly(l);
    if !Touching(l) {
      forall j, k | 0 <= j < |bs| && 0 <= k < |bs|
        ensures bs[j].End() != bs[k].addr
      {
        assert bs[j] in l && bs[k] in l;
      }
    }
  }

  lemma AddNext(l: seq<Block>, bs: seq<Block>)
    requires NewStarts(l, bs) && bs != []
    ensures NewStarts(AddTo(l, bs[0]), bs[1..]) && forall j :: 0 <= j < |l| ==> l[j].addr != bs[0].addr
  {
    AddToMembers(l, bs[0]);
    forall j | 0 <= j < |l|
      ensures l[j].addr != bs[0].addr
    {
      assert l[j] in l;
    }
  }

  // ----- which bytes reach the free list

  /** Byte `x` lies in the whole pages of the part of the region between 1MB and 1GB, and the region is usable
      memory (type 1) that is neither to be ignored (flag bit 0 clear) nor non-volatile (flag bit 1 set). */
  ghost predicate Supplies(r: Region, x: nat) {
    var lo := if r.base < 0x10_0000 then 0x10_0000 else r.base;
    var hi: int := if r.base + r.length > 0x4000_0000 then 0x4000_0000 else r.base + r.length;
    && r.kind == 1 && r.acpi % 2 == 1 && r.acpi / 2 % 2 == 0
    && hi - lo >= SZ_PAGE && lo <= x < lo + (hi - lo) / SZ_PAGE * SZ_PAGE
  }

  lemma ClipExact(base: Word64, length: Word64)
    requires base + length < TWO_64
    ensures var lo := if base < 0x10_0000 then 0x10_0000 else base;
      var hi: int := if base + length > 0x4000_0000 then 0x4000_0000 else base + length;
      var c := Clip(base, length);
      (hi > lo ==> c == Usable(lo, hi - lo)) && (hi <= lo && c.Usable? ==> c.length == 0)
  {
    var lo := if base < KM_LOW_CUTOFF then KM_LOW_CUTOFF else base;
    var hi: int := if base + length > KM_HIGH_CUTOFF then KM_HIGH_CUTOFF else base + length;
    if hi > lo {
      ModSmall(lo);
      ModSmall(hi - lo);
    }
  }

  lemma RegionSupplies(r: Region, x: nat)
    requires r.base + r.length < TWO_64
    ensures var c := Clip(r.base, r.length);
      Supplies(r, x) <==>
        Considered(r) && c.Usable? && c.length >= SZ_PAGE && Block(c.base, c.length / SZ_PAGE).Has(x)
  {
    ClipExact(r.base, r.length);
  }

  lemma {:induction false} UsableSupply(rs: seq<Region>, x: nat)
    requires forall r :: r in rs ==> r.base + r.length < TWO_64
    ensures Free(UsableBlocks(rs), x) <==> exists r :: r in rs && Supplies(r, x)
    decreases |rs|
  {
    if rs != [] {
      UsableSupply(rs[1..], x);
      RegionSupplies(rs[0], x);
      FirstSupplies(rs, x);
      UsableFirst(rs, x);
    }
  }

  lemma FirstSupplies(rs: seq<Region>, x: nat)
    requires rs != []
    ensures (exists r :: r in rs && Supplies(r, x)) <==> Supplies(rs[0], x) || exists r :: r in rs[1..] && Supplies(r, x)
  {
    assert forall r :: r in rs <==> r == rs[0] || r in rs[1..];
  }

  lemma UsableFirst(rs: seq<Region>, x: int)
    requires rs != []
    ensures var c := Clip(rs[0].base, rs[0].length);
      Free(UsableBlocks(rs), x) <==>
        (Considered(rs[0]) && c.Usable? && c.length >= SZ_PAGE && Block(c.base, c.length / SZ_PAGE).Has(x))
        || Free(UsableBlocks(rs[1..]), x)
  {
    var bs, rest := UsableBlocks(rs), UsableBlocks(rs[1..]);
    assert bs != rest ==> bs[1..] == rest;
  }

  lemma {:induction false} AddToFree(l: seq<Block>, b: Block, x: int)
    ensures Free(AddTo(l, b), x) <==> Free(l, x) || b.Has(x)
    decreases |l|
  {
    if l == [] || b.addr <= l[0].addr {
      assert ([b] + l)[1..] == l;
    } else {
      AddToFree(l[1..], b, x);
      assert ([l[0]] + AddTo(l[1..], b))[1..] == AddTo(l[1..], b);
    }
  }

  lemma {:induction false} AddAllFree(l: seq<Block>, bs: seq<Block>, x: int)
    ensures Free(AddAll(l, bs), x) <==> Free(l, x) || Free(bs, x)
    decreases |bs|
  {
    if bs != [] {
      AddToFree(l, bs[0], x);
      AddAllFree(AddTo(l, bs[0]), bs[1..], x);
    }
  }

  /** The boot list holds exactly the bytes that the regions of the map supply. */
  lemma MapSupplies(regions: seq<Region>)
    requires forall r :: r in regions ==> r.base + r.length < TWO_64
    ensures forall x: nat :: Free(AddAll([], UsableBlocks(regions)), x) <==> exists r :: r in regions && Supplies(r, x)
  {
    forall x: nat
      ensures Free(AddAll([], UsableBlocks(regions)), x) <==> exists r :: r in regions && Supplies(r, x)
    {
      AddAllFree([], UsableBlocks(regions), x);
      UsableSupply(regions, x);
    }
  }

  /** One region of the map. */
  method AddRegion(k: Kmem, r: Region, ghost rest: seq<Region>)
    requires k.Chained() && k.slices == [] && NewStarts(k.list, UsableBlocks([r] + rest))
    modifies k`mem, k`freePages, k`nPages, k`list
    ensures k.Chained() && NewStarts(k.list, UsableBlocks(rest))
    ensures AddAll(k.list, UsableBlocks(rest)) == AddAll(old(k.list), UsableBlocks([r] + rest))
  {
    ghost var todo := UsableBlocks([r] + rest);
    assert ([r] + rest)[1..] == rest;
    var c := Clip(r.base, r.length);
    if Considered(r) && c.Usable? {
      ClipStartsHigh(r.base, r.length);
      if c.length >= SZ_PAGE {
        AddNext(k.list, todo);
        assert todo[1..] == UsableBlocks(rest);
      }
      k.AddBlock(c.base, c.length);
    }
  }

  method AddRegions(k: Kmem, regions: seq<Region>)
    requires k.Chained() && k.list == [] && k.slices == [] && NewStarts([], UsableBlocks(regions))
    modifies k`mem, k`freePages, k`nPages, k`list
    ensures k.Chained() && k.list == AddAll([], UsableBlocks(regions))
  {
    var i := 0;
    assert regions[0..] == regions;
    while i < |regions|
      invariant 0 <= i <= |regions| && k.Chained() && k.slices == []
      invariant NewStarts(k.list, UsableBlocks(regions[i..]))
      invariant AddAll(k.list, UsableBlocks(regions[i..])) == AddAll([], UsableBlocks(regions))
    {
      assert regions[i..] == [regions[i]] + regions[i + 1..];
      AddRegion(k, regions[i], regions[i + 1..]);
      i := i + 1;
    }
    assert UsableBlocks(regions[i..]) == [];
  }

  /** The boot loop.  With no regions the allocator stays uninitialized.  Usable regions may overlap, and
      then the list is not in order; only their starts have to differ. */
  method KmInit(k: Kmem, regions: seq<Region>) returns (initialized: bool)
    requires k.Chained() && k.list == [] && k.slices == []
    requires NewStarts([], UsableBlocks(regions))
    modifies k`mem, k`freePages, k`nPages, k`list
    ensures k.Chained() && k.list == AddAll([], UsableBlocks(regions))
    ensures k.Valid() <==> Disjoint([], UsableBlocks(regions))
    ensures (forall r :: r in regions ==> r.base + r.length < TWO_64) ==>
      forall x: nat :: Free(k.list, x) <==> exists r :: r in regions && Supplies(r, x)
    ensures initialized <==> regions != []
  {
    ghost var bs := UsableBlocks(regions);
    if forall r :: r in regions ==> r.base + r.length < TWO_64 {
      MapSupplies(regions);
    }
    AddRegions(k, regions);
    BootOrdered(bs);
    assert SlicesOff(k.list, k.slices);
    initialized := |regions| >= 1;
  }

  /** A kept region never starts at NULL. */
  lemma ClipStartsHigh(base: Word64, length: Word64)
    ensures var c := Clip(base, length);
            c.Usable? ==> KM_LOW_CUTOFF <= c.base <= KM_HIGH_CUTOFF
  {
    if base <= KM_HIGH_CUTOFF {
      ModSmall(base);
    }
  }
}
