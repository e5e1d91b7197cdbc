/** The page free list of kmem.c as a value: an address-ordered sequence of blocks.

    `AllocAddr`/`AllocRest` and `Release` are what the linked-list code does to that
    sequence; the lemmas say what it means in terms of the set of free bytes.  A coalesced
    list is a canonical form: it is determined by the bytes it covers, so every history
    that frees the same bytes ends in the same list.
 */
module FreeList {
  import opened Defs

  /** A run of `pages` pages starting at byte address `addr`. */
  datatype Block = Block(addr: nat, pages: nat) {
    function End(): nat {
      addr + pages * SZ_PAGE
    }

    predicate Has(b: int) {
      addr <= b < End()
    }
  }

  /** Non-empty blocks in ascending address order, the first at least `gap` bytes above `lo`
      and each of the others at least `gap` bytes above the end of its predecessor. */
  ghost predicate Spaced(l: seq<Block>, lo: nat, gap: nat) {
    l == [] || (lo + gap <= l[0].addr && l[0].pages > 0 && Spaced(l[1..], l[0].End(), gap))
  }

  /** Non-NULL, non-empty blocks in ascending address order that do not overlap. */
  ghost predicate Ordered(l: seq<Block>) {
    Spaced(l, 1, 0)
  }

  /** Ordered, and no two blocks touch. */
  ghost predicate Coalesced(l: seq<Block>) {
    Spaced(l, 0, 1)
  }

  ghost predicate Free(l: seq<Block>, b: int) {
    l != [] && (l[0].Has(b) || Free(l[1..], b))
  }

  ghost function FreeBytes(l: seq<Block>): iset<int> {
    iset b | Free(l, b)
  }

  ghost function Range(a: nat, n: nat): iset<int> {
    iset b | Block(a, n).Has(b)
  }

  /** What `n_pages` counts. */
  function Pages(l: seq<Block>): nat {
    if l == [] then 0 else l[0].pages + Pages(l[1..])
  }

  // ----- the operations

  /** Address of the first block of at least `n` pages, or 0 (NULL). */
  function AllocAddr(l: seq<Block>, n: nat): nat {
    if l == [] then 0
    else if l[0].pages >= n then l[0].addr
    else AllocAddr(l[1..], n)
  }

  /** The list once `n` pages have been taken from that block: unlinked on an exact fit,
      otherwise replaced by the fragment that remains above the allocated pages. */
  function AllocRest(l: seq<Block>, n: nat): seq<Block> {
    if l == [] then []
    else if l[0].pages == n then l[1..]
    else if l[0].pages > n then [Block(l[0].addr + n * SZ_PAGE, l[0].pages - n)] + l[1..]
    else [l[0]] + AllocRest(l[1..], n)
  }

  /** Put `b` in front of `l`, merging the two when they touch. */
  function Push(b: Block, l: seq<Block>): seq<Block> {
    if l != [] && b.End() == l[0].addr then [Block(b.addr, b.pages + l[0].pages)] + l[1..]
    else [b] + l
  }

  /** Give back `n` pages at `a`, merging with the predecessor and the successor where they touch. */
  function Release(l: seq<Block>, a: nat, n: nat): seq<Block> {
    if l == [] || a <= l[0].addr then Push(Block(a, n), l)
    else if (|l| == 1 || a <= l[1].addr) && l[0].End() == a then Push(Block(l[0].addr, l[0].pages + n), l[1..])
    else [l[0]] + Release(l[1..], a, n)
  }

  /** Give back several blocks, one after the other. */
  function ReleaseAll(l: seq<Block>, bs: seq<Block>): seq<Block>
    decreases |bs|
  {
    if bs == [] then l else ReleaseAll(Release(l, bs[0].addr, bs[0].pages), bs[1..])
  }

  // ----- order and the free bytes

  lemma {:induction false} Widen(l: seq<Block>, lo: nat, lo': nat, gap: nat, gap': nat)
    requires Spaced(l, lo, gap) && lo' + gap' <= lo + gap && gap' <= gap
    ensures Spaced(l, lo', gap')
    decreases |l|
  {
    if l != [] {
      Widen(l[1..], l[0].End(), l[0].End(), gap, gap');
    }
  }

  lemma CoalescedIsOrdered(l: seq<Block>)
    requires Coalesced(l)
    ensures Ordered(l)
  {
    Widen(l, 0, 1, 1, 0);
  }

  lemma {:induction false} FreeAbove(l: seq<Block>, lo: nat, gap: nat, b: int)
    requires Spaced(l, lo, gap) && Free(l, b)
    ensures lo + gap <= b
    decreases |l|
  {
    if !l[0].Has(b) {
      FreeAbove(l[1..], l[0].End(), gap, b);
    }
  }

  /** A block that starts below `l` and keeps clear of its free bytes ends below `l`. */
  lemma GapBelow(l: seq<Block>, lo: nat, gap: nat, a: nat, n: nat)
    requires Spaced(l, lo, gap) && l != [] && a <= l[0].addr
    requires forall b :: Free(l, b) ==> !Block(a, n).Has(b)
    ensures Block(a, n).End() <= l[0].addr
  {
    assert Free(l, l[0].addr);
  }

  /** Below a 32-bit limit the page counter cannot wrap: the blocks lie side by side below it. */
  lemma {:induction false} PagesBounded(l: seq<Block>, lo: nat, hi: nat)
    requires Spaced(l, lo, 0) && lo <= hi
    requires forall b :: Free(l, b) ==> b < hi
    ensures Pages(l) * SZ_PAGE <= hi - lo
    decreases |l|
  {
    if l != [] {
      assert Free(l, l[0].End() - 1);
      assert forall b :: Free(l[1..], b) ==> Free(l, b);
      PagesBounded(l[1..], l[0].End(), hi);
    }
  }

  lemma {:induction false} SpacedPairs(l: seq<Block>, lo: nat, gap: nat, i: nat, j: nat)
    requires Spaced(l, lo, gap) && j < |l| && i <= j
    ensures lo + gap <= l[i].addr && l[i].pages > 0
    ensures i < j ==> l[i].End() + gap <= l[j].addr
    decreases |l|
  {
    if i > 0 {
      SpacedPairs(l[1..], l[0].End(), gap, i - 1, j - 1);
    } else if j > 0 {
      SpacedPairs(l[1..], l[0].End(), gap, j - 1, j - 1);
    }
  }

  // ----- the canonical form

  lemma FirstBlockExtent(l: seq<Block>, lo: nat, m: seq<Block>, lo': nat)
    requires Spaced(l, lo, 1) && Spaced(m, lo', 1) && l != []
    requires forall b :: Free(l, b) <==> Free(m, b)
    ensures m != [] && m[0].addr <= l[0].addr
    ensures m[0].addr == l[0].addr ==> m[0].End() <= l[0].End()
  {
    assert Free(l, l[0].addr);
    FreeAbove(m, m[0].addr - 1, 1, l[0].addr);
    if Free(l[1..], l[0].End()) {
      FreeAbove(l[1..], l[0].End(), 1, l[0].End());
    }
    assert !Free(m, l[0].End());
  }

  lemma {:induction false} CanonicalFrom(l: seq<Block>, lo: nat, m: seq<Block>, lo': nat)
    requires Spaced(l, lo, 1) && Spaced(m, lo', 1)
    requires forall b :: Free(l, b) <==> Free(m, b)
    ensures l == m
    decreases |l|
  {
    if l == [] {
      if m != [] {
        FirstBlockExtent(m, lo', l, lo);
      }
    } else {
      FirstBlockExtent(l, lo, m, lo');
      FirstBlockExtent(m, lo', l, lo);
      assert l[0] == m[0];
      forall b
        ensures Free(l[1..], b) <==> Free(m[1..], b)
      {
        if Free(l[1..], b) {
          FreeAbove(l[1..], l[0].End(), 1, b);
        }
        if Free(m[1..], b) {
          FreeAbove(m[1..], l[0].End(), 1, b);
        }
        assert Free(l, b) <==> Free(m, b);
      }
      CanonicalFrom(l[1..], l[0].End(), m[1..], l[0].End());
      assert l == [l[0]] + l[1..] && m == [m[0]] + m[1..];
    }
  }

  /** The free bytes alone fix a coalesced list. */
  lemma Canonical(l: seq<Block>, m: seq<Block>)
    requires Coalesced(l) && Coalesced(m)
    requires FreeBytes(l) == FreeBytes(m)
    ensures l == m
  {
    forall b
      ensures Free(l, b) <==> Free(m, b)
    {
      assert b in FreeBytes(l) <==> b in FreeBytes(m);
    }
    CanonicalFrom(l, 0, m, 0);
  }

  // ----- allocation

  lemma {:induction false} AllocKeepsOrder(l: seq<Block>, lo: nat, gap: nat, n: nat)
    requires Spaced(l, lo, gap)
    ensures Spaced(AllocRest(l, n), lo, gap)
    decreases |l|
  {
    if l != [] {
      if l[0].pages == n {
        Widen(l[1..], l[0].End(), lo, gap, gap);
      } else if l[0].pages > n {
        var rest := AllocRest(l, n);
        assert rest[1..] == l[1..] && rest[0].End() == l[0].End();
      } else {
        AllocKeepsOrder(l[1..], l[0].End(), gap, n);
        assert ([l[0]] + AllocRest(l[1..], n))[1..] == AllocRest(l[1..], n);
      }
    }
  }

  lemma {:induction false} AllocFree(l: seq<Block>, lo: nat, gap: nat, n: nat, b: int)
    requires Spaced(l, lo, gap) && n >= 1 && AllocAddr(l, n) != 0
    ensures Free(AllocRest(l, n), b) <==> Free(l, b) && !Block(AllocAddr(l, n), n).Has(b)
    ensures Block(AllocAddr(l, n), n).Has(b) ==> Free(l, b)
    ensures lo + gap <= AllocAddr(l, n)
    decreases |l|
  {
    var rest := AllocRest(l, n);
    if Free(l[1..], b) {
      FreeAbove(l[1..], l[0].End(), gap, b);
    }
    if l[0].pages >= n {
      assert l[0].pages > n ==> rest[1..] == l[1..];
    } else {
      assert rest[1..] == AllocRest(l[1..], n);
      AllocFree(l[1..], l[0].End(), gap, n, b);
    }
  }

  lemma {:induction false} AllocPages(l: seq<Block>, n: nat)
    requires AllocAddr(l, n) != 0
    ensures Pages(AllocRest(l, n)) == Pages(l) - n
    decreases |l|
  {
    var rest := AllocRest(l, n);
    if l[0].pages >= n {
      assert l[0].pages > n ==> rest[1..] == l[1..];
    } else {
      assert rest[1..] == AllocRest(l[1..], n);
      AllocPages(l[1..], n);
    }
  }

  lemma {:induction false} AllocNone(l: seq<Block>, lo: nat, gap: nat, n: nat)
    requires Spaced(l, lo, gap) && lo + gap > 0 && AllocAddr(l, n) == 0
    ensures AllocRest(l, n) == l
    decreases |l|
  {
    if l != [] {
      AllocNone(l[1..], l[0].End(), gap, n);
      assert l == [l[0]] + l[1..];
    }
  }

  /** A successful allocation removes exactly the returned pages, all of which were free. */
  lemma AllocCorrect(l: seq<Block>, n: nat)
    requires Ordered(l) && n >= 1
    ensures Ordered(AllocRest(l, n))
    ensures Coalesced(l) ==> Coalesced(AllocRest(l, n))
    ensures AllocAddr(l, n) == 0 ==> AllocRest(l, n) == l
    ensures AllocAddr(l, n) != 0 ==>
              && Range(AllocAddr(l, n), n) <= FreeBytes(l)
              && FreeBytes(AllocRest(l, n)) == FreeBytes(l) - Range(AllocAddr(l, n), n)
              && Pages(AllocRest(l, n)) == Pages(l) - n
  {
    AllocKeepsOrder(l, 1, 0, n);
    if Coalesced(l) {
      AllocKeepsOrder(l, 0, 1, n);
    }
    if AllocAddr(l, n) == 0 {
      AllocNone(l, 1, 0, n);
    } else {
      AllocPages(l, n);
      forall b
        ensures Free(AllocRest(l, n), b) <==> Free(l, b) && !Block(AllocAddr(l, n), n).Has(b)
        ensures Block(AllocAddr(l, n), n).Has(b) ==> Free(l, b)
      {
        AllocFree(l, 1, 0, n, b);
      }
    }
  }

  /** Any `n` contiguous free pages lie at or above the block that first fit picks, and it picks one. */
  lemma {:induction false} RunIsServed(l: seq<Block>, lo: nat, n: nat, a: nat)
    requires Spaced(l, lo, 1) && n >= 1
    requires forall b :: Block(a, n).Has(b) ==> Free(l, b)
    ensures 0 < AllocAddr(l, n) <= a
    decreases |l|
  {
    assert Block(a, n).Has(a);
    FreeAbove(l, lo, 1, a);
    FreeAbove(l, l[0].addr - 1, 1, a);
    if l[0].pages < n {
      if l[0].Has(a) {
        assert Block(a, n).Has(l[0].End());
        FreeAbove(l[1..], l[0].End(), 1, l[0].End());
      } else {
        RunIsServed(l[1..], l[0].End(), n, a);
      }
    }
  }

  /** First fit is complete and lowest-addressed: it fails exactly when no `n` contiguous
      free pages exist, and otherwise returns the lowest address where they do. */
  lemma FirstFitExact(l: seq<Block>, n: nat)
    requires Coalesced(l) && n >= 1
    ensures AllocAddr(l, n) == 0 <==> !exists a: nat :: Range(a, n) <= FreeBytes(l)
    ensures AllocAddr(l, n) != 0 ==>
              && Range(AllocAddr(l, n), n) <= FreeBytes(l)
              && forall a: nat :: Range(a, n) <= FreeBytes(l) ==> AllocAddr(l, n) <= a
  {
    CoalescedIsOrdered(l);
    AllocCorrect(l, n);
    forall a: nat | Range(a, n) <= FreeBytes(l)
      ensures 0 < AllocAddr(l, n) <= a
    {
      forall b | Block(a, n).Has(b)
        ensures Free(l, b)
      {
        assert b in Range(a, n);
      }
      RunIsServed(l, 0, n, a);
    }
  }

  /** Without coalescing the search misses runs: two touching pages do not serve a request for two. */
  lemma TouchingBlocksMissRun()
    ensures var l := [Block(4096, 1), Block(8192, 1)];
            Ordered(l) && AllocAddr(l, 2) == 0 && Range(4096, 2) <= FreeBytes(l)
  {
    var l := [Block(4096, 1), Block(8192, 1)];
    assert l[1..] == [Block(8192, 1)];
    forall b | Block(4096, 2).Has(b)
      ensures Free(l, b)
    {
      assert l[0].Has(b) || l[1..][0].Has(b);
    }
  }

  /** The list with every group of touching blocks merged into one. */
  function Merged(l: seq<Block>): seq<Block> {
    if l == [] then [] else Push(l[0], Merged(l[1..]))
  }

  lemma {:induction false} MergedFacts(l: seq<Block>, lo: nat)
    requires Spaced(l, lo, 0)
    ensures Spaced(Merged(l), lo, 0)
    ensures forall i :: 0 <= i < |Merged(l)| - 1 ==> Merged(l)[i].End() != Merged(l)[i + 1].addr
    ensures forall b :: Free(Merged(l), b) <==> Free(l, b)
    decreases |l|
  {
    if l != [] {
      var m := Merged(l[1..]);
      MergedFacts(l[1..], l[0].End());
      if m != [] {
        Widen(m[1..], m[0].End(), m[0].End(), 0, 0);
      }
      PushFacts(l[0], m, lo, 0);
      MergedApart(l[0], m);
    }
  }

  /** Pushing onto a list without touching blocks leaves none. */
  lemma MergedApart(b: Block, m: seq<Block>)
    requires forall i :: 0 <= i < |m| - 1 ==> m[i].End() != m[i + 1].addr
    ensures var r := Push(b, m); forall i :: 0 <= i < |r| - 1 ==> r[i].End() != r[i + 1].addr
  {
    var r := Push(b, m);
    var touch := m != [] && b.End() == m[0].addr;
    forall i | 0 <= i < |r| - 1
      ensures r[i].End() != r[i + 1].addr
    {
      if touch {
        assert r[i].End() == m[i].End() && r[i + 1] == m[i + 1];
      } else {
        assert r[i + 1] == m[i];
        assert i > 0 ==> r[i] == m[i - 1];
      }
    }
  }

  lemma {:induction false} ApartIsCoalesced(l: seq<Block>, lo: nat)
    requires Spaced(l, lo, 0)
    requires forall i :: 0 <= i < |l| - 1 ==> l[i].End() != l[i + 1].addr
    requires l != [] ==> lo < l[0].addr
    ensures Spaced(l, lo, 1)
    decreases |l|
  {
    if l != [] {
      var t := l[1..];
      forall i | 0 <= i < |t| - 1
        ensures t[i].End() != t[i + 1].addr
      {
        assert t[i] == l[i + 1] && t[i + 1] == l[i + 2];
      }
      ApartIsCoalesced(t, l[0].End());
    }
  }

  lemma MergedIsCoalesced(l: seq<Block>)
    requires Ordered(l)
    ensures Coalesced(Merged(l)) && FreeBytes(Merged(l)) == FreeBytes(l)
  {
    MergedFacts(l, 1);
    Widen(Merged(l), 1, 0, 0, 0);
    ApartIsCoalesced(Merged(l), 0);
  }

  /** When first fit is right on a list that is only ordered: it returns NULL although `n` contiguous free
      pages exist exactly when the largest block is too small but some group of touching blocks is not. */
  lemma WrongNull(l: seq<Block>, n: nat)
    requires Ordered(l) && n >= 1
    ensures (exists a: nat :: Range(a, n) <= FreeBytes(l)) <==> AllocAddr(Merged(l), n) != 0
    ensures AllocAddr(l, n) == 0 && (exists a: nat :: Range(a, n) <= FreeBytes(l)) <==>
            (forall i :: 0 <= i < |l| ==> l[i].pages < n) && (exists i :: 0 <= i < |Merged(l)| && Merged(l)[i].pages >= n)
  {
    MergedIsCoalesced(l);
    CoalescedIsOrdered(Merged(l));
    FirstFitExact(Merged(l), n);
    FindsExactly(l, 1, 0, n);
    FindsExactly(Merged(l), 1, 0, n);
  }

  lemma {:induction false} FindsExactly(l: seq<Block>, lo: nat, gap: nat, n: nat)
    requires Spaced(l, lo, gap) && lo + gap > 0
    ensures AllocAddr(l, n) == 0 <==> forall i :: 0 <= i < |l| ==> l[i].pages < n
    decreases |l|
  {
    if l != [] {
      FindsExactly(l[1..], l[0].End(), gap, n);
      assert forall i :: 1 <= i < |l| ==> l[i] == l[1..][i - 1];
    }
  }

  // ----- release

  /** `(a, n)` can be given back: it is real memory and none of it is free already. */
  ghost predicate Releasable(l: seq<Block>, a: nat, n: nat) {
    a > 0 && n > 0 && forall b :: Free(l, b) ==> !Block(a, n).Has(b)
  }

  lemma PushFacts(b: Block, l: seq<Block>, lo: nat, gap: nat)
    requires gap <= 1 && lo + gap <= b.addr && b.pages > 0 && (l != [] ==> gap <= l[0].addr)
    requires l != [] ==> b.End() <= l[0].addr && Spaced(l, l[0].addr - gap, gap)
    ensures Spaced(Push(b, l), lo, gap)
    ensures Pages(Push(b, l)) == b.pages + Pages(l)
    ensures forall x :: Free(Push(b, l), x) <==> b.Has(x) || Free(l, x)
  {
    var r := Push(b, l);
    assert r[1..] == if l != [] && b.End() == l[0].addr then l[1..] else l;
    if l != [] && b.End() == l[0].addr {
      assert r[0].End() == l[0].End();
    }
  }

  lemma {:induction false} ReleaseFrom(l: seq<Block>, lo: nat, gap: nat, a: nat, n: nat)
    requires Spaced(l, lo, gap) && gap <= 1 && lo + gap <= a && Releasable(l, a, n)
    ensures Spaced(Release(l, a, n), lo, gap)
    ensures Pages(Release(l, a, n)) == Pages(l) + n
    ensures forall b :: Free(Release(l, a, n), b) <==> Free(l, b) || Block(a, n).Has(b)
    decreases |l|
  {
    if l == [] || a <= l[0].addr {
      if l != [] {
        GapBelow(l, lo, gap, a, n);
      }
      PushFacts(Block(a, n), l, lo, gap);
    } else {
      ReleaseHigher(l, lo, gap, a, n);
    }
  }

  /** The case where the freed block belongs behind the first block. */
  lemma {:induction false} ReleaseHigher(l: seq<Block>, lo: nat, gap: nat, a: nat, n: nat)
    requires Spaced(l, lo, gap) && gap <= 1 && Releasable(l, a, n)
    requires l != [] && l[0].addr < a
    ensures Spaced(Release(l, a, n), lo, gap)
    ensures Pages(Release(l, a, n)) == Pages(l) + n
    ensures forall b :: Free(Release(l, a, n), b) <==> Free(l, b) || Block(a, n).Has(b)
    decreases |l|, 0
  {
    var t := l[1..];
    assert !l[0].Has(a) by {
      assert Block(a, n).Has(a);
      assert !Free(l, a);
    }
    assert forall b :: Free(t, b) ==> Free(l, b);
    var touchesNext := t == [] || a <= t[0].addr;
    if touchesNext && l[0].End() == a {
      var b := Block(l[0].addr, l[0].pages + n);
      assert b.End() == Block(a, n).End();
      if t != [] {
        GapBelow(t, l[0].End(), gap, a, n);
      }
      PushFacts(b, t, lo, gap);
      assert forall x :: b.Has(x) <==> l[0].Has(x) || Block(a, n).Has(x);
    } else {
      ReleaseFrom(t, l[0].End(), gap, a, n);
      assert ([l[0]] + Release(t, a, n))[1..] == Release(t, a, n);
    }
  }

  /** Giving back a block adds exactly its bytes and pages, and keeps the list ordered and coalesced. */
  lemma ReleaseCorrect(l: seq<Block>, a: nat, n: nat)
    requires Ordered(l) && Releasable(l, a, n)
    ensures Ordered(Release(l, a, n))
    ensures Coalesced(l) ==> Coalesced(Release(l, a, n))
    ensures FreeBytes(Release(l, a, n)) == FreeBytes(l) + Range(a, n)
    ensures Pages(Release(l, a, n)) == Pages(l) + n
  {
    ReleaseFrom(l, 1, 0, a, n);
    if Coalesced(l) {
      ReleaseFrom(l, 0, 1, a, n);
    }
  }

  /** Allocating a block and giving it straight back restores the list exactly. */
  lemma AllocThenRelease(l: seq<Block>, n: nat)
    requires Coalesced(l) && n >= 1 && AllocAddr(l, n) != 0
    ensures Release(AllocRest(l, n), AllocAddr(l, n), n) == l
  {
    CoalescedIsOrdered(l);
    AllocCorrect(l, n);
    forall b
      ensures Free(AllocRest(l, n), b) ==> !Block(AllocAddr(l, n), n).Has(b)
    {
      assert b in FreeBytes(AllocRest(l, n)) ==> b !in Range(AllocAddr(l, n), n);
    }
    ReleaseCorrect(AllocRest(l, n), AllocAddr(l, n), n);
    Canonical(Release(AllocRest(l, n), AllocAddr(l, n), n), l);
  }

  // ----- building the list at boot

  /** `add_block`: insert by address without merging. */
  function AddTo(l: seq<Block>, b: Block): seq<Block> {
    if l == [] || b.addr <= l[0].addr then [b] + l else [l[0]] + AddTo(l[1..], b)
  }

  lemma {:induction false} AddToFrom(l: seq<Block>, lo: nat, gap: nat, b: Block)
    requires Spaced(l, lo, gap) && lo + gap <= b.addr && b.pages > 0
    requires forall x :: Free(l, x) ==> !b.Has(x)
    requires forall x :: Free(l, x) ==> !(b.addr - gap <= x < b.addr) && !(b.End() <= x < b.End() + gap)
    ensures Spaced(AddTo(l, b), lo, gap)
    ensures Pages(AddTo(l, b)) == Pages(l) + b.pages
    ensures forall x :: Free(AddTo(l, b), x) <==> Free(l, x) || b.Has(x)
    decreases |l|
  {
    if l == [] || b.addr <= l[0].addr {
      assert ([b] + l)[1..] == l;
      if l != [] {
        assert Free(l, l[0].addr);
      }
    } else {
      var t := l[1..];
      assert forall x :: Free(t, x) ==> Free(l, x);
      assert Free(l, l[0].End() - 1);
      assert Free(l, l[0].addr);
      assert b.Has(b.addr) && !Free(l, b.addr) && !l[0].Has(b.addr);
      AddToFrom(t, l[0].End(), gap, b);
      assert ([l[0]] + AddTo(t, b))[1..] == AddTo(t, b);
    }
  }

  /** `add_block` does not coalesce: the list stays coalesced exactly when neither the byte
      before the new block nor the byte after it is free. */
  lemma AddToCoalesced(l: seq<Block>, b: Block)
    requires Coalesced(l) && b.addr > 0 && b.pages > 0
    requires forall x :: Free(l, x) ==> !b.Has(x)
    ensures Coalesced(AddTo(l, b)) <==> !Free(l, b.addr - 1) && !Free(l, b.End())
  {
    if !Free(l, b.addr - 1) && !Free(l, b.End()) {
      AddToFrom(l, 0, 1, b);
    } else {
      AddToTouches(l, 0, b);
    }
  }

  lemma {:induction false} AddToTouches(l: seq<Block>, lo: nat, b: Block)
    requires Spaced(l, lo, 1) && b.pages > 0
    requires forall x :: Free(l, x) ==> !b.Has(x)
    requires Free(l, b.addr - 1) || Free(l, b.End())
    ensures !Spaced(AddTo(l, b), lo, 1)
    decreases |l|
  {
    var r := AddTo(l, b);
    assert Free(l, l[0].addr);
    if b.addr <= l[0].addr {
      assert r[1..] == l;
      if Free(l, b.addr - 1) {
        FreeAbove(l, l[0].addr - 1, 1, b.addr - 1);
      }
      FreeAbove(l, l[0].addr - 1, 1, b.End());
    } else {
      var t := l[1..];
      assert r[1..] == AddTo(t, b);
      assert forall x :: Free(t, x) ==> Free(l, x);
      assert b.Has(b.addr) && !Free(l, b.addr) && !l[0].Has(b.addr);
      if l[0].Has(b.addr - 1) {
        AddToNotBelow(t, l[0].End(), b);
      } else {
        AddToTouches(t, l[0].End(), b);
      }
    }
  }

  /** A block that starts right at `lo` leaves no gap above `lo`. */
  lemma AddToNotBelow(l: seq<Block>, lo: nat, b: Block)
    requires Spaced(l, lo, 1) && b.addr <= lo
    ensures !Spaced(AddTo(l, b), lo, 1)
  {
    assert AddTo(l, b)[0] == b;
  }

  /** Some block of the list ends where another one starts. */
  ghost predicate Touching(l: seq<Block>) {
    exists x, y :: x in l && y in l && x.End() == y.addr
  }

  /** An ordered list is coalesced exactly when no two of its blocks touch. */
  lemma CoalescedExactly(l: seq<Block>)
    requires Ordered(l)
    ensures Coalesced(l) <==> !Touching(l)
  {
    if Coalesced(l) {
      forall x, y | x in l && y in l
        ensures x.End() != y.addr
      {
        var i :| 0 <= i < |l| && l[i] == x;
        var j :| 0 <= j < |l| && l[j] == y;
        SpacedPairs(l, 0, 1, if i < j then i else j, if i < j then j else i);
      }
    } else if !Touching(l) {
      Widen(l, 1, 0, 0, 0);
      forall i | 0 <= i < |l| - 1
        ensures l[i].End() != l[i + 1].addr
      {
        assert l[i] in l && l[i + 1] in l;
      }
      ApartIsCoalesced(l, 0);
    }
  }

  // ----- any order of frees

  ghost predicate AllReleasable(l: seq<Block>, bs: seq<Block>) {
    && (forall k :: 0 <= k < |bs| ==> Releasable(l, bs[k].addr, bs[k].pages))
    && (forall j, k, b :: 0 <= j < k < |bs| && bs[j].Has(b) ==> !bs[k].Has(b))
  }

  lemma ReleaseOneOfMany(l: seq<Block>, bs: seq<Block>)
    requires Coalesced(l) && AllReleasable(l, bs) && bs != []
    ensures var l' := Release(l, bs[0].addr, bs[0].pages);
            && Coalesced(l') && AllReleasable(l', bs[1..])
            && forall b :: Free(l', b) <==> Free(l, b) || bs[0].Has(b)
  {
    ReleaseFrom(l, 0, 1, bs[0].addr, bs[0].pages);
    var l' := Release(l, bs[0].addr, bs[0].pages);
    assert Block(bs[0].addr, bs[0].pages) == bs[0];
    forall k | 0 <= k < |bs[1..]|
      ensures Releasable(l', bs[1..][k].addr, bs[1..][k].pages)
    {
      assert bs[1..][k] == bs[k + 1];
      assert Block(bs[k + 1].addr, bs[k + 1].pages) == bs[k + 1];
      assert Releasable(l, bs[k + 1].addr, bs[k + 1].pages);
    }
  }

  lemma {:induction false} ReleaseAllCorrect(l: seq<Block>, bs: seq<Block>)
    requires Coalesced(l) && AllReleasable(l, bs)
    ensures Coalesced(ReleaseAll(l, bs))
    ensures forall b :: Free(ReleaseAll(l, bs), b) <==> Free(l, b) || Free(bs, b)
    decreases |bs|
  {
    if bs != [] {
      ReleaseOneOfMany(l, bs);
      ReleaseAllCorrect(Release(l, bs[0].addr, bs[0].pages), bs[1..]);
    }
  }

  /** Two histories of frees that return the same bytes end in the same list, whatever their
      order and however the bytes were split into calls. */
  lemma FreesCommute(l: seq<Block>, bs: seq<Block>, cs: seq<Block>)
    requires Coalesced(l) && AllReleasable(l, bs) && AllReleasable(l, cs)
    requires FreeBytes(bs) == FreeBytes(cs)
    ensures ReleaseAll(l, bs) == ReleaseAll(l, cs)
  {
    ReleaseAllCorrect(l, bs);
    ReleaseAllCorrect(l, cs);
    forall b
      ensures Free(bs, b) <==> Free(cs, b)
    {
      assert b in FreeBytes(bs) <==> b in FreeBytes(cs);
    }
    CanonicalFrom(ReleaseAll(l, bs), 0, ReleaseAll(l, cs), 0);
  }

  /** The pages of an `n`-page block at `a`, one block each, lowest first. */
  function SinglePages(a: nat, n: nat): (ps: seq<Block>)
    ensures |ps| == n
    ensures forall k :: 0 <= k < n ==> ps[k] == Block(a + k * SZ_PAGE, 1)
    decreases n
  {
    if n == 0 then [] else [Block(a, 1)] + SinglePages(a + SZ_PAGE, n - 1)
  }

  lemma {:induction false} SinglePagesFree(a: nat, n: nat, b: int)
    ensures Free(SinglePages(a, n), b) <==> Block(a, n).Has(b)
    decreases n
  {
    if n > 0 {
      SinglePagesFree(a + SZ_PAGE, n - 1, b);
      assert SinglePages(a, n)[1..] == SinglePages(a + SZ_PAGE, n - 1);
    }
  }

  /** Freeing a block page by page is the same as `km_page_free_multi`. */
  lemma PageByPage(l: seq<Block>, a: nat, n: nat)
    requires Coalesced(l) && Releasable(l, a, n)
    ensures ReleaseAll(l, SinglePages(a, n)) == Release(l, a, n)
  {
    var ps := SinglePages(a, n);
    forall k | 0 <= k < |ps|
      ensures Releasable(l, ps[k].addr, ps[k].pages)
    {
      assert forall b :: Block(ps[k].addr, ps[k].pages).Has(b) ==> Block(a, n).Has(b);
    }
    var one := [Block(a, n)];
    forall b
      ensures Free(ps, b) <==> Free(one, b)
    {
      SinglePagesFree(a, n, b);
      assert one[1..] == [];
    }
    assert FreeBytes(ps) == FreeBytes(one);
    FreesCommute(l, ps, one);
    assert ReleaseAll(l, one) == ReleaseAll(Release(l, a, n), one[1..]);
  }
}
