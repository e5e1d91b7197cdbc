/** kmem.c's allocator in its own form: `Blockinfo` records stored at the start of each free block and
    of each free slice, chained through `next` and updated in place by search-and-splice loops.  Pages
    and slices share one memory.  Each method is proved against the functions of module FreeList.
 */
module PageAllocator {
  import opened Defs
  import opened FreeList

  const NULL: nat := 0

  /** The header kept at the start of a free block; `next` is an address or NULL. */
  datatype Blockinfo = Blockinfo(pages: nat, next: nat)

  /** The value of the pointer that leads to block `i`. */
  function Link(l: seq<Block>, i: nat): nat {
    if i < |l| then l[i].addr else NULL
  }

  /** Memory holds the header of block `i`: its size and the address of its successor. */
  ghost predicate HeaderAt(mem: map<nat, Blockinfo>, l: seq<Block>, i: nat)
    requires i < |l|
  {
    l[i].addr in mem && mem[l[i].addr] == Blockinfo(l[i].pages, Link(l, i + 1))
  }

  ghost predicate Linked(mem: map<nat, Blockinfo>, head: nat, l: seq<Block>) {
    && head == Link(l, 0)
    && forall i :: 0 <= i < |l| ==> HeaderAt(mem, l, i)
  }

  ghost predicate Distinct(l: seq<Block>) {
    && (forall i :: 0 <= i < |l| ==> l[i].addr != NULL)
    && (forall i, j :: 0 <= i < j < |l| ==> l[i].addr != l[j].addr)
  }

  lemma OrderedIsDistinct(l: seq<Block>)
    requires Ordered(l)
    ensures Distinct(l)
    ensures forall i, j :: 0 <= i < j < |l| ==> l[i].addr < l[j].addr
  {
    forall i | 0 <= i < |l|
      ensures l[i].addr != NULL
    {
      SpacedPairs(l, 1, 0, i, i);
    }
    forall i, j | 0 <= i < j < |l|
      ensures l[i].addr < l[j].addr
    {
      SpacedPairs(l, 1, 0, i, j);
    }
  }

  /** `*pointer = x`, where `prev` is the block holding the pointer, or NULL for the list head. */
  function SetNext(mem: map<nat, Blockinfo>, prev: nat, x: nat): map<nat, Blockinfo>
    requires prev != NULL ==> prev in mem
  {
    if prev == NULL then mem else mem[prev := mem[prev].(next := x)]
  }

  /** The address of the block before position `i`, or NULL. */
  function Before(l: seq<Block>, i: nat): nat
    requires i <= |l|
  {
    if i == 0 then NULL else l[i - 1].addr
  }

  lemma LinkedUnlink(mem: map<nat, Blockinfo>, head: nat, l: seq<Block>, i: nat)
    requires Linked(mem, head, l) && Distinct(l) && i < |l|
    requires i > 0 ==> l[i - 1].addr in mem
    ensures var x := Link(l, i + 1);
            Linked(SetNext(mem, Before(l, i), x), if i == 0 then x else head, l[..i] + l[i + 1..])
  {
    var m := SetNext(mem, Before(l, i), Link(l, i + 1));
    var l' := l[..i] + l[i + 1..];
    forall k | 0 <= k < |l'|
      ensures HeaderAt(m, l', k)
    {
      var k' := if k < i then k else k + 1;
      assert l'[k] == l[k'] && HeaderAt(mem, l, k');
    }
  }

  lemma LinkedReplace(mem: map<nat, Blockinfo>, head: nat, l: seq<Block>, i: nat, b: Block)
    requires Linked(mem, head, l) && Distinct(l) && i < |l|
    requires i > 0 ==> l[i - 1].addr in mem
    requires forall j :: 0 <= j < |l| && j != i ==> l[j].addr != b.addr
    ensures var m := mem[b.addr := Blockinfo(b.pages, Link(l, i + 1))];
            Linked(SetNext(m, Before(l, i), b.addr), if i == 0 then b.addr else head, l[i := b])
  {
    var m := SetNext(mem[b.addr := Blockinfo(b.pages, Link(l, i + 1))], Before(l, i), b.addr);
    var l' := l[i := b];
    forall k | 0 <= k < |l'|
      ensures HeaderAt(m, l', k)
    {
      assert HeaderAt(mem, l, k);
    }
  }

  lemma LinkedInsert(mem: map<nat, Blockinfo>, head: nat, l: seq<Block>, i: nat, b: Block)
    requires Linked(mem, head, l) && Distinct(l) && i <= |l|
    requires i > 0 ==> l[i - 1].addr in mem
    requires forall j :: 0 <= j < |l| ==> l[j].addr != b.addr
    ensures var m := mem[b.addr := Blockinfo(b.pages, Link(l, i))];
            Linked(SetNext(m, Before(l, i), b.addr), if i == 0 then b.addr else head, l[..i] + [b] + l[i..])
  {
    var m := SetNext(mem[b.addr := Blockinfo(b.pages, Link(l, i))], Before(l, i), b.addr);
    var l' := l[..i] + [b] + l[i..];
    forall k | 0 <= k < |l'|
      ensures HeaderAt(m, l', k)
    {
      if k != i {
        var k' := if k < i then k else k - 1;
        assert l'[k] == l[k'] && HeaderAt(mem, l, k');
      }
    }
  }

  lemma LinkedResize(mem: map<nat, Blockinfo>, head: nat, l: seq<Block>, i: nat, n: nat)
    requires Linked(mem, head, l) && Distinct(l) && i < |l|
    ensures Linked(mem[l[i].addr := Blockinfo(n, Link(l, i + 1))], head, l[i := Block(l[i].addr, n)])
  {
    var m := mem[l[i].addr := Blockinfo(n, Link(l, i + 1))];
    var l' := l[i := Block(l[i].addr, n)];
    forall k | 0 <= k < |l'|
      ensures HeaderAt(m, l', k)
    {
      assert HeaderAt(mem, l, k);
    }
  }

  // ----- sequence identities

  lemma ConsPrefix<T>(l: seq<T>, i: nat, rest: seq<T>)
    requires 1 <= i <= |l|
    ensures [l[0]] + (l[1..][..i - 1] + rest) == l[..i] + rest
  {
    assert [l[0]] + l[1..][..i - 1] == l[..i];
  }

  lemma EmptyPrefix<T>(l: seq<T>, rest: seq<T>)
    ensures l[..0] + rest == rest
  {
  }

  lemma UpdateAsConcat<T>(l: seq<T>, i: nat, x: T)
    requires i < |l|
    ensures l[i := x] == l[..i] + ([x] + l[i + 1..])
  {
  }

  lemma MergeAsConcat<T>(l: seq<T>, k: nat, x: T)
    requires k + 1 < |l|
    ensures (l[..k + 1] + l[k + 2..])[k := x] == l[..k] + ([x] + l[k + 1..][1..])
  {
    var m := l[..k + 1] + l[k + 2..];
    UpdateAsConcat(m, k, x);
    assert m[..k] == l[..k] && m[k + 1..] == l[k + 2..] == l[k + 1..][1..];
  }

  lemma ReplacedTail<T>(l: seq<T>, k: nat, x: T)
    requires k < |l|
    ensures l[k := x][..k] == l[..k] && l[k := x][k + 1..] == l[k + 1..]
  {
  }

  lemma InsertedTail<T>(l: seq<T>, i: nat, x: T)
    requires i <= |l|
    ensures (l[..i] + [x] + l[i..])[..i] == l[..i] && (l[..i] + [x] + l[i..])[i + 1..] == l[i..]
  {
  }

  lemma DistinctResize(l: seq<Block>, i: nat, n: nat)
    requires Distinct(l) && i < |l|
    ensures Distinct(l[i := Block(l[i].addr, n)])
  {
  }

  lemma DistinctInsert(l: seq<Block>, i: nat, b: Block)
    requires Distinct(l) && i <= |l| && b.addr != NULL
    requires forall j :: 0 <= j < |l| ==> l[j].addr != b.addr
    ensures Distinct(l[..i] + [b] + l[i..])
  {
  }

  // ----- the list operations at the position found by the search loops

  lemma {:induction false} AllocExactFit(l: seq<Block>, i: nat, n: nat)
    requires i < |l| && l[i].pages == n && forall j :: 0 <= j < i ==> l[j].pages < n
    ensures AllocAddr(l, n) == l[i].addr
    ensures AllocRest(l, n) == l[..i] + l[i + 1..]
    decreases i
  {
    if i == 0 {
      EmptyPrefix(l, l[1..]);
    } else {
      AllocExactFit(l[1..], i - 1, n);
      assert l[1..][i..] == l[i + 1..];
      ConsPrefix(l, i, l[i + 1..]);
    }
  }

  lemma {:induction false} AllocSplit(l: seq<Block>, i: nat, n: nat)
    requires i < |l| && l[i].pages > n && forall j :: 0 <= j < i ==> l[j].pages < n
    ensures AllocAddr(l, n) == l[i].addr
    ensures AllocRest(l, n) == l[i := Block(l[i].addr + n * SZ_PAGE, l[i].pages - n)]
    decreases i
  {
    var b := Block(l[i].addr + n * SZ_PAGE, l[i].pages - n);
    if i == 0 {
      UpdateAsConcat(l, 0, b);
      EmptyPrefix(l, [b] + l[1..]);
    } else {
      AllocSplit(l[1..], i - 1, n);
      assert [l[0]] + l[1..][i - 1 := b] == l[i := b];
    }
  }

  lemma {:induction false} AllocFails(l: seq<Block>, n: nat)
    requires forall j :: 0 <= j < |l| ==> l[j].pages < n
    ensures AllocAddr(l, n) == NULL
    decreases |l|
  {
    if l != [] {
      AllocFails(l[1..], n);
    }
  }

  lemma {:induction false} ReleaseInsert(l: seq<Block>, i: nat, a: nat, n: nat)
    requires i <= |l| && (forall j :: 0 <= j < i ==> l[j].addr < a) && (i < |l| ==> a <= l[i].addr)
    requires i > 0 ==> l[i - 1].End() != a
    ensures Release(l, a, n) == l[..i] + Push(Block(a, n), l[i..])
    decreases i
  {
    if i == 0 {
      assert l[0..] == l;
      EmptyPrefix(l, Push(Block(a, n), l));
    } else {
      ReleaseInsert(l[1..], i - 1, a, n);
      assert l[1..][i - 1..] == l[i..];
      ConsPrefix(l, i, Push(Block(a, n), l[i..]));
    }
  }

  lemma {:induction false} ReleaseExtend(l: seq<Block>, i: nat, a: nat, n: nat)
    requires i < |l| && (forall j :: 0 <= j <= i ==> l[j].addr < a) && (i + 1 < |l| ==> a <= l[i + 1].addr)
    requires l[i].End() == a
    ensures Release(l, a, n) == l[..i] + Push(Block(l[i].addr, l[i].pages + n), l[i + 1..])
    decreases i
  {
    var b := Block(l[i].addr, l[i].pages + n);
    if i == 0 {
      EmptyPrefix(l, Push(b, l[1..]));
    } else {
      assert Release(l, a, n) == [l[0]] + Release(l[1..], a, n) by {
        assert l[1].addr < a && l[0].addr < a;
      }
      ReleaseExtend(l[1..], i - 1, a, n);
      assert l[1..][i..] == l[i + 1..];
      ConsPrefix(l, i, Push(b, l[i + 1..]));
    }
  }

  /** Block `k` merged with its successor when they touch. */
  function MergedAt(l: seq<Block>, k: nat): seq<Block>
    requires k < |l|
  {
    l[..k] + Push(l[k], l[k + 1..])
  }

  /** Block `i` grown by `n` pages. */
  function Grown(l: seq<Block>, i: nat, n: nat): seq<Block>
    requires i < |l|
  {
    l[i := Block(l[i].addr, l[i].pages + n)]
  }

  /** A new block at position `i`. */
  function Inserted(l: seq<Block>, i: nat, b: Block): seq<Block>
    requires i <= |l|
  {
    l[..i] + [b] + l[i..]
  }

  /** The two ways of putting a freed block into the list: growing the predecessor, or a new block. */
  function PlacedAt(l: seq<Block>, i: nat, a: nat, n: nat): seq<Block>
    requires i <= |l|
  {
    if i > 0 && l[i - 1].End() == a then MergedAt(Grown(l, i - 1, n), i - 1)
    else MergedAt(Inserted(l, i, Block(a, n)), i)
  }

  lemma GrownIsReleased(l: seq<Block>, i: nat, a: nat, n: nat)
    requires i < |l| && (forall j :: 0 <= j <= i ==> l[j].addr < a) && (i + 1 < |l| ==> a <= l[i + 1].addr)
    requires l[i].End() == a
    ensures MergedAt(Grown(l, i, n), i) == Release(l, a, n)
  {
    ReleaseExtend(l, i, a, n);
    ReplacedTail(l, i, Block(l[i].addr, l[i].pages + n));
  }

  lemma InsertedIsReleased(l: seq<Block>, i: nat, a: nat, n: nat)
    requires i <= |l| && (forall j :: 0 <= j < i ==> l[j].addr < a) && (i < |l| ==> a <= l[i].addr)
    requires i > 0 ==> l[i - 1].End() != a
    ensures MergedAt(Inserted(l, i, Block(a, n)), i) == Release(l, a, n)
  {
    ReleaseInsert(l, i, a, n);
    InsertedTail(l, i, Block(a, n));
  }

  /** At the position found by the search loop, that is a release. */
  lemma PlacedIsReleased(l: seq<Block>, i: nat, a: nat, n: nat)
    requires i <= |l| && (forall j :: 0 <= j < i ==> l[j].addr < a) && (i < |l| ==> a <= l[i].addr)
    ensures PlacedAt(l, i, a, n) == Release(l, a, n)
  {
    if i > 0 && l[i - 1].End() == a {
      GrownIsReleased(l, i - 1, a, n);
    } else {
      InsertedIsReleased(l, i, a, n);
    }
  }

  // ----- slices

  const SZ_SLICE := 1024

  function SliceLink(l: seq<nat>, i: nat): nat {
    if i < |l| then l[i] else NULL
  }

  ghost predicate SliceAt(mem: map<nat, Blockinfo>, l: seq<nat>, i: nat)
    requires i < |l|
  {
    l[i] != NULL && l[i] in mem && mem[l[i]] == Blockinfo(SZ_SLICE, SliceLink(l, i + 1))
  }

  predicate SliceHas(s: nat, b: int) {
    s <= b < s + SZ_SLICE
  }

  predicate SlicesDisjoint(s: nat, t: nat) {
    s + SZ_SLICE <= t || t + SZ_SLICE <= s
  }

  /** The slice list: headers chained through `next`; no two slices overlap. */
  ghost predicate SliceChain(mem: map<nat, Blockinfo>, head: nat, ss: seq<nat>) {
    && head == SliceLink(ss, 0)
    && (forall i :: 0 <= i < |ss| ==> SliceAt(mem, ss, i))
    && (forall i, j :: 0 <= i < j < |ss| ==> SlicesDisjoint(ss[i], ss[j]))
  }

  /** No byte of a slice is on the page list. */
  ghost predicate SlicesOff(l: seq<Block>, ss: seq<nat>) {
    forall s, b :: s in ss && Free(l, b) ==> !SliceHas(s, b)
  }

  /** No byte of a slice is in the block. */
  ghost predicate BlockOff(a: nat, n: nat, ss: seq<nat>) {
    forall s, b :: s in ss && Block(a, n).Has(b) ==> !SliceHas(s, b)
  }

  /** No page header is where a slice starts. */
  ghost predicate Apart(l: seq<Block>, ss: seq<nat>) {
    forall i :: 0 <= i < |l| ==> l[i].addr !in ss
  }

  /** The headers of the slices are as they were. */
  ghost predicate SlicesKept(m: map<nat, Blockinfo>, m': map<nat, Blockinfo>, ss: seq<nat>) {
    forall s :: s in ss && s in m ==> s in m' && m'[s] == m[s]
  }

  lemma SlicesOffApart(l: seq<Block>, ss: seq<nat>)
    requires Ordered(l) && SlicesOff(l, ss)
    ensures Apart(l, ss)
  {
    forall i | 0 <= i < |l|
      ensures l[i].addr !in ss
    {
      SpacedPairs(l, 1, 0, i, i);
      BlockStartsFree(l, i);
      assert SliceHas(l[i].addr, l[i].addr);
    }
  }

  lemma ChainKept(m: map<nat, Blockinfo>, m': map<nat, Blockinfo>, head: nat, ss: seq<nat>)
    requires SliceChain(m, head, ss) && SlicesKept(m, m', ss)
    ensures SliceChain(m', head, ss)
  {
    forall i | 0 <= i < |ss|
      ensures SliceAt(m', ss, i)
    {
      assert SliceAt(m, ss, i);
    }
  }

  /** Writing a slice header leaves the page headers alone. */
  lemma LinkedKept(mem: map<nat, Blockinfo>, head: nat, l: seq<Block>, s: nat, h: Blockinfo)
    requires Linked(mem, head, l) && forall i :: 0 <= i < |l| ==> l[i].addr != s
    ensures Linked(mem[s := h], head, l)
  {
    var m := mem[s := h];
    forall i | 0 <= i < |l|
      ensures HeaderAt(m, l, i)
    {
      assert HeaderAt(mem, l, i);
    }
  }

  lemma ChainPush(mem: map<nat, Blockinfo>, head: nat, ss: seq<nat>, s: nat)
    requires SliceChain(mem, head, ss) && s != NULL && forall t :: t in ss ==> SlicesDisjoint(s, t)
    ensures SliceChain(mem[s := Blockinfo(SZ_SLICE, head)], s, [s] + ss)
  {
    var m, r := mem[s := Blockinfo(SZ_SLICE, head)], [s] + ss;
    forall i | 0 <= i < |r|
      ensures SliceAt(m, r, i)
    {
      if i > 0 {
        assert SliceAt(mem, ss, i - 1) && r[i] == ss[i - 1] && ss[i - 1] in ss;
      }
    }
  }

  lemma ChainPop(mem: map<nat, Blockinfo>, head: nat, ss: seq<nat>)
    requires SliceChain(mem, head, ss) && ss != []
    ensures head == ss[0] && head in mem && SliceChain(mem, mem[head].next, ss[1..])
  {
    assert SliceAt(mem, ss, 0);
    forall i | 0 <= i < |ss| - 1
      ensures SliceAt(mem, ss[1..], i)
    {
      assert SliceAt(mem, ss, i + 1);
    }
  }

  /** The four slices of a page, in the order in which carving leaves them on the list. */
  function CarvedSlices(page: nat): seq<nat> {
    [page + 3 * SZ_SLICE, page + 2 * SZ_SLICE, page + SZ_SLICE, page]
  }

  /** The first `i` slices of a page, last one first. */
  ghost function Carved(page: nat, i: nat): (c: seq<nat>)
    ensures forall s :: s in c ==> page <= s && s + SZ_SLICE <= page + i * SZ_SLICE
  {
    if i == 0 then [] else [page + (i - 1) * SZ_SLICE] + Carved(page, i - 1)
  }

  lemma CarvedFour(page: nat)
    ensures Carved(page, 4) == CarvedSlices(page)
  {
    assert Carved(page, 1) == [page];
    assert Carved(page, 2) == [page + SZ_SLICE, page];
    assert Carved(page, 3) == [page + 2 * SZ_SLICE, page + SZ_SLICE, page];
  }

  lemma NextCarved(page: nat, i: nat, rest: seq<nat>, n: nat)
    ensures [page + i * SZ_SLICE] + (Carved(page, i) + rest) == Carved(page, i + 1) + rest
    ensures ((n + 2 * i) % TWO_32 + 2) % TWO_32 == (n + 2 * (i + 1)) % TWO_32
  {
    assert Carved(page, i + 1) == [page + i * SZ_SLICE] + Carved(page, i);
  }

  lemma CountTwice(n: nat)
    ensures ((n % TWO_32 + 1) % TWO_32 + 1) % TWO_32 == (n + 2) % TWO_32
  {
  }

  class Kmem {
    var mem: map<nat, Blockinfo>   // memory, as far as the allocator's headers are concerned
    var freePages: nat
    var nPages: nat
    ghost var list: seq<Block>     // the blocks on the free list, in list order

    var freeSlices: nat
    var nSlices: nat
    ghost var slices: seq<nat>     // the slices on the free list, in list order

    /** The two lists are well linked, although blocks may overlap: the state while the map is read. */
    ghost predicate Chained()
      reads this
    {
      && Linked(mem, freePages, list) && Ascending(list) && nPages == Pages(list)
      && SliceChain(mem, freeSlices, slices) && Apart(list, slices) && nSlices < TWO_32
    }

    ghost predicate Valid()
      reads this
    {
      && Ordered(list) && Linked(mem, freePages, list) && nPages == Pages(list)
      && SliceChain(mem, freeSlices, slices) && SlicesOff(list, slices) && nSlices < TWO_32
    }

    /** Push a slice on the slice list. */
    method SliceFree(block: nat)
      requires Valid() && block != NULL && SlicesOff(list, [block])
      requires forall s :: s in slices ==> SlicesDisjoint(block, s)
      modifies this`mem, this`freeSlices, this`nSlices, this`slices
      ensures Valid() && slices == [block] + old(slices)
      ensures nSlices == (old(nSlices) + 1) % TWO_32
    {
      SlicesOffApart(list, [block]);
      LinkedKept(mem, freePages, list, block, Blockinfo(SZ_SLICE, freeSlices));
      ChainPush(mem, freeSlices, slices, block);
      mem := mem[block := Blockinfo(SZ_SLICE, freeSlices)];
      freeSlices := block;
      nSlices := (nSlices + 1) % TWO_32;
      assert block in [block];
      slices := [block] + slices;
    }

    /** Push one carved slice: the push counts it, and so does the carving loop. */
    method CarveOne(ptr: nat)
      requires Valid() && ptr != NULL && SlicesOff(list, [ptr])
      requires forall s :: s in slices ==> SlicesDisjoint(ptr, s)
      modifies this`mem, this`freeSlices, this`nSlices, this`slices
      ensures Valid() && slices == [ptr] + old(slices)
      ensures nSlices == (old(nSlices) + 2) % TWO_32
    {
      CountTwice(nSlices);
      SliceFree(ptr);
      nSlices := (nSlices + 1) % TWO_32;
    }

    /** Split `page`, which is on neither list, into four slices and push them. */
    method PushFour(page: nat)
      requires Valid() && page != NULL && BlockOff(page, 1, slices)
      requires forall b :: Block(page, 1).Has(b) ==> !Free(list, b)
      modifies this`mem, this`freeSlices, this`nSlices, this`slices
      ensures Valid() && slices == CarvedSlices(page) + old(slices)
      ensures nSlices == (old(nSlices) + 8) % TWO_32
    {
      var ptr, i := page, 0;
      ghost var slices0 := slices;
      while i < 4
        invariant 0 <= i <= 4 && ptr == page + i * SZ_SLICE && Valid()
        invariant slices == Carved(page, i) + slices0
        invariant nSlices == (old(nSlices) + 2 * i) % TWO_32
      {
        NewSlice(page, i, list, slices0);
        NextCarved(page, i, slices0, old(nSlices));
        CarveOne(ptr);
        ptr := ptr + SZ_SLICE;
        i := i + 1;
      }
      CarvedFour(page);
    }

    /** Turn a page into four slices; `ok` is false where the kernel panics for want of a page. */
    method CarveSlices() returns (ok: bool)
      requires Valid()
      modifies this
      ensures Valid()
      ensures ok <==> AllocAddr(old(list), 1) != NULL
      ensures list == AllocRest(old(list), 1)
      ensures !ok ==> slices == old(slices) && nSlices == old(nSlices)
      ensures ok ==> slices == CarvedSlices(AllocAddr(old(list), 1)) + old(slices)
      ensures ok ==> nSlices == (old(nSlices) + 8) % TWO_32
    {
      ghost var l := list;
      var page := PageAlloc(1);
      ok := page != NULL;
      if ok {
        AllocatedIsOff(l, 1, slices);
        PushFour(page);
      }
    }

    /** Take a slice, carving a page first when there is none; not `ok` where the kernel panics. */
    method SliceAlloc() returns (ok: bool, slice: nat)
      requires Valid()
      modifies this
      ensures Valid()
      ensures ok <==> old(slices) != [] || AllocAddr(old(list), 1) != NULL
      ensures !ok ==> list == old(list) && slices == old(slices) && nSlices == old(nSlices)
      ensures old(slices) != [] ==>
                && list == old(list) && [slice] + slices == old(slices)
                && nSlices == (old(nSlices) - 1) % TWO_32
      ensures old(slices) == [] && ok ==>
                && list == AllocRest(old(list), 1)
                && [slice] + slices == CarvedSlices(AllocAddr(old(list), 1))
                && nSlices == (old(nSlices) + 7) % TWO_32
    {
      ok, slice := true, NULL;
      if freeSlices == NULL {
        assert slices == [] by {
          assert slices != [] ==> SliceAt(mem, slices, 0);
        }
        ok := CarveSlices();
        if !ok {
          AllocCorrect(old(list), 1);
          return;
        }
      }
      slice := PopSlice();
    }

    /** Unlink the first slice. */
    method PopSlice() returns (slice: nat)
      requires Valid() && slices != []
      modifies this`freeSlices, this`nSlices, this`slices
      ensures Valid() && [slice] + slices == old(slices)
      ensures nSlices == (old(nSlices) - 1) % TWO_32
    {
      ChainPop(mem, freeSlices, slices);
      slice := freeSlices;
      nSlices := (nSlices - 1) % TWO_32;
      freeSlices := mem[slice].next;
      slices := slices[1..];
    }

    /** The search loop of the allocation: the first block of at least `count` pages and its predecessor. */
    method FindFit(count: nat) returns (prev: nat, block: nat, ghost i: nat)
      requires Linked(mem, freePages, list) && Distinct(list)
      ensures i <= |list| && block == Link(list, i) && prev == Before(list, i)
      ensures i < |list| ==> HeaderAt(mem, list, i) && list[i].pages >= count
      ensures forall j :: 0 <= j < i ==> list[j].pages < count
    {
      prev, block, i := NULL, freePages, 0;
      while block != NULL && mem[block].pages < count
        invariant 0 <= i <= |list| && block == Link(list, i) && prev == Before(list, i)
        invariant forall j :: 0 <= j < i ==> list[j].pages < count
        invariant i < |list| ==> HeaderAt(mem, list, i)
        decreases |list| - i
      {
        prev, block := block, mem[block].next;
        i := i + 1;
      }
    }

    /** The search loop of the release: the last block below `addr` and the first at or above it. */
    method FindGap(addr: nat) returns (prev: nat, curr: nat, ghost i: nat)
      requires Linked(mem, freePages, list) && Distinct(list)
      ensures i <= |list| && curr == Link(list, i) && prev == Before(list, i)
      ensures i > 0 ==> HeaderAt(mem, list, i - 1)
      ensures i < |list| ==> addr <= list[i].addr
      ensures forall j :: 0 <= j < i ==> list[j].addr < addr
    {
      prev, curr, i := NULL, freePages, 0;
      while curr != NULL && curr < addr
        invariant 0 <= i <= |list| && curr == Link(list, i) && prev == Before(list, i)
        invariant forall j :: 0 <= j < i ==> list[j].addr < addr
        invariant i < |list| ==> HeaderAt(mem, list, i)
        decreases |list| - i
      {
        prev, curr := curr, mem[curr].next;
        i := i + 1;
      }
    }

    /** Unlink block `i`, whose predecessor is `prev`. */
    method Unlink(prev: nat, block: nat, ghost i: nat)
      requires Linked(mem, freePages, list) && Distinct(list) && i < |list|
      requires block == list[i].addr && prev == Before(list, i)
      requires Apart(list, slices)
      modifies this`mem, this`freePages, this`list
      ensures list == old(list[..i] + list[i + 1..]) && Linked(mem, freePages, list) && Distinct(list)
      ensures Apart(list, slices) && SlicesKept(old(mem), mem, slices)
    {
      assert HeaderAt(mem, list, i) && (i > 0 ==> HeaderAt(mem, list, i - 1));
      LinkedUnlink(mem, freePages, list, i);
      var next := mem[block].next;
      mem := SetNext(mem, prev, next);
      freePages := if prev == NULL then next else freePages;
      list := list[..i] + list[i + 1..];
    }

    /** Put the record `(addr, pages)` in the place of block `i`. */
    method Replace(prev: nat, block: nat, addr: nat, pages: nat, ghost i: nat)
      requires Linked(mem, freePages, list) && Distinct(list) && i < |list|
      requires block == list[i].addr && prev == Before(list, i)
      requires forall j :: 0 <= j < |list| && j != i ==> list[j].addr != addr
      requires addr !in slices
      requires Apart(list, slices)
      modifies this`mem, this`freePages, this`list
      ensures list == old(list[i := Block(addr, pages)]) && Linked(mem, freePages, list)
      ensures Apart(list, slices) && SlicesKept(old(mem), mem, slices)
    {
      assert HeaderAt(mem, list, i) && (i > 0 ==> HeaderAt(mem, list, i - 1));
      LinkedReplace(mem, freePages, list, i, Block(addr, pages));
      mem := mem[addr := Blockinfo(pages, mem[block].next)];
      mem := SetNext(mem, prev, addr);
      freePages := if prev == NULL then addr else freePages;
      list := list[i := Block(addr, pages)];
    }

    /** Link the record `(addr, pages)` in between `prev` and `curr`. */
    method Insert(prev: nat, curr: nat, addr: nat, pages: nat, ghost i: nat)
      requires Linked(mem, freePages, list) && Distinct(list) && i <= |list|
      requires curr == Link(list, i) && prev == Before(list, i)
      requires addr != NULL && forall j :: 0 <= j < |list| ==> list[j].addr != addr
      requires addr !in slices
      requires Apart(list, slices)
      modifies this`mem, this`freePages, this`list
      ensures list == Inserted(old(list), i, Block(addr, pages)) && Linked(mem, freePages, list) && Distinct(list)
      ensures list[i].addr == addr && Link(list, i + 1) == curr
      ensures Apart(list, slices) && SlicesKept(old(mem), mem, slices)
    {
      DistinctInsert(list, i, Block(addr, pages));
      assert i > 0 ==> HeaderAt(mem, list, i - 1);
      LinkedInsert(mem, freePages, list, i, Block(addr, pages));
      mem := mem[addr := Blockinfo(pages, curr)];
      mem := SetNext(mem, prev, addr);
      freePages := if prev == NULL then addr else freePages;
      list := Inserted(list, i, Block(addr, pages));
    }

    /** Grow block `i` by `count` pages. */
    method Grow(block: nat, count: nat, ghost i: nat)
      requires Linked(mem, freePages, list) && Distinct(list) && i < |list| && block == list[i].addr
      requires Apart(list, slices)
      modifies this`mem, this`list
      ensures list == Grown(old(list), i, count) && Linked(mem, freePages, list) && Distinct(list)
      ensures list[i].addr == block && Link(list, i + 1) == old(Link(list, i + 1))
      ensures Apart(list, slices) && SlicesKept(old(mem), mem, slices)
    {
      assert HeaderAt(mem, list, i);
      LinkedResize(mem, freePages, list, i, list[i].pages + count);
      DistinctResize(list, i, list[i].pages + count);
      mem := mem[block := mem[block].(pages := mem[block].pages + count)];
      list := Grown(list, i, count);
    }

    /** First fit; NULL for a request of no pages or when no block is large enough. */
    method PageAlloc(count: nat) returns (block: nat)
      requires Valid()
      modifies this`mem, this`freePages, this`nPages, this`list
      ensures Valid()
      ensures count == 0 ==> block == NULL && list == old(list)
      ensures count >= 1 ==> block == AllocAddr(old(list), count) && list == AllocRest(old(list), count)
    {
      if count < 1 {
        return NULL;
      }
      OrderedIsDistinct(list);
      SlicesOffApart(list, slices);
      AllocCorrect(list, count);
      var prev;
      ghost var i;
      prev, block, i := FindFit(count);
      if block == NULL {
        AllocFails(list, count);
        return;
      }
      if mem[block].pages == count {
        AllocExactFit(list, i, count);
        Unlink(prev, block, i);
      } else {
        Split(prev, block, count, i);
      }
      nPages := nPages - count;
      ChainKept(old(mem), mem, freeSlices, slices);
      AllocKeepsOff(old(list), count, slices);
    }

    /** Replace a block by the fragment above its first `count` pages. */
    method Split(prev: nat, block: nat, count: nat, ghost i: nat)
      requires Valid() && count >= 1 && i < |list| && block == list[i].addr && prev == Before(list, i)
      requires list[i].pages > count && forall j :: 0 <= j < i ==> list[j].pages < count
      modifies this`mem, this`freePages, this`list
      ensures block == AllocAddr(old(list), count) && list == AllocRest(old(list), count)
      ensures Linked(mem, freePages, list) && SlicesKept(old(mem), mem, slices)
    {
      OrderedIsDistinct(list);
      SlicesOffApart(list, slices);
      AllocSplit(list, i, count);
      assert HeaderAt(mem, list, i);
      var excess := mem[block].pages - count;
      var fragment := block + count * SZ_PAGE;
      FragmentIsNew(list, i, fragment);
      FragmentIsOff(list, i, fragment, slices);
      Replace(prev, block, fragment, excess, i);
    }

    /** Give `count` pages at `block`, in which no slice is free, back to the pool; NULL is ignored. */
    method PageFreeMulti(block: nat, count: nat)
      requires Valid()
      requires block != NULL ==> Releasable(list, block, count) && BlockOff(block, count, slices)
      modifies this`mem, this`freePages, this`nPages, this`list
      ensures Valid()
      ensures block == NULL ==> list == old(list)
      ensures block != NULL ==> list == Release(old(list), block, count)
    {
      if block == NULL {
        return;
      }
      OrderedIsDistinct(list);
      SlicesOffApart(list, slices);
      ReleasableIsNew(list, block, count);
      ReleaseCorrect(list, block, count);
      OffStart(block, count, slices);
      ghost var i := Splice(block, count);
      PlacedIsReleased(old(list), i, block, count);
      nPages := nPages + count;
      ChainKept(old(mem), mem, freeSlices, slices);
      ReleaseKeepsOff(old(list), block, count, slices);
    }

    /** Insert the block at its place in the list and merge it with its neighbours. */
    method Splice(block: nat, count: nat) returns (ghost i: nat)
      requires Linked(mem, freePages, list) && Distinct(list) && block != NULL
      requires forall j :: 0 <= j < |list| ==> list[j].addr != block
      requires block !in slices
      requires Apart(list, slices)
      modifies this`mem, this`freePages, this`list
      ensures i <= |old(list)| && (i < |old(list)| ==> block <= old(list)[i].addr)
      ensures forall j :: 0 <= j < i ==> old(list)[j].addr < block
      ensures list == PlacedAt(old(list), i, block, count) && Linked(mem, freePages, list)
      ensures Apart(list, slices) && SlicesKept(old(mem), mem, slices)
    {
      var prev, curr;
      prev, curr, i := FindGap(block);
      ghost var touches := i > 0 && list[i - 1].End() == block;
      assert touches <==> prev != NULL && prev + mem[prev].pages * SZ_PAGE == block;
      if prev != NULL && prev + mem[prev].pages * SZ_PAGE == block {
        Extend(prev, curr, count, i - 1);
      } else {
        Place(prev, curr, block, count, i);
      }
    }

    /** Grow block `i` by `count` pages and merge it with its successor when they touch. */
    method Extend(prev: nat, curr: nat, count: nat, ghost i: nat)
      requires Linked(mem, freePages, list) && Distinct(list) && i < |list|
      requires prev == list[i].addr && curr == Link(list, i + 1)
      requires Apart(list, slices)
      modifies this`mem, this`freePages, this`list
      ensures list == MergedAt(Grown(old(list), i, count), i) && Linked(mem, freePages, list)
      ensures Apart(list, slices) && SlicesKept(old(mem), mem, slices)
    {
      Grow(prev, count, i);
      MergeNext(prev, curr, i);
    }

    /** Insert a block at position `i` and merge it with its successor when they touch. */
    method Place(prev: nat, curr: nat, block: nat, count: nat, ghost i: nat)
      requires Linked(mem, freePages, list) && Distinct(list) && i <= |list| && block != NULL
      requires prev == Before(list, i) && curr == Link(list, i)
      requires forall j :: 0 <= j < |list| ==> list[j].addr != block
      requires block !in slices
      requires Apart(list, slices)
      modifies this`mem, this`freePages, this`list
      ensures list == MergedAt(Inserted(old(list), i, Block(block, count)), i) && Linked(mem, freePages, list)
      ensures Apart(list, slices) && SlicesKept(old(mem), mem, slices)
    {
      Insert(prev, curr, block, count, i);
      MergeNext(block, curr, i);
    }

    /** Add a block found at boot: rounded down to whole pages, inserted by address, not merged.  It may
        overlap other blocks; only its start must be new. */
    method AddBlock(base: nat, length: nat)
      requires Chained() && base != NULL && base !in slices
      requires length >= SZ_PAGE ==> forall j :: 0 <= j < |list| ==> list[j].addr != base
      modifies this`mem, this`freePages, this`nPages, this`list
      ensures Chained()
      ensures length < SZ_PAGE ==> list == old(list)
      ensures length >= SZ_PAGE ==> list == AddTo(old(list), Block(base, length / SZ_PAGE))
    {
      if length < SZ_PAGE {
        return;
      }
      AddPages(base, length / SZ_PAGE);
    }

    method AddPages(base: nat, pages: nat)
      requires Chained() && base != NULL && base !in slices
      requires forall j :: 0 <= j < |list| ==> list[j].addr != base
      modifies this`mem, this`freePages, this`nPages, this`list
      ensures Chained() && list == AddTo(old(list), Block(base, pages))
    {
      var prev, curr;
      ghost var i;
      prev, curr, i := FindGap(base);
      AddToAt(list, i, Block(base, pages));
      AddToPages(list, Block(base, pages));
      InsertAscending(list, i, Block(base, pages));
      Insert(prev, curr, base, pages, i);
      nPages := nPages + pages;
      ChainKept(old(mem), mem, freeSlices, slices);
    }

    /** Merge block `k` with its successor `curr` when they touch. */
    method MergeNext(used: nat, curr: nat, ghost k: nat)
      requires Linked(mem, freePages, list) && Distinct(list) && k < |list|
      requires used == list[k].addr && curr == Link(list, k + 1)
      requires Apart(list, slices)
      modifies this`mem, this`freePages, this`list
      ensures list == MergedAt(old(list), k) && Linked(mem, freePages, list)
      ensures Apart(list, slices) && SlicesKept(old(mem), mem, slices)
    {
      assert HeaderAt(mem, list, k) && (k + 1 < |list| ==> HeaderAt(mem, list, k + 1));
      if curr != NULL && used + mem[used].pages * SZ_PAGE == curr {
        var pages := mem[curr].pages;
        MergeAsConcat(list, k, Block(used, list[k].pages + pages));
        Unlink(used, curr, k + 1);
        Grow(used, pages, k);
      } else {
        UpdateAsConcat(list, k, list[k]);
      }
    }
  }

  lemma {:induction false} AddToAt(l: seq<Block>, i: nat, b: Block)
    requires i <= |l| && (forall j :: 0 <= j < i ==> l[j].addr < b.addr) && (i < |l| ==> b.addr <= l[i].addr)
    ensures AddTo(l, b) == Inserted(l, i, b)
    decreases i
  {
    if i == 0 {
      assert Inserted(l, 0, b) == [b] + l;
    } else {
      AddToAt(l[1..], i - 1, b);
      assert Inserted(l, i, b) == [l[0]] + Inserted(l[1..], i - 1, b);
    }
  }

  /** Strictly ascending addresses, none of them NULL. */
  ghost predicate Ascending(l: seq<Block>) {
    Distinct(l) && forall i, j :: 0 <= i < j < |l| ==> l[i].addr < l[j].addr
  }

  lemma InsertAscending(l: seq<Block>, i: nat, b: Block)
    requires Ascending(l) && i <= |l| && b.addr != NULL && (forall j :: 0 <= j < |l| ==> l[j].addr != b.addr)
    requires (forall j :: 0 <= j < i ==> l[j].addr < b.addr) && (i < |l| ==> b.addr <= l[i].addr)
    ensures Ascending(Inserted(l, i, b))
  {
    DistinctInsert(l, i, b);
  }

  lemma {:induction false} AddToPages(l: seq<Block>, b: Block)
    ensures Pages(AddTo(l, b)) == Pages(l) + b.pages
    decreases |l|
  {
    if l == [] || b.addr <= l[0].addr {
      assert ([b] + l)[1..] == l;
    } else {
      AddToPages(l[1..], b);
      assert ([l[0]] + AddTo(l[1..], b))[1..] == AddTo(l[1..], b);
    }
  }

  // ----- slices and the page list

  /** The next slice of a page that is on neither list overlaps nothing. */
  lemma NewSlice(page: nat, i: nat, l: seq<Block>, ss: seq<nat>)
    requires i < 4 && BlockOff(page, 1, ss) && forall b :: Block(page, 1).Has(b) ==> !Free(l, b)
    ensures SlicesOff(l, [page + i * SZ_SLICE])
    ensures forall s :: s in Carved(page, i) + ss ==> SlicesDisjoint(page + i * SZ_SLICE, s)
  {
    var ptr := page + i * SZ_SLICE;
    forall s | s in ss
      ensures SlicesDisjoint(ptr, s)
    {
      var first := if s < ptr then ptr else s;
      assert Block(page, 1).Has(first) ==> !SliceHas(s, first);
    }
    forall b | SliceHas(ptr, b)
      ensures !Free(l, b)
    {
      assert Block(page, 1).Has(b);
    }
  }

  lemma AllocKeepsOff(l: seq<Block>, n: nat, ss: seq<nat>)
    requires Ordered(l) && n >= 1 && SlicesOff(l, ss)
    ensures SlicesOff(AllocRest(l, n), ss)
  {
    AllocCorrect(l, n);
    if AllocAddr(l, n) != NULL {
      forall b | Free(AllocRest(l, n), b)
        ensures Free(l, b)
      {
        AllocFree(l, 1, 0, n, b);
      }
    }
  }

  /** What was just allocated holds no slice and is not free. */
  lemma AllocatedIsOff(l: seq<Block>, n: nat, ss: seq<nat>)
    requires Ordered(l) && n >= 1 && SlicesOff(l, ss) && AllocAddr(l, n) != NULL
    ensures BlockOff(AllocAddr(l, n), n, ss)
    ensures forall b :: Block(AllocAddr(l, n), n).Has(b) ==> !Free(AllocRest(l, n), b)
  {
    forall b | Block(AllocAddr(l, n), n).Has(b)
      ensures Free(l, b) && !Free(AllocRest(l, n), b)
    {
      AllocFree(l, 1, 0, n, b);
    }
  }

  lemma ReleaseKeepsOff(l: seq<Block>, a: nat, n: nat, ss: seq<nat>)
    requires Ordered(l) && Releasable(l, a, n) && SlicesOff(l, ss) && BlockOff(a, n, ss)
    ensures SlicesOff(Release(l, a, n), ss)
  {
    ReleaseFrom(l, 1, 0, a, n);
  }

  lemma OffStart(a: nat, n: nat, ss: seq<nat>)
    requires BlockOff(a, n, ss) && n >= 1
    ensures a !in ss
  {
    assert Block(a, n).Has(a) && SliceHas(a, a);
  }

  lemma FragmentIsOff(l: seq<Block>, i: nat, f: nat, ss: seq<nat>)
    requires SlicesOff(l, ss) && i < |l| && l[i].Has(f)
    ensures f !in ss
  {
    BlockIsFree(l, i, f);
    assert SliceHas(f, f);
  }

  lemma {:induction false} BlockIsFree(l: seq<Block>, j: nat, b: int)
    requires j < |l| && l[j].Has(b)
    ensures Free(l, b)
  {
    if j > 0 {
      BlockIsFree(l[1..], j - 1, b);
    }
  }

  /** The fragment left by a split starts inside its block, so at no other block's address. */
  lemma FragmentIsNew(l: seq<Block>, i: nat, f: nat)
    requires Ordered(l) && i < |l| && l[i].addr < f < l[i].End()
    ensures forall j :: 0 <= j < |l| ==> l[j].addr != f
  {
    forall j | 0 <= j < |l|
      ensures l[j].addr != f
    {
      SpacedPairs(l, 1, 0, if i < j then i else j, if i < j then j else i);
    }
  }

  lemma {:induction false} BlockStartsFree(l: seq<Block>, j: nat)
    requires j < |l| && l[j].pages > 0
    ensures Free(l, l[j].addr)
  {
    if j > 0 {
      BlockStartsFree(l[1..], j - 1);
    }
  }

  lemma ReleasableIsNew(l: seq<Block>, a: nat, n: nat)
    requires Ordered(l) && Releasable(l, a, n)
    ensures forall j :: 0 <= j < |l| ==> l[j].addr != a
  {
    forall j | 0 <= j < |l|
      ensures l[j].addr != a
    {
      SpacedPairs(l, 1, 0, j, j);
      BlockStartsFree(l, j);
      assert Block(a, n).Has(a);
    }
  }
}
