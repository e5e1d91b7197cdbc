/** The process queues of procs.c: PCBs linked through their `next` fields, with head, tail,
    length and one of four orderings.  Every operation is proved against module QueueSpec.
 */
module PcbQueue {
  import opened Defs
  import opened QueueSpec

  datatype Order = Fifo | Prio | Pid | Wakeup

  class Pcb {
    var next: Pcb?
    var pid: nat
    var priority: nat
    var wakeup: nat
    var state: State
    var ticks: nat

    constructor (pid: nat, priority: nat)
      ensures this.pid == pid && this.priority == priority && next == null && state == New
    {
      this.pid, this.priority := pid, priority;
      next, wakeup, state, ticks := null, 0, New, 0;
    }
  }

  /** What the ordering compares; a FIFO queue treats all PCBs alike. */
  function KeyOf(p: Pcb, order: Order): int
    reads p`pid, p`priority, p`wakeup
  {
    match order
    case Fifo => 0
    case Prio => p.priority
    case Pid => p.pid
    case Wakeup => p.wakeup
  }

  /** `es` are the PCBs of `s` with their keys. */
  ghost predicate Keyed(s: seq<Pcb>, es: seq<Entry<Pcb>>, order: Order)
    reads s`pid, s`priority, s`wakeup
  {
    |es| == |s| && forall i :: 0 <= i < |s| ==> es[i].item == s[i] && es[i].key == KeyOf(s[i], order)
  }

  /** PCB `i` of the queue points to PCB `i + 1`, and the last one to nothing. */
  ghost predicate NextAt(s: seq<Pcb>, i: nat)
    requires i < |s|
    reads s`next
  {
    s[i].next == if i + 1 < |s| then s[i + 1] else null
  }

  ghost predicate Distinct(s: seq<Pcb>) {
    forall i, j :: 0 <= i < j < |s| ==> s[i] != s[j]
  }

  ghost predicate Chained(s: seq<Pcb>)
    reads s`next
  {
    forall i :: 0 <= i < |s| ==> NextAt(s, i)
  }

  function At(s: seq<Pcb>, i: int): Pcb? {
    if 0 <= i < |s| then s[i] else null
  }

  lemma SpliceFacts(s: seq<Pcb>, es: seq<Entry<Pcb>>, i: nat, p: Pcb, order: Order)
    requires i <= |s| && p !in s && Distinct(s) && Keyed(s, es, order)
    ensures Distinct(s[..i] + [p] + s[i..])
    ensures Keyed(s[..i] + [p] + s[i..], es[..i] + [Entry(p, KeyOf(p, order))] + es[i..], order)
  {
  }

  lemma UnlinkFacts(s: seq<Pcb>, es: seq<Entry<Pcb>>, i: nat, order: Order)
    requires i < |s| && Distinct(s) && Keyed(s, es, order)
    ensures Distinct(s[..i] + s[i + 1..]) && s[i] !in s[..i] + s[i + 1..]
    ensures Keyed(s[..i] + s[i + 1..], es[..i] + es[i + 1..], order)
  {
  }

  lemma SpliceMembers<T>(s: seq<T>, i: nat, p: T)
    requires i <= |s|
    ensures forall q :: q in s[..i] + [p] + s[i..] <==> q in s || q == p
  {
    assert s == s[..i] + s[i..];
  }

  class Queue {
    var head: Pcb?
    var tail: Pcb?
    var length: nat
    var order: Order
    ghost var spine: seq<Pcb>               // the PCBs on the queue, first to last
    ghost var contents: seq<Entry<Pcb>>     // the same with their keys

    /** Head, tail, length and links agree with the contents. */
    ghost predicate Linked()
      reads this, spine`next, spine`pid, spine`priority, spine`wakeup
    {
      && head == At(spine, 0) && tail == At(spine, |spine| - 1) && length == |spine|
      && Distinct(spine) && Chained(spine) && Keyed(spine, contents, order)
    }

    /** And the contents are in key order. */
    ghost predicate Valid()
      reads this, spine`next, spine`pid, spine`priority, spine`wakeup
    {
      Linked() && Sorted(contents)
    }

    constructor (order: Order)
      ensures Valid() && this.order == order && spine == []
    {
      this.order := order;
      head, tail, length := null, null, 0;
      spine, contents := [], [];
    }

    /** What being in order means for the fields of the PCBs. */
    lemma InFieldOrder(i: nat, j: nat)
      requires Valid() && i < j < |spine|
      ensures order == Wakeup ==> spine[i].wakeup <= spine[j].wakeup
      ensures order == Prio ==> spine[i].priority <= spine[j].priority
      ensures order == Pid ==> spine[i].pid <= spine[j].pid
    {
      SortedPairs(contents, i, j);
    }

    /** `pcb` belongs at position `i` of `s`: behind everybody whose field is at most its own, and before everybody
        whose field is larger; in a FIFO queue, at the end. */
    ghost predicate Belongs(s: seq<Pcb>, pcb: Pcb, i: nat)
      reads this`order, s`wakeup, s`priority, s`pid, pcb`wakeup, pcb`priority, pcb`pid
    {
      && i <= |s|
      && (order == Fifo ==> i == |s|)
      && (order == Wakeup ==> forall j :: 0 <= j < |s| ==> (j < i <==> s[j].wakeup <= pcb.wakeup))
      && (order == Prio ==> forall j :: 0 <= j < |s| ==> (j < i <==> s[j].priority <= pcb.priority))
      && (order == Pid ==> forall j :: 0 <= j < |s| ==> (j < i <==> s[j].pid <= pcb.pid))
    }

    lemma PlaceBelongs(pcb: Pcb, i: nat)
      requires Valid() && i <= |spine|
      requires forall j :: 0 <= j < i ==> contents[j].key <= KeyOf(pcb, order)
      requires i < |contents| ==> KeyOf(pcb, order) < contents[i].key
      ensures Belongs(spine, pcb, i)
    {
      forall j | 0 <= j < |spine|
        ensures j < i <==> KeyOf(spine[j], order) <= KeyOf(pcb, order)
      {
        if i <= j {
          SortedPairs(contents, i, j);
        }
      }
    }

    method Empty() returns (empty: bool)
      requires Valid()
      ensures empty <==> contents == []
    {
      empty := head == null;
    }

    method Peek() returns (p: Pcb?)
      requires Valid()
      ensures p == null <==> spine == []
      ensures p != null ==> p == spine[0]
    {
      p := head;
    }

    /** The last PCB of the leading run of PCBs whose key is at most that of `pcb`. */
    method FindPrev(pcb: Pcb) returns (prev: Pcb?, ghost i: nat)
      requires Linked()
      ensures i <= |spine| && prev == At(spine, i - 1)
      ensures forall j :: 0 <= j < i ==> KeyOf(spine[j], order) <= KeyOf(pcb, order)
      ensures i < |spine| ==> KeyOf(pcb, order) < KeyOf(spine[i], order)
    {
      prev, i := null, 0;
      var curr := head;
      while curr != null && KeyOf(curr, order) <= KeyOf(pcb, order)
        invariant 0 <= i <= |spine| && curr == At(spine, i) && prev == At(spine, i - 1)
        invariant forall j :: 0 <= j < i ==> KeyOf(spine[j], order) <= KeyOf(pcb, order)
        decreases |spine| - i
      {
        assert NextAt(spine, i);
        prev, curr := curr, curr.next;
        i := i + 1;
      }
    }

    /** The predecessor of `pcb` in the queue: the tail of a FIFO queue, otherwise found by key. */
    method FindPlace(pcb: Pcb) returns (prev: Pcb?, ghost i: nat)
      requires Linked()
      ensures i <= |spine| && |contents| == |spine| && prev == At(spine, i - 1)
      ensures forall j :: 0 <= j < i ==> contents[j].key <= KeyOf(pcb, order)
      ensures i < |contents| ==> KeyOf(pcb, order) < contents[i].key
    {
      if order == Fifo {
        prev, i := tail, |spine|;
      } else {
        prev, i := FindPrev(pcb);
      }
    }

    /** What an insertion of `pcb` at position `i` makes of the queue. */
    twostate predicate Inserted(pcb: Pcb, i: nat)
      requires i <= |old(spine)| == |old(contents)|
      reads this, spine, pcb
    {
      && Linked() && order == old(order)
      && spine == old(spine)[..i] + [pcb] + old(spine)[i..]
      && contents == old(contents)[..i] + [Entry(pcb, KeyOf(pcb, order))] + old(contents)[i..]
    }

    /** Link `pcb` in at the front. */
    method PushFront(pcb: Pcb)
      requires Linked() && spine != [] && pcb !in spine
      modifies this, pcb`next
      ensures Inserted(pcb, 0) && length == old(length) + 1
    {
      ghost var s := spine;
      SpliceFacts(s, contents, 0, pcb, order);
      pcb.next := head;
      head := pcb;
      length := length + 1;
      spine, contents := s[..0] + [pcb] + s[0..], contents[..0] + [Entry(pcb, KeyOf(pcb, order))] + contents[0..];
      forall k | 0 <= k < |spine|
        ensures NextAt(spine, k)
      {
        assert k > 0 ==> spine[k] == s[k - 1] && old(NextAt(s, k - 1));
      }
    }

    /** Link `pcb` in behind the last PCB, which it may be itself. */
    method Append(pcb: Pcb)
      requires Linked() && spine != [] && pcb.next == null && (pcb in spine ==> pcb == tail)
      modifies this, tail`next
      ensures length == old(length) + 1 && order == old(order)
      ensures old(pcb !in spine) ==> Inserted(pcb, |old(spine)|)
      ensures old(pcb in spine) ==> spine == old(spine) && tail == pcb && pcb.next == pcb
    {
      ghost var s, n := spine, |spine|;
      assert NextAt(s, n - 1);
      tail.next := pcb;
      tail := pcb;
      length := length + 1;
      if pcb !in s {
        SpliceFacts(s, contents, n, pcb, order);
        spine, contents := s[..n] + [pcb] + s[n..], contents[..n] + [Entry(pcb, KeyOf(pcb, order))] + contents[n..];
        forall k | 0 <= k < |spine|
          ensures NextAt(spine, k)
        {
          assert k < n ==> spine[k] == s[k] && old(NextAt(s, k));
        }
      }
    }

    /** Link `pcb` in behind `prev`, which is not the last PCB. */
    method LinkBetween(prev: Pcb, pcb: Pcb, ghost i: nat)
      requires Linked() && 0 < i < |spine| && prev == spine[i - 1] && pcb !in spine
      modifies this, prev`next, pcb`next
      ensures Inserted(pcb, i) && length == old(length) + 1
    {
      ghost var s := spine;
      assert NextAt(s, i - 1);
      SpliceFacts(s, contents, i, pcb, order);
      pcb.next := prev.next;
      prev.next := pcb;
      length := length + 1;
      spine, contents := s[..i] + [pcb] + s[i..], contents[..i] + [Entry(pcb, KeyOf(pcb, order))] + contents[i..];
      forall k | 0 <= k < |spine|
        ensures NextAt(spine, k)
      {
        if k != i {
          var k' := if k < i then k else k - 1;
          assert spine[k] == s[k'] && old(NextAt(s, k'));
        }
      }
    }

    /** Link `pcb` in behind `prev`, or at the front; the last PCB may be linked in behind itself. */
    method LinkBehind(prev: Pcb?, pcb: Pcb, ghost i: nat)
      requires Linked() && spine != [] && i <= |spine| && prev == At(spine, i - 1) && pcb.next == null
      requires pcb in spine ==> pcb == tail && i == |spine|
      modifies this, spine`next, pcb`next
      ensures length == old(length) + 1 && order == old(order)
      ensures old(pcb !in spine) ==> Inserted(pcb, i)
      ensures old(pcb in spine) ==> spine == old(spine) && tail == pcb && pcb.next == pcb
    {
      assert i > 0 ==> NextAt(spine, i - 1);
      if prev == null {
        PushFront(pcb);
      } else if prev.next == null {
        Append(pcb);
      } else {
        LinkBetween(prev, pcb, i);
      }
    }

    /** The guard of the insertion recognizes every member of the queue except the last one. */
    lemma GuardMissesTail(pcb: Pcb)
      requires Linked() && pcb in spine
      ensures pcb.next == null <==> pcb == tail
    {
      var i :| 0 <= i < |spine| && spine[i] == pcb;
      assert NextAt(spine, i);
    }

    /** Insert in key order behind all equal keys.  A PCB that already has a successor is refused.  The
        last PCB of the queue is not: inserting it again makes it its own successor. */
    method Insert(pcb: Pcb) returns (status: int)
      requires Valid()
      modifies this, spine`next, pcb`next
      ensures order == old(order) && (Valid() <==> old(pcb !in spine || pcb.next != null))
      ensures old(pcb.next) != null ==> status == E_BAD_PARAM && spine == old(spine) && pcb.next == old(pcb.next)
      ensures old(pcb.next) == null ==> status == SUCCESS && length == old(length) + 1
      ensures old(pcb.next == null && pcb !in spine) ==>
                && contents == Enqueue(old(contents), Entry(pcb, KeyOf(pcb, order)))
                && (forall p :: p in spine <==> p in old(spine) || p == pcb)
                && exists i: nat :: Belongs(old(spine), pcb, i) && spine == old(spine)[..i] + [pcb] + old(spine)[i..]
      ensures old(pcb.next == null && pcb in spine) ==> old(tail) == pcb == tail && pcb.next == pcb
    {
      if pcb.next != null {
        return E_BAD_PARAM;
      }
      if head == null {
        head, tail, length := pcb, pcb, 1;
        spine, contents := [pcb], [Entry(pcb, KeyOf(pcb, order))];
        assert NextAt(spine, 0) && contents[1..] == [] && Enqueue([], contents[0]) == contents;
        assert Belongs([], pcb, 0);
      } else {
        EnqueueSorted(contents, Entry(pcb, KeyOf(pcb, order)));
        ghost var s := spine;
        ghost var i := InsertInOrder(pcb);
        SpliceMembers(s, i, pcb);
      }
      return SUCCESS;
    }

    /** Insertion into a queue that is not empty. */
    method InsertInOrder(pcb: Pcb) returns (ghost i: nat)
      requires Valid() && spine != [] && pcb.next == null
      modifies this, spine`next, pcb`next
      ensures order == old(order) && length == old(length) + 1 && Belongs(old(spine), pcb, i)
      ensures old(pcb !in spine) ==>
                && Linked() && contents == Enqueue(old(contents), Entry(pcb, KeyOf(pcb, order)))
                && spine == old(spine)[..i] + [pcb] + old(spine)[i..]
      ensures old(pcb in spine) ==> spine == old(spine) && old(tail) == pcb == tail && pcb.next == pcb
    {
      var prev: Pcb?;
      prev, i := FindPlace(pcb);
      PlaceFacts(pcb, i);
      PlaceBelongs(pcb, i);
      LinkBehind(prev, pcb, i);
    }

    /** The place found by key; that of the last PCB is behind itself. */
    lemma PlaceFacts(pcb: Pcb, i: nat)
      requires Valid() && spine != [] && pcb.next == null && i <= |spine|
      requires forall j :: 0 <= j < i ==> contents[j].key <= KeyOf(pcb, order)
      requires i < |contents| ==> KeyOf(pcb, order) < contents[i].key
      ensures pcb in spine ==> pcb == tail && i == |spine|
      ensures Enqueue(contents, Entry(pcb, KeyOf(pcb, order))) ==
              contents[..i] + [Entry(pcb, KeyOf(pcb, order))] + contents[i..]
    {
      EnqueueAt(contents, i, Entry(pcb, KeyOf(pcb, order)));
      if pcb in spine {
        GuardMissesTail(pcb);
        if i < |contents| {
          SortedPairs(contents, i, |contents| - 1);
        }
      }
    }

    /** Take the first PCB. */
    method Remove() returns (status: int, pcb: Pcb?)
      requires Valid()
      modifies this, spine`next
      ensures Valid() && order == old(order)
      ensures old(spine) == [] ==> status == E_EMPTY_QUEUE && pcb == null && spine == []
      ensures old(spine) != [] ==>
                && status == SUCCESS && pcb == old(spine)[0] && pcb.next == null
                && spine == old(spine)[1..] && contents == old(contents)[1..]
    {
      if head == null {
        return E_EMPTY_QUEUE, null;
      }
      assert Sorted(contents[1..]);
      pcb := RemoveFirst();
      status := SUCCESS;
    }

    method RemoveFirst() returns (pcb: Pcb)
      requires Linked() && spine != []
      modifies this, spine`next
      ensures Linked() && order == old(order) && pcb == old(spine)[0] && pcb.next == null
      ensures spine == old(spine)[1..] && contents == old(contents)[1..]
    {
      ghost var s := spine;
      assert NextAt(s, 0) && (|s| > 1 ==> NextAt(s, 1));
      pcb := head;
      head := pcb.next;
      pcb.next := null;
      length := length - 1;
      if head == null {
        tail := null;
        length := 0;
      }
      spine, contents := spine[1..], contents[1..];
      forall k | 0 <= k < |spine|
        ensures NextAt(spine, k)
      {
        assert old(NextAt(s, k + 1));
      }
    }

    /** Remove the named PCB, wherever it is. */
    method RemoveThis(pcb: Pcb) returns (status: int)
      requires Valid()
      modifies this, spine`next
      ensures Valid() && order == old(order)
      ensures old(spine) == [] ==> status == E_EMPTY_QUEUE && spine == []
      ensures old(spine) != [] && pcb !in old(spine) ==> status == E_NOT_FOUND && spine == old(spine)
      ensures pcb in old(spine) ==>
                && status == SUCCESS && pcb.next == null && pcb !in spine
                && exists i :: 0 <= i < |old(spine)| && old(spine)[i] == pcb
                     && spine == old(spine[..i] + spine[i + 1..])
                     && contents == old(contents[..i] + contents[i + 1..])
    {
      if head == null {
        return E_EMPTY_QUEUE;
      }
      var prev: Pcb?, curr := null, head;
      ghost var i := 0;
      while curr != null && curr != pcb
        invariant 0 <= i <= |spine| && curr == At(spine, i) && prev == At(spine, i - 1)
        invariant forall j :: 0 <= j < i ==> spine[j] != pcb
        decreases |spine| - i
      {
        assert NextAt(spine, i);
        prev, curr := curr, curr.next;
        i := i + 1;
      }
      if curr == null {
        return E_NOT_FOUND;
      }
      SortedWithout(contents, i);
      Unlink(prev, curr, i);
      status := SUCCESS;
    }

    /** Unlink PCB `i`, whose predecessor is `prev`. */
    method Unlink(prev: Pcb?, curr: Pcb, ghost i: nat)
      requires Linked() && i < |spine| && curr == spine[i] && prev == At(spine, i - 1)
      modifies this, spine`next
      ensures Linked() && order == old(order) && curr.next == null && curr !in spine
      ensures spine == old(spine[..i] + spine[i + 1..]) && contents == old(contents[..i] + contents[i + 1..])
    {
      ghost var s := spine;
      ghost var t, es := s[..i] + s[i + 1..], contents[..i] + contents[i + 1..];
      UnlinkFacts(s, contents, i, order);
      assert NextAt(s, i) && (i > 0 ==> NextAt(s, i - 1));
      if prev != null {
        prev.next := curr.next;
      } else {
        head := curr.next;
      }
      if curr.next == null {
        tail := prev;
      }
      curr.next := null;
      length := length - 1;
      spine, contents := t, es;
      assert Keyed(t, es, order);
      forall k | 0 <= k < |t|
        ensures NextAt(t, k)
      {
        var k' := if k < i then k else k + 1;
        assert t[k] == s[k'] && old(NextAt(s, k'));
      }
    }
  }
}
