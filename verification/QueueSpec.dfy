/** Ordered queues as values.  `Enqueue` is what a pcb queue does to its contents: insert before
    the first entry with a larger key.  A FIFO queue is the case where all keys are equal.
    Sorted contents with a given sequence of entries per key are unique, so the contents of a
    queue are always the stable sort of its arrivals.
 */
module QueueSpec {

  datatype Entry<T> = Entry(item: T, key: int)

  function Enqueue<T>(q: seq<Entry<T>>, e: Entry<T>): seq<Entry<T>> {
    if q == [] || e.key < q[0].key then [e] + q else [q[0]] + Enqueue(q[1..], e)
  }

  function EnqueueAll<T>(q: seq<Entry<T>>, es: seq<Entry<T>>): seq<Entry<T>>
    decreases |es|
  {
    if es == [] then q else EnqueueAll(Enqueue(q, es[0]), es[1..])
  }

  ghost predicate Sorted<T>(q: seq<Entry<T>>) {
    q == [] || ((forall i :: 0 < i < |q| ==> q[0].key <= q[i].key) && Sorted(q[1..]))
  }

  /** The entries with key `k`, in queue order. */
  function WithKey<T>(q: seq<Entry<T>>, k: int): seq<Entry<T>> {
    if q == [] then [] else (if q[0].key == k then [q[0]] else []) + WithKey(q[1..], k)
  }

  lemma {:induction false} EnqueueMembers<T>(q: seq<Entry<T>>, e: Entry<T>)
    ensures |Enqueue(q, e)| == |q| + 1
    ensures forall x :: x in Enqueue(q, e) <==> x in q || x == e
    decreases |q|
  {
    if q != [] && q[0].key <= e.key {
      EnqueueMembers(q[1..], e);
      assert q == [q[0]] + q[1..];
    }
  }

  lemma {:induction false} EnqueueSorted<T>(q: seq<Entry<T>>, e: Entry<T>)
    requires Sorted(q)
    ensures Sorted(Enqueue(q, e))
    decreases |q|
  {
    var r := Enqueue(q, e);
    if q == [] || e.key < q[0].key {
      assert r[1..] == q;
    } else {
      EnqueueSorted(q[1..], e);
      EnqueueMembers(q[1..], e);
      assert r[1..] == Enqueue(q[1..], e);
      forall i | 0 < i < |r|
        ensures r[0].key <= r[i].key
      {
        assert r[i] in Enqueue(q[1..], e);
      }
    }
  }

  /** Among equal keys the new entry comes last and the others keep their order. */
  lemma {:induction false} EnqueueStable<T>(q: seq<Entry<T>>, e: Entry<T>, k: int)
    requires Sorted(q)
    ensures WithKey(Enqueue(q, e), k) == WithKey(q, k) + (if e.key == k then [e] else [])
    decreases |q|
  {
    var r := Enqueue(q, e);
    if q == [] || e.key < q[0].key {
      assert r[1..] == q;
      if k == e.key {
        NoSmallerKey(q, k);
      }
    } else {
      EnqueueStable(q[1..], e, k);
      assert r[1..] == Enqueue(q[1..], e);
    }
  }

  lemma {:induction false} NoSmallerKey<T>(q: seq<Entry<T>>, k: int)
    requires Sorted(q) && (q != [] ==> k < q[0].key)
    ensures WithKey(q, k) == []
    decreases |q|
  {
    if q != [] {
      NoSmallerKey(q[1..], k);
    }
  }

  lemma {:induction false} WithKeyMembers<T>(q: seq<Entry<T>>, k: int, x: Entry<T>)
    ensures x in WithKey(q, k) <==> x in q && x.key == k
    decreases |q|
  {
    if q != [] {
      WithKeyMembers(q[1..], k, x);
      assert q == [q[0]] + q[1..];
    }
  }

  lemma SortedHead<T>(q: seq<Entry<T>>, r: seq<Entry<T>>)
    requires Sorted(q) && Sorted(r) && q != []
    requires forall k :: WithKey(q, k) == WithKey(r, k)
    ensures r != [] && r[0].key <= q[0].key
  {
    WithKeyMembers(q, q[0].key, q[0]);
    WithKeyMembers(r, q[0].key, q[0]);
    assert q[0] in r;
  }

  /** Sorted contents are fixed by the order of the entries within each key. */
  lemma {:induction false} StableSortUnique<T>(q: seq<Entry<T>>, r: seq<Entry<T>>)
    requires Sorted(q) && Sorted(r)
    requires forall k :: WithKey(q, k) == WithKey(r, k)
    ensures q == r
    decreases |q|
  {
    if q == [] {
      if r != [] {
        SortedHead(r, q);
      }
    } else {
      SortedHead(q, r);
      SortedHead(r, q);
      var k := q[0].key;
      assert WithKey(q, k)[0] == q[0] && WithKey(r, k)[0] == r[0];
      forall k
        ensures WithKey(q[1..], k) == WithKey(r[1..], k)
      {
        assert WithKey(q, k) == WithKey(r, k);
        assert k == q[0].key ==> WithKey(q[1..], k) == WithKey(q, k)[1..] && WithKey(r[1..], k) == WithKey(r, k)[1..];
        assert k != q[0].key ==> WithKey(q[1..], k) == WithKey(q, k) && WithKey(r[1..], k) == WithKey(r, k);
      }
      StableSortUnique(q[1..], r[1..]);
      assert q == [q[0]] + q[1..] && r == [r[0]] + r[1..];
    }
  }

  lemma {:induction false} EnqueueAllSorted<T>(q: seq<Entry<T>>, es: seq<Entry<T>>)
    requires Sorted(q)
    ensures Sorted(EnqueueAll(q, es))
    decreases |es|
  {
    if es != [] {
      EnqueueSorted(q, es[0]);
      EnqueueAllSorted(Enqueue(q, es[0]), es[1..]);
    }
  }

  lemma Reassociate<T>(a: seq<T>, b: seq<T>, c: seq<T>)
    ensures (a + b) + c == a + (b + c)
  {
  }

  /** Any number of arrivals: arrival order is kept within each key. */
  lemma {:induction false} EnqueueAllStable<T>(q: seq<Entry<T>>, es: seq<Entry<T>>, k: int)
    requires Sorted(q)
    ensures WithKey(EnqueueAll(q, es), k) == WithKey(q, k) + WithKey(es, k)
    decreases |es|
  {
    if es != [] {
      EnqueueSorted(q, es[0]);
      EnqueueAllStable(Enqueue(q, es[0]), es[1..], k);
      EnqueueStable(q, es[0], k);
      Reassociate(WithKey(q, k), if es[0].key == k then [es[0]] else [], WithKey(es[1..], k));
    }
  }

  /** A queue that started empty holds the stable sort of its arrivals, whoever computes it. */
  lemma ArrivalsAreStablySorted<T>(es: seq<Entry<T>>, sorted: seq<Entry<T>>)
    requires Sorted(sorted) && forall k :: WithKey(sorted, k) == WithKey(es, k)
    ensures EnqueueAll([], es) == sorted
  {
    EnqueueAllSorted([], es);
    forall k
      ensures WithKey(EnqueueAll([], es), k) == WithKey(sorted, k)
    {
      EnqueueAllStable([], es, k);
      assert WithKey<T>([], k) == [];
    }
    StableSortUnique(EnqueueAll([], es), sorted);
  }

  // ----- positions

  lemma {:induction false} EnqueueAt<T>(q: seq<Entry<T>>, i: nat, e: Entry<T>)
    requires i <= |q| && (forall j :: 0 <= j < i ==> q[j].key <= e.key) && (i < |q| ==> e.key < q[i].key)
    ensures Enqueue(q, e) == q[..i] + [e] + q[i..]
    decreases i
  {
    if i == 0 {
      assert q[..0] + [e] + q[0..] == [e] + q;
    } else {
      EnqueueAt(q[1..], i - 1, e);
      assert [q[0]] + (q[1..][..i - 1] + [e] + q[1..][i - 1..]) == q[..i] + [e] + q[i..];
    }
  }

  lemma {:induction false} SortedWithout<T>(q: seq<Entry<T>>, i: nat)
    requires Sorted(q) && i < |q|
    ensures Sorted(q[..i] + q[i + 1..])
    decreases i
  {
    var r := q[..i] + q[i + 1..];
    if i == 0 {
      assert r == q[1..];
    } else {
      SortedWithout(q[1..], i - 1);
      assert r[1..] == q[1..][..i - 1] + q[1..][i..];
    }
  }

  lemma {:induction false} SortedPairs<T>(q: seq<Entry<T>>, i: nat, j: nat)
    requires Sorted(q) && i <= j < |q|
    ensures q[i].key <= q[j].key
    decreases i
  {
    if i > 0 {
      SortedPairs(q[1..], i - 1, j - 1);
    }
  }

  lemma {:induction false} EnqueueAllMembers<T>(q: seq<Entry<T>>, es: seq<Entry<T>>, x: Entry<T>)
    ensures x in EnqueueAll(q, es) <==> x in q || x in es
    decreases |es|
  {
    if es != [] {
      EnqueueMembers(q, es[0]);
      EnqueueAllMembers(Enqueue(q, es[0]), es[1..], x);
      assert es == [es[0]] + es[1..];
    }
  }
}
