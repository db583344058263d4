/** The resumable work queue: an immutable list of items, each carrying a
    payload and a finished flag. Every operation builds a new snapshot. */
module WorkQueue {
  import opened Wrappers

  datatype QItem<T> = QItem(finished: bool, data: T)

  /** The unfinished items of `items`, in their order. */
  function Pending<T>(items: seq<QItem<T>>): (r: seq<QItem<T>>)
    ensures |r| <= |items|
    ensures forall i :: 0 <= i < |r| ==> !r[i].finished
  {
    if items == [] then []
    else (if items[0].finished then [] else [items[0]]) + Pending(items[1..])
  }

  /** The payloads of the unfinished items, in the order they will be served. */
  function Waiting<T>(items: seq<QItem<T>>): (r: seq<T>)
    ensures |r| == |Pending(items)|
    ensures forall i :: 0 <= i < |r| ==> r[i] == Pending(items)[i].data
  {
    var p := Pending(items);
    seq(|p|, i requires 0 <= i < |p| => p[i].data)
  }

  /** Every one of the first k items is finished. */
  predicate FinishedBelow<T>(items: seq<QItem<T>>, k: int)
    requires k <= |items|
  {
    forall i :: 0 <= i < k ==> items[i].finished
  }

  /** No payload among the first k items satisfies `p`. */
  predicate NoneBelow<T>(items: seq<QItem<T>>, p: T -> bool, k: int)
    requires k <= |items|
  {
    forall i :: 0 <= i < k ==> !p(items[i].data)
  }

  /** Position of the first unfinished item, or -1 when there is none
      (IndexOfUnfinishedIsFirst says which). */
  function IndexOfUnfinished<T>(items: seq<QItem<T>>): (k: int)
    ensures -1 <= k < |items|
  {
    if items == [] then -1
    else if !items[0].finished then 0
    else
      var k := IndexOfUnfinished(items[1..]);
      if k == -1 then -1 else k + 1
  }

  lemma {:induction false} IndexOfUnfinishedIsFirst<T>(items: seq<QItem<T>>)
    ensures IndexOfUnfinished(items) == -1 <==> FinishedBelow(items, |items|)
    ensures IndexOfUnfinished(items) >= 0 ==>
              !items[IndexOfUnfinished(items)].finished && FinishedBelow(items, IndexOfUnfinished(items))
  {
    if items != [] && items[0].finished {
      IndexOfUnfinishedIsFirst(items[1..]);
    }
  }

  /** Position of the first item whose payload satisfies `p`, or -1. */
  function IndexWhere<T>(items: seq<QItem<T>>, p: T -> bool): (k: int)
    ensures -1 <= k < |items|
    ensures k == -1 <==> NoneBelow(items, p, |items|)
    ensures k >= 0 ==> p(items[k].data) && NoneBelow(items, p, k)
  {
    if items == [] then -1
    else if p(items[0].data) then 0
    else
      var k := IndexWhere(items[1..], p);
      if k == -1 then -1 else k + 1
  }

  datatype Queue<T> = Queue(items: seq<QItem<T>>) {

    /** Appends `newItems` after the existing ones. */
    function Add(newItems: seq<QItem<T>>): (r: Queue<T>)
      ensures |r.items| == |items| + |newItems|
      ensures r.items[..|items|] == items
      ensures r.items[|items|..] == newItems
    {
      Queue(items + newItems)
    }

    /** Appends one unfinished item per payload, in order. */
    function AddData(ds: seq<T>): (r: Queue<T>)
      ensures |r.items| == |items| + |ds|
      ensures r.items[..|items|] == items
      ensures forall i :: 0 <= i < |ds| ==> r.items[|items| + i] == QItem(false, ds[i])
    {
      Add(seq(|ds|, i requires 0 <= i < |ds| => QItem(false, ds[i])))
    }

    /** The number of items, finished or not. */
    function Length(): (n: int)
      ensures n == |items|
    {
      |items|
    }

    /** Number of unfinished items. */
    function NumWaiting(): (n: int)
      ensures 0 <= n <= Length()
      ensures n == 0 <==> FinishedBelow(items, |items|)
    {
      NoPendingIffAllFinished(items);
      |Pending(items)|
    }

    /** Payload of the first unfinished item. */
    function Next(): (r: Option<T>)
      ensures r.None? <==> NumWaiting() == 0
      ensures r.Some? ==> IndexOfUnfinished(items) >= 0 && r.value == items[IndexOfUnfinished(items)].data
    {
      IndexOfUnfinishedIsFirst(items);
      var k := IndexOfUnfinished(items);
      if k < 0 then None else Some(items[k].data)
    }

    /** Marks the first unfinished item as finished; a no-op when there is none. */
    function Finish(): (r: Queue<T>)
      ensures |r.items| == |items|
      ensures forall i :: 0 <= i < |items| ==> r.items[i].data == items[i].data
      ensures forall i :: 0 <= i < |items| && i != IndexOfUnfinished(items) ==> r.items[i] == items[i]
    {
      IndexOfUnfinishedIsFirst(items);
      var k := IndexOfUnfinished(items);
      var r := Queue(seq(|items|, i requires 0 <= i < |items| =>
                           if i != k then items[i] else QItem(true, items[i].data)));
      assert k == -1 ==> r.items == items;
      r
    }

    /** Payload of the first item satisfying `p`. */
    function Find(p: T -> bool): (r: Option<T>)
      ensures r.None? <==> NoneBelow(items, p, |items|)
      ensures r.Some? ==> p(r.value)
      ensures r.Some? ==> exists k :: 0 <= k < |items| && items[k].data == r.value && NoneBelow(items, p, k)
    {
      var k := IndexWhere(items, p);
      if k < 0 then None else Some(items[k].data)
    }
  }

  lemma {:induction false} NoPendingIffAllFinished<T>(items: seq<QItem<T>>)
    ensures Pending(items) == [] <==> FinishedBelow(items, |items|)
  {
    if items != [] {
      NoPendingIffAllFinished(items[1..]);
      assert forall i :: 1 <= i < |items| ==> items[i] == items[1..][i - 1];
    }
  }

  lemma {:induction false} PendingAppend<T>(a: seq<QItem<T>>, b: seq<QItem<T>>)
    ensures Pending(a + b) == Pending(a) + Pending(b)
  {
    if a == [] {
      assert a + b == b;
    } else {
      assert (a + b)[1..] == a[1..] + b;
      PendingAppend(a[1..], b);
    }
  }

  /** The first pending item is the one at IndexOfUnfinished. */
  lemma {:induction false} FirstPending<T>(items: seq<QItem<T>>)
    requires IndexOfUnfinished(items) >= 0
    ensures Pending(items) != [] && Pending(items)[0] == items[IndexOfUnfinished(items)]
  {
    if items[0].finished {
      FirstPending(items[1..]);
    }
  }

  /** Flipping the first unfinished item drops exactly the head of the pending list. */
  lemma {:induction false} FlipFirstPending<T>(items: seq<QItem<T>>, flipped: seq<QItem<T>>)
    requires IndexOfUnfinished(items) >= 0
    requires |flipped| == |items|
    requires flipped[IndexOfUnfinished(items)].finished
    requires forall i :: 0 <= i < |items| && i != IndexOfUnfinished(items) ==> flipped[i] == items[i]
    ensures Pending(items) != [] && Pending(flipped) == Pending(items)[1..]
  {
    var k := IndexOfUnfinished(items);
    if k == 0 {
      assert flipped[1..] == items[1..];
    } else {
      FlipFirstPending(items[1..], flipped[1..]);
      assert flipped[0] == items[0];
    }
  }

  /** With some item unfinished, Finish keeps the length, lowers the waiting
      count by one, flips exactly the item Next returned, and the remaining
      waiting payloads are the old ones without their head. */
  lemma FinishAdvances<T>(q: Queue<T>)
    requires q.NumWaiting() > 0
    ensures q.Finish().Length() == q.Length()
    ensures q.Finish().NumWaiting() == q.NumWaiting() - 1
    ensures Waiting(q.Finish().items) == Waiting(q.items)[1..]
    ensures q.Next() == Some(Waiting(q.items)[0])
    ensures exists k :: 0 <= k < q.Length() && !q.items[k].finished && q.Finish().items[k].finished &&
                        q.items[k].data == q.Next().value
  {
    IndexOfUnfinishedIsFirst(q.items);
    var k := IndexOfUnfinished(q.items);
    assert q.Finish().items[k].finished;
    FlipFirstPending(q.items, q.Finish().items);
    FirstPending(q.items);
  }

  /** With every item finished, Finish returns an identical queue. */
  lemma FinishWhenDrained<T>(q: Queue<T>)
    requires q.NumWaiting() == 0
    ensures q.Finish() == q
    ensures q.Next() == None
  {
    IndexOfUnfinishedIsFirst(q.items);
    assert q.Finish().items == q.items;
  }

  /** Next serves the lowest-index unfinished item: every earlier item is finished. */
  lemma NextIsLowestUnfinished<T>(q: Queue<T>)
    requires q.NumWaiting() > 0
    ensures exists k :: 0 <= k < q.Length() && !q.items[k].finished && q.Next() == Some(q.items[k].data) &&
                        FinishedBelow(q.items, k)
  {
    IndexOfUnfinishedIsFirst(q.items);
    var k := IndexOfUnfinished(q.items);
    assert 0 <= k < q.Length() && !q.items[k].finished;
  }

  /** Appending payloads leaves the waiting order of the old items first. */
  lemma AddDataWaiting<T>(q: Queue<T>, ds: seq<T>)
    ensures Waiting(q.AddData(ds).items) == Waiting(q.items) + ds
    ensures q.AddData(ds).NumWaiting() == q.NumWaiting() + |ds|
  {
    var added := seq(|ds|, i requires 0 <= i < |ds| => QItem(false, ds[i]));
    assert q.AddData(ds).items == q.items + added;
    PendingAppend(q.items, added);
    AllUnfinishedPending(added);
  }

  lemma {:induction false} AllUnfinishedPending<T>(items: seq<QItem<T>>)
    requires forall i :: 0 <= i < |items| ==> !items[i].finished
    ensures Pending(items) == items
  {
    if items != [] {
      AllUnfinishedPending(items[1..]);
    }
  }

  /** Finish applied k times, the first application outermost. */
  function FinishN<T>(q: Queue<T>, k: nat): (r: Queue<T>)
    ensures r.Length() == q.Length()
    ensures forall i :: 0 <= i < q.Length() ==> r.items[i].data == q.items[i].data
    decreases k
  {
    if k == 0 then q else FinishN(q.Finish(), k - 1)
  }

  /** The first k finishes each consume the head of the waiting list. */
  lemma {:induction false} FinishNWaiting<T>(q: Queue<T>, k: nat)
    requires k <= q.NumWaiting()
    ensures FinishN(q, k).NumWaiting() == q.NumWaiting() - k
    ensures Waiting(FinishN(q, k).items) == Waiting(q.items)[k..]
    decreases k
  {
    if k > 0 {
      FinishAdvances(q);
      FinishNWaiting(q.Finish(), k - 1);
      assert Waiting(q.items)[1..][k - 1..] == Waiting(q.items)[k..];
    }
  }

  /** After k finishes, the next item served is the k-th waiting payload of
      the original queue: items are served strictly first-in first-out. */
  lemma ServedInOrder<T>(q: Queue<T>, k: nat)
    requires k < q.NumWaiting()
    ensures FinishN(q, k).Next() == Some(Waiting(q.items)[k])
  {
    FinishNWaiting(q, k);
    FinishAdvances(FinishN(q, k));
  }

  /** After NumWaiting finishes every item is finished; the payloads are untouched. */
  lemma DrainedAllFinished<T>(q: Queue<T>)
    ensures FinishedBelow(FinishN(q, q.NumWaiting()).items, q.Length())
  {
    FinishNWaiting(q, q.NumWaiting());
  }

  lemma {:induction false} FinishNAdd<T>(q: Queue<T>, j: nat, k: nat)
    ensures FinishN(FinishN(q, j), k) == FinishN(q, j + k)
    decreases j
  {
    if j > 0 {
      FinishNAdd(q.Finish(), j - 1, k);
      assert FinishN(q, j + k) == FinishN(q.Finish(), j - 1 + k);
    }
  }

  /** k finishes followed by one more are k + 1 finishes. */
  lemma {:induction false} FinishNLast<T>(q: Queue<T>, k: nat)
    ensures FinishN(q, k + 1) == FinishN(q, k).Finish()
    decreases k
  {
    if k > 0 {
      FinishNLast(q.Finish(), k - 1);
    }
  }
}
