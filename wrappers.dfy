/** Option and Result, plus the order-preserving "await all" used wherever the
    scraper waits on a list of pending results. */
module Wrappers {

  datatype Option<+T> = None | Some(value: T) {
    function GetOr(default: T): T {
      match this
      case Some(v) => v
      case None => default
    }
  }

  datatype Result<+T, +E> = Ok(value: T) | Err(error: E)

  /** Index of the first failed result, or |rs| when all succeeded. */
  function FirstErr<T, E>(rs: seq<Result<T, E>>): (k: nat)
    ensures k <= |rs|
    ensures forall i :: 0 <= i < k ==> rs[i].Ok?
    ensures k < |rs| ==> rs[k].Err?
  {
    if rs == [] then 0
    else if rs[0].Err? then 0
    else 1 + FirstErr(rs[1..])
  }

  /** Waiting on a list of results: the list of values in the same order when
      every one succeeded, otherwise the first failure in list order. */
  function Collect<T, E>(rs: seq<Result<T, E>>): (r: Result<seq<T>, E>)
    ensures r.Ok? <==> forall i :: 0 <= i < |rs| ==> rs[i].Ok?
    ensures r.Ok? ==> |r.value| == |rs| && forall i :: 0 <= i < |rs| ==> r.value[i] == rs[i].value
    ensures r.Err? ==> FirstErr(rs) < |rs| && r.error == rs[FirstErr(rs)].error
  {
    if rs == [] then Ok([])
    else if rs[0].Err? then Err(rs[0].error)
    else
      match Collect(rs[1..])
      case Err(e) => Err(e)
      case Ok(vs) => Ok([rs[0].value] + vs)
  }

  /** Waiting on two lists in turn is waiting on their concatenation. */
  lemma CollectAppend<T, E>(a: seq<Result<T, E>>, b: seq<Result<T, E>>)
    ensures Collect(a + b).Ok? <==> Collect(a).Ok? && Collect(b).Ok?
    ensures Collect(a + b).Ok? ==> Collect(a + b).value == Collect(a).value + Collect(b).value
  {
    assert forall i :: 0 <= i < |a| ==> (a + b)[i] == a[i];
    assert forall i :: 0 <= i < |b| ==> (a + b)[|a| + i] == b[i];
    if Collect(a + b).Ok? {
      var v := Collect(a + b).value;
      var va := Collect(a).value;
      var vb := Collect(b).value;
      forall i | 0 <= i < |v| ensures v[i] == (va + vb)[i] {
        if i >= |a| {
          assert (a + b)[|a| + (i - |a|)] == b[i - |a|];
        }
      }
    }
  }

  /** A list computed element by element from a concatenation is the
      concatenation of the lists computed from each part. */
  lemma MapAppend<A, B>(f: A -> B, a: seq<A>, b: seq<A>, fa: seq<B>, fb: seq<B>, fab: seq<B>)
    requires |fa| == |a| && forall i :: 0 <= i < |a| ==> fa[i] == f(a[i])
    requires |fb| == |b| && forall i :: 0 <= i < |b| ==> fb[i] == f(b[i])
    requires |fab| == |a + b| && forall i :: 0 <= i < |a + b| ==> fab[i] == f((a + b)[i])
    ensures fab == fa + fb
  {
    forall i | 0 <= i < |fab| ensures fab[i] == (fa + fb)[i] {
      if i >= |a| {
        assert (a + b)[i] == b[i - |a|];
      }
    }
  }

  /** Concatenation of a list of lists, as the concatenating reduce without
      an initial value computes it for a non-empty list. */
  function Concat<T>(rows: seq<seq<T>>): (r: seq<T>)
    ensures rows == [] ==> r == []
    ensures |rows| == 1 ==> r == rows[0]
    ensures forall i :: 0 <= i < |rows| ==> |rows[i]| <= |r|
  {
    if rows == [] then [] else rows[0] + Concat(rows[1..])
  }

  /** Where row i starts when every row has k elements: i * k, written as
      repeated addition so that positions stay linear arithmetic. */
  function Offset(i: nat, k: nat): (r: nat)
    ensures r == i * k
  {
    if i == 0 then 0 else Offset(i - 1, k) + k
  }

  /** Rows of equal length k concatenate to |rows| * k elements. */
  lemma {:induction false} ConcatLength<T>(rows: seq<seq<T>>, k: nat)
    requires forall i :: 0 <= i < |rows| ==> |rows[i]| == k
    ensures |Concat(rows)| == Offset(|rows|, k)
  {
    if rows != [] {
      ConcatLength(rows[1..], k);
    }
  }

  /** Rows of equal length k: element j of row i sits at position i * k + j. */
  lemma {:induction false} ConcatAt<T>(rows: seq<seq<T>>, k: nat, i: nat, j: nat)
    requires forall i :: 0 <= i < |rows| ==> |rows[i]| == k
    requires i < |rows| && j < k
    ensures Offset(i, k) + j < |Concat(rows)|
    ensures Concat(rows)[Offset(i, k) + j] == rows[i][j]
  {
    ConcatLength(rows, k);
    if i > 0 {
      ConcatAt(rows[1..], k, i - 1, j);
    }
  }

  /** Concatenation distributes over appending lists of rows. */
  lemma {:induction false} ConcatAppend<T>(a: seq<seq<T>>, b: seq<seq<T>>)
    ensures Concat(a + b) == Concat(a) + Concat(b)
  {
    if a == [] {
      assert a + b == b;
    } else {
      assert (a + b)[1..] == a[1..] + b;
      ConcatAppend(a[1..], b);
    }
  }
}
