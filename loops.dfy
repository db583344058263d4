/** Loop expansion: turning "for each child of the element a rendered
    selector designates" into one context per selected child, stage after
    stage, outer loop first. */
module Loops {
  import opened Wrappers
  import opened Data

  /** The substitution variables of one unit of work. */
  type Context = map<string, Value>

  /** Template rendering, `compile(tpl)(context)`: a foreign library. */
  type Render = (string, Context) -> string

  /** One loop stage: a selector template and optional 1-based index lists,
      where a negative index counts from the end. */
  datatype LoopOption = LoopOption(tplSelector: string, only: Option<seq<int>>, excludes: Option<seq<int>>)

  // ---------------------------------------------------------------------------
  // Index selection

  /** `toIndex`: keeps non-negative indices and maps a negative `v` to `all + v + 1`. */
  function ToIndex(data: seq<int>, all: int): (r: seq<int>)
    ensures |r| == |data|
    ensures forall i :: 0 <= i < |data| && data[i] >= 0 ==> r[i] == data[i]
    ensures forall i :: 0 <= i < |data| && data[i] < 0 ==> r[i] == all + data[i] + 1
  {
    if data == [] then []
    else [if data[0] >= 0 then data[0] else all + data[0] + 1] + ToIndex(data[1..], all)
  }

  /** Every index between -all and all other than 0 names one of the `all`
      children; -1 names the last one. */
  lemma ToIndexInRange(data: seq<int>, all: int, i: nat)
    requires i < |data|
    requires -all <= data[i] <= all && data[i] != 0
    ensures 1 <= ToIndex(data, all)[i] <= all
    ensures data[i] == -1 ==> ToIndex(data, all)[i] == all
  {
  }

  /** The default index list of a stage: 1 through n, ascending. */
  function Range(n: nat): (r: seq<int>)
    ensures |r| == n
    ensures forall i :: 0 <= i < n ==> r[i] == i + 1
  {
    if n == 0 then [] else Range(n - 1) + [n]
  }

  /** The included indices minus every value the exclusion list holds, in the
      order of the included list. */
  function Without(s: seq<int>, ex: seq<int>): (r: seq<int>)
    ensures |r| <= |s|
    ensures forall x :: x in r <==> x in s && x !in ex
  {
    if s == [] then []
    else (if s[0] in ex then [] else [s[0]]) + Without(s[1..], ex)
  }

  /** Filtering works element by element: the filter of a concatenation is
      the concatenation of the filters, so the kept values stay in order. */
  lemma {:induction false} WithoutAppend(a: seq<int>, b: seq<int>, ex: seq<int>)
    ensures Without(a + b, ex) == Without(a, ex) + Without(b, ex)
  {
    if a == [] {
      assert a + b == b;
    } else {
      var h := if a[0] in ex then [] else [a[0]];
      assert (a + b)[0] == a[0];
      assert (a + b)[1..] == a[1..] + b;
      calc {
        Without(a + b, ex);
        h + Without(a[1..] + b, ex);
        { WithoutAppend(a[1..], b, ex); }
        h + (Without(a[1..], ex) + Without(b, ex));
        (h + Without(a[1..], ex)) + Without(b, ex);
        Without(a, ex) + Without(b, ex);
      }
    }
  }

  /** A single value is kept exactly when it is not excluded. */
  lemma WithoutSingle(x: int, ex: seq<int>)
    ensures Without([x], ex) == if x in ex then [] else [x]
  {
    assert [x][1..] == [];
  }

  /** Filtering keeps every non-excluded value as often as it occurs. */
  lemma {:induction false} WithoutCounts(s: seq<int>, ex: seq<int>)
    ensures forall x :: multiset(Without(s, ex))[x] == if x in ex then 0 else multiset(s)[x]
  {
    if s != [] {
      WithoutCounts(s[1..], ex);
      var h := if s[0] in ex then [] else [s[0]];
      assert Without(s, ex) == h + Without(s[1..], ex);
      assert multiset(Without(s, ex)) == multiset(h) + multiset(Without(s[1..], ex));
      assert s == [s[0]] + s[1..];
      assert multiset(s) == multiset([s[0]]) + multiset(s[1..]);
    }
  }

  /** Filtering by a list none of whose values occur keeps the list as it is. */
  lemma {:induction false} WithoutNothing(s: seq<int>, ex: seq<int>)
    requires forall i :: 0 <= i < |s| ==> s[i] !in ex
    ensures Without(s, ex) == s
  {
    if s != [] {
      WithoutNothing(s[1..], ex);
      assert s == [s[0]] + s[1..];
    }
  }

  /** Filtering keeps the order: an ascending list stays ascending. */
  lemma {:induction false} WithoutAscending(s: seq<int>, ex: seq<int>)
    requires forall i, j :: 0 <= i < j < |s| ==> s[i] < s[j]
    ensures forall i, j :: 0 <= i < j < |Without(s, ex)| ==> Without(s, ex)[i] < Without(s, ex)[j]
  {
    if s != [] {
      WithoutAscending(s[1..], ex);
      var rest := Without(s[1..], ex);
      var h := if s[0] in ex then [] else [s[0]];
      assert Without(s, ex) == h + rest;
      forall m | 0 <= m < |rest| ensures s[0] < rest[m] {
        assert rest[m] in s[1..];
      }
    }
  }

  function Includes(opt: LoopOption, numChild: nat): seq<int> {
    match opt.only
    case Some(only) => ToIndex(only, numChild)
    case None => Range(numChild)
  }

  function Excludes(opt: LoopOption, numChild: nat): seq<int> {
    match opt.excludes
    case Some(ex) => ToIndex(ex, numChild)
    case None => []
  }

  /** The indices one stage iterates over, given the live child count. */
  function Selected(opt: LoopOption, numChild: nat): (r: seq<int>)
    ensures |r| <= |Includes(opt, numChild)|
    ensures forall x :: x in r <==> x in Includes(opt, numChild) && x !in Excludes(opt, numChild)
  {
    Without(Includes(opt, numChild), Excludes(opt, numChild))
  }

  /** Without `only`, a stage visits 1..numChild ascending minus the exclusions;
      with no children it visits nothing. */
  lemma SelectedDefault(opt: LoopOption, numChild: nat)
    requires opt.only.None?
    ensures forall x :: x in Selected(opt, numChild) <==> 1 <= x <= numChild && x !in Excludes(opt, numChild)
    ensures forall i, j :: 0 <= i < j < |Selected(opt, numChild)| ==> Selected(opt, numChild)[i] < Selected(opt, numChild)[j]
    ensures numChild == 0 ==> Selected(opt, numChild) == []
  {
    var r := Range(numChild);
    assert forall x :: x in r <==> 1 <= x <= numChild by {
      forall x | 1 <= x <= numChild ensures x in r { assert r[x - 1] == x; }
    }
    WithoutAscending(r, Excludes(opt, numChild));
  }

  /** With `only`, a stage visits the normalised list in its own order, each
      value as often as it is listed, unless it is excluded. */
  lemma SelectedOnly(opt: LoopOption, numChild: nat)
    requires opt.only.Some?
    ensures forall x :: multiset(Selected(opt, numChild))[x] ==
                        if x in Excludes(opt, numChild) then 0 else multiset(ToIndex(opt.only.value, numChild))[x]
    ensures opt.excludes.None? ==> Selected(opt, numChild) == ToIndex(opt.only.value, numChild)
    ensures Selected(opt, numChild) == Without(ToIndex(opt.only.value, numChild), Excludes(opt, numChild))
  {
    WithoutCounts(ToIndex(opt.only.value, numChild), Excludes(opt, numChild));
    if opt.excludes.None? {
      WithoutNothing(ToIndex(opt.only.value, numChild), []);
    }
  }

  // ---------------------------------------------------------------------------
  // Loop keys

  predicate StartsWith(s: string, prefix: string) {
    |prefix| <= |s| && s[..|prefix|] == prefix
  }

  /** Decimal digits of n, as template literals print a count. */
  function NatText(n: nat): (r: string)
    ensures |r| > 0
  {
    var d := ['0', '1', '2', '3', '4', '5', '6', '7', '8', '9'][n % 10];
    if n < 10 then [d] else NatText(n / 10) + [d]
  }

  /** The key recording the position chosen at loop depth n. */
  function IndexKey(n: nat): (k: string)
    ensures StartsWith(k, "index-")
    ensures k != "index"
  {
    var k := "index-" + NatText(n);
    assert k[..6] == "index-";
    k
  }

  /** The keys of a context that record an enclosing loop position. */
  function LoopKeys(ctx: Context): set<string> {
    set k | k in ctx && StartsWith(k, "index-")
  }

  /** The incoming context merged with the stage's new loop keys, which map
      to the index and overwrite any existing key of the same name. */
  function Tag(ctx: Context, idx: int): (r: Context)
    ensures ctx.Keys <= r.Keys
    ensures IndexKey(|LoopKeys(ctx)|) in r && r[IndexKey(|LoopKeys(ctx)|)] == Num(idx as real)
  {
    var n := |LoopKeys(ctx)|;
    var v := Num(idx as real);
    if n == 0 then ctx[IndexKey(0) := v]["index" := v] else ctx[IndexKey(n) := v]
  }

  /** A tagged context keeps every other key, records the index under
      `index-<n>` where n counts the enclosing loop keys, and under `index`
      only at depth 0. */
  lemma TagKeys(ctx: Context, idx: int)
    ensures var n := |LoopKeys(ctx)|;
            var t := Tag(ctx, idx);
            && t.Keys == ctx.Keys + {IndexKey(n)} + (if n == 0 then {"index"} else {})
            && t[IndexKey(n)] == Num(idx as real)
            && (n == 0 ==> t["index"] == Num(idx as real))
            && (forall k :: k in ctx && k != IndexKey(n) && (n > 0 || k != "index") ==> t[k] == ctx[k])
  {
  }

  /** The depth keys after tagging are the old ones plus the key for the
      current depth; when that key was already present (a context carrying
      a later depth key), it is overwritten and the depth does not grow. */
  lemma TagLoopKeys(ctx: Context, idx: int)
    ensures LoopKeys(Tag(ctx, idx)) == LoopKeys(ctx) + {IndexKey(|LoopKeys(ctx)|)}
  {
    var n := |LoopKeys(ctx)|;
    var t := Tag(ctx, idx);
    TagKeys(ctx, idx);
    assert !StartsWith("index", "index-");
    forall k | k in LoopKeys(t) ensures k in LoopKeys(ctx) + {IndexKey(n)} {
    }
  }

  // ---------------------------------------------------------------------------
  // One stage, then a chain of stages

  /** How many children a stage sees: the child count of the element its
      selector, rendered against the context, matches. */
  function StageCount(page: Page, render: Render, opt: LoopOption, ctx: Context): nat {
    GetNumChild(page, render(opt.tplSelector, ctx))
  }

  /** `getLoopContext`: one tagged copy of the context per selected index, in order. */
  function GetLoopContext(page: Page, render: Render, opt: LoopOption, ctx: Context): (r: seq<Context>)
    ensures |r| == |Selected(opt, StageCount(page, render, opt, ctx))|
  {
    var indices := Selected(opt, StageCount(page, render, opt, ctx));
    seq(|indices|, i requires 0 <= i < |indices| => Tag(ctx, indices[i]))
  }

  /** The i-th context of a stage is the incoming one tagged with the i-th
      selected index under this stage's key, every other key kept. */
  lemma GetLoopContextAt(page: Page, render: Render, opt: LoopOption, ctx: Context, i: nat)
    requires i < |GetLoopContext(page, render, opt, ctx)|
    ensures var n := |LoopKeys(ctx)|;
            var idx := Selected(opt, StageCount(page, render, opt, ctx))[i];
            var t := GetLoopContext(page, render, opt, ctx)[i];
            && t.Keys == ctx.Keys + {IndexKey(n)} + (if n == 0 then {"index"} else {})
            && t[IndexKey(n)] == Num(idx as real)
            && (n == 0 ==> t["index"] == Num(idx as real))
            && (forall k :: k in ctx && k != IndexKey(n) && (n > 0 || k != "index") ==> t[k] == ctx[k])
            && LoopKeys(t) == LoopKeys(ctx) + {IndexKey(n)}
  {
    var idx := Selected(opt, StageCount(page, render, opt, ctx))[i];
    TagKeys(ctx, idx);
    TagLoopKeys(ctx, idx);
  }

  /** One stage applied to each incoming context separately, in order. */
  function Rows(page: Page, render: Render, opt: LoopOption, ctxs: seq<Context>): (r: seq<seq<Context>>)
    ensures |r| == |ctxs|
    ensures forall i :: 0 <= i < |ctxs| ==> r[i] == GetLoopContext(page, render, opt, ctxs[i])
  {
    seq(|ctxs|, i requires 0 <= i < |ctxs| => GetLoopContext(page, render, opt, ctxs[i]))
  }

  /** One stage applied to every incoming context, results concatenated in
      the order of the incoming contexts. */
  function FlatMap(page: Page, render: Render, opt: LoopOption, ctxs: seq<Context>): (r: seq<Context>)
    ensures ctxs == [] ==> r == []
  {
    Concat(Rows(page, render, opt, ctxs))
  }

  /** The stage reduce of `scrapeLoop`: stages applied left to right. A stage
      that receives no context fails, because the concatenating reduce has
      no initial value. */
  function Chain(page: Page, render: Render, stages: seq<LoopOption>, ctxs: seq<Context>): (r: Result<seq<Context>, Error>)
    ensures stages == [] ==> r == Ok(ctxs)
    ensures stages != [] && ctxs == [] ==> r == Err(EmptyReduce)
  {
    if stages == [] then Ok(ctxs)
    else if ctxs == [] then Err(EmptyReduce)
    else Chain(page, render, stages[1..], FlatMap(page, render, stages[0], ctxs))
  }

  /** The stage loop of `scrapeLoop`, starting from the single given context. */
  method ExpandLoops(page: Page, render: Render, stages: seq<LoopOption>, ctx: Context)
    returns (r: Result<seq<Context>, Error>)
    ensures r == Chain(page, render, stages, [ctx])
  {
    var contexts := [ctx];
    var i := 0;
    while i < |stages|
      invariant 0 <= i <= |stages|
      invariant Chain(page, render, stages[i..], contexts) == Chain(page, render, stages, [ctx])
    {
      assert stages[i..][0] == stages[i] && stages[i..][1..] == stages[i + 1..];
      if contexts == [] {
        return Err(EmptyReduce);
      }
      contexts := FlatMap(page, render, stages[i], contexts);
      i := i + 1;
    }
    assert stages[i..] == [];
    return Ok(contexts);
  }

  lemma FlatMapSingle(page: Page, render: Render, opt: LoopOption, ctx: Context)
    ensures FlatMap(page, render, opt, [ctx]) == GetLoopContext(page, render, opt, ctx)
  {
    var rows := Rows(page, render, opt, [ctx]);
    assert rows == [GetLoopContext(page, render, opt, ctx)];
    assert rows[1..] == [];
    assert Concat(rows) == rows[0] + [];
  }

  /** When every incoming context yields k contexts, the stage yields k per input. */
  lemma FlatMapLength(page: Page, render: Render, opt: LoopOption, ctxs: seq<Context>, k: nat)
    requires forall i :: 0 <= i < |ctxs| ==> |GetLoopContext(page, render, opt, ctxs[i])| == k
    ensures |FlatMap(page, render, opt, ctxs)| == Offset(|ctxs|, k)
  {
    ConcatLength(Rows(page, render, opt, ctxs), k);
  }

  /** Outer-major order: when every incoming context yields k contexts, the
      j-th context of the i-th input sits at position i * k + j. */
  lemma FlatMapAt(page: Page, render: Render, opt: LoopOption, ctxs: seq<Context>, k: nat, i: nat, j: nat)
    requires forall i :: 0 <= i < |ctxs| ==> |GetLoopContext(page, render, opt, ctxs[i])| == k
    requires i < |ctxs| && j < k
    ensures Offset(i, k) + j < |FlatMap(page, render, opt, ctxs)|
    ensures FlatMap(page, render, opt, ctxs)[Offset(i, k) + j] == GetLoopContext(page, render, opt, ctxs[i])[j]
  {
    ConcatAt(Rows(page, render, opt, ctxs), k, i, j);
  }

  /** With no stages the context is used as it is; one stage is exactly `getLoopContext`. */
  lemma ChainSingle(page: Page, render: Render, opt: LoopOption, ctx: Context)
    ensures Chain(page, render, [], [ctx]) == Ok([ctx])
    ensures Chain(page, render, [opt], [ctx]) == Ok(GetLoopContext(page, render, opt, ctx))
  {
    assert [opt][1..] == [] && [ctx][1..] == [];
    FlatMapSingle(page, render, opt, ctx);
    assert Chain(page, render, [opt], [ctx]) == Chain(page, render, [], FlatMap(page, render, opt, [ctx]));
  }

  /** A single stage that selects nothing succeeds with no contexts: an
      empty success does not mean that no context was given. */
  lemma ChainEmptySuccess(page: Page, render: Render, opt: LoopOption, ctx: Context)
    requires Selected(opt, StageCount(page, render, opt, ctx)) == []
    ensures Chain(page, render, [opt], [ctx]) == Ok([])
  {
    ChainSingle(page, render, opt, ctx);
  }

  /** When an outer stage selects nothing, a following stage fails instead of
      producing an empty list. */
  lemma ChainEmptyStageFails(page: Page, render: Render, s1: LoopOption, s2: LoopOption, rest: seq<LoopOption>, ctx: Context)
    requires Selected(s1, StageCount(page, render, s1, ctx)) == []
    ensures Chain(page, render, [s1, s2] + rest, [ctx]) == Err(EmptyReduce)
  {
    var stages := [s1, s2] + rest;
    assert stages[0] == s1 && stages[1..][0] == s2;
    FlatMapSingle(page, render, s1, ctx);
  }

  predicate PlainStage(opt: LoopOption) {
    opt.only.None? && opt.excludes.None?
  }

  /** A stage without `only`/`excludes` visits 1..n in order. */
  lemma SelectedPlain(opt: LoopOption, n: nat)
    requires PlainStage(opt)
    ensures Selected(opt, n) == Range(n)
  {
    WithoutNothing(Range(n), []);
  }

  /** Two stages: the inner stage runs on every context of the outer one,
      and fails when the outer stage selects nothing. */
  lemma ChainTwo(page: Page, render: Render, outer: LoopOption, inner: LoopOption, ctx: Context)
    ensures var first := GetLoopContext(page, render, outer, ctx);
            Chain(page, render, [outer, inner], [ctx]) ==
              if first == [] then Err(EmptyReduce) else Ok(FlatMap(page, render, inner, first))
  {
    var first := GetLoopContext(page, render, outer, ctx);
    assert [outer, inner][1..] == [inner] && [inner][1..] == [] && [ctx][1..] == [];
    FlatMapSingle(page, render, outer, ctx);
    assert Chain(page, render, [outer, inner], [ctx]) == Chain(page, render, [inner], first);
    if first != [] {
      assert Chain(page, render, [inner], first) == Chain(page, render, [], FlatMap(page, render, inner, first));
    }
  }

  /** Two nested stages without `only`/`excludes`, an outer element with a > 0
      children and, in every context the outer stage yields, an inner element
      with b children, give a * b contexts. */
  lemma NestedLoopsCount(page: Page, render: Render, outer: LoopOption, inner: LoopOption, ctx: Context, a: nat, b: nat)
    requires PlainStage(outer) && PlainStage(inner)
    requires StageCount(page, render, outer, ctx) == a && a > 0
    requires forall m :: 0 <= m < |GetLoopContext(page, render, outer, ctx)| ==>
               StageCount(page, render, inner, GetLoopContext(page, render, outer, ctx)[m]) == b
    ensures Chain(page, render, [outer, inner], [ctx]).Ok?
    ensures |Chain(page, render, [outer, inner], [ctx]).value| == Offset(a, b)
  {
    var first := GetLoopContext(page, render, outer, ctx);
    SelectedPlain(outer, a);
    SelectedPlain(inner, b);
    ChainTwo(page, render, outer, inner, ctx);
    FlatMapLength(page, render, inner, first, b);
  }

  /** A plain outer stage at depth 0 tags its i-th context with i + 1 under
      `index-0` and `index`. */
  lemma OuterTagged(page: Page, render: Render, outer: LoopOption, ctx: Context, a: nat, i: nat)
    requires PlainStage(outer)
    requires LoopKeys(ctx) == {}
    requires StageCount(page, render, outer, ctx) == a
    requires i < a
    ensures i < |GetLoopContext(page, render, outer, ctx)|
    ensures var c := GetLoopContext(page, render, outer, ctx)[i];
            && LoopKeys(c) == {IndexKey(0)}
            && IndexKey(0) in c && c[IndexKey(0)] == Num((i + 1) as real)
            && "index" in c && c["index"] == Num((i + 1) as real)
  {
    SelectedPlain(outer, a);
    GetLoopContextAt(page, render, outer, ctx, i);
  }

  /** A plain stage at depth 1 tags its j-th context with j + 1 under
      `index-1` and keeps `index-0` and `index`. */
  lemma InnerTagged(page: Page, render: Render, inner: LoopOption, c: Context, b: nat, j: nat)
    requires PlainStage(inner)
    requires LoopKeys(c) == {IndexKey(0)} && IndexKey(0) in c && "index" in c
    requires StageCount(page, render, inner, c) == b
    requires j < b
    ensures j < |GetLoopContext(page, render, inner, c)|
    ensures var t := GetLoopContext(page, render, inner, c)[j];
            && IndexKey(0) in t && t[IndexKey(0)] == c[IndexKey(0)]
            && "index" in t && t["index"] == c["index"]
            && IndexKey(1) in t && t[IndexKey(1)] == Num((j + 1) as real)
  {
    SelectedPlain(inner, b);
    assert |LoopKeys(c)| == 1;
    GetLoopContextAt(page, render, inner, c, j);
    assert IndexKey(0) != IndexKey(1) by {
      assert IndexKey(0)[6] == '0' && IndexKey(1)[6] == '1';
    }
  }

  /** In the same setting, position Offset(i, b) + j (that is, i * b + j)
      holds the context tagged `index-0` and `index` with the outer position
      i + 1 and `index-1` with the inner position j + 1: outer loop first. */
  lemma NestedLoopsAt(page: Page, render: Render, outer: LoopOption, inner: LoopOption, ctx: Context,
                      a: nat, b: nat, i: nat, j: nat)
    requires PlainStage(outer) && PlainStage(inner)
    requires LoopKeys(ctx) == {}
    requires StageCount(page, render, outer, ctx) == a
    requires forall m :: 0 <= m < |GetLoopContext(page, render, outer, ctx)| ==>
               StageCount(page, render, inner, GetLoopContext(page, render, outer, ctx)[m]) == b
    requires i < a && j < b
    ensures Chain(page, render, [outer, inner], [ctx]).Ok?
    ensures var r := Chain(page, render, [outer, inner], [ctx]).value;
            && Offset(i, b) + j < |r|
            && IndexKey(0) in r[Offset(i, b) + j] && r[Offset(i, b) + j][IndexKey(0)] == Num((i + 1) as real)
            && "index" in r[Offset(i, b) + j] && r[Offset(i, b) + j]["index"] == Num((i + 1) as real)
            && IndexKey(1) in r[Offset(i, b) + j] && r[Offset(i, b) + j][IndexKey(1)] == Num((j + 1) as real)
  {
    var first := GetLoopContext(page, render, outer, ctx);
    SelectedPlain(outer, a);
    SelectedPlain(inner, b);
    ChainTwo(page, render, outer, inner, ctx);
    forall m | 0 <= m < |first| ensures |GetLoopContext(page, render, inner, first[m])| == b {
    }
    FlatMapAt(page, render, inner, first, b, i, j);
    OuterTagged(page, render, outer, ctx, a, i);
    InnerTagged(page, render, inner, first[i], b, j);
  }

  /** `only: [1, 2]` on an element with five children gives the contexts
      tagged 1 and 2, in that order. */
  lemma OnlyFirstTwo(page: Page, render: Render, ctx: Context)
    requires LoopKeys(ctx) == {}
    requires StageCount(page, render, LoopOption("sel", Some([1, 2]), None), ctx) == 5
    ensures var r := GetLoopContext(page, render, LoopOption("sel", Some([1, 2]), None), ctx);
            |r| == 2 && r[0]["index"] == Num(1.0) && r[1]["index"] == Num(2.0)
  {
    var opt := LoopOption("sel", Some([1, 2]), None);
    SelectedOnly(opt, 5);
    TagKeys(ctx, 1);
    TagKeys(ctx, 2);
  }

  /** `only: [-1]` on an element with five children gives one context tagged 5. */
  lemma OnlyLast(page: Page, render: Render, ctx: Context)
    requires LoopKeys(ctx) == {}
    requires StageCount(page, render, LoopOption("sel", Some([-1]), None), ctx) == 5
    ensures var r := GetLoopContext(page, render, LoopOption("sel", Some([-1]), None), ctx);
            |r| == 1 && r[0]["index"] == Num(5.0)
  {
    var opt := LoopOption("sel", Some([-1]), None);
    SelectedOnly(opt, 5);
    TagKeys(ctx, 5);
  }

  /** `only: [3, 1, 2]` with `excludes: [1]` visits 3 then 2: the listed
      order is kept, not sorted. */
  lemma OnlyKeepsOrder()
    ensures Selected(LoopOption("sel", Some([3, 1, 2]), Some([1])), 5) == [3, 2]
  {
    var opt := LoopOption("sel", Some([3, 1, 2]), Some([1]));
    assert Includes(opt, 5) == [3, 1, 2];
    assert Excludes(opt, 5) == [1];
    DropOne();
  }

  lemma DropOne()
    ensures Without([3, 1, 2], [1]) == [3, 2]
  {
    var a, b, c := [3], [1], [2];
    assert [3, 1, 2] == a + (b + c);
    WithoutSingle(3, [1]);
    WithoutSingle(1, [1]);
    WithoutSingle(2, [1]);
    WithoutAppend(b, c, [1]);
    WithoutAppend(a, b + c, [1]);
  }
}
