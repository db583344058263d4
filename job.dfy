/** The scraping job: rendering loop entries against expanded contexts,
    scraping every declared entry of a page, loading the resumable queue and
    draining it. */
module Jobs {
  import opened Wrappers
  import opened Data
  import opened Loops
  import opened WorkQueue

  // ---------------------------------------------------------------------------
  // Declarations

  /** A `DataOptions` whose selector is still a template. */
  datatype DataLoopOption = DataLoopOption(
    pre: Option<string>,
    post: Option<string>,
    tplSelector: string,
    regex: Option<string>,
    regFlag: Option<string>)

  /** A loop entry field: a literal, or an option rendered per context. */
  datatype LoopField = Lit(v: Value) | Sel(opt: DataLoopOption)

  datatype LoopEntryOption = LoopEntryOption(
    name: LoopField,
    value: LoopField,
    unit: Option<LoopField>,
    year: Option<LoopField>)

  /** A looped entry: its stages (a single stage is a one-element list),
      the entry to read per context, and the value type. */
  datatype DataLoopEntryOptions = DataLoopEntryOptions(
    loop: seq<LoopOption>,
    data: LoopEntryOption,
    dataType: Option<DataType>)

  /** One declared item of a job's data list; `isDataLoopEntryOptions` is the
      `Looped?` test. */
  datatype Group = Entry(entry: DataEntryOptions) | Looped(looped: DataLoopEntryOptions)

  datatype Job = Job(
    queueFile: string,
    tplJson: string,
    contexts: seq<Context>,
    tplUrl: string,
    data: seq<Group>)

  // ---------------------------------------------------------------------------
  // Rendering loop entries

  /** The loop option a data option came from, given the selector template. */
  function Unrender(opt: DataOptions, tplSelector: string): DataLoopOption {
    DataLoopOption(opt.pre, opt.post, tplSelector, opt.regex, opt.regFlag)
  }

  /** `toDataOption`: a literal passes through; an option gets its selector
      rendered against the context and keeps every other field. */
  function ToDataOption(f: LoopField, render: Render, ctx: Context): (r: Field)
    ensures r.Literal? <==> f.Lit?
    ensures f.Lit? ==> r.v == f.v
    ensures f.Sel? ==> r.Single? && r.opt.selector == render(f.opt.tplSelector, ctx)
    ensures f.Sel? ==> Unrender(r.opt, f.opt.tplSelector) == f.opt
  {
    match f
    case Lit(v) => Literal(v)
    case Sel(d) => Single(DataOptions(d.pre, d.post, render(d.tplSelector, ctx), d.regex, d.regFlag))
  }

  function ToOptionalField(f: Option<LoopField>, render: Render, ctx: Context): Option<Field> {
    match f
    case None => None
    case Some(g) => Some(ToDataOption(g, render, ctx))
  }

  /** JavaScript truthiness of a declared loop field. */
  predicate LoopDeclared(f: Option<LoopField>) {
    match f
    case None => false
    case Some(Lit(Str(s))) => s != ""
    case Some(Lit(Num(x))) => x != 0.0
    case Some(Sel(_)) => true
  }

  /** `toDataEntryOption`: name and value rendered, year and unit rendered
      when present (a falsy literal stays falsy), the type copied. */
  function ToDataEntryOption(l: DataLoopEntryOptions, render: Render, ctx: Context): (r: DataEntryOptions)
    ensures r.name == ToDataOption(l.data.name, render, ctx)
    ensures r.value == ToDataOption(l.data.value, render, ctx)
    ensures Declared(r.year) <==> LoopDeclared(l.data.year)
    ensures Declared(r.unit) <==> LoopDeclared(l.data.unit)
    ensures LoopDeclared(l.data.year) ==> r.year == Some(ToDataOption(l.data.year.value, render, ctx))
    ensures LoopDeclared(l.data.unit) ==> r.unit == Some(ToDataOption(l.data.unit.value, render, ctx))
    ensures r.dataType == l.dataType
  {
    DataEntryOptions(
      ToDataOption(l.data.name, render, ctx),
      ToDataOption(l.data.value, render, ctx),
      ToOptionalField(l.data.unit, render, ctx),
      ToOptionalField(l.data.year, render, ctx),
      l.dataType)
  }

  // ---------------------------------------------------------------------------
  // Scraping one page

  /** The entries read through a list of contexts, one per context, in order. */
  function EntryResults(page: Page, render: Render, l: DataLoopEntryOptions, ctxs: seq<Context>, prims: Primitives)
    : (r: seq<Result<DataEntry, Error>>)
    ensures |r| == |ctxs|
    ensures forall i :: 0 <= i < |ctxs| ==> r[i] == GetDataEntry(page, ToDataEntryOption(l, render, ctxs[i]), prims)
  {
    seq(|ctxs|, i requires 0 <= i < |ctxs| => GetDataEntry(page, ToDataEntryOption(l, render, ctxs[i]), prims))
  }

  /** A loop entry rendered against a context always reads: each of its
      fields is a literal or a single selector option. */
  lemma LoopEntryReads(page: Page, render: Render, l: DataLoopEntryOptions, ctx: Context, prims: Primitives)
    ensures GetDataEntry(page, ToDataEntryOption(l, render, ctx), prims).Ok?
  {
  }

  /** `scrapeLoop` started from the empty context: it fails exactly when a
      stage fails, and otherwise reads one record per expanded context. */
  function ScrapeLoop(page: Page, render: Render, l: DataLoopEntryOptions, prims: Primitives): (r: Result<seq<DataEntry>, Error>)
    ensures Chain(page, render, l.loop, [map[]]).Err? ==> r == Err(Chain(page, render, l.loop, [map[]]).error)
    ensures Chain(page, render, l.loop, [map[]]).Ok? ==> r.Ok?
    ensures r.Ok? ==> |r.value| == |Chain(page, render, l.loop, [map[]]).value|
  {
    match Chain(page, render, l.loop, [map[]])
    case Err(e) => Err(e)
    case Ok(ctxs) =>
      var rs := EntryResults(page, render, l, ctxs, prims);
      assert forall i :: 0 <= i < |rs| ==> rs[i].Ok? by {
        forall i | 0 <= i < |rs| ensures rs[i].Ok? {
          LoopEntryReads(page, render, l, ctxs[i], prims);
        }
      }
      Collect(rs)
  }

  /** A looped entry yields one record per expanded context, in the order of
      the contexts, each read through the entry rendered against its context;
      a literal name is the same in every record, and a record has a year
      exactly when the loop entry declares one. It fails exactly when a stage
      fails. */
  lemma ScrapeLoopEntries(page: Page, render: Render, l: DataLoopEntryOptions, prims: Primitives)
    ensures Chain(page, render, l.loop, [map[]]).Err? ==> ScrapeLoop(page, render, l, prims).Err?
    ensures Chain(page, render, l.loop, [map[]]).Ok? ==> ScrapeLoop(page, render, l, prims).Ok?
    ensures ScrapeLoop(page, render, l, prims).Ok? ==>
              var ctxs := Chain(page, render, l.loop, [map[]]).value;
              var r := ScrapeLoop(page, render, l, prims).value;
              && |r| == |ctxs|
              && (forall i :: 0 <= i < |r| ==> r[i] == GetDataEntry(page, ToDataEntryOption(l, render, ctxs[i]), prims).value)
              && (l.data.name.Lit? ==> forall i :: 0 <= i < |r| ==> r[i].name == l.data.name.v)
              && (forall i :: 0 <= i < |r| ==> (r[i].year.Some? <==> LoopDeclared(l.data.year)))
  {
    if ScrapeLoop(page, render, l, prims).Ok? {
      var ctxs := Chain(page, render, l.loop, [map[]]).value;
      var r := ScrapeLoop(page, render, l, prims).value;
      forall i | 0 <= i < |r|
        ensures (l.data.name.Lit? ==> r[i].name == l.data.name.v)
        ensures r[i].year.Some? <==> LoopDeclared(l.data.year)
      {
        var o := ToDataEntryOption(l, render, ctxs[i]);
        assert EntryResults(page, render, l, ctxs, prims)[i].Ok?;
        assert GetDataEntry(page, o, prims).Ok?;
      }
    }
  }

  /** One declared group: a looped entry yields its records, a plain entry
      exactly one record, and a failure is passed on. */
  function ScrapeGroup(page: Page, render: Render, g: Group, prims: Primitives): (r: Result<seq<DataEntry>, Error>)
    ensures g.Looped? ==> r == ScrapeLoop(page, render, g.looped, prims)
    ensures g.Entry? ==> (r.Ok? <==> GetDataEntry(page, g.entry, prims).Ok?)
    ensures g.Entry? && r.Ok? ==> r.value == [GetDataEntry(page, g.entry, prims).value]
  {
    match g
    case Looped(l) => ScrapeLoop(page, render, l, prims)
    case Entry(o) =>
      match GetDataEntry(page, o, prims)
      case Ok(e) => Ok([e])
      case Err(err) => Err(err)
  }

  /** One pending result per declared group, in declaration order. */
  function GroupResults(page: Page, render: Render, groups: seq<Group>, prims: Primitives)
    : (r: seq<Result<seq<DataEntry>, Error>>)
    ensures |r| == |groups|
    ensures forall i :: 0 <= i < |groups| ==> r[i] == ScrapeGroup(page, render, groups[i], prims)
  {
    seq(|groups|, i requires 0 <= i < |groups| => ScrapeGroup(page, render, groups[i], prims))
  }

  /** `scrape`: every group's records, concatenated in declaration order. */
  function Scrape(page: Page, render: Render, groups: seq<Group>, prims: Primitives): (r: Result<seq<DataEntry>, Error>)
    ensures r.Ok? <==> forall i :: 0 <= i < |groups| ==> ScrapeGroup(page, render, groups[i], prims).Ok?
    ensures groups == [] ==> r == Ok([])
  {
    match Collect(GroupResults(page, render, groups, prims))
    case Err(e) => Err(e)
    case Ok(rs) => Ok(Concat(rs))
  }

  lemma GroupResultsAppend(page: Page, render: Render, a: seq<Group>, b: seq<Group>, prims: Primitives)
    ensures GroupResults(page, render, a + b, prims) == GroupResults(page, render, a, prims) + GroupResults(page, render, b, prims)
  {
    MapAppend(g => ScrapeGroup(page, render, g, prims), a, b,
              GroupResults(page, render, a, prims), GroupResults(page, render, b, prims),
              GroupResults(page, render, a + b, prims));
  }

  /** Scraping a single group is scraping that group. */
  lemma ScrapeSingle(page: Page, render: Render, g: Group, prims: Primitives)
    ensures Scrape(page, render, [g], prims) == ScrapeGroup(page, render, g, prims)
  {
    var rs := GroupResults(page, render, [g], prims);
    assert rs == [ScrapeGroup(page, render, g, prims)];
    if ScrapeGroup(page, render, g, prims).Ok? {
      assert Collect(rs).value == [ScrapeGroup(page, render, g, prims).value];
    }
  }

  /** Scraping a list split in two is scraping each part and concatenating:
      the records come out in declaration order, and the whole fails exactly
      when a part fails. */
  lemma ScrapeAppend(page: Page, render: Render, a: seq<Group>, b: seq<Group>, prims: Primitives)
    ensures Scrape(page, render, a + b, prims).Ok? <==>
              Scrape(page, render, a, prims).Ok? && Scrape(page, render, b, prims).Ok?
    ensures Scrape(page, render, a + b, prims).Ok? ==>
              Scrape(page, render, a + b, prims).value == Scrape(page, render, a, prims).value + Scrape(page, render, b, prims).value
  {
    var ra := GroupResults(page, render, a, prims);
    var rb := GroupResults(page, render, b, prims);
    GroupResultsAppend(page, render, a, b, prims);
    CollectAppend(ra, rb);
    if Collect(ra + rb).Ok? {
      ConcatAppend(Collect(ra).value, Collect(rb).value);
    }
  }

  /** With only plain entries, scraping yields exactly one record per entry,
      in order, or fails when any entry fails. */
  lemma ScrapePlainEntries(page: Page, render: Render, groups: seq<Group>, prims: Primitives)
    requires forall i :: 0 <= i < |groups| ==> groups[i].Entry?
    ensures Scrape(page, render, groups, prims).Ok? <==>
              forall i :: 0 <= i < |groups| ==> GetDataEntry(page, groups[i].entry, prims).Ok?
    ensures Scrape(page, render, groups, prims).Ok? ==>
              && |Scrape(page, render, groups, prims).value| == |groups|
              && forall i :: 0 <= i < |groups| ==>
                   Scrape(page, render, groups, prims).value[i] == GetDataEntry(page, groups[i].entry, prims).value
  {
    var rs := GroupResults(page, render, groups, prims);
    if Collect(rs).Ok? {
      var rows := Collect(rs).value;
      forall i | 0 <= i < |rows| ensures |rows[i]| == 1 {
        assert rs[i].Ok?;
      }
      ConcatLength(rows, 1);
      forall i | 0 <= i < |groups|
        ensures Concat(rows)[i] == GetDataEntry(page, groups[i].entry, prims).value
      {
        ConcatAt(rows, 1, i, 0);
        assert rs[i].Ok?;
      }
    } else {
      var k := FirstErr(rs);
      assert rs[k].Err?;
      assert !GetDataEntry(page, groups[k].entry, prims).Ok?;
    }
  }

  // ---------------------------------------------------------------------------
  // Loading the queue

  /** Whether the queue holds an item whose payload equals `c`, asked the way
      `loadJob` asks it: through `find` with an equality test. */
  predicate Persisted(q: Queue<Context>, c: Context) {
    q.Find((d: Context) => d == c).Some?
  }

  /** Every payload in the queue is found. */
  lemma PersistedAt(q: Queue<Context>, i: nat)
    requires i < |q.items|
    ensures Persisted(q, q.items[i].data)
  {
  }

  /** A found context is the payload of some item. */
  lemma PersistedWitness(q: Queue<Context>, c: Context) returns (i: nat)
    requires Persisted(q, c)
    ensures i < |q.items| && q.items[i].data == c
  {
    var p := (d: Context) => d == c;
    var k :| 0 <= k < |q.items| && q.items[k].data == q.Find(p).value && NoneBelow(q.items, p, k);
    assert p(q.Find(p).value);
    i := k;
  }

  /** The declared contexts no persisted item equals, in declared order. */
  function NewContexts(prior: Queue<Context>, declared: seq<Context>): (r: seq<Context>)
    ensures |r| <= |declared|
    ensures forall i :: 0 <= i < |r| ==> !Persisted(prior, r[i])
  {
    if declared == [] then []
    else (if Persisted(prior, declared[0]) then [] else [declared[0]]) + NewContexts(prior, declared[1..])
  }

  /** The filter works context by context: the new contexts of a
      concatenation are those of each part, in declared order. */
  lemma {:induction false} NewContextsAppend(prior: Queue<Context>, a: seq<Context>, b: seq<Context>)
    ensures NewContexts(prior, a + b) == NewContexts(prior, a) + NewContexts(prior, b)
  {
    if a == [] {
      assert a + b == b;
    } else {
      var h := if Persisted(prior, a[0]) then [] else [a[0]];
      assert (a + b)[0] == a[0];
      assert (a + b)[1..] == a[1..] + b;
      calc {
        NewContexts(prior, a + b);
        h + NewContexts(prior, a[1..] + b);
        { NewContextsAppend(prior, a[1..], b); }
        h + (NewContexts(prior, a[1..]) + NewContexts(prior, b));
        (h + NewContexts(prior, a[1..])) + NewContexts(prior, b);
        NewContexts(prior, a) + NewContexts(prior, b);
      }
    }
  }

  /** Declared [c1, c2, c3] with only c2 persisted adds c1 then c3. */
  lemma NewContextsSkipsPersisted(prior: Queue<Context>, c1: Context, c2: Context, c3: Context)
    requires !Persisted(prior, c1) && Persisted(prior, c2) && !Persisted(prior, c3)
    ensures NewContexts(prior, [c1, c2, c3]) == [c1, c3]
  {
    assert [c1, c2, c3] == [c1] + ([c2] + [c3]);
    assert [c1][1..] == [] && [c2][1..] == [] && [c3][1..] == [];
    NewContextsAppend(prior, [c2], [c3]);
    NewContextsAppend(prior, [c1], [c2] + [c3]);
  }

  /** A context is added exactly when it is declared and not persisted; a
      context declared twice is added twice. */
  lemma {:induction false} NewContextsCounts(prior: Queue<Context>, declared: seq<Context>)
    ensures forall c :: c in NewContexts(prior, declared) <==> c in declared && !Persisted(prior, c)
    ensures forall c :: multiset(NewContexts(prior, declared))[c] ==
                        if Persisted(prior, c) then 0 else multiset(declared)[c]
  {
    if declared != [] {
      NewContextsCounts(prior, declared[1..]);
      var h := if Persisted(prior, declared[0]) then [] else [declared[0]];
      assert NewContexts(prior, declared) == h + NewContexts(prior, declared[1..]);
      assert declared == [declared[0]] + declared[1..];
      assert multiset(declared) == multiset([declared[0]]) + multiset(declared[1..]);
    }
  }

  /** With nothing persisted among them, every declared context is new. */
  lemma {:induction false} NewContextsAllNew(prior: Queue<Context>, declared: seq<Context>)
    requires forall i :: 0 <= i < |declared| ==> !Persisted(prior, declared[i])
    ensures NewContexts(prior, declared) == declared
  {
    if declared != [] {
      NewContextsAllNew(prior, declared[1..]);
    }
  }

  /** With every one of them persisted, no declared context is new. */
  lemma {:induction false} NewContextsNoneNew(prior: Queue<Context>, declared: seq<Context>)
    requires forall i :: 0 <= i < |declared| ==> Persisted(prior, declared[i])
    ensures NewContexts(prior, declared) == []
  {
    if declared != [] {
      NewContextsNoneNew(prior, declared[1..]);
    }
  }

  /** `loadJob`: the persisted items (none when the queue file cannot be
      read) followed by the declared contexts that are not yet queued. */
  function LoadJob(persisted: Option<seq<QItem<Context>>>, declared: seq<Context>): (q: Queue<Context>)
    ensures var prior := persisted.GetOr([]);
            && |q.items| == |prior| + |NewContexts(Queue(prior), declared)|
            && q.items[..|prior|] == prior
            && forall i :: 0 <= i < |NewContexts(Queue(prior), declared)| ==>
                 q.items[|prior| + i] == QItem(false, NewContexts(Queue(prior), declared)[i])
  {
    var prior := Queue(persisted.GetOr([]));
    prior.AddData(NewContexts(prior, declared))
  }

  /** Loading keeps every persisted payload queued. */
  lemma LoadJobKeeps(persisted: Option<seq<QItem<Context>>>, declared: seq<Context>, c: Context)
    requires Persisted(Queue(persisted.GetOr([])), c)
    ensures Persisted(LoadJob(persisted, declared), c)
  {
    var prior := Queue(persisted.GetOr([]));
    var q := LoadJob(persisted, declared);
    var i := PersistedWitness(prior, c);
    assert q.items[i] == q.items[..|prior.items|][i];
    PersistedAt(q, i);
  }

  /** Loading queues every new context. */
  lemma LoadJobAdds(persisted: Option<seq<QItem<Context>>>, declared: seq<Context>, i: nat)
    requires i < |NewContexts(Queue(persisted.GetOr([])), declared)|
    ensures Persisted(LoadJob(persisted, declared), NewContexts(Queue(persisted.GetOr([])), declared)[i])
  {
    var n := |persisted.GetOr([])|;
    PersistedAt(LoadJob(persisted, declared), n + i);
  }

  /** After loading, every declared context is queued. */
  lemma LoadJobCovers(persisted: Option<seq<QItem<Context>>>, declared: seq<Context>)
    ensures forall c :: c in declared ==> Persisted(LoadJob(persisted, declared), c)
  {
    var prior := Queue(persisted.GetOr([]));
    NewContextsCounts(prior, declared);
    forall c | c in declared ensures Persisted(LoadJob(persisted, declared), c) {
      if Persisted(prior, c) {
        LoadJobKeeps(persisted, declared, c);
      } else {
        var added := NewContexts(prior, declared);
        var i :| 0 <= i < |added| && added[i] == c;
        LoadJobAdds(persisted, declared, i);
      }
    }
  }

  /** Loading against a queue that already holds every declared context
      returns that queue unchanged. */
  lemma LoadJobReload(q: Queue<Context>, declared: seq<Context>)
    requires forall c :: c in declared ==> Persisted(q, c)
    ensures LoadJob(Some(q.items), declared) == q
  {
    NewContextsNoneNew(q, declared);
    var r := LoadJob(Some(q.items), declared);
    assert r.items == q.items[..|q.items|];
  }

  /** Loading is idempotent: reloading what a load produced adds nothing. */
  lemma LoadJobIdempotent(persisted: Option<seq<QItem<Context>>>, declared: seq<Context>)
    ensures LoadJob(Some(LoadJob(persisted, declared).items), declared) == LoadJob(persisted, declared)
  {
    LoadJobCovers(persisted, declared);
    LoadJobReload(LoadJob(persisted, declared), declared);
  }

  /** Finishing items keeps their payloads, so a queue written back after k
      steps reloads as it was: a restart resumes where the run stopped. */
  lemma LoadJobResume(persisted: Option<seq<QItem<Context>>>, declared: seq<Context>, k: nat)
    ensures var q := FinishN(LoadJob(persisted, declared), k);
            LoadJob(Some(q.items), declared) == q
  {
    var q0 := LoadJob(persisted, declared);
    var q := FinishN(q0, k);
    LoadJobCovers(persisted, declared);
    forall c | c in declared ensures Persisted(q, c) {
      var i := PersistedWitness(q0, c);
      assert q.items[i].data == q0.items[i].data;
      PersistedAt(q, i);
    }
    LoadJobReload(q, declared);
  }

  /** With no readable queue file, the queue serves every declared context
      in declared order, a context declared twice twice. */
  lemma LoadJobFresh(declared: seq<Context>)
    ensures Waiting(LoadJob(None, declared).items) == declared
  {
    var empty: Queue<Context> := Queue([]);
    forall i | 0 <= i < |declared| ensures !Persisted(empty, declared[i]) {
    }
    NewContextsAllNew(empty, declared);
    AddDataWaiting(empty, declared);
    assert Waiting(empty.items) == [];
  }

  // ---------------------------------------------------------------------------
  // Draining the queue

  /** What the drain loop does to the outside world, in order. */
  datatype Event =
    | WriteResult(path: string, entries: seq<DataEntry>)
    | WriteQueue(path: string, items: seq<QItem<Context>>)
    | DeleteQueue(path: string)

  datatype Outcome = Drained | Aborted(error: Error)

  /** The effects of a drain: the writes performed, the last queue snapshot
      and how it ended. */
  datatype Run = Run(log: seq<Event>, queue: Queue<Context>, outcome: Outcome)

  /** The collaborators: the page shown after navigating to a URL, template
      rendering, and the JavaScript built-ins. */
  datatype Env = Env(load: string -> Page, render: Render, prims: Primitives)

  /** One step's scrape: navigate to the rendered URL and scrape the job's data. */
  function StepResult(job: Job, env: Env, c: Context): Result<seq<DataEntry>, Error> {
    Scrape(env.load(env.render(job.tplUrl, c)), env.render, job.data, env.prims)
  }

  /** What the drain needs of a job: the queue file, where each context's
      records are written, and each context's scrape. */
  datatype Driver = Driver(
    queueFile: string,
    outPath: Context -> string,
    step: Context -> Result<seq<DataEntry>, Error>)

  function DriverOf(job: Job, env: Env): Driver {
    Driver(job.queueFile, c => env.render(job.tplJson, c), c => StepResult(job, env, c))
  }

  /** `getAllOutputs`: the output file of every declared context, in order. */
  function AllOutputs(job: Job, render: Render): (r: seq<string>)
    ensures |r| == |job.contexts|
  {
    seq(|job.contexts|, i requires 0 <= i < |job.contexts| => render(job.tplJson, job.contexts[i]))
  }

  /** The files merged are the files the drain writes results to: each
      declared context's result path is among the outputs, at its
      declaration's position. */
  lemma AllOutputsArePaths(job: Job, env: Env, i: nat)
    requires i < |job.contexts|
    ensures AllOutputs(job, env.render)[i] == DriverOf(job, env).outPath(job.contexts[i])
  {
  }

  /** `processQueue` as a recursion on the queue snapshot: take `next`,
      scrape, write the result, `finish`, write the queue, repeat; delete
      the queue file once nothing waits. A failing scrape stops the drain. */
  function Drain(d: Driver, q: Queue<Context>): (r: Run)
    ensures |r.queue.items| == |q.items|
    decreases q.NumWaiting()
  {
    match q.Next()
    case None => Run([DeleteQueue(d.queueFile)], q, Drained)
    case Some(c) =>
      match d.step(c)
      case Err(e) => Run([], q, Aborted(e))
      case Ok(entries) =>
        FinishAdvances(q);
        var rest := Drain(d, q.Finish());
        Run([WriteResult(d.outPath(c), entries), WriteQueue(d.queueFile, q.Finish().items)] + rest.log,
            rest.queue, rest.outcome)
  }

  /** However the drain ends, its last snapshot says why: a finished drain
      leaves nothing waiting and deletes the queue file last; an aborted one
      stops at the context whose scrape failed, still waiting. */
  lemma {:induction false} DrainEnds(d: Driver, q: Queue<Context>)
    ensures var r := Drain(d, q);
            r.outcome.Drained? ==> r.queue.NumWaiting() == 0 && r.log != [] && r.log[|r.log| - 1] == DeleteQueue(d.queueFile)
    ensures var r := Drain(d, q);
            r.outcome.Aborted? ==> r.queue.Next().Some? && d.step(r.queue.Next().value) == Err(r.outcome.error)
    decreases q.NumWaiting()
  {
    if q.Next().Some? && d.step(q.Next().value).Ok? {
      FinishAdvances(q);
      DrainEnds(d, q.Finish());
    }
  }

  /** The drain loop over a queue variable: returns the writes it performs,
      the last queue snapshot and how it ended. */
  method ProcessQueue(job: Job, env: Env, q0: Queue<Context>) returns (log: seq<Event>, q: Queue<Context>, outcome: Outcome)
    ensures Run(log, q, outcome) == Drain(DriverOf(job, env), q0)
  {
    var d := DriverOf(job, env);
    q := q0;
    log := [];
    while true
      invariant Drain(d, q0) == Run(log + Drain(d, q).log, Drain(d, q).queue, Drain(d, q).outcome)
      decreases q.NumWaiting()
    {
      var context := q.Next();
      if context.None? {
        log := log + [DeleteQueue(job.queueFile)];
        outcome := Drained;
        return;
      }
      var c := context.value;
      // navigate to the rendered URL and scrape: StepResult(job, env, c)
      var result := d.step(c);
      if result.Err? {
        assert log + [] == log;
        outcome := Aborted(result.error);
        return;
      }
      FinishAdvances(q);
      var next := q.Finish();
      var writes := [WriteResult(env.render(job.tplJson, c), result.value), WriteQueue(job.queueFile, next.items)];
      assert log + (writes + Drain(d, next).log) == (log + writes) + Drain(d, next).log;
      log := log + writes;
      q := next;
    }
  }

  /** The first k waiting contexts scrape successfully. */
  predicate StepsOk(d: Driver, q: Queue<Context>, k: nat)
    requires k <= q.NumWaiting()
  {
    forall m :: 0 <= m < k ==> d.step(Waiting(q.items)[m]).Ok?
  }

  lemma FinishOnce<T>(q: Queue<T>)
    ensures FinishN(q, 1) == q.Finish()
  {
  }

  /** One successful step: the two writes for the head of the waiting list,
      then the drain of the finished queue. */
  lemma DrainStep(d: Driver, q: Queue<Context>)
    requires q.NumWaiting() > 0
    requires d.step(Waiting(q.items)[0]).Ok?
    ensures var c := Waiting(q.items)[0];
            Drain(d, q).log ==
              [WriteResult(d.outPath(c), d.step(c).value), WriteQueue(d.queueFile, q.Finish().items)] + Drain(d, q.Finish()).log
    ensures Drain(d, q).queue == Drain(d, q.Finish()).queue
    ensures Drain(d, q).outcome == Drain(d, q.Finish()).outcome
  {
    FinishAdvances(q);
  }

  /** The waiting list after one finish is the old one without its head. */
  lemma NextWaiting<T>(q: Queue<T>, k: nat)
    requires 0 < k < q.NumWaiting()
    ensures k - 1 < q.Finish().NumWaiting()
    ensures Waiting(q.Finish().items)[k - 1] == Waiting(q.items)[k]
  {
    FinishAdvances(q);
  }

  /** Removing the head of the waiting list shifts the step results by one. */
  lemma StepsOkShift(d: Driver, q: Queue<Context>, k: nat)
    requires 0 < k <= q.NumWaiting()
    requires StepsOk(d, q, k)
    ensures k - 1 <= q.Finish().NumWaiting()
    ensures StepsOk(d, q.Finish(), k - 1)
  {
    FinishAdvances(q);
    forall m | 0 <= m < k - 1 ensures d.step(Waiting(q.Finish().items)[m]).Ok? {
      assert Waiting(q.Finish().items)[m] == Waiting(q.items)[m + 1];
    }
  }

  /** Step k writes the records of the k-th waiting context before the
      queue with the first k + 1 of them finished: records are written
      before the queue marks them done, and contexts are served first-in
      first-out. */
  lemma {:induction false} DrainWrites(d: Driver, q: Queue<Context>, k: nat)
    requires k < q.NumWaiting()
    requires StepsOk(d, q, k + 1)
    ensures 2 * k + 1 < |Drain(d, q).log|
    ensures var c := Waiting(q.items)[k];
            Drain(d, q).log[2 * k] == WriteResult(d.outPath(c), d.step(c).value)
    ensures Drain(d, q).log[2 * k + 1] == WriteQueue(d.queueFile, FinishN(q, k + 1).items)
    decreases k
  {
    if k == 0 {
      WritesFirst(d, q);
    } else {
      StepsOkShift(d, q, k + 1);
      DrainWrites(d, q.Finish(), k - 1);
      WritesStep(d, q, k, k - 1);
    }
  }

  /** The base case of DrainWrites: the first step writes the head's records,
      then the queue with the head finished. */
  lemma WritesFirst(d: Driver, q: Queue<Context>)
    requires 0 < q.NumWaiting()
    requires d.step(Waiting(q.items)[0]).Ok?
    ensures 1 < |Drain(d, q).log|
    ensures var c := Waiting(q.items)[0];
            Drain(d, q).log[0] == WriteResult(d.outPath(c), d.step(c).value)
    ensures Drain(d, q).log[1] == WriteQueue(d.queueFile, FinishN(q, 1).items)
  {
    DrainStep(d, q);
    FinishOnce(q);
  }

  /** The inductive step of DrainWrites, with j = k - 1: the writes of step
      j of the finished queue's drain are the writes of step k. */
  lemma WritesStep(d: Driver, q: Queue<Context>, k: nat, j: nat)
    requires k == j + 1 && k < q.NumWaiting()
    requires StepsOk(d, q, k + 1)
    requires j < q.Finish().NumWaiting() && StepsOk(d, q.Finish(), j + 1)
    requires 2 * j + 1 < |Drain(d, q.Finish()).log|
    requires var c := Waiting(q.Finish().items)[j];
             Drain(d, q.Finish()).log[2 * j] == WriteResult(d.outPath(c), d.step(c).value)
    requires Drain(d, q.Finish()).log[2 * j + 1] == WriteQueue(d.queueFile, FinishN(q.Finish(), j + 1).items)
    ensures 2 * k + 1 < |Drain(d, q).log|
    ensures var c := Waiting(q.items)[k];
            Drain(d, q).log[2 * k] == WriteResult(d.outPath(c), d.step(c).value)
    ensures Drain(d, q).log[2 * k + 1] == WriteQueue(d.queueFile, FinishN(q, k + 1).items)
  {
    NextWaiting(q, k);
    var ck := Waiting(q.items)[k];
    WritesAfterStep(d, q, k, j, WriteResult(d.outPath(ck), d.step(ck).value),
                    WriteQueue(d.queueFile, FinishN(q, k + 1).items));
  }

  /** Events 2j and 2j + 1 of the finished queue's drain are events 2k and
      2k + 1 of the whole drain, k = j + 1. */
  lemma WritesAfterStep(d: Driver, q: Queue<Context>, k: nat, j: nat, e0: Event, e1: Event)
    requires q.NumWaiting() > 0 && d.step(Waiting(q.items)[0]).Ok?
    requires k == j + 1
    requires 2 * j + 1 < |Drain(d, q.Finish()).log|
    requires Drain(d, q.Finish()).log[2 * j] == e0 && Drain(d, q.Finish()).log[2 * j + 1] == e1
    ensures 2 * k + 1 < |Drain(d, q).log| && Drain(d, q).log[2 * k] == e0 && Drain(d, q).log[2 * k + 1] == e1
  {
    var c := Waiting(q.items)[0];
    DrainStep(d, q);
    ShiftedWrites(Drain(d, q).log, [WriteResult(d.outPath(c), d.step(c).value), WriteQueue(d.queueFile, q.Finish().items)],
                  Drain(d, q.Finish()).log, k, j, e0, e1);
  }

  /** Events 2j and 2j + 1 of the remaining drain are events 2k and 2k + 1
      of the whole log, k = j + 1. */
  lemma ShiftedWrites(log: seq<Event>, writes: seq<Event>, rest: seq<Event>, k: nat, j: nat, e0: Event, e1: Event)
    requires log == writes + rest && |writes| == 2 && k == j + 1
    requires 2 * j + 1 < |rest| && rest[2 * j] == e0 && rest[2 * j + 1] == e1
    ensures 2 * k + 1 < |log| && log[2 * k] == e0 && log[2 * k + 1] == e1
  {
  }

  /** A result the drain writes for a declared context goes to a file the
      merge reads. */
  lemma ResultWrittenIsMerged(job: Job, env: Env, q: Queue<Context>, k: nat)
    requires k < q.NumWaiting()
    requires StepsOk(DriverOf(job, env), q, k + 1)
    requires Waiting(q.items)[k] in job.contexts
    ensures 2 * k < |Drain(DriverOf(job, env), q).log|
    ensures Drain(DriverOf(job, env), q).log[2 * k].WriteResult?
    ensures Drain(DriverOf(job, env), q).log[2 * k].path in AllOutputs(job, env.render)
  {
    var d := DriverOf(job, env);
    DrainWrites(d, q, k);
    var i :| 0 <= i < |job.contexts| && job.contexts[i] == Waiting(q.items)[k];
    AllOutputsArePaths(job, env, i);
  }

  /** When every waiting context scrapes successfully, the drain writes two
      events per context, deletes the queue file last, and ends with every
      item finished and every payload unchanged. */
  lemma {:induction false} DrainCompletes(d: Driver, q: Queue<Context>)
    requires StepsOk(d, q, q.NumWaiting())
    ensures Drain(d, q).outcome == Drained
    ensures Drain(d, q).queue == FinishN(q, q.NumWaiting())
    ensures |Drain(d, q).log| == 2 * q.NumWaiting() + 1
    ensures Drain(d, q).log[2 * q.NumWaiting()] == DeleteQueue(d.queueFile)
    ensures FinishedBelow(Drain(d, q).queue.items, q.Length())
    decreases q.NumWaiting()
  {
    DrainedAllFinished(q);
    if q.NumWaiting() == 0 {
      FinishWhenDrained(q);
    } else {
      FinishAdvances(q);
      StepsOkShift(d, q, q.NumWaiting());
      DrainCompletes(d, q.Finish());
      CompletesAfterStep(d, q, q.NumWaiting(), q.Finish().NumWaiting());
    }
  }

  /** The inductive step of DrainCompletes, with n = m + 1 contexts waiting:
      a completed drain of the finished queue, seen from the queue before it. */
  lemma CompletesAfterStep(d: Driver, q: Queue<Context>, n: nat, m: nat)
    requires q.NumWaiting() > 0 && d.step(Waiting(q.items)[0]).Ok?
    requires n == m + 1
    requires Drain(d, q.Finish()).outcome == Drained
    requires Drain(d, q.Finish()).queue == FinishN(q.Finish(), m)
    requires |Drain(d, q.Finish()).log| == 2 * m + 1
    requires Drain(d, q.Finish()).log[2 * m] == DeleteQueue(d.queueFile)
    ensures Drain(d, q).outcome == Drained
    ensures Drain(d, q).queue == FinishN(q, n)
    ensures |Drain(d, q).log| == 2 * n + 1
    ensures Drain(d, q).log[2 * n] == DeleteQueue(d.queueFile)
  {
    var q1 := q.Finish();
    var c := Waiting(q.items)[0];
    DrainStep(d, q);
    LastEventAt(Drain(d, q).log, [WriteResult(d.outPath(c), d.step(c).value), WriteQueue(d.queueFile, q1.items)],
                Drain(d, q1).log, n, m, DeleteQueue(d.queueFile));
  }

  /** The last event 2m of the remaining drain is the last event 2n of the
      whole log, n = m + 1. */
  lemma LastEventAt(log: seq<Event>, writes: seq<Event>, rest: seq<Event>, n: nat, m: nat, e: Event)
    requires log == writes + rest && |writes| == 2 && n == m + 1
    requires |rest| == 2 * m + 1 && rest[2 * m] == e
    ensures |log| == 2 * n + 1 && log[2 * n] == e
  {
  }

  /** When the k-th waiting context is the first to fail, the drain stops
      after 2k writes, and its last write is the queue it ends with, whose
      next context is the one that failed: a restart retries it. */
  lemma {:induction false} DrainAborts(d: Driver, q: Queue<Context>, k: nat)
    requires k < q.NumWaiting()
    requires StepsOk(d, q, k)
    requires d.step(Waiting(q.items)[k]).Err?
    ensures Drain(d, q).outcome == Aborted(d.step(Waiting(q.items)[k]).error)
    ensures Drain(d, q).queue == FinishN(q, k)
    ensures |Drain(d, q).log| == 2 * k
    ensures k > 0 ==> Drain(d, q).log[2 * k - 1] == WriteQueue(d.queueFile, Drain(d, q).queue.items)
    ensures Drain(d, q).queue.Next() == Some(Waiting(q.items)[k])
    decreases k
  {
    if k == 0 {
      ServedInOrder(q, 0);
      assert FinishN(q, 0) == q;
      AbortNow(d, q);
    } else {
      StepsOkShift(d, q, k);
      NextWaiting(q, k);
      DrainAborts(d, q.Finish(), k - 1);
      AbortsAfterStep(d, q, k, k - 1);
    }
  }

  /** The inductive step of DrainAborts, with j = k - 1: the aborted drain
      of the finished queue, seen from the queue before it. */
  lemma AbortsAfterStep(d: Driver, q: Queue<Context>, k: nat, j: nat)
    requires q.NumWaiting() > 0 && d.step(Waiting(q.items)[0]).Ok?
    requires k == j + 1
    requires Drain(d, q.Finish()).queue == FinishN(q.Finish(), j)
    requires |Drain(d, q.Finish()).log| == 2 * j
    requires j > 0 ==> Drain(d, q.Finish()).log[2 * j - 1] == WriteQueue(d.queueFile, Drain(d, q.Finish()).queue.items)
    ensures Drain(d, q).outcome == Drain(d, q.Finish()).outcome
    ensures Drain(d, q).queue == Drain(d, q.Finish()).queue
    ensures Drain(d, q).queue == FinishN(q, k)
    ensures |Drain(d, q).log| == 2 * k
    ensures Drain(d, q).log[2 * k - 1] == WriteQueue(d.queueFile, Drain(d, q).queue.items)
  {
    var q1 := q.Finish();
    var c := Waiting(q.items)[0];
    if j == 0 {
      assert FinishN(q1, 0) == q1;
    }
    DrainStep(d, q);
    LastWriteAt(Drain(d, q).log, [WriteResult(d.outPath(c), d.step(c).value), WriteQueue(d.queueFile, q1.items)],
                Drain(d, q1).log, k, j, WriteQueue(d.queueFile, Drain(d, q1).queue.items));
  }

  /** A step that fails on the head of the waiting list ends the drain at once. */
  lemma AbortNow(d: Driver, q: Queue<Context>)
    requires q.Next().Some? && d.step(q.Next().value).Err?
    ensures Drain(d, q).log == []
    ensures Drain(d, q).queue == q
    ensures Drain(d, q).outcome == Aborted(d.step(q.Next().value).error)
  {
  }

  /** The last event of the whole log, 2k - 1 with k = j + 1, is the last
      event of the remaining drain, or the second write when the remaining
      drain wrote nothing. */
  lemma LastWriteAt(log: seq<Event>, writes: seq<Event>, rest: seq<Event>, k: nat, j: nat, e: Event)
    requires log == writes + rest && |writes| == 2 && |rest| == 2 * j && k == j + 1
    requires j == 0 ==> writes[1] == e
    requires j > 0 ==> rest[2 * j - 1] == e
    ensures |log| == 2 * k && log[2 * k - 1] == e
  {
  }
}
