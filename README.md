# A verified model of a resumable web-scraping job runner

The scraper reads a job: a list of contexts (sets of template variables),
a URL template, an output-file template and a list of declared data
entries. It keeps a persistent work queue of contexts. For each unfinished
context it renders the URL, loads the page, reads every declared entry
(plain entries, or looped entries that expand nested "for each child
element" stages into one context per selected child), writes the records
to the context's output file, marks the context finished and writes the
queue back. Once the queue is drained it deletes the queue file. A second
phase reads every output file, flattens its records into
`(key, value)` pairs and folds them into one CSV row per file.

The model is split by source file:

- `wrappers.dfy` (module `Wrappers`): `Option`, `Result` and `Collect`.
  `Collect` is how the model awaits a list of promises: all values in order,
  or a failure.
- `queue.dfy` (module `WorkQueue`): the immutable `Queue` of
  `{finished, data}` items and its operations (`src/queue.ts`). Every
  operation returns a new snapshot, so the queue is a datatype with member
  functions.
- `data.dfy` (module `Data`): reading one data entry from a page
  (`src/data.ts`). This covers trimming, comma stripping, type coercion,
  regular-expression narrowing and `+`-combination of several options.
- `loops.dfy` (module `Loops`): loop expansion (`toIndex`,
  `getLoopContext`, the stage chaining of `scrapeLoop`). The stage loop is
  also a method, `ExpandLoops`, proved against the functional `Chain`.
- `job.dfy` (module `Jobs`): rendering loop entries, scraping a page,
  `loadJob`'s de-duplicating merge of persisted and declared contexts, and
  `processQueue`. `ProcessQueue` is a method with a `while` loop that
  returns the log of writes it performs. It is proved equal to the
  recursive specification `Drain`.
- `merge.dfy` (module `Merge`): `prepareToCSV`'s flattening and
  last-key-wins fold, and `mergeToCSV`'s dropping of unreadable files
  (`index.ts`).

An empty selector match does not always prune a branch of a loop. Each
stage joins its results with a `reduce` that has no initial value
(`src/job.ts:154`). So when a stage receives no contexts at all, because
the previous stage selected no children for any context, that stage fails
and so does the whole scrape. `Loops.ChainEmptyStageFails` states this. A
single stage that selects nothing still yields an empty list of records
(`Loops.ChainEmptySuccess`).

## Model

| member | source | states |
|---|---|---|
| Wrappers.Collect | src/job.ts:164 | Awaiting a list of results succeeds iff every result succeeds. It then gives the values in list order; otherwise it gives the first failure. |
| Wrappers.CollectAppend | src/job.ts:132-134 | Awaiting a concatenated list is awaiting both halves: it succeeds iff both do, with the values concatenated. |
| Wrappers.ConcatLength | src/job.ts:154 | Concatenating rows of equal length k gives Offset(n, k) = n*k elements. |
| Wrappers.ConcatAt | src/job.ts:154 | With rows of equal length k, element j of row i sits at position i*k + j of the concatenation. |
| Wrappers.ConcatAppend | src/job.ts:133 | Concatenation distributes over appending lists of rows. |
| Wrappers.MapAppend | src/job.ts:128 | A list mapped element by element from a concatenation is the concatenation of the mapped parts. |
| Wrappers.Concat | src/job.ts:133 | Concatenating no rows gives nothing, one row gives that row, and every row fits in the result. |
| WorkQueue.Pending | src/queue.ts:28 | The unfinished items: every one is unfinished, and there are no more than there are items. |
| WorkQueue.IndexOfUnfinished | src/queue.ts:37 | `findIndex` gives -1 or a valid position; `WorkQueue.IndexOfUnfinishedIsFirst` states which one. |
| WorkQueue.IndexOfUnfinishedIsFirst | src/queue.ts:32 | The located item is unfinished and every earlier item is finished; -1 exactly when all items are finished. |
| WorkQueue.IndexWhere | src/queue.ts:43 | The located item's payload satisfies the predicate and no earlier one does; -1 exactly when no payload satisfies it. |
| WorkQueue.Queue.Add | src/queue.ts:13-16 | The old items come first, unchanged, followed by the new items. |
| WorkQueue.Queue.AddData | src/queue.ts:18-21 | The old items come first, followed by one unfinished item per payload, in order. |
| WorkQueue.Queue.Length | src/queue.ts:23-25 | The queue's length is the number of its items, finished or not. |
| WorkQueue.Queue.NumWaiting | src/queue.ts:27-29 | The count is between 0 and the length; it is 0 exactly when every item is finished. |
| WorkQueue.Queue.Next | src/queue.ts:31-34 | None exactly when nothing waits; otherwise the payload of the first unfinished item. |
| WorkQueue.Queue.Finish | src/queue.ts:36-40 | Keeps the length and every payload, and changes no item other than the first unfinished one. |
| WorkQueue.Queue.Find | src/queue.ts:42-45 | None exactly when no payload satisfies the predicate; otherwise a satisfying payload with no satisfying item before it. |
| WorkQueue.NoPendingIffAllFinished | src/queue.ts:27-29 | The unfinished list is empty iff every item is finished. |
| WorkQueue.PendingAppend | src/queue.ts:15 | The unfinished items of a concatenation are those of each part, in order. |
| WorkQueue.FirstPending | src/queue.ts:32 | The first unfinished item is the one `findIndex` locates. |
| WorkQueue.FlipFirstPending | src/queue.ts:37-38 | Flipping the first unfinished item removes exactly the head of the unfinished list. |
| WorkQueue.FinishAdvances | src/queue.ts:31-40 | With work waiting, `finish` keeps the length and lowers the waiting count by one. The waiting payloads lose their head, which is the one `next` returned, and exactly that item is flipped. |
| WorkQueue.FinishWhenDrained | src/queue.ts:36-40 | With nothing waiting, `finish` returns an identical queue and `next` returns nothing. |
| WorkQueue.NextIsLowestUnfinished | src/queue.ts:31-34 | `next` serves an unfinished item with every earlier item finished. |
| WorkQueue.AddDataWaiting | src/queue.ts:18-21 | After `addData` the waiting payloads are the old ones followed by the new ones, and the count grows by their number. |
| WorkQueue.AllUnfinishedPending | src/queue.ts:20 | A list of unfinished items is its own unfinished list. |
| WorkQueue.FinishN | src/queue.ts:36-40 | Any number of finishes keeps the length and every payload. |
| WorkQueue.FinishNWaiting | src/queue.ts:36-40 | k finishes consume exactly the first k waiting payloads. |
| WorkQueue.ServedInOrder | src/queue.ts:31-40 | After k finishes, `next` returns the k-th originally waiting payload: service is first-in first-out. |
| WorkQueue.DrainedAllFinished | src/queue.ts:36-40 | After as many finishes as items waiting, every item is finished. |
| WorkQueue.FinishNAdd | src/queue.ts:36-40 | j finishes followed by k finishes are j + k finishes. |
| WorkQueue.FinishNLast | src/queue.ts:36-40 | k finishes followed by one more are k + 1 finishes. |
| Data.TrimStart | src/data.ts:56 | Removes a prefix made only of white space, and the result does not start with white space. |
| Data.TrimEnd | src/data.ts:56 | Removes a suffix made only of white space, and the result does not end with white space. |
| Data.Trim | src/data.ts:56 | The result has no white space at either end and is no longer than the input. |
| Data.TrimStartPadded | src/data.ts:56 | Leading white space before a core that does not start with white space is removed exactly. |
| Data.TrimEndPadded | src/data.ts:56 | Trailing white space after a core that does not end with white space is removed exactly. |
| Data.TrimPadded | src/data.ts:56 | Trimming white space around a trimmed core gives exactly that core. |
| Data.TrimSplit | src/data.ts:56 | Every string is some white space, then its trimmed core, then more white space. |
| Data.TrimIdempotent | src/data.ts:56 | Trimming twice is trimming once. |
| Data.StripCommas | src/data.ts:56 | No comma is left, and every other character occurs as often as before. |
| Data.StripCommasAppend | src/data.ts:56 | Stripping commas distributes over concatenation. |
| Data.StripCommasWithoutCommas | src/data.ts:56 | A string without commas is left unchanged. |
| Data.Plus | src/data.ts:78 | `+` concatenates two strings and adds two numbers. |
| Data.ToData | src/data.ts:54-57 | For 'string' (the default) the result is the value's text, trimmed, and a trimmed string is kept as it is. For 'number' the result is `parseFloat` of the text with every comma removed. |
| Data.ToDataStringIdempotent | src/data.ts:54-57 | Coercing to a string twice is coercing once. |
| Data.GetText | src/data.ts:36-41 | The matched element's text, or "" when nothing matches. |
| Data.GetNumChild | src/data.ts:43-48 | The matched element's child count, or 0 when nothing matches. |
| Data.Extracted | src/data.ts:60-67 | Without a regular expression, the element's text. With one, the last entry of the match array, which is "" when there is no match. |
| Data.LastGroup | src/data.ts:67 | The last entry of the match array, or "" when there is no match or that entry is empty. |
| Data.GetDataFromOption | src/data.ts:59-73 | The value is `pre + extracted + post` coerced to the declared type: a trimmed string, or a number parsed after the commas are removed. |
| Data.NoRegexUsesText | src/data.ts:61-63 | Without a regular expression the element's text is used unchanged. |
| Data.NoMatchIsEmpty | src/data.ts:65-71 | When the regular expression does not match, the value is the trimmed `pre + post` for the string type (the default), and `parseFloat` of `pre + post` without commas for the number type. |
| Data.SumAll | src/data.ts:78 | A single value is returned as it is, and the sum is a number exactly when every part is a number. |
| Data.SumAllStrings | src/data.ts:78 | Folding strings with `+` concatenates them. |
| Data.SumAllNumbers | src/data.ts:78 | Folding numbers with `+` adds them. |
| Data.OptionValues | src/data.ts:76 | One value per option, in order, each read with the list's type. |
| Data.GetDataEx | src/data.ts:75-81 | Fails exactly when the option list is empty. Otherwise the result is a trimmed string, or a number when the type is 'number'. |
| Data.GetDataExStrings | src/data.ts:75-81 | For strings the result is the concatenation of the parts, trimmed. |
| Data.GetDataExNumbers | src/data.ts:75-81 | For numbers the result is the coerced sum of the parsed parts. |
| Data.GetData | src/data.ts:83-89 | A literal is returned as it is. A single option is a one-option list carrying the caller's type. A list of options is read as declared. |
| Data.GetDataSingleString | src/data.ts:83-89 | A single string option yields exactly what the option reads. |
| Data.GetOptional | src/data.ts:95-96 | A year or unit that is absent or falsy gives no value; otherwise it is read as a string, and failures propagate. |
| Data.Declared | src/data.ts:95-96 | A truthiness test: an absent field is not declared, and a selector option always is. |
| Data.GetDataEntry | src/data.ts:91-104 | Succeeds iff every declared field reads. The name is read as a string and the value with the entry's type. Year and unit are present exactly when declared truthy. |
| Data.EntryNameIsTrimmed | src/data.ts:93 | A name read through an option is a trimmed string. |
| Loops.ToIndex | src/job.ts:168-170 | Same length; a non-negative index is kept, and a negative v becomes all + v + 1. |
| Loops.ToIndexInRange | src/job.ts:168-170 | An index between -all and all, other than 0, names a child in 1..all; -1 names the last one. |
| Loops.Range | src/job.ts:179 | The list 1..n. |
| Loops.Without | src/job.ts:181 | Keeps exactly the values not excluded, and is no longer than its input. |
| Loops.WithoutAppend | src/job.ts:181 | Filtering a concatenation is concatenating the filtered parts, so the kept values stay in their order. |
| Loops.WithoutSingle | src/job.ts:181 | A single value is kept exactly when it is not excluded. |
| Loops.WithoutCounts | src/job.ts:181 | Each value that is not excluded is kept as often as it occurs. |
| Loops.WithoutNothing | src/job.ts:181 | With no value excluded, the list is unchanged. |
| Loops.WithoutAscending | src/job.ts:181 | Filtering keeps the order: an ascending list stays ascending. |
| Loops.Selected | src/job.ts:179-181 | A stage visits exactly the included indices that are not excluded, and no more of them than are included. |
| Loops.SelectedDefault | src/job.ts:179-181 | Without `only`, a stage visits exactly 1..n minus the exclusions, ascending, and nothing when n = 0. |
| Loops.SelectedOnly | src/job.ts:179-181 | With `only`, a stage visits the normalised list filtered by the exclusions, in the list's order and with its multiplicities, and the normalised list itself when nothing is excluded. |
| Loops.IndexKey | src/job.ts:175 | Depth keys start with "index-" and differ from "index". |
| Loops.TagKeys | src/job.ts:183-187 | A tagged context keeps every other key. It records the index under the depth key, and also under "index" at depth 0. |
| Loops.Tag | src/job.ts:183-187 | A tagged context keeps every key of the incoming one and holds the index under the next depth key. |
| Loops.TagLoopKeys | src/job.ts:173-187 | The depth keys after tagging are the old ones plus the key for the current depth, IndexKey(n) with n the number of old depth keys. |
| Loops.GetLoopContext | src/job.ts:172-190 | One context per selected index. |
| Loops.GetLoopContextAt | src/job.ts:183-188 | The i-th context is the incoming one tagged with the i-th selected index. |
| Loops.Rows | src/job.ts:152 | One list of contexts per incoming context, in order. |
| Loops.FlatMap | src/job.ts:152-154 | A stage given no contexts yields none. |
| Loops.Chain | src/job.ts:149-157 | No stages keep the contexts as they are, and stages given no context fail with the empty-reduce error. The success case is given by `Loops.ChainSingle`, `Loops.ChainTwo` and `Loops.FlatMapAt`. |
| Loops.ExpandLoops | src/job.ts:149-157 | The stage loop returns what `Chain` specifies for the stages applied to the start context. |
| Loops.FlatMapSingle | src/job.ts:152-154 | A stage applied to one context is `getLoopContext` of that context. |
| Loops.FlatMapLength | src/job.ts:152-154 | When every incoming context yields k contexts, a stage yields k per input. |
| Loops.FlatMapAt | src/job.ts:152-154 | Outer-major order: output i*k + j is the j-th context from incoming context i. |
| Loops.ChainSingle | src/job.ts:149-157 | No stages keep the context as it is; one stage is `getLoopContext`. |
| Loops.ChainEmptyStageFails | src/job.ts:150-155 | When an outer stage selects nothing, a following stage fails. |
| Loops.ChainEmptySuccess | src/job.ts:149-157 | A single stage that selects nothing succeeds with no contexts. |
| Loops.SelectedPlain | src/job.ts:179 | A stage without `only` or `excludes` visits 1..n in order. |
| Loops.ChainTwo | src/job.ts:149-157 | Two stages: the inner stage runs on every context of the outer one. |
| Loops.NestedLoopsCount | src/job.ts:149-157 | Two plain nested stages over a > 0 children, each child having b children, yield a*b contexts. |
| Loops.OuterTagged | src/job.ts:173-187 | The outer stage tags its i-th context with i + 1 under "index-0" and "index". |
| Loops.InnerTagged | src/job.ts:173-187 | The inner stage tags its j-th context with j + 1 under "index-1" and keeps the outer keys. |
| Loops.NestedLoopsAt | src/job.ts:149-187 | When every outer child has b children, position i*b + j carries outer index i + 1 and inner index j + 1. |
| Loops.OnlyFirstTwo | src/job.ts:179-188 | `only: [1, 2]` on an element with five children gives two contexts, tagged 1 and 2 under "index", in that order. |
| Loops.OnlyLast | src/job.ts:168-188 | `only: [-1]` on an element with five children gives one context, tagged 5 under "index". |
| Loops.OnlyKeepsOrder | src/job.ts:179-181 | `only: [3, 1, 2]` with `excludes: [1]` visits 3 then 2: the `only` order is kept, not sorted. |
| Jobs.ToDataOption | src/job.ts:202-210 | A literal passes through unchanged. An option keeps every field and renders its selector against the context, and un-rendering gives it back. |
| Jobs.ToDataEntryOption | src/job.ts:192-200 | Name and value are rendered. A year or unit is declared exactly when the loop entry declares it truthy, and is then the rendered field. The type is copied. |
| Jobs.EntryResults | src/job.ts:159-163 | One read per context, in order, of the entry rendered against that context. |
| Jobs.LoopEntryReads | src/job.ts:159-163 | A loop entry rendered against any context reads successfully. |
| Jobs.ScrapeLoop | src/job.ts:141-166 | It fails with the stage's error exactly when a stage fails. Otherwise it succeeds with one record per expanded context. |
| Jobs.ScrapeLoopEntries | src/job.ts:141-166 | The loop succeeds exactly when its stages do, with one record per expanded context, in order. A literal name is the same in every record. A record has a year exactly when the loop entry declares one. |
| Jobs.GroupResults | src/job.ts:128-130 | One pending result per declared group, in order. |
| Jobs.ScrapeGroup | src/job.ts:128-130 | A looped group is scraped as a loop; a plain entry succeeds exactly when its read does and then yields that one record. |
| Jobs.Scrape | src/job.ts:127-135 | Succeeds exactly when every group does; no groups give no records. |
| Jobs.ScrapeSingle | src/job.ts:127-135 | Scraping a single group gives exactly that group's result. |
| Jobs.ScrapeAppend | src/job.ts:127-135 | Scraping a split list is scraping each part and concatenating; the whole fails exactly when a part fails. |
| Jobs.ScrapePlainEntries | src/job.ts:127-135 | Plain entries give exactly one record each, in order, or fail when any entry fails. |
| Jobs.PersistedAt | src/job.ts:85 | Every payload in the queue is found by an equality test. |
| Jobs.PersistedWitness | src/job.ts:85 | A found context is the payload of some item. |
| Jobs.NewContexts | src/job.ts:85 | No more new contexts than declared ones, and none of them is already queued. |
| Jobs.NewContextsAppend | src/job.ts:85 | The filter works context by context: the new contexts of a concatenation are those of each part, in declared order. |
| Jobs.NewContextsCounts | src/job.ts:85 | A context is new iff it is declared and not persisted, and it is kept as often as it is declared. |
| Jobs.NewContextsAllNew | src/job.ts:85 | With nothing persisted among them, every declared context is new. |
| Jobs.NewContextsNoneNew | src/job.ts:85 | With all of them persisted, no declared context is new. |
| Jobs.NewContextsSkipsPersisted | src/job.ts:85 | Declared contexts c1, c2, c3 with only c2 queued give exactly [c1, c3]: declared order is kept. |
| Jobs.LoadJob | src/job.ts:74-90 | The persisted items (none when the file is unreadable) come first, unchanged, followed by the new contexts as unfinished items. |
| Jobs.LoadJobKeeps | src/job.ts:83-86 | Every persisted payload stays queued. |
| Jobs.LoadJobAdds | src/job.ts:84-86 | Every new context is queued. |
| Jobs.LoadJobCovers | src/job.ts:83-86 | After loading, every declared context is queued. |
| Jobs.LoadJobReload | src/job.ts:80-86 | A queue that already holds every declared context is loaded back unchanged. |
| Jobs.LoadJobIdempotent | src/job.ts:74-90 | Reloading what a load produced adds nothing. |
| Jobs.LoadJobResume | src/job.ts:80-86 | A queue written back after any number of finishes reloads as it was, so a restart resumes where the run stopped. |
| Jobs.LoadJobFresh | src/job.ts:80-86 | With no readable queue file, the queue serves the declared contexts in declared order. |
| Jobs.AllOutputs | src/job.ts:92-94 | One output path per declared context. |
| Jobs.AllOutputsArePaths | src/job.ts:92-94 | The i-th output is the path the drain writes the i-th declared context's records to. |
| Jobs.Drain | src/job.ts:96-125 | The final snapshot has as many items as the queue it started from. |
| Jobs.DrainEnds | src/job.ts:98-123 | A drained run leaves nothing waiting and deletes the queue file last; an aborted run stops at a waiting context whose scrape fails with the run's error. |
| Jobs.ProcessQueue | src/job.ts:96-125 | The drain loop's write log, final queue and outcome are those of the recursive specification `Drain`. |
| Jobs.DrainStep | src/job.ts:99-116 | A successful step writes the records, then the finished queue, and then continues on the finished queue. |
| Jobs.DrainWrites | src/job.ts:106-116 | When the first k + 1 waiting contexts succeed, write 2k holds the k-th context's records at its output path. Write 2k + 1 is the queue with k + 1 items finished, so records are written before their context is marked done. |
| Jobs.ResultWrittenIsMerged | src/job.ts:92-94 | A result written for a declared context goes to a file the merge reads. |
| Jobs.DrainCompletes | src/job.ts:96-125 | When every waiting context succeeds, there are two writes per context and the queue file is deleted last. The run ends drained with every item finished. |
| Jobs.DrainAborts | src/job.ts:96-125 | When the k-th waiting context is the first to fail, the run stops after 2k writes. The last write is the final queue, whose next context is the failed one, so a restart retries it. |
| Jobs.AbortNow | src/job.ts:106-107 | A step that fails on the first waiting context ends the run with no writes and the queue untouched. |
| Merge.Put | index.ts:66 | The written key reads back the new value and every other key reads as before. Distinct keys stay distinct. An existing key keeps its place, and a new key goes last. |
| Merge.Fold | index.ts:65-67 | The folded row has distinct keys, and no pairs give the empty row. |
| Merge.FoldLastWins | index.ts:65-67 | In the folded row each key holds the value of the last pair with that key. |
| Merge.FoldKeys | index.ts:65-67 | The row holds each key once, exactly the keys of the pairs, so it has no more keys than there are pairs. |
| Merge.FoldKeyOrder | index.ts:65-67 | The row's keys appear in the order of their first occurrence among the pairs. |
| Merge.Pairs | index.ts:58-62 | One pair per record, plus one when the record has a unit. |
| Merge.PairsShape | index.ts:58-62 | The value goes under the name, or under name + delim + year when there is a year. A unit pair follows it under name + delim + unit. A record with neither gives exactly (name, value). |
| Merge.AllPairsAppend | index.ts:58-63 | Pairs of consecutive records are concatenated in record order. |
| Merge.AllPairsLength | index.ts:58-63 | One pair per record plus one per record with a unit. |
| Merge.AllPairs | index.ts:58-63 | At least one and at most two pairs per record. |
| Merge.YearAndUnit | index.ts:59-66 | A record with a year and a unit keeps both in its row, unless they print the same, in which case the unit overwrites the value. |
| Merge.PrepareToCsv | index.ts:54-72 | No row exactly when the file cannot be read or parsed. |
| Merge.PrepareToCsvRow | index.ts:54-68 | A parsed file's row has distinct keys, at most one per pair, each holding the value of its last pair. |
| Merge.Present | index.ts:49 | Dropping nulls leaves no more rows than results. |
| Merge.PresentAppend | index.ts:49 | Dropping nulls distributes over concatenation. |
| Merge.PresentAll | index.ts:49 | With no nulls, every row is kept, in order. |
| Merge.MergeRows | index.ts:46-50 | No more rows than files. |
| Merge.MergeRowsAppend | index.ts:46-50 | Rows are merged in file order: merging two file lists is merging each and concatenating. |
| Merge.MergeRowsSkipsUnreadable | index.ts:46-50 | An unreadable file contributes no row and does not stop the merge. |
| Merge.MergeRowsAllRead | index.ts:46-50 | When every file reads, there is one row per file, in file order. |

## Left out

- Page automation (`puppeteer`: launching the browser, `goto`, `waitFor`, `evaluate`) is not modelled. A loaded page is a map from selector to the first matching element's text and child count, and `Env.load` gives the page for a URL.
- Handlebars template compilation is a parameter, `render`.
- Parsing numbers, printing numbers and running regular expressions are parameters (`Primitives`): `parseFloat`, `Number.prototype.toString` and `RegExp.prototype.exec`. Numbers are reals, so NaN and floating-point rounding are not modelled.
- File I/O is not modelled. This covers reading the job and queue files (JSON5), `ensureDir`, `writeJSON`, `unlink` and its warning, and reading the output files. Each write `processQueue` performs is an `Event` in a log. Reading and parsing an output file is the parameter `read` of `Merge.PrepareToCsv`.
- An invalid regular-expression pattern or flags (the `RegExp` constructor throws) and a selector the page's query rejects make the scrape fail in the source, and the run stops. These failures are not modelled, because running a regular expression and looking up a selector are total functions in the model.
- Only the scrape can fail in the model. A failing write or navigation is not modelled; such a failure also stops the run.
- `Papa.unparse` (turning rows into CSV text) is not modelled. So are the top-level launch script in `index.ts`, console logging and timing.
- `deep-equal` in its default loose mode is modelled as structural equality of contexts.
- `Promise.all` rejects with whichever failure happens first in time. The model reports the first failure in list order. All failures the model represents are the same kind (`Error.EmptyReduce`, a `reduce` of an empty array without an initial value), so this makes no difference to any result.
- A field that is either a single item or an array (`loop`, the arguments of `add` and `addData`) is always a sequence in the model.
- The key order of a context object is not modelled: contexts are maps. A row (`Merge.Row`) is a list of pairs in insertion order.
- Merge.Put: a JavaScript object lists integer-like keys (array indices such as "2020") first, in ascending numeric order, and only then the other keys in insertion order. The model keeps insertion order for every key, so "a new key goes last" holds only for keys that are not array indices. Lookups and the key set are unaffected.
- Merge.FoldKeyOrder: the first-occurrence order of keys holds for rows whose keys are not array indices. Array-index keys would come first in JavaScript, which changes only the column order of the CSV, not a row's keys or values.
- The job's `options.merge` settings (`delim` and `csv`) are read only by the launch script in `index.ts`. The delimiter is a parameter of `Merge.MergeRows`.
- `isDataExOption` and `isDataLoopEntryOptions` are constructor tests on the `Field` and `Group` datatypes.
- `getStaticData` is unused by the modelled code.
- Contexts are maps from keys to strings or numbers, as written in job files; nested objects in a context are not modelled.
