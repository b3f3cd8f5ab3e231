# deltadb-collector, modelled in Dafny

deltadb-collector is a small ingestion tool that feeds a graph database. The
collector takes a set of driving rows. These are the rows a graph query returns,
or one empty row when no query is given. For each row it expands the URL
templates of a named configuration by substituting the row's values for the
`{key}` placeholders. Each row becomes one `Pipeline` entry, which then goes
through three steps:

- **Fetch.** Every URL of the entry is fetched. A 200 response replaces the
  entry's parsed collection, and any other status sets the entry's HTTP error.
- **Write.** Every row of every group of the collection is written as a graph
  node. A collection without groups but with more than one tag is written as a
  single node.
- **Count.** The run counts how many entries ended without an HTTP error and
  how many ended without a database error, and it reports both as percentages.

The repository holds two copies of the collector: `app/collector/assets.go` and
the older `app/collector/main.go`. They differ in two ways:

- assets.go ends the process on an HTTP 429, and main.go does not.
- assets.go writes each group under `bucket_<group name>`. main.go computes that
  name and then writes under the bare bucket.

The model covers both copies, selected by `Ingest.Variant` (`Assets` or
`Legacy`).

The import tool `app/import/main.go` builds one `LOAD CSV … MERGE` statement per
scanned file whose stem is not empty. It submits the statements only when there
is at least one.

Modules:

- `Text`: Go's `strings.Join`, byte-wise string order, sorting, literal replace-all, and decimal formatting.
- `Ingest`: the records (`Tag`, `Group`, `Collection`, `Pipeline`), the `Variant` flag, and map iteration orders.
- `Expand`: `BuildRequests`, which covers URL expansion and the row label.
- `Fetch`: `HttpRequest`, the URL loop of one entry.
- `Persist`: `DBTransaction`, the node writes of one entry.
- `Collector`: the queue build, the sequential run of the queue, the tally, and the reported figures.
- `Importer`: the command loop and the run guard of the import tool.

The model takes these as inputs:

- **Map iteration order.** Go leaves the order of `range` over a map unspecified, so wherever the source ranges over a map the model takes the order as a parameter. `IsKeyOrder` says that order visits every key exactly once.
- **HTTP responses.** These are a sequence of `Response` values.
- **The parser.** This is a function from body to `Collection`.
- **Node writes.** The outcome of each `db.PutNode` call is a function of the call's position and its write.
- **The graph query's rows.**
- **The import run.** The outcome of `db.RunTransactions` is a function of the statements.
- **The scanned file names.**

## Model

| member | source | states |
|---|---|---|
| `Expand.BuildRequests` | app/collector/assets.go:29-56 | one URL per template, in template order. URL `t` is template `t` with each key's placeholder replaced, in the map's iteration order. The label is `Label` of the row and the number of templates, which is independent of the iteration orders. |
| `Expand.ExpandAll` | app/collector/assets.go:34-41 | the outer loop: template `t` expanded under order `t`, and the keys collected template after template |
| `Expand.ExpandUrl` | app/collector/assets.go:35-39 | the inner loop: the template after every replacement of the order, and the visited keys appended in that order |
| `Expand.JoinSortedValues` | app/collector/assets.go:43-53 | the values of the sorted keys joined by "_" |
| `Expand.PlaceholderInjective` | app/collector/assets.go:37 | different keys compile to different `{k}` patterns |
| `Expand.OtherPlaceholder` | app/collector/assets.go:37-38 | the `{j}` placeholder of one key never contains the `{k}` placeholder of another brace-free key |
| `Expand.ValuesOf` | app/collector/assets.go:48-51 | the values of the sorted keys, in key order, with "" for a missing key |
| `Expand.SortedKeysOfAnyOrder` | app/collector/assets.go:33-46 | sorting the collected keys gives the same sequence whatever order each template's `range` visited the keys in |
| `Expand.SameKeysOfAnyOrder` | app/collector/assets.go:34-36 | the collected keys hold every key of the row once per template |
| `Expand.FlattenSameKeys` | app/collector/assets.go:34-36 | two runs with different iteration orders collect the same multiset of keys |
| `Expand.KeyOrdersSameKeys` | app/collector/assets.go:35 | two iteration orders of one map visit the same keys |
| `Expand.KeyOrderCounts` | app/collector/assets.go:35 | an iteration order visits every key of the map exactly once and nothing else |
| `Expand.LabelOfCollectedKeys` | app/collector/assets.go:43-53 | the label is the values of the sorted collected keys joined by "_" |
| `Expand.LabelOfSortedKeys` | app/collector/assets.go:43-53 | any ascending arrangement of the collected keys gives the label |
| `Expand.LabelOneTemplate` | app/collector/assets.go:43-53 | with one template, the label is the values in ascending key order joined by "_" |
| `Expand.LabelEmpty` | app/collector/assets.go:43-53 | no templates, or an empty row, give the empty label |
| `Expand.LabelOfTwoTemplates` | app/collector/assets.go:33-53 | a two-key row k1 < k2 over two templates has the sorted label keys k1, k1, k2, k2 |
| `Expand.LabelKeysPerTemplate` | app/collector/assets.go:33-53 | for any row, the label is made of the row's keys in ascending order, each key once per template |
| `Expand.LabelRepeatsPerTemplate` | app/collector/assets.go:33-53 | a two-key row over two templates is labelled `v1_v1_v2_v2` |
| `Expand.LabelSortsKeys` | app/collector/assets.go:43-53 | the label follows key order, not the order the map was written in |
| `Expand.ExpandTemplate` | app/collector/assets.go:35-39 | for a template of literal text and placeholders, and a row whose keys and values hold no braces, substitution fills every placeholder with the row's value, whatever the iteration order |
| `Expand.SubstitutePrefix` | app/collector/assets.go:35-39 | after the first `n` keys of the order, exactly the placeholders of those keys are filled |
| `Expand.ReplaceOneKey` | app/collector/assets.go:37-38 | replacing every `{k}` fills the holes for `k` and leaves the rest of the template alone |
| `Text.JoinSnoc` | app/collector/assets.go:53 | `strings.Join` of one more part appends the separator and that part |
| `Expand.JoinFour` | app/collector/assets.go:53 | four parts are joined with the separator between consecutive ones |
| `Text.ReplaceAllSkipsPrefix` | app/collector/assets.go:38 | text in front of which the pattern does not start passes through the replacement unchanged |
| `Text.ReplaceAllAtStart` | app/collector/assets.go:38 | a leading match is replaced and scanning resumes after it |
| `Text.ReplaceAllAbsent` | app/collector/assets.go:38 | a string in which the pattern does not occur is unchanged |
| `Text.Sort` | app/collector/assets.go:44-46 | the result is ascending in byte order and a permutation of the input |
| `Text.Insert` | app/collector/assets.go:44-46 | inserting into an ascending sequence keeps it ascending and adds exactly the element |
| `Text.SortedUnique` | app/collector/assets.go:44-46 | two ascending permutations of one multiset are equal, so the sort's result does not depend on its input order |
| `Text.LexLeTotal` | app/collector/assets.go:45 | `<` on strings orders any two strings |
| `Text.LexLeAntisymmetric` | app/collector/assets.go:45 | strings ordered both ways are equal |
| `Text.LexLeTransitive` | app/collector/assets.go:45 | the string order is transitive |
| `Text.LexLeReflexive` | app/collector/assets.go:45 | every string is ordered before or equal to itself |
| `Text.NatToString` | app/collector/assets.go:128 | `%v` of a row number is a non-empty string of decimal digits |
| `Text.NatToStringRoundTrip` | app/collector/assets.go:128 | reading the formatted row number back gives the number |
| `Text.NatToStringInjective` | app/collector/assets.go:128 | different row numbers are formatted differently |
| `Fetch.LastOk` | app/collector/assets.go:85-89 | the last 200 response, or none exactly when no response is a 200 |
| `Fetch.LastFailure` | app/collector/assets.go:90-92 | the last non-200 response, or none exactly when every response is a 200 |
| `Fetch.HttpRequest` | app/collector/assets.go:83-100 | the entry is dropped (the process ends) exactly when the assets.go copy sees a 429. Otherwise it is forwarded with the parse of the last 200 body as its collection, or its old collection if there was no 200, and with the status of the last failure as its HTTP error, or its old error if there was no failure. |
| `Fetch.CollectionAfterAppend` | app/collector/assets.go:85-89 | fetching two runs of URLs leaves the collection the second run leaves on top of the first |
| `Fetch.ErrorAfterAppend` | app/collector/assets.go:90-92 | the same for the HTTP error |
| `Fetch.ErrorIsSticky` | app/collector/assets.go:90-92 | a later 200 never clears an HTTP error |
| `Fetch.FailureKeepsCollection` | app/collector/assets.go:90-92 | a failing response leaves the collection as it was |
| `Fetch.LastOkWins` | app/collector/assets.go:87-89 | after a 200 followed only by failures, the collection is that 200's parse |
| `Fetch.ErrorIffSomeFailure` | app/collector/assets.go:90-92 | a fresh entry ends with an HTTP error exactly when some response was not a 200 |
| `Fetch.LegacyAlwaysForwards` | app/collector/main.go:113-127 | the main.go copy never ends the process |
| `Persist.PropertyTags` | app/collector/assets.go:111-114 | one tag per visited key, in visiting order, holding that key and its value |
| `Persist.PropertyTagsArePairs` | app/collector/assets.go:111-114 | whatever the iteration order, the tags are exactly the row's (key, value) pairs |
| `Persist.RowWrites` | app/collector/assets.go:119-129 | one write per row, in row order. Row `n` is written as node `label_<n+1>` with the base tags, then the record tags, then the row's tags. |
| `Persist.GroupedWrites` | app/collector/assets.go:117-131 | as many writes as there are rows over all groups |
| `Persist.PlannedWrites` | app/collector/assets.go:102-145 | no writes after an HTTP error. Otherwise there is one write per row when the collection has groups, and without groups one write exactly when there is more than one tag. |
| `Persist.DBTransaction` | app/collector/assets.go:102-145 | the writes made are `PlannedWrites` with the row's tags in the map's iteration order. The entry's database error becomes the result of the last write, or stays as it was if nothing was written. |
| `Persist.PutGroups` | app/collector/assets.go:117-131 | the writes of all groups, group after group, and the database error of the last one |
| `Persist.PutRows` | app/collector/assets.go:119-130 | the writes of one group's rows appended to those made so far, and the database error of the last one |
| `Persist.GroupedWritesAppend` | app/collector/assets.go:118 | writing two runs of groups gives the first run's writes followed by the second's |
| `Persist.GroupedWriteAt` | app/collector/assets.go:117-131 | the `n`-th row of group `g` is the write at position (rows before `g`) + `n`, under `g`'s label, with id `label_<n+1>` and the prefixed row tags |
| `Persist.GroupOfWrite` | app/collector/assets.go:124-128 | every grouped write goes to the label of one of the groups |
| `Persist.LegacyWritesUnderBucket` | app/collector/main.go:150 | the main.go copy writes every node under the bare bucket |
| `Persist.SuffixedBucket` | app/collector/assets.go:124-128 | the bucket the loop computes, and the label it writes under (the suffixed bucket in assets.go, `entry.Bucket` in main.go:150), is `GroupLabel` |
| `Persist.NodeIdInjective` | app/collector/assets.go:128 | different row numbers give different node ids |
| `Persist.RowWritesDistinct` | app/collector/assets.go:119-129 | the rows of one group are written to distinct nodes |
| `Persist.GroupLabelInjective` | app/collector/assets.go:124-127 | in assets.go, different group names give different node labels |
| `Persist.AssetsWritesDistinct` | app/collector/assets.go:117-131 | in assets.go, groups with distinct names never write the same (label, id) node twice |
| `Persist.DistinctAppend` | app/collector/assets.go:118 | two write runs without repeats that share no node concatenate to a run without repeats |
| `Persist.LegacyWritesCollide` | app/collector/main.go:140-153 | in main.go, two groups with one row each write the same (bucket, `label_1`) node twice |
| `Collector.CountWhere` | app/collector/assets.go:173-183 | the count is at most the number of entries. It equals that number exactly when every entry passes, and it is 0 exactly when none does. |
| `Collector.Tally` | app/collector/assets.go:173-183 | the two counts are the number of entries without an HTTP error and the number without a database error |
| `Collector.CountAppend` | app/collector/assets.go:175-182 | counting two batches of entries adds their counts |
| `Collector.CountPermutation` | app/collector/assets.go:175-182 | the counts do not depend on the order the workers deliver the entries in |
| `Collector.CountRemove` | app/collector/assets.go:175-182 | taking one entry out lowers the count by its contribution |
| `Collector.TallyLowerBound` | app/collector/assets.go:173-183 | if every entry with an HTTP error has no database error, each entry counts in at least one of the two tallies |
| `Collector.CleanFetches` | app/collector/assets.go:173-179 | at most one clean fetch per entry |
| `Collector.CleanFetchesCount` | app/collector/assets.go:173-179 | the HTTP tally is the number of entries whose fetch ended without an error |
| `Collector.ProcessEntry` | app/collector/assets.go:156-170 | one entry through the fetch and write stages: none exactly when the fetch ends the process. Otherwise it is the entry as `HttpRequest` forwards it (`Fetch.Fetched`) and then as `DBTransaction` leaves it (`Persist.Written`): the last 200's collection, the last failure's status, and the last planned write's result as its database error. |
| `Collector.QueueRequests` | app/collector/assets.go:147-205 | the run stops exactly when some entry's fetch meets a 429 in assets.go. Otherwise it returns the number of entries that leave both stages (`Outcomes`) without an HTTP error, which is the number of clean fetches, and the number without a database error. Both are at most the queue length. When no entry starts with a database error, the two tallies together cover every entry. |
| `Collector.Outcomes` | app/collector/assets.go:156-170 | one outcome per queued entry: the entry fetched and then written |
| `Collector.ProcessedFacts` | app/collector/assets.go:102-105 | the write stage leaves the HTTP error alone, and an entry whose fetch failed is not written, so it keeps its database error |
| `Collector.OutcomeCounts` | app/collector/assets.go:173-183 | the HTTP count of the outcomes is the number of clean fetches, and when no entry starts with a database error every outcome counts in at least one tally |
| `Collector.DrivingRows` | app/collector/main.go:194-198 | without a query, the single empty row |
| `Collector.PrepareQueue` | app/collector/main.go:183-206 | the run ends as an invalid configuration exactly when the configuration has no sources. Otherwise there is one entry per driving row, built from that row. Without a query there is a single entry with the templates as its URLs and the empty label. |
| `Collector.BuildQueue` | app/collector/main.go:200-206 | entry `i` carries the expansion of row `i`, the configured bucket, the row as properties, and nothing fetched or written |
| `Collector.EmptyRowEntry` | app/collector/main.go:195 | the empty row gives the empty label and leaves every template unchanged |
| `Collector.NoKeysNoOrder` | app/collector/main.go:195 | the empty row has only the empty iteration order |
| `Collector.PassRate` | app/collector/assets.go:58-68 | the pass rate in hundredths of a percent, the exact ratio rounded to nearest with halves up, and 0 when there are no requests (floating-point error is not modelled, see Left out) |
| `Collector.PassRateAtMostAll` | app/collector/assets.go:58-68 | the rate of a part of the requests is at most 100% |
| `Collector.AverageMs` | app/collector/assets.go:70-81 | the whole milliseconds per request, rounded down, and 0 when there are no requests |
| `Importer.TrimEndShape` | app/import/main.go:52 | only slashes are dropped, and all of them |
| `Importer.ElementStartShape` | app/import/main.go:52 | the last element holds no slash and starts right after one, or at the start |
| `Importer.Base` | app/import/main.go:52 | the base name is never empty |
| `Importer.BaseShape` | app/import/main.go:52 | the base name is "/" or holds no slash, and a non-empty path without slashes is its own base name |
| `Importer.ExtShape` | app/import/main.go:53 | the extension is empty exactly when the last element has no dot. Otherwise it is a dot followed by no other dot and no slash. |
| `Importer.TrimSuffix` | app/import/main.go:53 | `strings.TrimSuffix`: a prefix of the input, either the input itself or the input with the suffix removed |
| `Importer.Stem` | app/import/main.go:52-53 | the stem is a prefix of the base name |
| `Importer.StemIsTrimmedBase` | app/import/main.go:52-53 | the stem is the base name with its extension trimmed off, and stem + extension gives back the base name |
| `Importer.StemOfNestedFile` | app/import/main.go:52-53 | only the last extension of `x/a.b.csv` is dropped, which gives `a.b` |
| `Importer.StemOfBareExtension` | app/import/main.go:52-54 | a file called `.csv` has an empty stem and so is skipped |
| `Importer.LoadCommandInjective` | app/import/main.go:55 | different names under one directory give different statements |
| `Importer.MergeLabel` | app/import/main.go:55 | the name is also the label of the merged nodes, right after `MERGE (n:` |
| `Importer.NonEmpty` | app/import/main.go:54 | the kept names are non-empty and no more than the names. None is kept exactly when every name is empty. |
| `Importer.NonEmptyMembers` | app/import/main.go:54 | a name is kept exactly when it occurs and is not empty |
| `Importer.NonEmptyAppend` | app/import/main.go:51-58 | filtering two batches in turn keeps the first batch's names and then the second's |
| `Importer.NamedStemsMembers` | app/import/main.go:51-58 | a stem is loaded exactly when some scanned file has it and it is not empty |
| `Importer.NothingNamed` | app/import/main.go:51-58 | no statement is built exactly when every scanned file has an empty stem |
| `Importer.NamedStemsAppend` | app/import/main.go:51-58 | scanning two batches loads the first batch's files and then the second's, in scan order |
| `Importer.BuildCommands` | app/import/main.go:51-58 | one statement per file with a non-empty stem, in scan order, and no more statements than files |
| `Importer.AddCommand` | app/import/main.go:52-57 | one turn of the loop appends the file's statement exactly when its stem is not empty |
| `Importer.RunImport` | app/import/main.go:51-71 | nothing is run exactly when every stem is empty. Otherwise the statements are submitted once, and the outcome is the error they return. |

## Left out

- Goroutines and channels. The feeder, the worker pools of `cap(queue)` fetchers and writers, and the buffered channels (app/collector/assets.go:150-170) are replaced by one sequential pass over the queue. `QueueRequests` starts `cap(queue)` fetch and write workers; the model has no workers. Workers may deliver entries in any order; `Collector.CountPermutation` shows that the counts do not depend on that order, so only the order of the writes across entries is not modelled.
- `Collector.QueueRequests`: when the assets.go copy meets a 429, the process ends with `log.Fatal` while other workers may still be writing. The model returns `Stopped` before later entries are processed, so it does not describe writes that race with the abort.
- Regular expressions. `regexp.Compile("{k}")` is modelled as the literal pattern `{k}`. Keys that hold regular-expression metacharacters, and values holding `$` expansions, are not modelled. Nor are keys made only of digits, such as `1` or `1,2`: `{1}` is a repetition with nothing to repeat, so `regexp.Compile` fails, the error is discarded (app/collector/assets.go:37), and `re.ReplaceAllString` then panics on the nil expression, where the model substitutes literally.
- Foreign calls are parameters: `utils.Get`, `parser.Collect`, `db.PutNode`, `db.Query`, `db.RunTransactions` and `utils.Scan`. So are the error `utils.Scan` returns (the import tool only logs it) and the logging calls.
- `ComputeMetrics` and `ComputeTime` format floating-point values and durations as text. `Collector.PassRate` gives the figure in hundredths of a percent, rounded from the exact ratio. `Collector.AverageMs` gives the integer milliseconds. The text formatting, `%v` of a float, and `elapsed.Round` are not modelled.
- `Collector.PassRate`: rounds the exact ratio half up, while `ComputeMetrics` rounds the double `pass/total*100*100`, which lands just below a half for some inputs. For 23 of 160, `23.0/160.0*100.0` is 14.374999999999998 in double arithmetic, so the source reports 1437 hundredths (14.37%) where the model gives 1438. The model does not capture this floating-point error.
- Clocks: the elapsed time is a parameter of `Collector.AverageMs`.
- Database sessions: their opening and closing (`defer session.Close()` inside the loop) and session sharing between workers are not modelled.
- Start-up: flags, environment variables, reading and unmarshalling the configuration file, and compiling the parser are not modelled. The configuration lookup is modelled only through its result, `Config`. The missing-file fatal error is not modelled.
- `QueueRequests` takes `size` and `delay` parameters. It uses `size` only as the channel capacity and never uses `delay`. No batching or sleeping happens anywhere in the modelled code, so none is modelled.
- Persist.DBTransaction: the property order is any sequence of keys. The ensures describe the tags for that order. Only `PropertyTagsArePairs` assumes it is an iteration order of the row.
- `Expand.Label` is a ghost definition because it picks the row's keys in some canonical order. `Expand.BuildRequests` computes the label in the source's way, and its ensures relates that label to `Label`.
- The HTTP error is kept as the failing status code (`Option<int>`) rather than the error text `fmt.Errorf("%v", status)`. The two carry the same information.
- app/export/main.go and app/transactions/main.go are not part of this model.

## Findings

| source | as written | input that shows it | evidently intended | confidence | as-written member | corrected member |
|---|---|---|---|---|---|---|
| app/collector/main.go:150 | The code computes `bucket` (lines 146-149) but writes every row under `entry.Bucket`, with ids restarting at `label_1` in each group. | a collection with two groups, each with one row: both writes address node (`bucket`, `label_1`) | write under the suffixed `bucket`, as app/collector/assets.go:128 does, so distinctly named groups never share a node | medium; not executed | `Persist.LegacyWritesCollide` | `Persist.AssetsWritesDistinct` |
