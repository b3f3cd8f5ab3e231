/** The collector's driver: building the queue of entries from the driving rows
    (`main` in app/collector/main.go), running every entry through the fetch and
    write stages and counting the outcomes (`QueueRequests` in
    app/collector/assets.go, the same loop in `main` of app/collector/main.go),
    and the two figures the run reports. The goroutines and channels that move
    entries between the stages are replaced by one sequential pass; the counts do
    not depend on the order the entries come out in (see `CountPermutation`). */
module Collector {
  import opened Ingest
  import opened Expand
  import opened Fetch
  import opened Persist

  // ---------------------------------------------------------------------------
  // Counting
  // ---------------------------------------------------------------------------

  predicate HttpOk(e: Pipeline)
  {
    e.httpError.None?
  }

  predicate DbOk(e: Pipeline)
  {
    e.dbError.None?
  }

  /** The number of entries of `d` that satisfy `ok`. */
  function CountWhere(d: seq<Pipeline>, ok: Pipeline -> bool): (r: nat)
    ensures r <= |d|
    ensures r == |d| <==> forall i | 0 <= i < |d| :: ok(d[i])
    ensures r == 0 <==> forall i | 0 <= i < |d| :: !ok(d[i])
  {
    if |d| == 0 then 0
    else
      var init := d[..|d| - 1];
      assert forall i | 0 <= i < |init| :: init[i] == d[i];
      CountWhere(init, ok) + if ok(d[|d| - 1]) then 1 else 0
  }

  /** The counting loop over the drained entries. */
  method Tally(drained: seq<Pipeline>) returns (httpPass: nat, dbPass: nat)
    ensures httpPass == CountWhere(drained, HttpOk)
    ensures dbPass == CountWhere(drained, DbOk)
  {
    httpPass := 0;
    dbPass := 0;
    for i := 0 to |drained|
      invariant httpPass == CountWhere(drained[..i], HttpOk)
      invariant dbPass == CountWhere(drained[..i], DbOk)
    {
      var entry := drained[i];
      assert drained[..i + 1][..i] == drained[..i];
      if entry.httpError.None? {
        httpPass := httpPass + 1;
      }
      if entry.dbError.None? {
        dbPass := dbPass + 1;
      }
    }
    assert drained[..|drained|] == drained;
  }

  lemma {:induction false} CountAppend(a: seq<Pipeline>, b: seq<Pipeline>, ok: Pipeline -> bool)
    ensures CountWhere(a + b, ok) == CountWhere(a, ok) + CountWhere(b, ok)
    decreases |b|
  {
    if |b| == 0 {
      assert a + b == a;
    } else {
      var b' := b[..|b| - 1];
      assert (a + b)[..|a + b| - 1] == a + b';
      CountAppend(a, b', ok);
    }
  }

  /** The counts do not depend on the order in which the entries are drained. */
  lemma {:induction false} CountPermutation(a: seq<Pipeline>, b: seq<Pipeline>, ok: Pipeline -> bool)
    requires multiset(a) == multiset(b)
    ensures CountWhere(a, ok) == CountWhere(b, ok)
    decreases |b|
  {
    if |b| > 0 {
      var x := b[|b| - 1];
      var b' := b[..|b| - 1];
      assert x in multiset(a) by {
        assert b == b' + [x];
      }
      var i :| 0 <= i < |a| && a[i] == x;
      var a' := a[..i] + a[i + 1..];
      RemoveAt(a, i);
      RemoveAt(b, |b| - 1);
      assert b[..|b| - 1] + b[|b|..] == b';
      CountPermutation(a', b', ok);
      CountRemove(a, i, ok);
      CountRemove(b, |b| - 1, ok);
    } else {
      assert |multiset(a)| == 0;
    }
  }

  /** Taking one entry out lowers the count by that entry's contribution. */
  lemma CountRemove(a: seq<Pipeline>, i: nat, ok: Pipeline -> bool)
    requires i < |a|
    ensures CountWhere(a, ok) == CountWhere(a[..i] + a[i + 1..], ok) + if ok(a[i]) then 1 else 0
  {
    var front, rest, back := a[..i], a[i..], a[i + 1..];
    assert front + rest == a;
    assert [a[i]] + back == rest;
    CountAppend(front, rest, ok);
    CountAppend([a[i]], back, ok);
    CountAppend(front, back, ok);
    CountOne(a[i], ok);
  }

  lemma CountOne(x: Pipeline, ok: Pipeline -> bool)
    ensures CountWhere([x], ok) == if ok(x) then 1 else 0
  {
    assert [x][..0] == [];
  }

  lemma RemoveAt(a: seq<Pipeline>, i: nat)
    requires i < |a|
    ensures multiset(a[..i] + a[i + 1..]) == multiset(a) - multiset{a[i]}
  {
    assert a == a[..i] + [a[i]] + a[i + 1..];
  }

  /** An entry whose fetch failed is never written, so it keeps `dbError`
      unset: when that holds for every drained entry, every entry counts for at
      least one of the two tallies. */
  lemma {:induction false} TallyLowerBound(d: seq<Pipeline>)
    requires forall i | 0 <= i < |d| :: d[i].httpError.Some? ==> d[i].dbError.None?
    ensures CountWhere(d, HttpOk) + CountWhere(d, DbOk) >= |d|
  {
    if |d| > 0 {
      var init := d[..|d| - 1];
      assert forall i | 0 <= i < |init| :: init[i] == d[i];
      TallyLowerBound(init);
    }
  }

  // ---------------------------------------------------------------------------
  // Running the queue
  // ---------------------------------------------------------------------------

  /** How a run ends: with the two counts, or stopped by a 429 (assets.go only). */
  datatype RunOutcome = Completed(httpPass: nat, dbPass: nat) | Stopped

  /** The number of entries whose fetch ends without an HTTP error. */
  function CleanFetches(queue: seq<Pipeline>, responses: seq<seq<Response>>): (r: nat)
    requires |responses| == |queue|
    ensures r <= |queue|
  {
    if |queue| == 0 then 0
    else
      var n := |queue| - 1;
      CleanFetches(queue[..n], responses[..n]) + if ErrorAfter(queue[n].httpError, responses[n]).None? then 1 else 0
  }

  /** The write results of the `i`-th entry of the queue, as `put` gives them
      for that entry. */
  function PutOf(put: (nat, nat, NodeWrite) -> Option<string>, i: nat): (nat, NodeWrite) -> Option<string>
  {
    (k: nat, w: NodeWrite) => put(i, k, w)
  }

  /** The entry as it leaves both stages: fetched, then written. */
  function Processed(variant: Variant, entry: Pipeline, rs: seq<Response>, parse: string -> Collection,
                     order: seq<string>, put: (nat, NodeWrite) -> Option<string>): Pipeline
  {
    Written(variant, Fetched(entry, rs, parse), order, put)
  }

  /** Every entry of the queue as it leaves both stages. */
  function Outcomes(variant: Variant, queue: seq<Pipeline>, responses: seq<seq<Response>>, parse: string -> Collection,
                    orders: seq<seq<string>>, put: (nat, nat, NodeWrite) -> Option<string>): (r: seq<Pipeline>)
    requires |responses| == |queue| && |orders| == |queue|
    ensures |r| == |queue|
  {
    seq(|queue|, j requires 0 <= j < |queue| => Processed(variant, queue[j], responses[j], parse, orders[j], PutOf(put, j)))
  }

  /** The data flow of `QueueRequests` run one entry at a time: every entry is
      fetched (`responses[i]` answers the URLs of `queue[i]`), written
      (`orders[i]` is the iteration order of its properties, `put(i, k, w)` the
      result of its `k`-th write) and counted. */
  method QueueRequests(variant: Variant, queue: seq<Pipeline>, responses: seq<seq<Response>>, parse: string -> Collection,
                       orders: seq<seq<string>>, put: (nat, nat, NodeWrite) -> Option<string>)
    returns (outcome: RunOutcome)
    requires |responses| == |queue| && |orders| == |queue|
    requires forall i | 0 <= i < |queue| :: |responses[i]| == |queue[i].urls|
    ensures outcome.Stopped? <==> exists i | 0 <= i < |queue| :: Aborts(variant, responses[i])
    ensures outcome.Completed? ==> outcome.httpPass == CleanFetches(queue, responses)
    ensures outcome.Completed? ==> outcome.httpPass == CountWhere(Outcomes(variant, queue, responses, parse, orders, put), HttpOk)
    ensures outcome.Completed? ==> outcome.dbPass == CountWhere(Outcomes(variant, queue, responses, parse, orders, put), DbOk)
    ensures outcome.Completed? ==> outcome.httpPass <= |queue| && outcome.dbPass <= |queue|
    ensures outcome.Completed? && (forall i | 0 <= i < |queue| :: queue[i].dbError.None?) ==>
      outcome.httpPass + outcome.dbPass >= |queue|
  {
    ghost var all := Outcomes(variant, queue, responses, parse, orders, put);
    var drained: seq<Pipeline> := [];
    for i := 0 to |queue|
      invariant drained == all[..i]
      invariant forall j | 0 <= j < i :: !Aborts(variant, responses[j])
    {
      var processed := ProcessEntry(variant, queue[i], responses[i], parse, orders[i], PutOf(put, i));
      if processed.None? {
        return Stopped;
      }
      assert processed.value == all[i];
      PrefixGrows(all, i);
      drained := drained + [processed.value];
    }
    assert drained == all;
    var httpPass, dbPass := Tally(drained);
    OutcomeCounts(variant, queue, responses, parse, orders, put);
    outcome := Completed(httpPass, dbPass);
  }

  lemma PrefixGrows(s: seq<Pipeline>, i: nat)
    requires i < |s|
    ensures s[..i + 1] == s[..i] + [s[i]]
  {
  }

  /** What the counts of a completed run amount to: the HTTP count is the number
      of clean fetches and, when no entry starts with a database error, every
      entry counts in at least one of the two. */
  lemma OutcomeCounts(variant: Variant, queue: seq<Pipeline>, responses: seq<seq<Response>>, parse: string -> Collection,
                      orders: seq<seq<string>>, put: (nat, nat, NodeWrite) -> Option<string>)
    requires |responses| == |queue| && |orders| == |queue|
    ensures CountWhere(Outcomes(variant, queue, responses, parse, orders, put), HttpOk) == CleanFetches(queue, responses)
    ensures (forall i | 0 <= i < |queue| :: queue[i].dbError.None?) ==>
      CountWhere(Outcomes(variant, queue, responses, parse, orders, put), HttpOk)
        + CountWhere(Outcomes(variant, queue, responses, parse, orders, put), DbOk) >= |queue|
  {
    var all := Outcomes(variant, queue, responses, parse, orders, put);
    forall j | 0 <= j < |queue|
      ensures all[j].httpError == ErrorAfter(queue[j].httpError, responses[j])
      ensures all[j].httpError.Some? ==> all[j].dbError == queue[j].dbError
    {
      ProcessedFacts(variant, queue[j], responses[j], parse, orders[j], PutOf(put, j));
    }
    CleanFetchesCount(queue, responses, all);
    if forall j | 0 <= j < |queue| :: queue[j].dbError.None? {
      TallyLowerBound(all);
    }
  }

  /** One entry through both stages: fetched, then written unless the fetch
      stopped the process. */
  method ProcessEntry(variant: Variant, entry: Pipeline, rs: seq<Response>, parse: string -> Collection,
                      order: seq<string>, put: (nat, NodeWrite) -> Option<string>)
    returns (r: Option<Pipeline>)
    requires |rs| == |entry.urls|
    ensures r.None? <==> Aborts(variant, rs)
    ensures r.Some? ==> r.value == Processed(variant, entry, rs, parse, order, put)
  {
    var fetched := HttpRequest(variant, entry, rs, parse);
    if fetched.Aborted? {
      return None;
    }
    var written, _ := DBTransaction(variant, fetched.entry, order, put);
    return Some(written);
  }

  /** The write stage leaves the HTTP error alone, and it writes nothing for an
      entry whose fetch failed, so such an entry keeps its database error. */
  lemma ProcessedFacts(variant: Variant, entry: Pipeline, rs: seq<Response>, parse: string -> Collection,
                       order: seq<string>, put: (nat, NodeWrite) -> Option<string>)
    ensures Processed(variant, entry, rs, parse, order, put).httpError == ErrorAfter(entry.httpError, rs)
    ensures ErrorAfter(entry.httpError, rs).Some? ==> Processed(variant, entry, rs, parse, order, put).dbError == entry.dbError
  {
  }

  lemma {:induction false} CleanFetchesCount(queue: seq<Pipeline>, responses: seq<seq<Response>>, drained: seq<Pipeline>)
    requires |responses| == |queue| == |drained|
    requires forall j | 0 <= j < |queue| :: drained[j].httpError == ErrorAfter(queue[j].httpError, responses[j])
    ensures CountWhere(drained, HttpOk) == CleanFetches(queue, responses)
  {
    if |queue| > 0 {
      var n := |queue| - 1;
      assert forall j | 0 <= j < n :: drained[..n][j] == drained[j] && queue[..n][j] == queue[j] && responses[..n][j] == responses[j];
      CleanFetchesCount(queue[..n], responses[..n], drained[..n]);
    }
  }

  // ---------------------------------------------------------------------------
  // Building the queue
  // ---------------------------------------------------------------------------

  /** The parts of a collector configuration the queue is built from: the
      bucket (`config.Id.Value`) and the URL templates (`config.Sources`). */
  datatype Config = Config(id: string, sources: seq<string>)

  /** The result of start-up: a fatal "Invalid config name", or the queue. */
  datatype Startup = InvalidConfig | Ready(queue: seq<Pipeline>)

  /** The driving rows: those the graph query returned, or a single empty row
      when no query was given. */
  function DrivingRows(query: string, queried: seq<map<string, string>>): (r: seq<map<string, string>>)
    ensures |query| == 0 ==> r == [map[]]
  {
    if |query| > 0 then queried else [map[]]
  }

  /** `e` is the entry built for `row`: the expanded templates, the row's label,
      the configured bucket, the row as properties, and nothing fetched or
      written yet. */
  ghost predicate EntryFor(e: Pipeline, config: Config, row: map<string, string>, orders: seq<seq<string>>)
    requires |orders| == |config.sources|
  {
    && e.labelText == Label(row, |config.sources|)
    && e.bucket == config.id
    && e.properties == row
    && e.collection == EmptyCollection
    && e.httpError.None? && e.dbError.None?
    && |e.urls| == |config.sources|
    && forall t | 0 <= t < |config.sources| :: e.urls[t] == Substitute(config.sources[t], orders[t], row)
  }

  /** The start of `main` in app/collector/main.go: the sources check and one
      entry per driving row. `queried` is what `db.Query` returned;
      `orders[i][t]` is the order in which expanding template `t` for row `i`
      visits the row's keys. */
  method PrepareQueue(config: Config, query: string, queried: seq<map<string, string>>, orders: seq<seq<seq<string>>>)
    returns (s: Startup)
    requires |orders| == |DrivingRows(query, queried)|
    requires forall i | 0 <= i < |orders| :: |orders[i]| == |config.sources|
    requires forall i, t | 0 <= i < |orders| && 0 <= t < |config.sources| ::
      IsKeyOrder(orders[i][t], DrivingRows(query, queried)[i])
    ensures s.InvalidConfig? <==> |config.sources| == 0
    ensures s.Ready? ==> |s.queue| == |DrivingRows(query, queried)|
    ensures s.Ready? ==> forall i | 0 <= i < |s.queue| ::
      EntryFor(s.queue[i], config, DrivingRows(query, queried)[i], orders[i])
    ensures s.Ready? && |query| == 0 ==>
      |s.queue| == 1 && s.queue[0].labelText == "" && s.queue[0].urls == config.sources
  {
    if |config.sources| == 0 {
      return InvalidConfig;
    }
    var nodes: seq<map<string, string>> := [map[]];
    if |query| > 0 {
      nodes := queried;
    }
    assert nodes == DrivingRows(query, queried);
    var queue := BuildQueue(config, nodes, orders);
    s := Ready(queue);
    if |query| == 0 {
      EmptyRowEntry(config.sources, orders[0]);
    }
  }

  /** The loop of `main` that builds one entry per driving row. */
  method BuildQueue(config: Config, nodes: seq<map<string, string>>, orders: seq<seq<seq<string>>>)
    returns (queue: seq<Pipeline>)
    requires |orders| == |nodes|
    requires forall i | 0 <= i < |orders| :: |orders[i]| == |config.sources|
    requires forall i, t | 0 <= i < |orders| && 0 <= t < |config.sources| :: IsKeyOrder(orders[i][t], nodes[i])
    ensures |queue| == |nodes|
    ensures forall i | 0 <= i < |queue| :: EntryFor(queue[i], config, nodes[i], orders[i])
  {
    queue := [];
    for i := 0 to |nodes|
      invariant |queue| == i
      invariant forall j | 0 <= j < i :: EntryFor(queue[j], config, nodes[j], orders[j])
    {
      var urls, labelText := BuildRequests(nodes[i], config.sources, orders[i]);
      var entry := Pipeline(urls, labelText, config.id, nodes[i], EmptyCollection, None, None);
      assert EntryFor(entry, config, nodes[i], orders[i]);
      AppendEntry(queue, entry, config, nodes, orders);
      queue := queue + [entry];
    }
  }

  lemma AppendEntry(queue: seq<Pipeline>, entry: Pipeline, config: Config, nodes: seq<map<string, string>>, orders: seq<seq<seq<string>>>)
    requires |queue| < |nodes| == |orders|
    requires forall i | 0 <= i < |orders| :: |orders[i]| == |config.sources|
    requires forall j | 0 <= j < |queue| :: EntryFor(queue[j], config, nodes[j], orders[j])
    requires EntryFor(entry, config, nodes[|queue|], orders[|queue|])
    ensures forall j | 0 <= j < |queue| + 1 :: EntryFor((queue + [entry])[j], config, nodes[j], orders[j])
  {
  }

  /** The empty row leaves the templates as they are and gets the empty label. */
  lemma EmptyRowEntry(sources: seq<string>, orders: seq<seq<string>>)
    requires |orders| == |sources|
    requires forall t | 0 <= t < |sources| :: IsKeyOrder(orders[t], map[])
    ensures Label(map[], |sources|) == ""
    ensures forall t | 0 <= t < |sources| :: Substitute(sources[t], orders[t], map[]) == sources[t]
  {
    LabelEmpty(map[], |sources|);
    forall t | 0 <= t < |sources|
      ensures Substitute(sources[t], orders[t], map[]) == sources[t]
    {
      NoKeysNoOrder(orders[t]);
    }
  }

  /** The only iteration order of the empty row is the empty one. */
  lemma NoKeysNoOrder(o: seq<string>)
    requires IsKeyOrder(o, map[])
    ensures o == []
  {
    KeyOrderCounts(o, map[]);
    assert multiset(o) == multiset{};
    assert |o| == |multiset(o)| == 0;
  }

  // ---------------------------------------------------------------------------
  // Reported figures
  // ---------------------------------------------------------------------------

  /** `ComputeMetrics`: the pass rate in hundredths of a percent, rounded to the
      nearest with halves going up; no requests gives the source's "0%". */
  function PassRate(pass: nat, total: nat): (r: nat)
    ensures total == 0 ==> r == 0
    ensures total > 0 ==> 20000 * pass - total < 2 * total * r <= 20000 * pass + total
  {
    if total == 0 then 0
    else
      var x := 20000 * pass + total;
      var q := x / (2 * total);
      assert x == 2 * total * q + x % (2 * total);
      q
  }

  /** A rate of a part of the requests is at most 100%. */
  lemma PassRateAtMostAll(pass: nat, total: nat)
    requires pass <= total
    ensures PassRate(pass, total) <= 10000
  {
    if total > 0 {
      var r := PassRate(pass, total);
      var t := 2 * total;
      assert t * r < t * 10001 by {
        assert 20000 * pass + total <= 20000 * total + total;
      }
      MulCancel(t, r, 10001);
    }
  }

  lemma MulCancel(t: nat, a: nat, b: nat)
    requires t * a < t * b
    ensures a < b
  {
  }

  /** The average time per request in whole milliseconds (`ComputeTime`); no
      requests gives the source's "0 ms". */
  function AverageMs(total: nat, elapsedMs: nat): (r: nat)
    ensures total == 0 ==> r == 0
    ensures total > 0 ==> r * total <= elapsedMs < (r + 1) * total
  {
    if total == 0 then 0 else elapsedMs / total
  }
}
