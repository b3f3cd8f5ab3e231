/** The fetch stage, the per-entry body of `HttpRequest` (app/collector/assets.go
    and app/collector/main.go): every expanded URL of an entry is fetched in
    turn; a 200 response replaces the entry's collection with the parse of its
    body, any other status records an HTTP error, and in the assets.go copy a 429
    ends the process. */
module Fetch {
  import opened Ingest

  /** The status and body `utils.Get` returns for one URL. */
  datatype Response = Response(status: int, body: string)

  /** What the stage does with an entry: hand it on to the write stage, or end
      the whole process (`log.Fatal`). */
  datatype FetchOutcome = Forwarded(entry: Pipeline) | Aborted

  const StatusOK := 200
  const StatusTooManyRequests := 429

  /** The index of the last 200 response, if there is one. */
  function LastOk(rs: seq<Response>): (r: Option<nat>)
    ensures r.None? <==> forall i | 0 <= i < |rs| :: rs[i].status != StatusOK
    ensures r.Some? ==> r.value < |rs| && rs[r.value].status == StatusOK
    ensures r.Some? ==> forall i | r.value < i < |rs| :: rs[i].status != StatusOK
  {
    if |rs| == 0 then None
    else if rs[|rs| - 1].status == StatusOK then Some(|rs| - 1)
    else LastOk(rs[..|rs| - 1])
  }

  /** The index of the last response that is not a 200, if there is one. */
  function LastFailure(rs: seq<Response>): (r: Option<nat>)
    ensures r.None? <==> forall i | 0 <= i < |rs| :: rs[i].status == StatusOK
    ensures r.Some? ==> r.value < |rs| && rs[r.value].status != StatusOK
    ensures r.Some? ==> forall i | r.value < i < |rs| :: rs[i].status == StatusOK
  {
    if |rs| == 0 then None
    else if rs[|rs| - 1].status != StatusOK then Some(|rs| - 1)
    else LastFailure(rs[..|rs| - 1])
  }

  /** The collection after the responses `rs`: the parse of the last 200 body,
      or `c` when no response was a 200. */
  function CollectionAfter(c: Collection, rs: seq<Response>, parse: string -> Collection): Collection
  {
    match LastOk(rs)
    case None => c
    case Some(i) => parse(rs[i].body)
  }

  /** The HTTP error after the responses `rs`: the status of the last failing
      response, or `e` when every response was a 200. */
  function ErrorAfter(e: Option<int>, rs: seq<Response>): Option<int>
  {
    match LastFailure(rs)
    case None => e
    case Some(i) => Some(rs[i].status)
  }

  /** The entry as the fetch stage forwards it after the responses `rs`. */
  function Fetched(entry: Pipeline, rs: seq<Response>, parse: string -> Collection): Pipeline
  {
    entry.(collection := CollectionAfter(entry.collection, rs, parse),
           httpError := ErrorAfter(entry.httpError, rs))
  }

  /** The assets.go copy stops the process on any 429; the main.go copy never
      stops. */
  predicate Aborts(variant: Variant, rs: seq<Response>)
  {
    variant == Assets && exists i | 0 <= i < |rs| :: rs[i].status == StatusTooManyRequests
  }

  /** The URL loop of `HttpRequest` for one entry. `responses[i]` is the response
      to `entry.urls[i]`; `parse` is the configured parser. */
  method HttpRequest(variant: Variant, entry: Pipeline, responses: seq<Response>, parse: string -> Collection)
    returns (out: FetchOutcome)
    requires |responses| == |entry.urls|
    ensures out.Aborted? <==> Aborts(variant, responses)
    ensures out.Forwarded? ==> out.entry == Fetched(entry, responses, parse)
  {
    var e := entry;
    for i := 0 to |entry.urls|
      invariant e == entry.(collection := CollectionAfter(entry.collection, responses[..i], parse),
                            httpError := ErrorAfter(entry.httpError, responses[..i]))
      invariant !Aborts(variant, responses[..i])
    {
      var response := responses[i];
      assert responses[..i + 1][..i] == responses[..i];
      if response.status == StatusOK {
        e := e.(collection := parse(response.body));
      } else {
        e := e.(httpError := Some(response.status));
        if variant == Assets && response.status == StatusTooManyRequests {
          assert responses[i].status == StatusTooManyRequests;
          return Aborted;
        }
      }
      assert !Aborts(variant, responses[..i + 1]) by {
        var seen := responses[..i + 1];
        assert forall j | 0 <= j < i :: seen[j] == responses[..i][j];
      }
    }
    assert responses[..|entry.urls|] == responses;
    return Forwarded(e);
  }

  // ---------------------------------------------------------------------------
  // How the outcome of later responses combines with earlier ones
  // ---------------------------------------------------------------------------

  /** Fetching `a` and then `b` leaves the collection that fetching `b` alone
      leaves on top of the collection `a` produced. */
  lemma {:induction false} CollectionAfterAppend(c: Collection, a: seq<Response>, b: seq<Response>, parse: string -> Collection)
    ensures CollectionAfter(c, a + b, parse) == CollectionAfter(CollectionAfter(c, a, parse), b, parse)
  {
    if |b| > 0 {
      var b' := b[..|b| - 1];
      assert (a + b)[..|a + b| - 1] == a + b';
      CollectionAfterAppend(c, a, b', parse);
    } else {
      assert a + b == a;
    }
  }

  /** The same for the HTTP error. */
  lemma {:induction false} ErrorAfterAppend(e: Option<int>, a: seq<Response>, b: seq<Response>)
    ensures ErrorAfter(e, a + b) == ErrorAfter(ErrorAfter(e, a), b)
  {
    if |b| > 0 {
      var b' := b[..|b| - 1];
      assert (a + b)[..|a + b| - 1] == a + b';
      ErrorAfterAppend(e, a, b');
    } else {
      assert a + b == a;
    }
  }

  /** Once set, the HTTP error is never cleared by later responses, 200s
      included. */
  lemma ErrorIsSticky(e: Option<int>, a: seq<Response>, b: seq<Response>)
    requires ErrorAfter(e, a).Some?
    ensures ErrorAfter(e, a + b).Some?
  {
    ErrorAfterAppend(e, a, b);
  }

  /** A failing response leaves the collection as it was. */
  lemma FailureKeepsCollection(c: Collection, a: seq<Response>, r: Response, parse: string -> Collection)
    requires r.status != StatusOK
    ensures CollectionAfter(c, a + [r], parse) == CollectionAfter(c, a, parse)
  {
    CollectionAfterAppend(c, a, [r], parse);
  }

  /** The last 200 wins: after a 200 followed only by failures the collection
      is the parse of that 200's body, whatever came before. */
  lemma LastOkWins(c: Collection, a: seq<Response>, r: Response, b: seq<Response>, parse: string -> Collection)
    requires r.status == StatusOK
    requires forall i | 0 <= i < |b| :: b[i].status != StatusOK
    ensures CollectionAfter(c, a + [r] + b, parse) == parse(r.body)
  {
    CollectionAfterAppend(c, a + [r], b, parse);
    CollectionAfterAppend(c, a, [r], parse);
  }

  /** An entry that starts without an error ends with one exactly when some
      response was not a 200. */
  lemma ErrorIffSomeFailure(rs: seq<Response>)
    ensures ErrorAfter(None, rs).Some? <==> exists i | 0 <= i < |rs| :: rs[i].status != StatusOK
  {
  }

  /** The main.go copy forwards every entry. */
  lemma LegacyAlwaysForwards(rs: seq<Response>)
    ensures !Aborts(Legacy, rs)
  {
  }
}
