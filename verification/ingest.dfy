/** The collector's data model: the parsed `Collection` a response body turns
    into, the `Pipeline` record that carries one driving row through the fetch and
    persist stages, and the flag that tells apart the two copies of the collector
    in the repository (app/collector/assets.go and app/collector/main.go). */
module Ingest {

  datatype Option<T> = None | Some(value: T)

  /** A (name, value) attribute, as the parser and the graph store exchange them. */
  datatype Tag = Tag(name: string, value: string)

  /** A named sub-collection of a parsed record: one attribute sequence per
      repeated sub-entity found in the response (`Name` and `Value` in the source). */
  datatype Group = Group(name: string, value: seq<seq<Tag>>)

  /** The parser's output for one response body: record-level tags and the
      groups (`Tags` and `Buckets` in the source). */
  datatype Collection = Collection(tags: seq<Tag>, buckets: seq<Group>)

  /** The zero value a freshly built `Pipeline` carries. */
  const EmptyCollection := Collection([], [])

  /** One unit of work. `httpError` holds the status code of the failing response
      (the source's error is the status formatted as text); `dbError` holds the
      error the graph store returned for a node write. */
  datatype Pipeline = Pipeline(
    urls: seq<string>,
    labelText: string,
    bucket: string,
    properties: map<string, string>,
    collection: Collection,
    httpError: Option<int>,
    dbError: Option<string>)

  /** `Assets` is app/collector/assets.go (an HTTP 429 aborts the run; grouped
      writes go to the bucket suffixed with the group name); `Legacy` is
      app/collector/main.go (no abort; grouped writes go to the bare bucket). */
  datatype Variant = Assets | Legacy

  /** Go's `m[k]`: the zero value "" for a key that is not in the map. */
  function Lookup(m: map<string, string>, k: string): string
  {
    if k in m then m[k] else ""
  }

  /** `o` is an order in which a Go `range` over `m` may visit the keys: every
      key exactly once. Go leaves this order unspecified, so the model takes it
      as an input wherever the source ranges over a map. */
  ghost predicate IsKeyOrder(o: seq<string>, m: map<string, string>)
  {
    && (forall i, j | 0 <= i < j < |o| :: o[i] != o[j])
    && (forall k :: k in o <==> k in m)
  }
}
