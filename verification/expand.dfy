/** Request expansion, `BuildRequests` (identical in app/collector/assets.go and
    app/collector/main.go): substitutes the `{key}` placeholders of every URL
    template with the values of one driving row, and derives the row's label
    from the values taken in ascending key order. */
module Expand {
  import opened Text
  import opened Ingest

  /** The placeholder a key stands for in a URL template. */
  function Placeholder(k: string): string
  {
    "{" + k + "}"
  }

  /** Different keys stand for different placeholders. */
  lemma PlaceholderInjective(a: string, b: string)
    requires Placeholder(a) == Placeholder(b)
    ensures a == b
  {
    assert a == Placeholder(a)[1..|a| + 1];
    assert b == Placeholder(b)[1..|b| + 1];
  }

  /** A template after the replacements for the keys of `order`, applied in that
      order, each replacing every occurrence of the key's placeholder. */
  function Substitute(url: string, order: seq<string>, query: map<string, string>): string
  {
    if |order| == 0 then url
    else
      var k := order[|order| - 1];
      ReplaceAll(Substitute(url, order[..|order| - 1], query), Placeholder(k), Lookup(query, k))
  }

  /** The key orders of all templates, one after another: the order in which the
      source appends keys to its `keys` list. */
  function Flatten(orders: seq<seq<string>>): seq<string>
  {
    if |orders| == 0 then [] else Flatten(orders[..|orders| - 1]) + orders[|orders| - 1]
  }

  /** The values of `query` for `keys`, in the order of `keys`. */
  function Values(query: map<string, string>, keys: seq<string>): (r: seq<string>)
    ensures |r| == |keys|
  {
    if |keys| == 0 then [] else Values(query, keys[..|keys| - 1]) + [Lookup(query, keys[|keys| - 1])]
  }

  /** Some sequence holding every element of `s` exactly once. */
  ghost function SetToSeq(s: set<string>): (r: seq<string>)
    ensures (forall i, j | 0 <= i < j < |r| :: r[i] != r[j]) && (forall k :: k in r <==> k in s)
  {
    if s == {} then []
    else
      var x :| x in s;
      var r := [x] + SetToSeq(s - {x});
      assert forall k :: k in r <==> k == x || k in SetToSeq(s - {x});
      r
  }

  /** The keys the label is made of: every key of `query` once per template
      (`templates` of them), in ascending order. */
  ghost function LabelKeys(query: map<string, string>, templates: nat): seq<string>
  {
    Sort(Flatten(Copies(SetToSeq(query.Keys), templates)))
  }

  /** `n` copies of `s`. */
  function Copies(s: seq<string>, n: nat): (r: seq<seq<string>>)
    ensures |r| == n && forall t | 0 <= t < n :: r[t] == s
  {
    if n == 0 then [] else Copies(s, n - 1) + [s]
  }

  /** The label of a driving row expanded against `templates` templates. */
  ghost function Label(query: map<string, string>, templates: nat): string
  {
    Join(Values(query, LabelKeys(query, templates)), "_")
  }

  /** `BuildRequests`. `orders[t]` is the order in which the `range` over `query`
      visits the keys while template `t` is expanded. The URLs come out one per
      template, in template order, and the label is the same whatever these
      orders are. */
  method BuildRequests(query: map<string, string>, urls: seq<string>, orders: seq<seq<string>>)
    returns (reqUrls: seq<string>, labelText: string)
    requires |orders| == |urls|
    requires forall t | 0 <= t < |urls| :: IsKeyOrder(orders[t], query)
    ensures |reqUrls| == |urls|
    ensures forall t | 0 <= t < |urls| :: reqUrls[t] == Substitute(urls[t], orders[t], query)
    ensures labelText == Label(query, |urls|)
  {
    var keys;
    reqUrls, keys := ExpandAll(query, urls, orders);
    LabelOfCollectedKeys(query, orders);
    labelText := JoinSortedValues(query, keys);
  }

  /** The outer loop of `BuildRequests`: every template expanded in turn, and
      the keys visited, template after template. */
  method ExpandAll(query: map<string, string>, urls: seq<string>, orders: seq<seq<string>>)
    returns (reqUrls: seq<string>, keys: seq<string>)
    requires |orders| == |urls|
    ensures |reqUrls| == |urls|
    ensures forall t | 0 <= t < |urls| :: reqUrls[t] == Substitute(urls[t], orders[t], query)
    ensures keys == Flatten(orders)
  {
    reqUrls := [];
    keys := [];
    for t := 0 to |urls|
      invariant |reqUrls| == t
      invariant forall s | 0 <= s < t :: reqUrls[s] == Substitute(urls[s], orders[s], query)
      invariant keys == Flatten(orders[..t])
    {
      var url;
      url, keys := ExpandUrl(query, urls[t], orders[t], keys);
      PrefixStep(orders, t);
      AppendExpanded(reqUrls, url, urls, orders, query);
      reqUrls := reqUrls + [url];
    }
    assert orders[..|urls|] == orders;
  }

  /** The inner loop of `BuildRequests`: one template expanded in the order
      `order`, each visited key appended to `keys`. */
  method ExpandUrl(query: map<string, string>, template: string, order: seq<string>, keys: seq<string>)
    returns (url: string, keysAfter: seq<string>)
    ensures url == Substitute(template, order, query)
    ensures keysAfter == keys + order
  {
    url := template;
    keysAfter := keys;
    for j := 0 to |order|
      invariant url == Substitute(template, order[..j], query)
      invariant keysAfter == keys + order[..j]
    {
      var k := order[j];
      keysAfter := keysAfter + [k];
      SubstituteStep(template, order, j, query);
      url := ReplaceAll(url, Placeholder(k), Lookup(query, k));
    }
    assert order[..|order|] == order;
  }

  /** The end of `BuildRequests`: sort the keys, look up their values and join
      them with "_". */
  method JoinSortedValues(query: map<string, string>, keys: seq<string>) returns (labelText: string)
    ensures labelText == Join(Values(query, Sort(keys)), "_")
  {
    var sorted := Sort(keys);
    var values := ValuesOf(query, sorted);
    labelText := Join(values, "_");
  }

  /** The loop that looks up the value of every sorted key. */
  method ValuesOf(query: map<string, string>, keys: seq<string>) returns (values: seq<string>)
    ensures values == Values(query, keys)
  {
    values := [];
    for j := 0 to |keys|
      invariant values == Values(query, keys[..j])
    {
      assert keys[..j + 1][..j] == keys[..j];
      values := values + [Lookup(query, keys[j])];
    }
    assert keys[..|keys|] == keys;
  }

  lemma AppendExpanded(done: seq<string>, url: string, urls: seq<string>, orders: seq<seq<string>>, query: map<string, string>)
    requires |done| < |urls| == |orders|
    requires forall s | 0 <= s < |done| :: done[s] == Substitute(urls[s], orders[s], query)
    requires url == Substitute(urls[|done|], orders[|done|], query)
    ensures forall s | 0 <= s < |done| + 1 :: (done + [url])[s] == Substitute(urls[s], orders[s], query)
  {
  }

  lemma SubstituteStep(url: string, order: seq<string>, j: nat, query: map<string, string>)
    requires j < |order|
    ensures order[..j] + [order[j]] == order[..j + 1]
    ensures Substitute(url, order[..j + 1], query)
         == ReplaceAll(Substitute(url, order[..j], query), Placeholder(order[j]), Lookup(query, order[j]))
  {
    assert order[..j + 1][..j] == order[..j];
  }

  lemma PrefixStep(orders: seq<seq<string>>, t: nat)
    requires t < |orders|
    ensures orders[t][..|orders[t]|] == orders[t]
    ensures Flatten(orders[..t + 1]) == Flatten(orders[..t]) + orders[t]
  {
    assert orders[..t + 1][..t] == orders[..t];
  }

  // ---------------------------------------------------------------------------
  // The label does not depend on map iteration order
  // ---------------------------------------------------------------------------

  /** Every key of the row occurs once per template among the collected keys. */
  lemma {:induction false} FlattenCounts(orders: seq<seq<string>>, m: map<string, string>)
    requires forall t | 0 <= t < |orders| :: IsKeyOrder(orders[t], m)
    ensures forall k :: multiset(Flatten(orders))[k] == if k in m then |orders| else 0
  {
    if |orders| > 0 {
      var last := orders[|orders| - 1];
      FlattenCounts(orders[..|orders| - 1], m);
      KeyOrderCounts(last, m);
      assert multiset(Flatten(orders)) == multiset(Flatten(orders[..|orders| - 1])) + multiset(last);
    }
  }

  lemma {:induction false} KeyOrderCounts(o: seq<string>, m: map<string, string>)
    requires IsKeyOrder(o, m)
    ensures forall k :: multiset(o)[k] == if k in m then 1 else 0
  {
    if |o| > 0 {
      var init := o[..|o| - 1];
      var x := o[|o| - 1];
      assert o == init + [x];
      var m' := map k | k in m && k != x :: m[k];
      assert IsKeyOrder(init, m') by {
        forall k
          ensures k in init <==> k in m'
        {
          if k in init {
            var i :| 0 <= i < |init| && init[i] == k;
            assert o[i] == k;
          }
        }
      }
      KeyOrderCounts(init, m');
      assert multiset(o) == multiset(init) + multiset{x};
    }
  }

  /** The keys collected under any iteration orders are, as a multiset, those
      collected under the canonical order. */
  lemma SameKeysOfAnyOrder(query: map<string, string>, orders: seq<seq<string>>)
    requires forall t | 0 <= t < |orders| :: IsKeyOrder(orders[t], query)
    ensures multiset(Flatten(orders)) == multiset(Flatten(Copies(SetToSeq(query.Keys), |orders|)))
  {
    CanonicalOrders(query, |orders|);
    FlattenSameKeys(orders, Copies(SetToSeq(query.Keys), |orders|), query);
  }

  lemma {:induction false} FlattenSameKeys(o1: seq<seq<string>>, o2: seq<seq<string>>, m: map<string, string>)
    requires |o1| == |o2|
    requires forall t | 0 <= t < |o1| :: IsKeyOrder(o1[t], m) && IsKeyOrder(o2[t], m)
    ensures multiset(Flatten(o1)) == multiset(Flatten(o2))
  {
    if |o1| > 0 {
      var n := |o1| - 1;
      assert forall t | 0 <= t < n :: o1[..n][t] == o1[t] && o2[..n][t] == o2[t];
      FlattenSameKeys(o1[..n], o2[..n], m);
      KeyOrdersSameKeys(o1[n], o2[n], m);
    }
  }

  /** Two orders of the keys of one map hold the same keys. */
  lemma KeyOrdersSameKeys(o1: seq<string>, o2: seq<string>, m: map<string, string>)
    requires IsKeyOrder(o1, m) && IsKeyOrder(o2, m)
    ensures multiset(o1) == multiset(o2)
  {
    KeyOrderCounts(o1, m);
    KeyOrderCounts(o2, m);
    assert forall k :: multiset(o1)[k] == multiset(o2)[k];
  }

  lemma CanonicalOrders(query: map<string, string>, n: nat)
    ensures forall t | 0 <= t < n :: IsKeyOrder(Copies(SetToSeq(query.Keys), n)[t], query)
  {
    assert IsKeyOrder(SetToSeq(query.Keys), query);
  }

  /** Sorting the keys collected under any iteration orders gives the keys of
      the label. */
  lemma SortedKeysOfAnyOrder(query: map<string, string>, orders: seq<seq<string>>)
    requires forall t | 0 <= t < |orders| :: IsKeyOrder(orders[t], query)
    ensures Sort(Flatten(orders)) == LabelKeys(query, |orders|)
  {
    var a := Flatten(orders);
    var b := Flatten(Copies(SetToSeq(query.Keys), |orders|));
    SameKeysOfAnyOrder(query, orders);
    SortedUnique(Sort(a), Sort(b));
  }

  /** The label is the join of the values of any ascending arrangement of the
      keys collected under any iteration orders. */
  lemma LabelOfSortedKeys(query: map<string, string>, orders: seq<seq<string>>, keys: seq<string>)
    requires forall t | 0 <= t < |orders| :: IsKeyOrder(orders[t], query)
    requires Sorted(keys) && multiset(keys) == multiset(Flatten(orders))
    ensures Label(query, |orders|) == Join(Values(query, keys), "_")
  {
    SortedKeysOfAnyOrder(query, orders);
    SortedUnique(Sort(Flatten(orders)), keys);
  }

  /** The label is the join of the values of the sorted collected keys. */
  lemma LabelOfCollectedKeys(query: map<string, string>, orders: seq<seq<string>>)
    requires forall t | 0 <= t < |orders| :: IsKeyOrder(orders[t], query)
    ensures Label(query, |orders|) == Join(Values(query, Sort(Flatten(orders))), "_")
  {
    SortedKeysOfAnyOrder(query, orders);
  }

  /** With one template the label is the row's values in ascending key order. */
  lemma LabelOneTemplate(query: map<string, string>, ascending: seq<string>)
    requires IsKeyOrder(ascending, query) && Sorted(ascending)
    ensures Label(query, 1) == Join(Values(query, ascending), "_")
  {
    assert Flatten([ascending]) == ascending by {
      assert [ascending][..0] == [];
    }
    LabelOfSortedKeys(query, [ascending], ascending);
  }

  /** For any row, the label is made of the row's keys in ascending order, each
      key once per template. */
  lemma LabelKeysPerTemplate(query: map<string, string>, templates: nat)
    ensures Sorted(LabelKeys(query, templates))
    ensures forall k :: multiset(LabelKeys(query, templates))[k] == if k in query then templates else 0
  {
    CanonicalOrders(query, templates);
    FlattenCounts(Copies(SetToSeq(query.Keys), templates), query);
  }

  /** Without templates, or for the empty row, the label is empty. */
  lemma LabelEmpty(query: map<string, string>, templates: nat)
    requires templates == 0 || |query| == 0
    ensures Label(query, templates) == ""
  {
    var keys := LabelKeys(query, templates);
    CanonicalOrders(query, templates);
    FlattenCounts(Copies(SetToSeq(query.Keys), templates), query);
    assert multiset(keys) == multiset{};
    assert |keys| == |multiset(keys)| == 0;
  }

  /** Keys are collected once per template, so with two templates every value
      appears twice: a row {k1: v1, k2: v2} with k1 < k2 gets the label
      v1_v1_v2_v2. */
  lemma LabelRepeatsPerTemplate(k1: string, k2: string, v1: string, v2: string)
    requires LexLe(k1, k2) && k1 != k2
    ensures Label(map[k1 := v1, k2 := v2], 2) == v1 + "_" + v1 + "_" + v2 + "_" + v2
  {
    var query := map[k1 := v1, k2 := v2];
    LabelOfTwoTemplates(query, k1, k2);
    ValuesFour(query, k1, k2);
    JoinFour(v1, v1, v2, v2);
  }

  /** A two-key row k1 < k2 over two templates has the sorted label keys
      k1, k1, k2, k2. */
  lemma LabelOfTwoTemplates(query: map<string, string>, k1: string, k2: string)
    requires IsKeyOrder([k1, k2], query) && LexLe(k1, k2)
    ensures Label(query, 2) == Join(Values(query, [k1, k1, k2, k2]), "_")
  {
    var keys := [k1, k1, k2, k2];
    var orders := [[k1, k2], [k1, k2]];
    FlattenTwice(k1, k2);
    LexLeReflexive(k1);
    LexLeReflexive(k2);
    SortedFour(k1, k1, k2, k2);
    LabelOfSortedKeys(query, orders, keys);
  }

  lemma SortedFour(a: string, b: string, c: string, d: string)
    requires LexLe(a, b) && LexLe(b, c) && LexLe(c, d)
    ensures Sorted([a, b, c, d])
  {
    LexLeTransitive(a, b, c);
    LexLeTransitive(b, c, d);
    LexLeTransitive(a, c, d);
  }

  lemma FlattenTwice(k1: string, k2: string)
    ensures multiset(Flatten([[k1, k2], [k1, k2]])) == multiset([k1, k1, k2, k2])
  {
    var orders := [[k1, k2], [k1, k2]];
    assert orders[..1] == [[k1, k2]] && orders[..1][..0] == [];
    assert Flatten(orders[..1]) == [k1, k2];
    assert Flatten(orders) == [k1, k2] + [k1, k2];
  }

  lemma ValuesFour(query: map<string, string>, k1: string, k2: string)
    ensures Values(query, [k1, k1, k2, k2]) == [Lookup(query, k1), Lookup(query, k1), Lookup(query, k2), Lookup(query, k2)]
  {
    var keys := [k1, k1, k2, k2];
    assert keys[..1] == [k1] && keys[..2] == [k1, k1] && keys[..3] == [k1, k1, k2];
    assert keys[..3][..2] == keys[..2] && keys[..2][..1] == keys[..1] && keys[..1][..0] == [];
    assert Values(query, keys[..2]) == [Lookup(query, k1), Lookup(query, k1)];
    assert Values(query, keys[..3]) == [Lookup(query, k1), Lookup(query, k1), Lookup(query, k2)];
  }

  lemma JoinFour(a: string, b: string, c: string, d: string)
    ensures Join([a, b, c, d], "_") == a + "_" + b + "_" + c + "_" + d
  {
    var u := "_";
    assert [c, d][1..] == [d];
    assert Join([c, d], u) == c + u + d;
    assert [b, c, d][1..] == [c, d];
    assert Join([b, c, d], u) == b + u + (c + u + d);
    assert [a, b, c, d][1..] == [b, c, d];
    assert Join([a, b, c, d], u) == a + u + (b + u + (c + u + d));
    assert c + u + d == c + (u + d);
    assert b + u + (c + u + d) == b + (u + (c + (u + d)));
    assert a + u + b + u + c + u + d == a + (u + (b + (u + (c + (u + d)))));
  }

  /** With one template, a row {k1: v1, k2: v2} with k1 < k2 gets the label
      v1_v2, whichever key the map lists first (so {year: 2020, week: 1} gets
      1_2020). */
  lemma LabelSortsKeys(k1: string, k2: string, v1: string, v2: string)
    requires LexLe(k1, k2) && k1 != k2
    ensures Label(map[k2 := v2, k1 := v1], 1) == v1 + "_" + v2
  {
    var query := map[k2 := v2, k1 := v1];
    TwoKeyRow(k1, k2, v1, v2);
    LabelOneTemplate(query, [k1, k2]);
    JoinTwo(v1, v2);
  }

  lemma TwoKeyRow(k1: string, k2: string, v1: string, v2: string)
    requires LexLe(k1, k2) && k1 != k2
    ensures IsKeyOrder([k1, k2], map[k2 := v2, k1 := v1]) && Sorted([k1, k2])
    ensures Values(map[k2 := v2, k1 := v1], [k1, k2]) == [v1, v2]
  {
    var keys := [k1, k2];
    assert keys[..1] == [k1];
  }

  lemma JoinTwo(a: string, b: string)
    ensures Join([a, b], "_") == a + "_" + b
  {
    assert [a, b][1..] == [b];
  }

  // ---------------------------------------------------------------------------
  // Every placeholder of a key in the row is replaced by its value
  // ---------------------------------------------------------------------------

  /** A URL template seen as literal text and placeholders. */
  datatype Piece = Lit(text: string) | Hole(key: string)

  /** The template with the holes whose key is in `m` filled in; the other holes
      stay as placeholders. `Render(pieces, map[])` is the template itself. */
  function Render(pieces: seq<Piece>, m: map<string, string>): string
  {
    if |pieces| == 0 then ""
    else
      var head := match pieces[0]
        case Lit(t) => t
        case Hole(k) => if k in m then m[k] else Placeholder(k);
      head + Render(pieces[1..], m)
  }

  predicate NoOpenBrace(s: string)
  {
    forall i | 0 <= i < |s| :: s[i] != '{'
  }

  predicate BraceFree(s: string)
  {
    forall i | 0 <= i < |s| :: s[i] != '{' && s[i] != '}'
  }

  /** Literal text holds no `{`, and placeholder keys hold no brace. */
  predicate WellFormedTemplate(pieces: seq<Piece>)
  {
    forall i | 0 <= i < |pieces| ::
      match pieces[i]
      case Lit(t) => NoOpenBrace(t)
      case Hole(k) => BraceFree(k)
  }

  /** Keys hold no brace and values no `{`. */
  predicate PlainRow(query: map<string, string>)
  {
    forall k | k in query :: BraceFree(k) && NoOpenBrace(query[k])
  }

  /** No placeholder starts inside text without a `{`. */
  lemma NoPlaceholderIn(a: string, b: string, k: string)
    requires NoOpenBrace(a)
    ensures forall i | 0 <= i < |a| :: !OccursAt(a + b, Placeholder(k), i)
  {
    forall i | 0 <= i < |a|
      ensures !OccursAt(a + b, Placeholder(k), i)
    {
      assert (a + b)[i] == a[i] != '{';
      Mismatch(a + b, Placeholder(k), i, 0);
    }
  }

  /** A pattern does not start at `i` when one of its characters differs. */
  lemma Mismatch(s: string, p: string, i: nat, d: nat)
    requires d < |p| && i + d < |s| && s[i + d] != p[d]
    ensures !OccursAt(s, p, i)
  {
    if i + |p| <= |s| {
      assert s[i..i + |p|][d] == s[i + d];
    }
  }

  /** The placeholder of another key does not contain the placeholder of `k`. */
  lemma OtherPlaceholder(j: string, b: string, k: string)
    requires BraceFree(j) && BraceFree(k) && j != k
    ensures forall i | 0 <= i < |Placeholder(j)| :: !OccursAt(Placeholder(j) + b, Placeholder(k), i)
  {
    var s := Placeholder(j) + b;
    var p := Placeholder(k);
    forall i | 0 <= i < |Placeholder(j)|
      ensures !OccursAt(s, p, i)
    {
      if i > 0 {
        assert s[i] == if i <= |j| then j[i - 1] else '}';
        Mismatch(s, p, i, 0);
      } else if |j| < |k| {
        assert s[|j| + 1] == '}' && p[|j| + 1] == k[|j|];
        Mismatch(s, p, 0, |j| + 1);
      } else if |j| > |k| {
        assert s[|k| + 1] == j[|k|] && p[|k| + 1] == '}';
        Mismatch(s, p, 0, |k| + 1);
      } else {
        var n :| 0 <= n < |j| && j[n] != k[n];
        assert s[n + 1] == j[n] && p[n + 1] == k[n];
        Mismatch(s, p, 0, n + 1);
      }
    }
  }

  /** One replacement fills the holes of one key that is not yet filled. */
  lemma {:induction false} ReplaceOneKey(pieces: seq<Piece>, m: map<string, string>, k: string, v: string)
    requires WellFormedTemplate(pieces) && PlainRow(m)
    requires BraceFree(k) && NoOpenBrace(v) && k !in m
    ensures ReplaceAll(Render(pieces, m), Placeholder(k), v) == Render(pieces, m[k := v])
  {
    if |pieces| > 0 {
      var rest := pieces[1..];
      assert WellFormedTemplate(rest) by {
        forall i | 0 <= i < |rest| ensures pieces[i + 1] == rest[i] { }
      }
      ReplaceOneKey(rest, m, k, v);
      var tail := Render(rest, m);
      match pieces[0]
      case Lit(t) =>
        assert NoOpenBrace(t) by { assert pieces[0] == Lit(t); }
        NoPlaceholderIn(t, tail, k);
        ReplaceAllSkipsPrefix(t, tail, Placeholder(k), v);
      case Hole(j) =>
        assert BraceFree(j) by { assert pieces[0] == Hole(j); }
        if j in m {
          NoPlaceholderIn(m[j], tail, k);
          ReplaceAllSkipsPrefix(m[j], tail, Placeholder(k), v);
        } else if j == k {
          ReplaceAllAtStart(tail, Placeholder(k), v);
        } else {
          OtherPlaceholder(j, tail, k);
          ReplaceAllSkipsPrefix(Placeholder(j), tail, Placeholder(k), v);
        }
    }
  }

  /** The row restricted to the keys of `keys`. */
  function Restrict(query: map<string, string>, keys: seq<string>): map<string, string>
  {
    map k | k in query && k in keys :: query[k]
  }

  lemma {:induction false} SubstitutePrefix(pieces: seq<Piece>, order: seq<string>, query: map<string, string>, n: nat)
    requires WellFormedTemplate(pieces) && PlainRow(query) && IsKeyOrder(order, query)
    requires n <= |order|
    ensures Substitute(Render(pieces, map[]), order[..n], query) == Render(pieces, Restrict(query, order[..n]))
  {
    if n == 0 {
      assert Restrict(query, order[..0]) == map[];
    } else {
      var k := order[n - 1];
      SubstitutePrefix(pieces, order, query, n - 1);
      var m := Restrict(query, order[..n - 1]);
      RestrictStep(query, order, n);
      ReplaceOneKey(pieces, m, k, query[k]);
      assert order[..n][..n - 1] == order[..n - 1];
    }
  }

  lemma RestrictStep(query: map<string, string>, order: seq<string>, n: nat)
    requires PlainRow(query) && IsKeyOrder(order, query)
    requires 0 < n <= |order|
    ensures order[n - 1] in query
    ensures PlainRow(Restrict(query, order[..n - 1]))
    ensures order[n - 1] !in Restrict(query, order[..n - 1])
    ensures Restrict(query, order[..n - 1])[order[n - 1] := query[order[n - 1]]] == Restrict(query, order[..n])
  {
    var prefix := order[..n - 1];
    var k := order[n - 1];
    assert order[..n] == prefix + [k];
  }

  /** Expanding a template replaces every placeholder whose key is in the row by
      the key's value and leaves the placeholders of other keys as they are,
      whatever order the keys are visited in. */
  lemma ExpandTemplate(pieces: seq<Piece>, order: seq<string>, query: map<string, string>)
    requires WellFormedTemplate(pieces) && PlainRow(query) && IsKeyOrder(order, query)
    ensures Substitute(Render(pieces, map[]), order, query) == Render(pieces, query)
  {
    SubstitutePrefix(pieces, order, query, |order|);
    assert order[..|order|] == order;
    assert Restrict(query, order) == query;
  }
}
