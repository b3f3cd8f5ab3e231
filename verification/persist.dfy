/** The write stage, the per-entry body of `DBTransaction` (app/collector/assets.go
    and app/collector/main.go): an entry that was fetched without error is turned
    into a sequence of graph-node writes, one per row of every group of its
    collection, or a single write for an ungrouped collection with more than one
    tag; the entry's `dbError` ends as the result of the last write. */
module Persist {
  import opened Text
  import opened Ingest

  /** One `db.PutNode(session, nodeLabel, id, properties)` call. */
  datatype NodeWrite = NodeWrite(nodeLabel: string, id: string, properties: seq<Tag>)

  /** `db_response`: the row's properties as tags, in the order the `range` over
      the map visits the keys of `order`. */
  function PropertyTags(props: map<string, string>, order: seq<string>): (r: seq<Tag>)
    ensures |r| == |order|
    ensures forall i {:trigger r[i]} | 0 <= i < |order| :: r[i] == Tag(order[i], Lookup(props, order[i]))
  {
    if |order| == 0 then []
    else
      var k := order[|order| - 1];
      PropertyTags(props, order[..|order| - 1]) + [Tag(k, Lookup(props, k))]
  }

  /** Visiting the keys of a row in any iteration order, the property tags are
      exactly the row's (key, value) pairs. */
  lemma PropertyTagsArePairs(props: map<string, string>, order: seq<string>)
    requires IsKeyOrder(order, props)
    ensures forall k, v :: Tag(k, v) in PropertyTags(props, order) <==> k in props && props[k] == v
  {
    var r := PropertyTags(props, order);
    forall k, v
      ensures Tag(k, v) in r <==> k in props && props[k] == v
    {
      if Tag(k, v) in r {
        var i :| 0 <= i < |r| && r[i] == Tag(k, v);
        assert order[i] in order;
      }
      if k in props && props[k] == v {
        assert k in order;
        var i :| 0 <= i < |order| && order[i] == k;
        assert r[i] == Tag(k, v);
      }
    }
  }

  /** The node label a group's rows are written under. The assets.go copy
      suffixes the bucket with a non-empty group name; the main.go copy computes
      the same suffixed name but writes under the bare bucket. */
  function GroupLabel(variant: Variant, bucket: string, name: string): string
  {
    if variant == Assets && |name| > 0 then bucket + "_" + name else bucket
  }

  /** The id of the `n`-th row of a group: `fmt.Sprintf("%v_%v", rowLabel, n)`. */
  function NodeId(rowLabel: string, n: nat): string
  {
    rowLabel + "_" + NatToString(n)
  }

  /** The writes for the rows of one group, numbered from 1. */
  function RowWrites(nodeLabel: string, rowLabel: string, prefix: seq<Tag>, rows: seq<seq<Tag>>): (r: seq<NodeWrite>)
    ensures |r| == |rows|
    ensures forall n {:trigger r[n]} | 0 <= n < |rows| :: r[n] == NodeWrite(nodeLabel, NodeId(rowLabel, n + 1), prefix + rows[n])
  {
    if |rows| == 0 then []
    else
      RowWrites(nodeLabel, rowLabel, prefix, rows[..|rows| - 1])
        + [NodeWrite(nodeLabel, NodeId(rowLabel, |rows|), prefix + rows[|rows| - 1])]
  }

  /** The number of rows over all groups. */
  function SumRows(groups: seq<Group>): nat
  {
    if |groups| == 0 then 0 else SumRows(groups[..|groups| - 1]) + |groups[|groups| - 1].value|
  }

  /** The writes for all groups, group after group. */
  function GroupedWrites(variant: Variant, bucket: string, rowLabel: string, prefix: seq<Tag>, groups: seq<Group>): (r: seq<NodeWrite>)
    ensures |r| == SumRows(groups)
  {
    if |groups| == 0 then []
    else
      var g := groups[|groups| - 1];
      GroupedWrites(variant, bucket, rowLabel, prefix, groups[..|groups| - 1])
        + RowWrites(GroupLabel(variant, bucket, g.name), rowLabel, prefix, g.value)
  }

  /** The writes `DBTransaction` makes for `entry`, where `base` is the entry's
      property tags. */
  function PlannedWrites(variant: Variant, entry: Pipeline, base: seq<Tag>): (r: seq<NodeWrite>)
    ensures entry.httpError.Some? ==> r == []
    ensures entry.httpError.None? && |entry.collection.buckets| > 0 ==> |r| == SumRows(entry.collection.buckets)
    ensures entry.httpError.None? && |entry.collection.buckets| == 0 ==> (|r| == 1 <==> |entry.collection.tags| > 1)
    ensures |r| <= 1 || |entry.collection.buckets| > 0
  {
    var data := entry.collection;
    if entry.httpError.Some? then []
    else if |data.buckets| > 0 then GroupedWrites(variant, entry.bucket, entry.labelText, base + data.tags, data.buckets)
    else if |data.tags| > 1 then [NodeWrite(entry.bucket, entry.labelText, base + data.tags)]
    else []
  }

  /** The error left by a run of writes: that of the last write, or `initial`
      when there was none. */
  function LastResult(initial: Option<string>, writes: seq<NodeWrite>, put: (nat, NodeWrite) -> Option<string>): Option<string>
  {
    if |writes| == 0 then initial else put(|writes| - 1, writes[|writes| - 1])
  }

  /** The entry as the write stage hands it on: its `dbError` is the result of
      the last of its planned writes. */
  function Written(variant: Variant, entry: Pipeline, order: seq<string>, put: (nat, NodeWrite) -> Option<string>): Pipeline
  {
    entry.(dbError := LastResult(entry.dbError, PlannedWrites(variant, entry, PropertyTags(entry.properties, order)), put))
  }

  /** `DBTransaction` for one entry. `order` is the order the `range` over the
      row's properties visits its keys; `put(i, w)` is the error the graph store
      returns for the `i`-th write `w` (None for success). Also returns the
      writes, in the order they are made. */
  method DBTransaction(variant: Variant, entry: Pipeline, order: seq<string>, put: (nat, NodeWrite) -> Option<string>)
    returns (out: Pipeline, writes: seq<NodeWrite>)
    ensures writes == PlannedWrites(variant, entry, PropertyTags(entry.properties, order))
    ensures out == entry.(dbError := LastResult(entry.dbError, writes, put))
  {
    out := entry;
    writes := [];
    if entry.httpError.None? {
      var dbResponse: seq<Tag> := [];
      for i := 0 to |order|
        invariant dbResponse == PropertyTags(entry.properties, order[..i])
      {
        var k := order[i];
        assert order[..i + 1][..i] == order[..i];
        dbResponse := dbResponse + [Tag(k, Lookup(entry.properties, k))];
      }
      assert order[..|order|] == order;
      var data := entry.collection;
      if |data.buckets| > 0 {
        out, writes := PutGroups(variant, entry, dbResponse + data.tags, put);
      } else if |data.tags| > 1 {
        var properties := dbResponse + data.tags;
        var w := NodeWrite(entry.bucket, entry.labelText, properties);
        writes := writes + [w];
        out := out.(dbError := put(0, w));
      }
    }
  }

  /** The outer loop of `DBTransaction` over the groups of the entry's
      collection; `dbError` stands for the entry's `dbError` field, which every
      write overwrites. */
  method PutGroups(variant: Variant, entry: Pipeline, prefix: seq<Tag>, put: (nat, NodeWrite) -> Option<string>)
    returns (out: Pipeline, writes: seq<NodeWrite>)
    ensures writes == GroupedWrites(variant, entry.bucket, entry.labelText, prefix, entry.collection.buckets)
    ensures out == entry.(dbError := LastResult(entry.dbError, writes, put))
  {
    var groups := entry.collection.buckets;
    var dbError := entry.dbError;
    writes := [];
    for g := 0 to |groups|
      invariant writes == GroupedWrites(variant, entry.bucket, entry.labelText, prefix, groups[..g])
      invariant dbError == LastResult(entry.dbError, writes, put)
    {
      writes, dbError := PutRows(variant, entry, groups[g], prefix, put, writes, dbError);
      GroupStep(variant, entry.bucket, entry.labelText, prefix, groups, g);
    }
    assert groups[..|groups|] == groups;
    out := entry.(dbError := dbError);
  }

  /** The inner loop of `DBTransaction` over the rows of one group, continuing
      the writes `done` made so far. */
  method PutRows(variant: Variant, entry: Pipeline, item: Group, prefix: seq<Tag>, put: (nat, NodeWrite) -> Option<string>,
                 done: seq<NodeWrite>, dbError: Option<string>)
    returns (writes: seq<NodeWrite>, dbErrorAfter: Option<string>)
    requires dbError == LastResult(entry.dbError, done, put)
    ensures writes == done + RowWrites(GroupLabel(variant, entry.bucket, item.name), entry.labelText, prefix, item.value)
    ensures dbErrorAfter == LastResult(entry.dbError, writes, put)
  {
    ghost var target := GroupLabel(variant, entry.bucket, item.name);
    writes := done;
    dbErrorAfter := dbError;
    for n := 0 to |item.value|
      invariant writes == done + RowWrites(target, entry.labelText, prefix, item.value[..n])
      invariant dbErrorAfter == LastResult(entry.dbError, writes, put)
    {
      var properties := prefix + item.value[n];
      var bucket := entry.bucket;
      if |item.name| > 0 {
        bucket := bucket + "_" + item.name;
      }
      var nodeLabel := if variant == Assets then bucket else entry.bucket;
      SuffixedBucket(variant, entry.bucket, item.name, bucket, nodeLabel);
      var w := NodeWrite(nodeLabel, NodeId(entry.labelText, n + 1), properties);
      RowStep(done, writes, w, target, entry.labelText, prefix, item.value, n);
      dbErrorAfter := put(|writes|, w);
      writes := writes + [w];
    }
    assert item.value[..|item.value|] == item.value;
  }

  lemma SuffixedBucket(variant: Variant, b: string, name: string, bucket: string, nodeLabel: string)
    requires bucket == if |name| > 0 then b + "_" + name else b
    requires nodeLabel == if variant == Assets then bucket else b
    ensures nodeLabel == GroupLabel(variant, b, name)
  {
  }

  lemma RowStep(before: seq<NodeWrite>, writes: seq<NodeWrite>, w: NodeWrite,
                nodeLabel: string, rowLabel: string, prefix: seq<Tag>, rows: seq<seq<Tag>>, n: nat)
    requires n < |rows|
    requires writes == before + RowWrites(nodeLabel, rowLabel, prefix, rows[..n])
    requires w == NodeWrite(nodeLabel, NodeId(rowLabel, n + 1), prefix + rows[n])
    ensures writes + [w] == before + RowWrites(nodeLabel, rowLabel, prefix, rows[..n + 1])
  {
    assert rows[..n + 1][..n] == rows[..n];
    var done := RowWrites(nodeLabel, rowLabel, prefix, rows[..n]);
    assert RowWrites(nodeLabel, rowLabel, prefix, rows[..n + 1]) == done + [w];
    assert (before + done) + [w] == before + (done + [w]);
  }

  lemma GroupStep(variant: Variant, bucket: string, rowLabel: string, prefix: seq<Tag>, groups: seq<Group>, g: nat)
    requires g < |groups|
    ensures GroupedWrites(variant, bucket, rowLabel, prefix, groups[..g + 1])
         == GroupedWrites(variant, bucket, rowLabel, prefix, groups[..g])
            + RowWrites(GroupLabel(variant, bucket, groups[g].name), rowLabel, prefix, groups[g].value)
  {
    assert groups[..g + 1][..g] == groups[..g];
  }

  // ---------------------------------------------------------------------------
  // Where each grouped write comes from
  // ---------------------------------------------------------------------------

  /** Writing two runs of groups one after the other gives the writes of the
      first run followed by those of the second. */
  lemma {:induction false} GroupedWritesAppend(variant: Variant, bucket: string, rowLabel: string, prefix: seq<Tag>, xs: seq<Group>, ys: seq<Group>)
    ensures GroupedWrites(variant, bucket, rowLabel, prefix, xs + ys)
         == GroupedWrites(variant, bucket, rowLabel, prefix, xs) + GroupedWrites(variant, bucket, rowLabel, prefix, ys)
    decreases |ys|
  {
    if |ys| == 0 {
      assert xs + ys == xs;
    } else {
      var init, y := ys[..|ys| - 1], ys[|ys| - 1];
      var rows := RowWrites(GroupLabel(variant, bucket, y.name), rowLabel, prefix, y.value);
      assert GroupedWrites(variant, bucket, rowLabel, prefix, xs + ys)
          == GroupedWrites(variant, bucket, rowLabel, prefix, xs + init) + rows by {
        assert (xs + ys)[..|xs + ys| - 1] == xs + init;
        assert (xs + ys)[|xs + ys| - 1] == y;
      }
      var left, mid := GroupedWrites(variant, bucket, rowLabel, prefix, xs), GroupedWrites(variant, bucket, rowLabel, prefix, init);
      assert GroupedWrites(variant, bucket, rowLabel, prefix, ys) == mid + rows by {
        assert ys[..|ys| - 1] == init;
      }
      GroupedWritesAppend(variant, bucket, rowLabel, prefix, xs, init);
      AppendAssociates(left, mid, rows);
    }
  }

  lemma AppendAssociates(a: seq<NodeWrite>, b: seq<NodeWrite>, c: seq<NodeWrite>)
    ensures (a + b) + c == a + (b + c)
  {
  }

  /** The writes come out group by group and, within a group, row by row: the
      `n`-th row of group `g` is written at position SumRows(groups[..g]) + n,
      under the group's label, with id `label_(n+1)` and the prefix followed by
      the row's tags. */
  lemma GroupedWriteAt(variant: Variant, bucket: string, rowLabel: string, prefix: seq<Tag>, groups: seq<Group>, g: nat, n: nat)
    requires g < |groups| && n < |groups[g].value|
    ensures SumRows(groups[..g]) + n < SumRows(groups)
    ensures GroupedWrites(variant, bucket, rowLabel, prefix, groups)[SumRows(groups[..g]) + n]
         == NodeWrite(GroupLabel(variant, bucket, groups[g].name), NodeId(rowLabel, n + 1), prefix + groups[g].value[n])
  {
    var before, after := groups[..g], groups[g + 1..];
    var front := GroupedWrites(variant, bucket, rowLabel, prefix, before);
    var rows := RowWrites(GroupLabel(variant, bucket, groups[g].name), rowLabel, prefix, groups[g].value);
    var back := GroupedWrites(variant, bucket, rowLabel, prefix, after);
    assert GroupedWrites(variant, bucket, rowLabel, prefix, groups) == front + (rows + back) by {
      var one := [groups[g]];
      assert groups == before + (one + after);
      GroupedWritesAppend(variant, bucket, rowLabel, prefix, before, one + after);
      GroupedWritesAppend(variant, bucket, rowLabel, prefix, one, after);
      GroupedWritesOne(variant, bucket, rowLabel, prefix, groups[g]);
    }
    IndexMiddle(front, rows, back, n);
  }

  lemma GroupedWritesOne(variant: Variant, bucket: string, rowLabel: string, prefix: seq<Tag>, group: Group)
    ensures GroupedWrites(variant, bucket, rowLabel, prefix, [group])
         == RowWrites(GroupLabel(variant, bucket, group.name), rowLabel, prefix, group.value)
  {
    assert [group][..0] == [];
  }

  lemma IndexMiddle(front: seq<NodeWrite>, middle: seq<NodeWrite>, back: seq<NodeWrite>, n: nat)
    requires n < |middle|
    ensures (front + (middle + back))[|front| + n] == middle[n]
  {
  }

  /** Every grouped write is made under the label of one of the groups. */
  lemma {:induction false} GroupOfWrite(variant: Variant, bucket: string, rowLabel: string, prefix: seq<Tag>, groups: seq<Group>, i: nat)
    returns (g: nat)
    requires i < |GroupedWrites(variant, bucket, rowLabel, prefix, groups)|
    ensures g < |groups|
    ensures GroupedWrites(variant, bucket, rowLabel, prefix, groups)[i].nodeLabel == GroupLabel(variant, bucket, groups[g].name)
    decreases |groups|
  {
    var last := |groups| - 1;
    var init := groups[..last];
    var front := GroupedWrites(variant, bucket, rowLabel, prefix, init);
    if i < |front| {
      g := GroupOfWrite(variant, bucket, rowLabel, prefix, init, i);
      assert init[g] == groups[g];
    } else {
      g := last;
    }
  }

  /** The main.go copy writes every node under the bare bucket. */
  lemma {:induction false} LegacyWritesUnderBucket(entry: Pipeline, base: seq<Tag>)
    ensures forall i | 0 <= i < |PlannedWrites(Legacy, entry, base)| :: PlannedWrites(Legacy, entry, base)[i].nodeLabel == entry.bucket
  {
    var ws := PlannedWrites(Legacy, entry, base);
    var data := entry.collection;
    if entry.httpError.None? && |data.buckets| > 0 {
      forall i | 0 <= i < |ws|
        ensures ws[i].nodeLabel == entry.bucket
      {
        var g := GroupOfWrite(Legacy, entry.bucket, entry.labelText, base + data.tags, data.buckets, i);
      }
    }
  }

  // ---------------------------------------------------------------------------
  // Distinct nodes
  // ---------------------------------------------------------------------------

  /** No two writes address the same node (same label and same id). */
  predicate DistinctNodes(ws: seq<NodeWrite>)
  {
    forall i, j | 0 <= i < j < |ws| :: ws[i].nodeLabel != ws[j].nodeLabel || ws[i].id != ws[j].id
  }

  lemma NodeIdInjective(rowLabel: string, m: nat, n: nat)
    requires NodeId(rowLabel, m) == NodeId(rowLabel, n)
    ensures m == n
  {
    var p := rowLabel + "_";
    assert NodeId(rowLabel, m)[|p|..] == NatToString(m);
    assert NodeId(rowLabel, n)[|p|..] == NatToString(n);
    NatToStringInjective(m, n);
  }

  /** The rows of one group get distinct ids. */
  lemma RowWritesDistinct(nodeLabel: string, rowLabel: string, prefix: seq<Tag>, rows: seq<seq<Tag>>)
    ensures DistinctNodes(RowWrites(nodeLabel, rowLabel, prefix, rows))
  {
    var ws := RowWrites(nodeLabel, rowLabel, prefix, rows);
    forall i, j | 0 <= i < j < |ws|
      ensures ws[i].nodeLabel != ws[j].nodeLabel || ws[i].id != ws[j].id
    {
      if ws[i].id == ws[j].id {
        NodeIdInjective(rowLabel, i + 1, j + 1);
      }
    }
  }

  /** In the assets.go copy different group names give different labels. */
  lemma GroupLabelInjective(bucket: string, a: string, b: string)
    requires GroupLabel(Assets, bucket, a) == GroupLabel(Assets, bucket, b)
    ensures a == b
  {
    var p := bucket + "_";
    if |a| > 0 && |b| > 0 {
      assert GroupLabel(Assets, bucket, a)[|p|..] == a;
      assert GroupLabel(Assets, bucket, b)[|p|..] == b;
    }
  }

  /** In the assets.go copy, groups with distinct names never write the same
      node twice. */
  lemma {:induction false} AssetsWritesDistinct(bucket: string, rowLabel: string, prefix: seq<Tag>, groups: seq<Group>)
    requires forall i, j | 0 <= i < j < |groups| :: groups[i].name != groups[j].name
    ensures DistinctNodes(GroupedWrites(Assets, bucket, rowLabel, prefix, groups))
    decreases |groups|
  {
    if |groups| > 0 {
      var last := |groups| - 1;
      var init := groups[..last];
      var lastLabel := GroupLabel(Assets, bucket, groups[last].name);
      var front := GroupedWrites(Assets, bucket, rowLabel, prefix, init);
      var back := RowWrites(lastLabel, rowLabel, prefix, groups[last].value);
      assert GroupedWrites(Assets, bucket, rowLabel, prefix, groups) == front + back;
      AssetsWritesDistinct(bucket, rowLabel, prefix, init);
      RowWritesDistinct(lastLabel, rowLabel, prefix, groups[last].value);
      forall i, j | 0 <= i < |front| && 0 <= j < |back|
        ensures front[i].nodeLabel != back[j].nodeLabel || front[i].id != back[j].id
      {
        var g := GroupOfWrite(Assets, bucket, rowLabel, prefix, init, i);
        if front[i].nodeLabel == back[j].nodeLabel {
          GroupLabelInjective(bucket, init[g].name, groups[last].name);
        }
      }
      DistinctAppend(front, back);
    }
  }

  /** Two write lists without repeats, that share no node, concatenate to one
      without repeats. */
  lemma DistinctAppend(front: seq<NodeWrite>, back: seq<NodeWrite>)
    requires DistinctNodes(front) && DistinctNodes(back)
    requires forall i, j | 0 <= i < |front| && 0 <= j < |back| ::
      front[i].nodeLabel != back[j].nodeLabel || front[i].id != back[j].id
    ensures DistinctNodes(front + back)
  {
    var ws := front + back;
    forall i, j | 0 <= i < j < |ws|
      ensures ws[i].nodeLabel != ws[j].nodeLabel || ws[i].id != ws[j].id
    {
      if j < |front| {
        assert ws[i] == front[i] && ws[j] == front[j];
      } else if i < |front| {
        assert ws[i] == front[i] && ws[j] == back[j - |front|];
      } else {
        assert ws[i] == back[i - |front|] && ws[j] == back[j - |front|];
      }
    }
  }

  /** In the main.go copy two groups with one row each write the same node:
      both writes go to the bare bucket with id `label_1`, whatever the group
      names are. */
  lemma LegacyWritesCollide(bucket: string, rowLabel: string, prefix: seq<Tag>, a: Group, b: Group)
    requires |a.value| == 1 && |b.value| == 1
    ensures |GroupedWrites(Legacy, bucket, rowLabel, prefix, [a, b])| == 2
    ensures !DistinctNodes(GroupedWrites(Legacy, bucket, rowLabel, prefix, [a, b]))
  {
    var groups := [a, b];
    GroupedWriteAt(Legacy, bucket, rowLabel, prefix, groups, 0, 0);
    GroupedWriteAt(Legacy, bucket, rowLabel, prefix, groups, 1, 0);
    assert groups[..0] == [] && groups[..1] == [a];
    assert SumRows([a]) == 1 by {
      assert [a][..0] == [];
    }
  }
}
