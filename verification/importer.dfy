/** The import tool (app/import/main.go): every scanned CSV file becomes a
    `LOAD CSV` statement named after the file's stem, and the statements are
    submitted to the graph store in one batch when there is at least one. */
module Importer {
  import opened Ingest

  // ---------------------------------------------------------------------------
  // Go's path/filepath on a '/'-separated path
  // ---------------------------------------------------------------------------

  /** The end of `p[..end]` once its trailing slashes are dropped. */
  function TrimEnd(p: string, end: nat): (r: nat)
    requires end <= |p|
    ensures r <= end
    decreases end
  {
    if end == 0 || p[end - 1] != '/' then end else TrimEnd(p, end - 1)
  }

  /** Where the last element of `p[..end]` starts: just after its last slash,
      or at 0 when it has none. */
  function ElementStart(p: string, end: nat): (r: nat)
    requires end <= |p|
    ensures r <= end
    decreases end
  {
    if end == 0 || p[end - 1] == '/' then end else ElementStart(p, end - 1)
  }

  /** `filepath.Base`: "." for the empty path, "/" for a path of slashes only,
      otherwise the last element once trailing slashes are dropped. */
  function Base(p: string): (r: string)
    ensures |r| > 0
  {
    if |p| == 0 then "."
    else
      var end := TrimEnd(p, |p|);
      var start := ElementStart(p, end);
      if start == end then "/" else p[start..end]
  }

  /** Where `filepath.Ext` of `p` starts when it scans back from `j`: at the
      first dot met before a slash, or at the end of `p` when there is none. */
  function ExtStart(p: string, j: nat): (r: nat)
    requires j <= |p|
    ensures r <= |p|
    decreases j
  {
    if j == 0 || p[j - 1] == '/' then |p|
    else if p[j - 1] == '.' then j - 1
    else ExtStart(p, j - 1)
  }

  /** `filepath.Ext`: the suffix of `p` from the last dot of its last element,
      or "" when that element has no dot. */
  function Ext(p: string): string
  {
    p[ExtStart(p, |p|)..]
  }

  /** Only slashes are trimmed, and all of them. */
  lemma {:induction false} TrimEndShape(p: string, end: nat)
    requires end <= |p|
    ensures var r := TrimEnd(p, end);
      && (r == 0 || p[r - 1] != '/')
      && forall i | r <= i < end :: p[i] == '/'
    decreases end
  {
    if end > 0 && p[end - 1] == '/' {
      TrimEndShape(p, end - 1);
    }
  }

  /** The last element holds no slash and starts right after one, or at the
      start of `p`. */
  lemma {:induction false} ElementStartShape(p: string, end: nat)
    requires end <= |p|
    ensures var r := ElementStart(p, end);
      && (r == 0 || p[r - 1] == '/')
      && forall i | r <= i < end :: p[i] != '/'
    decreases end
  {
    if end > 0 && p[end - 1] != '/' {
      ElementStartShape(p, end - 1);
    }
  }

  /** The base name is "/" or holds no slash, and a non-empty name without
      slashes is its own base name. */
  lemma BaseShape(p: string)
    ensures Base(p) == "/" || forall i | 0 <= i < |Base(p)| :: Base(p)[i] != '/'
    ensures |p| > 0 && (forall i | 0 <= i < |p| :: p[i] != '/') ==> Base(p) == p
  {
    if |p| > 0 {
      var end := TrimEnd(p, |p|);
      TrimEndShape(p, |p|);
      ElementStartShape(p, end);
      if forall i | 0 <= i < |p| :: p[i] != '/' {
        assert end == |p|;
        assert ElementStart(p, end) == 0;
      }
    }
  }

  /** The extension is "" exactly when the last element of `p[..j]` has no
      dot; otherwise it starts at that element's last dot. */
  lemma {:induction false} ExtStartShape(p: string, j: nat)
    requires j <= |p|
    ensures var r := ExtStart(p, j);
      && (r == |p| <==> forall i | ElementStart(p, j) <= i < j :: p[i] != '.')
      && (r < |p| ==> ElementStart(p, j) <= r < j && p[r] == '.' && forall i | r < i < j :: p[i] != '.' && p[i] != '/')
    decreases j
  {
    if j > 0 && p[j - 1] != '/' && p[j - 1] != '.' {
      ExtStartShape(p, j - 1);
    }
  }

  /** The extension of a name: "" or a dot followed by no other dot and no
      slash. */
  lemma ExtShape(p: string)
    ensures Ext(p) == "" <==> forall i | ElementStart(p, |p|) <= i < |p| :: p[i] != '.'
    ensures Ext(p) != "" ==> Ext(p)[0] == '.' && forall i | 1 <= i < |Ext(p)| :: Ext(p)[i] != '.' && Ext(p)[i] != '/'
  {
    ExtStartShape(p, |p|);
    var r := ExtStart(p, |p|);
    if r < |p| {
      assert forall i | 1 <= i < |Ext(p)| :: Ext(p)[i] == p[r + i];
    }
  }

  /** `strings.TrimSuffix`. */
  function TrimSuffix(s: string, suffix: string): (r: string)
    ensures |r| <= |s| && r == s[..|r|]
    ensures r + suffix == s || r == s
  {
    if |suffix| <= |s| && s[|s| - |suffix|..] == suffix then s[..|s| - |suffix|] else s
  }

  /** The node label a scanned file is loaded under: its base name up to where
      its extension starts. */
  function Stem(file: string): (r: string)
    ensures |r| <= |Base(file)| && r == Base(file)[..|r|]
  {
    var base := Base(file);
    base[..ExtStart(base, |base|)]
  }

  /** The stem is the base name with its extension trimmed off, which is how the
      import loop computes it, and the two make up the base name again. */
  lemma StemIsTrimmedBase(file: string)
    ensures Stem(file) == TrimSuffix(Base(file), Ext(Base(file)))
    ensures Stem(file) + Ext(Base(file)) == Base(file)
  {
    var base := Base(file);
    TrimOwnSuffix(base, ExtStart(base, |base|));
  }

  /** Trimming a suffix of `s` off `s` leaves the rest of `s`. */
  lemma TrimOwnSuffix(s: string, i: nat)
    requires i <= |s|
    ensures TrimSuffix(s, s[i..]) == s[..i]
    ensures s[..i] + s[i..] == s
  {
    assert s[|s| - |s[i..]|..] == s[i..];
  }

  /** The stem of a nested file with a double extension drops only the last one. */
  lemma StemOfNestedFile()
    ensures Stem("x/a.b.csv") == "a.b"
  {
    var p := "x/a.b.csv";
    assert TrimEnd(p, 9) == 9;
    assert ElementStart(p, 2) == 2;
    assert ElementStart(p, 9) == 2 by {
      assert ElementStart(p, 9) == ElementStart(p, 7);
      assert ElementStart(p, 7) == ElementStart(p, 5);
      assert ElementStart(p, 5) == ElementStart(p, 3);
    }
    var b := "a.b.csv";
    assert Base(p) == b;
    assert ExtStart(b, 7) == 3 by {
      assert ExtStart(b, 7) == ExtStart(b, 5);
    }
  }

  /** A file called just ".csv" has an empty stem. */
  lemma StemOfBareExtension()
    ensures Stem(".csv") == ""
  {
    var p := ".csv";
    assert TrimEnd(p, 4) == 4;
    assert ElementStart(p, 4) == 0 by {
      assert ElementStart(p, 4) == ElementStart(p, 2);
    }
    assert Base(p) == p;
    assert ExtStart(p, 4) == 0 by {
      assert ExtStart(p, 4) == ExtStart(p, 2);
    }
  }

  // ---------------------------------------------------------------------------
  // The statements
  // ---------------------------------------------------------------------------

  const LoadPrefix := "LOAD CSV WITH HEADERS FROM 'file:////"

  /** The statement that loads `path/name.csv` into nodes labelled `name`. */
  function LoadCommand(path: string, name: string): string
  {
    LoadPrefix + path + "/" + name + ".csv' as row MERGE (n:" + name + " {label: row.label}) SET n += row"
  }

  /** Different files under the same directory give different statements. */
  lemma LoadCommandInjective(path: string, n1: string, n2: string)
    requires LoadCommand(path, n1) == LoadCommand(path, n2)
    ensures n1 == n2
  {
    var front := LoadPrefix + path + "/";
    var c1 := SplitCommand(path, n1);
    var c2 := SplitCommand(path, n2);
    assert |n1| == |n2|;
    assert n1 == c1[|front|..|front| + |n1|];
  }

  /** A statement is the directory part, the name, then text whose length
      grows with the name. */
  lemma SplitCommand(path: string, name: string) returns (c: string)
    ensures c == LoadCommand(path, name)
    ensures |c| == |LoadPrefix + path + "/"| + 2 * |name| + |".csv' as row MERGE (n:" + " {label: row.label}) SET n += row"|
    ensures c[|LoadPrefix + path + "/"|..|LoadPrefix + path + "/"| + |name|] == name
  {
    var front := LoadPrefix + path + "/";
    var back := ".csv' as row MERGE (n:" + name + " {label: row.label}) SET n += row";
    c := LoadCommand(path, name);
    assert c == front + name + back;
    assert (front + name + back)[|front|..|front| + |name|] == name;
  }

  /** The name is also the label of the merged nodes: it follows "MERGE (n:"
      in the statement. */
  lemma MergeLabel(path: string, name: string)
    ensures var k := |LoadPrefix + path + "/" + name + ".csv' as row MERGE (n:"|;
      && LoadCommand(path, name)[k - 9..k] == "MERGE (n:"
      && LoadCommand(path, name)[k..k + |name|] == name
  {
    var front := LoadPrefix + path + "/" + name + ".csv' as row MERGE (n:";
    var back := " {label: row.label}) SET n += row";
    var head := LoadPrefix + path + "/" + name + ".csv' as row ";
    assert front == head + "MERGE (n:";
    assert LoadCommand(path, name) == front + name + back;
    assert (front + name + back)[|front| - 9..|front|] == "MERGE (n:";
  }

  /** The stem of every scanned file, in scan order. */
  function Stems(files: seq<string>): (r: seq<string>)
    ensures |r| == |files|
  {
    seq(|files|, i requires 0 <= i < |files| => Stem(files[i]))
  }

  /** The names among `names` that are not empty, in order. */
  function NonEmpty(names: seq<string>): (r: seq<string>)
    ensures |r| <= |names|
    ensures forall k | 0 <= k < |r| :: |r[k]| > 0
    ensures r == [] <==> forall i | 0 <= i < |names| :: |names[i]| == 0
  {
    if |names| == 0 then []
    else
      var n := |names| - 1;
      var init := names[..n];
      assert forall i | 0 <= i < n :: init[i] == names[i];
      NonEmpty(init) + if |names[n]| > 0 then [names[n]] else []
  }

  /** A name is kept exactly when it occurs and is not empty. */
  lemma {:induction false} NonEmptyMembers(names: seq<string>, s: string)
    ensures s in NonEmpty(names) <==> |s| > 0 && s in names
  {
    if |names| > 0 {
      var n := |names| - 1;
      var init := names[..n];
      NonEmptyMembers(init, s);
      NonEmptyStep(names, n);
      assert names[..n + 1] == names;
      assert s in names <==> s in init || s == names[n] by {
        assert names == init + [names[n]];
      }
    }
  }

  /** One more name extends the filtered names by that name when it is not
      empty. */
  lemma NonEmptyStep(names: seq<string>, i: nat)
    requires i < |names|
    ensures NonEmpty(names[..i + 1]) == NonEmpty(names[..i]) + if |names[i]| > 0 then [names[i]] else []
  {
    assert names[..i + 1][..i] == names[..i];
  }

  /** Filtering two batches one after the other keeps the first batch's names
      first: the order of the names is kept. */
  lemma {:induction false} NonEmptyAppend(a: seq<string>, b: seq<string>)
    ensures NonEmpty(a + b) == NonEmpty(a) + NonEmpty(b)
    decreases |b|
  {
    if |b| == 0 {
      assert a + b == a;
    } else {
      var b' := b[..|b| - 1];
      assert (a + b)[..|a + b| - 1] == a + b';
      NonEmptyAppend(a, b');
    }
  }

  lemma StemsAppend(a: seq<string>, b: seq<string>)
    ensures Stems(a + b) == Stems(a) + Stems(b)
  {
    assert forall i | 0 <= i < |a| :: (a + b)[i] == a[i];
    assert forall i | |a| <= i < |a + b| :: (a + b)[i] == b[i - |a|];
  }

  /** The stems loaded for `files`: the non-empty ones, in scan order. */
  function NamedStems(files: seq<string>): seq<string>
  {
    NonEmpty(Stems(files))
  }

  /** A stem is loaded exactly when some scanned file has it and it is not
      empty. */
  lemma NamedStemsMembers(files: seq<string>, s: string)
    ensures s in NamedStems(files) <==> |s| > 0 && exists i | 0 <= i < |files| :: Stem(files[i]) == s
  {
    var names := Stems(files);
    NonEmptyMembers(names, s);
    if s in names {
      var i :| 0 <= i < |names| && names[i] == s;
      assert Stem(files[i]) == s;
    }
    if exists i | 0 <= i < |files| :: Stem(files[i]) == s {
      var i :| 0 <= i < |files| && Stem(files[i]) == s;
      assert names[i] == s;
    }
  }

  /** No statement is built exactly when every scanned file has an empty stem. */
  lemma NothingNamed(files: seq<string>)
    ensures NamedStems(files) == [] <==> forall i | 0 <= i < |files| :: |Stem(files[i])| == 0
  {
    var names := Stems(files);
    if NamedStems(files) == [] {
      forall i | 0 <= i < |files|
        ensures |Stem(files[i])| == 0
      {
        assert |names[i]| == 0;
      }
    }
    if forall i | 0 <= i < |files| :: |Stem(files[i])| == 0 {
      forall i | 0 <= i < |names|
        ensures |names[i]| == 0
      {
        assert |Stem(files[i])| == 0;
      }
    }
  }

  /** Scanning two batches one after the other loads the first batch's files
      first. */
  lemma NamedStemsAppend(a: seq<string>, b: seq<string>)
    ensures NamedStems(a + b) == NamedStems(a) + NamedStems(b)
  {
    StemsAppend(a, b);
    NonEmptyAppend(Stems(a), Stems(b));
  }

  /** The statement for each name, in order. */
  function Commands(path: string, names: seq<string>): (r: seq<string>)
    ensures |r| == |names|
  {
    seq(|names|, k requires 0 <= k < |names| => LoadCommand(path, names[k]))
  }

  lemma CommandsAppend(path: string, names: seq<string>, name: string)
    ensures Commands(path, names + [name]) == Commands(path, names) + [LoadCommand(path, name)]
  {
    assert forall k | 0 <= k < |names| :: (names + [name])[k] == names[k];
  }

  /** The loop over the scanned files: one statement per file whose stem is not
      empty, in scan order. */
  method BuildCommands(path: string, files: seq<string>) returns (commands: seq<string>)
    ensures commands == Commands(path, NamedStems(files))
    ensures |commands| <= |files|
  {
    commands := [];
    for i := 0 to |files|
      invariant commands == Commands(path, NonEmpty(Stems(files)[..i]))
    {
      commands := AddCommand(path, files, i, commands);
    }
    assert Stems(files)[..|files|] == Stems(files);
  }

  /** One turn of the loop: the statement for `files[i]` is appended when its
      stem is not empty. */
  method AddCommand(path: string, files: seq<string>, i: nat, commands: seq<string>) returns (extended: seq<string>)
    requires i < |files|
    requires commands == Commands(path, NonEmpty(Stems(files)[..i]))
    ensures extended == Commands(path, NonEmpty(Stems(files)[..i + 1]))
  {
    var base := Base(files[i]);
    var name := TrimSuffix(base, Ext(base));
    StemIsTrimmedBase(files[i]);
    NonEmptyStep(Stems(files), i);
    extended := commands;
    if |name| > 0 {
      CommandsAppend(path, NonEmpty(Stems(files)[..i]), name);
      extended := commands + [LoadCommand(path, name)];
    }
  }

  // ---------------------------------------------------------------------------
  // Submitting the batch
  // ---------------------------------------------------------------------------

  /** What the tool does with its statements: nothing when there are none;
      otherwise the batch is submitted and either succeeds or ends the process
      with the store's error (`log.Fatal`). */
  datatype ImportOutcome = NothingToRun | Submitted | Failed(error: string)

  /** `main` after the scan. `run` stands for `db.RunTransactions`: the error it
      returns for a batch, if any. */
  method RunImport(path: string, files: seq<string>, run: seq<string> -> Option<string>)
    returns (commands: seq<string>, outcome: ImportOutcome)
    ensures commands == Commands(path, NamedStems(files))
    ensures outcome.NothingToRun? <==> forall i | 0 <= i < |files| :: |Stem(files[i])| == 0
    ensures outcome.Submitted? <==> commands != [] && run(commands).None?
    ensures outcome.Failed? ==> commands != [] && run(commands) == Some(outcome.error)
  {
    commands := BuildCommands(path, files);
    NothingNamed(files);
    outcome := NothingToRun;
    if |commands| > 0 {
      var err := run(commands);
      if err.Some? {
        outcome := Failed(err.value);
      } else {
        outcome := Submitted;
      }
    }
  }
}
