/** String helpers the collector relies on: Go's `strings.Join`, Go's byte-wise
    string order and a sort over it, literal replace-all (the behaviour of
    `regexp.ReplaceAllString` for a pattern without metacharacters) and `%v`
    formatting of a natural number. */
module Text {

  /** `strings.Join`: the parts with `sep` between consecutive ones. */
  function Join(parts: seq<string>, sep: string): string
  {
    if |parts| == 0 then ""
    else if |parts| == 1 then parts[0]
    else parts[0] + sep + Join(parts[1..], sep)
  }

  /** Joining one more part adds the separator and that part at the end. */
  lemma {:induction false} JoinSnoc(parts: seq<string>, x: string, sep: string)
    requires |parts| > 0
    ensures Join(parts + [x], sep) == Join(parts, sep) + sep + x
    decreases |parts|
  {
    var all := parts + [x];
    if |parts| == 1 {
      assert all[1..] == [x];
    } else {
      assert all[1..] == parts[1..] + [x];
      JoinSnoc(parts[1..], x, sep);
    }
  }

  // ---------------------------------------------------------------------------
  // Ordering of strings
  // ---------------------------------------------------------------------------

  /** Go's `a <= b` on strings. Go compares the UTF-8 bytes; Dafny's characters
      are Unicode scalar values, whose order is the order of their UTF-8 encodings. */
  predicate LexLe(a: string, b: string)
  {
    |a| == 0 || (|b| > 0 && (a[0] < b[0] || (a[0] == b[0] && LexLe(a[1..], b[1..]))))
  }

  lemma {:induction false} LexLeReflexive(a: string)
    ensures LexLe(a, a)
  {
    if |a| > 0 {
      LexLeReflexive(a[1..]);
    }
  }

  lemma {:induction false} LexLeTotal(a: string, b: string)
    ensures LexLe(a, b) || LexLe(b, a)
  {
    if |a| > 0 && |b| > 0 && a[0] == b[0] {
      LexLeTotal(a[1..], b[1..]);
    }
  }

  lemma {:induction false} LexLeAntisymmetric(a: string, b: string)
    requires LexLe(a, b) && LexLe(b, a)
    ensures a == b
  {
    if |a| > 0 && |b| > 0 {
      LexLeAntisymmetric(a[1..], b[1..]);
      assert a == [a[0]] + a[1..] && b == [b[0]] + b[1..];
    }
  }

  lemma {:induction false} LexLeTransitive(a: string, b: string, c: string)
    requires LexLe(a, b) && LexLe(b, c)
    ensures LexLe(a, c)
  {
    if |a| > 0 && a[0] == b[0] && b[0] == c[0] {
      LexLeTransitive(a[1..], b[1..], c[1..]);
    }
  }

  /** Ascending in Go's string order (duplicates allowed). */
  ghost predicate Sorted(s: seq<string>)
  {
    forall i, j | 0 <= i < j < |s| :: LexLe(s[i], s[j])
  }

  lemma SortedCons(x: string, s: seq<string>)
    requires Sorted(s)
    requires |s| > 0 ==> LexLe(x, s[0])
    ensures Sorted([x] + s)
  {
    forall i, j | 0 <= i < j < |[x] + s|
      ensures LexLe(([x] + s)[i], ([x] + s)[j])
    {
      if i == 0 && j > 1 {
        LexLeTransitive(x, s[0], s[j - 1]);
      }
    }
  }

  /** Inserts `x` into an ascending sequence. */
  function Insert(x: string, s: seq<string>): (r: seq<string>)
    requires Sorted(s)
    ensures Sorted(r)
    ensures multiset(r) == multiset(s) + multiset{x}
  {
    if |s| == 0 then
      [x]
    else if LexLe(x, s[0]) then
      SortedCons(x, s);
      assert s == [s[0]] + s[1..];
      [x] + s
    else
      LexLeTotal(x, s[0]);
      var t := Insert(x, s[1..]);
      assert s == [s[0]] + s[1..];
      assert LexLe(s[0], t[0]) by {
        assert t[0] in multiset(t);
        if t[0] != x {
          assert t[0] in s[1..];
          var j :| 0 <= j < |s[1..]| && s[1..][j] == t[0];
          assert s[j + 1] == t[0];
        }
      }
      SortedCons(s[0], t);
      [s[0]] + t
  }

  /** The strings of `s` in ascending order: the role `sort.Slice` plays in the
      collector. */
  function Sort(s: seq<string>): (r: seq<string>)
    ensures Sorted(r)
    ensures multiset(r) == multiset(s)
  {
    if |s| == 0 then []
    else
      assert s == [s[0]] + s[1..];
      Insert(s[0], Sort(s[1..]))
  }

  /** An ascending arrangement of a multiset of strings is unique: whatever order
      the strings came in, sorting them gives one and the same sequence. */
  lemma {:induction false} SortedUnique(a: seq<string>, b: seq<string>)
    requires Sorted(a) && Sorted(b)
    requires multiset(a) == multiset(b)
    ensures a == b
  {
    assert |a| == |multiset(a)| == |multiset(b)| == |b|;
    if |a| > 0 {
      SortedHeadIsLeast(b, a[0]);
      SortedHeadIsLeast(a, b[0]);
      LexLeAntisymmetric(a[0], b[0]);
      DropHead(a);
      DropHead(b);
      SortedUnique(a[1..], b[1..]);
      assert a == [a[0]] + a[1..] && b == [b[0]] + b[1..];
    }
  }

  lemma SortedHeadIsLeast(s: seq<string>, x: string)
    requires Sorted(s) && x in multiset(s)
    ensures |s| > 0 && LexLe(s[0], x)
  {
    var j :| 0 <= j < |s| && s[j] == x;
    if j == 0 { LexLeReflexive(x); }
  }

  lemma DropHead(s: seq<string>)
    requires |s| > 0
    ensures multiset(s[1..]) == multiset(s) - multiset{s[0]}
    ensures Sorted(s) ==> Sorted(s[1..])
  {
    assert s == [s[0]] + s[1..];
  }

  // ---------------------------------------------------------------------------
  // Literal replace-all
  // ---------------------------------------------------------------------------

  /** `p` occurs in `s` starting at index `i`. */
  predicate OccursAt(s: string, p: string, i: nat)
  {
    i + |p| <= |s| && s[i..i + |p|] == p
  }

  /** Replaces every occurrence of `p` in `s` by `r`, scanning left to right; an
      occurrence is taken at the leftmost place it starts, scanning resumes after
      it, and replacement text is never scanned again. */
  function ReplaceAll(s: string, p: string, r: string): string
    requires |p| > 0
    decreases |s|
  {
    if |s| < |p| then s
    else if s[..|p|] == p then r + ReplaceAll(s[|p|..], p, r)
    else [s[0]] + ReplaceAll(s[1..], p, r)
  }

  /** Text in front of which no occurrence of `p` starts passes through unchanged. */
  lemma {:induction false} ReplaceAllSkipsPrefix(a: string, b: string, p: string, r: string)
    requires |p| > 0
    requires forall i | 0 <= i < |a| :: !OccursAt(a + b, p, i)
    ensures ReplaceAll(a + b, p, r) == a + ReplaceAll(b, p, r)
    decreases |a|
  {
    if |a| > 0 {
      var s := a + b;
      var a' := a[1..];
      assert s[1..] == a' + b;
      if |s| >= |p| {
        assert s == [a[0]] + (a' + b);
        assert !OccursAt(s, p, 0);
        assert s[..|p|] != p;
        forall i | 0 <= i < |a'|
          ensures !OccursAt(a' + b, p, i)
        {
          OccursShift(a[0], a' + b, p, i);
        }
        ReplaceAllSkipsPrefix(a', b, p, r);
        calc {
          ReplaceAll(s, p, r);
          [s[0]] + ReplaceAll(a' + b, p, r);
          [a[0]] + (a' + ReplaceAll(b, p, r));
          { assert a == [a[0]] + a'; }
          a + ReplaceAll(b, p, r);
        }
      } else {
        assert ReplaceAll(s, p, r) == s;
        assert ReplaceAll(b, p, r) == b;
      }
    } else {
      assert a + b == b;
    }
  }

  lemma OccursShift(c: char, s: string, p: string, i: nat)
    ensures OccursAt([c] + s, p, i + 1) == OccursAt(s, p, i)
  {
    if i + |p| <= |s| {
      assert ([c] + s)[i + 1..i + 1 + |p|] == s[i..i + |p|];
    }
  }

  /** An occurrence at the very start is replaced and scanning resumes after it. */
  lemma ReplaceAllAtStart(b: string, p: string, r: string)
    requires |p| > 0
    ensures ReplaceAll(p + b, p, r) == r + ReplaceAll(b, p, r)
  {
    assert (p + b)[..|p|] == p;
    assert (p + b)[|p|..] == b;
  }

  /** A string in which `p` does not occur is left untouched. */
  lemma ReplaceAllAbsent(s: string, p: string, r: string)
    requires |p| > 0
    requires forall i | 0 <= i < |s| :: !OccursAt(s, p, i)
    ensures ReplaceAll(s, p, r) == s
  {
    assert s + [] == s;
    ReplaceAllSkipsPrefix(s, [], p, r);
  }

  // ---------------------------------------------------------------------------
  // Decimal formatting
  // ---------------------------------------------------------------------------

  function DigitChar(d: nat): char
    requires d < 10
  {
    (48 + d) as char
  }

  /** `fmt.Sprintf("%v", n)` for a natural number. */
  function NatToString(n: nat): (r: string)
    ensures |r| > 0
    ensures forall i | 0 <= i < |r| :: '0' <= r[i] <= '9'
  {
    if n < 10 then [DigitChar(n)] else NatToString(n / 10) + [DigitChar(n % 10)]
  }

  /** Reads back a string of decimal digits. */
  function ParseDecimal(s: string): nat
  {
    if |s| == 0 then 0
    else
      var d := s[|s| - 1] as int - 48;
      ParseDecimal(s[..|s| - 1]) * 10 + (if 0 <= d < 10 then d else 0)
  }

  /** Formatting a number in decimal and reading it back gives the number. */
  lemma {:induction false} NatToStringRoundTrip(n: nat)
    ensures ParseDecimal(NatToString(n)) == n
  {
    var s := NatToString(n);
    if n >= 10 {
      NatToStringRoundTrip(n / 10);
      assert s[..|s| - 1] == NatToString(n / 10);
    }
  }

  /** Different numbers are formatted differently. */
  lemma NatToStringInjective(m: nat, n: nat)
    requires NatToString(m) == NatToString(n)
    ensures m == n
  {
    NatToStringRoundTrip(m);
    NatToStringRoundTrip(n);
  }
}
