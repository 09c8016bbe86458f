/**
 What text below an edit does to the lines it changes. changedLines trims common
 leading lines first, so lines below can be trimmed together with changed ones.
*/
module TextBelow {
  import opened Sequences
  import opened Wrappers
  import opened LineDiff
  import opened Edits

  // ----- trimming -----

  lemma {:induction false} CommonPrefixIs(b: seq<Line>, a: seq<Line>, n: nat)
    requires n <= |b| && n <= |a| && forall k :: 0 <= k < n ==> b[k] == a[k]
    requires n < |b| && n < |a| ==> b[n] != a[n]
    ensures CommonPrefix(b, a) == n
  {
    if n > 0 {
      CommonPrefixIs(b[1..], a[1..], n - 1);
    }
  }

  /** Common lines at the end are trimmed off. */
  lemma {:induction false} TrimBackOfSuffixed(b: seq<Line>, a: seq<Line>, s: seq<Line>)
    ensures TrimBack(b + s, a + s) == TrimBack(b, a)
  {
    if s == [] {
      NoAppend(b);
      NoAppend(a);
    } else {
      var k := |s| - 1;
      assert (b + s)[..|b + s| - 1] == b + s[..k] && (a + s)[..|a + s| - 1] == a + s[..k];
      TrimBackStep(b + s, a + s);
      TrimBackOfSuffixed(b, a, s[..k]);
    }
  }

  /** What is left of both files after trimming decides the changed lines. */
  lemma SameTrimSameLines(b: seq<Line>, a: seq<Line>, b': seq<Line>, a': seq<Line>)
    requires var (x, y) := TrimFront(b, a); var (x', y') := TrimFront(b', a'); TrimBack(x, y) == TrimBack(x', y')
    ensures ChangedLines(b, a) == ChangedLines(b', a')
  {
  }

  // ----- files that diverge -----

  /** When neither file is the start of the other, lines below change nothing. */
  lemma DivergingLinesSurvive(b: seq<Line>, a: seq<Line>, s: seq<Line>)
    requires !(b <= a) && !(a <= b)
    ensures ChangedLines(b + s, a + s) == ChangedLines(b, a)
  {
    DivergingFrontStays(b, a, s);
    var c := CommonPrefix(b, a);
    TrimBackOfSuffixed(b[c..], a[c..], s);
    SameTrimSameLines(b + s, a + s, b, a);
  }

  lemma DivergingFrontStays(b: seq<Line>, a: seq<Line>, s: seq<Line>)
    requires !(b <= a) && !(a <= b)
    ensures var c := CommonPrefix(b, a);
      TrimFront(b + s, a + s) == (b[c..] + s, a[c..] + s) && TrimFront(b, a) == (b[c..], a[c..])
  {
    var c := CommonPrefix(b, a);
    DivergesAt(b, a);
    CommonPrefixIs(b + s, a + s, c);
    DropAppend(b, s, c);
    DropAppend(a, s, c);
  }

  lemma DivergesAt(b: seq<Line>, a: seq<Line>)
    requires !(b <= a) && !(a <= b)
    ensures var c := CommonPrefix(b, a); c < |b| && c < |a| && b[c] != a[c]
  {
    var c := CommonPrefix(b, a);
    CommonPrefixStops(b, a);
    assert b[..c] == a[..c];
  }

  // ----- files that only grow or shrink at the end -----

  /** The first line moved to the end, n times. */
  function Rotate(x: seq<Line>, n: nat): (r: seq<Line>)
    ensures |r| == |x|
  {
    if n == 0 || x == [] then x else var y := Rotate(x, n - 1); y[1..] + [y[0]]
  }

  /** What the lines x become when the lines s follow them: as many leading lines
      are trimmed as s and x + s have in common. */
  function Turned(x: seq<Line>, s: seq<Line>): (r: seq<Line>)
    ensures |r| == |x|
  {
    Rotate(x, CommonPrefix(s, x + s))
  }

  lemma {:induction false} WindowIsRotated(x: seq<Line>, s: seq<Line>, k: nat)
    requires k <= |s| && forall i :: 0 <= i < k ==> s[i] == (x + s)[i]
    ensures (x + s)[k..k + |x|] == Rotate(x, k)
  {
    if k == 0 {
      assert (x + s)[..|x|] == x;
    } else {
      WindowIsRotated(x, s, k - 1);
      if x != [] {
        var w := (x + s)[k - 1..k - 1 + |x|];
        assert w[0] == (x + s)[k - 1] == s[k - 1] == (x + s)[k - 1 + |x|];
        assert (x + s)[k..k + |x|] == w[1..] + [w[0]];
      }
    }
  }

  /** Where the lines s are after x, and what is in front of them. */
  lemma TurnedInFront(x: seq<Line>, s: seq<Line>)
    ensures var c := CommonPrefix(s, x + s);
      (x + s)[c..] == Turned(x, s) + s[c..] && s[c..] == [] + s[c..]
  {
    var c := CommonPrefix(s, x + s);
    WindowIsRotated(x, s, c);
    assert (x + s)[c..] == (x + s)[c..c + |x|] + (x + s)[c + |x|..];
    assert (x + s)[c + |x|..] == s[c..];
  }

  lemma InsertionTurns(x: seq<Line>, s: seq<Line>)
    ensures ChangedLines(s, x + s) == ([], Turned(x, s))
  {
    var c := CommonPrefix(s, x + s);
    TurnedInFront(x, s);
    TrimBackOfSuffixed([], Turned(x, s), s[c..]);
    SameTrimSameLines(s, x + s, [], Turned(x, s));
    ChangedLinesOfInsertion(Turned(x, s));
  }

  lemma RemovalTurns(x: seq<Line>, s: seq<Line>)
    ensures ChangedLines(x + s, s) == (Turned(x, s), [])
  {
    var c := CommonPrefix(s, x + s);
    CommonPrefixStops(s, x + s);
    CommonPrefixIs(x + s, s, c);
    TurnedInFront(x, s);
    TrimBackOfSuffixed(Turned(x, s), [], s[c..]);
    SameTrimSameLines(x + s, s, Turned(x, s), []);
    ChangedLinesOfRemoval(Turned(x, s));
  }

  lemma ChangedLinesOfInsertion(x: seq<Line>)
    ensures ChangedLines([], x) == ([], x)
  {
    assert Trim([], x).a == x;
    DiffAtEnd([], x);
  }

  lemma ChangedLinesOfRemoval(x: seq<Line>)
    ensures ChangedLines(x, []) == (x, [])
  {
    assert Trim(x, []).b == x;
    DiffAtEnd(x, []);
  }

  // ----- exactly when the changed lines survive -----

  /** Neither file is the start of the other, or what the longer one has more
      turns the same way above s and above s'. */
  predicate SameAbove(b: seq<Line>, a: seq<Line>, s: seq<Line>, s': seq<Line>) {
    && (b <= a ==> Turned(a[|b|..], s) == Turned(a[|b|..], s'))
    && (a <= b ==> Turned(b[|a|..], s) == Turned(b[|a|..], s'))
  }

  /** Other lines below two files leave the changed lines alone exactly then. */
  lemma ChangedLinesSurviveBelowIff(b: seq<Line>, a: seq<Line>, s: seq<Line>, s': seq<Line>)
    ensures ChangedLines(b + s, a + s) == ChangedLines(b + s', a + s') <==> SameAbove(b, a, s, s')
  {
    LinesWithBelow(b, a, s);
    LinesWithBelow(b, a, s');
  }

  lemma LinesWithBelow(b: seq<Line>, a: seq<Line>, s: seq<Line>)
    ensures b <= a ==> ChangedLines(b + s, a + s) == ([], Turned(a[|b|..], s))
    ensures a <= b ==> ChangedLines(b + s, a + s) == (Turned(b[|a|..], s), [])
    ensures !(b <= a) && !(a <= b) ==> ChangedLines(b + s, a + s) == ChangedLines(b, a)
  {
    if b <= a {
      InsertedAtEnd(b, a[|b|..], s);
      assert b + a[|b|..] == a;
    }
    if a <= b {
      RemovedAtEnd(a, b[|a|..], s);
      assert a + b[|a|..] == b;
    }
    if !(b <= a) && !(a <= b) {
      DivergingLinesSurvive(b, a, s);
    }
  }

  lemma InsertedAtEnd(b: seq<Line>, x: seq<Line>, s: seq<Line>)
    ensures ChangedLines(b + s, b + x + s) == ([], Turned(x, s))
  {
    Assoc(b, x, s);
    ChangedLinesAfterBlock(b, s, x + s);
    InsertionTurns(x, s);
  }

  lemma RemovedAtEnd(a: seq<Line>, x: seq<Line>, s: seq<Line>)
    ensures ChangedLines(a + x + s, a + s) == (Turned(x, s), [])
  {
    Assoc(a, x, s);
    ChangedLinesAfterBlock(a, x + s, s);
    RemovalTurns(x, s);
  }

  /** With nothing below, nothing turns: lines appended to two files leave the
      changed lines alone exactly when neither file is the start of the other or
      what the longer one has more is its own rotation. */
  lemma AppendedLinesSurviveIff(b: seq<Line>, a: seq<Line>, s: seq<Line>)
    ensures ChangedLines(b + s, a + s) == ChangedLines(b, a) <==>
      (b <= a ==> Turned(a[|b|..], s) == a[|b|..]) && (a <= b ==> Turned(b[|a|..], s) == b[|a|..])
  {
    ChangedLinesSurviveBelowIff(b, a, s, []);
    NoAppend(b);
    NoAppend(a);
  }

  // ----- the same for edits of a file -----

  /** The edited text keeps its final newline. */
  predicate StaysAbove(e: Edit, top: string) {
    e.Valid(top) && EndsLine(top) && EndsLine(e.Materialize(top).value)
  }

  lemma LinesAbove(top: string, below: string, e: Edit)
    requires StaysAbove(e, top)
    ensures var b, a := SplitDiffLines(top), SplitDiffLines(e.Materialize(top).value);
      EditLines(top + below, e) == Some(ChangedLines(b + SplitDiffLines(below), a + SplitDiffLines(below)))
  {
    var mutated := e.Materialize(top).value;
    assert (top + below)[..e.start] == top[..e.start] && (top + below)[e.end..] == top[e.end..] + below;
    assert e.Materialize(top + below).value == mutated + below;
    SplitAfterBlock(top, below);
    SplitAfterBlock(mutated, below);
  }

  /** An edit inside whole lines keeps the lines it removes and adds, whatever the
      text below becomes, exactly when they turn the same way above both texts. */
  lemma EditLinesSurviveBelowIff(top: string, below: string, below': string, e: Edit)
    requires StaysAbove(e, top)
    ensures EditLines(top + below, e) == EditLines(top + below', e) <==>
      SameAbove(SplitDiffLines(top), SplitDiffLines(e.Materialize(top).value), SplitDiffLines(below),
          SplitDiffLines(below'))
  {
    LinesAbove(top, below, e);
    LinesAbove(top, below', e);
    ChangedLinesSurviveBelowIff(SplitDiffLines(top), SplitDiffLines(e.Materialize(top).value),
                                SplitDiffLines(below), SplitDiffLines(below'));
  }

  /** Two different lines turn when what follows them starts with the first again. */
  lemma TurnedOnce(x: Line, y: Line, s: seq<Line>)
    requires x != y
    ensures (s == [] || s[0] != x) ==> Turned([x, y], s) == [x, y]
    ensures (s == [] || s[0] != y) ==> Turned([x, y], [x] + s) == [y, x]
  {
    if s == [] || s[0] != x {
      CommonPrefixIs(s, [x, y] + s, 0);
    }
    if s == [] || s[0] != y {
      CommonPrefixIs([x] + s, [x, y] + ([x] + s), 1);
      assert Rotate([x, y], 0) == [x, y];
    }
  }
}
