/**
 Edits of Go files whose identity is shared with another edit, or is lost when
 text that the edit does not touch is added: how each of these comes about for
 any file, and one file and edit of a mutator for each.
*/
module LostIdentities {
  import opened Sequences
  import opened Wrappers
  import opened LineDiff
  import opened Edits
  import opened TextBelow
  import opened StableId
  import opened MutantIdentities

  /** An edit inside the whole lines x changes all of them. */
  ghost predicate Rewrites(e: Edit, x: string) {
    && StaysAbove(e, x) && SplitDiffLines(x) != [] && SplitDiffLines(e.Materialize(x).value) != []
    && Disjoint(SplitDiffLines(x), SplitDiffLines(e.Materialize(x).value))
  }

  lemma RewritingDiverges(e: Edit, x: string)
    requires Rewrites(e, x)
    ensures var b, a := SplitDiffLines(x), SplitDiffLines(e.Materialize(x).value); !(b <= a) && !(a <= b)
  {
    var b, a := SplitDiffLines(x), SplitDiffLines(e.Materialize(x).value);
    assert b[0] != a[0];
  }

  /** Whatever stands above and below. */
  lemma RewrittenLines(top: string, x: string, low: string, e: Edit)
    requires EndsLine(top) && Rewrites(e, x)
    ensures EditLines(top + (x + low), e.Shift(|top|)) ==
            Some((SplitDiffLines(x), SplitDiffLines(e.Materialize(x).value)))
  {
    var b, a := SplitDiffLines(x), SplitDiffLines(e.Materialize(x).value);
    EditLinesSurviveShift(top, x + low, e);
    LinesAbove(x, low, e);
    RewritingDiverges(e, x);
    DivergingLinesSurvive(b, a, SplitDiffLines(low));
    DisjointFilesChange(b, a);
  }

  // ----- two edits that share an identity -----

  /** Edits that rewrite different lines, or to different lines, and the lines are
      the same apart from those that read as diff headers. */
  ghost predicate Twins(x: string, y: string, e: Edit, f: Edit) {
    && Rewrites(e, x) && Rewrites(f, y)
    && var x', y' := SplitDiffLines(e.Materialize(x).value), SplitDiffLines(f.Materialize(y).value);
    && (SplitDiffLines(x), x') != (SplitDiffLines(y), y')
    && Visible('-', SplitDiffLines(x)) == Visible('-', SplitDiffLines(y))
    && Visible('+', x') == Visible('+', y')
  }

  /** Two such edits of one file, below any other whole lines, share an identity. */
  lemma HeaderEditsCollide(file: string, name: string, original: string, top: string, x: string, low: string,
                           top': string, y: string, low': string, e: Edit, f: Edit)
    requires original == top + (x + low) == top' + (y + low')
    requires EndsLine(top) && EndsLine(top') && Twins(x, y, e, f)
    ensures ShareId(file, name, original, e.Shift(|top|), f.Shift(|top'|))
  {
    RewrittenLines(top, x, low, e);
    RewrittenLines(top', y, low', f);
    AlikeLinesCollide(file, name, original, e.Shift(|top|), f.Shift(|top'|));
  }

  /** A comparison with a raw string whose second line starts with two minus signs. */
  function Comparison(c: char): string {
    FIRST + "\n" + (Second(c) + "\n" + ("` {" + "\n"))
  }

  const FIRST := "\tif s == `"

  function Second(c: char): string {
    "-- " + [c]
  }

  /** expression/string-literal prints the comparison with an empty string instead. */
  function Emptied(c: char): Edit {
    Edit(4, |Comparison(c)| - 3, "s == \"\"")
  }

  lemma ThreeLines(a: string, b: string, c: string)
    requires '\n' !in a && '\n' !in b && '\n' !in c
    ensures var text := a + "\n" + (b + "\n" + (c + "\n"));
      EndsLine(text) && SplitDiffLines(text) == [Line(a), Line(b), Line(c)]
  {
    SplitLine(a);
    SplitLine(b);
    SplitLine(c);
    SplitAfterBlock(b + "\n", c + "\n");
    SplitAfterBlock(a + "\n", b + "\n" + (c + "\n"));
  }

  lemma ComparisonSplits(c: char)
    requires c != '\n'
    ensures EndsLine(Comparison(c))
    ensures SplitDiffLines(Comparison(c)) == [Line(FIRST), Line(Second(c)), Line("` {")]
  {
    ThreeLines(FIRST, Second(c), "` {");
  }

  lemma EmptiedText(c: char)
    ensures Emptied(c).Materialize(Comparison(c)) == Some("\tif s == \"\" {" + "\n")
  {
    var x := Comparison(c);
    assert x[..4] == "\tif " && x[|x| - 3..] == " {\n";
    assert Emptied(c).Materialize(x).value == x[..4] + "s == \"\"" + x[|x| - 3..];
    assert "\tif " + "s == \"\"" + " {\n" == "\tif s == \"\" {" + "\n";
  }

  lemma EmptiedSplits(c: char)
    requires c != '\n'
    ensures Rewrites(Emptied(c), Comparison(c))
    ensures SplitDiffLines(Emptied(c).Materialize(Comparison(c)).value) == [Line("\tif s == \"\" {")]
  {
    ComparisonSplits(c);
    EmptiedText(c);
    SplitLine("\tif s == \"\" {");
  }

  lemma ComparisonsAlike(a: char, b: char)
    requires a != '\n' && b != '\n' && a != b
    ensures var x, y := SplitDiffLines(Comparison(a)), SplitDiffLines(Comparison(b));
      x != y && Visible('-', x) == Visible('-', y)
  {
    ComparisonSplits(a);
    ComparisonSplits(b);
    SecondLines(a, b);
    OnlyHeadersDiffer(Line(FIRST), Line(Second(a)), Line(Second(b)), Line("` {"));
  }

  lemma SecondLines(a: char, b: char)
    ensures Headed('-', Line(Second(a))) && Headed('-', Line(Second(b))) && (a != b ==> Second(a) != Second(b))
  {
    assert Second(a)[3] == a && Second(b)[3] == b;
  }

  lemma OnlyHeadersDiffer(first: Line, x: Line, y: Line, last: Line)
    requires Headed('-', x) && Headed('-', y)
    ensures Visible('-', [first, x, last]) == Visible('-', [first, y, last])
  {
    assert [first, x, last][1..] == [x, last] && [first, y, last][1..] == [y, last];
    assert [x, last][1..] == [y, last][1..];
  }

  lemma EmptiedAreTwins(a: char, b: char)
    requires a != '\n' && b != '\n' && a != b
    ensures Twins(Comparison(a), Comparison(b), Emptied(a), Emptied(b))
  {
    EmptiedSplits(a);
    EmptiedSplits(b);
    ComparisonsAlike(a, b);
  }

  /** Two such comparisons in a file: the mutants have one identity. */
  lemma ComparisonsCollide(file: string, name: string, original: string, top: string, mid: string, low: string,
                           a: char, b: char)
    requires a != '\n' && b != '\n' && a != b && EndsLine(top) && EndsLine(mid)
    requires original == top + (Comparison(a) + (mid + (Comparison(b) + low)))
    ensures ShareId(file, name, original, Emptied(a).Shift(|top|), Emptied(b).Shift(|top + (Comparison(a) + mid)|))
  {
    ComparisonSplits(a);
    EmptiedAreTwins(a, b);
    BelowBoth(top, Comparison(a), mid, Comparison(b) + low);
    HeaderEditsCollide(file, name, original, top, Comparison(a), mid + (Comparison(b) + low),
                       top + (Comparison(a) + mid), Comparison(b), low, Emptied(a), Emptied(b));
  }

  lemma BelowBoth(top: string, x: string, mid: string, low: string)
    requires EndsLine(top) && EndsLine(x) && EndsLine(mid)
    ensures EndsLine(top + (x + mid)) && top + (x + (mid + low)) == top + (x + mid) + low
  {
    EndsLineBelow(x, mid);
    EndsLineBelow(top, x + mid);
    Assoc(x, mid, low);
    Assoc(top, x + mid, low);
  }

  const FUNCTION := "package p\n\nfunc f(s string) {\n"
  const BLOCK := "\t\tprintln(s)\n\t}\n"

  /** A Go file with the two. */
  lemma GoFileCollides(file: string, name: string)
    ensures ShareId(file, name,
                FUNCTION + (Comparison('a') + (BLOCK + (Comparison('b') + (BLOCK + "}\n")))),
                Emptied('a').Shift(|FUNCTION|), Emptied('b').Shift(|FUNCTION + (Comparison('a') + BLOCK)|))
  {
    ComparisonsCollide(file, name, FUNCTION + (Comparison('a') + (BLOCK + (Comparison('b') + (BLOCK + "}\n")))),
                       FUNCTION, BLOCK, BLOCK + "}\n", 'a', 'b');
  }

  // ----- an identity that passes to lines inserted above -----

  /** An edit of one file has another identity than an edit of another. */
  ghost predicate IdChanges(file: string, name: string, original: string, original': string,
                            edits: seq<Edit>, edits': seq<Edit>, e: Edit, e': Edit)
    requires e.start >= 0 && e.end >= 0 && e'.start >= 0 && e'.end >= 0
  {
    var ids, ids' := Ids(file, name, original, edits), Ids(file, name, original', edits');
    EditKey(e) in ids && EditKey(e') in ids' && ids'[EditKey(e')] != ids[EditKey(e)]
  }

  /** An edit has the same identity in both files. */
  ghost predicate IdStays(file: string, name: string, original: string, original': string,
                          edits: seq<Edit>, edits': seq<Edit>, e: Edit)
    requires e.start >= 0 && e.end >= 0
  {
    var ids, ids' := Ids(file, name, original, edits), Ids(file, name, original', edits');
    EditKey(e) in ids && EditKey(e) in ids' && ids'[EditKey(e)] == ids[EditKey(e)]
  }

  /** When the lines of an edit are repeated above it, with the edit, the edit has
      another identity from then on. */
  lemma RepeatedLinesTakeId(file: string, name: string, top: string, x: string, low: string,
                            above: seq<Edit>, block: seq<Edit>, edits: seq<Edit>, e: Edit)
    requires EndsLine(top) && Rewrites(e, x) && e in edits && e.Shift(|top|) in block
    requires forall d :: d in above ==> d.start < |top|
    requires forall d :: d in block ==> |top| <= d.start < |top + x|
    requires forall d :: d in edits ==> d.start >= 0
    requires SameTextsIn(top + (x + low), top + x + (x + low), above)
    ensures var ids := Ids(file, name, top + (x + low), above + ShiftAll(edits, |top|));
      var ids' := Ids(file, name, top + x + (x + low), above + block + ShiftAll(edits, |top + x|));
      && EditKey(e.Shift(|top|)) in ids && EditKey(e.Shift(|top + x|)) in ids'
      && ids'[EditKey(e.Shift(|top + x|))] != ids[EditKey(e.Shift(|top|))]
  {
    var rest := x + low;
    Assoc(top, x, rest);
    RewrittenLines(top, x, rest, e);
    RewrittenLines(top, x, low, e);
    EditLinesSurviveShift(top, rest, e);
    assert EditLines(top + x + rest, e.Shift(|top|)) == EditLines(rest, e);
    assert e.Shift(|top|).Valid(top + x + rest);
    IdsSurviveInsertionIff(file, name, top, x, rest, above, block, edits, e);
  }

  /** With one edit of its own in both. */
  lemma RepeatedBlockTakesId(file: string, name: string, top: string, x: string, low: string, e: Edit)
    requires EndsLine(top) && Rewrites(e, x) && e.start < |x|
    ensures IdChanges(file, name, top + (x + low), top + x + (x + low), [e.Shift(|top|)],
                      [e.Shift(|top|), e.Shift(|top + x|)], e.Shift(|top|), e.Shift(|top + x|))
  {
    RepeatedLinesTakeId(file, name, top, x, low, [], [e.Shift(|top|)], [e], e);
    OneShifted(e, |top|, |top + x|);
  }

  /** The copy has the identity the edit had. */
  lemma CopyHasId(file: string, name: string, top: string, x: string, low: string, e: Edit)
    requires EndsLine(top) && Rewrites(e, x)
    ensures IdStays(file, name, top + (x + low), top + x + (x + low), [e.Shift(|top|)],
                    [e.Shift(|top|), e.Shift(|top + x|)], e.Shift(|top|))
  {
    RewrittenLines(top, x, low, e);
    RewrittenLines(top, x, x + low, e);
    Assoc(top, x, x + low);
    FirstStays(file, name, top + (x + low), top + x + (x + low), e.Shift(|top|), e.Shift(|top + x|));
  }

  lemma FirstStays(file: string, name: string, original: string, original': string, first: Edit, second: Edit)
    requires first.Valid(original) && EditLines(original', first) == EditLines(original, first)
    ensures IdStays(file, name, original, original', [first], [first, second], first)
  {
    SameLinesSameTexts(original, original', first);
    NoAppend([first]);
    Pair(first, second);
    IdsAboveSurvive(file, name, original, original', [first], [], [second], first);
  }

  lemma SameLinesSameTexts(original: string, original': string, e: Edit)
    requires EditLines(original', e) == EditLines(original, e)
    ensures SameTextsIn(original, original', [e])
  {
  }

  lemma Pair<T>(x: T, y: T)
    ensures [x] + [y] == [x, y]
  {
  }

  lemma OneShifted(e: Edit, down: nat, down': nat)
    ensures [] + ShiftAll([e], down) == [e.Shift(down)]
    ensures [] + [e.Shift(down)] + ShiftAll([e], down') == [e.Shift(down), e.Shift(down')]
  {
  }

  /** An edit inside one line that changes it. */
  lemma LineIsRewritten(p: string, m: string, q: string, r: string)
    requires '\n' !in p && '\n' !in m && '\n' !in q && '\n' !in r && m != r
    ensures Rewrites(Edit(|p|, |p| + |m|, r), p + m + q + "\n")
  {
    var x := p + m + q + "\n";
    assert x[..|p|] == p && x[|p| + |m|..] == q + "\n";
    Assoc(p + r, q, "\n");
    SplitLine(p + m + q);
    SplitLine(p + r + q);
    Assoc(p, m, q);
    Assoc(p, r, q);
    if p + m + q == p + r + q {
      MiddlesDiffer(p, m, r, q);
    }
  }

  lemma MiddlesDiffer(p: string, m: string, r: string, q: string)
    requires p + m + q == p + r + q
    ensures m == r
  {
    assert (p + m + q)[|p|..|p| + |m|] == m && (p + r + q)[|p|..|p| + |r|] == r;
    assert |p + m + q| == |p| + |m| + |q| && |p + r + q| == |p| + |r| + |q|;
  }

  /** numbers/incrementer turns 1 into 2: once the call is repeated, the mutant of
      the second call has a new identity, and that of the first has the old one. */
  lemma RepeatedCallTakesId(file: string, name: string, top: string, low: string)
    requires EndsLine(top)
    ensures var call, e := "\tprintln(" + "1" + ")" + "\n", Edit(9, 10, "2");
      IdChanges(file, name, top + (call + low), top + call + (call + low), [e.Shift(|top|)],
                [e.Shift(|top|), e.Shift(|top + call|)], e.Shift(|top|), e.Shift(|top + call|))
    ensures var call, e := "\tprintln(" + "1" + ")" + "\n", Edit(9, 10, "2");
      IdStays(file, name, top + (call + low), top + call + (call + low), [e.Shift(|top|)],
              [e.Shift(|top|), e.Shift(|top + call|)], e.Shift(|top|))
  {
    LineIsRewritten("\tprintln(", "1", ")", "2");
    CopyHasId(file, name, top, "\tprintln(" + "1" + ")" + "\n", low, Edit(9, 10, "2"));
    RepeatedBlockTakesId(file, name, top, "\tprintln(" + "1" + ")" + "\n", low, Edit(9, 10, "2"));
  }

  // ----- an identity that is lost through lines inserted below -----

  /** The last two whole lines of a text are removed, and the first of the two is
      repeated below: what is removed turns. */
  lemma RepeatedLineTurns(top: string, low: string, again: string, e: Edit, x: Line, y: Line)
    requires StaysAbove(e, top) && SplitDiffLines(top) == SplitDiffLines(e.Materialize(top).value) + [x, y] && x != y
    requires EndsLine(again) && SplitDiffLines(again) == [x]
    requires var lines := SplitDiffLines(low); lines == [] || (lines[0] != x && lines[0] != y)
    ensures EditLines(top + low, e) == Some(([x, y], [])) && EditLines(top + (again + low), e) == Some(([y, x], []))
  {
    var a, s := SplitDiffLines(e.Materialize(top).value), SplitDiffLines(low);
    SplitAfterBlock(again, low);
    TurnedOnce(x, y, s);
    LinesAbove(top, low, e);
    LinesAbove(top, again + low, e);
    RemovedAtEnd(a, [x, y], s);
    RemovedAtEnd(a, [x, y], [x] + s);
  }

  /** The edit has another identity from then on. */
  lemma RepeatedLineBelowLosesId(file: string, name: string, top: string, low: string, again: string,
                                 above: seq<Edit>, below: seq<Edit>, below': seq<Edit>, e: Edit, x: Line, y: Line)
    requires '\0' !in file && '\0' !in name && e in above && StaysAbove(e, top)
    requires SplitDiffLines(top) == SplitDiffLines(e.Materialize(top).value) + [x, y] && x != y
    requires EndsLine(again) && SplitDiffLines(again) == [x]
    requires var lines := SplitDiffLines(low); lines == [] || (lines[0] != x && lines[0] != y)
    requires Plain([x, y], []) && Plain([y, x], [])
    ensures IdChanges(file, name, top + low, top + (again + low), above + below, above + below', e, e)
  {
    RepeatedLineTurns(top, low, again, e, x, y);
    PlainLinesAreVisible(top + low, e);
    PlainLinesAreVisible(top + (again + low), e);
    IdsInFrontSurviveIff(file, name, top + low, top + (again + low), above, below, below', e);
  }

  /** A clause whose statements stand behind an empty line. */
  const CLAUSE := "\tcase 1:" + "\n" + ("" + "\n" + ("\t\tprintln(1)" + "\n"))

  /** branch/case prints the clause without its statements. */
  const EMPTY_CLAUSE := Edit(1, |CLAUSE| - 1, "case 1:")

  lemma ClauseSplits()
    ensures EndsLine(CLAUSE) && StaysAbove(EMPTY_CLAUSE, CLAUSE)
    ensures SplitDiffLines(CLAUSE) ==
            SplitDiffLines(EMPTY_CLAUSE.Materialize(CLAUSE).value) + [Line(""), Line("\t\tprintln(1)")]
  {
    ThreeLines("\tcase 1:", "", "\t\tprintln(1)");
    SplitLine("\tcase 1:");
    assert EMPTY_CLAUSE.Materialize(CLAUSE).value == "\tcase 1:" + "\n";
  }

  lemma RemovedBelow(top: string, x: string, e: Edit, gone: seq<Line>)
    requires EndsLine(top) && StaysAbove(e, x) && SplitDiffLines(x) == SplitDiffLines(e.Materialize(x).value) + gone
    ensures var mutated := e.Shift(|top|).Materialize(top + x);
      StaysAbove(e.Shift(|top|), top + x) && SplitDiffLines(top + x) == SplitDiffLines(mutated.value) + gone
  {
    var mutated := e.Materialize(x).value;
    StaysAboveBelow(top, x, e);
    SplitAfterBlock(top, x);
    SplitAfterBlock(top, mutated);
    Assoc(SplitDiffLines(top), SplitDiffLines(mutated), gone);
  }

  lemma StaysAboveBelow(top: string, x: string, e: Edit)
    requires EndsLine(top) && StaysAbove(e, x)
    ensures StaysAbove(e.Shift(|top|), top + x)
    ensures e.Shift(|top|).Materialize(top + x).value == top + e.Materialize(x).value
  {
    SpliceBelow(top, x, e);
    EndsLineBelow(top, x);
    EndsLineBelow(top, e.Materialize(x).value);
  }

  lemma EndsLineBelow(top: string, x: string)
    requires EndsLine(top) && EndsLine(x)
    ensures EndsLine(top + x)
  {
  }

  /** An empty line in front of the next clause, which starts with its first line:
      the mutant of the clause above has a new identity. */
  lemma EmptyLineBelowLosesId(file: string, name: string, top: string, next: string, low: string)
    requires '\0' !in file && '\0' !in name && EndsLine(top) && '\n' !in next
    requires next != "" && next != "\t\tprintln(1)"
    ensures var e, rest := EMPTY_CLAUSE.Shift(|top|), next + "\n" + low;
      IdChanges(file, name, top + CLAUSE + rest, top + CLAUSE + ("\n" + rest), [e], [e], e, e)
  {
    var e, rest := EMPTY_CLAUSE.Shift(|top|), next + "\n" + low;
    ClauseSplits();
    RemovedBelow(top, CLAUSE, EMPTY_CLAUSE, [Line(""), Line("\t\tprintln(1)")]);
    SplitNewline();
    SplitLine(next);
    SplitAfterBlock(next + "\n", low);
    PlainClause();
    RepeatedLineBelowLosesId(file, name, top + CLAUSE, rest, "\n", [e], [], [], e, Line(""), Line("\t\tprintln(1)"));
    assert [e] + [] == [e];
  }

  lemma PlainClause()
    ensures Plain([Line(""), Line("\t\tprintln(1)")], []) && Plain([Line("\t\tprintln(1)"), Line("")], [])
  {
    PlainPair(Line(""), Line("\t\tprintln(1)"));
    PlainPair(Line("\t\tprintln(1)"), Line(""));
  }

  lemma PlainPair(x: Line, y: Line)
    requires '\n' !in x.text && '\n' !in y.text && '\0' !in x.text && '\0' !in y.text
    requires (x.text == "" || x.text[0] != '-') && (y.text == "" || y.text[0] != '-')
    ensures Plain([x, y], [])
  {
    assert [x, y][1..] == [y] && [y][1..] == [];
    assert Join([y]) == y.text + "\n" + "";
    assert Join([x, y]) == x.text + "\n" + Join([y]);
    assert '\0' !in "\n";
  }
}
