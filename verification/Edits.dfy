/**
 A mutation as a splice of the file (mutationEdit in internal/engine/engine.go),
 the lines it changes, and what a block inserted above it does to them.
*/
module Edits {
  import opened Sequences
  import opened Wrappers
  import opened LineDiff

  // ----- splitting a file into lines -----

  /** strings.Split(text, "\n"). */
  function SplitAll(text: string): (parts: seq<Line>)
    ensures |parts| > 0
    ensures forall p :: p in parts ==> '\n' !in p.text
  {
    if text == "" then [Line("")] else Prepend(text[0], SplitAll(text[1..]))
  }

  function Prepend(c: char, parts: seq<Line>): (r: seq<Line>)
    requires |parts| > 0
    ensures |r| == |parts| + if c == '\n' then 1 else 0
    ensures (forall p :: p in parts ==> '\n' !in p.text) ==> forall p :: p in r ==> '\n' !in p.text
  {
    if c == '\n' then [Line("")] + parts else [Line([c] + parts[0].text)] + parts[1..]
  }

  /** The lines of a file; a final newline does not start another line. */
  function SplitDiffLines(data: string): seq<Line> {
    if data == "" then []
    else
      var parts := SplitAll(data);
      if data[|data| - 1] == '\n' then parts[..|parts| - 1] else parts
  }

  predicate EndsLine(p: string) {
    p == "" || p[|p| - 1] == '\n'
  }

  /** Taking the first character off a block takes it off its first line. */
  lemma SplitBlockStep(p: string)
    requires |p| > 1 && p[|p| - 1] == '\n'
    ensures |SplitDiffLines(p[1..])| > 0 && SplitDiffLines(p) == Prepend(p[0], SplitDiffLines(p[1..]))
  {
    var tail := p[1..];
    assert tail[|tail| - 1] == '\n';
    LastPartIsEmpty(tail);
    var parts := SplitAll(tail);
    assert SplitAll(p) == Prepend(p[0], parts);
    PrependToInit(p[0], parts);
  }

  lemma PrependToInit(c: char, parts: seq<Line>)
    requires |parts| >= 2
    ensures Prepend(c, parts)[..|Prepend(c, parts)| - 1] == Prepend(c, parts[..|parts| - 1])
  {
  }

  lemma PrependToFirst(c: char, a: seq<Line>, b: seq<Line>)
    requires |a| > 0
    ensures Prepend(c, a + b) == Prepend(c, a) + b
  {
    assert (a + b)[0] == a[0] && (a + b)[1..] == a[1..] + b;
  }

  lemma SplitNewline()
    ensures SplitDiffLines("\n") == [Line("")]
  {
    assert "\n"[1..] == "";
    assert SplitAll("\n") == Prepend('\n', [Line("")]) == [Line(""), Line("")];
  }

  lemma {:induction false} SplitAllAfterBlock(p: string, o: string)
    requires EndsLine(p)
    ensures SplitAll(p + o) == SplitDiffLines(p) + SplitAll(o)
  {
    if p == "" {
      assert p + o == o;
    } else {
      var tail := p[1..];
      assert (p + o)[0] == p[0] && (p + o)[1..] == tail + o;
      assert SplitAll(p + o) == Prepend(p[0], SplitAll(tail + o));
      SplitAllAfterBlock(tail, o);
      if |p| == 1 {
        assert p == "\n" && tail + o == o;
        SplitNewline();
      } else {
        SplitBlockStep(p);
        PrependToFirst(p[0], SplitDiffLines(tail), SplitAll(o));
      }
    }
  }

  /** A newline-terminated block splits into its lines and an empty part. */
  lemma {:induction false} LastPartIsEmpty(p: string)
    requires p != "" && p[|p| - 1] == '\n'
    ensures |SplitAll(p)| >= 2
  {
    if |p| > 1 {
      LastPartIsEmpty(p[1..]);
    }
  }

  lemma SplitAfterBlock(p: string, o: string)
    requires EndsLine(p)
    ensures SplitDiffLines(p + o) == SplitDiffLines(p) + SplitDiffLines(o)
  {
    SplitAllAfterBlock(p, o);
    if o == "" {
      assert p + o == p;
    } else {
      assert (p + o)[|p + o| - 1] == o[|o| - 1];
      var head, tail := SplitDiffLines(p), SplitAll(o);
      assert (head + tail)[..|head + tail| - 1] == head + tail[..|tail| - 1];
    }
  }

  // ----- the splice -----

  datatype Edit = Edit(start: int, end: int, replacement: string)
  {
    predicate Valid(original: string) {
      0 <= start <= end <= |original|
    }

    /** The mutated file, or none for a range outside the file. */
    function Materialize(original: string): Option<string> {
      if !Valid(original) then None
      else Some(original[..start] + replacement + original[end..])
    }

    /** The edit as it stands with `down` more bytes above it. */
    function Shift(down: nat): Edit {
      Edit(start + down, end + down, replacement)
    }
  }

  /** The removed and added lines of an edit. */
  function EditLines(original: string, e: Edit): Option<(seq<Line>, seq<Line>)> {
    match e.Materialize(original)
    case None => None
    case Some(mutated) => Some(ChangedLines(SplitDiffLines(original), SplitDiffLines(mutated)))
  }

  lemma {:induction false} CommonPrefixAfterBlock(p: seq<Line>, b: seq<Line>, a: seq<Line>)
    ensures TrimFront(p + b, p + a) == TrimFront(b, a)
  {
    if p == [] {
      assert p + b == b && p + a == a;
    } else {
      assert (p + b)[1..] == p[1..] + b && (p + a)[1..] == p[1..] + a;
      CommonPrefixAfterBlock(p[1..], b, a);
    }
  }

  lemma ChangedLinesAfterBlock(p: seq<Line>, b: seq<Line>, a: seq<Line>)
    ensures ChangedLines(p + b, p + a) == ChangedLines(b, a)
  {
    CommonPrefixAfterBlock(p, b, a);
  }

  lemma SpliceBelow(p: string, original: string, e: Edit)
    requires e.Valid(original)
    ensures e.Shift(|p|).Materialize(p + original) == Some(p + e.Materialize(original).value)
  {
    assert (p + original)[..e.start + |p|] == p + original[..e.start];
    assert (p + original)[e.end + |p|..] == original[e.end..];
    Assoc(p, original[..e.start], e.replacement);
    Assoc(p, original[..e.start] + e.replacement, original[e.end..]);
  }

  /** Inserting newline-terminated text above an edit changes none of the lines
      it removes or adds, nor whether it is a valid edit. */
  lemma EditLinesSurviveShift(p: string, original: string, e: Edit)
    requires EndsLine(p) && e.start >= 0
    ensures EditLines(p + original, e.Shift(|p|)) == EditLines(original, e)
  {
    if e.Valid(original) {
      var mutated := e.Materialize(original).value;
      SpliceBelow(p, original, e);
      SplitAfterBlock(p, original);
      SplitAfterBlock(p, mutated);
      ChangedLinesAfterBlock(SplitDiffLines(p), SplitDiffLines(original), SplitDiffLines(mutated));
    }
  }
}
