/**
 internal/parser/diff.go: the original line of the first change of a unified
 diff, from its first hunk. Line numbers are the source's 64-bit integers, so
 verification of this module is also the proof that none of them overflows.
*/
module Hunk {
  import opened Wrappers
  import opened LineDiff
  import opened StableId

  newtype int64 = x: int | -0x8000_0000_0000_0000 <= x < 0x8000_0000_0000_0000

  const MAX_INT64: int64 := 0x7fff_ffff_ffff_ffff

  datatype LineSpan = LineSpan(start: int64, count: int64)

  datatype Header = Header(originalStart: int64, originalCount: int64, newStart: int64, newCount: int64)

  // ----- hunk ranges -----

  predicate AreDigits(s: string) {
    forall k :: 0 <= k < |s| ==> '0' <= s[k] <= '9'
  }

  /** The number a run of digits stands for, of any size. */
  function DigitsValue(digits: string): nat
    requires AreDigits(digits)
  {
    if digits == "" then 0
    else DigitsValue(digits[..|digits| - 1]) * 10 + (digits[|digits| - 1] as int - '0' as int)
  }

  /** strconv.ParseInt on what the header's groups hold: the number, or an error
      where it does not fit the width. */
  function ParseInt(digits: string): Option<int64> {
    if digits == "" || !AreDigits(digits) then None
    else if DigitsValue(digits) > MAX_INT64 as nat then None
    else Some(DigitsValue(digits) as int64)
  }

  function ParseHunkRange(startText: string, countText: string): Option<LineSpan> {
    var start := ParseInt(startText);
    var count := if countText == "" then Some(1) else ParseInt(countText);
    if start.None? || count.None? then None
    else if count.value == 0 then
      if start.value < MAX_INT64 then Some(LineSpan(start.value, 0)) else None
    else if start.value == 0 || count.value - 1 > MAX_INT64 - start.value then None
    else Some(LineSpan(start.value, count.value))
  }

  lemma {:induction false} DecimalValue(n: nat)
    ensures AreDigits(Decimal(n)) && DigitsValue(Decimal(n)) == n
  {
    if n >= 10 {
      var s := Decimal(n);
      assert s[..|s| - 1] == Decimal(n / 10);
      DecimalValue(n / 10);
    } else {
      assert Decimal(n)[..0] == "";
    }
  }

  lemma ParseIntOfDecimal(n: nat)
    ensures ParseInt(Decimal(n)) == if n <= MAX_INT64 as nat then Some(n as int64) else None
  {
    DecimalValue(n);
  }

  /** The lines of a range are numbered from one and the number of the last fits
      the width; an empty range names the line before it, which has a successor. */
  predicate IsLineSpan(start: nat, count: nat) {
    if count == 0 then start < MAX_INT64 as nat else start >= 1 && start + count - 1 <= MAX_INT64 as nat
  }

  /** A range as diff prints it, which leaves out a count of one. */
  function CountText(count: nat, short: bool): string {
    if short then "" else Decimal(count)
  }

  /** A printed range is read back exactly when it is the range of some lines. */
  lemma HunkRangeIsReadBack(start: nat, count: nat, short: bool)
    requires short ==> count == 1
    ensures ParseHunkRange(Decimal(start), CountText(count, short)) ==
            if IsLineSpan(start, count) then Some(LineSpan(start as int64, count as int64)) else None
  {
    ParseIntOfDecimal(start);
    ParseIntOfDecimal(count);
  }

  /** The regular expression's groups of a header line. */
  datatype Groups = Groups(originalStart: string, originalCount: string, newStart: string, newCount: string)

  function ParseHunkHeader(g: Groups): (r: Option<Header>)
    ensures r.Some? ==> ValidHeader(r.value)
  {
    var original, new_ := ParseHunkRange(g.originalStart, g.originalCount), ParseHunkRange(g.newStart, g.newCount);
    if original.None? || new_.None? then None
    else Some(Header(original.value.start, original.value.count, new_.value.start, new_.value.count))
  }

  predicate ValidHeader(h: Header) {
    && 0 <= h.originalStart && 0 <= h.originalCount && IsLineSpan(h.originalStart as nat, h.originalCount as nat)
    && 0 <= h.newStart && 0 <= h.newCount && IsLineSpan(h.newStart as nat, h.newCount as nat)
  }

  // ----- body lines -----

  datatype Action = Action(skip: bool, origDelta: int64, newDelta: int64, changedLine: int64)

  function TrimSuffixCR(s: string): string {
    if s != "" && s[|s| - 1] == '\r' then s[..|s| - 1] else s
  }

  const NO_NEWLINE_TEXT: string := "\\ No newline at end of file"

  function AddLine(start: int64, offset: int64): Option<int64>
    requires start >= 0 && offset >= 0
  {
    if offset > MAX_INT64 - start then None else Some(start + offset)
  }

  function ProcessContext(h: Header, orig: int64, new_: int64): Option<Action> {
    if orig >= h.originalCount || new_ >= h.newCount then None else Some(Action(false, 1, 1, 0))
  }

  function ProcessDeletion(h: Header, orig: int64): Option<Action>
    requires ValidHeader(h) && orig >= 0
  {
    if orig >= h.originalCount then None
    else
      var changed := AddLine(h.originalStart, orig);
      if changed.None? then None else Some(Action(false, 1, 0, changed.value))
  }

  function ProcessAddition(h: Header, orig: int64, new_: int64): Option<Action>
    requires ValidHeader(h) && orig >= 0
  {
    if new_ >= h.newCount then None
    else
      var changed := AddLine(h.originalStart, if h.originalCount == 0 then 1 else orig);
      if changed.None? then None else Some(Action(false, 0, 1, changed.value))
  }

  function ClassifyBodyLine(raw: string, h: Header, orig: int64, new_: int64): Option<Action>
    requires ValidHeader(h) && orig >= 0
  {
    var line := TrimSuffixCR(raw);
    if line == NO_NEWLINE_TEXT then Some(Action(true, 0, 0, 0))
    else if line == "" then None
    else if line[0] == ' ' then ProcessContext(h, orig, new_)
    else if line[0] == '-' then ProcessDeletion(h, orig)
    else if line[0] == '+' then ProcessAddition(h, orig, new_)
    else None
  }

  // ----- the loop over the body -----

  /** How far the hunk is read and its first changed line, zero before one is seen. */
  datatype Progress = Progress(orig: int64, new_: int64, first: int64)

  predicate Within(h: Header, p: Progress) {
    0 <= p.orig <= h.originalCount && 0 <= p.new_ <= h.newCount && p.first >= 0
  }

  predicate Consumed(h: Header, p: Progress) {
    p.orig == h.originalCount && p.new_ == h.newCount
  }

  /** One round of the loop. */
  function ReadLine(raw: string, h: Header, p: Progress): (r: Option<Progress>)
    requires ValidHeader(h) && Within(h, p)
    ensures r.Some? ==> Within(h, r.value)
  {
    var action := ClassifyBodyLine(raw, h, p.orig, p.new_);
    if action.None? then None
    else if action.value.skip then Some(p)
    else
      var first := if p.first == 0 && action.value.changedLine > 0 then action.value.changedLine else p.first;
      Some(Progress(p.orig + action.value.origDelta, p.new_ + action.value.newDelta, first))
  }

  /** What the rest of the body leads to. */
  function ReadBody(body: seq<Line>, h: Header, p: Progress): Option<int64>
    requires ValidHeader(h) && Within(h, p)
    decreases body
  {
    if Consumed(h, p) then if p.first > 0 then Some(p.first) else None
    else if body == [] then None
    else
      var next := ReadLine(body[0].text, h, p);
      if next.None? then None else ReadBody(body[1..], h, next.value)
  }

  const START: Progress := Progress(0, 0, 0)

  method FirstChangedLine(body: seq<Line>, h: Header) returns (r: Option<int64>)
    requires ValidHeader(h)
    ensures r == ReadBody(body, h, START)
  {
    var p := START;
    for i := 0 to |body|
      invariant Within(h, p)
      invariant ReadBody(body[i..], h, p) == ReadBody(body, h, START)
    {
      if Consumed(h, p) {
        return ValidateHunkCounts(h, p);
      }
      assert body[i..][0] == body[i] && body[i..][1..] == body[i + 1..];
      var next := ReadLine(body[i].text, h, p);
      if next.None? {
        return None;
      }
      p := next.value;
    }
    return ValidateHunkCounts(h, p);
  }

  function ValidateHunkCounts(h: Header, p: Progress): Option<int64> {
    if !Consumed(h, p) then None else if p.first > 0 then Some(p.first) else None
  }

  // ----- hunks as diff prints them -----

  datatype HunkOp =
    | Context(text: string)
    | Deletion(text: string)
    | Addition(text: string)
    | NoNewline(cr: bool)

  function PrintOp(op: HunkOp): Line {
    match op
    case Context(t) => Line([' '] + t)
    case Deletion(t) => Line(['-'] + t)
    case Addition(t) => Line(['+'] + t)
    case NoNewline(cr) => Line(NO_NEWLINE_TEXT + if cr then "\r" else "")
  }

  function PrintOps(ops: seq<HunkOp>): seq<Line> {
    seq(|ops|, i requires 0 <= i < |ops| => PrintOp(ops[i]))
  }

  function OriginalLines(ops: seq<HunkOp>): nat {
    if ops == [] then 0 else (if ops[0].Context? || ops[0].Deletion? then 1 else 0) + OriginalLines(ops[1..])
  }

  function NewLines(ops: seq<HunkOp>): nat {
    if ops == [] then 0 else (if ops[0].Context? || ops[0].Addition? then 1 else 0) + NewLines(ops[1..])
  }

  predicate IsChange(op: HunkOp) {
    op.Deletion? || op.Addition?
  }

  predicate HasChange(ops: seq<HunkOp>) {
    exists op :: op in ops && IsChange(op)
  }

  /** The context lines above the first change. */
  function LeadingContext(ops: seq<HunkOp>): nat {
    if ops == [] || IsChange(ops[0]) then 0
    else (if ops[0].Context? then 1 else 0) + LeadingContext(ops[1..])
  }

  /** A line is added below the last line of the original range. */
  predicate EndsInAddition(ops: seq<HunkOp>) {
    exists i :: 0 <= i < |ops| && AddedAtEnd(ops, i)
  }

  predicate AddedAtEnd(ops: seq<HunkOp>, i: nat)
    requires i < |ops|
  {
    ops[i].Addition? && OriginalLines(ops[i..]) == 0
  }

  /** The original line of the first change: the deleted line itself, or the line
      an addition stands before; below an empty range, the line after it. */
  function ChangedLine(ops: seq<HunkOp>, h: Header): int {
    h.originalStart as int + if h.originalCount == 0 then 1 else LeadingContext(ops)
  }

  /** The line after the range, which an addition below it is reported at, has no
      number of this width. */
  predicate NoLineAfter(h: Header) {
    h.originalCount > 0 && h.originalStart as int + h.originalCount as int > MAX_INT64 as int
  }

  predicate Remaining(ops: seq<HunkOp>, h: Header, p: Progress) {
    p.orig as int + OriginalLines(ops) == h.originalCount as int && p.new_ as int + NewLines(ops) == h.newCount as int
  }

  // ----- one printed line -----

  /** What one line of a hunk contributes. */
  function OpProgress(op: HunkOp, h: Header, p: Progress): Option<Progress>
    requires ValidHeader(h) && Within(h, p)
    requires (op.Context? || op.Deletion?) ==> p.orig < h.originalCount
    requires (op.Context? || op.Addition?) ==> p.new_ < h.newCount
  {
    match op
    case NoNewline(_) => Some(p)
    case Context(_) => Some(Progress(p.orig + 1, p.new_ + 1, p.first))
    case Deletion(_) =>
      Some(Progress(p.orig + 1, p.new_, if p.first == 0 then h.originalStart + p.orig else p.first))
    case Addition(_) =>
      if NoLineAfter(h) && p.orig == h.originalCount then None
      else Some(Progress(p.orig, p.new_ + 1,
                         if p.first != 0 then p.first
                         else h.originalStart + if h.originalCount == 0 then 1 else p.orig))
  }

  lemma PrintedLineIsRead(op: HunkOp, h: Header, p: Progress)
    requires ValidHeader(h) && Within(h, p)
    requires (op.Context? || op.Deletion?) ==> p.orig < h.originalCount
    requires (op.Context? || op.Addition?) ==> p.new_ < h.newCount
    ensures ReadLine(PrintOp(op).text, h, p) == OpProgress(op, h, p)
  {
    var raw := PrintOp(op).text;
    if op.NoNewline? {
      assert NO_NEWLINE_TEXT[|NO_NEWLINE_TEXT| - 1] == 'e';
      assert TrimSuffixCR(raw) == NO_NEWLINE_TEXT;
    } else {
      assert |raw| > 0;
      assert raw[0] != '\r' && NO_NEWLINE_TEXT[0] == '\\';
      assert TrimSuffixCR(raw)[0] == raw[0];
    }
  }

  /** Every line that is read is the print of some line of a hunk. */
  function OpOf(raw: string): HunkOp
    requires raw != ""
  {
    if raw[0] == ' ' then Context(raw[1..])
    else if raw[0] == '-' then Deletion(raw[1..])
    else if raw[0] == '+' then Addition(raw[1..])
    else NoNewline(raw[|raw| - 1] == '\r')
  }

  lemma ReadLineIsPrinted(raw: string, h: Header, p: Progress)
    requires ValidHeader(h) && Within(h, p) && ReadLine(raw, h, p).Some?
    ensures raw != "" && PrintOp(OpOf(raw)) == Line(raw)
    ensures (OpOf(raw).Context? || OpOf(raw).Deletion?) ==> p.orig < h.originalCount
    ensures (OpOf(raw).Context? || OpOf(raw).Addition?) ==> p.new_ < h.newCount
  {
    var line := TrimSuffixCR(raw);
    assert NO_NEWLINE_TEXT[0] == '\\';
    assert line != "" && line[0] == raw[0];
    if line == NO_NEWLINE_TEXT {
      assert raw == line || raw == line + "\r";
      assert NO_NEWLINE_TEXT[|NO_NEWLINE_TEXT| - 1] == 'e';
    } else {
      assert raw == [raw[0]] + raw[1..];
    }
  }

  // ----- whole hunks -----

  /** The first change when the hunk is read from here. */
  function FirstFrom(ops: seq<HunkOp>, h: Header, p: Progress): int {
    if p.first != 0 then p.first as int
    else if !HasChange(ops) then 0
    else h.originalStart as int + if h.originalCount == 0 then 1 else p.orig as int + LeadingContext(ops)
  }

  lemma TailOfOps(ops: seq<HunkOp>)
    requires ops != []
    ensures HasChange(ops) <==> IsChange(ops[0]) || HasChange(ops[1..])
    ensures EndsInAddition(ops) <==> (ops[0].Addition? && OriginalLines(ops) == 0) || EndsInAddition(ops[1..])
  {
    assert ops == [ops[0]] + ops[1..];
    assert ops[0..] == ops;
    forall i | 0 <= i < |ops| - 1
      ensures AddedAtEnd(ops[1..], i) <==> AddedAtEnd(ops, i + 1)
    {
      assert ops[1..][i..] == ops[i + 1..];
    }
    if EndsInAddition(ops) {
      var i :| 0 <= i < |ops| && AddedAtEnd(ops, i);
      if i > 0 {
        assert AddedAtEnd(ops[1..], i - 1);
      } else {
        assert AddedAtEnd(ops, 0);
      }
    }
    if ops[0].Addition? && OriginalLines(ops) == 0 {
      assert AddedAtEnd(ops, 0);
    }
    if EndsInAddition(ops[1..]) {
      var i :| 0 <= i < |ops| - 1 && AddedAtEnd(ops[1..], i);
      assert AddedAtEnd(ops, i + 1);
    }
  }

  lemma NothingRemains(ops: seq<HunkOp>)
    requires OriginalLines(ops) == 0 && NewLines(ops) == 0
    ensures !HasChange(ops) && !EndsInAddition(ops)
  {
    if ops != [] {
      TailOfOps(ops);
      NothingRemains(ops[1..]);
    }
  }

  /** Reading one line of a hunk leaves the first change where it was. */
  lemma LineLeavesFirst(ops: seq<HunkOp>, h: Header, p: Progress)
    requires ValidHeader(h) && Within(h, p) && Remaining(ops, h, p) && ops != []
    ensures var next := OpProgress(ops[0], h, p);
            if next.None? then NoLineAfter(h) && EndsInAddition(ops)
            else
              && Within(h, next.value) && Remaining(ops[1..], h, next.value)
              && FirstFrom(ops[1..], h, next.value) == FirstFrom(ops, h, p)
              && (NoLineAfter(h) ==> (EndsInAddition(ops[1..]) <==> EndsInAddition(ops)))
  {
    TailOfOps(ops);
  }

  /** Whether the hunk adds a line whose place has no number. */
  predicate Overruns(ops: seq<HunkOp>, h: Header) {
    NoLineAfter(h) && EndsInAddition(ops)
  }

  function Outcome(first: int): Option<int64> {
    if 0 < first <= MAX_INT64 as int then Some(first as int64) else None
  }

  /** A printed hunk is read to the line of its first change, unless a line is
      added after a range that ends at the last line there can be. */
  lemma {:induction false} PrintedHunkIsRead(ops: seq<HunkOp>, rest: seq<Line>, h: Header, p: Progress)
    requires ValidHeader(h) && Within(h, p) && Remaining(ops, h, p)
    ensures ReadBody(PrintOps(ops) + rest, h, p) ==
            if Overruns(ops, h) then None else Outcome(FirstFrom(ops, h, p))
    ensures Overruns(ops, h) || FirstFrom(ops, h, p) <= MAX_INT64 as int
    decreases |ops|
  {
    if Consumed(h, p) {
      NothingRemains(ops);
    } else {
      LineLeavesFirst(ops, h, p);
      PrintedLineIsRead(ops[0], h, p);
      PrintStep(ops, rest);
      var next := OpProgress(ops[0], h, p);
      if next.Some? {
        PrintedHunkIsRead(ops[1..], rest, h, next.value);
      }
    }
  }

  lemma PrintStep(ops: seq<HunkOp>, rest: seq<Line>)
    requires ops != []
    ensures var body := PrintOps(ops) + rest;
            body != [] && body[0] == PrintOp(ops[0]) && body[1..] == PrintOps(ops[1..]) + rest
  {
  }

  /** A body that is read to a line starts with a printed hunk. */
  lemma {:induction false} ReadBodyIsPrinted(body: seq<Line>, h: Header, p: Progress) returns (ops: seq<HunkOp>)
    requires ValidHeader(h) && Within(h, p) && ReadBody(body, h, p).Some?
    ensures PrintOps(ops) <= body && Remaining(ops, h, p)
    decreases body
  {
    ops := [];
    if !Consumed(h, p) {
      var raw := body[0].text;
      ReadLineIsPrinted(raw, h, p);
      PrintedLineIsRead(OpOf(raw), h, p);
      var next := ReadLine(raw, h, p).value;
      var tail := ReadBodyIsPrinted(body[1..], h, next);
      ops := [OpOf(raw)] + tail;
      PrintCons(OpOf(raw), tail, body);
    }
  }

  lemma PrintCons(op: HunkOp, tail: seq<HunkOp>, body: seq<Line>)
    requires body != [] && PrintOp(op) == body[0] && PrintOps(tail) <= body[1..]
    ensures PrintOps([op] + tail) <= body && ([op] + tail)[0] == op && ([op] + tail)[1..] == tail
  {
    assert PrintOps([op] + tail) == [body[0]] + PrintOps(tail);
  }

  /** The body starts with the print of these lines, and the header counts them. */
  predicate PrintsHunk(ops: seq<HunkOp>, body: seq<Line>, h: Header) {
    && PrintOps(ops) <= body
    && OriginalLines(ops) == h.originalCount as int && NewLines(ops) == h.newCount as int
  }

  lemma HunkIsAnswered(ops: seq<HunkOp>, body: seq<Line>, h: Header)
    requires ValidHeader(h) && PrintsHunk(ops, body, h)
    ensures ReadBody(body, h, START) ==
            if Overruns(ops, h) || !HasChange(ops) then None else Outcome(ChangedLine(ops, h))
    ensures Overruns(ops, h) || !HasChange(ops) || 0 < ChangedLine(ops, h) <= MAX_INT64 as int
  {
    assert body == PrintOps(ops) + body[|ops|..];
    PrintedHunkIsRead(ops, body[|ops|..], h, START);
    FirstOfHunk(ops, h);
  }

  lemma FirstOfHunk(ops: seq<HunkOp>, h: Header)
    requires ValidHeader(h) && OriginalLines(ops) == h.originalCount as int && NewLines(ops) == h.newCount as int
    ensures FirstFrom(ops, h, START) == if HasChange(ops) then ChangedLine(ops, h) else 0
    ensures HasChange(ops) ==> ChangedLine(ops, h) > 0
  {
    if HasChange(ops) {
      ChangeIsCounted(ops);
    }
  }

  /** firstChangedLine meets its purpose: it answers exactly on the bodies that
      start with a printed hunk of the header's counts with a change in it, and
      with the original line of the first change. The one printed hunk it turns
      away adds a line after an original range that ends at the largest line. */
  lemma FirstChangedLineIsExact(body: seq<Line>, h: Header, r: int64)
    requires ValidHeader(h)
    ensures (ReadBody(body, h, START) == Some(r)) <==>
            (exists ops :: PrintsHunk(ops, body, h) && HasChange(ops) && !Overruns(ops, h) &&
                r as int == ChangedLine(ops, h))
  {
    if ReadBody(body, h, START) == Some(r) {
      var ops := ReadBodyIsPrinted(body, h, START);
      assert PrintsHunk(ops, body, h);
      HunkIsAnswered(ops, body, h);
    }
    forall ops | PrintsHunk(ops, body, h) && HasChange(ops) && !Overruns(ops, h) && r as int == ChangedLine(ops, h)
      ensures ReadBody(body, h, START) == Some(r)
    {
      HunkIsAnswered(ops, body, h);
    }
  }

  /** A proper hunk that is turned away: one line added below line 2^63 - 1. */
  lemma AdditionBelowLargestLineIsLost()
    ensures var ops, h := [Context("x"), Addition("y")], Header(MAX_INT64, 1, 1, 2);
            ValidHeader(h) && PrintsHunk(ops, PrintOps(ops), h) && HasChange(ops) &&
                ReadBody(PrintOps(ops), h, START) == None
  {
    var ops, h := [Context("x"), Addition("y")], Header(MAX_INT64, 1, 1, 2);
    assert ops[1..] == [Addition("y")] && ops[1..][1..] == [];
    assert ops[1] in ops && IsChange(ops[1]);
    assert AddedAtEnd(ops, 1);
    HunkIsAnswered(ops, PrintOps(ops), h);
  }

  lemma ChangeIsCounted(ops: seq<HunkOp>)
    requires HasChange(ops)
    ensures OriginalLines(ops) + NewLines(ops) > 0
  {
    if ops != [] {
      TailOfOps(ops);
      if HasChange(ops[1..]) {
        ChangeIsCounted(ops[1..]);
      }
    }
  }

  // ----- the whole diff -----

  /** The answer for a header line and the lines below it; zero is the fallback. */
  function AnswerBelow(g: Groups, body: seq<Line>): int64 {
    var h := ParseHunkHeader(g);
    if h.None? then 0
    else
      var r := ReadBody(body, h.value, START);
      if r.None? then 0 else r.value
  }

  /** match_ gives the groups of a line that the header expression matches. */
  function GroupsOf(line: Line, match_: string -> Option<Groups>): Option<Groups> {
    match_(TrimSuffixCR(line.text))
  }

  /** The first header line and what is below it decide. */
  function FindLine(lines: seq<Line>, match_: string -> Option<Groups>): int64 {
    if lines == [] then 0
    else if GroupsOf(lines[0], match_).Some? then AnswerBelow(GroupsOf(lines[0], match_).value, lines[1..])
    else FindLine(lines[1..], match_)
  }

  method FindOriginalStartLine(lines: seq<Line>, match_: string -> Option<Groups>) returns (r: int64)
    ensures r == FindLine(lines, match_)
  {
    for i := 0 to |lines|
      invariant FindLine(lines[i..], match_) == FindLine(lines, match_)
    {
      assert lines[i..][0] == lines[i] && lines[i..][1..] == lines[i + 1..];
      var groups := GroupsOf(lines[i], match_);
      if groups.Some? {
        var header := ParseHunkHeader(groups.value);
        if header.None? {
          return 0;
        }
        var line := FirstChangedLine(lines[i + 1..], header.value);
        return if line.None? then 0 else line.value;
      }
    }
    return 0;
  }

  lemma {:induction false} NoHeaderNoLine(lines: seq<Line>, match_: string -> Option<Groups>)
    requires forall k :: 0 <= k < |lines| ==> GroupsOf(lines[k], match_).None?
    ensures FindLine(lines, match_) == 0
  {
    if lines != [] {
      NoHeaderNoLine(lines[1..], match_);
    }
  }

  /** Lines above the first header do not matter. */
  lemma {:induction false} FirstHeaderDecides(above: seq<Line>, header: Line, below: seq<Line>,
                                                match_: string -> Option<Groups>)
    requires forall k :: 0 <= k < |above| ==> GroupsOf(above[k], match_).None?
    requires GroupsOf(header, match_).Some?
    ensures FindLine(above + [header] + below, match_) == AnswerBelow(GroupsOf(header, match_).value, below)
  {
    var lines := above + [header] + below;
    if above == [] {
      assert lines[0] == header && lines[1..] == below;
    } else {
      FirstHeaderDecides(above[1..], header, below, match_);
      assert lines[0] == above[0] && lines[1..] == above[1..] + [header] + below;
    }
  }

  /** The groups of the header line diff prints for two ranges. */
  function PrintedGroups(os: nat, oc: nat, ns: nat, nc: nat, shortOld: bool, shortNew: bool): Groups {
    Groups(Decimal(os), CountText(oc, shortOld), Decimal(ns), CountText(nc, shortNew))
  }

  /** A printed first hunk with a change is reported at the original line of its
      change whenever the line after its original range has a number. */
  lemma PrintedDiffIsLocated(ops: seq<HunkOp>, rest: seq<Line>, os: nat, ns: nat, shortOld: bool, shortNew: bool)
    requires IsLineSpan(os, OriginalLines(ops)) && IsLineSpan(ns, NewLines(ops))
    requires (shortOld ==> OriginalLines(ops) == 1) && (shortNew ==> NewLines(ops) == 1)
    requires HasChange(ops) && os + OriginalLines(ops) <= MAX_INT64 as int
    ensures AnswerBelow(PrintedGroups(os, OriginalLines(ops), ns, NewLines(ops), shortOld, shortNew),
            PrintOps(ops) + rest) as int
            == os + if OriginalLines(ops) == 0 then 1 else LeadingContext(ops)
  {
    HunkRangeIsReadBack(os, OriginalLines(ops), shortOld);
    HunkRangeIsReadBack(ns, NewLines(ops), shortNew);
    ChangeIsCounted(ops);
    var h := Header(os as int64, OriginalLines(ops) as int64, ns as int64, NewLines(ops) as int64);
    PrintedHunkIsRead(ops, rest, h, START);
  }

  /** For a whole diff: lines the header expression does not match, the printed
      header of a hunk, its printed lines, and anything below. */
  lemma WholeDiffIsLocated(above: seq<Line>, header: Line, ops: seq<HunkOp>, rest: seq<Line>, os: nat, ns: nat,
                           shortOld: bool, shortNew: bool, match_: string -> Option<Groups>)
    requires IsLineSpan(os, OriginalLines(ops)) && IsLineSpan(ns, NewLines(ops))
    requires (shortOld ==> OriginalLines(ops) == 1) && (shortNew ==> NewLines(ops) == 1)
    requires HasChange(ops) && os + OriginalLines(ops) <= MAX_INT64 as int
    requires forall k :: 0 <= k < |above| ==> GroupsOf(above[k], match_).None?
    requires GroupsOf(header, match_) ==
             Some(PrintedGroups(os, OriginalLines(ops), ns, NewLines(ops), shortOld, shortNew))
    ensures FindLine(above + [header] + (PrintOps(ops) + rest), match_) as int ==
            os + if OriginalLines(ops) == 0 then 1 else LeadingContext(ops)
  {
    FirstHeaderDecides(above, header, PrintOps(ops) + rest, match_);
    PrintedDiffIsLocated(ops, rest, os, ns, shortOld, shortNew);
  }
}
