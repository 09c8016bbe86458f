/**
 The text a mutant's identity is hashed from: what formatChangedLines writes,
 what MutantIDAt of internal/baseline reads back out of it, and when two
 identities can coincide. The hash itself is left out; two identities differ
 when their keys do, up to a collision of MD5.
*/
module StableId {
  import opened Sequences
  import opened LineDiff
  import opened Edits

  // ----- decimal numbers and separators -----

  function Digit(d: nat): char
    requires d < 10
  {
    (48 + d) as char
  }

  function Decimal(n: nat): (s: string)
    ensures s != "" && forall c :: c in s ==> '0' <= c <= '9'
  {
    if n < 10 then [Digit(n)] else Decimal(n / 10) + [Digit(n % 10)]
  }

  /** Without a leading zero. */
  lemma {:induction false} DecimalStarts(n: nat)
    ensures n > 0 ==> Decimal(n)[0] != '0'
    ensures n == 0 ==> Decimal(n) == "0"
  {
    if n >= 10 {
      DecimalStarts(n / 10);
    }
  }

  lemma {:induction false} DecimalInjective(m: nat, n: nat)
    requires Decimal(m) == Decimal(n)
    ensures m == n
  {
    var s, t := Decimal(m), Decimal(n);
    assert s[|s| - 1] == Digit(m % 10) && t[|t| - 1] == Digit(n % 10);
    if m >= 10 && n >= 10 {
      assert s[..|s| - 1] == Decimal(m / 10) && t[..|t| - 1] == Decimal(n / 10);
      DecimalInjective(m / 10, n / 10);
    }
  }

  /** A separator that the heads do not contain splits a text one way only. */
  lemma {:induction false} SplitUniquely(sep: char, a: string, x: string, b: string, y: string)
    requires sep !in a && sep !in b && a + [sep] + x == b + [sep] + y
    ensures a == b && x == y
  {
    var s, t := a + [sep] + x, b + [sep] + y;
    assert s[|a|] == sep && t[|b|] == sep;
    assert forall k :: 0 <= k < |a| ==> s[k] == a[k] != sep;
    assert forall k :: 0 <= k < |b| ==> t[k] == b[k] != sep;
    assert |a| == |b|;
    assert a == s[..|a|] && b == t[..|b|];
    assert x == s[|a| + 1..] && y == t[|b| + 1..];
  }

  // ----- mutationEdit.key -----

  function EditKey(e: Edit): string
    requires e.start >= 0 && e.end >= 0
  {
    Decimal(e.start) + [':'] + (Decimal(e.end) + [':'] + e.replacement)
  }

  lemma EditKeyInjective(e: Edit, f: Edit)
    requires e.start >= 0 && e.end >= 0 && f.start >= 0 && f.end >= 0
    requires EditKey(e) == EditKey(f)
    ensures e == f
  {
    SplitUniquely(':', Decimal(e.start), Decimal(e.end) + [':'] + e.replacement,
                  Decimal(f.start), Decimal(f.end) + [':'] + f.replacement);
    SplitUniquely(':', Decimal(e.end), e.replacement, Decimal(f.end), f.replacement);
    DecimalInjective(e.start, f.start);
    DecimalInjective(e.end, f.end);
  }

  // ----- formatChangedLines -----

  function DiffLines(prefix: char, lines: seq<Line>): string {
    if lines == [] then "" else [prefix] + lines[0].text + "\n" + DiffLines(prefix, lines[1..])
  }

  method WriteDiffLines(b: string, prefix: char, lines: seq<Line>) returns (r: string)
    ensures r == b + DiffLines(prefix, lines)
  {
    r := b;
    for i := 0 to |lines|
      invariant r + DiffLines(prefix, lines[i..]) == b + DiffLines(prefix, lines)
    {
      assert lines[i..][1..] == lines[i + 1..];
      assert r + DiffLines(prefix, lines[i..]) == (r + ([prefix] + lines[i].text + "\n")) +
          DiffLines(prefix, lines[i + 1..]);
      r := r + ([prefix] + lines[i].text + "\n");
    }
  }

  function FormatChangedLines(removed: seq<Line>, added: seq<Line>): string {
    DiffLines('-', removed) + DiffLines('+', added)
  }

  // ----- MutantIDAt -----

  predicate IsHeader(line: Line) {
    HasPrefix(line.text, "--- ") || HasPrefix(line.text, "+++ ")
  }

  /** The lines marked `prefix`, headers left out, each with a newline. */
  function Marked(prefix: char, lines: seq<Line>): string {
    if lines == [] then "" else MarkedOne(prefix, lines[0]) + Marked(prefix, lines[1..])
  }

  function MarkedOne(prefix: char, line: Line): string {
    if !IsHeader(line) && HasPrefix(line.text, [prefix]) then line.text[1..] + "\n" else ""
  }

  /** The first occurrence is not written. */
  function Suffix(n: nat): string {
    if n > 0 then ['\0'] + Decimal(n) else ""
  }

  /** What MutantIDAt hashes. */
  function IdentityKey(relFile: string, mutatorName: string, diff: string, occurrence: nat): string {
    var lines := SplitAll(diff);
    relFile + ['\0'] + (mutatorName + ['\0'] + (Marked('-', lines) + ['\0'] +
        (Marked('+', lines) + Suffix(occurrence))))
  }

  /** The loop of MutantIDAt. */
  method ScanDiff(lines: seq<Line>) returns (removed: string, added: string)
    ensures removed == Marked('-', lines) && added == Marked('+', lines)
  {
    removed, added := "", "";
    for i := 0 to |lines|
      invariant removed == Marked('-', lines[..i]) && added == Marked('+', lines[..i])
    {
      var line := lines[i];
      MarkedNext('-', lines, i);
      MarkedNext('+', lines, i);
      if IsHeader(line) {
      } else if HasPrefix(line.text, "-") {
        removed := removed + (line.text[1..] + "\n");
      } else if HasPrefix(line.text, "+") {
        added := added + (line.text[1..] + "\n");
      }
    }
    assert lines[..|lines|] == lines;
  }

  lemma MarkedNext(prefix: char, lines: seq<Line>, i: nat)
    requires i < |lines|
    ensures Marked(prefix, lines[..i + 1]) == Marked(prefix, lines[..i]) + MarkedOne(prefix, lines[i])
  {
    assert lines[..i + 1] == lines[..i] + [lines[i]];
    MarkedAppend(prefix, lines[..i], [lines[i]]);
    assert Marked(prefix, [lines[i]]) == MarkedOne(prefix, lines[i]);
  }

  method MutantIdAt(relFile: string, mutatorName: string, diff: string, occurrence: nat) returns (key: string)
    ensures key == IdentityKey(relFile, mutatorName, diff, occurrence)
  {
    var removed, added := ScanDiff(SplitAll(diff));
    var tail := added;
    if occurrence > 0 {
      tail := tail + (['\0'] + Decimal(occurrence));
    }
    key := relFile + ['\0'] + (mutatorName + ['\0'] + (removed + ['\0'] + tail));
  }

  // ----- reading back what was written -----

  predicate NewlineFree(lines: seq<Line>) {
    forall i :: 0 <= i < |lines| ==> '\n' !in lines[i].text
  }

  lemma NewlineFreePart(part: seq<Line>, lines: seq<Line>)
    requires NewlineFree(lines) && forall line :: line in part ==> line in lines
    ensures NewlineFree(part)
  {
    forall i | 0 <= i < |part| ensures '\n' !in part[i].text {
      assert part[i] in lines;
    }
  }

  lemma SplitIsNewlineFree(text: string)
    ensures NewlineFree(SplitDiffLines(text))
  {
  }

  /** Each line with a newline after it. */
  function Join(lines: seq<Line>): string {
    if lines == [] then "" else (lines[0].text + "\n") + Join(lines[1..])
  }

  /** The line looks like a diff header once its mark is in front: a removed
      line starting "-- ", an added one starting "++ ". */
  predicate Headed(prefix: char, line: Line) {
    HasPrefix(line.text, [prefix, prefix, ' '])
  }

  predicate NoHeader(prefix: char, lines: seq<Line>) {
    forall i :: 0 <= i < |lines| ==> !Headed(prefix, lines[i])
  }

  /** The changed lines MutantIDAt does not take for a header. */
  function Visible(prefix: char, lines: seq<Line>): seq<Line> {
    if lines == [] then []
    else if Headed(prefix, lines[0]) then Visible(prefix, lines[1..])
    else [lines[0]] + Visible(prefix, lines[1..])
  }

  function WithMark(prefix: char, lines: seq<Line>): seq<Line> {
    if lines == [] then [] else [Line([prefix] + lines[0].text)] + WithMark(prefix, lines[1..])
  }

  lemma {:induction false} MarkedAppend(prefix: char, a: seq<Line>, b: seq<Line>)
    ensures Marked(prefix, a + b) == Marked(prefix, a) + Marked(prefix, b)
  {
    if a == [] {
      NoAppend(b);
    } else {
      MarkedAppend(prefix, a[1..], b);
      AppendStep(a, b);
      Assoc(MarkedOne(prefix, a[0]), Marked(prefix, a[1..]), Marked(prefix, b));
    }
  }

  lemma {:induction false} DiffLinesSplit(prefix: char, lines: seq<Line>)
    requires prefix != '\n' && NewlineFree(lines)
    ensures EndsLine(DiffLines(prefix, lines)) && SplitDiffLines(DiffLines(prefix, lines)) == WithMark(prefix, lines)
  {
    if lines != [] {
      var line, rest := [prefix] + lines[0].text, DiffLines(prefix, lines[1..]);
      DiffLinesSplit(prefix, lines[1..]);
      SplitLine(line);
      SplitAfterBlock(line + "\n", rest);
      assert DiffLines(prefix, lines) == (line + "\n") + rest;
    }
  }

  lemma {:induction false} SplitLine(t: string)
    requires '\n' !in t
    ensures SplitDiffLines(t + "\n") == [Line(t)]
  {
    if t == "" {
      assert t + "\n" == "\n";
      SplitNewline();
    } else {
      SplitLine(t[1..]);
      var s := t + "\n";
      assert s[1..] == t[1..] + "\n";
      SplitBlockStep(s);
      assert [t[0]] + t[1..] == t;
    }
  }

  lemma FormatSplits(removed: seq<Line>, added: seq<Line>)
    requires NewlineFree(removed) && NewlineFree(added)
    ensures SplitAll(FormatChangedLines(removed, added)) == WithMark('-', removed) + (WithMark('+', added) + [Line("")])
  {
    var plus := DiffLines('+', added);
    DiffLinesSplit('-', removed);
    DiffLinesSplit('+', added);
    SplitAllAfterBlock(DiffLines('-', removed), plus);
    SplitAllAfterBlock(plus, "");
    assert plus + "" == plus;
  }

  lemma {:induction false} MarkedOfOwn(prefix: char, lines: seq<Line>)
    requires prefix == '-' || prefix == '+'
    ensures Marked(prefix, WithMark(prefix, lines)) == Join(Visible(prefix, lines))
  {
    if lines != [] {
      MarkedOfOwn(prefix, lines[1..]);
      HeaderIffHeaded(prefix, lines[0]);
    }
  }

  lemma HeaderIffHeaded(prefix: char, line: Line)
    requires prefix == '-' || prefix == '+'
    ensures MarkedOne(prefix, Line([prefix] + line.text)) == if Headed(prefix, line) then "" else line.text + "\n"
  {
    var m := [prefix] + line.text;
    assert m[1..] == line.text && m[..1] == [prefix];
    if |line.text| >= 3 {
      assert m[..4] == [prefix] + line.text[..3];
      assert m[..4][1..] == line.text[..3];
      assert "--- " == ['-'] + ['-', '-', ' '] && "+++ " == ['+'] + ['+', '+', ' '];
    }
  }

  lemma {:induction false} MarkedOfOther(prefix: char, other: char, lines: seq<Line>)
    requires prefix != other
    ensures Marked(prefix, WithMark(other, lines)) == ""
  {
    if lines != [] {
      var m := Line([other] + lines[0].text);
      MarkedOfOther(prefix, other, lines[1..]);
      assert m.text[..1] == [other];
    }
  }

  lemma MarkedOfFormat(removed: seq<Line>, added: seq<Line>)
    requires NewlineFree(removed) && NewlineFree(added)
    ensures var lines := SplitAll(FormatChangedLines(removed, added));
      Marked('-', lines) == Join(Visible('-', removed)) && Marked('+', lines) == Join(Visible('+', added))
  {
    FormatSplits(removed, added);
    MarkedAppend('-', WithMark('-', removed), WithMark('+', added) + [Line("")]);
    MarkedAppend('-', WithMark('+', added), [Line("")]);
    MarkedAppend('+', WithMark('-', removed), WithMark('+', added) + [Line("")]);
    MarkedAppend('+', WithMark('+', added), [Line("")]);
    MarkedOfOwn('-', removed);
    MarkedOfOwn('+', added);
    MarkedOfOther('-', '+', added);
    MarkedOfOther('+', '-', removed);
  }

  lemma {:induction false} VisibleIffNoHeader(prefix: char, lines: seq<Line>)
    ensures NoHeader(prefix, lines) ==> Visible(prefix, lines) == lines
    ensures |Join(Visible(prefix, lines))| <= |Join(lines)|
    ensures !NoHeader(prefix, lines) ==> |Join(Visible(prefix, lines))| < |Join(lines)|
  {
    if lines != [] {
      VisibleIffNoHeader(prefix, lines[1..]);
      assert NoHeader(prefix, lines) <==> !Headed(prefix, lines[0]) && NoHeader(prefix, lines[1..]);
    }
  }

  /** MutantIDAt recovers the changed lines of an edit from their text exactly
      when none of them reads as a diff header. */
  lemma TextIsReadBackIffNoHeader(removed: seq<Line>, added: seq<Line>)
    requires NewlineFree(removed) && NewlineFree(added)
    ensures var lines := SplitAll(FormatChangedLines(removed, added));
      Marked('-', lines) == Join(removed) && Marked('+', lines) == Join(added) <==>
          NoHeader('-', removed) && NoHeader('+', added)
  {
    MarkedOfFormat(removed, added);
    VisibleIffNoHeader('-', removed);
    VisibleIffNoHeader('+', added);
  }

  // ----- when two identities coincide -----

  lemma {:induction false} JoinInjective(a: seq<Line>, b: seq<Line>)
    requires NewlineFree(a) && NewlineFree(b) && Join(a) == Join(b)
    ensures a == b
  {
    if |a| > 0 && |b| > 0 {
      assert Join(a) == a[0].text + ['\n'] + Join(a[1..]);
      assert Join(b) == b[0].text + ['\n'] + Join(b[1..]);
      SplitUniquely('\n', a[0].text, Join(a[1..]), b[0].text, Join(b[1..]));
      JoinInjective(a[1..], b[1..]);
    }
  }

  /** Lines of a file without NUL. */
  predicate Clean(lines: seq<Line>) {
    NewlineFree(lines) && '\0' !in Join(lines)
  }

  lemma {:induction false} VisibleIsClean(prefix: char, lines: seq<Line>)
    requires Clean(lines)
    ensures Clean(Visible(prefix, lines))
  {
    if lines != [] {
      VisibleIsClean(prefix, lines[1..]);
    }
  }

  /** The text of the key once the changed lines are read back. */
  function KeyOf(file: string, name: string, removed: seq<Line>, added: seq<Line>, n: nat): string {
    file + ['\0'] + (name + ['\0'] + (Join(removed) + ['\0'] + (Join(added) + Suffix(n))))
  }

  lemma IdentityKeyReadsBack(file: string, name: string, removed: seq<Line>, added: seq<Line>, n: nat)
    requires NewlineFree(removed) && NewlineFree(added)
    ensures IdentityKey(file, name, FormatChangedLines(removed, added), n) ==
            KeyOf(file, name, Visible('-', removed), Visible('+', added), n)
  {
    MarkedOfFormat(removed, added);
  }

  lemma KeyOfInjective(
      file: string, name: string, removed: seq<Line>, added: seq<Line>, n: nat,
      file': string, name': string, removed': seq<Line>, added': seq<Line>, n': nat)
    requires '\0' !in file && '\0' !in name && '\0' !in file' && '\0' !in name'
    requires Clean(removed) && Clean(added) && Clean(removed') && Clean(added')
    requires KeyOf(file, name, removed, added, n) == KeyOf(file', name', removed', added', n')
    ensures file == file' && name == name' && removed == removed' && added == added' && n == n'
  {
    var tail, tail' := Join(added) + Suffix(n), Join(added') + Suffix(n');
    SplitUniquely('\0', file, name + ['\0'] + (Join(removed) + ['\0'] + tail),
                  file', name' + ['\0'] + (Join(removed') + ['\0'] + tail'));
    SplitUniquely('\0', name, Join(removed) + ['\0'] + tail, name', Join(removed') + ['\0'] + tail');
    SplitUniquely('\0', Join(removed), tail, Join(removed'), tail');
    TailInjective(Join(added), n, Join(added'), n');
    JoinInjective(removed, removed');
    JoinInjective(added, added');
  }

  /** Two identities coincide exactly when file, mutator and occurrence do, and the
      changed lines that do not read as diff headers. */
  lemma IdentityKeysCoincideIff(
      file: string, name: string, removed: seq<Line>, added: seq<Line>, n: nat,
      file': string, name': string, removed': seq<Line>, added': seq<Line>, n': nat)
    requires '\0' !in file && '\0' !in name && '\0' !in file' && '\0' !in name'
    requires Clean(removed) && Clean(added) && Clean(removed') && Clean(added')
    ensures
      IdentityKey(file, name, FormatChangedLines(removed, added), n) ==
      IdentityKey(file', name', FormatChangedLines(removed', added'), n') <==>
        && file == file' && name == name' && n == n'
        && Visible('-', removed) == Visible('-', removed') && Visible('+', added) == Visible('+', added')
  {
    IdentityKeyReadsBack(file, name, removed, added, n);
    IdentityKeyReadsBack(file', name', removed', added', n');
    VisibleIsClean('-', removed);
    VisibleIsClean('+', added);
    VisibleIsClean('-', removed');
    VisibleIsClean('+', added');
    var v, w, v', w' := Visible('-', removed), Visible('+', added), Visible('-', removed'), Visible('+', added');
    if KeyOf(file, name, v, w, n) == KeyOf(file', name', v', w', n') {
      KeyOfInjective(file, name, v, w, n, file', name', v', w', n');
    }
  }

  /** Lines of a file without NUL, none of which reads as a header. */
  predicate Plain(removed: seq<Line>, added: seq<Line>) {
    Clean(removed) && Clean(added) && NoHeader('-', removed) && NoHeader('+', added)
  }

  /** Then the file, the mutator, the changed lines and the occurrence can all be
      read off the key. */
  lemma IdentityKeyInjective(
      file: string, name: string, removed: seq<Line>, added: seq<Line>, n: nat,
      file': string, name': string, removed': seq<Line>, added': seq<Line>, n': nat)
    requires '\0' !in file && '\0' !in name && '\0' !in file' && '\0' !in name'
    requires Plain(removed, added) && Plain(removed', added')
    requires IdentityKey(file, name, FormatChangedLines(removed, added), n) ==
             IdentityKey(file', name', FormatChangedLines(removed', added'), n')
    ensures file == file' && name == name' && removed == removed' && added == added' && n == n'
  {
    IdentityKeysCoincideIff(file, name, removed, added, n, file', name', removed', added', n');
    VisibleIffNoHeader('-', removed);
    VisibleIffNoHeader('+', added);
    VisibleIffNoHeader('-', removed');
    VisibleIffNoHeader('+', added');
  }

  /** What is hashed for the first mutant with these changed lines, and for the
      n-th after it: the first is hashed as before mutants with the same lines were
      told apart. */
  lemma HashedText(file: string, name: string, removed: seq<Line>, added: seq<Line>, n: nat)
    requires NewlineFree(removed) && NewlineFree(added) && NoHeader('-', removed) && NoHeader('+', added)
    ensures var text := FormatChangedLines(removed, added);
      var first := file + ['\0'] + (name + ['\0'] + (Join(removed) + ['\0'] + Join(added)));
      IdentityKey(file, name, text, n) == if n == 0 then first else first + ['\0'] + Decimal(n)
  {
    MarkedOfFormat(removed, added);
    VisibleIffNoHeader('-', removed);
    VisibleIffNoHeader('+', added);
    SuffixComesLast(file, name, Join(removed), Join(added), Suffix(n));
    if n > 0 {
      Assoc(file + ['\0'] + (name + ['\0'] + (Join(removed) + ['\0'] + Join(added))), ['\0'], Decimal(n));
    }
  }

  lemma SuffixComesLast(file: string, name: string, removed: string, added: string, suffix: string)
    ensures file + ['\0'] + (name + ['\0'] + (removed + ['\0'] + (added + suffix))) ==
            (file + ['\0'] + (name + ['\0'] + (removed + ['\0'] + added))) + suffix
  {
  }

  lemma SameHeadSameTail(head: string, a: string, b: string)
    requires head + a == head + b
    ensures a == b
  {
    assert (head + a)[|head|..] == a && (head + b)[|head|..] == b;
  }

  /** For one text, the occurrence alone tells identities apart. */
  lemma SameTextKeysCoincideIff(file: string, name: string, text: string, n: nat, m: nat)
    ensures IdentityKey(file, name, text, n) == IdentityKey(file, name, text, m) <==> n == m
  {
    var removed, added := Marked('-', SplitAll(text)), Marked('+', SplitAll(text));
    SuffixComesLast(file, name, removed, added, Suffix(n));
    SuffixComesLast(file, name, removed, added, Suffix(m));
    if IdentityKey(file, name, text, n) == IdentityKey(file, name, text, m) {
      SameHeadSameTail(file + ['\0'] + (name + ['\0'] + (removed + ['\0'] + added)), Suffix(n), Suffix(m));
      TailInjective("", n, "", m);
    }
  }

  lemma TailInjective(a: string, n: nat, b: string, m: nat)
    requires '\0' !in a && '\0' !in b
    requires a + Suffix(n) == b + Suffix(m)
    ensures a == b && n == m
  {
    var s, t := a + Suffix(n), b + Suffix(m);
    assert n > 0 <==> '\0' in s by {
      if n > 0 {
        assert s[|a|] == '\0';
      }
    }
    assert m > 0 <==> '\0' in t by {
      if m > 0 {
        assert t[|b|] == '\0';
      }
    }
    if n > 0 {
      assert s == a + ['\0'] + Decimal(n) && t == b + ['\0'] + Decimal(m);
      SplitUniquely('\0', a, Decimal(n), b, Decimal(m));
      DecimalInjective(n, m);
    } else {
      assert s == a && t == b;
    }
  }

  lemma {:induction false} WithMarkInjective(prefix: char, a: seq<Line>, b: seq<Line>)
    requires WithMark(prefix, a) == WithMark(prefix, b)
    ensures a == b
  {
    if a != [] && b != [] {
      assert WithMark(prefix, a)[0] == WithMark(prefix, b)[0] && WithMark(prefix, a)[1..] == WithMark(prefix, b)[1..];
      assert ([prefix] + a[0].text)[1..] == a[0].text && ([prefix] + b[0].text)[1..] == b[0].text;
      WithMarkInjective(prefix, a[1..], b[1..]);
    }
  }

  /** What the text of a change splits into. */
  function MarkedLines(removed: seq<Line>, added: seq<Line>): seq<Line> {
    WithMark('-', removed) + (WithMark('+', added) + [Line("")])
  }

  lemma MarkedLinesStep(removed: seq<Line>, added: seq<Line>)
    ensures var lines := MarkedLines(removed, added);
      if removed == [] then lines == WithMark('+', added) + [Line("")] && !HasPrefix(lines[0].text, "-")
      else
        && lines != [] && HasPrefix(lines[0].text, "-") && removed[0] == Line(lines[0].text[1..])
        && lines[1..] == MarkedLines(removed[1..], added)
  {
    if removed != [] {
      AppendStep(WithMark('-', removed), WithMark('+', added) + [Line("")]);
      assert (['-'] + removed[0].text)[1..] == removed[0].text;
    }
  }

  lemma {:induction false} MarkedLinesInjective(a: seq<Line>, b: seq<Line>, a': seq<Line>, b': seq<Line>)
    requires MarkedLines(a, b) == MarkedLines(a', b')
    ensures a == a' && b == b'
  {
    MarkedLinesStep(a, b);
    MarkedLinesStep(a', b');
    if a != [] && a' != [] {
      MarkedLinesInjective(a[1..], b, a'[1..], b');
    } else if a == [] && a' == [] {
      var s, t := WithMark('+', b) + [Line("")], WithMark('+', b') + [Line("")];
      assert s[..|s| - 1] == WithMark('+', b) && t[..|t| - 1] == WithMark('+', b');
      WithMarkInjective('+', b, b');
    }
  }

  /** Two different changes with the same visible lines have different texts, which
      are hashed alike. */
  lemma HeaderTextsAlike(file: string, name: string, removed: seq<Line>, added: seq<Line>, removed': seq<Line>,
                         added': seq<Line>)
    requires NewlineFree(removed) && NewlineFree(added) && NewlineFree(removed') && NewlineFree(added')
    requires Visible('-', removed) == Visible('-', removed') && Visible('+', added) == Visible('+', added')
    requires (removed, added) != (removed', added')
    ensures var s, t := FormatChangedLines(removed, added), FormatChangedLines(removed', added');
      s != t && IdentityKey(file, name, s, 0) == IdentityKey(file, name, t, 0)
  {
    FormatSplits(removed, added);
    FormatSplits(removed', added');
    if MarkedLines(removed, added) == MarkedLines(removed', added') {
      MarkedLinesInjective(removed, added, removed', added');
    }
    IdentityKeyReadsBack(file, name, removed, added, 0);
    IdentityKeyReadsBack(file, name, removed', added', 0);
  }
}
