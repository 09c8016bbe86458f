/**
 The line diff of internal/engine/mutantid.go: drop the common leading and
 trailing lines, fill a longest-common-subsequence table for the rest, and walk
 it. The result is measured against edit scripts of the whole files.
*/
module LineDiff {
  import opened Sequences
  datatype Line = Line(text: string)

  // ----- edit scripts: the reference -----

  datatype Op = Keep(line: Line) | Remove(line: Line) | Add(line: Line)

  /** The line sequences a script mentions: the old and the new file, the lines
      only one of them has, and the lines both have. */
  datatype Side = Old | New | OnlyOld | OnlyNew | Both

  function Part(side: Side, op: Op): seq<Line> {
    match side
    case Old => if op.Add? then [] else [op.line]
    case New => if op.Remove? then [] else [op.line]
    case OnlyOld => if op.Remove? then [op.line] else []
    case OnlyNew => if op.Add? then [op.line] else []
    case Both => if op.Keep? then [op.line] else []
  }

  function Lines(side: Side, ops: seq<Op>): seq<Line> {
    if ops == [] then [] else Part(side, ops[0]) + Lines(side, ops[1..])
  }

  /** ops turns before into after. */
  predicate IsScript(ops: seq<Op>, before: seq<Line>, after: seq<Line>) {
    Lines(Old, ops) == before && Lines(New, ops) == after
  }

  function Kept(ops: seq<Op>): nat {
    |Lines(Both, ops)|
  }

  /** The number of lines a script removes or adds. */
  function Cost(ops: seq<Op>): nat {
    |Lines(OnlyOld, ops)| + |Lines(OnlyNew, ops)|
  }

  lemma {:induction false} CostFromKept(ops: seq<Op>)
    ensures Cost(ops) + 2 * Kept(ops) == |Lines(Old, ops)| + |Lines(New, ops)|
  {
    if ops != [] {
      CostFromKept(ops[1..]);
    }
  }

  lemma {:induction false} LinesAppend(side: Side, p: seq<Op>, q: seq<Op>)
    ensures Lines(side, p + q) == Lines(side, p) + Lines(side, q)
  {
    if p == [] {
      NoAppend(q);
    } else {
      LinesAppend(side, p[1..], q);
      AppendStep(p, q);
      Assoc(Part(side, p[0]), Lines(side, p[1..]), Lines(side, q));
    }
  }

  function Keeps(lines: seq<Line>): seq<Op> {
    seq(|lines|, i requires 0 <= i < |lines| => Keep(lines[i]))
  }

  lemma {:induction false} KeepsKeep(lines: seq<Line>)
    ensures IsScript(Keeps(lines), lines, lines)
    ensures Lines(OnlyOld, Keeps(lines)) == [] && Lines(OnlyNew, Keeps(lines)) == [] &&
            Lines(Both, Keeps(lines)) == lines
  {
    if lines != [] {
      KeepsKeep(lines[1..]);
      assert Keeps(lines)[1..] == Keeps(lines[1..]);
    }
  }

  // ----- the table -----

  /** The length of a longest common subsequence. */
  function Lcs(b: seq<Line>, a: seq<Line>): nat {
    if b == [] || a == [] then 0
    else if b[0] == a[0] then 1 + Lcs(b[1..], a[1..])
    else if Lcs(b[1..], a) >= Lcs(b, a[1..]) then Lcs(b[1..], a)
    else Lcs(b, a[1..])
  }

  /** Leaving out a first line costs at most one common line, and gains none. */
  lemma {:induction false} LcsDropsByOne(b: seq<Line>, a: seq<Line>)
    ensures b != [] ==> Lcs(b[1..], a) <= Lcs(b, a) <= Lcs(b[1..], a) + 1
    ensures a != [] ==> Lcs(b, a[1..]) <= Lcs(b, a) <= Lcs(b, a[1..]) + 1
    decreases |b| + |a|
  {
    if b != [] && a != [] {
      LcsDropsByOne(b[1..], a);
      LcsDropsByOne(b, a[1..]);
      LcsDropsByOne(b[1..], a[1..]);
    }
  }

  lemma {:induction false} NoScriptKeepsMore(ops: seq<Op>, before: seq<Line>, after: seq<Line>)
    requires IsScript(ops, before, after)
    ensures Kept(ops) <= Lcs(before, after)
  {
    if ops != [] {
      var b, a := Lines(Old, ops[1..]), Lines(New, ops[1..]);
      NoScriptKeepsMore(ops[1..], b, a);
      match ops[0]
      case Keep(line) =>
        assert before == [line] + b && after == [line] + a;
      case Remove(line) =>
        assert before == [line] + b && before[1..] == b && after == a;
        LcsDropsByOne(before, after);
      case Add(line) =>
        assert before == b && after == [line] + a && after[1..] == a;
        LcsDropsByOne(before, after);
    }
  }

  predicate RowIsLcs(dp: array2<nat>, before: seq<Line>, after: seq<Line>, i: nat)
    reads dp
    requires dp.Length0 == |before| + 1 && dp.Length1 == |after| + 1 && i <= |before|
  {
    forall j :: 0 <= j <= |after| ==> dp[i, j] == Lcs(before[i..], after[j..])
  }

  /** What row i of the table has to hold. */
  function LcsRow(before: seq<Line>, after: seq<Line>, i: nat): seq<nat>
    requires i <= |before|
  {
    seq(|after| + 1, j requires 0 <= j <= |after| => Lcs(before[i..], after[j..]))
  }

  /** The recurrence the table is filled by. */
  lemma LcsRows(before: seq<Line>, after: seq<Line>, i: nat) returns (row: seq<nat>, below: seq<nat>)
    requires i < |before|
    ensures row == LcsRow(before, after, i) && below == LcsRow(before, after, i + 1) && row[|after|] == 0
    ensures forall j :: 0 <= j < |after| ==>
      row[j] ==
        if before[i] == after[j] then below[j + 1] + 1 else if row[j + 1] > below[j] then row[j + 1] else below[j]
  {
    row, below := LcsRow(before, after, i), LcsRow(before, after, i + 1);
    forall j | 0 <= j < |after|
      ensures row[j] ==
        if before[i] == after[j] then below[j + 1] + 1 else if row[j + 1] > below[j] then row[j + 1] else below[j]
    {
      assert before[i..][1..] == before[i + 1..] && after[j..][1..] == after[j + 1..];
    }
  }

  method FillLcsRow(dp: array2<nat>, before: seq<Line>, after: seq<Line>, i: nat)
    requires dp.Length0 == |before| + 1 && dp.Length1 == |after| + 1 && i < |before|
    requires RowIsLcs(dp, before, after, i + 1) && dp[i, |after|] == 0
    modifies dp
    ensures RowIsLcs(dp, before, after, i)
    ensures forall r, c :: 0 <= r < dp.Length0 && 0 <= c < dp.Length1 && r != i ==> dp[r, c] == old(dp[r, c])
  {
    ghost var row, below := LcsRows(before, after, i);
    assert forall c :: 0 <= c <= |after| ==> dp[i + 1, c] == below[c];
    var j := |after| - 1;
    while j >= 0
      invariant -1 <= j < |after|
      invariant forall c :: j < c <= |after| ==> dp[i, c] == row[c]
      invariant forall r, c :: 0 <= r < dp.Length0 && 0 <= c < dp.Length1 && r != i ==> dp[r, c] == old(dp[r, c])
    {
      assert dp[i + 1, j] == below[j] && dp[i + 1, j + 1] == below[j + 1];
      if before[i] == after[j] {
        dp[i, j] := dp[i + 1, j + 1] + 1;
      } else {
        dp[i, j] := dp[i + 1, j];
        if dp[i, j + 1] > dp[i, j] {
          dp[i, j] := dp[i, j + 1];
        }
      }
      j := j - 1;
    }
  }

  method LineLcs(before: seq<Line>, after: seq<Line>) returns (dp: array2<nat>)
    ensures fresh(dp) && dp.Length0 == |before| + 1 && dp.Length1 == |after| + 1
    ensures forall i :: 0 <= i <= |before| ==> RowIsLcs(dp, before, after, i)
  {
    dp := new nat[|before| + 1, |after| + 1]((_, _) => 0);
    var i := |before| - 1;
    while i >= 0
      invariant -1 <= i < |before|
      invariant forall r :: i < r <= |before| ==> RowIsLcs(dp, before, after, r)
      invariant forall r :: 0 <= r <= i ==> dp[r, |after|] == 0
    {
      label Before:
      FillLcsRow(dp, before, after, i);
      forall r | i < r <= |before| ensures RowIsLcs(dp, before, after, r) {
        assert old@Before(RowIsLcs(dp, before, after, r));
      }
      i := i - 1;
    }
  }

  // ----- the walk -----

  /** The script the table leads to, with removals before additions on a tie. */
  function Diff(b: seq<Line>, a: seq<Line>): seq<Op>
    decreases |b| + |a|
  {
    if b == [] && a == [] then []
    else if b == [] then [Add(a[0])] + Diff(b, a[1..])
    else if a == [] then [Remove(b[0])] + Diff(b[1..], a)
    else if b[0] == a[0] then [Keep(b[0])] + Diff(b[1..], a[1..])
    else if Lcs(b[1..], a) >= Lcs(b, a[1..]) then [Remove(b[0])] + Diff(b[1..], a)
    else [Add(a[0])] + Diff(b, a[1..])
  }

  lemma {:induction false} DiffKeepsLcs(b: seq<Line>, a: seq<Line>)
    ensures IsScript(Diff(b, a), b, a)
    ensures Kept(Diff(b, a)) == Lcs(b, a)
    decreases |b| + |a|
  {
    if b == [] && a == [] {
    } else if a == [] || (b != [] && b[0] != a[0] && Lcs(b[1..], a) >= Lcs(b, a[1..])) {
      DiffKeepsLcs(b[1..], a);
      RemoveStep(b, a, Diff(b[1..], a));
    } else if b != [] && b[0] == a[0] {
      DiffKeepsLcs(b[1..], a[1..]);
      KeepStep(b, a, Diff(b[1..], a[1..]));
    } else {
      DiffKeepsLcs(b, a[1..]);
      AddStep(b, a, Diff(b, a[1..]));
    }
  }

  lemma KeepStep(b: seq<Line>, a: seq<Line>, ops: seq<Op>)
    requires b != [] && a != [] && b[0] == a[0] && IsScript(ops, b[1..], a[1..])
    ensures IsScript([Keep(b[0])] + ops, b, a) && Kept([Keep(b[0])] + ops) == Kept(ops) + 1
  {
    assert ([Keep(b[0])] + ops)[1..] == ops;
  }

  lemma RemoveStep(b: seq<Line>, a: seq<Line>, ops: seq<Op>)
    requires b != [] && IsScript(ops, b[1..], a)
    ensures IsScript([Remove(b[0])] + ops, b, a) && Kept([Remove(b[0])] + ops) == Kept(ops)
  {
    assert ([Remove(b[0])] + ops)[1..] == ops;
  }

  lemma AddStep(b: seq<Line>, a: seq<Line>, ops: seq<Op>)
    requires a != [] && IsScript(ops, b, a[1..])
    ensures IsScript([Add(a[0])] + ops, b, a) && Kept([Add(a[0])] + ops) == Kept(ops)
  {
    assert ([Add(a[0])] + ops)[1..] == ops;
  }

  lemma {:induction false} DiffAtEnd(b: seq<Line>, a: seq<Line>)
    requires b == [] || a == []
    ensures Lines(OnlyOld, Diff(b, a)) == b && Lines(OnlyNew, Diff(b, a)) == a
    decreases |b| + |a|
  {
    if b != [] {
      DiffAtEnd(b[1..], a);
      RemoveFirst(b, a);
    } else if a != [] {
      DiffAtEnd(b, a[1..]);
      AddFirst(b, a);
    }
  }

  lemma RemoveFirst(b: seq<Line>, a: seq<Line>)
    requires b != [] && a == []
    ensures Lines(OnlyOld, Diff(b, a)) == [b[0]] + Lines(OnlyOld, Diff(b[1..], a))
    ensures Lines(OnlyNew, Diff(b, a)) == Lines(OnlyNew, Diff(b[1..], a))
  {
    OneMore(Remove(b[0]), Diff(b[1..], a));
  }

  lemma AddFirst(b: seq<Line>, a: seq<Line>)
    requires b == [] && a != []
    ensures Lines(OnlyOld, Diff(b, a)) == Lines(OnlyOld, Diff(b, a[1..]))
    ensures Lines(OnlyNew, Diff(b, a)) == [a[0]] + Lines(OnlyNew, Diff(b, a[1..]))
  {
    OneMore(Add(a[0]), Diff(b, a[1..]));
  }

  lemma OneMore(op: Op, ops: seq<Op>)
    ensures Lines(OnlyOld, [op] + ops) == Part(OnlyOld, op) + Lines(OnlyOld, ops)
    ensures Lines(OnlyNew, [op] + ops) == Part(OnlyNew, op) + Lines(OnlyNew, ops)
  {
    assert ([op] + ops)[1..] == ops;
  }

  /** The walk has emitted the changes of `done` and still has to diff the rest. */
  ghost predicate Walked(before: seq<Line>, after: seq<Line>, i: nat, j: nat, removed: seq<Line>, added: seq<Line>,
                         done: seq<Op>)
    requires i <= |before| && j <= |after|
  {
    && Diff(before, after) == done + Diff(before[i..], after[j..])
    && removed == Lines(OnlyOld, done) && added == Lines(OnlyNew, done)
  }

  lemma DiffHead(b: seq<Line>, a: seq<Line>) returns (op: Op)
    requires b != [] && a != []
    ensures op == if b[0] == a[0] then Keep(b[0])
                  else if Lcs(b[1..], a) >= Lcs(b, a[1..]) then Remove(b[0]) else Add(a[0])
    ensures Diff(b, a) == [op] + Diff(if op.Add? then b else b[1..], if op.Remove? then a else a[1..])
  {
    op := Diff(b, a)[0];
  }

  lemma WalkStep(before: seq<Line>, after: seq<Line>, i: nat, j: nat, removed: seq<Line>, added: seq<Line>,
                 done: seq<Op>)
    returns (op: Op)
    requires i < |before| && j < |after| && Walked(before, after, i, j, removed, added, done)
    ensures op ==
      if before[i] == after[j] then Keep(before[i])
      else if Lcs(before[i + 1..], after[j..]) >= Lcs(before[i..], after[j + 1..]) then Remove(before[i])
      else Add(after[j])
    ensures Walked(before, after, if op.Add? then i else i + 1, if op.Remove? then j else j + 1,
                   removed + Part(OnlyOld, op), added + Part(OnlyNew, op), done + [op])
  {
    op := DiffHead(before[i..], after[j..]);
    assert before[i..][1..] == before[i + 1..] && after[j..][1..] == after[j + 1..];
    var rest := Diff(before[if op.Add? then i else i + 1..], after[if op.Remove? then j else j + 1..]);
    Assoc(done, [op], rest);
    LinesAppend(OnlyOld, done, [op]);
    LinesAppend(OnlyNew, done, [op]);
    assert Lines(OnlyOld, [op]) == Part(OnlyOld, op) && Lines(OnlyNew, [op]) == Part(OnlyNew, op);
  }

  method WalkLineDiff(before: seq<Line>, after: seq<Line>, dp: array2<nat>)
    returns (removed: seq<Line>, added: seq<Line>)
    requires dp.Length0 == |before| + 1 && dp.Length1 == |after| + 1
    requires forall i :: 0 <= i <= |before| ==> RowIsLcs(dp, before, after, i)
    ensures removed == Lines(OnlyOld, Diff(before, after)) && added == Lines(OnlyNew, Diff(before, after))
  {
    removed, added := [], [];
    var i, j := 0, 0;
    ghost var done: seq<Op> := [];
    assert before[0..] == before && after[0..] == after;
    while i < |before| && j < |after|
      invariant 0 <= i <= |before| && 0 <= j <= |after|
      invariant Walked(before, after, i, j, removed, added, done)
      decreases |before| - i + |after| - j
    {
      ghost var op := WalkStep(before, after, i, j, removed, added, done);
      assert dp[i + 1, j] == Lcs(before[i + 1..], after[j..]) by { assert RowIsLcs(dp, before, after, i + 1); }
      assert dp[i, j + 1] == Lcs(before[i..], after[j + 1..]) by { assert RowIsLcs(dp, before, after, i); }
      done := done + [op];
      if before[i] == after[j] {
        i, j := i + 1, j + 1;
      } else if dp[i + 1, j] >= dp[i, j + 1] {
        removed := removed + [before[i]];
        i := i + 1;
      } else {
        added := added + [after[j]];
        j := j + 1;
      }
    }
    DiffAtEnd(before[i..], after[j..]);
    LinesAppend(OnlyOld, done, Diff(before[i..], after[j..]));
    LinesAppend(OnlyNew, done, Diff(before[i..], after[j..]));
    removed := removed + before[i..];
    added := added + after[j..];
  }

  // ----- trimming -----

  function CommonPrefix(b: seq<Line>, a: seq<Line>): (n: nat)
    ensures n <= |b| && n <= |a| && forall k :: 0 <= k < n ==> b[k] == a[k]
  {
    if b != [] && a != [] && b[0] == a[0] then 1 + CommonPrefix(b[1..], a[1..]) else 0
  }

  function CommonSuffix(b: seq<Line>, a: seq<Line>): (n: nat)
    ensures n <= |b| && n <= |a| && forall k :: |b| - n <= k < |b| ==> b[k] == a[k - |b| + |a|]
  {
    if b != [] && a != [] && b[|b| - 1] == a[|a| - 1] then 1 + CommonSuffix(b[..|b| - 1], a[..|a| - 1]) else 0
  }

  /** What is left without the common leading lines. */
  function TrimFront(b: seq<Line>, a: seq<Line>): (seq<Line>, seq<Line>) {
    (b[CommonPrefix(b, a)..], a[CommonPrefix(b, a)..])
  }

  function TrimBack(b: seq<Line>, a: seq<Line>): (seq<Line>, seq<Line>) {
    (b[..|b| - CommonSuffix(b, a)], a[..|a| - CommonSuffix(b, a)])
  }

  /** Both files cut into a common front, a middle each, and a common back. */
  datatype Cut = Cut(front: seq<Line>, b: seq<Line>, a: seq<Line>, back: seq<Line>)

  function Trim(before: seq<Line>, after: seq<Line>): Cut {
    var (b, a) := TrimFront(before, after);
    var (b', a') := TrimBack(b, a);
    Cut(before[..CommonPrefix(before, after)], b', a', b[|b'|..])
  }

  function ChangedLines(before: seq<Line>, after: seq<Line>): (seq<Line>, seq<Line>) {
    var cut := Trim(before, after);
    (Lines(OnlyOld, Diff(cut.b, cut.a)), Lines(OnlyNew, Diff(cut.b, cut.a)))
  }

  lemma TrimBackStep(b: seq<Line>, a: seq<Line>)
    requires b != [] && a != [] && b[|b| - 1] == a[|a| - 1]
    ensures TrimBack(b, a) == TrimBack(b[..|b| - 1], a[..|a| - 1])
  {
    var init, init' := b[..|b| - 1], a[..|a| - 1];
    var n := CommonSuffix(init, init');
    assert init[..|init| - n] == b[..|b| - 1 - n] && init'[..|init'| - n] == a[..|a| - 1 - n];
  }

  method ComputeChangedLines(original: seq<Line>, mutated: seq<Line>) returns (removed: seq<Line>, added: seq<Line>)
    ensures (removed, added) == ChangedLines(original, mutated)
  {
    var before, after := original, mutated;
    while |before| > 0 && |after| > 0 && before[0] == after[0]
      invariant TrimFront(before, after) == TrimFront(original, mutated)
      decreases |before|
    {
      before, after := before[1..], after[1..];
    }
    assert CommonPrefix(before, after) == 0;
    assert before[0..] == before && after[0..] == after;
    ghost var front := (before, after);
    while |before| > 0 && |after| > 0 && before[|before| - 1] == after[|after| - 1]
      invariant TrimBack(before, after) == TrimBack(front.0, front.1)
      decreases |before|
    {
      TrimBackStep(before, after);
      before, after := before[..|before| - 1], after[..|after| - 1];
    }
    assert CommonSuffix(before, after) == 0;
    assert before[..|before|] == before && after[..|after|] == after;
    var dp := LineLcs(before, after);
    removed, added := WalkLineDiff(before, after, dp);
  }

  // ----- optimality over the whole files -----

  lemma {:induction false} LcsOne(x: Line, s: seq<Line>)
    ensures x in s ==> Lcs([x], s) == 1 && Lcs(s, [x]) == 1
    ensures Lcs([x], s) <= 1 && Lcs(s, [x]) <= 1
  {
    if s != [] {
      LcsOne(x, s[1..]);
    }
  }

  lemma {:induction false} LcsSnoc(b: seq<Line>, a: seq<Line>, x: Line)
    ensures Lcs(b + [x], a + [x]) == Lcs(b, a) + 1
    decreases |b| + |a|
  {
    if b == [] {
      assert b + [x] == [x];
      LcsOne(x, a + [x]);
    } else if a == [] {
      assert a + [x] == [x];
      LcsOne(x, b + [x]);
    } else {
      assert (b + [x])[1..] == b[1..] + [x] && (a + [x])[1..] == a[1..] + [x];
      if b[0] == a[0] {
        LcsSnoc(b[1..], a[1..], x);
      } else {
        LcsSnoc(b[1..], a, x);
        LcsSnoc(b, a[1..], x);
      }
    }
  }

  lemma {:induction false} LcsOfSuffixed(b: seq<Line>, a: seq<Line>, s: seq<Line>)
    ensures Lcs(b + s, a + s) == Lcs(b, a) + |s|
  {
    if s == [] {
      assert b + s == b && a + s == a;
    } else {
      var init := s[..|s| - 1];
      LcsOfSuffixed(b, a, init);
      LcsSnoc(b + init, a + init, s[|s| - 1]);
      assert b + s == b + init + [s[|s| - 1]] && a + s == a + init + [s[|s| - 1]];
    }
  }

  lemma {:induction false} LcsOfPrefixed(p: seq<Line>, b: seq<Line>, a: seq<Line>)
    ensures Lcs(p + b, p + a) == |p| + Lcs(b, a)
  {
    if p == [] {
      assert p + b == b && p + a == a;
    } else {
      LcsOfPrefixed(p[1..], b, a);
      assert (p + b)[1..] == p[1..] + b && (p + a)[1..] == p[1..] + a;
    }
  }

  lemma TrimJoins(before: seq<Line>, after: seq<Line>)
    ensures var cut := Trim(before, after);
            before == cut.front + (cut.b + cut.back) && after == cut.front + (cut.a + cut.back)
  {
    var (b, a) := TrimFront(before, after);
    FrontJoins(before, after);
    BackJoins(b, a);
  }

  lemma FrontJoins(b: seq<Line>, a: seq<Line>)
    ensures b == b[..CommonPrefix(b, a)] + TrimFront(b, a).0 && a == b[..CommonPrefix(b, a)] + TrimFront(b, a).1
  {
  }

  lemma BackJoins(b: seq<Line>, a: seq<Line>)
    ensures var (b', a') := TrimBack(b, a);
            |b'| <= |b| && b == b' + b[|b'|..] && a == a' + b[|b'|..]
  {
    var (b', a') := TrimBack(b, a);
    assert forall k :: |b'| <= k < |b| ==> b[k] == a[k - |b| + |a|];
  }

  /** The script of the whole files: the trimmed lines are kept. */
  function WholeScript(before: seq<Line>, after: seq<Line>): seq<Op> {
    var cut := Trim(before, after);
    Keeps(cut.front) + (Diff(cut.b, cut.a) + Keeps(cut.back))
  }

  lemma WholeScriptLines(side: Side, front: seq<Line>, ops: seq<Op>, back: seq<Line>)
    ensures Lines(side, Keeps(front) + (ops + Keeps(back))) ==
            Lines(side, Keeps(front)) + (Lines(side, ops) + Lines(side, Keeps(back)))
  {
    LinesAppend(side, Keeps(front), ops + Keeps(back));
    LinesAppend(side, ops, Keeps(back));
  }

  lemma FramedDiff(front: seq<Line>, b: seq<Line>, a: seq<Line>, back: seq<Line>)
    ensures var whole := Keeps(front) + (Diff(b, a) + Keeps(back));
      && IsScript(whole, front + (b + back), front + (a + back))
      && Lines(OnlyOld, whole) == Lines(OnlyOld, Diff(b, a)) && Lines(OnlyNew, whole) == Lines(OnlyNew, Diff(b, a))
      && Kept(whole) == |front| + Lcs(b, a) + |back|
  {
    var whole := Keeps(front) + (Diff(b, a) + Keeps(back));
    DiffKeepsLcs(b, a);
    KeepsKeep(front);
    KeepsKeep(back);
    forall side ensures Lines(side, whole) == Lines(side, Keeps(front)) +
        (Lines(side, Diff(b, a)) + Lines(side, Keeps(back))) {
      WholeScriptLines(side, front, Diff(b, a), back);
    }
  }

  lemma MostKeptIsCheapest(best: seq<Op>, before: seq<Line>, after: seq<Line>)
    requires IsScript(best, before, after) && Kept(best) == Lcs(before, after)
    ensures forall ops :: IsScript(ops, before, after) ==> Cost(best) <= Cost(ops)
  {
    CostFromKept(best);
    forall ops | IsScript(ops, before, after) ensures Cost(best) <= Cost(ops) {
      NoScriptKeepsMore(ops, before, after);
      CostFromKept(ops);
    }
  }

  /** The changed lines are the removals and additions of a script for the whole
      files, and no script for them changes fewer lines. */
  lemma ChangedLinesIsMinimal(before: seq<Line>, after: seq<Line>)
    ensures IsScript(WholeScript(before, after), before, after)
    ensures ChangedLines(before, after) == (Lines(OnlyOld, WholeScript(before, after)),
            Lines(OnlyNew, WholeScript(before, after)))
    ensures Kept(WholeScript(before, after)) == Lcs(before, after)
    ensures forall ops :: IsScript(ops, before, after) ==> Cost(WholeScript(before, after)) <= Cost(ops)
  {
    TrimJoins(before, after);
    var Cut(front, b, a, back) := Trim(before, after);
    FramedDiff(front, b, a, back);
    LcsOfPrefixed(front, b + back, a + back);
    LcsOfSuffixed(b, a, back);
    MostKeptIsCheapest(WholeScript(before, after), before, after);
  }

  // ----- which of the optimal scripts -----

  function Preference(op: Op): nat {
    match op
    case Keep(_) => 0
    case Remove(_) => 1
    case Add(_) => 2
  }

  /** In the first place where they differ, p prefers keeping to removing and
      removing to adding. */
  predicate NotAfter(p: seq<Op>, q: seq<Op>) {
    p == [] ||
    (q != [] && (Preference(p[0]) < Preference(q[0]) || (p[0] == q[0] && NotAfter(p[1..], q[1..]))))
  }

  /** Of the scripts that keep the most lines, the walk finds the first. */
  lemma {:induction false} DiffIsFirst(b: seq<Line>, a: seq<Line>, ops: seq<Op>)
    requires IsScript(ops, b, a) && Kept(ops) == Lcs(b, a)
    ensures NotAfter(Diff(b, a), ops)
    decreases |b| + |a|
  {
    if b != [] || a != [] {
      var op := ops[0];
      var b', a' := if op.Add? then b else b[1..], if op.Remove? then a else a[1..];
      ScriptStep(b, a, ops);
      NoScriptKeepsMore(ops[1..], b', a');
      if Diff(b, a)[0] == op {
        DiffIsFirst(b', a', ops[1..]);
      }
    }
  }

  /** The first step of a script, and what the others do. */
  lemma ScriptStep(b: seq<Line>, a: seq<Line>, ops: seq<Op>)
    requires IsScript(ops, b, a) && (b != [] || a != [])
    ensures ops != []
    ensures match ops[0]
      case Keep(line) => b != [] && a != [] && b[0] == line == a[0] && IsScript(ops[1..], b[1..], a[1..])
      case Remove(line) => b != [] && b[0] == line && IsScript(ops[1..], b[1..], a)
      case Add(line) => a != [] && a[0] == line && IsScript(ops[1..], b, a[1..])
    ensures Kept(ops) == Kept(ops[1..]) + if ops[0].Keep? then 1 else 0
  {
  }

  lemma {:induction false} CommonPrefixStops(b: seq<Line>, a: seq<Line>)
    ensures var n := CommonPrefix(b, a); n < |b| && n < |a| ==> b[n] != a[n]
  {
    if b != [] && a != [] && b[0] == a[0] {
      CommonPrefixStops(b[1..], a[1..]);
    }
  }

  lemma {:induction false} CommonSuffixStops(b: seq<Line>, a: seq<Line>)
    ensures var n := CommonSuffix(b, a); n < |b| && n < |a| ==> b[|b| - 1 - n] != a[|a| - 1 - n]
  {
    if b != [] && a != [] && b[|b| - 1] == a[|a| - 1] {
      CommonSuffixStops(b[..|b| - 1], a[..|a| - 1]);
    }
  }

  /** As many lines as possible are trimmed, in front before at the back, and of the
      scripts that keep the most of the rest, the first gives the changed lines. */
  lemma ChangedLinesAreFirst(before: seq<Line>, after: seq<Line>)
    ensures var Cut(front, b, a, back) := Trim(before, after);
      && before == front + (b + back) && after == front + (a + back)
      && (b + back != [] && a + back != [] ==> (b + back)[0] != (a + back)[0])
      && (b != [] && a != [] ==> b[|b| - 1] != a[|a| - 1])
      && ChangedLines(before, after) == (Lines(OnlyOld, Diff(b, a)), Lines(OnlyNew, Diff(b, a)))
      && forall ops :: IsScript(ops, b, a) && Kept(ops) == Lcs(b, a) ==> NotAfter(Diff(b, a), ops)
  {
    var Cut(front, b, a, back) := Trim(before, after);
    TrimJoins(before, after);
    TrimStops(before, after);
    forall ops | IsScript(ops, b, a) && Kept(ops) == Lcs(b, a) ensures NotAfter(Diff(b, a), ops) {
      DiffIsFirst(b, a, ops);
    }
  }

  lemma TrimStops(before: seq<Line>, after: seq<Line>)
    ensures var Cut(front, b, a, back) := Trim(before, after);
      && (b + back != [] && a + back != [] ==> (b + back)[0] != (a + back)[0])
      && (b != [] && a != [] ==> b[|b| - 1] != a[|a| - 1])
  {
    var (x, y) := TrimFront(before, after);
    TrimIsBack(before, after);
    FrontStops(before, after);
    BackStops(x, y);
  }

  /** What is left behind the front, and its middle. */
  lemma TrimIsBack(before: seq<Line>, after: seq<Line>)
    ensures var (x, y) := TrimFront(before, after);
      var Cut(_, b, a, back) := Trim(before, after);
      b + back == x && a + back == y && (b, a) == TrimBack(x, y)
  {
    var (x, y) := TrimFront(before, after);
    BackJoins(x, y);
  }

  lemma FrontStops(b: seq<Line>, a: seq<Line>)
    ensures var (x, y) := TrimFront(b, a); x != [] && y != [] ==> x[0] != y[0]
  {
    CommonPrefixStops(b, a);
  }

  lemma BackStops(b: seq<Line>, a: seq<Line>)
    ensures var (x, y) := TrimBack(b, a); x != [] && y != [] ==> x[|x| - 1] != y[|y| - 1]
  {
    CommonSuffixStops(b, a);
  }

  // ----- files without a common line -----

  ghost predicate Disjoint(b: seq<Line>, a: seq<Line>) {
    forall i, j :: 0 <= i < |b| && 0 <= j < |a| ==> b[i] != a[j]
  }

  lemma {:induction false} DisjointHaveNoLcs(b: seq<Line>, a: seq<Line>)
    requires Disjoint(b, a)
    ensures Lcs(b, a) == 0
    decreases |b| + |a|
  {
    if b != [] && a != [] {
      assert b[0] != a[0];
      DisjointHaveNoLcs(b[1..], a);
      DisjointHaveNoLcs(b, a[1..]);
    }
  }

  lemma {:induction false} NothingKept(ops: seq<Op>)
    requires Kept(ops) == 0
    ensures Lines(OnlyOld, ops) == Lines(Old, ops) && Lines(OnlyNew, ops) == Lines(New, ops)
  {
    if ops != [] {
      NothingKept(ops[1..]);
    }
  }

  /** All lines of both change. */
  lemma DisjointFilesChange(b: seq<Line>, a: seq<Line>)
    requires Disjoint(b, a)
    ensures ChangedLines(b, a) == (b, a)
  {
    DisjointHaveNoLcs(b, a);
    ChangedLinesIsMinimal(b, a);
    NothingKept(WholeScript(b, a));
  }

  /** What only one file has is in that file. */
  lemma {:induction false} PartOfFile(part: Side, whole: Side, ops: seq<Op>)
    requires (part == OnlyOld && whole == Old) || (part == OnlyNew && whole == New)
    ensures forall line :: line in Lines(part, ops) ==> line in Lines(whole, ops)
  {
    if ops != [] {
      PartOfFile(part, whole, ops[1..]);
    }
  }

  lemma ChangedLinesComeFrom(b: seq<Line>, a: seq<Line>)
    ensures var (removed, added) := ChangedLines(b, a);
      (forall line :: line in removed ==> line in b) && (forall line :: line in added ==> line in a)
  {
    ChangedLinesIsMinimal(b, a);
    PartOfFile(OnlyOld, Old, WholeScript(b, a));
    PartOfFile(OnlyNew, New, WholeScript(b, a));
  }
}
