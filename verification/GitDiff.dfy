/**
 internal/gitdiff: merging the changed line ranges of a file inside the slice
 they are read from, and looking lines up in the result.
*/
module GitDiff {
  import opened Sequences
  import opened Wrappers
  import opened GoSort

  datatype LineRange = LineRange(start: int, end: int)

  /** The line is inside one of the ranges. */
  ghost predicate Covered(rs: seq<LineRange>, line: int) {
    exists k :: 0 <= k < |rs| && rs[k].start <= line <= rs[k].end
  }

  ghost predicate NonEmpty(rs: seq<LineRange>) {
    forall k :: 0 <= k < |rs| ==> rs[k].start <= rs[k].end
  }

  /** Ascending ranges with at least one uncovered line between neighbours. */
  ghost predicate Separated(rs: seq<LineRange>) {
    && NonEmpty(rs)
    && forall i, j :: 0 <= i < j < |rs| ==> rs[i].end + 1 < rs[j].start
  }

  // ----- merging -----

  /** What one more range does to the merged ones. */
  function Merge(merged: seq<LineRange>, current: LineRange): seq<LineRange>
    requires merged != []
  {
    var last := merged[|merged| - 1];
    if current.start > last.end + 1 then merged + [current]
    else if current.end > last.end then merged[|merged| - 1 := LineRange(last.start, current.end)]
    else merged
  }

  lemma MergeSeparates(merged: seq<LineRange>, current: LineRange)
    requires merged != [] && Separated(merged)
    requires merged[|merged| - 1].start <= current.start <= current.end
    ensures var r := Merge(merged, current); Separated(r) && r[|r| - 1].start <= current.start
  {
  }

  lemma MergeKeepsLines(merged: seq<LineRange>, current: LineRange, line: int)
    requires merged != [] && merged[|merged| - 1].start <= current.start
    ensures Covered(Merge(merged, current), line) <==> Covered(merged, line) || current.start <= line <= current.end
  {
    var r, n := Merge(merged, current), |merged|;
    if k :| 0 <= k < n && merged[k].start <= line <= merged[k].end {
      assert r[k].start <= line <= r[k].end;
    }
    if current.start <= line <= current.end {
      if current.start > merged[n - 1].end + 1 {
        assert r[n] == current;
      } else if line <= merged[n - 1].end {
        assert merged[n - 1].start <= line;
      } else {
        assert r[n - 1].start <= line <= r[n - 1].end;
      }
    }
    if k :| 0 <= k < |r| && r[k].start <= line <= r[k].end {
      if k < n - 1 {
        assert merged[k] == r[k];
      } else if k == n - 1 {
        assert merged[n - 1].start == r[n - 1].start;
      }
    }
  }

  const START_OF: LineRange -> int := (r: LineRange) => r.start

  lemma CoveredBySame(a: seq<LineRange>, b: seq<LineRange>, line: int)
    requires forall r :: r in a <==> r in b
    ensures Covered(a, line) <==> Covered(b, line)
  {
    if k :| 0 <= k < |a| && a[k].start <= line <= a[k].end {
      assert a[k] in b;
    }
    if k :| 0 <= k < |b| && b[k].start <= line <= b[k].end {
      assert b[k] in a;
    }
  }

  lemma CoveredNext(rs: seq<LineRange>, i: nat, line: int)
    requires i < |rs|
    ensures Covered(rs[..i + 1], line) <==> Covered(rs[..i], line) || rs[i].start <= line <= rs[i].end
  {
    assert forall k :: 0 <= k < i ==> rs[..i + 1][k] == rs[..i][k];
    if rs[i].start <= line <= rs[i].end {
      assert rs[..i + 1][i] == rs[i];
    }
    if k :| 0 <= k < i && rs[..i][k].start <= line <= rs[..i][k].end {
      assert rs[..i + 1][k].start <= line <= rs[..i + 1][k].end;
    }
  }

  /** The ranges merged after the first n. */
  function MergeAll(sorted: seq<LineRange>, n: nat): (merged: seq<LineRange>)
    requires 1 <= n <= |sorted|
    ensures 1 <= |merged| <= n
  {
    if n == 1 then [sorted[0]] else Merge(MergeAll(sorted, n - 1), sorted[n - 1])
  }

  ghost predicate Ascending(rs: seq<LineRange>) {
    forall i, j :: 0 <= i < j < |rs| ==> rs[i].start <= rs[j].start
  }

  lemma {:induction false} MergeAllSeparates(sorted: seq<LineRange>, n: nat)
    requires 1 <= n <= |sorted| && NonEmpty(sorted) && Ascending(sorted)
    ensures Separated(MergeAll(sorted, n))
    ensures MergeAll(sorted, n)[|MergeAll(sorted, n)| - 1].start <= sorted[n - 1].start
  {
    if n > 1 {
      MergeAllSeparates(sorted, n - 1);
      NextIsLater(sorted, n - 1);
      MergeSeparates(MergeAll(sorted, n - 1), sorted[n - 1]);
    }
  }

  lemma NextIsLater(sorted: seq<LineRange>, i: nat)
    requires 1 <= i < |sorted| && NonEmpty(sorted) && Ascending(sorted)
    ensures sorted[i - 1].start <= sorted[i].start <= sorted[i].end
  {
  }

  lemma {:induction false} MergeAllKeepsLines(sorted: seq<LineRange>, n: nat, line: int)
    requires 1 <= n <= |sorted| && NonEmpty(sorted) && Ascending(sorted)
    ensures Covered(MergeAll(sorted, n), line) <==> Covered(sorted[..n], line)
  {
    if n == 1 {
      FirstIsMerged(sorted);
    } else {
      MergeAllKeepsLines(sorted, n - 1, line);
      LastMergedStarts(sorted, n - 1);
      NextKeepsLines(MergeAll(sorted, n - 1), sorted, n - 1, line);
    }
  }

  lemma FirstIsMerged(sorted: seq<LineRange>)
    requires sorted != []
    ensures MergeAll(sorted, 1) == sorted[..1]
  {
  }

  lemma LastMergedStarts(sorted: seq<LineRange>, i: nat)
    requires 1 <= i < |sorted| && NonEmpty(sorted) && Ascending(sorted)
    ensures MergeAll(sorted, i)[|MergeAll(sorted, i)| - 1].start <= sorted[i].start
  {
    MergeAllSeparates(sorted, i);
    assert sorted[i - 1].start <= sorted[i].start;
  }

  lemma NextKeepsLines(merged: seq<LineRange>, sorted: seq<LineRange>, i: nat, line: int)
    requires i < |sorted| && merged != [] && merged[|merged| - 1].start <= sorted[i].start
    requires Covered(merged, line) <==> Covered(sorted[..i], line)
    ensures Covered(Merge(merged, sorted[i]), line) <==> Covered(sorted[..i + 1], line)
  {
    MergeKeepsLines(merged, sorted[i], line);
    CoveredNext(sorted, i, line);
  }

  lemma SortKeepsLines(rs: seq<LineRange>)
    requires NonEmpty(rs)
    ensures var sorted := Sort(START_OF, rs);
      && |sorted| == |rs| && NonEmpty(sorted) && Ascending(sorted)
      && forall line :: Covered(sorted, line) <==> Covered(rs, line)
  {
    var sorted := Sort(START_OF, rs);
    SortIsSorted(START_OF, rs);
    SameElements(sorted, rs);
    forall i, j | 0 <= i < j < |sorted| ensures sorted[i].start <= sorted[j].start {
      assert START_OF(sorted[i]) <= START_OF(sorted[j]);
    }
    forall k | 0 <= k < |sorted| ensures sorted[k].start <= sorted[k].end {
      assert sorted[k] in rs;
    }
    forall line ensures Covered(sorted, line) <==> Covered(rs, line) {
      CoveredBySame(sorted, rs, line);
    }
  }

  lemma MergedIsCoalesced(sorted: seq<LineRange>)
    requires sorted != [] && NonEmpty(sorted) && Ascending(sorted)
    ensures Separated(MergeAll(sorted, |sorted|))
    ensures forall line :: Covered(MergeAll(sorted, |sorted|), line) <==> Covered(sorted, line)
  {
    MergeAllSeparates(sorted, |sorted|);
    assert sorted[..|sorted|] == sorted;
    forall line ensures Covered(MergeAll(sorted, |sorted|), line) <==> Covered(sorted, line) {
      MergeAllKeepsLines(sorted, |sorted|, line);
    }
  }

  /** The same lines in separated ranges. */
  ghost predicate Coalesced(ranges: seq<LineRange>, merged: seq<LineRange>) {
    Separated(merged) && forall line :: Covered(merged, line) <==> Covered(ranges, line)
  }

  /** The merged ranges are written over the ones already read; the first n
      elements of the array are the result. */
  method Coalesce(ranges: array<LineRange>) returns (n: nat)
    requires NonEmpty(ranges[..])
    modifies ranges
    ensures n <= ranges.Length && Coalesced(old(ranges[..]), ranges[..n])
  {
    if ranges.Length < 2 {
      n := ranges.Length;
      assert ranges[..n] == ranges[..];
      return;
    }
    ghost var was := ranges[..];
    var sorted := Sort(START_OF, ranges[..]);
    SortKeepsLines(was);
    forall k | 0 <= k < ranges.Length {
      ranges[k] := sorted[k];
    }
    assert ranges[..] == sorted;
    n := MergeInPlace(ranges);
    MergedIsCoalesced(sorted);
  }

  /** The merge loop: it reads element i of the slice it has overwritten up to n. */
  method MergeInPlace(ranges: array<LineRange>) returns (n: nat)
    requires ranges.Length > 0
    modifies ranges
    ensures n <= ranges.Length && ranges[..n] == MergeAll(old(ranges[..]), ranges.Length)
  {
    ghost var sorted := ranges[..];
    n := 1;
    for i := 1 to ranges.Length
      invariant 1 <= n <= i
      invariant ranges[i..] == sorted[i..]
      invariant ranges[..n] == MergeAll(sorted, i)
    {
      var current := ranges[i];
      assert current == ranges[i..][0];
      if current.start <= ranges[n - 1].end + 1 {
        if current.end > ranges[n - 1].end {
          ranges[n - 1] := LineRange(ranges[n - 1].start, current.end);
        }
      } else {
        ranges[n] := current;
        n := n + 1;
      }
    }
  }

  type ChangedLines = map<string, seq<LineRange>>

  /** The loop over the files, each with its own array. */
  method CoalesceAll(cl: map<string, array<LineRange>>) returns (merged: ChangedLines)
    requires forall f, g :: f in cl && g in cl && f != g ==> cl[f] != cl[g]
    requires forall f :: f in cl ==> NonEmpty(cl[f][..])
    modifies cl.Values
    ensures merged.Keys == cl.Keys
    ensures forall f :: f in cl ==> Coalesced(old(cl[f][..]), merged[f])
  {
    merged := map[];
    var files := cl.Keys;
    ghost var was: ChangedLines := map f | f in cl :: cl[f][..];
    while files != {}
      invariant files <= cl.Keys && merged.Keys == cl.Keys - files
      invariant forall f :: f in files ==> cl[f][..] == was[f]
      invariant forall f :: f in merged ==> Coalesced(was[f], merged[f])
      decreases |files|
    {
      var file :| file in files;
      files := files - {file};
      assert forall f :: f in files ==> cl[f] != cl[file];
      var n := Coalesce(cl[file]);
      merged := merged[file := cl[file][..n]];
    }
  }

  // ----- lookups -----

  function RangesOf(cl: ChangedLines, file: string): seq<LineRange> {
    if file in cl then cl[file] else []
  }

  /** Line 0 stands for an unknown position, which is never filtered. */
  ghost predicate Changed(cl: ChangedLines, file: string, line: int) {
    line == 0 || Covered(RangesOf(cl, file), line)
  }

  method IsRelativeLineChanged(cl: ChangedLines, relFile: string, line: int) returns (r: bool)
    requires Separated(RangesOf(cl, relFile))
    ensures r <==> Changed(cl, relFile, line)
  {
    if line == 0 {
      return true;
    }
    var ranges := RangesOf(cl, relFile);
    var reaches := (k: nat) requires k < |ranges| => ranges[k].end >= line;
    var i := Search(|ranges|, reaches);
    forall k | 0 <= k < i ensures ranges[k].end < line {
      assert !reaches(k);
    }
    assert i < |ranges| ==> reaches(i);
    r := i < |ranges| && ranges[i].start <= line;
  }

  predicate HasSuffix(s: string, suffix: string) {
    |suffix| <= |s| && s[|s| - |suffix|..] == suffix
  }

  /** A key names the file or a path that ends in it. */
  predicate Matches(absFile: string, key: string) {
    key == absFile || (key != "" && HasSuffix(absFile, "/" + key))
  }

  /** In terms of the path: the key is the path, or what follows one of its slashes. */
  lemma MatchesAtSlash(absFile: string, key: string)
    ensures Matches(absFile, key) <==> key == absFile || (key != "" && exists dir :: absFile == dir + "/" + key)
  {
    if HasSuffix(absFile, "/" + key) {
      var n := |absFile| - |key| - 1;
      assert absFile == absFile[..n] + ("/" + key);
      Assoc(absFile[..n], "/", key);
    }
    forall dir | absFile == dir + "/" + key ensures HasSuffix(absFile, "/" + key) {
      Assoc(dir, "/", key);
    }
  }

  /** No two keys of one length match, so the longest match is unique. */
  lemma LongestMatchIsUnique(absFile: string, a: string, b: string)
    requires Matches(absFile, a) && Matches(absFile, b) && |a| == |b|
    ensures a == b
  {
    if a != absFile && b != absFile {
      assert ("/" + a)[1..] == a && ("/" + b)[1..] == b;
    }
  }

  /** The longest matching key, whatever order the map is read in. */
  method LongestSuffixFile(absFile: string, keys: set<string>) returns (best: string, found: bool)
    ensures found <==> exists k :: k in keys && Matches(absFile, k)
    ensures found ==> best in keys && Matches(absFile, best)
    ensures found ==> forall k :: k in keys && Matches(absFile, k) ==> |k| < |best| || k == best
  {
    best, found := "", false;
    var rest := keys;
    while rest != {}
      invariant rest <= keys
      invariant found <==> exists k :: k in keys - rest && Matches(absFile, k)
      invariant found ==> best in keys - rest && Matches(absFile, best)
      invariant found ==> forall k :: k in keys - rest && Matches(absFile, k) ==> |k| <= |best|
      decreases rest
    {
      var relPath :| relPath in rest;
      rest := rest - {relPath};
      if Matches(absFile, relPath) && (!found || |relPath| > |best|) {
        best, found := relPath, true;
      }
    }
    if found {
      forall k | k in keys && Matches(absFile, k) ensures |k| < |best| || k == best {
        if |k| == |best| {
          LongestMatchIsUnique(absFile, k, best);
        }
      }
    }
  }

  /** The file a lookup by absolute path ends up at. */
  ghost predicate Resolves(cl: ChangedLines, absFile: string, key: string) {
    && key in cl && Matches(absFile, key)
    && forall k :: k in cl && Matches(absFile, k) ==> |k| < |key| || k == key
  }

  method IsLineChanged(cl: ChangedLines, absFile: string, line: int) returns (r: bool)
    requires forall file :: file in cl ==> Separated(cl[file])
    ensures r <==> line == 0 || exists key :: Resolves(cl, absFile, key) && Covered(cl[key], line)
  {
    if line == 0 {
      return true;
    }
    var best, found := LongestSuffixFile(absFile, cl.Keys);
    if !found {
      return false;
    }
    assert Resolves(cl, absFile, best);
    r := IsRelativeLineChanged(map[best := cl[best]], best, line);
  }

  /** The line is one the diff touches, looked up by repository path if there is one. */
  ghost predicate InDiff(cl: ChangedLines, repoFile: string, absFile: string, line: int) {
    if repoFile != "" then Covered(RangesOf(cl, repoFile), line)
    else exists key :: Resolves(cl, absFile, key) && Covered(cl[key], line)
  }

  /** gitDiffExcludes of internal/engine/scope.go; no line set means no filter. */
  method GitDiffExcludes(lines: Option<ChangedLines>, repoFile: string, absFile: string, line: int) returns (r: bool)
    requires lines.Some? ==> forall file :: file in lines.value ==> Separated(lines.value[file])
    ensures r <==> lines.Some? && line != 0 && !InDiff(lines.value, repoFile, absFile, line)
  {
    if lines.None? {
      return false;
    }
    var changed := IsRelativeLineChanged(lines.value, repoFile, line);
    if repoFile == "" {
      changed := IsLineChanged(lines.value, absFile, line);
    }
    return !changed;
  }
}
