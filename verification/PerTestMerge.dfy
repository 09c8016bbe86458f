/**
 Merging the profiles of single tests into one map from lines to tests
 (internal/coverage/coverage.go). A test name stands for its place in string
 order, and a line for a file and a line number.
*/
module PerTestMerge {
  import opened Wrappers
  import opened GoSort
  import opened Sequences

  type Name = nat
  datatype Line = Line(file: string, number: int)

  /** What one job reports: the lines its test covers, or that they were lost. */
  datatype Result = Lost | Profile(name: Name, lines: set<Line>)

  type Profiles = map<Line, seq<Name>>

  predicate Hits(r: Result, line: Line, name: Name) {
    r.Profile? && r.name == name && line in r.lines
  }

  /** Some profile of the results covers the line with the test. */
  predicate Covers(rs: seq<Result>, line: Line, name: Name) {
    exists i :: 0 <= i < |rs| && Hits(rs[i], line, name)
  }

  ghost predicate Known(rs: seq<Result>, line: Line) {
    exists name :: Covers(rs, line, name)
  }

  predicate AnyLost(rs: seq<Result>) {
    exists i :: 0 <= i < |rs| && rs[i].Lost?
  }

  ghost predicate StrictlyAscending(names: seq<Name>) {
    forall i, j :: 0 <= i < j < |names| ==> names[i] < names[j]
  }

  /** Every covered line has the sorted, duplicate-free list of its tests. */
  ghost predicate IsMerged(rs: seq<Result>, data: Profiles) {
    && (forall line :: line in data <==> Known(rs, line))
    && (forall line :: line in data ==> StrictlyAscending(data[line]))
    && (forall line, name :: line in data ==> (name in data[line] <==> Covers(rs, line, name)))
  }

  /** The lists as they stand before they are sorted. */
  ghost predicate IsCollected(rs: seq<Result>, data: Profiles) {
    && (forall line :: line in data <==> Known(rs, line))
    && (forall line, name :: line in data ==> (name in data[line] <==> Covers(rs, line, name)))
  }

  method ApplyPerTestResult(before: Profiles, r: Result) returns (data: Profiles)
    requires r.Profile?
    ensures data.Keys == before.Keys + r.lines
    ensures forall line :: line in data ==>
      data[line] == (if line in before then before[line] else []) + (if line in r.lines then [r.name] else [])
  {
    data := before;
    var rest := r.lines;
    while rest != {}
      invariant rest <= r.lines
      invariant data.Keys == before.Keys + (r.lines - rest)
      invariant forall line :: line in data ==>
        data[line] == (if line in before then before[line] else []) + (if line in r.lines - rest then [r.name] else [])
      decreases rest
    {
      var line :| line in rest;
      data := data[line := (if line in data then data[line] else []) + [r.name]];
      rest := rest - {line};
    }
  }

  lemma CoversNext(rs: seq<Result>, r: Result, line: Line, name: Name)
    ensures Covers(rs + [r], line, name) <==> Covers(rs, line, name) || Hits(r, line, name)
  {
    var more := rs + [r];
    assert more[|rs|] == r;
    if k :| 0 <= k < |rs| && Hits(rs[k], line, name) {
      assert more[k] == rs[k];
    }
    if k :| 0 <= k < |more| && Hits(more[k], line, name) {
      assert k < |rs| ==> more[k] == rs[k];
    }
  }

  lemma CollectedNext(rs: seq<Result>, r: Result, before: Profiles, data: Profiles)
    requires IsCollected(rs, before)
    requires r.Lost? ==> data == before
    requires r.Profile? ==> data.Keys == before.Keys + r.lines
    requires r.Profile? ==> forall line :: line in data ==>
      data[line] == (if line in before then before[line] else []) + (if line in r.lines then [r.name] else [])
    ensures IsCollected(rs + [r], data)
  {
    forall line, name ensures Covers(rs + [r], line, name) <==> Covers(rs, line, name) || Hits(r, line, name) {
      CoversNext(rs, r, line, name);
    }
    forall line ensures line in data <==> Known(rs + [r], line) {
      if r.Profile? && line in r.lines {
        assert Hits(r, line, r.name);
      }
      if line in before {
        var name :| Covers(rs, line, name);
        assert Covers(rs + [r], line, name);
      }
    }
  }

  const NAME_KEY: Name -> int := (n: Name) => n

  /** slices.Compact on a sorted list. */
  function Compact(names: seq<Name>): seq<Name> {
    if |names| < 2 then names
    else if names[0] == names[1] then Compact(names[1..])
    else [names[0]] + Compact(names[1..])
  }

  lemma {:induction false} CompactIsStrict(names: seq<Name>)
    requires SortedBy(NAME_KEY, names)
    ensures StrictlyAscending(Compact(names))
    ensures forall n :: n in Compact(names) <==> n in names
    ensures names != [] ==> Compact(names) != [] && Compact(names)[0] == names[0]
  {
    if |names| >= 2 {
      assert NAME_KEY(names[0]) <= NAME_KEY(names[1]);
      var tail := names[1..];
      forall i, j | 0 <= i < j < |tail| ensures NAME_KEY(tail[i]) <= NAME_KEY(tail[j]) {
        assert NAME_KEY(names[i + 1]) <= NAME_KEY(names[j + 1]);
      }
      CompactIsStrict(tail);
      assert names == [names[0]] + tail;
    }
  }

  function SortedUnique(names: seq<Name>): seq<Name> {
    Compact(Sort(NAME_KEY, names))
  }

  lemma SortedUniqueIsSet(names: seq<Name>)
    ensures StrictlyAscending(SortedUnique(names)) && forall n :: n in SortedUnique(names) <==> n in names
  {
    SortIsSorted(NAME_KEY, names);
    SameElements(Sort(NAME_KEY, names), names);
    CompactIsStrict(Sort(NAME_KEY, names));
  }

  /** mergePerTestProfiles over the results in the order they arrive. A partial map
      would claim that a lost test covers nothing, so there is none. */
  method MergePerTestProfiles(rs: seq<Result>) returns (p: Option<Profiles>)
    ensures p.None? <==> AnyLost(rs)
    ensures p.Some? ==> IsMerged(rs, p.value)
  {
    var data: Profiles := map[];
    var lost := false;
    for i := 0 to |rs|
      invariant lost <==> AnyLost(rs[..i])
      invariant IsCollected(rs[..i], data)
    {
      assert rs[..i + 1] == rs[..i] + [rs[i]];
      assert AnyLost(rs[..i] + [rs[i]]) <==> AnyLost(rs[..i]) || rs[i].Lost? by {
        assert (rs[..i] + [rs[i]])[i] == rs[i];
        assert forall k :: 0 <= k < i ==> (rs[..i] + [rs[i]])[k] == rs[..i][k];
      }
      ghost var before := data;
      if rs[i].Lost? {
        lost := true;
      } else {
        data := ApplyPerTestResult(data, rs[i]);
      }
      CollectedNext(rs[..i], rs[i], before, data);
    }
    assert rs[..|rs|] == rs;
    if lost {
      return None;
    }
    forall line | line in data ensures StrictlyAscending(SortedUnique(data[line]))
      && forall n :: n in SortedUnique(data[line]) <==> n in data[line]
    {
      SortedUniqueIsSet(data[line]);
    }
    return Some(map line | line in data :: SortedUnique(data[line]));
  }

  /** The results fix the merged map. */
  lemma MergedIsUnique(rs: seq<Result>, data: Profiles, data': Profiles)
    requires IsMerged(rs, data) && IsMerged(rs, data')
    ensures data == data'
  {
    forall line | line in data ensures data[line] == data'[line] {
      AscendingIsUnique(NAME_KEY, data[line], data'[line]);
    }
  }

  /** Whatever order the same results arrive in, the merged map is the same. */
  lemma MergeIgnoresOrder(rs: seq<Result>, rs': seq<Result>, data: Profiles, data': Profiles)
    requires multiset(rs) == multiset(rs') && IsMerged(rs, data) && IsMerged(rs', data')
    ensures data == data' && (AnyLost(rs) <==> AnyLost(rs'))
  {
    MergedForPermutation(rs, rs', data);
    MergedIsUnique(rs', data, data');
  }

  lemma CoversAs(rs: seq<Result>, rs': seq<Result>, line: Line, name: Name)
    requires forall r :: r in rs ==> r in rs'
    ensures Covers(rs, line, name) ==> Covers(rs', line, name)
  {
    if i :| 0 <= i < |rs| && Hits(rs[i], line, name) {
      assert rs[i] in rs';
      var j :| 0 <= j < |rs'| && rs'[j] == rs[i];
    }
  }

  lemma MergedForPermutation(rs: seq<Result>, rs': seq<Result>, data: Profiles)
    requires multiset(rs) == multiset(rs') && IsMerged(rs, data)
    ensures IsMerged(rs', data) && (AnyLost(rs) <==> AnyLost(rs'))
  {
    SamePlaces(rs, rs');
    forall line, name ensures Covers(rs, line, name) <==> Covers(rs', line, name) {
      CoversAs(rs, rs', line, name);
      CoversAs(rs', rs, line, name);
    }
    forall line ensures Known(rs, line) <==> Known(rs', line) {
      if name :| Covers(rs, line, name) {
        assert Covers(rs', line, name);
      }
      if name :| Covers(rs', line, name) {
        assert Covers(rs, line, name);
      }
    }
  }

  lemma SamePlaces(rs: seq<Result>, rs': seq<Result>)
    requires multiset(rs) == multiset(rs')
    ensures forall r :: r in rs <==> r in rs'
    ensures AnyLost(rs) <==> AnyLost(rs')
  {
    forall r ensures r in rs <==> r in rs' {
      assert r in multiset(rs) <==> r in multiset(rs');
    }
    if i :| 0 <= i < |rs| && rs[i].Lost? {
      assert rs[i] in rs';
    }
    if i :| 0 <= i < |rs'| && rs'[i].Lost? {
      assert rs'[i] in rs;
    }
  }
}
