/**
 walkSrcDir of internal/importing/import.go: collecting the packages under a
 source directory, with and without skipping trees the pattern cannot match.
*/
module PackageWalk {
  import opened Sequences
  import opened PackagePattern

  /** A directory: its last path element, whether go/build finds a package in it,
      and its subdirectories in walk order. */
  datatype Dir = Dir(elem: string, importable: bool, kids: seq<Dir>)

  /** The three tests of a walk; `std` is the rule for the standard library. */
  datatype Rules = Rules(std: bool, matches: string -> bool, canMatch: string -> bool)

  function PathOf(parent: string, elem: string): string {
    if parent == "" then elem else parent + "/" + elem
  }

  predicate IsSkippableDir(elem: string) {
    HasPrefix(elem, ".") || HasPrefix(elem, "_") || elem == "testdata"
  }

  predicate SkipSrcDir(rules: Rules, elem: string, name: string) {
    IsSkippableDir(elem) || (rules.std && '.' in name) || !rules.canMatch(name)
  }

  datatype Found = Found(pkgs: seq<string>, have: set<string>)

  function Visit(rules: Rules, parent: string, d: Dir, have: set<string>): Found
    decreases d, 0
  {
    var name := PathOf(parent, d.elem);
    if SkipSrcDir(rules, d.elem, name) then Found([], have)
    else
      var own := if name !in have && rules.matches(name) && d.importable then [name] else [];
      var below := VisitAll(rules, name, d.kids, have + {name});
      Found(own + below.pkgs, below.have)
  }

  function VisitAll(rules: Rules, parent: string, ds: seq<Dir>, have: set<string>): Found
    decreases ds, 1
  {
    if ds == [] then Found([], have)
    else
      var first := Visit(rules, parent, ds[0], have);
      var others := VisitAll(rules, parent, ds[1..], first.have);
      Found(first.pkgs + others.pkgs, others.have)
  }

  lemma {:induction false} VisitAllSnoc(rules: Rules, parent: string, ds: seq<Dir>, d: Dir, have: set<string>)
    ensures var before := VisitAll(rules, parent, ds, have);
      VisitAll(rules, parent, ds + [d], have) ==
        Found(before.pkgs + Visit(rules, parent, d, before.have).pkgs, Visit(rules, parent, d, before.have).have)
  {
    if ds == [] {
      NoAppend([d]);
    } else {
      VisitAllSnoc(rules, parent, ds[1..], d, Visit(rules, parent, ds[0], have).have);
      AppendStep(ds, [d]);
    }
  }

  /** The walk over the directories below `parent`, adding to `seen` as it goes. */
  method WalkSrcDir(rules: Rules, parent: string, ds: seq<Dir>, seen: set<string>)
    returns (pkgs: seq<string>, have: set<string>)
    ensures Found(pkgs, have) == VisitAll(rules, parent, ds, seen)
    ensures Proper(ds) ==> Lists(rules, parent, ds, seen, Found(pkgs, have)) && ParentsFirst(pkgs)
    decreases ds, 1
  {
    if Proper(ds) {
      VisitAllLists(rules, parent, ds, seen);
      VisitAllInOrder(rules, parent, ds, seen);
    }
    pkgs, have := [], seen;
    for i := 0 to |ds|
      invariant Found(pkgs, have) == VisitAll(rules, parent, ds[..i], seen)
    {
      assert ds[..i + 1] == ds[..i] + [ds[i]];
      VisitAllSnoc(rules, parent, ds[..i], ds[i], seen);
      var more;
      more, have := VisitDir(rules, parent, ds[i], have);
      pkgs := pkgs + more;
    }
    assert ds[..|ds|] == ds;
  }

  /** One directory of the walk, with what is below it. */
  method VisitDir(rules: Rules, parent: string, d: Dir, seen: set<string>)
    returns (pkgs: seq<string>, have: set<string>)
    ensures Found(pkgs, have) == Visit(rules, parent, d, seen)
    decreases d, 0
  {
    var name := PathOf(parent, d.elem);
    if SkipSrcDir(rules, d.elem, name) {
      return [], seen;
    }
    pkgs := [];
    if name !in seen && rules.matches(name) && d.importable {
      pkgs := [name];
    }
    var below;
    below, have := WalkSrcDir(rules, name, d.kids, seen + {name});
    pkgs := pkgs + below;
  }

  // ----- which packages are listed -----

  /** Directories on the way down, each in the one before. */
  ghost predicate IsPath(ds: seq<Dir>, p: seq<Dir>) {
    p != [] && p[0] in ds && (|p| == 1 || IsPath(p[0].kids, p[1..]))
  }

  function Spelled(p: seq<Dir>): string
    requires p != []
  {
    if |p| == 1 then p[0].elem else p[0].elem + "/" + Spelled(p[1..])
  }

  /** The walk goes into a directory of this name: it is not hidden, not underscored
      and not test data, has no dot in its path if the standard library is asked
      for, and can match. */
  predicate Enters(rules: Rules, elem: string, name: string) {
    && (elem != "" ==> elem[0] != '.' && elem[0] != '_') && elem != "testdata"
    && (rules.std ==> '.' !in name) && rules.canMatch(name)
  }

  /** The walk goes into every directory of a path below parent. */
  predicate IsOpen(rules: Rules, parent: string, p: seq<Dir>)
    decreases |p|
  {
    p == [] ||
    var name := PathOf(parent, p[0].elem); Enters(rules, p[0].elem, name) && IsOpen(rules, name, p[1..])
  }

  /** The path spells the name below parent, and the walk skips none of its
      directories. */
  ghost predicate LeadsTo(rules: Rules, parent: string, ds: seq<Dir>, p: seq<Dir>, name: string) {
    IsPath(ds, p) && name == PathOf(parent, Spelled(p)) && IsOpen(rules, parent, p)
  }

  /** Some path leads to a directory of this name, or to one that holds a package. */
  ghost predicate Reaches(rules: Rules, parent: string, ds: seq<Dir>, name: string, importable: bool) {
    exists p: seq<Dir> :: LeadsTo(rules, parent, ds, p, name) && (importable ==> p[|p| - 1].importable)
  }

  /** As a file system lists directories: names are not empty and hold no slash, and
      no two in one directory are the same. */
  predicate Proper(ds: seq<Dir>) {
    && (forall i :: 0 <= i < |ds| ==> ds[i].elem != "" && '/' !in ds[i].elem && Proper(ds[i].kids))
    && (forall i, j :: 0 <= i < j < |ds| ==> ds[i].elem != ds[j].elem)
  }

  lemma SkipsUnlessEnters(rules: Rules, elem: string, name: string)
    ensures SkipSrcDir(rules, elem, name) <==> !Enters(rules, elem, name)
  {
  }

  lemma PathOfPath(parent: string, elem: string, rest: string)
    requires elem != ""
    ensures PathOf(parent, elem + "/" + rest) == PathOf(PathOf(parent, elem), rest)
  {
  }

  /** A path of one directory. */
  lemma ShortPath(rules: Rules, parent: string, ds: seq<Dir>, d: Dir, name: string)
    ensures LeadsTo(rules, parent, ds, [d], name) <==>
      d in ds && name == PathOf(parent, d.elem) && Enters(rules, d.elem, name)
  {
    var p := [d];
    assert p[1..] == [] && IsOpen(rules, PathOf(parent, d.elem), p[1..]);
  }

  /** The first directory of a path, and the path below it. */
  lemma LongPath(rules: Rules, parent: string, ds: seq<Dir>, d: Dir, q: seq<Dir>, name: string)
    requires d.elem != "" && q != []
    ensures var own := PathOf(parent, d.elem);
      LeadsTo(rules, parent, ds, [d] + q, name) <==>
      d in ds && Enters(rules, d.elem, own) && LeadsTo(rules, own, d.kids, q, name)
  {
    var p := [d] + q;
    assert p[0] == d && p[1..] == q && |p| > 1;
    PathOfPath(parent, d.elem, Spelled(q));
  }

  /** A path through the one directory d: d itself, or d and a path below it. */
  ghost predicate ReachesThrough(rules: Rules, parent: string, d: Dir, name: string, importable: bool) {
    && Enters(rules, d.elem, PathOf(parent, d.elem))
    && (|| (name == PathOf(parent, d.elem) && (importable ==> d.importable))
        || Reaches(rules, PathOf(parent, d.elem), d.kids, name, importable))
  }

  lemma ThroughIsReached(rules: Rules, parent: string, ds: seq<Dir>, d: Dir, name: string, importable: bool)
    requires d in ds && d.elem != "" && ReachesThrough(rules, parent, d, name, importable)
    ensures Reaches(rules, parent, ds, name, importable)
  {
    var own := PathOf(parent, d.elem);
    if name == own && (importable ==> d.importable) {
      ShortPath(rules, parent, ds, d, name);
      var p := [d];
      assert LeadsTo(rules, parent, ds, p, name);
    } else {
      var q: seq<Dir> :| LeadsTo(rules, own, d.kids, q, name) && (importable ==> q[|q| - 1].importable);
      LongPath(rules, parent, ds, d, q, name);
      var p := [d] + q;
      assert LeadsTo(rules, parent, ds, p, name);
    }
  }

  lemma ReachedIsThrough(rules: Rules, parent: string, ds: seq<Dir>, name: string, importable: bool) returns (i: nat)
    requires (forall d :: d in ds ==> d.elem != "") && Reaches(rules, parent, ds, name, importable)
    ensures i < |ds| && ReachesThrough(rules, parent, ds[i], name, importable)
  {
    var p: seq<Dir> :| LeadsTo(rules, parent, ds, p, name) && (importable ==> p[|p| - 1].importable);
    i := FirstOfPath(rules, parent, ds, p, name);
    PathIsThrough(rules, parent, ds, p, name, importable);
  }

  lemma FirstOfPath(rules: Rules, parent: string, ds: seq<Dir>, p: seq<Dir>, name: string) returns (i: nat)
    requires LeadsTo(rules, parent, ds, p, name)
    ensures i < |ds| && ds[i] == p[0]
  {
    i :| 0 <= i < |ds| && ds[i] == p[0];
  }

  lemma PathIsThrough(rules: Rules, parent: string, ds: seq<Dir>, p: seq<Dir>, name: string, importable: bool)
    requires LeadsTo(rules, parent, ds, p, name) && p[0].elem != "" && (importable ==> p[|p| - 1].importable)
    ensures ReachesThrough(rules, parent, p[0], name, importable)
  {
    if |p| == 1 {
      assert p == [p[0]];
      ShortPath(rules, parent, ds, p[0], name);
    } else {
      LongPathIsThrough(rules, parent, ds, p, p[1..], name, importable);
    }
  }

  lemma LongPathIsThrough(rules: Rules, parent: string, ds: seq<Dir>, p: seq<Dir>, q: seq<Dir>, name: string,
                          importable: bool)
    requires LeadsTo(rules, parent, ds, p, name) && p[0].elem != "" && (importable ==> p[|p| - 1].importable)
    requires q != [] && p == [p[0]] + q
    ensures ReachesThrough(rules, parent, p[0], name, importable)
  {
    LongPath(rules, parent, ds, p[0], q, name);
    assert q[|q| - 1] == p[|p| - 1];
    assert LeadsTo(rules, PathOf(parent, p[0].elem), p[0].kids, q, name);
  }

  /** What the walk reaches in a list of directories. */
  lemma ReachesCons(rules: Rules, parent: string, ds: seq<Dir>, name: string, importable: bool)
    requires (forall d :: d in ds ==> d.elem != "") && ds != []
    ensures Reaches(rules, parent, ds, name, importable) <==>
      ReachesThrough(rules, parent, ds[0], name, importable) || Reaches(rules, parent, ds[1..], name, importable)
  {
    if ReachesThrough(rules, parent, ds[0], name, importable) {
      ThroughIsReached(rules, parent, ds, ds[0], name, importable);
    }
    if Reaches(rules, parent, ds[1..], name, importable) {
      var i := ReachedIsThrough(rules, parent, ds[1..], name, importable);
      ThroughIsReached(rules, parent, ds, ds[1..][i], name, importable);
    }
    if Reaches(rules, parent, ds, name, importable) {
      ReachedInOne(rules, parent, ds, name, importable);
    }
  }

  lemma ReachedInOne(rules: Rules, parent: string, ds: seq<Dir>, name: string, importable: bool)
    requires (forall d :: d in ds ==> d.elem != "") && Reaches(rules, parent, ds, name, importable)
    ensures ds != []
    ensures ReachesThrough(rules, parent, ds[0], name, importable) || Reaches(rules, parent, ds[1..], name, importable)
  {
    var i := ReachedIsThrough(rules, parent, ds, name, importable);
    if i == 0 {
      assert ReachesThrough(rules, parent, ds[0], name, importable);
    } else {
      ThroughInTail(rules, parent, ds, i, name, importable);
      assert Reaches(rules, parent, ds[1..], name, importable);
    }
  }

  lemma ThroughInTail(rules: Rules, parent: string, ds: seq<Dir>, i: nat, name: string, importable: bool)
    requires 0 < i < |ds| && ds[i].elem != "" && ReachesThrough(rules, parent, ds[i], name, importable)
    ensures Reaches(rules, parent, ds[1..], name, importable)
  {
    assert ds[i] == ds[1..][i - 1];
    ThroughIsReached(rules, parent, ds[1..], ds[i], name, importable);
  }

  // ----- names of different directories -----

  /** Everything reached through a directory has its name at the front. */
  lemma {:induction false} ReachedIsBelow(rules: Rules, parent: string, d: Dir, name: string, importable: bool)
    requires d.elem != "" && '/' !in d.elem && Proper(d.kids) && ReachesThrough(rules, parent, d, name, importable)
    ensures Above(PathOf(parent, d.elem), name)
    decreases d
  {
    var own := PathOf(parent, d.elem);
    assert own[|own| - 1] == d.elem[|d.elem| - 1];
    if Reaches(rules, own, d.kids, name, importable) {
      var i := ReachedIsThrough(rules, own, d.kids, name, importable);
      ReachedIsBelow(rules, own, d.kids[i], name, importable);
      PrefixOfPrefix(own, PathOf(own, d.kids[i].elem), name);
    }
  }

  lemma PrefixOfPrefix(a: string, b: string, name: string)
    requires Above(a, b) && Above(b, name)
    ensures Above(a, name)
  {
    assert |a| < |name| ==> name[..|a|] == name[..|b|][..|a|];
  }

  /** An element ends at the first slash. */
  lemma ElementEnds(parent: string, a: string, b: string, name: string)
    requires a != "" && b != "" && '/' !in b
    requires Above(PathOf(parent, a), name) && Above(PathOf(parent, b), name)
    ensures |b| <= |a|
  {
    var n := PathOf(parent, b);
    assert forall k :: 0 <= k < |n| ==> name[k] == n[k];
    assert forall k :: 0 <= k < |b| ==> b[k] == n[|n| - |b| + k];
  }

  /** A name has one element below a parent. */
  lemma OneElement(parent: string, a: string, b: string, name: string)
    requires a != "" && b != "" && '/' !in a && '/' !in b
    requires Above(PathOf(parent, a), name) && Above(PathOf(parent, b), name)
    ensures a == b
  {
    var m, n := PathOf(parent, a), PathOf(parent, b);
    ElementEnds(parent, a, b, name);
    ElementEnds(parent, b, a, name);
    assert m == name[..|m|] && n == name[..|n|];
    assert m[|m| - |a|..] == a && n[|n| - |b|..] == b;
  }

  lemma SiblingsApart(rules: Rules, parent: string, ds: seq<Dir>, name: string)
    requires Proper(ds) && ds != []
    ensures !(ReachesThrough(rules, parent, ds[0], name, false) && Reaches(rules, parent, ds[1..], name, false))
  {
    if ReachesThrough(rules, parent, ds[0], name, false) && Reaches(rules, parent, ds[1..], name, false) {
      var i := ReachedIsThrough(rules, parent, ds[1..], name, false);
      ReachedIsBelow(rules, parent, ds[0], name, false);
      ReachedIsBelow(rules, parent, ds[1..][i], name, false);
      OneElement(parent, ds[0].elem, ds[1..][i].elem, name);
    }
  }

  // ----- the walk lists what it reaches -----

  /** A listing of what the walk reaches, and of the names it has seen by then. */
  ghost predicate Lists(rules: Rules, parent: string, ds: seq<Dir>, have: set<string>, f: Found) {
    && (forall name :: name in f.have <==> name in have || Reaches(rules, parent, ds, name, false))
    && (forall name :: name in f.pkgs <==>
          name !in have && rules.matches(name) && Reaches(rules, parent, ds, name, true))
  }

  ghost predicate ListsThrough(rules: Rules, parent: string, d: Dir, have: set<string>, f: Found) {
    && (forall name :: name in f.have <==> name in have || ReachesThrough(rules, parent, d, name, false))
    && (forall name :: name in f.pkgs <==>
          name !in have && rules.matches(name) && ReachesThrough(rules, parent, d, name, true))
  }

  lemma {:induction false} VisitAllLists(rules: Rules, parent: string, ds: seq<Dir>, have: set<string>)
    requires Proper(ds)
    ensures Lists(rules, parent, ds, have, VisitAll(rules, parent, ds, have))
    decreases ds, 1
  {
    if ds == [] {
      forall name, importable ensures !Reaches(rules, parent, ds, name, importable) {
      }
    } else {
      var first := Visit(rules, parent, ds[0], have);
      VisitLists(rules, parent, ds[0], have);
      VisitAllLists(rules, parent, ds[1..], first.have);
      ListsCons(rules, parent, ds, have, first, VisitAll(rules, parent, ds[1..], first.have));
    }
  }

  lemma ListsCons(rules: Rules, parent: string, ds: seq<Dir>, have: set<string>, first: Found, others: Found)
    requires Proper(ds) && ds != []
    requires ListsThrough(rules, parent, ds[0], have, first) && Lists(rules, parent, ds[1..], first.have, others)
    ensures Lists(rules, parent, ds, have, Found(first.pkgs + others.pkgs, others.have))
  {
    forall name
      ensures name in others.have <==> name in have || Reaches(rules, parent, ds, name, false)
      ensures name in first.pkgs + others.pkgs <==>
        name !in have && rules.matches(name) && Reaches(rules, parent, ds, name, true)
    {
      ReachesCons(rules, parent, ds, name, false);
      ReachesCons(rules, parent, ds, name, true);
      SiblingsApart(rules, parent, ds, name);
      PackageIsReached(rules, parent, ds[1..], name);
    }
  }

  lemma PackageIsReached(rules: Rules, parent: string, ds: seq<Dir>, name: string)
    ensures Reaches(rules, parent, ds, name, true) ==> Reaches(rules, parent, ds, name, false)
  {
  }

  lemma {:induction false} VisitLists(rules: Rules, parent: string, d: Dir, have: set<string>)
    requires d.elem != "" && '/' !in d.elem && Proper(d.kids)
    ensures ListsThrough(rules, parent, d, have, Visit(rules, parent, d, have))
    decreases d, 0
  {
    var name := PathOf(parent, d.elem);
    SkipsUnlessEnters(rules, d.elem, name);
    if Enters(rules, d.elem, name) {
      VisitAllLists(rules, name, d.kids, have + {name});
      NotBelowItself(rules, name, d.kids);
    }
  }

  /** A directory is not reached below itself. */
  lemma NotBelowItself(rules: Rules, name: string, ds: seq<Dir>)
    requires Proper(ds) && name != ""
    ensures !Reaches(rules, name, ds, name, false) && !Reaches(rules, name, ds, name, true)
  {
    PackageIsReached(rules, name, ds, name);
    if Reaches(rules, name, ds, name, false) {
      var i := ReachedIsThrough(rules, name, ds, name, false);
      ReachedIsBelow(rules, name, ds[i], name, false);
    }
  }

  // ----- parents before children -----

  /** No package is listed twice, and none behind one below it. */
  ghost predicate ParentsFirst(pkgs: seq<string>) {
    forall i, j :: 0 <= i < j < |pkgs| ==> !Above(pkgs[j], pkgs[i])
  }

  lemma ParentsFirstAppend(a: seq<string>, b: seq<string>)
    requires ParentsFirst(a) && ParentsFirst(b) && forall m, n :: m in a && n in b ==> !Above(n, m)
    ensures ParentsFirst(a + b)
  {
    forall i, j | 0 <= i < j < |a + b| ensures !Above((a + b)[j], (a + b)[i]) {
      if i < |a| <= j {
        assert (a + b)[i] in a && (a + b)[j] in b;
      }
    }
  }

  lemma {:induction false} VisitAllInOrder(rules: Rules, parent: string, ds: seq<Dir>, have: set<string>)
    requires Proper(ds)
    ensures ParentsFirst(VisitAll(rules, parent, ds, have).pkgs)
    decreases ds, 1
  {
    if ds != [] {
      var first := Visit(rules, parent, ds[0], have);
      var others := VisitAll(rules, parent, ds[1..], first.have);
      VisitInOrder(rules, parent, ds[0], have);
      VisitAllInOrder(rules, parent, ds[1..], first.have);
      VisitLists(rules, parent, ds[0], have);
      VisitAllLists(rules, parent, ds[1..], first.have);
      forall m, n | m in first.pkgs && n in others.pkgs ensures !Above(n, m) {
        if Above(n, m) {
          var i := ReachedIsThrough(rules, parent, ds[1..], n, true);
          ReachedIsBelow(rules, parent, ds[1..][i], n, true);
          ReachedIsBelow(rules, parent, ds[0], m, true);
          PrefixOfPrefix(PathOf(parent, ds[1..][i].elem), n, m);
          OneElement(parent, ds[0].elem, ds[1..][i].elem, m);
        }
      }
      ParentsFirstAppend(first.pkgs, others.pkgs);
    }
  }

  lemma {:induction false} VisitInOrder(rules: Rules, parent: string, d: Dir, have: set<string>)
    requires d.elem != "" && '/' !in d.elem && Proper(d.kids)
    ensures ParentsFirst(Visit(rules, parent, d, have).pkgs)
    decreases d, 0
  {
    var name := PathOf(parent, d.elem);
    if !SkipSrcDir(rules, d.elem, name) {
      var own := if name !in have && rules.matches(name) && d.importable then [name] else [];
      var below := VisitAll(rules, name, d.kids, have + {name}).pkgs;
      VisitAllInOrder(rules, name, d.kids, have + {name});
      VisitAllLists(rules, name, d.kids, have + {name});
      forall m, n | m in own && n in below ensures !Above(n, m) {
        var i := ReachedIsThrough(rules, name, d.kids, n, true);
        ReachedIsBelow(rules, name, d.kids[i], n, true);
      }
      ParentsFirstAppend(own, below);
    }
  }

  // ----- pruning changes nothing -----

  /** Directories as the file system names them. */
  predicate Named(d: Dir) {
    d.elem != "" && d.elem[|d.elem| - 1] != '/' && forall i :: 0 <= i < |d.kids| ==> Named(d.kids[i])
  }

  predicate AllNamed(ds: seq<Dir>) {
    forall i :: 0 <= i < |ds| ==> Named(ds[i])
  }

  /** canMatch holds of every directory above a path that matches. */
  ghost predicate Complete(rules: Rules) {
    forall a, name :: Above(a, name) && rules.matches(name) ==> rules.canMatch(a)
  }

  function Unpruned(rules: Rules): Rules {
    rules.(canMatch := (_: string) => true)
  }

  /** The two sets agree on the names that matter. */
  ghost predicate Agree(rules: Rules, have: set<string>, have': set<string>) {
    forall name :: rules.matches(name) ==> (name in have <==> name in have')
  }

  /** A tree under a path that cannot match holds no package that does. */
  lemma {:induction false} NothingBelow(rules: Rules, a: string, parent: string, ds: seq<Dir>, have: set<string>)
    requires AllNamed(ds) && Complete(rules) && !rules.canMatch(a)
    requires a != "" && a[|a| - 1] != '/' && parent != "" && parent[|parent| - 1] != '/' &&
             (a == parent || Above(a, parent))
    ensures var f := VisitAll(Unpruned(rules), parent, ds, have); f.pkgs == [] && Agree(rules, have, f.have)
    decreases ds
  {
    if ds != [] {
      var d := ds[0];
      var name := PathOf(parent, d.elem);
      assert Named(d);
      assert name[|name| - 1] == d.elem[|d.elem| - 1];
      NothingBelow(rules, a, name, d.kids, have + {name});
      NothingBelow(rules, a, parent, ds[1..], Visit(Unpruned(rules), parent, d, have).have);
    }
  }

  /** The packages under a directory and the names that matter are the same with
      and without pruning, whatever the walk has already seen. */
  lemma {:induction false} PrunedWalkFindsAll(rules: Rules, parent: string, ds: seq<Dir>, have: set<string>,
                                              have': set<string>)
    requires AllNamed(ds) && Complete(rules) && Agree(rules, have, have')
    requires parent == "" || parent[|parent| - 1] != '/'
    ensures var f, f' := VisitAll(rules, parent, ds, have), VisitAll(Unpruned(rules), parent, ds, have');
      f.pkgs == f'.pkgs && Agree(rules, f.have, f'.have)
    decreases ds
  {
    if ds != [] {
      var d := ds[0];
      var name := PathOf(parent, d.elem);
      assert Named(d);
      assert name != "" && name[|name| - 1] == d.elem[|d.elem| - 1];
      if !SkipSrcDir(rules, d.elem, name) {
        PrunedWalkFindsAll(rules, name, d.kids, have + {name}, have' + {name});
      } else if !SkipSrcDir(Unpruned(rules), d.elem, name) {
        assert Above(name, name) && !rules.matches(name);
        NothingBelow(rules, name, name, d.kids, have' + {name});
      }
      PrunedWalkFindsAll(rules, parent, ds[1..], Visit(rules, parent, d, have).have,
          Visit(Unpruned(rules), parent, d, have').have);
    }
  }

  // ----- several source directories -----

  /** A source directory of the build, and whether it is that of GOROOT. */
  datatype SrcDir = SrcDir(isGoroot: bool, kids: seq<Dir>)

  /** The pattern "std" stands for the packages of GOROOT alone. */
  function VisitRoots(rules: Rules, roots: seq<SrcDir>, have: set<string>): Found {
    if roots == [] then Found([], have)
    else if rules.std && !roots[0].isGoroot then VisitRoots(rules, roots[1..], have)
    else
      var first := VisitAll(rules, "", roots[0].kids, have);
      var others := VisitRoots(rules, roots[1..], first.have);
      Found(first.pkgs + others.pkgs, others.have)
  }

  /** The source directories that are walked. */
  predicate Walked(rules: Rules, root: SrcDir) {
    rules.std ==> root.isGoroot
  }

  /** The walk reaches a directory of this name in some source directory. */
  ghost predicate Met(rules: Rules, roots: seq<SrcDir>, name: string) {
    exists i :: 0 <= i < |roots| && MetIn(rules, roots[i], name, false)
  }

  ghost predicate MetIn(rules: Rules, root: SrcDir, name: string, importable: bool) {
    Walked(rules, root) && Reaches(rules, "", root.kids, name, importable)
  }

  /** The first source directory in which the walk reaches a directory of this name
      has a package there. */
  ghost predicate PackageMet(rules: Rules, roots: seq<SrcDir>, name: string) {
    exists i :: 0 <= i < |roots| && MetIn(rules, roots[i], name, true) && !Met(rules, roots[..i], name)
  }

  ghost predicate ListsRoots(rules: Rules, roots: seq<SrcDir>, have: set<string>, f: Found) {
    && (forall name :: name in f.have <==> name in have || Met(rules, roots, name))
    && (forall name :: name in f.pkgs <==> name !in have && rules.matches(name) && PackageMet(rules, roots, name))
    && ParentsFirst(f.pkgs)
  }

  predicate ProperRoots(roots: seq<SrcDir>) {
    forall i :: 0 <= i < |roots| ==> Proper(roots[i].kids)
  }

  lemma MetCons(rules: Rules, roots: seq<SrcDir>, name: string)
    requires roots != []
    ensures Met(rules, roots, name) <==> MetIn(rules, roots[0], name, false) || Met(rules, roots[1..], name)
    ensures PackageMet(rules, roots, name) <==>
      || MetIn(rules, roots[0], name, true)
      || (!MetIn(rules, roots[0], name, false) && PackageMet(rules, roots[1..], name))
  {
    PackageIsReached(rules, "", roots[0].kids, name);
    MetSplits(rules, roots, name);
    assert roots[..0] == [] && !Met(rules, [], name);
    if PackageMet(rules, roots[1..], name) && !MetIn(rules, roots[0], name, false) {
      var i :| 0 <= i < |roots[1..]| && MetIn(rules, roots[1..][i], name, true) && !Met(rules, roots[1..][..i], name);
      MetBefore(rules, roots, i + 1, name);
      assert MetIn(rules, roots[i + 1], name, true);
    }
    if PackageMet(rules, roots, name) && !MetIn(rules, roots[0], name, true) {
      var i :| 0 <= i < |roots| && MetIn(rules, roots[i], name, true) && !Met(rules, roots[..i], name);
      MetBefore(rules, roots, i, name);
      assert MetIn(rules, roots[1..][i - 1], name, true);
    }
  }

  lemma MetBefore(rules: Rules, roots: seq<SrcDir>, i: nat, name: string)
    requires 0 < i <= |roots|
    ensures Met(rules, roots[..i], name) <==>
      MetIn(rules, roots[0], name, false) || Met(rules, roots[1..][..i - 1], name)
  {
    assert roots[..i][1..] == roots[1..][..i - 1];
    MetSplits(rules, roots[..i], name);
  }

  lemma MetSplits(rules: Rules, roots: seq<SrcDir>, name: string)
    requires roots != []
    ensures Met(rules, roots, name) <==> MetIn(rules, roots[0], name, false) || Met(rules, roots[1..], name)
  {
    if i :| 0 <= i < |roots| && MetIn(rules, roots[i], name, false) {
      assert i > 0 ==> roots[1..][i - 1] == roots[i];
    }
    if i :| 0 <= i < |roots[1..]| && MetIn(rules, roots[1..][i], name, false) {
      assert roots[i + 1] == roots[1..][i];
    }
  }

  /** With a directory, the walk reaches those above it. */
  lemma {:induction false} AncestorIsReached(rules: Rules, parent: string, ds: seq<Dir>, name: string, a: string)
    requires Proper(ds) && Reaches(rules, parent, ds, name, false)
    requires Above(a, name) && |parent| < |a|
    ensures Reaches(rules, parent, ds, a, false)
    decreases ds
  {
    var i := ReachedIsThrough(rules, parent, ds, name, false);
    var own := PathOf(parent, ds[i].elem);
    ReachedIsBelow(rules, parent, ds[i], name, false);
    if |own| < |a| {
      AncestorIsReached(rules, own, ds[i].kids, name, a);
    } else {
      AncestorIsOwn(parent, ds[i].elem, name, a);
    }
    ThroughIsReached(rules, parent, ds, ds[i], a, false);
  }

  lemma AncestorIsOwn(parent: string, elem: string, name: string, a: string)
    requires elem != "" && '/' !in elem && Above(PathOf(parent, elem), name) && Above(a, name)
    requires |parent| < |a| <= |PathOf(parent, elem)|
    ensures a == PathOf(parent, elem)
  {
    var own := PathOf(parent, elem);
    assert own == name[..|own|] && a == name[..|a|];
    assert forall k :: 0 <= k < |own| ==> name[k] == own[k];
    assert forall k :: 0 <= k < |elem| ==> elem[k] == own[|own| - |elem| + k];
  }

  /** A name of a later source directory is above none of an earlier one. */
  lemma RootsInOrder(rules: Rules, roots: seq<SrcDir>, have: set<string>, first: Found, others: Found)
    requires ProperRoots(roots) && roots != []
    requires Lists(rules, "", roots[0].kids, have, first) && ListsRoots(rules, roots[1..], first.have, others)
    ensures forall m, n :: m in first.pkgs && n in others.pkgs ==> !Above(n, m)
  {
    forall m, n | m in first.pkgs && n in others.pkgs ensures !Above(n, m) {
      PackageIsReached(rules, "", roots[0].kids, m);
      if Above(n, m) {
        AncestorIsReached(rules, "", roots[0].kids, m, n);
      }
    }
  }

  lemma RootsListCons(rules: Rules, roots: seq<SrcDir>, have: set<string>, first: Found, others: Found)
    requires ProperRoots(roots) && roots != [] && Walked(rules, roots[0])
    requires Lists(rules, "", roots[0].kids, have, first) && ParentsFirst(first.pkgs)
    requires ListsRoots(rules, roots[1..], first.have, others)
    ensures ListsRoots(rules, roots, have, Found(first.pkgs + others.pkgs, others.have))
  {
    forall name
      ensures name in others.have <==> name in have || Met(rules, roots, name)
      ensures name in first.pkgs + others.pkgs <==>
        name !in have && rules.matches(name) && PackageMet(rules, roots, name)
    {
      MetCons(rules, roots, name);
    }
    RootsInOrder(rules, roots, have, first, others);
    ParentsFirstAppend(first.pkgs, others.pkgs);
  }

  /** A package is listed if and only if it matches, was not seen before, and the
      first source directory with a directory of its name that the walk reaches has
      a package there; each is listed once, and parents before children. */
  lemma {:induction false} VisitRootsLists(rules: Rules, roots: seq<SrcDir>, have: set<string>)
    requires ProperRoots(roots)
    ensures ListsRoots(rules, roots, have, VisitRoots(rules, roots, have))
  {
    if roots != [] {
      if !Walked(rules, roots[0]) {
        VisitRootsLists(rules, roots[1..], have);
        forall name {
          MetCons(rules, roots, name);
        }
      } else {
        var first := VisitAll(rules, "", roots[0].kids, have);
        VisitAllLists(rules, "", roots[0].kids, have);
        VisitAllInOrder(rules, "", roots[0].kids, have);
        VisitRootsLists(rules, roots[1..], first.have);
        RootsListCons(rules, roots, have, first, VisitRoots(rules, roots[1..], first.have));
      }
    }
  }

  method WalkSrcPackages(rules: Rules, roots: seq<SrcDir>, seen: set<string>)
    returns (pkgs: seq<string>, have: set<string>)
    ensures Found(pkgs, have) == VisitRoots(rules, roots, seen)
    ensures ProperRoots(roots) ==> ListsRoots(rules, roots, seen, Found(pkgs, have))
  {
    if ProperRoots(roots) {
      VisitRootsLists(rules, roots, seen);
    }
    pkgs, have := [], seen;
    for i := 0 to |roots|
      invariant var others := VisitRoots(rules, roots[i..], have);
        Found(pkgs + others.pkgs, others.have) == VisitRoots(rules, roots, seen)
    {
      assert roots[i..][0] == roots[i] && roots[i..][1..] == roots[i + 1..];
      if rules.std && !roots[i].isGoroot {
        continue;
      }
      var newPkgs;
      newPkgs, have := WalkSrcDir(rules, "", roots[i].kids, have);
      Assoc(pkgs, newPkgs, VisitRoots(rules, roots[i + 1..], have).pkgs);
      pkgs := pkgs + newPkgs;
    }
  }

  /** Over all source directories one after the other, whatever has been listed
      before, pruning changes no package and no order. */
  lemma {:induction false} PrunedRootsFindAll(rules: Rules, roots: seq<SrcDir>, have: set<string>, have': set<string>)
    requires (forall i :: 0 <= i < |roots| ==> AllNamed(roots[i].kids)) && Complete(rules) && Agree(rules, have, have')
    ensures VisitRoots(rules, roots, have).pkgs == VisitRoots(Unpruned(rules), roots, have').pkgs
  {
    if roots != [] {
      if rules.std && !roots[0].isGoroot {
        PrunedRootsFindAll(rules, roots[1..], have, have');
      } else {
        PrunedWalkFindsAll(rules, "", roots[0].kids, have, have');
        PrunedRootsFindAll(rules, roots[1..], VisitAll(rules, "", roots[0].kids, have).have,
                           VisitAll(Unpruned(rules), "", roots[0].kids, have').have);
      }
    }
  }

  /** The rules of a pattern. */
  ghost function RulesFor(pattern: string): Rules {
    Rules(false, (name: string) => Match(pattern, name), (name: string) => TreeCanMatch(pattern, name))
  }

  /** For any pattern with wildcards, any source directories and any packages
      already listed, skipping trees that cannot match loses and adds nothing. */
  lemma PatternWalkFindsAll(pattern: string, roots: seq<SrcDir>, have: set<string>)
    requires forall i :: 0 <= i < |roots| ==> AllNamed(roots[i].kids)
    ensures VisitRoots(RulesFor(pattern), roots, have).pkgs == VisitRoots(Unpruned(RulesFor(pattern)), roots, have).pkgs
  {
    var rules := RulesFor(pattern);
    forall a, name | Above(a, name) && rules.matches(name) ensures rules.canMatch(a) {
      PruningIsComplete(pattern, name, a);
    }
    PrunedRootsFindAll(rules, roots, have, have);
  }
}
