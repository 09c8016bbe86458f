/**
 mutator/statement/return.go: replacing one result of a return statement by the
 zero value of its type. A mutation either writes the result in place, or, when
 the lost result leaves variables unused, swaps in a statement list built
 beforehand that uses them. All mutations of a block are built before any is
 applied, and those of one return share its results.
*/
module ReturnValue {
  import opened Wrappers
  import opened Slices

  /** Expressions and the remaining statements are known by a number. */
  datatype Stmt =
    | Return(results: array<int>)
    | Noop(vars: seq<int>)
    | Other(id: int)

  /** A statement as printed. */
  datatype Text = Returned(results: seq<int>) | Kept(stmt: Stmt)

  class Block {
    var list: Slice<Stmt>

    constructor (list: Slice<Stmt>)
      ensures this.list == list
    {
      this.list := list;
    }
  }

  /** What the type information says about a result: its zero value and the
      variables that must stay used, or nothing where it is left alone. */
  datatype Replacement = Replacement(zero: int, vars: seq<int>)

  /** The closures of a mutation, with what they capture. */
  datatype Mutation =
    | InPlace(results: array<int>, idx: nat, orig: int, zero: int)
    | Swap(mutated: Slice<Stmt>, clone: array<int>)

  /** What a mutation is built for: a result of a statement, and its replacement. */
  datatype Site = Site(stmt: nat, res: nat, put: Replacement)

  // ----- the printed block -----

  function ResultsOf(ss: seq<Stmt>): set<array<int>> {
    set k | 0 <= k < |ss| && ss[k].Return? :: ss[k].results
  }

  ghost function TextOf(s: Stmt): Text
    reads if s.Return? then {s.results} else {}
  {
    if s.Return? then Returned(s.results[..]) else Kept(s)
  }

  ghost function Texts(ss: seq<Stmt>): seq<Text>
    reads ResultsOf(ss)
  {
    seq(|ss|, k requires 0 <= k < |ss| reads ResultsOf(ss) => TextOf(ss[k]))
  }

  ghost predicate Prints(ss: seq<Stmt>, texts: seq<Text>)
    reads ResultsOf(ss)
  {
    |ss| == |texts| && forall k :: 0 <= k < |ss| ==> TextOf(ss[k]) == texts[k]
  }

  /** No two returns of a list share their results. */
  ghost predicate Apart(ss: seq<Stmt>) {
    forall i, j :: 0 <= i < j < |ss| && ss[i].Return? && ss[j].Return? ==> ss[i].results != ss[j].results
  }

  predicate IsSite(texts: seq<Text>, at: Site) {
    at.stmt < |texts| && texts[at.stmt].Returned? && at.res < |texts[at.stmt].results|
  }

  /** The printed block with one result replaced. */
  function Replaced(texts: seq<Text>, at: Site): seq<Text>
    requires IsSite(texts, at)
  {
    var changed := Returned(texts[at.stmt].results[at.res := at.put.zero]);
    if at.put.vars == [] then texts[at.stmt := changed]
    else texts[..at.stmt] + [Kept(Noop(at.put.vars)), changed] + texts[at.stmt + 1..]
  }

  /** One result of one return is another, a statement that uses the variables
      stands in front if there are any, and the rest is as it was. */
  lemma ReplacedChangesOneResult(texts: seq<Text>, at: Site)
    requires IsSite(texts, at)
    ensures var shown, down := Replaced(texts, at), if at.put.vars == [] then 0 else 1;
      && |shown| == |texts| + down
      && (forall k :: 0 <= k < at.stmt ==> shown[k] == texts[k])
      && (forall k :: at.stmt < k < |texts| ==> shown[k + down] == texts[k])
      && (down == 1 ==> shown[at.stmt] == Kept(Noop(at.put.vars)))
      && var (old_, new_) := (texts[at.stmt], shown[at.stmt + down]);
      && new_.Returned? && |new_.results| == |old_.results| && new_.results[at.res] == at.put.zero
      && forall r :: 0 <= r < |old_.results| && r != at.res ==> new_.results[r] == old_.results[r]
  {
  }

  // ----- what a built mutation keeps -----

  /** The list with a statement before the clone that takes the place of statement i. */
  function Swapped(ss: seq<Stmt>, i: nat, noop: Stmt, clone: Stmt): seq<Stmt>
    requires i < |ss|
  {
    ss[..i] + [noop, clone] + ss[i + 1..]
  }

  /** The mutation was built for the site of this list. */
  predicate Built(m: Mutation, at: Site, ss: seq<Stmt>, texts: seq<Text>) {
    && |ss| == |texts| && IsSite(texts, at) && ss[at.stmt].Return?
    && match m
       case InPlace(results, idx, orig, zero) =>
         && at.put.vars == [] && zero == at.put.zero && idx == at.res
         && results == ss[at.stmt].results && orig == texts[at.stmt].results[idx]
       case Swap(mutated, clone) =>
         && at.put.vars != [] && mutated.len == mutated.data.Length == |ss| + 1
         && clone !in ResultsOf(ss)
  }

  /** The list it swaps in, if it does, holds the replacement. */
  ghost predicate Prepared(m: Mutation, at: Site, ss: seq<Stmt>, texts: seq<Text>)
    requires Built(m, at, ss, texts)
    reads if m.Swap? then {m.mutated.data} else {}, if m.Swap? then {m.clone} else {}
  {
    m.Swap? ==>
      && m.mutated.data[..] == Swapped(ss, at.stmt, Noop(at.put.vars), Return(m.clone))
      && m.clone[..] == texts[at.stmt].results[at.res := at.put.zero]
  }

  /** The mutation will show and undo exactly the replacement of its site. */
  ghost predicate Sound(m: Mutation, at: Site, ss: seq<Stmt>, texts: seq<Text>)
    reads if m.Swap? then {m.mutated.data} else {}, if m.Swap? then {m.clone} else {}
  {
    Built(m, at, ss, texts) && Prepared(m, at, ss, texts)
  }

  ghost predicate Idle(b: Block, list: Slice<Stmt>, ss: seq<Stmt>, texts: seq<Text>)
    reads b, list.data, ResultsOf(ss)
  {
    b.list == list && list.Valid() && list.Elements() == ss && Apart(ss) && Prints(ss, texts)
  }

  // ----- building -----

  method CloneReturnWithZero(results: array<int>, zeroIdx: nat, zero: int) returns (clone: array<int>)
    requires zeroIdx < results.Length
    ensures fresh(clone) && clone[..] == results[..][zeroIdx := zero]
  {
    clone := new int[results.Length];
    Copy(clone, 0, results, 0, results.Length);
    assert clone[..] == results[..];
    clone[zeroIdx] := zero;
  }

  /** The statement list with two statements in place of one. */
  method SwapIn(l: Slice<Stmt>, i: nat, noop: Stmt, newRet: Stmt) returns (mutated: array<Stmt>)
    requires l.Valid() && i < l.len
    ensures fresh(mutated) && mutated[..] == Swapped(l.Elements(), i, noop, newRet)
  {
    mutated := new Stmt[l.len + 1](_ => noop);
    Copy(mutated, 0, l.data, 0, i);
    mutated[i] := noop;
    mutated[i + 1] := newRet;
    Copy(mutated, i + 2, l.data, i + 1, l.len - i - 1);
  }

  method MutateReturnResult(l: Slice<Stmt>, at: Site, ghost ss: seq<Stmt>, ghost texts: seq<Text>) returns (m: Mutation)
    requires l.Valid() && l.Elements() == ss && Prints(ss, texts) && IsSite(texts, at)
    ensures Sound(m, at, ss, texts)
    ensures m.Swap? ==> fresh(m.mutated.data) && fresh(m.clone)
  {
    assert TextOf(ss[at.stmt]) == texts[at.stmt];
    var ret := l.data[at.stmt];
    assert ret == ss[at.stmt];
    if at.put.vars == [] {
      return InPlace(ret.results, at.res, ret.results[at.res], at.put.zero);
    }
    var clone := CloneReturnWithZero(ret.results, at.res, at.put.zero);
    var noop := Noop(at.put.vars);
    var mutated := SwapIn(l, at.stmt, noop, Return(clone));
    return Swap(Slice(mutated, l.len + 1), clone);
  }

  predicate AllBuilt(ms: seq<Mutation>, sites: seq<Site>, ss: seq<Stmt>, texts: seq<Text>) {
    |ms| == |sites| && forall k :: 0 <= k < |ms| ==> Built(ms[k], sites[k], ss, texts)
  }

  ghost predicate AllPrepared(ms: seq<Mutation>, sites: seq<Site>, ss: seq<Stmt>, texts: seq<Text>)
    requires AllBuilt(ms, sites, ss, texts)
    reads set k | 0 <= k < |ms| && ms[k].Swap? :: ms[k].mutated.data
    reads set k | 0 <= k < |ms| && ms[k].Swap? :: ms[k].clone
  {
    forall k :: 0 <= k < |ms| ==> Prepared(ms[k], sites[k], ss, texts)
  }

  /** The sites of one return, in the order of its results. */
  function SitesOf(results: seq<int>, i: nat, plan: int -> Option<Replacement>, n: nat): seq<Site>
    requires n <= |results|
  {
    if n == 0 then []
    else SitesOf(results, i, plan, n - 1) +
         var put := plan(results[n - 1]);
         if put.None? then [] else [Site(i, n - 1, put.value)]
  }

  function SitesIn(texts: seq<Text>, plan: int -> Option<Replacement>, n: nat): seq<Site>
    requires n <= |texts|
  {
    if n == 0 then []
    else SitesIn(texts, plan, n - 1) +
         match texts[n - 1]
         case Returned(results) => SitesOf(results, n - 1, plan, |results|)
         case Kept(_) => []
  }

  lemma {:induction false} SitesOfAre(results: seq<int>, i: nat, plan: int -> Option<Replacement>, n: nat, at: Site)
    requires n <= |results|
    ensures at in SitesOf(results, i, plan, n) <==>
      at.stmt == i && at.res < n && plan(results[at.res]) == Some(at.put)
  {
    if n > 0 {
      SitesOfAre(results, i, plan, n - 1, at);
    }
  }

  /** There is a mutation for each result of each return that the plan replaces, and
      for nothing else. */
  lemma {:induction false} SitesAreThePlanned(texts: seq<Text>, plan: int -> Option<Replacement>, n: nat, at: Site)
    requires n <= |texts|
    ensures at in SitesIn(texts, plan, n) <==>
      at.stmt < n && IsSite(texts, at) && plan(texts[at.stmt].results[at.res]) == Some(at.put)
  {
    if n > 0 {
      SitesAreThePlanned(texts, plan, n - 1, at);
      if texts[n - 1].Returned? {
        SitesOfAre(texts[n - 1].results, n - 1, plan, |texts[n - 1].results|, at);
      }
    }
  }

  predicate Precedes(a: Site, b: Site) {
    a.stmt < b.stmt || (a.stmt == b.stmt && a.res < b.res)
  }

  ghost predicate InOrder(sites: seq<Site>) {
    forall i, j :: 0 <= i < j < |sites| ==> Precedes(sites[i], sites[j])
  }

  lemma {:induction false} SitesOfInOrder(results: seq<int>, i: nat, plan: int -> Option<Replacement>, n: nat)
    requires n <= |results|
    ensures InOrder(SitesOf(results, i, plan, n))
  {
    if n > 0 {
      SitesOfInOrder(results, i, plan, n - 1);
      forall at | at in SitesOf(results, i, plan, n - 1) ensures at.stmt == i && at.res < n - 1 {
        SitesOfAre(results, i, plan, n - 1, at);
      }
    }
  }

  /** In the order of the block, so none twice. */
  lemma {:induction false} SitesInOrder(texts: seq<Text>, plan: int -> Option<Replacement>, n: nat)
    requires n <= |texts|
    ensures InOrder(SitesIn(texts, plan, n))
  {
    if n > 0 {
      SitesInOrder(texts, plan, n - 1);
      forall at | at in SitesIn(texts, plan, n - 1) ensures at.stmt < n - 1 {
        SitesAreThePlanned(texts, plan, n - 1, at);
      }
      if texts[n - 1].Returned? {
        var results := texts[n - 1].results;
        SitesOfInOrder(results, n - 1, plan, |results|);
        forall at | at in SitesOf(results, n - 1, plan, |results|) ensures at.stmt == n - 1 {
          SitesOfAre(results, n - 1, plan, |results|, at);
        }
      }
    }
  }

  /** Appends the mutations of one statement to those found so far. */
  method MutateReturnStmt(l: Slice<Stmt>, i: nat, plan: int -> Option<Replacement>, found: seq<Mutation>,
                          foundSites: seq<Site>, ghost ss: seq<Stmt>, ghost texts: seq<Text>)
    returns (ms: seq<Mutation>, sites: seq<Site>)
    requires l.Valid() && l.Elements() == ss && Prints(ss, texts) && i < |ss|
    requires AllBuilt(found, foundSites, ss, texts) && AllPrepared(found, foundSites, ss, texts)
    ensures AllBuilt(ms, sites, ss, texts) && AllPrepared(ms, sites, ss, texts)
    ensures sites == foundSites +
      if texts[i].Returned? then SitesOf(texts[i].results, i, plan, |texts[i].results|) else []
  {
    ms, sites := found, foundSites;
    var ret := l.data[i];
    assert ret == ss[i] && TextOf(ss[i]) == texts[i];
    if !ret.Return? {
      return;
    }
    for r := 0 to ret.results.Length
      invariant sites == foundSites + SitesOf(texts[i].results, i, plan, r)
      invariant AllBuilt(ms, sites, ss, texts) && AllPrepared(ms, sites, ss, texts)
    {
      var put := plan(ret.results[r]);
      if put.Some? {
        var at := Site(i, r, put.value);
        var m := MutateReturnResult(l, at, ss, texts);
        ms, sites := ms + [m], sites + [at];
      }
    }
  }

  /** The mutations of a block. plan says what becomes of a result, if anything. */
  method MutatorReturnValue(b: Block, plan: int -> Option<Replacement>, ghost ss: seq<Stmt>, ghost texts: seq<Text>)
    returns (ms: seq<Mutation>, sites: seq<Site>)
    requires Idle(b, b.list, ss, texts)
    ensures AllBuilt(ms, sites, ss, texts) && AllPrepared(ms, sites, ss, texts)
    ensures sites == SitesIn(texts, plan, |texts|)
  {
    ms, sites := [], [];
    for i := 0 to b.list.len
      invariant sites == SitesIn(texts, plan, i)
      invariant AllBuilt(ms, sites, ss, texts) && AllPrepared(ms, sites, ss, texts)
    {
      ms, sites := MutateReturnStmt(b.list, i, plan, ms, sites, ss, texts);
    }
  }

  // ----- applying -----

  method Change(b: Block, m: Mutation)
    requires m.InPlace? ==> m.idx < m.results.Length
    modifies b, if m.InPlace? then {m.results} else {}
    ensures m.InPlace? ==> b.list == old(b.list) && m.results[..] == old(m.results[..])[m.idx := m.zero]
    ensures m.Swap? ==> b.list == m.mutated
  {
    match m
    case InPlace(results, idx, _, zero) => results[idx] := zero;
    case Swap(mutated, _) => b.list := mutated;
  }

  method Reset(b: Block, l: Slice<Stmt>, m: Mutation)
    requires m.InPlace? ==> m.idx < m.results.Length
    modifies b, if m.InPlace? then {m.results} else {}
    ensures m.InPlace? ==> b.list == old(b.list) && m.results[..] == old(m.results[..])[m.idx := m.orig]
    ensures m.Swap? ==> b.list == l
  {
    match m
    case InPlace(results, idx, orig, _) => results[idx] := orig;
    case Swap(_, _) => b.list := l;
  }

  /** One change and its reset: the block shows the replacement in between. */
  method UseOnce(b: Block, l: Slice<Stmt>, m: Mutation, at: Site, ghost ss: seq<Stmt>, ghost texts: seq<Text>)
    returns (ghost seen: seq<Text>)
    requires Idle(b, l, ss, texts) && Sound(m, at, ss, texts)
    modifies b, ResultsOf(ss)
    ensures Idle(b, l, ss, texts) && Shows(seen, texts, at)
  {
    if m.Swap? {
      seen := UseSwap(b, l, m, at, ss, texts);
    } else {
      seen := UseInPlace(b, l, m, at, ss, texts);
    }
  }

  method UseSwap(b: Block, l: Slice<Stmt>, m: Mutation, at: Site, ghost ss: seq<Stmt>, ghost texts: seq<Text>)
    returns (ghost seen: seq<Text>)
    requires Idle(b, l, ss, texts) && Sound(m, at, ss, texts) && m.Swap?
    modifies b
    ensures Idle(b, l, ss, texts) && seen == Replaced(texts, at)
  {
    Change(b, m);
    ghost var shown := b.list.Elements();
    seen := Texts(shown);
    assert forall k :: at.stmt + 2 <= k < |shown| ==> shown[k] == ss[k - 1];
    assert forall k :: 0 <= k < |shown| ==> TextOf(shown[k]) == Replaced(texts, at)[k];
    Reset(b, l, m);
  }

  method UseInPlace(b: Block, l: Slice<Stmt>, m: Mutation, at: Site, ghost ss: seq<Stmt>, ghost texts: seq<Text>)
    returns (ghost seen: seq<Text>)
    requires Idle(b, l, ss, texts) && Sound(m, at, ss, texts) && m.InPlace?
    modifies b, m.results
    ensures Idle(b, l, ss, texts) && seen == Replaced(texts, at)
  {
    assert TextOf(ss[at.stmt]) == texts[at.stmt];
    Change(b, m);
    seen := Texts(ss);
    assert forall k :: 0 <= k < |ss| ==> TextOf(ss[k]) == Replaced(texts, at)[k];
    Reset(b, l, m);
  }

  /** The printed block with the replacement of the site, and no other. */
  predicate Shows(shown: seq<Text>, texts: seq<Text>, at: Site) {
    IsSite(texts, at) && shown == Replaced(texts, at)
  }

  /** The closures of a block called in any order, any number of times, each reset
      before the next change: every change shows its own replacement and nothing
      else, and the block is as parsed afterwards. */
  method CallClosures(b: Block, l: Slice<Stmt>, ms: seq<Mutation>, sites: seq<Site>, order: seq<nat>,
                      ghost ss: seq<Stmt>, ghost texts: seq<Text>)
    returns (ghost seen: seq<seq<Text>>)
    requires Idle(b, l, ss, texts)
    requires AllBuilt(ms, sites, ss, texts) && AllPrepared(ms, sites, ss, texts)
    requires forall k :: 0 <= k < |order| ==> order[k] < |ms|
    modifies b, ResultsOf(ss)
    ensures Idle(b, l, ss, texts)
    ensures |seen| == |order| && forall k :: 0 <= k < |order| ==> Shows(seen[k], texts, sites[order[k]])
  {
    seen := [];
    for n := 0 to |order|
      invariant Idle(b, l, ss, texts) && AllPrepared(ms, sites, ss, texts)
      invariant |seen| == n && forall k :: 0 <= k < n ==> Shows(seen[k], texts, sites[order[k]])
    {
      var shown := UseOnce(b, l, ms[order[n]], sites[order[n]], ss, texts);
      seen := seen + [shown];
    }
  }
}
