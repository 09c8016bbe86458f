/**
 The placement rules the Go compiler enforces on branch statements, and what
 they add to soundness: an execution of a terminating function body that ends
 at all ends in a return or a panic.
*/
module Scoping {
  import opened Wrappers
  import opened GoSyntax
  import opened Terminating
  import opened Semantics
  import opened Soundness

  /** What surrounds a statement: whether a plain break, a plain continue and a
      fallthrough have a target, which labels a break and a continue may name,
      and the lists whose labels a goto may name. */
  datatype Scope = Scope(
    inBreakable: bool,
    inLoop: bool,
    falls: bool,
    breakLabels: set<string>,
    loopLabels: set<string>,
    lists: seq<seq<Stmt>>)

  const FUNCTION_SCOPE := Scope(false, false, false, {}, {}, [])

  function Named(own: string): set<string> {
    if own == "" then {} else {own}
  }

  /** Inside a switch or select labelled `own`. */
  function InClauses(sc: Scope, own: string): Scope {
    sc.(inBreakable := true, falls := false, breakLabels := sc.breakLabels + Named(own))
  }

  function InLoop(sc: Scope, own: string): Scope {
    InClauses(sc, own).(inLoop := true, loopLabels := sc.loopLabels + Named(own))
  }

  /** An outcome the surroundings have a target for. */
  ghost predicate Allowed(o: Outcome, sc: Scope) {
    match o
    case Broke(to) => if to.None? then sc.inBreakable else to.value in sc.breakLabels
    case Continued(to) => if to.None? then sc.inLoop else to.value in sc.loopLabels
    case Jumped(dest) => exists k :: 0 <= k < |sc.lists| && LabelIn(sc.lists[k], dest)
    case FellThrough => sc.falls
    case _ => true
  }

  /** Every branch statement in s, labelled `own`, has a target. */
  ghost predicate Scoped(s: Stmt, own: string, sc: Scope)
    decreases s, 0
  {
    match s
    case Branch(Break, to) => Allowed(Broke(to), sc)
    case Branch(Continue, to) => Allowed(Continued(to), sc)
    case Branch(Goto, to) => to.Some? && Allowed(Jumped(to.value), sc)
    case Branch(Fallthrough, _) => sc.falls
    case Labeled(name, stmt) => Scoped(stmt, name, sc)
    case Block(list) => ScopedList(list, sc.(falls := false))
    case If(body, els) => ScopedList(body, sc.(falls := false)) &&
        (els.Some? ==> Scoped(els.value, "", sc.(falls := false)))
    case Switch(clauses) =>
      forall i :: 0 <= i < |clauses| ==>
        clauses[i].Case? && ScopedList(clauses[i].body, InClauses(sc, own).(falls := i + 1 < |clauses|))
    case Select(clauses) =>
      forall i :: 0 <= i < |clauses| ==> clauses[i].Comm? && ScopedList(clauses[i].body, InClauses(sc, own))
    case For(_, body) => ScopedList(body, InLoop(sc, own))
    case Range(body) => ScopedList(body, InLoop(sc, own))
    case Case(_, _) => false
    case Comm(_, _) => false
    case _ => true
  }

  ghost predicate ScopedList(list: seq<Stmt>, sc: Scope)
    decreases list, 1
  {
    forall i :: 0 <= i < |list| ==> Scoped(list[i], "", sc.(lists := sc.lists + [list]))
  }

  lemma {:induction false} RunStaysInScope(n: nat, s: Stmt, own: string, o: Outcome, sc: Scope)
    requires Scoped(s, own, sc) && Runs(n, s, own, o)
    ensures Allowed(o, sc)
    decreases n, s, 0, 0
  {
    match s
    case Labeled(name, stmt) =>
      RunStaysInScope(n, stmt, name, o, sc);
    case Block(list) =>
      ListStaysInScope(n, list, 0, o, sc.(falls := false));
    case If(body, els) =>
      if RunsFrom(n, body, 0, o) {
        ListStaysInScope(n, body, 0, o, sc.(falls := false));
      } else if o != Panicked && els.Some? {
        RunStaysInScope(n, els.value, "", o, sc.(falls := false));
      }
    case Switch(clauses) =>
      if i :| 0 <= i < |clauses| && RunsClause(n, clauses, i, own, o) {
        ClauseStaysInScope(n, clauses, i, own, o, sc);
      }
    case Select(clauses) =>
      if i, b :| 0 <= i < |clauses| && clauses[i].Comm? && RunsFrom(n, clauses[i].body, 0, b) && o == Leave(own, b) {
        ListStaysInScope(n, clauses[i].body, 0, b, InClauses(sc, own));
      }
    case For(hasCond, body) =>
      LoopStaysInScope(n, hasCond, body, own, o, sc);
    case Range(body) =>
      LoopStaysInScope(n, true, body, own, o, sc);
    case _ =>
  }

  lemma {:induction false} ListStaysInScope(n: nat, list: seq<Stmt>, i: nat, o: Outcome, sc: Scope)
    requires i <= |list| && ScopedList(list, sc) && RunsFrom(n, list, i, o)
    ensures Allowed(o, sc)
    decreases n, list, 1, |list| - i
  {
    if i < |list| {
      var b :|
        && Runs(n, list[i], "", b)
        && if b.Normal? then RunsFrom(n, list, i + 1, o)
           else if b.Jumped? && LabelIn(list, b.dest) then
             n > 0 && exists j :: 0 <= j < |list| && DefinesLabel(list[j], b.dest) && RunsFrom(n - 1, list, j, o)
           else o == b;
      if b.Normal? {
        ListStaysInScope(n, list, i + 1, o, sc);
      } else if b.Jumped? && LabelIn(list, b.dest) {
        var j :| 0 <= j < |list| && DefinesLabel(list[j], b.dest) && RunsFrom(n - 1, list, j, o);
        ListStaysInScope(n - 1, list, j, o, sc);
      } else {
        RunStaysInScope(n, list[i], "", b, sc.(lists := sc.lists + [list]));
      }
    }
  }

  lemma {:induction false} ClauseStaysInScope(n: nat, clauses: seq<Stmt>, i: nat, own: string, o: Outcome, sc: Scope)
    requires i < |clauses| && Scoped(Switch(clauses), own, sc) && RunsClause(n, clauses, i, own, o)
    ensures Allowed(o, sc)
    decreases n, clauses, 2, |clauses| - i
  {
    var b :|
      && RunsFrom(n, clauses[i].body, 0, b)
      && if b.FellThrough? && i + 1 < |clauses| then RunsClause(n, clauses, i + 1, own, o) else o == Leave(own, b);
    ListStaysInScope(n, clauses[i].body, 0, b, InClauses(sc, own).(falls := i + 1 < |clauses|));
    if b.FellThrough? {
      ClauseStaysInScope(n, clauses, i + 1, own, o, sc);
    }
  }

  lemma {:induction false} LoopStaysInScope(n: nat, hasCond: bool, body: seq<Stmt>, own: string, o: Outcome, sc: Scope)
    requires ScopedList(body, InLoop(sc, own)) && RunsLoop(n, hasCond, body, own, o)
    ensures Allowed(o, sc)
    decreases n, body, 3, 0
  {
    if o != Panicked && !(hasCond && o == Normal) {
      var b :|
        && RunsFrom(n, body, 0, b)
        && if Again(own, b) then n > 0 && RunsLoop(n - 1, hasCond, body, own, o) else o == Leave(own, b);
      ListStaysInScope(n, body, 0, b, InLoop(sc, own));
      if Again(own, b) {
        LoopStaysInScope(n - 1, hasCond, body, own, o, sc);
      }
    }
  }

  /** A function body the analysis accepts cannot fall off its end, whatever its
      branch statements; with them well placed, it returns or panics. */
  lemma TerminatingBodyReturns(body: seq<Stmt>, o: Outcome)
    requires IsTerminatingList(body) && BodyRuns(body, o)
    ensures o != Normal
    ensures ScopedList(body, FUNCTION_SCOPE) ==> o == Returned || o == Panicked
  {
    var n: nat :| RunsFrom(n, body, 0, o);
    TerminatingListIsSound(n, body, 0, o);
    if ScopedList(body, FUNCTION_SCOPE) {
      ListStaysInScope(n, body, 0, o, FUNCTION_SCOPE);
    }
  }
}
