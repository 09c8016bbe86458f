/**
 What an execution of a statement can end in. Conditions, tags and channel
 operations are not modelled, so every choice they make is left open and any of
 them may panic. `n` bounds the loop iterations and backward jumps of one
 execution; a property of every execution quantifies over n.
*/
module Semantics {
  import opened Wrappers
  import opened GoSyntax

  datatype Outcome =
    | Normal
    | Returned
    | Panicked
    | Broke(to: Option<Label>)
    | Continued(to: Option<Label>)
    | Jumped(dest: Label)
    | FellThrough

  /** What a statement labelled `own` that catches breaks ends in when its body
      ends in b. */
  function Leave(own: string, b: Outcome): Outcome {
    if b.Broke? && (b.to.None? || b.to.value == own) then Normal else b
  }

  /** Whether a loop labelled `own` goes round again after its body ends in b. */
  predicate Again(own: string, b: Outcome) {
    b.Normal? || (b.Continued? && (b.to.None? || b.to.value == own))
  }

  /** s, labelled `own` ("" for no label), can end in o. */
  ghost predicate Runs(n: nat, s: Stmt, own: string, o: Outcome)
    decreases n, s, 0, 0
  {
    match s
    case Empty => o == Normal
    case Simple => o == Normal || o == Panicked
    case PanicCall => o == Panicked
    case Return => o == Returned || o == Panicked
    case Branch(Break, l) => o == Broke(l)
    case Branch(Continue, l) => o == Continued(l)
    case Branch(Goto, l) => l.Some? && o == Jumped(l.value)
    case Branch(Fallthrough, _) => o == FellThrough
    case Labeled(name, stmt) => Runs(n, stmt, name, o)
    case Block(list) => RunsFrom(n, list, 0, o)
    case If(body, els) =>
      || o == Panicked
      || RunsFrom(n, body, 0, o)
      || (if els.None? then o == Normal else Runs(n, els.value, "", o))
    case Switch(clauses) =>
      || o == Panicked
      || (o == Normal && !HasDefault(clauses))
      || exists i :: 0 <= i < |clauses| && RunsClause(n, clauses, i, own, o)
    case Select(clauses) =>
      || o == Panicked
      || exists i, b :: 0 <= i < |clauses| && clauses[i].Comm? && RunsFrom(n, clauses[i].body, 0, b) &&
          o == Leave(own, b)
    case For(hasCond, body) => RunsLoop(n, hasCond, body, own, o)
    case Range(body) => RunsLoop(n, true, body, own, o)
    case Case(_, body) => RunsFrom(n, body, 0, o)
    case Comm(_, body) => RunsFrom(n, body, 0, o)
  }

  ghost predicate HasDefault(clauses: seq<Stmt>) {
    exists i :: 0 <= i < |clauses| && clauses[i].Case? && clauses[i].isDefault
  }

  /** list, entered at its i-th statement, can end in o. A jump to a label of
      this list goes on from the statement that carries the label. */
  ghost predicate RunsFrom(n: nat, list: seq<Stmt>, i: nat, o: Outcome)
    requires i <= |list|
    decreases n, list, 1, |list| - i
  {
    if i == |list| then o == Normal else
    exists b ::
      && Runs(n, list[i], "", b)
      && if b.Normal? then RunsFrom(n, list, i + 1, o)
         else if b.Jumped? && LabelIn(list, b.dest) then
           n > 0 && exists j :: 0 <= j < |list| && DefinesLabel(list[j], b.dest) && RunsFrom(n - 1, list, j, o)
         else o == b
  }

  /** A switch that selects clause i can end in o. */
  ghost predicate RunsClause(n: nat, clauses: seq<Stmt>, i: nat, own: string, o: Outcome)
    requires i < |clauses|
    decreases n, clauses, 2, |clauses| - i
  {
    clauses[i].Case? &&
    exists b ::
      && RunsFrom(n, clauses[i].body, 0, b)
      && if b.FellThrough? && i + 1 < |clauses| then RunsClause(n, clauses, i + 1, own, o) else o == Leave(own, b)
  }

  ghost predicate RunsLoop(n: nat, hasCond: bool, body: seq<Stmt>, own: string, o: Outcome)
    decreases n, body, 3, 0
  {
    || o == Panicked
    || (hasCond && o == Normal)
    || exists b ::
         && RunsFrom(n, body, 0, b)
         && if Again(own, b) then n > 0 && RunsLoop(n - 1, hasCond, body, own, o) else o == Leave(own, b)
  }

  /** A function body can end in o. */
  ghost predicate BodyRuns(body: seq<Stmt>, o: Outcome) {
    exists n: nat :: RunsFrom(n, body, 0, o)
  }
}
