/**
 A statement the analysis calls terminating never completes normally, however
 its conditions, its jumps and its loops go.
*/
module Soundness {
  import opened Wrappers
  import opened GoSyntax
  import opened Terminating
  import opened Semantics

  /** o leaves the statement labelled `target`, or, with `implicit`, the nearest
      statement a break can leave. */
  predicate Escapes(o: Outcome, target: string, implicit: bool) {
    o.Broke? && (if o.to.None? then implicit else o.to.value == target)
  }

  // ----- a break that escapes is one the analysis sees -----

  lemma {:induction false} EscapingBreakIsSeen(n: nat, s: Stmt, own: string, o: Outcome, target: string, implicit: bool)
    requires Runs(n, s, own, o) && Escapes(o, target, implicit)
    ensures HasBreak(s, target, implicit)
    decreases n, s, 0, 0
  {
    match s
    case Empty =>
    case Simple =>
    case PanicCall =>
    case Return =>
    case Branch(_, _) =>
    case Labeled(name, stmt) =>
      EscapingBreakIsSeen(n, stmt, name, o, target, implicit);
    case Block(list) =>
      EscapingBreakIsSeenInList(n, list, 0, o, target, implicit);
    case If(body, els) =>
      if RunsFrom(n, body, 0, o) {
        EscapingBreakIsSeenInList(n, body, 0, o, target, implicit);
      } else {
        EscapingBreakIsSeen(n, els.value, "", o, target, implicit);
      }
    case Switch(clauses) =>
      var i :| 0 <= i < |clauses| && RunsClause(n, clauses, i, own, o);
      EscapingBreakIsSeenInClause(n, clauses, i, own, o, target);
    case Select(clauses) =>
      var i, b :| 0 <= i < |clauses| && clauses[i].Comm? && RunsFrom(n, clauses[i].body, 0, b) && o == Leave(own, b);
      EscapingBreakIsSeenInList(n, clauses[i].body, 0, b, target, false);
      assert HasBreak(clauses[i], target, false);
    case For(hasCond, body) =>
      EscapingBreakIsSeenInLoop(n, hasCond, body, own, o, target);
    case Range(body) =>
      EscapingBreakIsSeenInLoop(n, true, body, own, o, target);
    case Case(_, body) =>
      EscapingBreakIsSeenInList(n, body, 0, o, target, implicit);
    case Comm(_, body) =>
      EscapingBreakIsSeenInList(n, body, 0, o, target, implicit);
  }

  lemma {:induction false} EscapingBreakIsSeenInList(n: nat, list: seq<Stmt>, i: nat, o: Outcome, target: string,
                                                     implicit: bool)
    requires i <= |list| && RunsFrom(n, list, i, o) && Escapes(o, target, implicit)
    ensures HasBreakList(list, target, implicit)
    decreases n, list, 1, |list| - i
  {
    var b :|
      && Runs(n, list[i], "", b)
      && if b.Normal? then RunsFrom(n, list, i + 1, o)
         else if b.Jumped? && LabelIn(list, b.dest) then
           n > 0 && exists j :: 0 <= j < |list| && DefinesLabel(list[j], b.dest) && RunsFrom(n - 1, list, j, o)
         else o == b;
    if b.Normal? {
      EscapingBreakIsSeenInList(n, list, i + 1, o, target, implicit);
    } else if b.Jumped? && LabelIn(list, b.dest) {
      var j :| 0 <= j < |list| && DefinesLabel(list[j], b.dest) && RunsFrom(n - 1, list, j, o);
      EscapingBreakIsSeenInList(n - 1, list, j, o, target, implicit);
    } else {
      EscapingBreakIsSeen(n, list[i], "", o, target, implicit);
    }
  }

  lemma {:induction false} EscapingBreakIsSeenInClause(n: nat, clauses: seq<Stmt>, i: nat, own: string, o: Outcome,
                                                       target: string)
    requires i < |clauses| && RunsClause(n, clauses, i, own, o) && Escapes(o, target, true)
    ensures o.to.Some? && HasBreakList(clauses, target, false)
    decreases n, clauses, 2, |clauses| - i
  {
    var b :|
      && RunsFrom(n, clauses[i].body, 0, b)
      && if b.FellThrough? && i + 1 < |clauses| then RunsClause(n, clauses, i + 1, own, o) else o == Leave(own, b);
    if b.FellThrough? && i + 1 < |clauses| {
      EscapingBreakIsSeenInClause(n, clauses, i + 1, own, o, target);
    } else {
      assert b == o;
      EscapingBreakIsSeenInList(n, clauses[i].body, 0, b, target, false);
      assert HasBreak(clauses[i], target, false);
    }
  }

  lemma {:induction false} EscapingBreakIsSeenInLoop(n: nat, hasCond: bool, body: seq<Stmt>, own: string, o: Outcome,
                                                     target: string)
    requires RunsLoop(n, hasCond, body, own, o) && Escapes(o, target, true)
    ensures o.to.Some? && HasBreakList(body, target, false)
    decreases n, body, 3, 0
  {
    var b :|
      && RunsFrom(n, body, 0, b)
      && if Again(own, b) then n > 0 && RunsLoop(n - 1, hasCond, body, own, o) else o == Leave(own, b);
    if Again(own, b) {
      EscapingBreakIsSeenInLoop(n - 1, hasCond, body, own, o, target);
    } else {
      EscapingBreakIsSeenInList(n, body, 0, b, target, false);
    }
  }

  // ----- a terminating statement does not complete normally -----

  lemma {:induction false} TerminatingIsSound(n: nat, s: Stmt, own: string, o: Outcome)
    requires Runs(n, s, own, o) && IsTerminating(s, own)
    ensures o != Normal
    decreases n, s, 0, 0
  {
    match s
    case Labeled(name, stmt) =>
      TerminatingIsSound(n, stmt, name, o);
    case Block(list) =>
      TerminatingListIsSound(n, list, 0, o);
    case If(body, els) =>
      if RunsFrom(n, body, 0, o) {
        TerminatingListIsSound(n, body, 0, o);
      } else if o != Panicked {
        TerminatingIsSound(n, els.value, "", o);
      }
    case Switch(clauses) =>
      if i :| 0 <= i < |clauses| && RunsClause(n, clauses, i, own, o) {
        TerminatingClauseIsSound(n, clauses, i, own, o);
      }
    case Select(clauses) =>
      if i, b :| 0 <= i < |clauses| && clauses[i].Comm? && RunsFrom(n, clauses[i].body, 0, b) && o == Leave(own, b) {
        TerminatingListIsSound(n, clauses[i].body, 0, b);
        if Escapes(b, own, true) {
          EscapingBreakIsSeenInList(n, clauses[i].body, 0, b, own, true);
        }
      }
    case For(hasCond, body) =>
      UnbrokenLoopIsSound(n, body, own, o);
    case _ =>
  }

  /** The last statement that is not empty. */
  function Final(list: seq<Stmt>): (t: nat)
    requires IsTerminatingList(list)
    ensures t < |list| && IsTerminating(list[t], "")
    ensures forall k :: t < k < |list| ==> list[k].Empty?
  {
    if list[|list| - 1].Empty? then Final(list[..|list| - 1]) else |list| - 1
  }

  lemma {:induction false} TerminatingListIsSound(n: nat, list: seq<Stmt>, i: nat, o: Outcome)
    requires IsTerminatingList(list) && i <= Final(list) && RunsFrom(n, list, i, o)
    ensures o != Normal
    decreases n, list, 1, |list| - i
  {
    var b :|
      && Runs(n, list[i], "", b)
      && if b.Normal? then RunsFrom(n, list, i + 1, o)
         else if b.Jumped? && LabelIn(list, b.dest) then
           n > 0 && exists j :: 0 <= j < |list| && DefinesLabel(list[j], b.dest) && RunsFrom(n - 1, list, j, o)
         else o == b;
    if b.Normal? {
      if i == Final(list) {
        TerminatingIsSound(n, list[i], "", b);
      }
      TerminatingListIsSound(n, list, i + 1, o);
    } else if b.Jumped? && LabelIn(list, b.dest) {
      var j :| 0 <= j < |list| && DefinesLabel(list[j], b.dest) && RunsFrom(n - 1, list, j, o);
      TerminatingListIsSound(n - 1, list, j, o);
    }
  }

  lemma {:induction false} TerminatingClauseIsSound(n: nat, clauses: seq<Stmt>, i: nat, own: string, o: Outcome)
    requires i < |clauses| && RunsClause(n, clauses, i, own, o) && TerminatingSwitch(clauses, own)
    ensures o != Normal
    decreases n, clauses, 2, |clauses| - i
  {
    var b :|
      && RunsFrom(n, clauses[i].body, 0, b)
      && if b.FellThrough? && i + 1 < |clauses| then RunsClause(n, clauses, i + 1, own, o) else o == Leave(own, b);
    TerminatingListIsSound(n, clauses[i].body, 0, b);
    if b.FellThrough? && i + 1 < |clauses| {
      TerminatingClauseIsSound(n, clauses, i + 1, own, o);
    } else if Escapes(b, own, true) {
      EscapingBreakIsSeenInList(n, clauses[i].body, 0, b, own, true);
    }
  }

  lemma {:induction false} UnbrokenLoopIsSound(n: nat, body: seq<Stmt>, own: string, o: Outcome)
    requires RunsLoop(n, false, body, own, o) && !HasBreakList(body, own, true)
    ensures o != Normal
    decreases n, body, 3, 0
  {
    if o != Panicked {
      var b :|
        && RunsFrom(n, body, 0, b)
        && if Again(own, b) then n > 0 && RunsLoop(n - 1, false, body, own, o) else o == Leave(own, b);
      if Again(own, b) {
        UnbrokenLoopIsSound(n - 1, body, own, o);
      } else if Escapes(b, own, true) {
        EscapingBreakIsSeenInList(n, body, 0, b, own, true);
      }
    }
  }
}
