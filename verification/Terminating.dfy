/**
 The terminating-statement analysis of astutil/terminating.go: the predicates
 say what each step decides, and the methods are the source's loops.
*/
module Terminating {
  import opened Wrappers
  import opened GoSyntax

  predicate IsTerminating(s: Stmt, own: string) {
    match s
    case Return => true
    case Branch(tok, _) => tok.Goto? || tok.Fallthrough?
    case Labeled(name, stmt) => IsTerminating(stmt, name)
    case Block(list) => IsTerminatingList(list)
    case If(body, els) => els.Some? && IsTerminatingList(body) && IsTerminating(els.value, "")
    case Switch(clauses) => TerminatingSwitch(clauses, own)
    case Select(clauses) => TerminatingSelect(clauses, own)
    case For(hasCond, body) => !hasCond && !HasBreakList(body, own, true)
    case _ => false
  }

  /** The last statement that is not empty decides. */
  predicate IsTerminatingList(list: seq<Stmt>) {
    |list| > 0 &&
    var last := list[|list| - 1];
    if last.Empty? then IsTerminatingList(list[..|list| - 1]) else IsTerminating(last, "")
  }

  predicate TerminatingSwitch(clauses: seq<Stmt>, own: string) {
    && (exists i :: 0 <= i < |clauses| && clauses[i].Case? && clauses[i].isDefault)
    && forall i :: 0 <= i < |clauses| ==>
         && clauses[i].Case?
         && IsTerminatingList(clauses[i].body)
         && !HasBreakList(clauses[i].body, own, true)
  }

  predicate TerminatingSelect(clauses: seq<Stmt>, own: string) {
    forall i :: 0 <= i < |clauses| ==>
      && clauses[i].Comm?
      && IsTerminatingList(clauses[i].body)
      && !HasBreakList(clauses[i].body, own, true)
  }

  /** Whether s holds a break out of the statement labelled `target`; an
      unlabelled break counts while `implicit` holds. */
  predicate HasBreak(s: Stmt, target: string, implicit: bool) {
    match s
    case Branch(tok, l) => tok.Break? && (if l.None? then implicit else l.value == target)
    case Labeled(_, stmt) => HasBreak(stmt, target, implicit)
    case Block(list) => HasBreakList(list, target, implicit)
    case Case(_, body) => HasBreakList(body, target, implicit)
    case Comm(_, body) => HasBreakList(body, target, implicit)
    case If(body, els) => HasBreakList(body, target, implicit) || (els.Some? && HasBreak(els.value, target, implicit))
    case Switch(clauses) => target != "" && HasBreakList(clauses, target, false)
    case Select(clauses) => target != "" && HasBreakList(clauses, target, false)
    case For(_, body) => target != "" && HasBreakList(body, target, false)
    case Range(body) => target != "" && HasBreakList(body, target, false)
    case _ => false
  }

  predicate HasBreakList(list: seq<Stmt>, target: string, implicit: bool) {
    exists i :: 0 <= i < |list| && HasBreak(list[i], target, implicit)
  }

  // ----- the source's loops -----

  /** Every caller passes the list no label, so the parameter is dropped. */
  method CheckTerminatingList(list: seq<Stmt>) returns (r: bool)
    ensures r == IsTerminatingList(list)
  {
    var i := |list| - 1;
    assert list[..|list|] == list;
    while i >= 0
      invariant -1 <= i < |list|
      invariant IsTerminatingList(list) == IsTerminatingList(list[..i + 1])
    {
      assert list[..i + 1][..i] == list[..i];
      if !list[i].Empty? {
        return IsTerminating(list[i], "");
      }
      i := i - 1;
    }
    return false;
  }

  method CheckHasBreakList(list: seq<Stmt>, target: string, implicit: bool) returns (r: bool)
    ensures r == HasBreakList(list, target, implicit)
  {
    for i := 0 to |list|
      invariant forall k :: 0 <= k < i ==> !HasBreak(list[k], target, implicit)
    {
      if HasBreak(list[i], target, implicit) {
        return true;
      }
    }
    return false;
  }

  method CheckTerminatingSwitch(clauses: seq<Stmt>, own: string) returns (r: bool)
    ensures r == TerminatingSwitch(clauses, own)
  {
    var hasDefault := false;
    for i := 0 to |clauses|
      invariant hasDefault <==> exists k :: 0 <= k < i && clauses[k].Case? && clauses[k].isDefault
      invariant forall k :: 0 <= k < i ==>
        clauses[k].Case? && IsTerminatingList(clauses[k].body) && !HasBreakList(clauses[k].body, own, true)
    {
      if !clauses[i].Case? {
        return false;
      }
      if clauses[i].isDefault {
        hasDefault := true;
      }
      var ends := CheckTerminatingList(clauses[i].body);
      var breaks := CheckHasBreakList(clauses[i].body, own, true);
      if !ends || breaks {
        return false;
      }
    }
    return hasDefault;
  }

  method CheckTerminatingSelect(clauses: seq<Stmt>, own: string) returns (r: bool)
    ensures r == TerminatingSelect(clauses, own)
  {
    for i := 0 to |clauses|
      invariant forall k :: 0 <= k < i ==>
        clauses[k].Comm? && IsTerminatingList(clauses[k].body) && !HasBreakList(clauses[k].body, own, true)
    {
      if !clauses[i].Comm? {
        return false;
      }
      var ends := CheckTerminatingList(clauses[i].body);
      var breaks := CheckHasBreakList(clauses[i].body, own, true);
      if !ends || breaks {
        return false;
      }
    }
    return true;
  }
}
