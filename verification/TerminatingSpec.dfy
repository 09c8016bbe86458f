/**
 The "Terminating statements" section of the Go Language Specification, stated
 on its own terms: a break refers to an enclosing statement, which is found by
 resolving the break against the stack of breakable statements around it.
*/
module TerminatingSpec {
  import opened Wrappers
  import opened GoSyntax
  import opened Terminating

  /** The innermost breakable statement labelled l, or -1; `stack` holds the
      labels of the enclosing breakable statements, outermost first. */
  function Resolve(stack: seq<string>, l: Label): (k: int)
    ensures -1 <= k < |stack|
    ensures k >= 0 ==> stack[k] == l
    ensures forall j :: k < j < |stack| ==> stack[j] != l
  {
    if stack == [] then -1
    else if stack[|stack| - 1] == l then |stack| - 1
    else Resolve(stack[..|stack| - 1], l)
  }

  /** s, labelled `own`, holds a break that refers to the k-th statement of the
      stack around s. */
  predicate Refers(s: Stmt, own: string, stack: seq<string>, k: int) {
    match s
    case Branch(Break, to) => k == if to.None? then |stack| - 1 else Resolve(stack, to.value)
    case Labeled(name, stmt) => Refers(stmt, name, stack, k)
    case Block(list) => RefersList(list, stack, k)
    case If(body, els) => RefersList(body, stack, k) || (els.Some? && Refers(els.value, "", stack, k))
    case Switch(clauses) => RefersList(clauses, stack + [own], k)
    case Select(clauses) => RefersList(clauses, stack + [own], k)
    case For(_, body) => RefersList(body, stack + [own], k)
    case Range(body) => RefersList(body, stack + [own], k)
    case Case(_, body) => RefersList(body, stack, k)
    case Comm(_, body) => RefersList(body, stack, k)
    case _ => false
  }

  predicate RefersList(list: seq<Stmt>, stack: seq<string>, k: int) {
    exists i :: 0 <= i < |list| && Refers(list[i], "", stack, k)
  }

  /** "A (possibly labeled) fallthrough statement." */
  predicate IsFallthrough(s: Stmt) {
    (s.Branch? && s.tok.Fallthrough?) || (s.Labeled? && IsFallthrough(s.stmt))
  }

  predicate IsPanic(s: Stmt) {
    s.PanicCall? || (s.Labeled? && IsPanic(s.stmt))
  }

  /** The specification's list of terminating statements; `panics` says whether
      its second item, a call of panic, is taken in. */
  predicate SpecTerminating(s: Stmt, own: string, panics: bool) {
    match s
    case Return => true
    case Branch(tok, _) => tok.Goto?
    case PanicCall => panics
    case Block(list) => SpecList(list, false, panics)
    case If(body, els) => els.Some? && SpecList(body, false, panics) && SpecTerminating(els.value, "", panics)
    case For(hasCond, body) => !RefersList(body, [own], 0) && !hasCond
    case Switch(clauses) => !RefersList(clauses, [own], 0) && SpecCases(clauses, panics)
    case Select(clauses) => !RefersList(clauses, [own], 0) && SpecComms(clauses, panics)
    case Labeled(name, stmt) => SpecTerminating(stmt, name, panics)
    case _ => false
  }

  predicate SpecCases(clauses: seq<Stmt>, panics: bool) {
    && (exists i :: 0 <= i < |clauses| && clauses[i].Case? && clauses[i].isDefault)
    && forall i :: 0 <= i < |clauses| ==> clauses[i].Case? && SpecList(clauses[i].body, true, panics)
  }

  predicate SpecComms(clauses: seq<Stmt>, panics: bool) {
    forall i :: 0 <= i < |clauses| ==> clauses[i].Comm? && SpecList(clauses[i].body, false, panics)
  }

  /** The final non-empty statement of a list is its t-th. */
  predicate FinalAt(list: seq<Stmt>, t: nat) {
    t < |list| && !list[t].Empty? && forall k :: t < k < |list| ==> list[k].Empty?
  }

  /** "A statement list ends in a terminating statement if the list is not empty
      and its final non-empty statement is terminating"; in a switch clause a
      fallthrough does as well. */
  predicate SpecList(list: seq<Stmt>, clause: bool, panics: bool) {
    exists t | 0 <= t < |list| ::
      FinalAt(list, t) && (SpecTerminating(list[t], "", panics) || (clause && IsFallthrough(list[t])))
  }

  // ----- what the compiler has checked before the analysis runs -----

  predicate Declares(s: Stmt, l: string) {
    match s
    case Labeled(name, stmt) => name == l || Declares(stmt, l)
    case Block(list) => DeclaresList(list, l)
    case If(body, els) => DeclaresList(body, l) || (els.Some? && Declares(els.value, l))
    case Switch(clauses) => DeclaresList(clauses, l)
    case Select(clauses) => DeclaresList(clauses, l)
    case For(_, body) => DeclaresList(body, l)
    case Range(body) => DeclaresList(body, l)
    case Case(_, body) => DeclaresList(body, l)
    case Comm(_, body) => DeclaresList(body, l)
    case _ => false
  }

  predicate DeclaresList(list: seq<Stmt>, l: string) {
    exists i :: 0 <= i < |list| && Declares(list[i], l)
  }

  /** No label is declared again inside the statement it labels, and a
      fallthrough stands directly in a switch clause. */
  predicate Checked(s: Stmt) {
    match s
    case Labeled(name, stmt) => !Declares(stmt, name) && Checked(stmt)
    case Block(list) => CheckedList(list, false)
    case If(body, els) => CheckedList(body, false) && (els.Some? ==> Checked(els.value) && !IsFallthrough(els.value))
    case Switch(clauses) => CheckedList(clauses, false)
    case Select(clauses) => CheckedList(clauses, false)
    case For(_, body) => CheckedList(body, false)
    case Range(body) => CheckedList(body, false)
    case Case(_, body) => CheckedList(body, true)
    case Comm(_, body) => CheckedList(body, false)
    case _ => true
  }

  predicate CheckedList(list: seq<Stmt>, clause: bool) {
    forall i :: 0 <= i < |list| ==> Checked(list[i]) && (clause || !IsFallthrough(list[i]))
  }

  // ----- hasBreak finds exactly the breaks that refer to the statement -----

  lemma {:induction false} HasBreakMeansRefers(s: Stmt, own: string, stack: seq<string>, k: nat)
    requires k < |stack| && Checked(s)
    requires stack[k] != "" ==> own != stack[k] && !Declares(s, stack[k])
    requires stack[k] != "" ==> forall j :: k < j < |stack| ==> stack[j] != stack[k]
    ensures HasBreak(s, stack[k], k == |stack| - 1) <==> Refers(s, own, stack, k)
    decreases s, 0
  {
    match s
    case Branch(_, _) =>
    case Labeled(name, stmt) => HasBreakMeansRefers(stmt, name, stack, k);
    case Block(list) => HasBreakMeansRefersList(list, stack, k, false);
    case Case(_, body) => HasBreakMeansRefersList(body, stack, k, true);
    case Comm(_, body) => HasBreakMeansRefersList(body, stack, k, false);
    case If(body, els) =>
      HasBreakMeansRefersList(body, stack, k, false);
      if els.Some? {
        HasBreakMeansRefers(els.value, "", stack, k);
      }
    case Switch(clauses) => HasBreakMeansRefersInside(clauses, own, stack, k, false);
    case Select(clauses) => HasBreakMeansRefersInside(clauses, own, stack, k, false);
    case For(_, body) => HasBreakMeansRefersInside(body, own, stack, k, false);
    case Range(body) => HasBreakMeansRefersInside(body, own, stack, k, false);
    case _ =>
  }

  lemma {:induction false} HasBreakMeansRefersInside(list: seq<Stmt>, own: string, stack: seq<string>, k: nat,
                                                     clause: bool)
    requires k < |stack| && CheckedList(list, clause)
    requires stack[k] != "" ==> own != stack[k] && !DeclaresList(list, stack[k])
    requires stack[k] != "" ==> forall j :: k < j < |stack| ==> stack[j] != stack[k]
    ensures stack[k] != "" && HasBreakList(list, stack[k], false) <==> RefersList(list, stack + [own], k)
    decreases list, 2
  {
    HasBreakMeansRefersList(list, stack + [own], k, clause);
    if stack[k] == "" {
      NoTargetNoBreak(list);
    }
  }

  lemma {:induction false} HasBreakMeansRefersList(list: seq<Stmt>, stack: seq<string>, k: nat, clause: bool)
    requires k < |stack| && CheckedList(list, clause)
    requires stack[k] != "" ==> !DeclaresList(list, stack[k])
    requires stack[k] != "" ==> forall j :: k < j < |stack| ==> stack[j] != stack[k]
    ensures HasBreakList(list, stack[k], k == |stack| - 1) <==> RefersList(list, stack, k)
    decreases list, 1
  {
    forall i | 0 <= i < |list|
      ensures HasBreak(list[i], stack[k], k == |stack| - 1) <==> Refers(list[i], "", stack, k)
    {
      HasBreakMeansRefers(list[i], "", stack, k);
    }
  }

  lemma {:induction false} NoTargetNoBreak(list: seq<Stmt>)
    ensures !HasBreakList(list, "", false)
    decreases list, 1
  {
    forall i | 0 <= i < |list| ensures !HasBreak(list[i], "", false) {
      NoTargetNoBreakIn(list[i]);
    }
  }

  lemma {:induction false} NoTargetNoBreakIn(s: Stmt)
    ensures !HasBreak(s, "", false)
    decreases s, 0
  {
    match s
    case Labeled(_, stmt) => NoTargetNoBreakIn(stmt);
    case Block(list) => NoTargetNoBreak(list);
    case Case(_, body) => NoTargetNoBreak(body);
    case Comm(_, body) => NoTargetNoBreak(body);
    case If(body, els) =>
      NoTargetNoBreak(body);
      if els.Some? {
        NoTargetNoBreakIn(els.value);
      }
    case _ =>
  }

  // ----- the analysis decides the specification's rules, without panic -----

  lemma {:induction false} AnalysisMeetsSpec(s: Stmt, own: string)
    requires Checked(s) && (own != "" ==> !Declares(s, own))
    ensures IsTerminating(s, own) <==> SpecTerminating(s, own, false) || IsFallthrough(s)
    decreases s, 0
  {
    match s
    case Labeled(name, stmt) => AnalysisMeetsSpec(stmt, name);
    case Block(list) => AnalysisMeetsSpecList(list, false);
    case If(body, els) =>
      AnalysisMeetsSpecList(body, false);
      if els.Some? {
        AnalysisMeetsSpec(els.value, "");
      }
    case Switch(clauses) =>
      ClausesMeetSpec(clauses, own);
    case Select(clauses) =>
      ClausesMeetSpec(clauses, own);
    case For(_, body) =>
      HasBreakMeansRefersList(body, [own], 0, false);
    case _ =>
  }

  lemma {:induction false} ClausesMeetSpec(clauses: seq<Stmt>, own: string)
    requires CheckedList(clauses, false) && (own != "" ==> !DeclaresList(clauses, own))
    ensures TerminatingSwitch(clauses, own) <==> !RefersList(clauses, [own], 0) && SpecCases(clauses, false)
    ensures TerminatingSelect(clauses, own) <==> !RefersList(clauses, [own], 0) && SpecComms(clauses, false)
    decreases clauses, 2
  {
    HasBreakMeansRefersList(clauses, [own], 0, false);
    forall i | 0 <= i < |clauses| && (clauses[i].Case? || clauses[i].Comm?)
      ensures IsTerminatingList(clauses[i].body) <==> SpecList(clauses[i].body, clauses[i].Case?, false)
      ensures HasBreak(clauses[i], own, true) <==> HasBreakList(clauses[i].body, own, true)
    {
      assert Checked(clauses[i]);
      AnalysisMeetsSpecList(clauses[i].body, clauses[i].Case?);
    }
  }

  lemma {:induction false} AnalysisMeetsSpecList(list: seq<Stmt>, clause: bool)
    requires CheckedList(list, clause)
    ensures IsTerminatingList(list) <==> SpecList(list, clause, false)
    decreases list, 1
  {
    if list != [] {
      var last := |list| - 1;
      if list[last].Empty? {
        AnalysisMeetsSpecList(list[..last], clause);
        SpecListIgnoresFinalEmpty(list, clause, false);
      } else {
        AnalysisMeetsSpec(list[last], "");
      }
    }
  }

  lemma SpecListIgnoresFinalEmpty(list: seq<Stmt>, clause: bool, panics: bool)
    requires list != [] && list[|list| - 1].Empty?
    ensures SpecList(list, clause, panics) <==> SpecList(list[..|list| - 1], clause, panics)
  {
    var init := list[..|list| - 1];
    forall t | 0 <= t < |init| ensures list[t] == init[t] && (FinalAt(list, t) <==> FinalAt(init, t)) {
      if FinalAt(init, t) {
        assert forall k :: t < k < |init| ==> list[k] == init[k];
      }
    }
    assert forall t :: 0 <= t < |list| && FinalAt(list, t) ==> t < |init|;
  }

  // ----- panic: the one rule the analysis leaves out -----

  /** Whether one of the lists that have to end in a terminating statement for s
      to be one, or an else branch, ends in a call of panic. */
  predicate PanicEnds(s: Stmt) {
    match s
    case PanicCall => true
    case Labeled(_, stmt) => PanicEnds(stmt)
    case Block(list) => PanicEndsList(list)
    case If(body, els) => PanicEndsList(body) || (els.Some? && PanicEnds(els.value))
    case Switch(clauses) => exists i :: 0 <= i < |clauses| && PanicEnds(clauses[i])
    case Select(clauses) => exists i :: 0 <= i < |clauses| && PanicEnds(clauses[i])
    case Case(_, body) => PanicEndsList(body)
    case Comm(_, body) => PanicEndsList(body)
    case _ => false
  }

  predicate PanicEndsList(list: seq<Stmt>) {
    exists t | 0 <= t < |list| :: FinalAt(list, t) && PanicEnds(list[t])
  }

  /** The panic rule only makes more statements terminating, and it is what makes
      a statement terminating exactly when a call of panic ends one of its lists. */
  lemma {:induction false} PanicOnlyAdds(s: Stmt, own: string)
    ensures SpecTerminating(s, own, false) <==> SpecTerminating(s, own, true) && !PanicEnds(s)
    ensures PanicEnds(s) ==> !IsFallthrough(s)
    decreases s, 0
  {
    match s
    case Labeled(name, stmt) => PanicOnlyAdds(stmt, name);
    case Block(list) => PanicOnlyAddsList(list, false);
    case If(body, els) =>
      PanicOnlyAddsList(body, false);
      if els.Some? {
        PanicOnlyAdds(els.value, "");
      }
    case Switch(clauses) => PanicOnlyAddsClauses(clauses);
    case Select(clauses) => PanicOnlyAddsClauses(clauses);
    case _ =>
  }

  lemma {:induction false} PanicOnlyAddsClauses(clauses: seq<Stmt>)
    ensures var ends := exists i :: 0 <= i < |clauses| && PanicEnds(clauses[i]);
      && (SpecCases(clauses, false) <==> SpecCases(clauses, true) && !ends)
      && (SpecComms(clauses, false) <==> SpecComms(clauses, true) && !ends)
    decreases clauses, 2
  {
    forall i | 0 <= i < |clauses| && (clauses[i].Case? || clauses[i].Comm?)
      ensures SpecList(clauses[i].body, clauses[i].Case?, false) <==>
              SpecList(clauses[i].body, clauses[i].Case?, true) && !PanicEnds(clauses[i])
    {
      PanicOnlyAddsList(clauses[i].body, clauses[i].Case?);
    }
  }

  lemma {:induction false} PanicOnlyAddsList(list: seq<Stmt>, clause: bool)
    ensures SpecList(list, clause, false) <==> SpecList(list, clause, true) && !PanicEndsList(list)
    decreases list, 1
  {
    forall t | 0 <= t < |list| {
      PanicOnlyAdds(list[t], "");
    }
    FinalIsUnique(list);
  }

  lemma FinalIsUnique(list: seq<Stmt>)
    ensures forall t, u :: 0 <= t < |list| && 0 <= u < |list| && FinalAt(list, t) && FinalAt(list, u) ==> t == u
  {
  }

  /** Of the compiled bodies that the specification calls terminating, the
      analysis accepts exactly those in which no list or else branch that makes
      them so ends in a call of panic; it accepts no others. */
  lemma AnalysisDecidesSpec(body: seq<Stmt>)
    requires CheckedList(body, false)
    ensures IsTerminatingList(body) <==> SpecList(body, false, true) && !PanicEndsList(body)
  {
    AnalysisMeetsSpecList(body, false);
    PanicOnlyAddsList(body, false);
  }

  /** The analysis rejects `func f() int { panic("x") }`, which the
      specification accepts. */
  lemma PanicIsNotTerminatingHere()
    ensures CheckedList([PanicCall], false)
    ensures SpecList([PanicCall], false, true) && !IsTerminatingList([PanicCall])
  {
    assert FinalAt([PanicCall], 0);
    AnalysisDecidesSpec([PanicCall]);
  }
}
