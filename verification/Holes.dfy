/**
 Replacing one statement list inside a function body, and what the replacement
 does to the terminating-statement analysis and to the specification it
 implements.
*/
module Holes {
  import opened Wrappers
  import opened GoSyntax
  import opened Terminating
  import opened TerminatingSpec

  /** A path from a list to one of the statement lists inside it; the clauses of
      a switch or select are on the way, but are not such a list. */
  datatype ListHole = Here | At(i: nat, inner: StmtHole)
  datatype StmtHole = InBody(hole: ListHole) | InElse(inner: StmtHole) | InLabeled(inner: StmtHole)

  predicate HasBody(s: Stmt) {
    s.Block? || s.If? || s.Switch? || s.Select? || s.For? || s.Range? || s.Case? || s.Comm?
  }

  function BodyOf(s: Stmt): seq<Stmt>
    requires HasBody(s)
  {
    match s
    case Block(list) => list
    case Switch(clauses) => clauses
    case Select(clauses) => clauses
    case _ => s.body
  }

  function WithBody(s: Stmt, body: seq<Stmt>): Stmt
    requires HasBody(s)
  {
    match s
    case Block(_) => Block(body)
    case If(_, els) => If(body, els)
    case Switch(_) => Switch(body)
    case Select(_) => Select(body)
    case For(hasCond, _) => For(hasCond, body)
    case Range(_) => Range(body)
    case Case(isDefault, _) => Case(isDefault, body)
    case Comm(isDefault, _) => Comm(isDefault, body)
  }

  predicate Fits(list: seq<Stmt>, hole: ListHole) {
    hole.Here? || (hole.i < |list| && FitsIn(list[hole.i], hole.inner))
  }

  predicate FitsIn(s: Stmt, hole: StmtHole) {
    match hole
    case InBody(h) => HasBody(s) && (s.Switch? || s.Select? ==> h.At?) && Fits(BodyOf(s), h)
    case InElse(h) => s.If? && s.els.Some? && FitsIn(s.els.value, h)
    case InLabeled(h) => s.Labeled? && FitsIn(s.stmt, h)
  }

  /** The list the hole leads to. */
  function ListAt(list: seq<Stmt>, hole: ListHole): seq<Stmt>
    requires Fits(list, hole)
  {
    if hole.Here? then list else ListIn(list[hole.i], hole.inner)
  }

  function ListIn(s: Stmt, hole: StmtHole): seq<Stmt>
    requires FitsIn(s, hole)
  {
    match hole
    case InBody(h) => ListAt(BodyOf(s), h)
    case InElse(h) => ListIn(s.els.value, h)
    case InLabeled(h) => ListIn(s.stmt, h)
  }

  function Fill(list: seq<Stmt>, hole: ListHole, repl: seq<Stmt>): (filled: seq<Stmt>)
    requires Fits(list, hole)
    ensures Fits(filled, hole) && ListAt(filled, hole) == repl
    ensures hole.At? ==> |filled| == |list|
    decreases hole
  {
    if hole.Here? then repl else list[hole.i := FillIn(list[hole.i], hole.inner, repl)]
  }

  function FillIn(s: Stmt, hole: StmtHole, repl: seq<Stmt>): (filled: Stmt)
    requires FitsIn(s, hole)
    ensures FitsIn(filled, hole) && ListIn(filled, hole) == repl
    ensures filled.Empty? == s.Empty? && filled.Case? == s.Case? && filled.Comm? == s.Comm?
    ensures s.Case? ==> filled.isDefault == s.isDefault
    decreases hole
  {
    match hole
    case InBody(h) => WithBody(s, Fill(BodyOf(s), h, repl))
    case InElse(h) => s.(els := Some(FillIn(s.els.value, h, repl)))
    case InLabeled(h) => s.(stmt := FillIn(s.stmt, h, repl))
  }

  lemma {:induction false} RefillIsFill(list: seq<Stmt>, hole: ListHole, a: seq<Stmt>, b: seq<Stmt>)
    requires Fits(list, hole)
    ensures Fill(Fill(list, hole, a), hole, b) == Fill(list, hole, b)
    ensures Fill(list, hole, ListAt(list, hole)) == list
    decreases hole
  {
    if hole.At? {
      RefillInIsFillIn(list[hole.i], hole.inner, a, b);
    }
  }

  lemma {:induction false} RefillInIsFillIn(s: Stmt, hole: StmtHole, a: seq<Stmt>, b: seq<Stmt>)
    requires FitsIn(s, hole)
    ensures FillIn(FillIn(s, hole, a), hole, b) == FillIn(s, hole, b)
    ensures FillIn(s, hole, ListIn(s, hole)) == s
    decreases hole
  {
    match hole
    case InBody(h) => RefillIsFill(BodyOf(s), h, a, b);
    case InElse(h) => RefillInIsFillIn(s.els.value, h, a, b);
    case InLabeled(h) => RefillInIsFillIn(s.stmt, h, a, b);
  }

  // ----- the analysis is monotone in a hole: breaks go down, termination goes up -----

  /** The replacement escapes no statement. */
  ghost predicate NoBreaks(list: seq<Stmt>) {
    forall target, implicit :: !HasBreakList(list, target, implicit)
  }

  lemma {:induction false} FillAddsNoBreak(list: seq<Stmt>, hole: ListHole, repl: seq<Stmt>, target: string,
                                           implicit: bool)
    requires Fits(list, hole) && NoBreaks(repl)
    ensures HasBreakList(Fill(list, hole, repl), target, implicit) ==> HasBreakList(list, target, implicit)
    decreases hole
  {
    if hole.At? {
      FillInAddsNoBreak(list[hole.i], hole.inner, repl, target, implicit);
      var filled := Fill(list, hole, repl);
      if i :| 0 <= i < |filled| && HasBreak(filled[i], target, implicit) {
        assert HasBreak(list[i], target, implicit);
      }
    }
  }

  lemma {:induction false} FillInAddsNoBreak(s: Stmt, hole: StmtHole, repl: seq<Stmt>, target: string, implicit: bool)
    requires FitsIn(s, hole) && NoBreaks(repl)
    ensures HasBreak(FillIn(s, hole, repl), target, implicit) ==> HasBreak(s, target, implicit)
    decreases hole
  {
    match hole
    case InBody(h) =>
      FillAddsNoBreak(BodyOf(s), h, repl, target, implicit);
      FillAddsNoBreak(BodyOf(s), h, repl, target, false);
    case InElse(h) => FillInAddsNoBreak(s.els.value, h, repl, target, implicit);
    case InLabeled(h) => FillInAddsNoBreak(s.stmt, h, repl, target, implicit);
  }

  lemma {:induction false} FillKeepsTerminating(list: seq<Stmt>, hole: ListHole, repl: seq<Stmt>)
    requires Fits(list, hole) && NoBreaks(repl) && IsTerminatingList(repl)
    ensures IsTerminatingList(list) ==> IsTerminatingList(Fill(list, hole, repl))
    decreases hole, |list|
  {
    if hole.At? && IsTerminatingList(list) {
      var last := |list| - 1;
      var filled := Fill(list, hole, repl);
      if hole.i == last {
        FillInKeepsTerminating(list[last], hole.inner, repl, "");
      } else if list[last].Empty? {
        FillKeepsTerminating(list[..last], hole, repl);
        assert filled[..last] == Fill(list[..last], hole, repl);
      }
    }
  }

  lemma {:induction false} FillInKeepsTerminating(s: Stmt, hole: StmtHole, repl: seq<Stmt>, own: string)
    requires FitsIn(s, hole) && NoBreaks(repl) && IsTerminatingList(repl)
    ensures IsTerminating(s, own) ==> IsTerminating(FillIn(s, hole, repl), own)
    decreases hole
  {
    match hole
    case InElse(h) => FillInKeepsTerminating(s.els.value, h, repl, "");
    case InLabeled(h) => FillInKeepsTerminating(s.stmt, h, repl, s.name);
    case InBody(h) =>
      if s.Switch? || s.Select? {
        FillKeepsClauses(BodyOf(s), h, repl, own);
      } else if s.For? {
        FillAddsNoBreak(s.body, h, repl, own, true);
      } else {
        FillKeepsTerminating(BodyOf(s), h, repl);
      }
  }

  lemma {:induction false} FillKeepsClauses(clauses: seq<Stmt>, hole: ListHole, repl: seq<Stmt>, own: string)
    requires Fits(clauses, hole) && hole.At? && NoBreaks(repl) && IsTerminatingList(repl)
    ensures TerminatingSwitch(clauses, own) ==> TerminatingSwitch(Fill(clauses, hole, repl), own)
    ensures TerminatingSelect(clauses, own) ==> TerminatingSelect(Fill(clauses, hole, repl), own)
    decreases hole
  {
    var c := clauses[hole.i];
    if c.Case? || c.Comm? {
      FillKeepsTerminating(c.body, hole.inner.hole, repl);
      FillAddsNoBreak(c.body, hole.inner.hole, repl, own, true);
    }
    if TerminatingSwitch(clauses, own) {
      var d :| 0 <= d < |clauses| && clauses[d].Case? && clauses[d].isDefault;
      assert Fill(clauses, hole, repl)[d].isDefault;
    }
  }

  // ----- which holes the analysis depends on -----

  /** The hole is what the analysis of the list comes down to: only empty
      statements follow the statement it is in, at every list on the way, and no
      loop is on the way. */
  predicate Decides(list: seq<Stmt>, hole: ListHole)
    requires Fits(list, hole)
  {
    hole.Here? || ((forall k :: hole.i < k < |list| ==> list[k].Empty?) && DecidesIn(list[hole.i], hole.inner))
  }

  predicate DecidesIn(s: Stmt, hole: StmtHole)
    requires FitsIn(s, hole)
  {
    match hole
    case InElse(h) => DecidesIn(s.els.value, h)
    case InLabeled(h) => DecidesIn(s.stmt, h)
    case InBody(h) =>
      if s.For? || s.Range? then false
      else if s.Switch? || s.Select? then assert Fits(BodyOf(s), h); DecidesIn(BodyOf(s)[h.i], h.inner)
      else Decides(BodyOf(s), h)
  }

  /** A terminating list whose hole gets statements that do not terminate stays
      terminating exactly when the hole does not decide. */
  lemma {:induction false} FillKeepsTerminatingIff(list: seq<Stmt>, hole: ListHole, repl: seq<Stmt>)
    requires Fits(list, hole) && NoBreaks(repl) && !IsTerminatingList(repl) && IsTerminatingList(list)
    ensures IsTerminatingList(Fill(list, hole, repl)) <==> !Decides(list, hole)
    decreases hole, |list|
  {
    if hole.At? {
      var last := |list| - 1;
      var filled := Fill(list, hole, repl);
      if hole.i == last {
        FillInKeepsTerminatingIff(list[last], hole.inner, repl, "");
      } else if list[last].Empty? {
        var init := list[..last];
        FillKeepsTerminatingIff(init, hole, repl);
        assert filled[..last] == Fill(init, hole, repl);
        assert forall k :: hole.i < k < last ==> init[k] == list[k];
      }
    }
  }

  lemma {:induction false} FillInKeepsTerminatingIff(s: Stmt, hole: StmtHole, repl: seq<Stmt>, own: string)
    requires FitsIn(s, hole) && NoBreaks(repl) && !IsTerminatingList(repl)
    requires IsTerminating(s, own)
    ensures IsTerminating(FillIn(s, hole, repl), own) <==> !DecidesIn(s, hole)
    decreases hole
  {
    match hole
    case InElse(h) => FillInKeepsTerminatingIff(s.els.value, h, repl, "");
    case InLabeled(h) => FillInKeepsTerminatingIff(s.stmt, h, repl, s.name);
    case InBody(h) =>
      if s.Switch? || s.Select? {
        FillKeepsClausesIff(BodyOf(s), h, repl, own);
      } else if s.For? {
        FillAddsNoBreak(s.body, h, repl, own, true);
      } else {
        FillKeepsTerminatingIff(BodyOf(s), h, repl);
      }
  }

  lemma {:induction false} FillKeepsClausesIff(clauses: seq<Stmt>, hole: ListHole, repl: seq<Stmt>, own: string)
    requires Fits(clauses, hole) && hole.At? && NoBreaks(repl) && !IsTerminatingList(repl)
    ensures var decides := DecidesIn(clauses[hole.i], hole.inner);
      && (TerminatingSwitch(clauses, own) ==> (TerminatingSwitch(Fill(clauses, hole, repl), own) <==> !decides))
      && (TerminatingSelect(clauses, own) ==> (TerminatingSelect(Fill(clauses, hole, repl), own) <==> !decides))
    decreases hole
  {
    var c := clauses[hole.i];
    if (c.Case? || c.Comm?) && IsTerminatingList(c.body) {
      FillKeepsTerminatingIff(c.body, hole.inner.hole, repl);
      FillAddsNoBreak(c.body, hole.inner.hole, repl, own, true);
    }
    if TerminatingSwitch(clauses, own) {
      var d :| 0 <= d < |clauses| && clauses[d].Case? && clauses[d].isDefault;
      assert Fill(clauses, hole, repl)[d].isDefault;
    }
  }

  // ----- and so is the specification -----

  /** Statements that neither transfer control to a label nor declare one. */
  predicate Inert(list: seq<Stmt>) {
    forall i :: 0 <= i < |list| ==> list[i].Empty? || list[i].Simple? || list[i].Return?
  }

  lemma {:induction false} FillAddsNoReference(list: seq<Stmt>, hole: ListHole, repl: seq<Stmt>, stack: seq<string>,
                                               k: int)
    requires Fits(list, hole) && Inert(repl)
    ensures RefersList(Fill(list, hole, repl), stack, k) ==> RefersList(list, stack, k)
    decreases hole
  {
    if hole.Here? {
      assert forall i :: 0 <= i < |repl| ==> !Refers(repl[i], "", stack, k);
    } else {
      FillInAddsNoReference(list[hole.i], hole.inner, repl, "", stack, k);
      var filled := Fill(list, hole, repl);
      if i :| 0 <= i < |filled| && Refers(filled[i], "", stack, k) {
        assert Refers(list[i], "", stack, k);
      }
    }
  }

  lemma {:induction false} FillInAddsNoReference(s: Stmt, hole: StmtHole, repl: seq<Stmt>, own: string,
                                                 stack: seq<string>, k: int)
    requires FitsIn(s, hole) && Inert(repl)
    ensures Refers(FillIn(s, hole, repl), own, stack, k) ==> Refers(s, own, stack, k)
    decreases hole
  {
    match hole
    case InBody(h) =>
      FillAddsNoReference(BodyOf(s), h, repl, stack, k);
      FillAddsNoReference(BodyOf(s), h, repl, stack + [own], k);
    case InElse(h) => FillInAddsNoReference(s.els.value, h, repl, "", stack, k);
    case InLabeled(h) => FillInAddsNoReference(s.stmt, h, repl, s.name, stack, k);
  }

  lemma {:induction false} FillKeepsChecked(list: seq<Stmt>, hole: ListHole, repl: seq<Stmt>, clause: bool)
    requires Fits(list, hole) && Inert(repl) && CheckedList(list, clause)
    ensures CheckedList(Fill(list, hole, repl), clause)
    ensures forall l :: DeclaresList(Fill(list, hole, repl), l) ==> DeclaresList(list, l)
    decreases hole
  {
    if hole.Here? {
      assert forall i :: 0 <= i < |repl| ==> Checked(repl[i]) && !IsFallthrough(repl[i]);
      assert forall l, i :: 0 <= i < |repl| ==> !Declares(repl[i], l);
    } else {
      FillInKeepsChecked(list[hole.i], hole.inner, repl);
      var filled := Fill(list, hole, repl);
      forall l | DeclaresList(filled, l) ensures DeclaresList(list, l) {
        var i :| 0 <= i < |filled| && Declares(filled[i], l);
        assert Declares(list[i], l);
      }
    }
  }

  lemma {:induction false} FillInKeepsChecked(s: Stmt, hole: StmtHole, repl: seq<Stmt>)
    requires FitsIn(s, hole) && Inert(repl) && Checked(s)
    ensures Checked(FillIn(s, hole, repl))
    ensures IsFallthrough(FillIn(s, hole, repl)) == IsFallthrough(s)
    ensures forall l :: Declares(FillIn(s, hole, repl), l) ==> Declares(s, l)
    decreases hole
  {
    match hole
    case InBody(h) => FillKeepsChecked(BodyOf(s), h, repl, s.Case?);
    case InElse(h) => FillInKeepsChecked(s.els.value, h, repl);
    case InLabeled(h) => FillInKeepsChecked(s.stmt, h, repl);
  }

  lemma {:induction false} FillKeepsSpec(list: seq<Stmt>, hole: ListHole, repl: seq<Stmt>, clause: bool)
    requires Fits(list, hole) && Inert(repl) && SpecList(repl, false, true)
    ensures SpecList(list, clause, true) ==> SpecList(Fill(list, hole, repl), clause, true)
    decreases hole
  {
    var filled := Fill(list, hole, repl);
    if SpecList(list, clause, true) {
      if hole.Here? {
        assert forall t :: 0 <= t < |repl| ==> !IsFallthrough(repl[t]);
      } else {
        var t :| 0 <= t < |list| && FinalAt(list, t) &&
            (SpecTerminating(list[t], "", true) || (clause && IsFallthrough(list[t])));
        assert FinalAt(filled, t);
        if t == hole.i {
          FillInKeepsSpec(list[t], hole.inner, repl, "");
        }
      }
    }
  }

  lemma {:induction false} FillInKeepsSpec(s: Stmt, hole: StmtHole, repl: seq<Stmt>, own: string)
    requires FitsIn(s, hole) && Inert(repl) && SpecList(repl, false, true)
    ensures SpecTerminating(s, own, true) ==> SpecTerminating(FillIn(s, hole, repl), own, true)
    ensures IsFallthrough(FillIn(s, hole, repl)) == IsFallthrough(s)
    decreases hole
  {
    match hole
    case InElse(h) => FillInKeepsSpec(s.els.value, h, repl, "");
    case InLabeled(h) => FillInKeepsSpec(s.stmt, h, repl, s.name);
    case InBody(h) =>
      FillAddsNoReference(BodyOf(s), h, repl, [own], 0);
      if s.Switch? || s.Select? {
        FillKeepsSpecClauses(BodyOf(s), h, repl);
      } else {
        FillKeepsSpec(BodyOf(s), h, repl, false);
      }
  }

  lemma {:induction false} FillKeepsSpecClauses(clauses: seq<Stmt>, hole: ListHole, repl: seq<Stmt>)
    requires Fits(clauses, hole) && hole.At? && Inert(repl) && SpecList(repl, false, true)
    ensures SpecCases(clauses, true) ==> SpecCases(Fill(clauses, hole, repl), true)
    ensures SpecComms(clauses, true) ==> SpecComms(Fill(clauses, hole, repl), true)
    decreases hole
  {
    var c := clauses[hole.i];
    if c.Case? || c.Comm? {
      FillKeepsSpec(c.body, hole.inner.hole, repl, c.Case?);
    }
    if SpecCases(clauses, true) {
      var d :| 0 <= d < |clauses| && clauses[d].Case? && clauses[d].isDefault;
      assert Fill(clauses, hole, repl)[d].isDefault;
    }
  }
}
