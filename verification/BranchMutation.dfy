/**
 mutator/branch: emptying an if, else or case branch of a function body, and
 adding a zero return where the emptied body would no longer be terminating.
*/
module BranchMutation {
  import opened Wrappers
  import opened GoSyntax
  import opened Terminating
  import opened TerminatingSpec
  import opened Semantics
  import opened Scoping
  import opened Holes

  /** The mutators branch/if, branch/else and branch/case. */
  datatype Kind = IfBranch | ElseBranch | CaseBranch

  /** The hole is the body of an if, the block of an else, or the body of a case. */
  predicate BranchHole(kind: Kind, list: seq<Stmt>, hole: ListHole)
    requires Fits(list, hole)
  {
    hole.At? && BranchHoleIn(kind, list[hole.i], hole.inner)
  }

  predicate BranchHoleIn(kind: Kind, s: Stmt, hole: StmtHole)
    requires FitsIn(s, hole)
  {
    match hole
    case InBody(h) =>
      if h.Here? then (kind.IfBranch? && s.If?) || (kind.CaseBranch? && s.Case?) else BranchHole(kind, BodyOf(s), h)
    case InElse(h) =>
      (kind.ElseBranch? && s.els.value.Block? && h == InBody(Here)) || BranchHoleIn(kind, s.els.value, h)
    case InLabeled(h) => BranchHoleIn(kind, s.stmt, h)
  }

  /** What the statement that keeps the branch's variables used looks like. */
  predicate IsNoop(s: Stmt) {
    s.Empty? || s.Simple?
  }

  /** The list installed in the hole of a body, or none if the branch is left
      alone. canReturn: a zero return can be written for the function's results;
      unsafeImport: the replacement would leave an import unused. */
  function Replacement(body: seq<Stmt>, hole: ListHole, noop: Stmt, hasResults: bool, canReturn: bool,
                       unsafeImport: bool)
      : Option<seq<Stmt>>
    requires Fits(body, hole)
  {
    var falls := hasResults && !IsTerminatingList(Fill(body, hole, [noop]));
    if ListAt(body, hole) == [] || unsafeImport || (falls && !canReturn) then None
    else if falls then Some([noop, Return])
    else Some([noop])
  }

  /** An emptied branch leaves a terminating function terminating, both to the
      analysis and to the compiler, which also counts calls of panic. */
  lemma EmptiedBranchStaysTerminating(body: seq<Stmt>, hole: ListHole, noop: Stmt, canReturn: bool, unsafeImport: bool)
    requires Fits(body, hole) && IsNoop(noop)
    requires Replacement(body, hole, noop, true, canReturn, unsafeImport).Some?
    ensures
      var mutant := Fill(body, hole, Replacement(body, hole, noop, true, canReturn, unsafeImport).value);
      && (IsTerminatingList(body) ==> IsTerminatingList(mutant))
      && (CheckedList(body, false) ==> CheckedList(mutant, false))
      && (CheckedList(body, false) && SpecList(body, false, true) ==> SpecList(mutant, false, true))
  {
    var repl := Replacement(body, hole, noop, true, canReturn, unsafeImport).value;
    if CheckedList(body, false) {
      FillKeepsChecked(body, hole, repl, false);
    }
    if |repl| == 2 {
      assert FinalAt(repl, 1);
      FillKeepsTerminating(body, hole, repl);
      FillKeepsSpec(body, hole, repl, false);
    } else if CheckedList(body, false) {
      AnalysisDecidesSpec(Fill(body, hole, repl));
    }
  }

  /** No run of the mutant falls off the end of a function with results. */
  lemma EmptiedBranchStillReturns(body: seq<Stmt>, hole: ListHole, noop: Stmt, canReturn: bool, unsafeImport: bool,
                                  o: Outcome)
    requires Fits(body, hole) && IsNoop(noop) && IsTerminatingList(body)
    requires Replacement(body, hole, noop, true, canReturn, unsafeImport).Some?
    requires BodyRuns(Fill(body, hole, Replacement(body, hole, noop, true, canReturn, unsafeImport).value), o)
    ensures o != Normal
  {
    EmptiedBranchStaysTerminating(body, hole, noop, canReturn, unsafeImport);
    TerminatingBodyReturns(Fill(body, hole, Replacement(body, hole, noop, true, canReturn, unsafeImport).value), o);
  }

  /** An emptied branch leaves a terminating body terminating on its own exactly
      when the analysis does not come down to the branch. */
  lemma EmptiedBranchDecides(body: seq<Stmt>, hole: ListHole, noop: Stmt)
    requires Fits(body, hole) && IsNoop(noop) && IsTerminatingList(body)
    ensures IsTerminatingList(Fill(body, hole, [noop])) <==> !Decides(body, hole)
  {
    FillKeepsTerminatingIff(body, hole, [noop]);
  }

  /** In a terminating body of a function with results, the return follows the noop
      exactly where the analysis comes down to the branch and a return can be
      written. */
  lemma ReturnExactlyWhereBranchDecides(body: seq<Stmt>, hole: ListHole, noop: Stmt, canReturn: bool,
                                        unsafeImport: bool)
    requires Fits(body, hole) && IsNoop(noop) && IsTerminatingList(body)
    ensures var repl := Replacement(body, hole, noop, true, canReturn, unsafeImport);
      && (repl == Some([noop]) <==> ListAt(body, hole) != [] && !unsafeImport && !Decides(body, hole))
      && (repl == Some([noop, Return]) <==>
            ListAt(body, hole) != [] && !unsafeImport && canReturn && Decides(body, hole))
      && (repl == None <==>
            ListAt(body, hole) == [] || unsafeImport || (Decides(body, hole) && !canReturn))
  {
    EmptiedBranchDecides(body, hole, noop);
  }

  /** A function without results is never given a return, so its body stays
      terminating, which Go does not require of it, exactly when the branch does
      not decide. */
  lemma BodyWithoutResultsFallsOffIff(body: seq<Stmt>, hole: ListHole, noop: Stmt, canReturn: bool, unsafeImport: bool)
    requires Fits(body, hole) && IsNoop(noop) && IsTerminatingList(body)
    requires Replacement(body, hole, noop, false, canReturn, unsafeImport).Some?
    ensures var repl := Replacement(body, hole, noop, false, canReturn, unsafeImport).value;
      repl == [noop] && (IsTerminatingList(Fill(body, hole, repl)) <==> !Decides(body, hole))
  {
    EmptiedBranchDecides(body, hole, noop);
  }

  /** The first branch of `if c { return } else { return }` decides. */
  lemma BodyWithoutResultsMayFallOff()
    ensures
      var body := [If([Return], Some(Block([Return])))];
      var hole := At(0, InBody(Here));
      && Replacement(body, hole, Simple, false, true, false) == Some([Simple])
      && IsTerminatingList(body) && !IsTerminatingList(Fill(body, hole, [Simple]))
  {
    var body := [If([Return], Some(Block([Return])))];
    assert IsTerminatingList([Return]);
    assert IsTerminating(Block([Return]), "");
    assert IsTerminating(body[0], "");
    BodyWithoutResultsFallsOffIff(body, At(0, InBody(Here)), Simple, true, false);
  }

  /** A pending mutation: the branch, its statements, and what replaces them. */
  datatype BranchEdit = BranchEdit(hole: ListHole, original: seq<Stmt>, repl: seq<Stmt>)

  /** The body of the innermost function around the branch. */
  class FuncBody {
    var list: seq<Stmt>

    constructor (list: seq<Stmt>)
      ensures this.list == list
    {
      this.list := list;
    }

    method SetBody(hole: ListHole, stmts: seq<Stmt>)
      requires Fits(list, hole)
      modifies this
      ensures list == Fill(old(list), hole, stmts)
    {
      list := Fill(list, hole, stmts);
    }

    /** Empties the branch, asks the analysis, and puts the branch back. */
    method TerminatingReturn(hole: ListHole, original: seq<Stmt>, noop: Stmt, hasResults: bool, canReturn: bool)
      returns (ret: Option<Stmt>, skip: bool)
      requires Fits(list, hole) && ListAt(list, hole) == original && IsNoop(noop)
      modifies this
      ensures list == old(list)
      ensures var rejected := hasResults && !IsTerminatingList(Fill(list, hole, [noop]));
              skip == (rejected && !canReturn) && ret == (if rejected && canReturn then Some(Return) else None)
      ensures IsTerminatingList(list) ==> (ret.Some? || skip <==> hasResults && Decides(list, hole))
    {
      ghost var terminating := IsTerminatingList(list);
      if terminating {
        EmptiedBranchDecides(list, hole, noop);
      }
      if !hasResults {
        return None, false;
      }
      SetBody(hole, [noop]);
      var still := CheckTerminatingList(list);
      SetBody(hole, original);
      RefillIsFill(old(list), hole, [noop], original);
      if still {
        return None, false;
      }
      if !canReturn {
        return None, true;
      }
      return Some(Return), false;
    }

    method MutateBranchBody(ghost kind: Kind, hole: ListHole, noop: Stmt, hasResults: bool, canReturn: bool,
                            unsafeImport: bool)
      returns (edit: Option<BranchEdit>)
      requires Fits(list, hole) && BranchHole(kind, list, hole) && IsNoop(noop)
      modifies this
      ensures list == old(list)
      ensures var needed := hasResults && !IsTerminatingList(Fill(list, hole, [noop]));
        && (edit.None? <==> ListAt(list, hole) == [] || unsafeImport || (needed && !canReturn))
        && (edit.Some? ==>
              edit.value == BranchEdit(hole, ListAt(list, hole), if needed then [noop, Return] else [noop]))
      ensures edit.Some? && IsTerminatingList(list) ==>
              edit.value.repl == if hasResults && Decides(list, hole) then [noop, Return] else [noop]
      ensures edit == match Replacement(list, hole, noop, hasResults, canReturn, unsafeImport)
                      case None => None
                      case Some(repl) => Some(BranchEdit(hole, ListAt(list, hole), repl))
      ensures edit.Some? && hasResults && IsTerminatingList(list) ==>
              IsTerminatingList(Fill(list, hole, edit.value.repl))
    {
      var original := ListAt(list, hole);
      if original == [] {
        return None;
      }
      var ret, skip := TerminatingReturn(hole, original, noop, hasResults, canReturn);
      if skip {
        return None;
      }
      var repl := [noop];
      if ret.Some? {
        repl := repl + [ret.value];
      }
      if unsafeImport {
        return None;
      }
      edit := Some(BranchEdit(hole, original, repl));
      if IsTerminatingList(list) {
        EmptiedBranchDecides(list, hole, noop);
      }
      if hasResults {
        EmptiedBranchStaysTerminating(list, hole, noop, canReturn, unsafeImport);
      }
    }

    method Change(edit: BranchEdit)
      requires Fits(list, edit.hole)
      modifies this
      ensures list == Fill(old(list), edit.hole, edit.repl)
    {
      SetBody(edit.hole, edit.repl);
    }

    method Reset(edit: BranchEdit)
      requires Fits(list, edit.hole)
      modifies this
      ensures list == Fill(old(list), edit.hole, edit.original)
      ensures forall body: seq<Stmt> | Fits(body, edit.hole) && ListAt(body, edit.hole) == edit.original ::
                old(list) == Fill(body, edit.hole, edit.repl) ==> list == body
    {
      forall body: seq<Stmt> | Fits(body, edit.hole) && ListAt(body, edit.hole) == edit.original {
        RefillIsFill(body, edit.hole, edit.repl, edit.original);
      }
      SetBody(edit.hole, edit.original);
    }
  }
}
