/**
 The branch mutators under the mutation walk: the branches ast.Walk meets in the
 body of one function with results, and the handshake of walk.go driving the
 changes and resets of mutator/branch over them.
*/
module BranchWalk {
  import opened Wrappers
  import opened Sequences
  import opened GoSyntax
  import opened Semantics
  import opened Terminating
  import opened Scoping
  import opened Holes
  import opened BranchMutation
  import opened Handshake

  // ----- the branches in walk order -----

  /** The branch a mutator empties when the walk visits s. */
  function OwnBranches(kind: Kind, s: Stmt): seq<StmtHole> {
    if kind.IfBranch? && s.If? then [InBody(Here)]
    else if kind.ElseBranch? && s.If? && s.els.Some? && s.els.value.Block? then [InElse(InBody(Here))]
    else if kind.CaseBranch? && s.Case? then [InBody(Here)]
    else []
  }

  /** The branches of s and of the statements in it, in walk order. */
  function Branches(kind: Kind, s: Stmt): seq<StmtHole>
    decreases s, 1
  {
    OwnBranches(kind, s) + BranchesInside(kind, s)
  }

  function BranchesInside(kind: Kind, s: Stmt): seq<StmtHole>
    decreases s, 0
  {
    if s.Labeled? then Mapped((h: StmtHole) => InLabeled(h), Branches(kind, s.stmt))
    else if !HasBody(s) then []
    else
      Mapped((h: ListHole) => InBody(h), BranchesFrom(kind, BodyOf(s), 0)) +
      if s.If? && s.els.Some? then Mapped((h: StmtHole) => InElse(h), Branches(kind, s.els.value)) else []
  }

  /** The branches of a list from its i-th statement on. */
  function BranchesFrom(kind: Kind, list: seq<Stmt>, i: nat): seq<ListHole>
    requires i <= |list|
    decreases list, |list| - i
  {
    if i == |list| then []
    else Mapped((h: StmtHole) => At(i, h), Branches(kind, list[i])) + BranchesFrom(kind, list, i + 1)
  }

  /** The walk meets exactly the branches of the mutator's kind. */
  lemma {:induction false} BranchIsMet(kind: Kind, s: Stmt, hole: StmtHole)
    ensures hole in Branches(kind, s) <==> FitsIn(s, hole) && BranchHoleIn(kind, s, hole)
    decreases s, 1
  {
    BranchInsideIsMet(kind, s, hole);
    if s.If? && s.els.Some? && s.els.value.Block? {
      assert FitsIn(s.els.value, InBody(Here));
      assert FitsIn(s, InElse(InBody(Here)));
    }
  }

  /** Inside s are the branches that are not its own. */
  lemma {:induction false} BranchInsideIsMet(kind: Kind, s: Stmt, hole: StmtHole)
    ensures hole in BranchesInside(kind, s) <==>
      && FitsIn(s, hole)
      && match hole
         case InBody(h) => h.At? && BranchHole(kind, BodyOf(s), h)
         case InElse(h) => BranchHoleIn(kind, s.els.value, h)
         case InLabeled(h) => BranchHoleIn(kind, s.stmt, h)
    decreases s, 0
  {
    if s.Labeled? {
      MappedHas((h: StmtHole) => InLabeled(h), Branches(kind, s.stmt), hole);
      if hole.InLabeled? {
        BranchIsMet(kind, s.stmt, hole.inner);
      }
    } else if HasBody(s) {
      MappedHas((h: ListHole) => InBody(h), BranchesFrom(kind, BodyOf(s), 0), hole);
      if hole.InBody? {
        BranchFromIsMet(kind, BodyOf(s), 0, hole.hole);
      }
      if s.If? && s.els.Some? {
        MappedHas((h: StmtHole) => InElse(h), Branches(kind, s.els.value), hole);
        if hole.InElse? {
          BranchIsMet(kind, s.els.value, hole.inner);
        }
      }
    }
  }

  lemma {:induction false} BranchFromIsMet(kind: Kind, list: seq<Stmt>, i: nat, hole: ListHole)
    requires i <= |list|
    ensures hole in BranchesFrom(kind, list, i) <==>
      hole.At? && i <= hole.i && Fits(list, hole) && BranchHole(kind, list, hole)
    decreases list, |list| - i
  {
    if i < |list| {
      AtIsMapped(i, Branches(kind, list[i]), hole);
      BranchFromIsMet(kind, list, i + 1, hole);
      if hole.At? && hole.i == i {
        BranchIsMet(kind, list[i], hole.inner);
      }
    }
  }

  lemma AtIsMapped(i: nat, holes: seq<StmtHole>, hole: ListHole)
    ensures hole in Mapped((h: StmtHole) => At(i, h), holes) <==> hole.At? && hole.i == i && hole.inner in holes
  {
    MappedHas((h: StmtHole) => At(i, h), holes, hole);
  }

  /** No branch is met twice. */
  lemma {:induction false} BranchesDiffer(kind: Kind, s: Stmt)
    ensures Distinct(Branches(kind, s))
    decreases s, 1
  {
    BranchesInsideDiffer(kind, s);
    forall h | h in OwnBranches(kind, s) ensures h !in BranchesInside(kind, s) {
      BranchInsideIsMet(kind, s, h);
    }
    DistinctAppend(OwnBranches(kind, s), BranchesInside(kind, s));
  }

  lemma {:induction false} BranchesInsideDiffer(kind: Kind, s: Stmt)
    ensures Distinct(BranchesInside(kind, s))
    decreases s, 0
  {
    if s.Labeled? {
      BranchesDiffer(kind, s.stmt);
      DistinctMapped((h: StmtHole) => InLabeled(h), Branches(kind, s.stmt));
    } else if HasBody(s) {
      var bodies := Mapped((h: ListHole) => InBody(h), BranchesFrom(kind, BodyOf(s), 0));
      BranchesFromDiffer(kind, BodyOf(s), 0);
      DistinctMapped((h: ListHole) => InBody(h), BranchesFrom(kind, BodyOf(s), 0));
      if s.If? && s.els.Some? {
        BranchesDiffer(kind, s.els.value);
        var elses := Mapped((h: StmtHole) => InElse(h), Branches(kind, s.els.value));
        DistinctMapped((h: StmtHole) => InElse(h), Branches(kind, s.els.value));
        forall h | h in bodies ensures h !in elses {
          MappedHas((h: ListHole) => InBody(h), BranchesFrom(kind, BodyOf(s), 0), h);
          MappedHas((h: StmtHole) => InElse(h), Branches(kind, s.els.value), h);
        }
        DistinctAppend(bodies, elses);
      }
    }
  }

  lemma {:induction false} BranchesFromDiffer(kind: Kind, list: seq<Stmt>, i: nat)
    requires i <= |list|
    ensures Distinct(BranchesFrom(kind, list, i))
    decreases list, |list| - i
  {
    if i < |list| {
      var here := Mapped((h: StmtHole) => At(i, h), Branches(kind, list[i]));
      BranchesDiffer(kind, list[i]);
      DistinctMapped((h: StmtHole) => At(i, h), Branches(kind, list[i]));
      BranchesFromDiffer(kind, list, i + 1);
      forall h | h in here ensures h !in BranchesFrom(kind, list, i + 1) {
        MappedHas((h: StmtHole) => At(i, h), Branches(kind, list[i]), h);
        BranchFromIsMet(kind, list, i + 1, h);
      }
      DistinctAppend(here, BranchesFrom(kind, list, i + 1));
    }
  }

  // ----- the mutators under the handshake -----

  /** What a mutator finds out about a branch besides its statements. */
  datatype Told = Told(noop: Stmt, canReturn: bool, unsafeImport: bool)

  function ReplacementAt(tree: seq<Stmt>, hole: ListHole, t: Told): Option<seq<Stmt>>
    requires Fits(tree, hole)
  {
    Replacement(tree, hole, t.noop, true, t.canReturn, t.unsafeImport)
  }

  /** setBody of a branch. */
  function Setter(hole: ListHole, stmts: seq<Stmt>): seq<Stmt> -> seq<Stmt> {
    (tree: seq<Stmt>) => if Fits(tree, hole) then Fill(tree, hole, stmts) else tree
  }

  /** The mutation for a branch of the tree as it stands. */
  function MutationsAt(hole: ListHole, t: Told, tree: seq<Stmt>): seq<Mutation<seq<Stmt>>> {
    if !Fits(tree, hole) then []
    else
      var repl := ReplacementAt(tree, hole, t);
      if repl.None? then [] else [Mutation(Setter(hole, repl.value), Setter(hole, ListAt(tree, hole)))]
  }

  /** The walk of one mutator over a body, as far as it stops at a branch. */
  function WalkOf(kind: Kind, body: seq<Stmt>, told: ListHole -> Told): Walk<seq<Stmt>> {
    var holes := BranchesFrom(kind, body, 0);
    Walk(body, |holes|,
         (node: nat, tree: seq<Stmt>) =>
           if node < |holes| then MutationsAt(holes[node], told(holes[node]), tree) else [])
  }

  lemma WalkMeetsBranch(kind: Kind, body: seq<Stmt>, node: nat)
    requires node < |BranchesFrom(kind, body, 0)|
    ensures var hole := BranchesFrom(kind, body, 0)[node]; Fits(body, hole) && BranchHole(kind, body, hole)
  {
    BranchFromIsMet(kind, body, 0, BranchesFrom(kind, body, 0)[node]);
  }

  /** The branch mutators meet what the handshake asks of a mutator. */
  lemma BranchWalkUndoes(kind: Kind, body: seq<Stmt>, told: ListHole -> Told)
    ensures Undoes(WalkOf(kind, body, told))
  {
    var w := WalkOf(kind, body, told);
    forall node, i | 0 <= node < w.nodes && 0 <= i < |w.mutator(node, w.original)|
      ensures var m := w.mutator(node, w.original)[i]; m.reset(m.change(w.original)) == w.original
    {
      var hole := BranchesFrom(kind, body, 0)[node];
      RefillIsFill(body, hole, ReplacementAt(body, hole, told(hole)).value, ListAt(body, hole));
    }
  }

  /** At every moment of every run over a terminating body, each recorded mutant
      is a terminating body: it never falls off its end. */
  lemma RecordedBodiesTerminate(kind: Kind, body: seq<Stmt>, told: ListHole -> Told, run: seq<State<seq<Stmt>>>, k: nat,
                                e: Handshake.Edit<seq<Stmt>>)
    requires IsTerminatingList(body) && forall hole :: IsNoop(told(hole).noop)
    requires IsRun(WalkOf(kind, body, told), run) && k < |run| && e in run[k].recorded
    ensures IsTerminatingList(e.tree) && forall o :: BodyRuns(e.tree, o) ==> o != Normal
  {
    var w := WalkOf(kind, body, told);
    BranchWalkUndoes(kind, body, told);
    RecordedIsOneEdit(w, run, k, e);
    var i :| 0 <= i < |w.mutator(e.node, w.original)| && EditOf(w, e.node, i) == e;
    var hole := BranchesFrom(kind, body, 0)[e.node];
    var t := told(hole);
    EmptiedBranchStaysTerminating(body, hole, t.noop, t.canReturn, t.unsafeImport);
    forall o | BodyRuns(e.tree, o) ensures o != Normal {
      TerminatingBodyReturns(e.tree, o);
    }
  }

  /** The mutant of a branch, if it gets a replacement: emptied, with the rest as parsed. */
  function MutantAt(kind: Kind, body: seq<Stmt>, told: ListHole -> Told, node: nat): seq<Handshake.Edit<seq<Stmt>>>
    requires node < |BranchesFrom(kind, body, 0)|
  {
    WalkMeetsBranch(kind, body, node);
    var hole := BranchesFrom(kind, body, 0)[node];
    var repl := ReplacementAt(body, hole, told(hole));
    if repl.None? then [] else [Handshake.Edit(node, Fill(body, hole, repl.value))]
  }

  /** The mutants of the first n branches of the body. */
  function Mutants(kind: Kind, body: seq<Stmt>, told: ListHole -> Told, n: nat): seq<Handshake.Edit<seq<Stmt>>>
    requires n <= |BranchesFrom(kind, body, 0)|
  {
    if n == 0 then [] else Mutants(kind, body, told, n - 1) + MutantAt(kind, body, told, n - 1)
  }

  lemma {:induction false} EditsAreMutants(kind: Kind, body: seq<Stmt>, told: ListHole -> Told, n: nat)
    requires n <= |BranchesFrom(kind, body, 0)|
    ensures EditsBefore(WalkOf(kind, body, told), n) == Mutants(kind, body, told, n)
  {
    if n > 0 {
      EditsAreMutants(kind, body, told, n - 1);
      BranchEdits(kind, body, told, n - 1);
    }
  }

  lemma BranchEdits(kind: Kind, body: seq<Stmt>, told: ListHole -> Told, node: nat)
    requires node < |BranchesFrom(kind, body, 0)|
    ensures var w := WalkOf(kind, body, told);
      EditsAt(w, node, |w.mutator(node, w.original)|) == MutantAt(kind, body, told, node)
  {
    WalkMeetsBranch(kind, body, node);
  }

  /** A run that cannot go on has recorded, in walk order, one mutant for each
      branch of the body that gets a replacement, and the body is as parsed. */
  lemma BranchWalkRestores(kind: Kind, body: seq<Stmt>, told: ListHole -> Told, run: seq<State<seq<Stmt>>>)
    requires IsRun(WalkOf(kind, body, told), run) && Stuck(WalkOf(kind, body, told), run[|run| - 1])
    ensures run[|run| - 1].tree == body
    ensures run[|run| - 1].recorded == Mutants(kind, body, told, |BranchesFrom(kind, body, 0)|)
  {
    BranchWalkUndoes(kind, body, told);
    RunsComplete(WalkOf(kind, body, told), run);
    EditsAreMutants(kind, body, told, |BranchesFrom(kind, body, 0)|);
  }
}
