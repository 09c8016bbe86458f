/**
 mutator/loop/break.go: swapping break and continue. The mutator is called on
 every loop of a file and collects the branches of that loop alone, so over a
 whole walk each branch has to be found from exactly one loop.
*/
module LoopBreak {
  datatype Tok = Break | Continue | Goto | Fallthrough

  /** The statements that matter here; any other statement or clause is Plain, with
      the expressions and the statements it holds. A switch stands for a switch,
      a type switch or a select. */
  datatype Stmt =
    | Branch(tok: Tok, labelled: bool, pos: int)
    | Loop(head: seq<Expr>, body: seq<Stmt>)
    | Switch(head: seq<Expr>, clauses: seq<Stmt>)
    | Plain(exprs: seq<Expr>, stmts: seq<Stmt>)

  /** Statements occur inside an expression only as the body of a function literal. */
  datatype Expr =
    | FuncLit(body: seq<Stmt>)
    | Operands(operands: seq<Expr>)

  datatype Mutation = Mutation(pos: int, original: Tok, target: Tok)

  // ----- the branches a loop owns -----

  /** What a branch below a loop contributes, under so many switches. */
  function Collected(s: Stmt, depth: nat): seq<Mutation>
    decreases s, 0
  {
    match s
    case Branch(tok, labelled, pos) =>
      if labelled then []
      else if tok == Continue then [Mutation(pos, Continue, Break)]
      else if tok == Break && depth == 0 then [Mutation(pos, Break, Continue)]
      else []
    case Loop(_, _) => []
    case Switch(_, clauses) => CollectedList(clauses, depth + 1)
    case Plain(_, stmts) => CollectedList(stmts, depth)
  }

  function CollectedList(ss: seq<Stmt>, depth: nat): seq<Mutation>
    decreases ss, 1
  {
    if ss == [] then [] else Collected(ss[0], depth) + CollectedList(ss[1..], depth)
  }

  class LoopBranchCollector {
    var mutations: seq<Mutation>
    var switchOrSelectDepth: nat

    constructor ()
      ensures mutations == [] && switchOrSelectDepth == 0
    {
      mutations, switchOrSelectDepth := [], 0;
    }

    /** ast.Walk with this collector. The depth is the same afterwards. */
    method Walk(s: Stmt)
      modifies this
      ensures switchOrSelectDepth == old(switchOrSelectDepth)
      ensures mutations == old(mutations) + Collected(s, switchOrSelectDepth)
      decreases s, 0
    {
      match s
      case Loop(_, _) =>
      case Switch(_, clauses) => WalkScoped(clauses);
      case Branch(tok, labelled, pos) => VisitBranch(tok, labelled, pos);
      case Plain(_, stmts) => WalkList(stmts);
    }

    method WalkList(ss: seq<Stmt>)
      modifies this
      ensures switchOrSelectDepth == old(switchOrSelectDepth)
      ensures mutations == old(mutations) + CollectedList(ss, switchOrSelectDepth)
      decreases ss, 1
    {
      for i := 0 to |ss|
        invariant switchOrSelectDepth == old(switchOrSelectDepth)
        invariant mutations + CollectedList(ss[i..], switchOrSelectDepth) ==
                  old(mutations) + CollectedList(ss, switchOrSelectDepth)
      {
        assert ss[i..][0] == ss[i] && ss[i..][1..] == ss[i + 1..];
        Walk(ss[i]);
      }
    }

    method WalkScoped(clauses: seq<Stmt>)
      modifies this
      ensures switchOrSelectDepth == old(switchOrSelectDepth)
      ensures mutations == old(mutations) + CollectedList(clauses, switchOrSelectDepth + 1)
      decreases clauses, 2
    {
      switchOrSelectDepth := switchOrSelectDepth + 1;
      WalkList(clauses);
      switchOrSelectDepth := switchOrSelectDepth - 1;
    }

    method VisitBranch(tok: Tok, labelled: bool, pos: int)
      modifies this`mutations
      ensures mutations == old(mutations) + Collected(Branch(tok, labelled, pos), switchOrSelectDepth)
    {
      if labelled {
        return;
      }
      if tok == Continue {
        mutations := mutations + [Mutation(pos, tok, Break)];
      } else if tok == Break && switchOrSelectDepth == 0 {
        mutations := mutations + [Mutation(pos, tok, Continue)];
      }
    }
  }

  // ----- the walk over everything -----

  /** What the mutator answers for one node. */
  function OwnMutations(s: Stmt): seq<Mutation> {
    if s.Loop? then CollectedList(s.body, 0) else []
  }

  /** The mutations of a whole walk: each loop's own, when the loop is visited. */
  function Emitted(s: Stmt): seq<Mutation>
    decreases s, 0
  {
    match s
    case Branch(_, _, _) => []
    case Loop(head, body) => OwnMutations(s) + EmittedExprs(head) + EmittedList(body)
    case Switch(head, clauses) => EmittedExprs(head) + EmittedList(clauses)
    case Plain(exprs, stmts) => EmittedExprs(exprs) + EmittedList(stmts)
  }

  function EmittedList(ss: seq<Stmt>): seq<Mutation>
    decreases ss, 1
  {
    if ss == [] then [] else Emitted(ss[0]) + EmittedList(ss[1..])
  }

  function EmittedExpr(e: Expr): seq<Mutation>
    decreases e, 0
  {
    match e
    case FuncLit(body) => EmittedList(body)
    case Operands(es) => EmittedExprs(es)
  }

  function EmittedExprs(es: seq<Expr>): seq<Mutation>
    decreases es, 1
  {
    if es == [] then [] else EmittedExpr(es[0]) + EmittedExprs(es[1..])
  }

  /** The mutator on one node of the walk. */
  method MutatorLoopBreak(s: Stmt) returns (ms: seq<Mutation>)
    ensures ms == OwnMutations(s)
  {
    if !s.Loop? {
      return [];
    }
    var c := new LoopBranchCollector();
    c.WalkList(s.body);
    return c.mutations;
  }

  // ----- which branch belongs to a loop -----

  /** What encloses a statement within its function. */
  datatype Around = Around(inLoop: bool, breakLeavesLoop: bool)

  const IN_FUNCTION: Around := Around(false, false)

  /** The mutations the file should get: an unlabelled continue of some loop turned
      into break, and an unlabelled break whose innermost enclosing loop, switch or
      select is a loop turned into continue. */
  function Wanted(s: Stmt, around: Around): multiset<Mutation>
    decreases s, 0
  {
    match s
    case Branch(tok, labelled, pos) =>
      if !labelled && tok == Continue && around.inLoop then multiset{Mutation(pos, Continue, Break)}
      else if !labelled && tok == Break && around.breakLeavesLoop then multiset{Mutation(pos, Break, Continue)}
      else multiset{}
    case Loop(head, body) => WantedExprs(head) + WantedList(body, Around(true, true))
    case Switch(head, clauses) => WantedExprs(head) + WantedList(clauses, around.(breakLeavesLoop := false))
    case Plain(exprs, stmts) => WantedExprs(exprs) + WantedList(stmts, around)
  }

  function WantedList(ss: seq<Stmt>, around: Around): multiset<Mutation>
    decreases ss, 1
  {
    if ss == [] then multiset{} else Wanted(ss[0], around) + WantedList(ss[1..], around)
  }

  /** A function literal is a function of its own. */
  function WantedExpr(e: Expr): multiset<Mutation>
    decreases e, 0
  {
    match e
    case FuncLit(body) => WantedList(body, IN_FUNCTION)
    case Operands(es) => WantedExprs(es)
  }

  function WantedExprs(es: seq<Expr>): multiset<Mutation>
    decreases es, 1
  {
    if es == [] then multiset{} else WantedExpr(es[0]) + WantedExprs(es[1..])
  }

  /** What the enclosing loop, when there is one, collects here. */
  function OwedAbove(s: Stmt, around: Around, depth: nat): multiset<Mutation> {
    if around.inLoop then multiset(Collected(s, depth)) else multiset{}
  }

  function OwedAboveList(ss: seq<Stmt>, around: Around, depth: nat): multiset<Mutation> {
    if around.inLoop then multiset(CollectedList(ss, depth)) else multiset{}
  }

  /** The depth counts the switches between a statement and its innermost loop. */
  predicate Matches(around: Around, depth: nat) {
    around.breakLeavesLoop == (around.inLoop && depth == 0)
  }

  lemma {:induction false} WantedIsSplit(s: Stmt, around: Around, depth: nat)
    requires Matches(around, depth)
    ensures Wanted(s, around) == multiset(Emitted(s)) + OwedAbove(s, around, depth)
    decreases s, 0
  {
    if s.Branch? {
      BranchIsSplit(s, around, depth);
    } else if s.Loop? {
      WantedExprsAreEmitted(s.head);
      WantedListIsSplit(s.body, Around(true, true), 0);
      LoopIsSplit(s.head, s.body, around, depth);
    } else if s.Switch? {
      WantedExprsAreEmitted(s.head);
      WantedListIsSplit(s.clauses, around.(breakLeavesLoop := false), depth + 1);
      SwitchIsSplit(s.head, s.clauses, around, depth);
    } else {
      WantedExprsAreEmitted(s.exprs);
      WantedListIsSplit(s.stmts, around, depth);
      PlainIsSplit(s.exprs, s.stmts, around, depth);
    }
  }

  lemma BranchIsSplit(s: Stmt, around: Around, depth: nat)
    requires Matches(around, depth) && s.Branch?
    ensures Wanted(s, around) == multiset(Emitted(s)) + OwedAbove(s, around, depth)
  {
  }

  lemma LoopIsSplit(head: seq<Expr>, body: seq<Stmt>, around: Around, depth: nat)
    requires WantedExprs(head) == multiset(EmittedExprs(head))
    requires WantedList(body, Around(true, true)) == multiset(EmittedList(body)) + multiset(CollectedList(body, 0))
    ensures Wanted(Loop(head, body), around) ==
      multiset(Emitted(Loop(head, body))) + OwedAbove(Loop(head, body), around, depth)
  {
    var s := Loop(head, body);
    assert Emitted(s) == CollectedList(body, 0) + EmittedExprs(head) + EmittedList(body);
    assert OwedAbove(s, around, depth) == multiset{};
  }

  lemma SwitchIsSplit(head: seq<Expr>, clauses: seq<Stmt>, around: Around, depth: nat)
    requires WantedExprs(head) == multiset(EmittedExprs(head))
    requires WantedList(clauses, around.(breakLeavesLoop := false)) ==
      multiset(EmittedList(clauses)) + OwedAboveList(clauses, around.(breakLeavesLoop := false), depth + 1)
    ensures Wanted(Switch(head, clauses), around) ==
      multiset(Emitted(Switch(head, clauses))) + OwedAbove(Switch(head, clauses), around, depth)
  {
    var s := Switch(head, clauses);
    assert Emitted(s) == EmittedExprs(head) + EmittedList(clauses);
    assert OwedAbove(s, around, depth) == OwedAboveList(clauses, around.(breakLeavesLoop := false), depth + 1);
  }

  lemma PlainIsSplit(exprs: seq<Expr>, stmts: seq<Stmt>, around: Around, depth: nat)
    requires WantedExprs(exprs) == multiset(EmittedExprs(exprs))
    requires WantedList(stmts, around) == multiset(EmittedList(stmts)) + OwedAboveList(stmts, around, depth)
    ensures Wanted(Plain(exprs, stmts), around) ==
      multiset(Emitted(Plain(exprs, stmts))) + OwedAbove(Plain(exprs, stmts), around, depth)
  {
    var s := Plain(exprs, stmts);
    assert Emitted(s) == EmittedExprs(exprs) + EmittedList(stmts);
    assert OwedAbove(s, around, depth) == OwedAboveList(stmts, around, depth);
  }

  lemma {:induction false} WantedListIsSplit(ss: seq<Stmt>, around: Around, depth: nat)
    requires Matches(around, depth)
    ensures WantedList(ss, around) == multiset(EmittedList(ss)) + OwedAboveList(ss, around, depth)
    decreases ss, 1
  {
    if ss != [] {
      WantedIsSplit(ss[0], around, depth);
      WantedListIsSplit(ss[1..], around, depth);
    }
  }

  lemma {:induction false} WantedExprsAreEmitted(es: seq<Expr>)
    ensures WantedExprs(es) == multiset(EmittedExprs(es))
    decreases es, 1
  {
    if es != [] {
      match es[0] {
        case FuncLit(body) => WantedListIsSplit(body, IN_FUNCTION, 0);
        case Operands(operands) => WantedExprsAreEmitted(operands);
      }
      WantedExprsAreEmitted(es[1..]);
    }
  }

  /** Over a whole walk of a function body, the mutator finds each branch it is
      meant for as often as the branch occurs, and no other branch. */
  lemma EachBranchIsEmittedOnce(body: seq<Stmt>)
    ensures multiset(EmittedList(body)) == WantedList(body, IN_FUNCTION)
  {
    WantedListIsSplit(body, IN_FUNCTION, 0);
  }

  // ----- what the wanted branches refer to -----

  /** A statement that a branch can stand in, or the function literal around it. */
  datatype Frame = InLoop | InSwitch | InFunction

  /** An unlabelled branch occurs in s, inside these, from the outermost one in. */
  predicate Occurs(s: Stmt, frames: seq<Frame>, tok: Tok, pos: int)
    decreases s, 0
  {
    match s
    case Branch(t, labelled, p) => frames == [] && t == tok && p == pos && !labelled
    case Loop(head, body) =>
      || OccursInExprs(head, frames, tok, pos)
      || (frames != [] && frames[0].InLoop? && OccursInList(body, frames[1..], tok, pos))
    case Switch(head, clauses) =>
      || OccursInExprs(head, frames, tok, pos)
      || (frames != [] && frames[0].InSwitch? && OccursInList(clauses, frames[1..], tok, pos))
    case Plain(exprs, stmts) => OccursInExprs(exprs, frames, tok, pos) || OccursInList(stmts, frames, tok, pos)
  }

  predicate OccursInList(ss: seq<Stmt>, frames: seq<Frame>, tok: Tok, pos: int)
    decreases ss, 1
  {
    exists i :: 0 <= i < |ss| && Occurs(ss[i], frames, tok, pos)
  }

  predicate OccursInExpr(e: Expr, frames: seq<Frame>, tok: Tok, pos: int)
    decreases e, 0
  {
    match e
    case FuncLit(body) => frames != [] && frames[0].InFunction? && OccursInList(body, frames[1..], tok, pos)
    case Operands(es) => OccursInExprs(es, frames, tok, pos)
  }

  predicate OccursInExprs(es: seq<Expr>, frames: seq<Frame>, tok: Tok, pos: int)
    decreases es, 1
  {
    exists i :: 0 <= i < |es| && OccursInExpr(es[i], frames, tok, pos)
  }

  /** A continue there continues a loop: one is around it in its function. */
  predicate ContinuesLoop(frames: seq<Frame>) {
    frames != [] &&
    match frames[|frames| - 1]
    case InLoop => true
    case InSwitch => ContinuesLoop(frames[..|frames| - 1])
    case InFunction => false
  }

  /** A break there leaves a loop: nothing else that can be left is closer. */
  predicate BreaksLoop(frames: seq<Frame>) {
    frames != [] && frames[|frames| - 1].InLoop?
  }

  /** The mutation turns the branch, which refers to a loop, into the other one. */
  predicate Turns(m: Mutation, frames: seq<Frame>, tok: Tok, pos: int) {
    || (tok == Continue && ContinuesLoop(frames) && m == Mutation(pos, Continue, Break))
    || (tok == Break && BreaksLoop(frames) && m == Mutation(pos, Break, Continue))
  }

  function StepIn(around: Around, frame: Frame): Around {
    match frame
    case InLoop => Around(true, true)
    case InSwitch => around.(breakLeavesLoop := false)
    case InFunction => IN_FUNCTION
  }

  function StepsIn(around: Around, frames: seq<Frame>): Around
    decreases frames
  {
    if frames == [] then around else StepsIn(StepIn(around, frames[0]), frames[1..])
  }

  lemma {:induction false} StepsInSnoc(around: Around, frames: seq<Frame>)
    requires frames != []
    ensures StepsIn(around, frames) == StepIn(StepsIn(around, frames[..|frames| - 1]), frames[|frames| - 1])
    decreases frames
  {
    if |frames| > 1 {
      StepsInSnoc(StepIn(around, frames[0]), frames[1..]);
      assert frames[1..][..|frames| - 2] == frames[..|frames| - 1][1..];
    }
  }

  /** From the function's body in, `Around` says what branches refer to. */
  lemma {:induction false} AroundIsReference(frames: seq<Frame>)
    ensures StepsIn(IN_FUNCTION, frames) == Around(ContinuesLoop(frames), BreaksLoop(frames))
  {
    if frames != [] {
      StepsInSnoc(IN_FUNCTION, frames);
      AroundIsReference(frames[..|frames| - 1]);
    }
  }

  predicate Wants(around: Around, m: Mutation, tok: Tok, pos: int) {
    || (tok == Continue && around.inLoop && m == Mutation(pos, Continue, Break))
    || (tok == Break && around.breakLeavesLoop && m == Mutation(pos, Break, Continue))
  }

  /** A wanted mutation comes from an occurrence. */
  lemma {:induction false} WantedOccurs(s: Stmt, around: Around, m: Mutation) returns (frames: seq<Frame>)
    requires m in Wanted(s, around)
    ensures Occurs(s, frames, m.original, m.pos) && Wants(StepsIn(around, frames), m, m.original, m.pos)
    decreases s, 0
  {
    match s
    case Branch(_, _, _) =>
      frames := [];
    case Loop(head, body) =>
      if m in WantedExprs(head) {
        frames := WantedInExprsOccurs(head, around, m);
      } else {
        var inner := WantedInListOccurs(body, Around(true, true), m);
        frames := [InLoop] + inner;
        assert frames[1..] == inner;
      }
    case Switch(head, clauses) =>
      if m in WantedExprs(head) {
        frames := WantedInExprsOccurs(head, around, m);
      } else {
        var inner := WantedInListOccurs(clauses, around.(breakLeavesLoop := false), m);
        frames := [InSwitch] + inner;
        assert frames[1..] == inner;
      }
    case Plain(exprs, stmts) =>
      if m in WantedExprs(exprs) {
        frames := WantedInExprsOccurs(exprs, around, m);
      } else {
        frames := WantedInListOccurs(stmts, around, m);
      }
  }

  lemma {:induction false} WantedInListOccurs(ss: seq<Stmt>, around: Around, m: Mutation) returns (frames: seq<Frame>)
    requires m in WantedList(ss, around)
    ensures OccursInList(ss, frames, m.original, m.pos) && Wants(StepsIn(around, frames), m, m.original, m.pos)
    decreases ss, 1
  {
    if m in Wanted(ss[0], around) {
      frames := WantedOccurs(ss[0], around, m);
    } else {
      frames := WantedInListOccurs(ss[1..], around, m);
      var i :| 0 <= i < |ss[1..]| && Occurs(ss[1..][i], frames, m.original, m.pos);
      assert Occurs(ss[i + 1], frames, m.original, m.pos);
    }
  }

  /** In expressions, what is around does not matter: a literal is a function. */
  lemma {:induction false} WantedInExprsOccurs(es: seq<Expr>, around: Around, m: Mutation) returns (frames: seq<Frame>)
    requires m in WantedExprs(es)
    ensures OccursInExprs(es, frames, m.original, m.pos) && Wants(StepsIn(around, frames), m, m.original, m.pos)
    decreases es, 1
  {
    if m in WantedExpr(es[0]) {
      match es[0] {
        case FuncLit(body) =>
          var inner := WantedInListOccurs(body, IN_FUNCTION, m);
          frames := [InFunction] + inner;
          assert frames[1..] == inner;
        case Operands(operands) =>
          frames := WantedInExprsOccurs(operands, around, m);
      }
      assert OccursInExpr(es[0], frames, m.original, m.pos);
    } else {
      frames := WantedInExprsOccurs(es[1..], around, m);
      var i :| 0 <= i < |es[1..]| && OccursInExpr(es[1..][i], frames, m.original, m.pos);
      assert OccursInExpr(es[i + 1], frames, m.original, m.pos);
    }
  }

  lemma {:induction false} OccurrenceIsWanted(s: Stmt, around: Around, frames: seq<Frame>, m: Mutation, tok: Tok,
                                              pos: int)
    requires Occurs(s, frames, tok, pos) && Wants(StepsIn(around, frames), m, tok, pos)
    ensures m in Wanted(s, around)
    decreases s, 0
  {
    match s
    case Branch(_, _, _) =>
    case Loop(head, body) =>
      if OccursInExprs(head, frames, tok, pos) {
        OccurrenceInExprsIsWanted(head, around, frames, m, tok, pos);
      } else {
        OccurrenceInListIsWanted(body, Around(true, true), frames[1..], m, tok, pos);
      }
    case Switch(head, clauses) =>
      if OccursInExprs(head, frames, tok, pos) {
        OccurrenceInExprsIsWanted(head, around, frames, m, tok, pos);
      } else {
        OccurrenceInListIsWanted(clauses, around.(breakLeavesLoop := false), frames[1..], m, tok, pos);
      }
    case Plain(exprs, stmts) =>
      if OccursInExprs(exprs, frames, tok, pos) {
        OccurrenceInExprsIsWanted(exprs, around, frames, m, tok, pos);
      } else {
        OccurrenceInListIsWanted(stmts, around, frames, m, tok, pos);
      }
  }

  lemma {:induction false} OccurrenceInListIsWanted(ss: seq<Stmt>, around: Around, frames: seq<Frame>, m: Mutation,
                                                    tok: Tok, pos: int)
    requires OccursInList(ss, frames, tok, pos) && Wants(StepsIn(around, frames), m, tok, pos)
    ensures m in WantedList(ss, around)
    decreases ss, 1
  {
    var i :| 0 <= i < |ss| && Occurs(ss[i], frames, tok, pos);
    if i == 0 {
      OccurrenceIsWanted(ss[0], around, frames, m, tok, pos);
    } else {
      assert Occurs(ss[1..][i - 1], frames, tok, pos);
      OccurrenceInListIsWanted(ss[1..], around, frames, m, tok, pos);
    }
  }

  lemma {:induction false} OccurrenceInExprsIsWanted(es: seq<Expr>, around: Around, frames: seq<Frame>, m: Mutation,
                                                     tok: Tok, pos: int)
    requires OccursInExprs(es, frames, tok, pos) && Wants(StepsIn(around, frames), m, tok, pos)
    ensures m in WantedExprs(es)
    decreases es, 1
  {
    var i :| 0 <= i < |es| && OccursInExpr(es[i], frames, tok, pos);
    if i > 0 {
      assert OccursInExpr(es[1..][i - 1], frames, tok, pos);
      OccurrenceInExprsIsWanted(es[1..], around, frames, m, tok, pos);
    } else {
      match es[0]
      case FuncLit(body) => OccurrenceInListIsWanted(body, IN_FUNCTION, frames[1..], m, tok, pos);
      case Operands(operands) => OccurrenceInExprsIsWanted(operands, around, frames, m, tok, pos);
    }
  }

  /** Over a function body the mutator turns exactly the unlabelled continues that
      continue a loop and the unlabelled breaks that leave one, and no others. */
  lemma EmittedAreLoopBranches(body: seq<Stmt>, m: Mutation)
    ensures m in EmittedList(body) <==>
      exists frames :: OccursInList(body, frames, m.original, m.pos) && Turns(m, frames, m.original, m.pos)
  {
    EachBranchIsEmittedOnce(body);
    assert m in EmittedList(body) <==> m in multiset(EmittedList(body));
    if m in WantedList(body, IN_FUNCTION) {
      var frames := WantedInListOccurs(body, IN_FUNCTION, m);
      AroundIsReference(frames);
      assert Turns(m, frames, m.original, m.pos);
    }
    forall frames | OccursInList(body, frames, m.original, m.pos) && Turns(m, frames, m.original, m.pos)
      ensures m in WantedList(body, IN_FUNCTION)
    {
      AroundIsReference(frames);
      OccurrenceInListIsWanted(body, IN_FUNCTION, frames, m, m.original, m.pos);
    }
  }

  // ----- positions -----

  /** Where the branches of the file stand, those of function literals included. */
  function Positions(s: Stmt): multiset<int>
    decreases s, 0
  {
    match s
    case Branch(_, _, pos) => multiset{pos}
    case Loop(head, body) => PositionsExprs(head) + PositionsList(body)
    case Switch(head, clauses) => PositionsExprs(head) + PositionsList(clauses)
    case Plain(exprs, stmts) => PositionsExprs(exprs) + PositionsList(stmts)
  }

  function PositionsList(ss: seq<Stmt>): multiset<int>
    decreases ss, 1
  {
    if ss == [] then multiset{} else Positions(ss[0]) + PositionsList(ss[1..])
  }

  function PositionsExprs(es: seq<Expr>): multiset<int>
    decreases es, 1
  {
    if es == [] then multiset{}
    else
      var first := match es[0] case FuncLit(body) => PositionsList(body) case Operands(os) => PositionsExprs(os);
      first + PositionsExprs(es[1..])
  }

  lemma {:induction false} WantedIsBounded(s: Stmt, around: Around, m: Mutation)
    ensures Wanted(s, around)[m] <= Positions(s)[m.pos]
    decreases s, 0
  {
    match s
    case Branch(_, _, _) =>
    case Loop(head, body) =>
      WantedExprsAreBounded(head, m);
      WantedListIsBounded(body, Around(true, true), m);
    case Switch(head, clauses) =>
      WantedExprsAreBounded(head, m);
      WantedListIsBounded(clauses, around.(breakLeavesLoop := false), m);
    case Plain(exprs, stmts) =>
      WantedExprsAreBounded(exprs, m);
      WantedListIsBounded(stmts, around, m);
  }

  lemma {:induction false} WantedListIsBounded(ss: seq<Stmt>, around: Around, m: Mutation)
    ensures WantedList(ss, around)[m] <= PositionsList(ss)[m.pos]
    decreases ss, 1
  {
    if ss != [] {
      WantedIsBounded(ss[0], around, m);
      WantedListIsBounded(ss[1..], around, m);
    }
  }

  lemma {:induction false} WantedExprsAreBounded(es: seq<Expr>, m: Mutation)
    ensures WantedExprs(es)[m] <= PositionsExprs(es)[m.pos]
    decreases es, 1
  {
    if es != [] {
      match es[0] {
        case FuncLit(body) => WantedListIsBounded(body, IN_FUNCTION, m);
        case Operands(operands) => WantedExprsAreBounded(operands, m);
      }
      WantedExprsAreBounded(es[1..], m);
    }
  }

  /** In a body whose branches stand at different places, as in any file, no
      mutation is found from two loops. */
  lemma NoBranchIsEmittedTwice(body: seq<Stmt>, m: Mutation)
    requires PositionsList(body)[m.pos] <= 1
    ensures multiset(EmittedList(body))[m] == if m in WantedList(body, IN_FUNCTION) then 1 else 0
  {
    EachBranchIsEmittedOnce(body);
    WantedListIsBounded(body, IN_FUNCTION, m);
  }
}
