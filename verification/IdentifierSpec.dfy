/**
 What one collection pass records for a tree, and why a range of positions is
 enough to tell which of it belongs to a run of sibling statements.
*/
module IdentifierSpec {
  import opened Sequences
  import opened Wrappers
  import opened GoNodes

  /** The identifiers of a tree in the order of ast.Inspect. */
  function Leaves(n: Node): seq<Node> {
    match n
    case Ident(_, _) => [n]
    case Selector(x, _, _) => Leaves(x) + [n.Sel()]
    case Other(_, _, kids) => LeavesList(kids)
  }

  function LeavesList(ns: seq<Node>): seq<Node> {
    if ns == [] then [] else Leaves(ns[0]) + LeavesList(ns[1..])
  }

  function RecordedIdent(info: Info, n: Node): seq<Node>
    requires n.Ident?
  {
    if VariableUse(info, n).Some? then [n] else []
  }

  /** The nodes a collection pass turns into identifier events. */
  function Recorded(info: Info, n: Node): seq<Node> {
    match n
    case Ident(_, _) => RecordedIdent(info, n)
    case Selector(x, _, _) => if IsWhole(info, n) then [n] else Recorded(info, x) + RecordedIdent(info, n.Sel())
    case Other(_, _, kids) => RecordedList(info, kids)
  }

  function RecordedList(info: Info, ns: seq<Node>): seq<Node> {
    if ns == [] then [] else Recorded(info, ns[0]) + RecordedList(info, ns[1..])
  }

  function DefinedIdent(info: Info, n: Node): set<Node>
    requires n.Ident?
  {
    if VariableDef(info, n).Some? then {n} else {}
  }

  /** The identifiers it turns into definition events. */
  function Defined(info: Info, n: Node): set<Node> {
    match n
    case Ident(_, _) => DefinedIdent(info, n)
    case Selector(x, _, _) => if IsWhole(info, n) then {} else Defined(info, x) + DefinedIdent(info, n.Sel())
    case Other(_, _, kids) => DefinedList(info, kids)
  }

  function DefinedList(info: Info, ns: seq<Node>): set<Node> {
    if ns == [] then {} else Defined(info, ns[0]) + DefinedList(info, ns[1..])
  }

  /** What the type checker guarantees: no identifier declares an object and uses
      a variable, and no identifier of a whole selector declares one. */
  predicate Typed(info: Info, n: Node) {
    match n
    case Ident(_, _) => TypedIdent(info, n)
    case Selector(x, _, _) =>
      if IsWhole(info, n) then forall m :: m in Leaves(n) ==> m.Ident? && VariableDef(info, m).None?
      else Typed(info, x) && TypedIdent(info, n.Sel())
    case Other(_, _, kids) => forall i :: 0 <= i < |kids| ==> Typed(info, kids[i])
  }

  predicate TypedIdent(info: Info, n: Node)
    requires n.Ident?
  {
    n in info.defs ==> VariableUse(info, n).None?
  }

  predicate TypedList(info: Info, ns: seq<Node>) {
    forall i :: 0 <= i < |ns| ==> Typed(info, ns[i])
  }

  // ----- the reference walk filters what is recorded -----

  function ObjectOf(info: Info, n: Node): Option<Object> {
    if n.Ident? then VariableUse(info, n)
    else if n.Root().Some? && n.Root().value in info.uses then Some(info.uses[n.Root().value])
    else None
  }

  /** The copies of the recorded nodes whose object is not excluded. */
  function Answer(info: Info, excluded: set<Object>, ns: seq<Node>): seq<Expr> {
    if ns == [] then [] else AnswerOne(info, excluded, ns[0]) + Answer(info, excluded, ns[1..])
  }

  function AnswerOne(info: Info, excluded: set<Object>, n: Node): seq<Expr> {
    var obj := ObjectOf(info, n);
    if obj.Some? && obj.value in excluded then []
    else if n.Ident? then [Name(n.name)]
    else if IsWhole(info, n) then [CloneSelector(info, n)]
    else []
  }

  lemma {:induction false} AnswerAppend(info: Info, excluded: set<Object>, a: seq<Node>, b: seq<Node>)
    ensures Answer(info, excluded, a + b) == Answer(info, excluded, a) + Answer(info, excluded, b)
  {
    if a == [] {
      NoAppend(b);
    } else {
      AnswerAppend(info, excluded, a[1..], b);
      AppendStep(a, b);
      Assoc(AnswerOne(info, excluded, a[0]), Answer(info, excluded, a[1..]), Answer(info, excluded, b));
    }
  }

  lemma {:induction false} WalkIsAnswer(info: Info, excluded: set<Object>, n: Node)
    requires Typed(info, n)
    ensures Walk(info, excluded, n) == Answer(info, excluded, Recorded(info, n))
    decreases n, 0
  {
    match n
    case Ident(_, _) =>
    case Selector(x, _, _) =>
      if !IsWhole(info, n) {
        WalkIsAnswer(info, excluded, x);
        AnswerAppend(info, excluded, Recorded(info, x), RecordedIdent(info, n.Sel()));
      }
    case Other(_, _, kids) => WalkListIsAnswer(info, excluded, kids);
  }

  lemma {:induction false} WalkListIsAnswer(info: Info, excluded: set<Object>, ns: seq<Node>)
    requires TypedList(info, ns)
    ensures WalkList(info, excluded, ns) == Answer(info, excluded, RecordedList(info, ns))
    decreases ns, 1
  {
    if ns != [] {
      WalkIsAnswer(info, excluded, ns[0]);
      WalkListIsAnswer(info, excluded, ns[1..]);
      AnswerAppend(info, excluded, Recorded(info, ns[0]), RecordedList(info, ns[1..]));
    }
  }

  function Objects(info: Info, ns: set<Node>): set<Object> {
    set n | n in ns && n.Ident? && VariableDef(info, n).Some? :: VariableDef(info, n).value
  }

  lemma {:induction false} DefinitionsAreDefined(info: Info, n: Node)
    requires Typed(info, n)
    ensures VariableDefinitions(info, n) == Objects(info, Defined(info, n))
    decreases n, 0
  {
    match n
    case Ident(_, _) =>
    case Selector(x, _, _) =>
      if IsWhole(info, n) {
        assert forall m :: m in Leaves(x) ==> m in Leaves(n);
        assert n.Sel() in Leaves(n);
        NoLeafNoDefinition(info, x);
      } else {
        DefinitionsAreDefined(info, x);
      }
    case Other(_, _, kids) => DefinitionsAreDefinedList(info, kids);
  }

  lemma {:induction false} NoLeafNoDefinition(info: Info, n: Node)
    requires n.IsChain() && forall m :: m in Leaves(n) ==> m.Ident? && VariableDef(info, m).None?
    ensures VariableDefinitions(info, n) == {}
  {
    if n.Selector? {
      assert forall m :: m in Leaves(n.x) ==> m in Leaves(n);
      assert n.Sel() in Leaves(n);
      NoLeafNoDefinition(info, n.x);
    } else {
      assert n in Leaves(n);
    }
  }

  lemma {:induction false} DefinitionsAreDefinedList(info: Info, ns: seq<Node>)
    requires TypedList(info, ns)
    ensures VariableDefinitionsList(info, ns) == Objects(info, DefinedList(info, ns))
    decreases ns, 1
  {
    if ns != [] {
      DefinitionsAreDefined(info, ns[0]);
      DefinitionsAreDefinedList(info, ns[1..]);
    }
  }

  // ----- positions -----

  ghost predicate Increasing(ns: seq<Node>) {
    forall i, j :: 0 <= i < j < |ns| ==> ns[i].Pos() < ns[j].Pos()
  }

  predicate StartsAtOne(leaves: seq<Node>, r: Node) {
    exists i :: 0 <= i < |leaves| && leaves[i].Pos() == r.Pos()
  }

  lemma StartsInParts(a: seq<Node>, b: seq<Node>, r: Node)
    ensures StartsAtOne(a, r) || StartsAtOne(b, r) ==> StartsAtOne(a + b, r)
  {
    if i :| 0 <= i < |a| && a[i].Pos() == r.Pos() {
      assert (a + b)[i] == a[i];
    }
    if i :| 0 <= i < |b| && b[i].Pos() == r.Pos() {
      assert (a + b)[|a| + i] == b[i];
    }
  }

  /** Every recorded or defining node starts where one of the leaves does. */
  lemma {:induction false} RecordedStartsAtLeaf(info: Info, n: Node, r: Node)
    requires r in Recorded(info, n) || r in Defined(info, n)
    ensures StartsAtOne(Leaves(n), r)
    decreases n, 0
  {
    match n
    case Ident(_, _) => assert Leaves(n)[0] == n;
    case Selector(x, _, _) =>
      if IsWhole(info, n) {
        ChainStartsAtLeaf(n);
      } else {
        StartsInParts(Leaves(x), [n.Sel()], r);
        if r in Recorded(info, x) || r in Defined(info, x) {
          RecordedStartsAtLeaf(info, x, r);
        } else {
          assert [n.Sel()][0].Pos() == r.Pos();
        }
      }
    case Other(_, _, kids) => RecordedListStartsAtLeaf(info, kids, r);
  }

  lemma {:induction false} ChainStartsAtLeaf(n: Node)
    requires n.IsChain()
    ensures |Leaves(n)| > 0 && Leaves(n)[0].Pos() == n.Pos()
  {
    if n.Selector? {
      ChainStartsAtLeaf(n.x);
    }
  }

  lemma {:induction false} RecordedListStartsAtLeaf(info: Info, ns: seq<Node>, r: Node)
    requires r in RecordedList(info, ns) || r in DefinedList(info, ns)
    ensures StartsAtOne(LeavesList(ns), r)
    decreases ns, 1
  {
    StartsInParts(Leaves(ns[0]), LeavesList(ns[1..]), r);
    if r in Recorded(info, ns[0]) || r in Defined(info, ns[0]) {
      RecordedStartsAtLeaf(info, ns[0], r);
    } else {
      RecordedListStartsAtLeaf(info, ns[1..], r);
    }
  }

  lemma {:induction false} RecordedIncreases(info: Info, n: Node)
    requires Increasing(Leaves(n))
    ensures Increasing(Recorded(info, n))
    decreases n, 0
  {
    match n
    case Ident(_, _) =>
    case Selector(x, _, _) =>
      if !IsWhole(info, n) {
        IncreasingParts(Leaves(x), [n.Sel()]);
        RecordedIncreases(info, x);
        forall r | r in Recorded(info, x) ensures r.Pos() < n.selAt {
          RecordedStartsAtLeaf(info, x, r);
          assert n.Sel() in [n.Sel()];
        }
      }
    case Other(_, _, kids) => RecordedListIncreases(info, kids);
  }

  lemma IncreasingParts(a: seq<Node>, b: seq<Node>)
    requires Increasing(a + b)
    ensures Increasing(a) && Increasing(b)
    ensures forall m, k :: m in a && k in b ==> m.Pos() < k.Pos()
  {
    forall i, j | 0 <= i < j < |a| ensures a[i].Pos() < a[j].Pos() {
      assert (a + b)[i] == a[i] && (a + b)[j] == a[j];
    }
    forall i, j | 0 <= i < j < |b| ensures b[i].Pos() < b[j].Pos() {
      assert (a + b)[|a| + i] == b[i] && (a + b)[|a| + j] == b[j];
    }
    forall m, k | m in a && k in b ensures m.Pos() < k.Pos() {
      var i :| 0 <= i < |a| && a[i] == m;
      var j :| 0 <= j < |b| && b[j] == k;
      assert (a + b)[i] == m && (a + b)[|a| + j] == k;
    }
  }

  lemma {:induction false} RecordedListIncreases(info: Info, ns: seq<Node>)
    requires Increasing(LeavesList(ns))
    ensures Increasing(RecordedList(info, ns))
    decreases ns, 1
  {
    if ns != [] {
      IncreasingParts(Leaves(ns[0]), LeavesList(ns[1..]));
      RecordedIncreases(info, ns[0]);
      RecordedListIncreases(info, ns[1..]);
      forall r, k | r in Recorded(info, ns[0]) && k in RecordedList(info, ns[1..]) ensures r.Pos() < k.Pos() {
        RecordedStartsAtLeaf(info, ns[0], r);
        RecordedListStartsAtLeaf(info, ns[1..], k);
      }
    }
  }

  /** Two listings of the same nodes in position order are the same listing. */
  lemma IncreasingIsUnique(a: seq<Node>, b: seq<Node>)
    requires Increasing(a) && Increasing(b)
    requires forall i :: 0 <= i < |a| ==> a[i] in b
    requires forall i :: 0 <= i < |b| ==> b[i] in a
    ensures a == b
  {
    AscendingIsUnique((n: Node) => n.Pos(), a, b);
  }

  // ----- a run of sibling statements inside a tree -----

  /** A tree with a run of siblings missing: what surrounds the run. */
  datatype Surrounds =
    | Among(from: int, to: int, left: seq<Node>, right: seq<Node>)
    | Within(from: int, to: int, left: seq<Node>, inner: Surrounds, right: seq<Node>)
    | InOperand(inner: Surrounds, selAt: int, sel: string)

  function Plug(c: Surrounds, run: seq<Node>): Node {
    match c
    case Among(from, to, left, right) => Other(from, to, left + run + right)
    case Within(from, to, left, inner, right) => Other(from, to, left + [Plug(inner, run)] + right)
    case InOperand(inner, selAt, sel) => Selector(Plug(inner, run), selAt, sel)
  }

  /** The subtrees visited before the run, and after it. */
  function Before(c: Surrounds): seq<Node> {
    match c
    case Among(_, _, left, _) => left
    case Within(_, _, left, inner, _) => left + Before(inner)
    case InOperand(inner, _, _) => Before(inner)
  }

  function After(c: Surrounds): seq<Node> {
    match c
    case Among(_, _, _, right) => right
    case Within(_, _, _, inner, right) => After(inner) + right
    case InOperand(inner, selAt, sel) => After(inner) + [Ident(selAt, sel)]
  }

  lemma {:induction false} ListAppend(info: Info, a: seq<Node>, b: seq<Node>)
    ensures LeavesList(a + b) == LeavesList(a) + LeavesList(b)
    ensures RecordedList(info, a + b) == RecordedList(info, a) + RecordedList(info, b)
    ensures DefinedList(info, a + b) == DefinedList(info, a) + DefinedList(info, b)
  {
    if a == [] {
      NoAppend(b);
      NoAppend(LeavesList(b));
      NoAppend(RecordedList(info, b));
    } else {
      ListAppend(info, a[1..], b);
      AppendStep(a, b);
      Assoc(Leaves(a[0]), LeavesList(a[1..]), LeavesList(b));
      Assoc(Recorded(info, a[0]), RecordedList(info, a[1..]), RecordedList(info, b));
    }
  }

  lemma OneNode(info: Info, p: Node)
    ensures LeavesList([p]) == Leaves(p) && RecordedList(info, [p]) == Recorded(info, p)
    ensures DefinedList(info, [p]) == Defined(info, p)
  {
    NoAppend(Leaves(p));
    NoAppend(Recorded(info, p));
  }

  lemma ThreeLists(info: Info, a: seq<Node>, b: seq<Node>, c: seq<Node>)
    ensures LeavesList(a + b + c) == LeavesList(a) + LeavesList(b) + LeavesList(c)
    ensures RecordedList(info, a + b + c) == RecordedList(info, a) + RecordedList(info, b) + RecordedList(info, c)
    ensures DefinedList(info, a + b + c) == DefinedList(info, a) + DefinedList(info, b) + DefinedList(info, c)
  {
    ListAppend(info, a + b, c);
    ListAppend(info, a, b);
  }

  lemma PlugIsNoChain(c: Surrounds, run: seq<Node>)
    ensures !Plug(c, run).IsChain()
  {
  }

  lemma Regroup(l: seq<Node>, b: seq<Node>, r: seq<Node>, a: seq<Node>, t: seq<Node>)
    ensures l + (b + r + a) + t == (l + b) + r + (a + t)
  {
  }

  lemma {:induction false} PlugLeaves(info: Info, c: Surrounds, run: seq<Node>)
    ensures Leaves(Plug(c, run)) == LeavesList(Before(c)) + LeavesList(run) + LeavesList(After(c))
  {
    if c.Among? {
      ThreeLists(info, c.left, run, c.right);
    } else if c.Within? {
      PlugLeaves(info, c.inner, run);
      LeavesWithin(info, c.left, Plug(c.inner, run), c.right, Before(c.inner), run, After(c.inner));
    } else {
      PlugLeaves(info, c.inner, run);
      LeavesInOperand(info, Before(c.inner), run, After(c.inner), Ident(c.selAt, c.sel));
    }
  }

  lemma LeavesWithin(info: Info, left: seq<Node>, p: Node, right: seq<Node>,
                     before: seq<Node>, run: seq<Node>, after: seq<Node>)
    requires Leaves(p) == LeavesList(before) + LeavesList(run) + LeavesList(after)
    ensures LeavesList(left + [p] + right) == LeavesList(left + before) + LeavesList(run) + LeavesList(after + right)
  {
    ThreeLists(info, left, [p], right);
    OneNode(info, p);
    ListAppend(info, left, before);
    ListAppend(info, after, right);
    Regroup(LeavesList(left), LeavesList(before), LeavesList(run), LeavesList(after), LeavesList(right));
  }

  lemma LeavesInOperand(info: Info, before: seq<Node>, run: seq<Node>, after: seq<Node>, sel: Node)
    requires sel.Ident?
    ensures LeavesList(before) + LeavesList(run) + LeavesList(after) + [sel] ==
            LeavesList(before) + LeavesList(run) + LeavesList(after + [sel])
  {
    ListAppend(info, after, [sel]);
    OneNode(info, sel);
    Assoc(LeavesList(before) + LeavesList(run), LeavesList(after), [sel]);
  }

  lemma {:induction false} PlugRecorded(info: Info, c: Surrounds, run: seq<Node>)
    ensures Recorded(info, Plug(c, run)) ==
            RecordedList(info, Before(c)) + RecordedList(info, run) + RecordedList(info, After(c))
  {
    if c.Among? {
      ThreeLists(info, c.left, run, c.right);
    } else if c.Within? {
      PlugRecorded(info, c.inner, run);
      RecordedWithin(info, c.left, Plug(c.inner, run), c.right, Before(c.inner), run, After(c.inner));
    } else {
      PlugRecorded(info, c.inner, run);
      PlugIsNoChain(c.inner, run);
      RecordedInOperand(info, Before(c.inner), run, After(c.inner), Ident(c.selAt, c.sel));
    }
  }

  lemma RecordedWithin(info: Info, left: seq<Node>, p: Node, right: seq<Node>,
                       before: seq<Node>, run: seq<Node>, after: seq<Node>)
    requires Recorded(info, p) == RecordedList(info, before) + RecordedList(info, run) + RecordedList(info, after)
    ensures RecordedList(info, left + [p] + right) ==
            RecordedList(info, left + before) + RecordedList(info, run) + RecordedList(info, after + right)
  {
    ThreeLists(info, left, [p], right);
    OneNode(info, p);
    ListAppend(info, left, before);
    ListAppend(info, after, right);
    Regroup(RecordedList(info, left), RecordedList(info, before), RecordedList(info, run),
            RecordedList(info, after), RecordedList(info, right));
  }

  lemma RecordedInOperand(info: Info, before: seq<Node>, run: seq<Node>, after: seq<Node>, sel: Node)
    requires sel.Ident?
    ensures
      RecordedList(info, before) + RecordedList(info, run) + RecordedList(info, after) + RecordedIdent(info, sel) ==
      RecordedList(info, before) + RecordedList(info, run) + RecordedList(info, after + [sel])
  {
    ListAppend(info, after, [sel]);
    OneNode(info, sel);
    Assoc(RecordedList(info, before) + RecordedList(info, run), RecordedList(info, after), RecordedIdent(info, sel));
  }

  lemma {:induction false} PlugDefined(info: Info, c: Surrounds, run: seq<Node>)
    ensures Defined(info, Plug(c, run)) ==
            DefinedList(info, Before(c)) + DefinedList(info, run) + DefinedList(info, After(c))
  {
    if c.Among? {
      ThreeLists(info, c.left, run, c.right);
    } else if c.Within? {
      PlugDefined(info, c.inner, run);
      DefinedWithin(info, c.left, Plug(c.inner, run), c.right, Before(c.inner), run, After(c.inner));
    } else {
      PlugDefined(info, c.inner, run);
      PlugIsNoChain(c.inner, run);
      ListAppend(info, After(c.inner), [Ident(c.selAt, c.sel)]);
      OneNode(info, Ident(c.selAt, c.sel));
    }
  }

  lemma DefinedWithin(info: Info, left: seq<Node>, p: Node, right: seq<Node>,
                      before: seq<Node>, run: seq<Node>, after: seq<Node>)
    requires Defined(info, p) == DefinedList(info, before) + DefinedList(info, run) + DefinedList(info, after)
    ensures DefinedList(info, left + [p] + right) ==
            DefinedList(info, left + before) + DefinedList(info, run) + DefinedList(info, after + right)
  {
    ThreeLists(info, left, [p], right);
    OneNode(info, p);
    ListAppend(info, left, before);
    ListAppend(info, after, right);
  }

  lemma {:induction false} PlugTyped(info: Info, c: Surrounds, run: seq<Node>)
    requires Typed(info, Plug(c, run))
    ensures TypedList(info, run)
  {
    match c
    case Among(_, _, left, right) =>
      forall i | 0 <= i < |run| ensures Typed(info, run[i]) {
        assert (left + run + right)[|left| + i] == run[i];
      }
    case Within(_, _, left, inner, right) =>
      assert (left + [Plug(inner, run)] + right)[|left|] == Plug(inner, run);
      PlugTyped(info, inner, run);
    case InOperand(inner, _, _) =>
      PlugIsNoChain(inner, run);
      PlugTyped(info, inner, run);
  }

  /** A query: a run of sibling statements and where it stands. */
  datatype Query = Query(place: Surrounds, stmts: seq<Node>)
  {
    function Start(): int
      requires stmts != []
    {
      stmts[0].Pos()
    }

    function Stop(): int
      requires stmts != []
    {
      stmts[|stmts| - 1].End()
    }

    predicate InRange(p: int)
      requires stmts != []
    {
      Start() <= p <= Stop()
    }
  }

  /** A type-checked tree whose identifiers come in position order. */
  ghost predicate WellFormed(info: Info, root: Node) {
    Typed(info, root) && Increasing(Leaves(root))
  }

  /** q's statements are siblings of the tree; they span their own identifiers
      and no others, so none starts where the last statement ends. */
  ghost predicate Asks(root: Node, q: Query) {
    && q.stmts != []
    && root == Plug(q.place, q.stmts)
    && (forall m :: m in LeavesList(Before(q.place)) ==> m.Pos() < q.Start())
    && (forall m :: m in LeavesList(q.stmts) ==> q.InRange(m.Pos()))
    && (forall m :: m in LeavesList(After(q.place)) ==> q.Stop() < m.Pos())
  }

  /** The recorded and the defining nodes of the tree that start in the range of
      a query are exactly those of the query's statements. */
  lemma RangeIsRun(info: Info, root: Node, q: Query, n: Node)
    requires Asks(root, q)
    ensures n in RecordedList(info, q.stmts) <==> n in Recorded(info, root) && q.InRange(n.Pos())
    ensures n in DefinedList(info, q.stmts) <==> n in Defined(info, root) && q.InRange(n.Pos())
  {
    PlugLeaves(info, q.place, q.stmts);
    PlugRecorded(info, q.place, q.stmts);
    PlugDefined(info, q.place, q.stmts);
    PlacedBefore(info, root, q, n);
    PlacedInside(info, root, q, n);
    PlacedAfter(info, root, q, n);
  }

  lemma PlacedBefore(info: Info, root: Node, q: Query, n: Node)
    requires Asks(root, q)
    ensures n in RecordedList(info, Before(q.place)) || n in DefinedList(info, Before(q.place)) ==> n.Pos() < q.Start()
  {
    if n in RecordedList(info, Before(q.place)) || n in DefinedList(info, Before(q.place)) {
      RecordedListStartsAtLeaf(info, Before(q.place), n);
    }
  }

  lemma PlacedInside(info: Info, root: Node, q: Query, n: Node)
    requires Asks(root, q)
    ensures n in RecordedList(info, q.stmts) || n in DefinedList(info, q.stmts) ==> q.InRange(n.Pos())
  {
    if n in RecordedList(info, q.stmts) || n in DefinedList(info, q.stmts) {
      RecordedListStartsAtLeaf(info, q.stmts, n);
    }
  }

  lemma PlacedAfter(info: Info, root: Node, q: Query, n: Node)
    requires Asks(root, q)
    ensures n in RecordedList(info, After(q.place)) || n in DefinedList(info, After(q.place)) ==> q.Stop() < n.Pos()
  {
    if n in RecordedList(info, After(q.place)) || n in DefinedList(info, After(q.place)) {
      RecordedListStartsAtLeaf(info, After(q.place), n);
    }
  }
}
