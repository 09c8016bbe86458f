/**
 What an identifier query answers, said of the syntax tree alone: which
 identifiers and selectors of the statements are listed, and how each is spelled.
*/
module IdentifierAnswers {
  import opened Sequences
  import opened Wrappers
  import opened GoNodes
  import opened IdentifierSpec

  // ----- how an answer is spelled -----

  /** The names in an expression, from left to right. */
  function NamesIn(e: Expr): seq<string> {
    match e
    case Name(name) => [name]
    case Selection(x, sel) => NamesIn(x) + [sel]
    case Composite(typ) => NamesIn(typ)
  }

  /** Names joined by dots, without braces. */
  predicate IsDotted(e: Expr) {
    e.Name? || (e.Selection? && IsDotted(e.x))
  }

  function NameOf(n: Node): string {
    match n
    case Ident(_, name) => name
    case Selector(_, _, sel) => sel
    case Other(_, _, _) => ""
  }

  function NamesOf(n: Node): seq<string> {
    Mapped((m: Node) => NameOf(m), Leaves(n))
  }

  /** The name stands for a type, not generic, that a composite literal can have:
      an array, a map, a slice or a struct. */
  predicate IsLiteralType(info: Info, n: Node) {
    && n in info.uses
    && match info.uses[n]
       case TypeName(_, composite, generic) => composite && !generic
       case _ => false
  }

  /** e spells the identifiers of n in order, with braces behind the name of a
      literal's type. */
  predicate Spells(info: Info, n: Node, e: Expr) {
    match n
    case Ident(_, name) => e == Name(name)
    case Selector(_, selAt, sel) =>
      && NamesIn(e) == NamesOf(n)
      && (if IsLiteralType(info, Ident(selAt, sel)) then e.Composite? && IsDotted(e.typ) else IsDotted(e))
    case Other(_, _, _) => false
  }

  // ----- what is answered -----

  /** The identifier reads a variable that is no field. */
  predicate ReadsVariable(info: Info, n: Node) {
    && n.Ident? && n.name != "_" && n.name !in KEYWORDS && n in info.uses
    && match info.uses[n]
       case Var(_, isField) => !isField
       case _ => false
  }

  /** The name stands for a type that has no literal, or for a generic function. */
  predicate IsNoValue(info: Info, n: Node) {
    && n in info.uses
    && match info.uses[n]
       case TypeName(_, composite, generic) => !composite || generic
       case Func(_, generic) => generic
       case _ => false
  }

  /** Identifiers joined by dots. */
  predicate AllIdents(n: Node) {
    match n
    case Ident(_, _) => true
    case Selector(x, _, _) => AllIdents(x)
    case Other(_, _, _) => false
  }

  /** The selector is one value. */
  predicate IsValue(info: Info, n: Node) {
    n.Selector? && AllIdents(n) && !IsNoValue(info, Ident(n.selAt, n.sel))
  }

  /** m is n or below it, and inside no selector that is one value. */
  ghost predicate Stands(info: Info, m: Node, n: Node) {
    m == n ||
    match n
    case Ident(_, _) => false
    case Selector(x, selAt, sel) => !IsValue(info, n) && (Stands(info, m, x) || m == Ident(selAt, sel))
    case Other(_, _, kids) => StandsInList(info, m, kids)
  }

  ghost predicate StandsInList(info: Info, m: Node, ns: seq<Node>) {
    exists i :: 0 <= i < |ns| && Stands(info, m, ns[i])
  }

  /** The statements declare the variable. */
  ghost predicate Declares(info: Info, ns: seq<Node>, obj: Object) {
    obj.Var? && exists m :: m in LeavesList(ns) && m in info.defs && info.defs[m] == Some(obj)
  }

  /** The first identifier of n names a variable of the statements. */
  ghost predicate IsLocal(info: Info, ns: seq<Node>, n: Node) {
    exists m :: StartsWith(n, m) && m in info.uses && Declares(info, ns, info.uses[m])
  }

  predicate StartsWith(n: Node, m: Node) {
    match n
    case Ident(_, _) => m == n
    case Selector(x, _, _) => StartsWith(x, m)
    case Other(_, _, _) => false
  }

  /** The statements mention the value or variable, and do not declare it. */
  ghost predicate Mentions(info: Info, ns: seq<Node>, m: Node) {
    StandsInList(info, m, ns) && (ReadsVariable(info, m) || IsValue(info, m)) && !IsLocal(info, ns, m)
  }

  /** es spells what the statements mention, each once, in position order. */
  ghost predicate AnswersWith(info: Info, ns: seq<Node>, nodes: seq<Node>, es: seq<Expr>) {
    && |es| == |nodes| && Increasing(nodes)
    && (forall m :: m in nodes <==> Mentions(info, ns, m))
    && (forall i :: 0 <= i < |es| ==> Spells(info, nodes[i], es[i]))
  }

  ghost predicate IsAnswer(info: Info, ns: seq<Node>, es: seq<Expr>) {
    exists nodes :: AnswersWith(info, ns, nodes, es)
  }

  // ----- the copies spell their nodes -----

  lemma {:induction false} ChainIsSpelled(n: Node)
    requires n.IsChain()
    ensures NamesIn(CloneChain(n)) == NamesOf(n) && IsDotted(CloneChain(n))
  {
    if n.Selector? {
      ChainIsSpelled(n.x);
      MapAppend((m: Node) => NameOf(m), Leaves(n.x), [n.Sel()]);
    }
  }

  lemma CloneSpells(info: Info, n: Node)
    requires IsWhole(info, n)
    ensures Spells(info, n, CloneSelector(info, n))
  {
    ChainIsSpelled(n);
  }

  // ----- the recorded nodes are those that stand in the tree -----

  lemma {:induction false} ChainIsAllIdents(n: Node)
    ensures n.IsChain() <==> AllIdents(n)
  {
    if n.Selector? {
      ChainIsAllIdents(n.x);
    }
  }

  lemma WholeIsValue(info: Info, n: Node)
    ensures IsWhole(info, n) <==> IsValue(info, n)
  {
    ChainIsAllIdents(n);
  }

  predicate Answerable(info: Info, m: Node) {
    ReadsVariable(info, m) || IsValue(info, m)
  }

  lemma IdentIsRecorded(info: Info, n: Node, m: Node)
    requires n.Ident?
    ensures m in RecordedIdent(info, n) <==> m == n && Answerable(info, m)
  {
  }

  lemma {:induction false} RecordedStands(info: Info, n: Node, m: Node)
    ensures m in Recorded(info, n) <==> Stands(info, m, n) && Answerable(info, m)
    decreases n, 0
  {
    match n
    case Ident(_, _) => IdentIsRecorded(info, n, m);
    case Selector(x, _, _) =>
      WholeIsValue(info, n);
      if !IsWhole(info, n) {
        RecordedStands(info, x, m);
        IdentIsRecorded(info, n.Sel(), m);
      }
    case Other(_, _, kids) => RecordedListStands(info, kids, m);
  }

  lemma {:induction false} RecordedListStands(info: Info, ns: seq<Node>, m: Node)
    ensures m in RecordedList(info, ns) <==> StandsInList(info, m, ns) && Answerable(info, m)
    decreases ns, 1
  {
    if ns != [] {
      RecordedStands(info, ns[0], m);
      RecordedListStands(info, ns[1..], m);
      StandsCons(info, ns, m);
    }
  }

  lemma StandsCons(info: Info, ns: seq<Node>, m: Node)
    requires ns != []
    ensures StandsInList(info, m, ns) <==> Stands(info, m, ns[0]) || StandsInList(info, m, ns[1..])
  {
    if i :| 0 <= i < |ns| && Stands(info, m, ns[i]) {
      assert i > 0 ==> ns[1..][i - 1] == ns[i];
    }
    if i :| 0 <= i < |ns[1..]| && Stands(info, m, ns[1..][i]) {
      assert ns[i + 1] == ns[1..][i];
    }
  }

  // ----- the excluded objects are the declared variables -----

  lemma {:induction false} LeafIsIdent(n: Node, m: Node)
    requires m in Leaves(n)
    ensures m.Ident?
    decreases n, 0
  {
    match n
    case Ident(_, _) =>
    case Selector(x, _, _) =>
      if m in Leaves(x) {
        LeafIsIdent(x, m);
      }
    case Other(_, _, kids) => LeafOfListIsIdent(kids, m);
  }

  lemma {:induction false} LeafOfListIsIdent(ns: seq<Node>, m: Node)
    requires m in LeavesList(ns)
    ensures m.Ident?
    decreases ns, 1
  {
    if m in Leaves(ns[0]) {
      LeafIsIdent(ns[0], m);
    } else {
      LeafOfListIsIdent(ns[1..], m);
    }
  }

  /** Some of the leaves declares the variable. */
  ghost predicate DeclaredBy(info: Info, leaves: seq<Node>, obj: Object) {
    obj.Var? && exists m :: m in leaves && m in info.defs && info.defs[m] == Some(obj)
  }

  lemma DeclaredByParts(info: Info, a: seq<Node>, b: seq<Node>, obj: Object)
    ensures DeclaredBy(info, a + b, obj) <==> DeclaredBy(info, a, obj) || DeclaredBy(info, b, obj)
  {
  }

  lemma DeclaredByOne(info: Info, n: Node, obj: Object)
    requires n.Ident?
    ensures DeclaredBy(info, [n], obj) <==> VariableDef(info, n) == Some(obj)
  {
  }

  lemma {:induction false} DefinitionIsDeclared(info: Info, n: Node, obj: Object)
    ensures obj in VariableDefinitions(info, n) <==> DeclaredBy(info, Leaves(n), obj)
    decreases n, 0
  {
    match n
    case Ident(_, _) => DeclaredByOne(info, n, obj);
    case Selector(x, _, _) =>
      DefinitionIsDeclared(info, x, obj);
      DeclaredByOne(info, n.Sel(), obj);
      DeclaredByParts(info, Leaves(x), [n.Sel()], obj);
    case Other(_, _, kids) => DefinitionInListIsDeclared(info, kids, obj);
  }

  lemma {:induction false} DefinitionInListIsDeclared(info: Info, ns: seq<Node>, obj: Object)
    ensures obj in VariableDefinitionsList(info, ns) <==> DeclaredBy(info, LeavesList(ns), obj)
    decreases ns, 1
  {
    if ns != [] {
      DefinitionIsDeclared(info, ns[0], obj);
      DefinitionInListIsDeclared(info, ns[1..], obj);
      DeclaredByParts(info, Leaves(ns[0]), LeavesList(ns[1..]), obj);
    }
  }

  lemma {:induction false} RootStarts(n: Node, m: Node)
    ensures StartsWith(n, m) <==> n.Root() == Some(m)
  {
    if n.Selector? {
      RootStarts(n.x, m);
    }
  }

  lemma LocalIsExcluded(info: Info, ns: seq<Node>, m: Node)
    requires Answerable(info, m)
    ensures IsLocal(info, ns, m) <==>
      ObjectOf(info, m).Some? && ObjectOf(info, m).value in VariableDefinitionsList(info, ns)
  {
    forall k ensures StartsWith(m, k) <==> m.Root() == Some(k) {
      RootStarts(m, k);
    }
    if m.Root().Some? && m.Root().value in info.uses {
      DefinitionInListIsDeclared(info, ns, info.uses[m.Root().value]);
    }
  }

  // ----- the answer of the direct walk -----

  /** The recorded nodes whose objects are not excluded. */
  function Remaining(info: Info, excluded: set<Object>, ns: seq<Node>): seq<Node> {
    if ns == [] then []
    else (if IsExcluded(info, excluded, ns[0]) then [] else [ns[0]]) + Remaining(info, excluded, ns[1..])
  }

  predicate IsExcluded(info: Info, excluded: set<Object>, n: Node) {
    ObjectOf(info, n).Some? && ObjectOf(info, n).value in excluded
  }

  lemma {:induction false} RemainingAre(info: Info, excluded: set<Object>, ns: seq<Node>, m: Node)
    ensures m in Remaining(info, excluded, ns) <==> m in ns && !IsExcluded(info, excluded, m)
  {
    if ns != [] {
      RemainingAre(info, excluded, ns[1..], m);
    }
  }

  lemma {:induction false} RemainingIncreases(info: Info, excluded: set<Object>, ns: seq<Node>)
    requires Increasing(ns)
    ensures Increasing(Remaining(info, excluded, ns))
  {
    if ns != [] {
      var others := Remaining(info, excluded, ns[1..]);
      RemainingIncreases(info, excluded, ns[1..]);
      forall i | 0 <= i < |others| ensures ns[0].Pos() < others[i].Pos() {
        RemainingAre(info, excluded, ns[1..], others[i]);
      }
    }
  }

  lemma AnswerOneSpells(info: Info, excluded: set<Object>, n: Node)
    requires Answerable(info, n) && !IsExcluded(info, excluded, n)
    ensures |AnswerOne(info, excluded, n)| == 1 && Spells(info, n, AnswerOne(info, excluded, n)[0])
  {
    WholeIsValue(info, n);
    if IsWhole(info, n) {
      CloneSpells(info, n);
    }
  }

  ghost predicate AllSpelled(info: Info, ns: seq<Node>, es: seq<Expr>) {
    |es| == |ns| && forall i :: 0 <= i < |es| ==> Spells(info, ns[i], es[i])
  }

  lemma AllSpelledCons(info: Info, n: Node, e: Expr, ns: seq<Node>, es: seq<Expr>)
    requires Spells(info, n, e) && AllSpelled(info, ns, es)
    ensures AllSpelled(info, [n] + ns, [e] + es)
  {
  }

  lemma {:induction false} AnswerIsSpelled(info: Info, excluded: set<Object>, ns: seq<Node>)
    requires forall m :: m in ns ==> Answerable(info, m)
    ensures AllSpelled(info, Remaining(info, excluded, ns), Answer(info, excluded, ns))
  {
    if ns != [] {
      AnswerIsSpelled(info, excluded, ns[1..]);
      if !IsExcluded(info, excluded, ns[0]) {
        AnswerOneSpells(info, excluded, ns[0]);
        var one := AnswerOne(info, excluded, ns[0]);
        assert one == [one[0]];
        AllSpelledCons(info, ns[0], one[0], Remaining(info, excluded, ns[1..]), Answer(info, excluded, ns[1..]));
      }
    }
  }

  /** The direct walk over type-checked statements whose identifiers stand in order
      lists what they mention, each once and spelled as it stands there. */
  lemma ReferenceIsAnswer(info: Info, ns: seq<Node>)
    requires TypedList(info, ns) && Increasing(LeavesList(ns))
    ensures IsAnswer(info, ns, Reference(info, ns))
  {
    var excluded, recorded := VariableDefinitionsList(info, ns), RecordedList(info, ns);
    var nodes := Remaining(info, excluded, recorded);
    WalkListIsAnswer(info, excluded, ns);
    forall m ensures m in recorded <==> StandsInList(info, m, ns) && Answerable(info, m) {
      RecordedListStands(info, ns, m);
    }
    RecordedListIncreases(info, ns);
    RemainingIncreases(info, excluded, recorded);
    AnswerIsSpelled(info, excluded, recorded);
    forall m ensures m in nodes <==> Mentions(info, ns, m) {
      RemainingAre(info, excluded, recorded, m);
      if Answerable(info, m) {
        LocalIsExcluded(info, ns, m);
      }
    }
    assert AnswersWith(info, ns, nodes, Reference(info, ns));
  }
}
