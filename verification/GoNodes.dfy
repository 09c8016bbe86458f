/**
 Syntax trees as the identifier queries of astutil/query.go see them, the type
 checker's maps over them, and the reference walker. A node is a value; source
 positions keep the nodes of one tree apart.
*/
module GoNodes {
  import opened Wrappers

  datatype Node =
    | Ident(at: int, name: string)
    | Selector(x: Node, selAt: int, sel: string)
    | Other(from: int, to: int, kids: seq<Node>)
  {
    function Pos(): int {
      match this
      case Ident(at, _) => at
      case Selector(x, _, _) => x.Pos()
      case Other(from, _, _) => from
    }

    function End(): int {
      match this
      case Ident(at, name) => at + |name|
      case Selector(_, selAt, sel) => selAt + |sel|
      case Other(_, to, _) => to
    }

    function Sel(): Node
      requires Selector?
    {
      Ident(selAt, sel)
    }

    /** The leftmost expression of a selector, when it is an identifier. */
    function Root(): Option<Node> {
      match this
      case Ident(_, _) => Some(this)
      case Selector(x, _, _) => x.Root()
      case Other(_, _, _) => None
    }

    /** a.b.c with an identifier at its root. */
    predicate IsChain() {
      Ident? || (Selector? && x.IsChain())
    }
  }

  /** An object of go/types. A TypeName knows whether its underlying type is an
      array, map, slice or struct. */
  datatype Object =
    | Var(id: nat, isField: bool)
    | TypeName(id: nat, composite: bool, generic: bool)
    | Func(id: nat, generic: bool)
    | OtherObject(id: nat)

  datatype Info = Info(defs: map<Node, Option<Object>>, uses: map<Node, Object>)

  /** The expression the noop statement mentions. */
  datatype Expr = Name(name: string) | Selection(x: Expr, sel: string) | Composite(typ: Expr)

  const KEYWORDS: set<string> := {
    "break", "case", "chan", "const", "continue", "default", "defer", "else", "fallthrough", "for", "func", "go",
    "goto", "if", "import", "interface", "map", "package", "range", "return", "select", "struct", "switch", "type",
        "var"
  }

  predicate ShouldInitialize(info: Info, n: Node)
    requires n.Selector?
  {
    n.Sel() in info.uses &&
    var obj := info.uses[n.Sel()];
    obj.TypeName? && !obj.generic && obj.composite
  }

  predicate IsUnusable(info: Info, n: Node)
    requires n.Selector?
  {
    n.Sel() in info.uses &&
    var obj := info.uses[n.Sel()];
    if obj.TypeName? then !ShouldInitialize(info, n) else obj.Func? && obj.generic
  }

  function CloneChain(n: Node): Expr
    requires n.IsChain()
  {
    if n.Ident? then Name(n.name) else Selection(CloneChain(n.x), n.sel)
  }

  /** A selector that stands for one value; the walkers stop there. */
  predicate IsWhole(info: Info, n: Node) {
    n.Selector? && n.IsChain() && !IsUnusable(info, n)
  }

  function CloneSelector(info: Info, n: Node): Expr
    requires IsWhole(info, n)
  {
    if ShouldInitialize(info, n) then Composite(CloneChain(n)) else CloneChain(n)
  }

  /** The object of a name that can be read as a variable. */
  function VariableUse(info: Info, n: Node): Option<Object>
    requires n.Ident?
  {
    if n.name == "_" || n.name in KEYWORDS || n !in info.uses then None
    else if info.uses[n].Var? && !info.uses[n].isField then Some(info.uses[n])
    else None
  }

  /** The variable an identifier declares. */
  function VariableDef(info: Info, n: Node): Option<Object>
    requires n.Ident?
  {
    if n in info.defs && info.defs[n].Some? && info.defs[n].value.Var? then info.defs[n] else None
  }

  // ----- the reference: variableDefinitions, then identifierWalker -----

  function VariableDefinitions(info: Info, n: Node): set<Object> {
    match n
    case Ident(_, _) => if VariableDef(info, n).Some? then {VariableDef(info, n).value} else {}
    case Selector(x, _, _) =>
      VariableDefinitions(info, x) +
      (if VariableDef(info, n.Sel()).Some? then {VariableDef(info, n.Sel()).value} else {})
    case Other(_, _, kids) => VariableDefinitionsList(info, kids)
  }

  function VariableDefinitionsList(info: Info, ns: seq<Node>): set<Object> {
    if ns == [] then {} else VariableDefinitions(info, ns[0]) + VariableDefinitionsList(info, ns[1..])
  }

  function WalkIdent(info: Info, excluded: set<Object>, n: Node): seq<Expr>
    requires n.Ident?
  {
    if n.name == "_" || n.name in KEYWORDS || n in info.defs || n !in info.uses then []
    else
      var obj := info.uses[n];
      if !obj.Var? || obj.isField || obj in excluded then [] else [Name(n.name)]
  }

  function Walk(info: Info, excluded: set<Object>, n: Node): seq<Expr> {
    match n
    case Ident(_, _) => WalkIdent(info, excluded, n)
    case Selector(x, _, _) =>
      if !IsWhole(info, n) then Walk(info, excluded, x) + WalkIdent(info, excluded, n.Sel())
      else if n.Root().Some? && n.Root().value in info.uses && info.uses[n.Root().value] in excluded then []
      else [CloneSelector(info, n)]
    case Other(_, _, kids) => WalkList(info, excluded, kids)
  }

  function WalkList(info: Info, excluded: set<Object>, ns: seq<Node>): seq<Expr> {
    if ns == [] then [] else Walk(info, excluded, ns[0]) + WalkList(info, excluded, ns[1..])
  }

  /** What the direct walk over the statements returns. */
  function Reference(info: Info, stmts: seq<Node>): seq<Expr> {
    WalkList(info, VariableDefinitionsList(info, stmts), stmts)
  }
}
