/**
 The statements of a Go function body, as go/ast presents them to the
 terminating-statement analysis: everything that cannot transfer control is one
 `Simple` statement, and expressions are dropped. Clauses are statements, as in
 go/ast, so a switch body can also hold something that is not a clause.
*/
module GoSyntax {
  import opened Wrappers

  /** A Go identifier is never empty; the analysis uses "" for "no label". */
  type Label = s: string | s != "" witness "L"

  datatype Token = Break | Continue | Goto | Fallthrough

  datatype Stmt =
    | Empty
    | Simple
    | PanicCall
    | Return
    | Branch(tok: Token, to: Option<Label>)
    | Labeled(name: Label, stmt: Stmt)
    | Block(list: seq<Stmt>)
    | If(body: seq<Stmt>, els: Option<Stmt>)
    | Switch(clauses: seq<Stmt>)
    | Select(clauses: seq<Stmt>)
    | For(hasCond: bool, body: seq<Stmt>)
    | Range(body: seq<Stmt>)
    | Case(isDefault: bool, body: seq<Stmt>)
    | Comm(isDefault: bool, body: seq<Stmt>)

  /** Whether the labels in front of s include l. */
  predicate DefinesLabel(s: Stmt, l: Label) {
    s.Labeled? && (s.name == l || DefinesLabel(s.stmt, l))
  }

  /** Whether a goto to l can land in a list without entering a block. */
  predicate LabelIn(list: seq<Stmt>, l: Label) {
    exists i :: 0 <= i < |list| && DefinesLabel(list[i], l)
  }
}
