/** The abstract syntax shared by the parser and the evaluator. */
module Syntax {

  datatype Option<+T> = None | Some(value: T)

  /** A source position: `line` counts from 1, `column` from 0. */
  datatype Loc = Loc(line: int, column: int)

  /**
   * One AST node. Each node kind carries exactly the payload the parser
   * stores under `value`, plus the location current when it was added.
   * `Call`, `Vec` and `MapNode` hold their child nodes in order; the first
   * child of a `Call` is its callee. Float literals keep their token text:
   * floating point values are not modelled.
   */
  datatype Node =
    | Call(items: seq<Node>, loc: Loc)
    | Vec(items: seq<Node>, loc: Loc)
    | MapNode(items: seq<Node>, loc: Loc)
    | Ident(name: string, loc: Loc)
    | IntLit(i: int, loc: Loc)
    | FloatLit(text: string, loc: Loc)
    | StrLit(s: string, loc: Loc)

  /** The list stored under `value` by the three bracketed node kinds. */
  function Children(n: Node): (r: Option<seq<Node>>)
    ensures r.Some? <==> (n.Call? || n.Vec? || n.MapNode?)
    ensures r.Some? ==> r.value == n.items
  {
    match n
    case Call(items, _) => Some(items)
    case Vec(items, _) => Some(items)
    case MapNode(items, _) => Some(items)
    case _ => None
  }
}
