/**
 * The syntax tree of the SQL template language: expressions of `test="…"` attributes
 * and the node list a template parses into.
 */
module TemplateAst {
  import opened Values

  datatype Op = Eq | Ne | Gt | Ge | Lt | Le | And | Or

  datatype Expr =
    | Literal(value: Value)
    | Var(name: string)
    | Binary(op: Op, left: Expr, right: Expr)

  datatype AstNode =
    | Text(text: string)
    | Var(name: string)
    | Include(refid: string)
    | If(test: Expr, body: seq<AstNode>)
    | Foreach(item: string, collection: string, open: string, separator: string, close: string, body: seq<AstNode>)

  /** No `Text` node directly follows another `Text` node. */
  predicate NoAdjacentText(ns: seq<AstNode>) {
    forall i :: 0 <= i < |ns| - 1 ==> !(ns[i].Text? && ns[i + 1].Text?)
  }

  /** The shape the parser produces: no empty text and no adjacent texts, at every depth. */
  predicate WellFormedList(ns: seq<AstNode>) {
    NoAdjacentText(ns) && forall i :: 0 <= i < |ns| ==> WellFormedNode(ns[i])
  }

  predicate WellFormedNode(n: AstNode) {
    match n
    case Text(s) => s != []
    case If(_, body) => WellFormedList(body)
    case Foreach(_, _, _, _, _, body) => WellFormedList(body)
    case _ => true
  }

  /** A size that strictly shrinks from a node list to its nodes and from a node to its body. */
  function NodeSize(n: AstNode): nat {
    match n
    case If(_, body) => 1 + ListSize(body)
    case Foreach(_, _, _, _, _, body) => 1 + ListSize(body)
    case _ => 1
  }

  function ListSize(ns: seq<AstNode>): nat {
    if ns == [] then 0 else NodeSize(ns[0]) + ListSize(ns[1..]) + 1
  }

  /** Each node of a list is smaller than the list. */
  lemma {:induction false} ElementSmaller(ns: seq<AstNode>, k: nat)
    requires k < |ns|
    ensures NodeSize(ns[k]) < ListSize(ns)
    decreases k
  {
    if k > 0 {
      ElementSmaller(ns[1..], k - 1);
    }
  }
}
