/**
 * The tree the parser builds. Identifier nodes are shared within one parse:
 * the parser keeps one node per name, and here that node is identified by a
 * slot number, so two identifier nodes are the same node exactly when they
 * carry the same name and slot.
 */
module ParseTree {
  import opened LexSpec

  datatype Node =
    | NumberNode(number: NumberValue)
    | StringNode(value: string)
    | NoneNode
    | IdentifierNode(name: string, slot: nat)
    | UnaryOpNode(op: string, operand: Node)
    | BinaryOpNode(op: string, left: Node, right: Node)
    | SliceNode(start: Node, end: Node, stop: Node)
    | AttributionNode(obj: Node, names: seq<string>)
    | TupleNode(elements: seq<Node>)
    | ListNode(elements: seq<Node>)
    | ItemNode(obj: Node, index: Node)
    | FunctionCallNode(func: Node, args: seq<Node>, kwargs: seq<Kwarg>)

  /** A keyword argument `name = value` of a call. */
  datatype Kwarg = Kwarg(name: string, value: Node)

  /** The identifier nodes occurring in `x`, as (name, slot) pairs. */
  function Idents(x: Node): set<(string, nat)>
    decreases x
  {
    match x
    case NumberNode(_) => {}
    case StringNode(_) => {}
    case NoneNode => {}
    case IdentifierNode(n, k) => {(n, k)}
    case UnaryOpNode(_, a) => Idents(a)
    case BinaryOpNode(_, a, b) => Idents(a) + Idents(b)
    case SliceNode(a, b, c) => Idents(a) + Idents(b) + Idents(c)
    case AttributionNode(o, _) => Idents(o)
    case TupleNode(xs) => set i, p | 0 <= i < |xs| && p in Idents(xs[i]) :: p
    case ListNode(xs) => set i, p | 0 <= i < |xs| && p in Idents(xs[i]) :: p
    case ItemNode(o, e) => Idents(o) + Idents(e)
    case FunctionCallNode(f, xs, kw) =>
      Idents(f) + (set i, p | 0 <= i < |xs| && p in Idents(xs[i]) :: p)
        + (set i, p | 0 <= i < |kw| && p in Idents(kw[i].value) :: p)
  }
}
