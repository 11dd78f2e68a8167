/**
 * The tree nodes of `ast_nodes.py` and their two textual forms: the one-line
 * representation of a node, and the indented outline that `render` prints,
 * one line per node with box-drawing connectors.
 */
module AstNodes {
  import opened Wrappers
  import opened Decimal
  import opened LexSpec
  import LexProps

  /**
   * The node classes `render` knows, and `OtherNode` for any other class: it
   * carries the class name and the text of its own representation, which is
   * not part of this model.
   */
  datatype Ast =
    | NumberNode(number: NumberValue)
    | StringNode(text: string)
    | VariableNode(name: string)
    | BinaryOpNode(operator: string, left: Ast, right: Ast)
    | UnaryOpNode(operator: string, operand: Ast)
    | FunctionCallNode(name: string, arguments: seq<Ast>)
    | OtherNode(kind: string, repr: string)

  /** The `TypeError` `render` raises for a node class it does not know. */
  datatype RenderError = UnsupportedNode(kind: string)

  // ----- representation -----

  /** The text of a number value inside `Number(...)`. */
  function NumberText(v: NumberValue): string {
    match v
    case IntValue(i) => IntToString(i)
    case FloatValue(lexeme) => lexeme
  }

  /** `__repr__` of each node class. */
  function Repr(x: Ast): string
    decreases x
  {
    match x
    case NumberNode(v) => "Number(" + NumberText(v) + ")"
    case StringNode(s) => "String(\"" + s + "\")"
    case VariableNode(n) => "Variable(" + n + ")"
    case BinaryOpNode(op, l, r) => "BinaryOp(" + op + ", " + Repr(l) + ", " + Repr(r) + ")"
    case UnaryOpNode(op, a) => "UnaryOp(" + op + ", " + Repr(a) + ")"
    case FunctionCallNode(n, args) => "FunctionCall(" + n + ", [" + ReprList(args) + "])"
    case OtherNode(_, text) => text
  }

  /** The representations of `xs` joined by `, `. */
  function ReprList(xs: seq<Ast>): string
    decreases xs
  {
    if xs == [] then "" else if |xs| == 1 then Repr(xs[0]) else Repr(xs[0]) + ", " + ReprList(xs[1..])
  }

  /** `sep.join(ls)`. */
  function Join(ls: seq<string>, sep: string): string
    decreases |ls|
  {
    if ls == [] then "" else if |ls| == 1 then ls[0] else ls[0] + sep + Join(ls[1..], sep)
  }

  /** Splitting the newline-joined lines gives the lines back, when none holds a newline. */
  lemma {:induction false} SplitJoin(ls: seq<string>)
    requires |ls| >= 1
    requires forall m, k :: 0 <= m < |ls| && 0 <= k < |ls[m]| ==> ls[m][k] != '\n'
    ensures Split(Join(ls, "\n"), '\n') == ls
    decreases |ls|
  {
    if |ls| == 1 {
      LexProps.SplitPiece(ls[0], "", '\n');
      assert ls[0] + "" == ls[0];
    } else {
      var rest := Join(ls[1..], "\n");
      SplitJoin(ls[1..]);
      assert Join(ls, "\n") == ls[0] + ("\n" + rest);
      LexProps.SplitPiece(ls[0], "\n" + rest, '\n');
      assert ("\n" + rest)[1..] == rest;
      assert Split("\n" + rest, '\n') == [""] + ls[1..];
      assert ls[0] + "" == ls[0];
      assert [ls[0]] + ls[1..] == ls;
    }
  }

  // ----- the outline -----

  /** The number of nodes of `x`. */
  function Size(x: Ast): (n: nat)
    ensures n >= 1
    decreases x
  {
    match x
    case BinaryOpNode(_, l, r) => 1 + Size(l) + Size(r)
    case UnaryOpNode(_, a) => 1 + Size(a)
    case FunctionCallNode(_, args) => 1 + SizeAll(args)
    case _ => 1
  }

  /** The number of nodes of all of `xs`. */
  function SizeAll(xs: seq<Ast>): nat
    decreases xs
  {
    if xs == [] then 0 else Size(xs[0]) + SizeAll(xs[1..])
  }

  /** The children `render` visits below a node, in their own order. */
  function Children(x: Ast): seq<Ast> {
    match x
    case BinaryOpNode(_, l, r) => [l, r]
    case UnaryOpNode(_, a) => [a]
    case FunctionCallNode(_, args) => args
    case _ => []
  }

  lemma SizeChildren(x: Ast)
    ensures Size(x) == 1 + SizeAll(Children(x))
  {
    match x
    case BinaryOpNode(_, l, r) =>
      assert [l, r][1..] == [r] && [r][1..] == [];
      assert SizeAll([r]) == Size(r) + SizeAll([]);
      assert SizeAll([l, r]) == Size(l) + SizeAll([r]);
    case UnaryOpNode(_, a) =>
      assert [a][1..] == [];
      assert SizeAll([a]) == Size(a) + SizeAll([]);
    case _ =>
  }

  /** The line text of a node `render` knows, without its prefix. */
  function Label(x: Ast): string
    requires !x.OtherNode?
  {
    match x
    case BinaryOpNode(op, _, _) => "BinaryOp(" + op + ")"
    case UnaryOpNode(op, _) => "UnaryOp(" + op + ")"
    case FunctionCallNode(n, _) => "FunctionCall(" + n + ")"
    case _ => Repr(x)
  }

  /**
   * The prefixes of a child line and of its own children: `└───` and four
   * spaces below the last child, `├───` and `│` plus three spaces otherwise.
   */
  function Branch(leaf: string, last: bool): (string, string) {
    if last then (leaf + "└───", leaf + "    ") else (leaf + "├───", leaf + "│   ")
  }

  /** Both parts in order; the first failure wins. */
  function Cat(a: Result<seq<string>, RenderError>, b: Result<seq<string>, RenderError>): Result<seq<string>, RenderError> {
    if a.Failure? then a else if b.Failure? then b else Success(a.value + b.value)
  }

  lemma CatUnits(a: Result<seq<string>, RenderError>)
    ensures Cat(Success([]), a) == a && Cat(a, Success([])) == a
  {
    if a.Success? {
      assert [] + a.value == a.value && a.value + [] == a.value;
    }
  }

  lemma CatAssoc(a: Result<seq<string>, RenderError>, b: Result<seq<string>, RenderError>, c: Result<seq<string>, RenderError>)
    ensures Cat(Cat(a, b), c) == Cat(a, Cat(b, c))
  {
    if a.Success? && b.Success? && c.Success? {
      assert (a.value + b.value) + c.value == a.value + (b.value + c.value);
    }
  }

  /**
   * The outline of `x` as a recursive reference: the node's line with prefix
   * `cur`, then its children's outlines, each below `leaf`.
   */
  function Lines(x: Ast, cur: string, leaf: string): Result<seq<string>, RenderError>
    decreases Size(x), 1
  {
    if x.OtherNode? then Failure(UnsupportedNode(x.kind))
    else
      SizeChildren(x);
      Cat(Success([cur + Label(x)]), KidsLines(Children(x), leaf))
  }

  /** The outlines of the children `xs` below `leaf`, in order. */
  function KidsLines(xs: seq<Ast>, leaf: string): Result<seq<string>, RenderError>
    decreases SizeAll(xs), 2
  {
    if xs == [] then Success([])
    else
      var (c, l) := Branch(leaf, |xs| == 1);
      Cat(Lines(xs[0], c, l), KidsLines(xs[1..], leaf))
  }

  /** What `render` returns: the outline joined by newlines, or the error. */
  function Rendered(x: Ast): Result<string, RenderError> {
    var r := Lines(x, "", "");
    if r.Failure? then Failure(r.error) else Success(Join(r.value, "\n"))
  }

  // ----- the render loop -----

  /** An entry of the explicit stack: a node, its line prefix and its children's prefix. */
  datatype Frame = Frame(node: Ast, curPrefix: string, leafPrefix: string)

  /** The lines the stack `q` still owes, popping from its end. */
  function StackLines(q: seq<Frame>): Result<seq<string>, RenderError>
    decreases |q|
  {
    if q == [] then Success([])
    else
      var f := q[|q| - 1];
      Cat(Lines(f.node, f.curPrefix, f.leafPrefix), StackLines(q[..|q| - 1]))
  }

  /** The number of nodes the stack `q` still holds. */
  function StackSize(q: seq<Frame>): nat
    decreases |q|
  {
    if q == [] then 0 else Size(q[|q| - 1].node) + StackSize(q[..|q| - 1])
  }

  /** The frames pushed for the children `xs`: last child first, so the first child is on top. */
  function Pushed(xs: seq<Ast>, leaf: string): seq<Frame>
    decreases |xs|
  {
    if xs == [] then []
    else
      var (c, l) := Branch(leaf, |xs| == 1);
      Pushed(xs[1..], leaf) + [Frame(xs[0], c, l)]
  }

  /** Pushing the children's frames on `q` makes the stack owe their outlines before the rest. */
  lemma {:induction false} PushedLines(q: seq<Frame>, xs: seq<Ast>, leaf: string)
    ensures StackLines(q + Pushed(xs, leaf)) == Cat(KidsLines(xs, leaf), StackLines(q))
    ensures StackSize(q + Pushed(xs, leaf)) == SizeAll(xs) + StackSize(q)
    decreases |xs|
  {
    if xs == [] {
      assert q + [] == q;
      CatUnits(StackLines(q));
    } else {
      var (c, l) := Branch(leaf, |xs| == 1);
      var p := q + Pushed(xs[1..], leaf);
      PushedLines(q, xs[1..], leaf);
      assert q + Pushed(xs, leaf) == p + [Frame(xs[0], c, l)];
      assert (p + [Frame(xs[0], c, l)])[..|p|] == p;
      CatAssoc(Lines(xs[0], c, l), KidsLines(xs[1..], leaf), StackLines(q));
    }
  }

  /**
   * One round of the loop: popping a known node, emitting its line and
   * pushing its children leaves what is owed in total unchanged, on a
   * smaller stack.
   */
  lemma PopStep(prev: seq<string>, q: seq<Frame>, leafNodes: seq<Ast>)
    requires q != [] && !q[|q| - 1].node.OtherNode? && leafNodes == Children(q[|q| - 1].node)
    ensures var f := q[|q| - 1]; var rest := q[..|q| - 1] + Pushed(leafNodes, f.leafPrefix);
      && Cat(Success(prev), StackLines(q)) == Cat(Success(prev + [f.curPrefix + Label(f.node)]), StackLines(rest))
      && StackSize(rest) < StackSize(q)
  {
    var f := q[|q| - 1];
    var line := Success([f.curPrefix + Label(f.node)]);
    var kids := KidsLines(leafNodes, f.leafPrefix);
    var rest := StackLines(q[..|q| - 1]);
    PushedLines(q[..|q| - 1], leafNodes, f.leafPrefix);
    SizeChildren(f.node);
    CatAssoc(line, kids, rest);
    CatAssoc(Success(prev), line, Cat(kids, rest));
  }

  /** The inner loop of `render`: the children's frames, walked from the last child. */
  method PushChildren(q: seq<Frame>, leafNodes: seq<Ast>, leafPrefix: string) returns (q': seq<Frame>)
    ensures q' == q + Pushed(leafNodes, leafPrefix)
  {
    q' := q;
    var n := |leafNodes|;
    var i := 0;
    while i < n
      invariant 0 <= i <= n
      invariant q' == q + Pushed(leafNodes[n - i..], leafPrefix)
    {
      var nextCur, nextLeaf;
      if i == 0 {
        nextCur, nextLeaf := leafPrefix + "└───", leafPrefix + "    ";
      } else {
        nextCur, nextLeaf := leafPrefix + "├───", leafPrefix + "│   ";
      }
      assert leafNodes[n - 1 - i..][1..] == leafNodes[n - i..];
      q' := q' + [Frame(leafNodes[n - 1 - i], nextCur, nextLeaf)];
      i := i + 1;
    }
    assert leafNodes[n - i..] == leafNodes;
  }

  /** `ASTNode.render`: pops frames, emits one line per node and pushes the children reversed. */
  method Render(x: Ast) returns (r: Result<string, RenderError>)
    ensures r == Rendered(x)
  {
    var text: seq<string> := [];
    var q: seq<Frame> := [Frame(x, "", "")];
    assert q[..0] == [];
    ghost var goal := Lines(x, "", "");
    CatUnits(goal);
    CatUnits(Cat(goal, Success([])));
    while q != []
      invariant goal == Cat(Success(text), StackLines(q))
      decreases StackSize(q)
    {
      var f := q[|q| - 1];
      ghost var q0, prev := q, text;
      q := q[..|q| - 1];
      var leafNodes: seq<Ast>;
      if f.node.NumberNode? || f.node.StringNode? || f.node.VariableNode? {
        text := text + [f.curPrefix + Repr(f.node)];
        leafNodes := [];
      } else if f.node.BinaryOpNode? {
        text := text + [f.curPrefix + "BinaryOp(" + f.node.operator + ")"];
        assert f.curPrefix + "BinaryOp(" + f.node.operator + ")" == f.curPrefix + ("BinaryOp(" + f.node.operator + ")");
        leafNodes := [f.node.left, f.node.right];
      } else if f.node.UnaryOpNode? {
        text := text + [f.curPrefix + "UnaryOp(" + f.node.operator + ")"];
        assert f.curPrefix + "UnaryOp(" + f.node.operator + ")" == f.curPrefix + ("UnaryOp(" + f.node.operator + ")");
        leafNodes := [f.node.operand];
      } else if f.node.FunctionCallNode? {
        text := text + [f.curPrefix + "FunctionCall(" + f.node.name + ")"];
        assert f.curPrefix + "FunctionCall(" + f.node.name + ")" == f.curPrefix + ("FunctionCall(" + f.node.name + ")");
        leafNodes := f.node.arguments;
      } else {
        assert StackLines(q0) == Failure(UnsupportedNode(f.node.kind));
        return Failure(UnsupportedNode(f.node.kind));
      }
      assert text == prev + [f.curPrefix + Label(f.node)];
      PopStep(prev, q0, leafNodes);
      q := PushChildren(q, leafNodes, f.leafPrefix);
    }
    CatUnits(Success(text));
    r := Success(Join(text, "\n"));
  }

  // ----- properties of the outline -----

  /** The nodes of `x` in pre-order, children in their own order, each with its depth below `d`. */
  function Flatten(x: Ast, d: nat): seq<(Ast, nat)>
    decreases Size(x), 1
  {
    SizeChildren(x);
    [(x, d)] + FlattenAll(Children(x), d + 1)
  }

  function FlattenAll(xs: seq<Ast>, d: nat): seq<(Ast, nat)>
    decreases SizeAll(xs), 2
  {
    if xs == [] then [] else Flatten(xs[0], d) + FlattenAll(xs[1..], d)
  }

  /** The class of the first node in `f` that `render` does not know. */
  function FirstUnsupported(f: seq<(Ast, nat)>): Option<string>
    decreases |f|
  {
    if f == [] then None else if f[0].0.OtherNode? then Some(f[0].0.kind) else FirstUnsupported(f[1..])
  }

  lemma {:induction false} FirstUnsupportedCat(a: seq<(Ast, nat)>, b: seq<(Ast, nat)>)
    ensures FirstUnsupported(a + b) == if FirstUnsupported(a).Some? then FirstUnsupported(a) else FirstUnsupported(b)
    decreases |a|
  {
    if a == [] {
      assert a + b == b;
    } else {
      assert (a + b)[1..] == a[1..] + b;
      FirstUnsupportedCat(a[1..], b);
    }
  }

  /** The error of a failed outline, as an option. */
  function ErrorOf(r: Result<seq<string>, RenderError>): Option<string> {
    if r.Failure? then Some(r.error.kind) else None
  }

  /** The outline fails exactly when some node is unsupported, and on the first such node in pre-order. */
  lemma {:induction false} LinesFailure(x: Ast, cur: string, leaf: string, d: nat)
    ensures ErrorOf(Lines(x, cur, leaf)) == FirstUnsupported(Flatten(x, d))
    decreases Size(x), 1
  {
    SizeChildren(x);
    if !x.OtherNode? {
      KidsFailure(Children(x), leaf, d + 1);
      FirstUnsupportedCat([(x, d)], FlattenAll(Children(x), d + 1));
      assert ([(x, d)] + FlattenAll(Children(x), d + 1))[1..] == FlattenAll(Children(x), d + 1);
    }
  }

  lemma {:induction false} KidsFailure(xs: seq<Ast>, leaf: string, d: nat)
    ensures ErrorOf(KidsLines(xs, leaf)) == FirstUnsupported(FlattenAll(xs, d))
    decreases SizeAll(xs), 2
  {
    if xs != [] {
      var (c, l) := Branch(leaf, |xs| == 1);
      LinesFailure(xs[0], c, l, d);
      KidsFailure(xs[1..], leaf, d);
      FirstUnsupportedCat(Flatten(xs[0], d), FlattenAll(xs[1..], d));
    }
  }

  /** The tree has as many pre-order entries as nodes. */
  lemma {:induction false} FlattenSize(x: Ast, d: nat)
    ensures |Flatten(x, d)| == Size(x)
    decreases Size(x), 1
  {
    SizeChildren(x);
    FlattenAllSize(Children(x), d + 1);
  }

  lemma {:induction false} FlattenAllSize(xs: seq<Ast>, d: nat)
    ensures |FlattenAll(xs, d)| == SizeAll(xs)
    decreases SizeAll(xs), 2
  {
    if xs != [] {
      FlattenSize(xs[0], d);
      FlattenAllSize(xs[1..], d);
    }
  }

  /**
   * Line `k` is the label of the `k`-th node in pre-order behind a prefix of
   * `base` plus four characters per level of depth.
   */
  predicate Outlined(ls: seq<string>, f: seq<(Ast, nat)>, base: nat) {
    && |ls| == |f|
    && forall k :: 0 <= k < |ls| ==>
         && !f[k].0.OtherNode?
         && |ls[k]| == base + 4 * f[k].1 + |Label(f[k].0)|
         && ls[k][base + 4 * f[k].1..] == Label(f[k].0)
         && NoNewline(ls[k][..base + 4 * f[k].1])
  }

  predicate NoNewline(s: string) {
    forall j :: 0 <= j < |s| ==> s[j] != '\n'
  }

  lemma OutlinedCat(a: seq<string>, fa: seq<(Ast, nat)>, b: seq<string>, fb: seq<(Ast, nat)>, base: nat)
    requires Outlined(a, fa, base) && Outlined(b, fb, base)
    ensures Outlined(a + b, fa + fb, base)
  {
    forall k | 0 <= k < |a + b|
      ensures && !(fa + fb)[k].0.OtherNode?
              && |(a + b)[k]| == base + 4 * (fa + fb)[k].1 + |Label((fa + fb)[k].0)|
              && (a + b)[k][base + 4 * (fa + fb)[k].1..] == Label((fa + fb)[k].0)
              && NoNewline((a + b)[k][..base + 4 * (fa + fb)[k].1])
    {
      if k >= |a| {
        assert (a + b)[k] == b[k - |a|] && (fa + fb)[k] == fb[k - |a|];
      }
    }
  }

  /** A successful outline of a node at depth `d` is its pre-order, line by line, with `4 * d`-wide prefixes. */
  lemma {:induction false} LinesOutline(x: Ast, cur: string, leaf: string, base: nat, d: nat)
    requires |cur| == |leaf| == base + 4 * d && NoNewline(cur) && NoNewline(leaf)
    ensures Lines(x, cur, leaf).Success? ==> Outlined(Lines(x, cur, leaf).value, Flatten(x, d), base)
    decreases Size(x), 1
  {
    SizeChildren(x);
    if !x.OtherNode? {
      var kids := KidsLines(Children(x), leaf);
      KidsOutline(Children(x), leaf, base, d + 1);
      if kids.Success? {
        var line := cur + Label(x);
        assert line[|cur|..] == Label(x) && line[..|cur|] == cur;
        assert Outlined([line], [(x, d)], base);
        OutlinedCat([line], [(x, d)], kids.value, FlattenAll(Children(x), d + 1), base);
      }
    }
  }

  lemma {:induction false} KidsOutline(xs: seq<Ast>, leaf: string, base: nat, d: nat)
    requires |leaf| + 4 == base + 4 * d && NoNewline(leaf)
    ensures KidsLines(xs, leaf).Success? ==> Outlined(KidsLines(xs, leaf).value, FlattenAll(xs, d), base)
    decreases SizeAll(xs), 2
  {
    if xs != [] {
      var (c, l) := Branch(leaf, |xs| == 1);
      assert NoNewline(c) && NoNewline(l) by {
        assert forall j :: |leaf| <= j < |c| ==> c[j] == c[|leaf|..][j - |leaf|];
        assert forall j :: |leaf| <= j < |l| ==> l[j] == l[|leaf|..][j - |leaf|];
      }
      LinesOutline(xs[0], c, l, base, d);
      KidsOutline(xs[1..], leaf, base, d);
      var a, b := Lines(xs[0], c, l), KidsLines(xs[1..], leaf);
      if a.Success? && b.Success? {
        OutlinedCat(a.value, Flatten(xs[0], d), b.value, FlattenAll(xs[1..], d), base);
      }
    }
  }

  /**
   * `render` fails exactly when the tree holds a node class it does not
   * know, naming the first in pre-order; otherwise it prints one line per
   * node, in pre-order, the root without prefix and every node at depth `d`
   * behind a prefix of `4 * d` characters.
   */
  lemma RenderOutline(x: Ast)
    ensures Rendered(x).Failure? <==> FirstUnsupported(Flatten(x, 0)).Some?
    ensures Rendered(x).Failure? ==> Rendered(x).error == UnsupportedNode(FirstUnsupported(Flatten(x, 0)).value)
    ensures Rendered(x).Success? ==>
      && Lines(x, "", "").Success?
      && Rendered(x).value == Join(Lines(x, "", "").value, "\n")
      && |Lines(x, "", "").value| == Size(x)
      && Lines(x, "", "").value[0] == Label(x)
      && Outlined(Lines(x, "", "").value, Flatten(x, 0), 0)
  {
    LinesFailure(x, "", "", 0);
    LinesOutline(x, "", "", 0, 0);
    FlattenSize(x, 0);
    if Lines(x, "", "").Success? {
      var ls := Lines(x, "", "").value;
      assert Flatten(x, 0)[0] == (x, 0);
      assert ls[0][0..] == ls[0];
    }
  }

  /** When no label holds a newline, splitting the printed text gives the lines back. */
  lemma RenderSplit(x: Ast)
    requires Rendered(x).Success?
    requires forall p :: p in Flatten(x, 0) && !p.0.OtherNode? ==> NoNewline(Label(p.0))
    ensures Split(Rendered(x).value, '\n') == Lines(x, "", "").value
  {
    RenderOutline(x);
    var ls := Lines(x, "", "").value;
    var f := Flatten(x, 0);
    forall m, k | 0 <= m < |ls| && 0 <= k < |ls[m]|
      ensures ls[m][k] != '\n'
    {
      if k >= 4 * f[m].1 {
        assert f[m] in f;
        assert ls[m][k] == ls[m][4 * f[m].1..][k - 4 * f[m].1];
      } else {
        assert ls[m][k] == ls[m][..4 * f[m].1][k];
      }
    }
    SplitJoin(ls);
  }

  // ----- representation properties -----

  /** The representations of `xs`, one per node. */
  function Reprs(xs: seq<Ast>): (rs: seq<string>)
    ensures |rs| == |xs| && forall i :: 0 <= i < |xs| ==> rs[i] == Repr(xs[i])
  {
    seq(|xs|, i requires 0 <= i < |xs| => Repr(xs[i]))
  }

  /** A call's argument list is the arguments' representations joined by `, `. */
  lemma {:induction false} ReprListJoin(xs: seq<Ast>)
    ensures ReprList(xs) == Join(Reprs(xs), ", ")
    decreases |xs|
  {
    if |xs| > 1 {
      ReprListJoin(xs[1..]);
      assert Reprs(xs)[1..] == Reprs(xs[1..]);
    }
  }

  /** A known leaf has a one-line outline: its representation behind its prefix. */
  lemma LeafLines(x: Ast, cur: string, leaf: string)
    requires x.NumberNode? || x.StringNode? || x.VariableNode?
    ensures Lines(x, cur, leaf) == Success([cur + Repr(x)])
  {
    CatUnits(Success([cur + Repr(x)]));
  }

  /** A known leaf prints as one line, its representation. */
  lemma RenderLeaf(x: Ast)
    requires x.NumberNode? || x.StringNode? || x.VariableNode?
    ensures Rendered(x) == Success(Repr(x))
  {
    LeafLines(x, "", "");
    assert "" + Repr(x) == Repr(x);
  }

  /** Two children: the first behind `├───`, the last behind `└───`. */
  lemma PairLines(x: Ast, y: Ast, leaf: string)
    ensures KidsLines([x, y], leaf) == Cat(Lines(x, leaf + "├───", leaf + "│   "), Lines(y, leaf + "└───", leaf + "    "))
  {
    assert [x, y][1..] == [y] && [y][1..] == [];
    assert Branch(leaf, true) == (leaf + "└───", leaf + "    ");
    assert KidsLines([y], leaf) == Cat(Lines(y, leaf + "└───", leaf + "    "), KidsLines([], leaf));
    CatUnits(Lines(y, leaf + "└───", leaf + "    "));
  }

  /** The representation of a two-argument call. */
  lemma CallPairRepr(n: string, x: Ast, y: Ast)
    ensures Repr(FunctionCallNode(n, [x, y])) == "FunctionCall(" + n + ", [" + Repr(x) + ", " + Repr(y) + "])"
  {
    assert [x, y][1..] == [y] && [x, y][0] == x && [y][0] == y;
    assert ReprList([y]) == Repr(y);
    var s := ReprList([x, y]);
    assert s == Repr(x) + ", " + Repr(y);
    assert "FunctionCall(" + n + ", [" + s + "])" == "FunctionCall(" + n + ", [" + Repr(x) + ", " + Repr(y) + "])";
  }

  /** `-x` as its representation. */
  lemma NegationRepr()
    ensures Repr(UnaryOpNode("-", VariableNode("x"))) == "UnaryOp(-, Variable(x))"
  {
  }

  /** An unknown node class anywhere stops `render`. */
  lemma SampleUnsupported()
    ensures Rendered(UnaryOpNode("-", FunctionCallNode("f", [OtherNode("SliceNode", "")])))
      == Failure(UnsupportedNode("SliceNode"))
  {
  }
}
