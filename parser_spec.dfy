/**
 * The parser as functions of the token list and the parser state:
 * precedence climbing over unary operators and primaries, the postfix loop
 * (call, index, attribute), and the argument lists of parentheses and
 * brackets. Each loop of the parser is a recursive function with the loop's
 * variables as parameters; the `ExprParser` class computes the same results
 * step by step.
 */
module ParserSpec {
  import opened Wrappers
  import opened Errors
  import opened LexSpec
  import opened ParseTree

  /** The operator tables the parser consults: binary lexemes with their precedences, and unary lexemes. */
  datatype Grammar = Grammar(precedences: map<string, int>, unaryOps: set<string>)

  /** The parser's cursor into the token list and its cache from identifier name to node slot. */
  datatype State = State(pos: nat, cache: map<string, nat>)

  /** The argument list collected inside parentheses or brackets, and whether it ended with a comma. */
  datatype ArgList = ArgList(args: seq<Node>, kwargs: seq<Kwarg>, extraComma: bool)

  /** The slice components collected so far, whether a colon was seen, and how many. */
  datatype SliceParts = SliceParts(parts: seq<Node>, isSlice: bool, colons: nat)

  /** The token under the cursor; past the end of the list it is an EOF token at offset -1. */
  function Cur(ts: seq<Token>, pos: nat): Token {
    if pos < |ts| then ts[pos] else Token(EOF, -1)
  }

  function Next(s: State): State {
    State(s.pos + 1, s.cache)
  }

  /** The token list ends with an EOF token. */
  predicate EndsWithEOF(ts: seq<Token>) {
    |ts| > 0 && ts[|ts| - 1].kind.EOF?
  }

  /** Cache `d` keeps every entry of cache `c`. */
  predicate Extends(c: map<string, nat>, d: map<string, nat>) {
    forall n :: n in c ==> n in d && d[n] == c[n]
  }

  /** Every identifier node in `x` is the cached node of its name. */
  predicate Interned(x: Node, c: map<string, nat>)
    decreases x
  {
    match x
    case IdentifierNode(n, k) => n in c && c[n] == k
    case UnaryOpNode(_, a) => Interned(a, c)
    case BinaryOpNode(_, a, b) => Interned(a, c) && Interned(b, c)
    case SliceNode(a, b, e) => Interned(a, c) && Interned(b, c) && Interned(e, c)
    case AttributionNode(o, _) => Interned(o, c)
    case TupleNode(xs) => forall i :: 0 <= i < |xs| ==> Interned(xs[i], c)
    case ListNode(xs) => forall i :: 0 <= i < |xs| ==> Interned(xs[i], c)
    case ItemNode(o, e) => Interned(o, c) && Interned(e, c)
    case FunctionCallNode(f, xs, kw) =>
      && Interned(f, c)
      && (forall i :: 0 <= i < |xs| ==> Interned(xs[i], c))
      && (forall i :: 0 <= i < |kw| ==> Interned(kw[i].value, c))
    case _ => true
  }

  predicate AllInterned(xs: seq<Node>, c: map<string, nat>) {
    forall i :: 0 <= i < |xs| ==> Interned(xs[i], c)
  }

  predicate ArgsInterned(al: ArgList, c: map<string, nat>) {
    AllInterned(al.args, c) && forall i :: 0 <= i < |al.kwargs| ==> Interned(al.kwargs[i].value, c)
  }

  /** What is interned in a cache stays interned in every cache that extends it. */
  lemma InternedExtends(x: Node, c: map<string, nat>, d: map<string, nat>)
    requires Interned(x, c) && Extends(c, d)
    ensures Interned(x, d)
    decreases x
  {
    match x
    case TupleNode(xs) =>
      forall i | 0 <= i < |xs| ensures Interned(xs[i], d) { InternedExtends(xs[i], c, d); }
    case ListNode(xs) =>
      forall i | 0 <= i < |xs| ensures Interned(xs[i], d) { InternedExtends(xs[i], c, d); }
    case FunctionCallNode(f, xs, kw) =>
      InternedExtends(f, c, d);
      forall i | 0 <= i < |xs| ensures Interned(xs[i], d) { InternedExtends(xs[i], c, d); }
      forall i | 0 <= i < |kw| ensures Interned(kw[i].value, d) { InternedExtends(kw[i].value, c, d); }
    case _ =>
  }

  lemma AllExtends(xs: seq<Node>, c: map<string, nat>, d: map<string, nat>)
    requires AllInterned(xs, c) && Extends(c, d)
    ensures AllInterned(xs, d)
  {
    forall i | 0 <= i < |xs| ensures Interned(xs[i], d) { InternedExtends(xs[i], c, d); }
  }

  lemma ArgsExtends(al: ArgList, c: map<string, nat>, d: map<string, nat>)
    requires ArgsInterned(al, c) && Extends(c, d)
    ensures ArgsInterned(al, d)
  {
    AllExtends(al.args, c, d);
    forall i | 0 <= i < |al.kwargs| ensures Interned(al.kwargs[i].value, d) {
      InternedExtends(al.kwargs[i].value, c, d);
    }
  }

  /** A node interned before a successful step is interned after it. */
  lemma OptionExtends<T>(x: Option<Node>, c: map<string, nat>, r: Result<(T, State), SyntaxError>)
    requires x.Some? ==> Interned(x.value, c)
    requires r.Success? ==> Extends(c, r.value.1.cache)
    ensures r.Success? && x.Some? ==> Interned(x.value, r.value.1.cache)
  {
    if r.Success? && x.Some? {
      InternedExtends(x.value, c, r.value.1.cache);
    }
  }

  /**
   * From state `s` to state `t` the cursor moved forward, never past the end
   * of the list, and never onto the end when the list ends with EOF; the cache
   * only gained entries.
   */
  predicate Moved(ts: seq<Token>, s: State, t: State) {
    && s.pos <= t.pos <= |ts|
    && (EndsWithEOF(ts) && s.pos < |ts| ==> t.pos < |ts|)
    && Extends(s.cache, t.cache)
  }

  /** The node of identifier `name`: the cached one, or a new one in the next free slot. */
  function Intern(c: map<string, nat>, name: string): (r: (nat, map<string, nat>))
    ensures name in r.1 && r.1[name] == r.0
    ensures Extends(c, r.1)
    ensures name in c ==> r.1 == c
    ensures name !in c ==> r.1.Keys == c.Keys + {name}
  {
    if name in c then (c[name], c) else (|c|, c[name := |c|])
  }

  /** `parse_expression(min)`: a unary operand, then the binary operators that bind tighter than `minPrec`. */
  function Expr(g: Grammar, ts: seq<Token>, s: State, minPrec: int): (r: Result<(Node, State), SyntaxError>)
    requires s.pos <= |ts|
    ensures r.Success? ==> s.pos < r.value.1.pos && Moved(ts, s, r.value.1) && Interned(r.value.0, r.value.1.cache)
    decreases |ts| - s.pos, 4
  {
    var u :- Unary(g, ts, s);
    ExprLoop(g, ts, u.0, u.1, minPrec)
  }

  /** The loop of `parse_expression`: `left` is the operand built so far. */
  function ExprLoop(g: Grammar, ts: seq<Token>, left: Node, s: State, minPrec: int): (r: Result<(Node, State), SyntaxError>)
    requires s.pos <= |ts| && Interned(left, s.cache)
    ensures r.Success? ==> Moved(ts, s, r.value.1) && Interned(r.value.0, r.value.1.cache)
    decreases |ts| - s.pos, 3
  {
    var t := Cur(ts, s.pos);
    if !t.kind.OPERATOR? then Success((left, s))
    else if t.kind.op !in g.precedences then Failure(NotBinaryOperator(t.position))
    else if g.precedences[t.kind.op] <= minPrec then Success((left, s))
    else
      var right :- Expr(g, ts, Next(s), g.precedences[t.kind.op]);
      InternedExtends(left, s.cache, right.1.cache);
      ExprLoop(g, ts, BinaryOpNode(t.kind.op, left, right.0), right.1, minPrec)
  }

  /** A token that neither continues a primary (call, index, attribute) nor is rejected right after one. */
  predicate EndsOperand(t: Token) {
    !(t.kind.LPAREN? || t.kind.LSQUARE? || t.kind.ATTRIBUTION? || t.kind.STRING? || t.kind.NUMBER? || t.kind.IDENTIFIER?)
  }

  /** `parse_unary`: prefix operators, right-recursively, over a primary. */
  function Unary(g: Grammar, ts: seq<Token>, s: State): (r: Result<(Node, State), SyntaxError>)
    requires s.pos <= |ts|
    ensures r.Success? ==> s.pos < r.value.1.pos && Moved(ts, s, r.value.1) && Interned(r.value.0, r.value.1.cache)
    ensures r.Success? ==> EndsOperand(Cur(ts, r.value.1.pos))
    decreases |ts| - s.pos, 3
  {
    var t := Cur(ts, s.pos);
    if t.kind.OPERATOR? then
      if t.kind.op !in g.unaryOps then Failure(NotUnaryOperator(t.position))
      else
        var x :- Unary(g, ts, Next(s));
        Success((UnaryOpNode(t.kind.op, x.0), x.1))
    else
      Primary(g, ts, s)
  }

  /** `parse_primary`: an atom, then its postfixes. */
  function Primary(g: Grammar, ts: seq<Token>, s: State): (r: Result<(Node, State), SyntaxError>)
    requires s.pos <= |ts|
    ensures r.Success? ==> s.pos < r.value.1.pos && Moved(ts, s, r.value.1) && Interned(r.value.0, r.value.1.cache)
    ensures r.Success? ==> EndsOperand(Cur(ts, r.value.1.pos))
    decreases |ts| - s.pos, 2
  {
    var atom :- Atom(g, ts, s);
    Postfix(g, ts, atom.0, atom.1)
  }

  /** The first part of `parse_primary`: a number, a string, an identifier, a parenthesis or a bracket. */
  function Atom(g: Grammar, ts: seq<Token>, s: State): (r: Result<(Node, State), SyntaxError>)
    requires s.pos <= |ts|
    ensures r.Success? ==> s.pos < r.value.1.pos && Moved(ts, s, r.value.1) && Interned(r.value.0, r.value.1.cache)
    decreases |ts| - s.pos, 1
  {
    var t := Cur(ts, s.pos);
    match t.kind
    case NUMBER(v) => Success((NumberNode(v), Next(s)))
    case STRING(v) => Success((StringNode(v), Next(s)))
    case IDENTIFIER(n) =>
      var (k, c) := Intern(s.cache, n);
      Success((IdentifierNode(n, k), State(s.pos + 1, c)))
    case LPAREN => Paren(g, ts, None, s)
    case LSQUARE => Square(g, ts, None, s)
    case _ => Failure(UnexpectedToken(t.position))
  }

  /** The postfix loop of `parse_primary`: calls, indexing and attributes applied to `obj`. */
  function Postfix(g: Grammar, ts: seq<Token>, obj: Node, s: State): (r: Result<(Node, State), SyntaxError>)
    requires s.pos <= |ts| && Interned(obj, s.cache)
    ensures r.Success? ==> Moved(ts, s, r.value.1) && Interned(r.value.0, r.value.1.cache)
    ensures r.Success? ==> EndsOperand(Cur(ts, r.value.1.pos))
    decreases |ts| - s.pos, 2
  {
    var t := Cur(ts, s.pos);
    match t.kind
    case LPAREN =>
      var call :- Paren(g, ts, Some(obj), s);
      Postfix(g, ts, call.0, call.1)
    case LSQUARE =>
      var item :- Square(g, ts, Some(obj), s);
      Postfix(g, ts, item.0, item.1)
    case ATTRIBUTION(names) => Postfix(g, ts, AttributionNode(obj, names), Next(s))
    case STRING(_) => Failure(UnexpectedToken(t.position))
    case NUMBER(_) => Failure(UnexpectedToken(t.position))
    case IDENTIFIER(_) => Failure(UnexpectedToken(t.position))
    case _ => Success((obj, s))
  }

  /**
   * `parse_parenthesis(func)` at a `(`: the call of `func` when there is one,
   * otherwise a grouping or a tuple.
   */
  function Paren(g: Grammar, ts: seq<Token>, func: Option<Node>, s: State): (r: Result<(Node, State), SyntaxError>)
    requires s.pos <= |ts| && Cur(ts, s.pos).kind.LPAREN?
    requires func.Some? ==> Interned(func.value, s.cache)
    ensures r.Success? ==> s.pos < r.value.1.pos && Moved(ts, s, r.value.1) && Interned(r.value.0, r.value.1.cache)
    decreases |ts| - s.pos, 0
  {
    var args := ParenArgs(g, ts, func.Some?, Next(s));
    OptionExtends(func, s.cache, args);
    ParenClose(ts, func, Cur(ts, s.pos).position, args)
  }

  /** The end of `parse_parenthesis`: the closing `)` and the node the argument list makes. */
  function ParenClose(ts: seq<Token>, func: Option<Node>, start: int, r: Result<(ArgList, State), SyntaxError>)
    : Result<(Node, State), SyntaxError>
    requires r.Success? ==> r.value.1.pos <= |ts|
  {
    var (al, s) :- r;
    if !Cur(ts, s.pos).kind.RPAREN? then Failure(MissingRParen(start))
    else if func.Some? then Success((FunctionCallNode(func.value, al.args, al.kwargs), Next(s)))
    else if |al.kwargs| > 0 then Failure(KeywordInTuple(start))
    else if |al.args| == 1 && !al.extraComma then Success((al.args[0], Next(s)))
    else Success((TupleNode(al.args), Next(s)))
  }

  /** The argument list after `(`: empty at a `)`, otherwise a first argument and the comma loop. */
  function ParenArgs(g: Grammar, ts: seq<Token>, isCall: bool, s: State): (r: Result<(ArgList, State), SyntaxError>)
    requires s.pos <= |ts|
    ensures r.Success? ==> Moved(ts, s, r.value.1) && ArgsInterned(r.value.0, r.value.1.cache)
    ensures r.Success? && !isCall ==> |r.value.0.kwargs| == 0
    decreases |ts| - s.pos, 6
  {
    if Cur(ts, s.pos).kind.RPAREN? then Success((ArgList([], [], false), s))
    else
      var first :- ParenFirst(g, ts, isCall, s);
      ParenLoop(g, ts, isCall, first.0, first.1)
  }

  /** The first argument in `parse_parenthesis`: a keyword argument in a call, otherwise a positional one. */
  function ParenFirst(g: Grammar, ts: seq<Token>, isCall: bool, s: State): (r: Result<(ArgList, State), SyntaxError>)
    requires s.pos <= |ts|
    ensures r.Success? ==> Moved(ts, s, r.value.1) && ArgsInterned(r.value.0, r.value.1.cache)
    ensures r.Success? ==> |r.value.0.args| + |r.value.0.kwargs| == 1 && !r.value.0.extraComma
    ensures r.Success? && !isCall ==> |r.value.0.kwargs| == 0
    decreases |ts| - s.pos, 5
  {
    var first :- Expr(g, ts, s, 0);
    var (node, s1) := first;
    if isCall && node.IdentifierNode? && Cur(ts, s1.pos).kind.ASSIGNMENT? then
      var value :- Expr(g, ts, Next(s1), 0);
      Success((ArgList([], [Kwarg(node.name, value.0)], false), value.1))
    else
      Success((ArgList([node], [], false), s1))
  }

  /** The comma loop of `parse_parenthesis`. */
  function ParenLoop(g: Grammar, ts: seq<Token>, isCall: bool, al: ArgList, s: State)
    : (r: Result<(ArgList, State), SyntaxError>)
    requires s.pos <= |ts| && ArgsInterned(al, s.cache)
    ensures r.Success? ==> Moved(ts, s, r.value.1) && ArgsInterned(r.value.0, r.value.1.cache)
    ensures r.Success? ==> |al.args| <= |r.value.0.args| && |al.kwargs| <= |r.value.0.kwargs|
    ensures r.Success? ==> al.args <= r.value.0.args && al.kwargs <= r.value.0.kwargs
    ensures r.Success? && !isCall ==> r.value.0.kwargs == al.kwargs
    decreases |ts| - s.pos, 0
  {
    if !Cur(ts, s.pos).kind.COMMA? then Success((al, s))
    else
      var s1 := Next(s);
      var t1 := Cur(ts, s1.pos);
      if t1.kind.RPAREN? then
        if |al.args| + |al.kwargs| == 0 then Failure(UnexpectedToken(t1.position))
        else ParenLoop(g, ts, isCall, al.(extraComma := true), s1)
      else
        var item :- ParenItem(g, ts, isCall, al, s1);
        ParenLoop(g, ts, isCall, item.0, item.1)
  }

  /** One argument after a comma in `parse_parenthesis`: a keyword argument in a call, otherwise a positional one. */
  function ParenItem(g: Grammar, ts: seq<Token>, isCall: bool, al: ArgList, s: State)
    : (r: Result<(ArgList, State), SyntaxError>)
    requires s.pos <= |ts| && ArgsInterned(al, s.cache)
    ensures r.Success? ==> s.pos < r.value.1.pos && Moved(ts, s, r.value.1) && ArgsInterned(r.value.0, r.value.1.cache)
    ensures r.Success? ==> |al.args| <= |r.value.0.args| && |al.kwargs| <= |r.value.0.kwargs|
    ensures r.Success? ==> al.args <= r.value.0.args && al.kwargs <= r.value.0.kwargs
    ensures r.Success? ==> |r.value.0.args| + |r.value.0.kwargs| == |al.args| + |al.kwargs| + 1
    ensures r.Success? ==> r.value.0.extraComma == al.extraComma
    ensures r.Success? && !isCall ==> r.value.0.kwargs == al.kwargs
    decreases |ts| - s.pos, 5
  {
    var e :- Expr(g, ts, s, 0);
    var (node, s1) := e;
    var t := Cur(ts, s1.pos);
    if isCall then
      if t.kind.ASSIGNMENT? then
        if !node.IdentifierNode? then Failure(MisplacedAssignment(t.position))
        else
          var value :- Expr(g, ts, Next(s1), 0);
          ArgsExtends(al, s.cache, value.1.cache);
          Success((al.(kwargs := al.kwargs + [Kwarg(node.name, value.0)]), value.1))
      else if |al.kwargs| > 0 then Failure(PositionalAfterKeyword(t.position))
      else
        ArgsExtends(al, s.cache, s1.cache);
        Success((al.(args := al.args + [node]), s1))
    else
      ArgsExtends(al, s.cache, s1.cache);
      Success((al.(args := al.args + [node]), s1))
  }

  /** `parse_square(obj)` at a `[`: an item of `obj` when there is one, otherwise a list. */
  function Square(g: Grammar, ts: seq<Token>, obj: Option<Node>, s: State): (r: Result<(Node, State), SyntaxError>)
    requires s.pos <= |ts| && Cur(ts, s.pos).kind.LSQUARE?
    requires obj.Some? ==> Interned(obj.value, s.cache)
    ensures r.Success? ==> s.pos < r.value.1.pos && Moved(ts, s, r.value.1) && Interned(r.value.0, r.value.1.cache)
    decreases |ts| - s.pos, 0
  {
    var elements := SquareArgs(g, ts, obj.Some?, Next(s));
    OptionExtends(obj, s.cache, elements);
    SquareClose(ts, obj, elements)
  }

  /** The end of `parse_square`: the closing `]` and the item or list the elements make. */
  function SquareClose(ts: seq<Token>, obj: Option<Node>, r: Result<(ArgList, State), SyntaxError>)
    : Result<(Node, State), SyntaxError>
    requires r.Success? ==> r.value.1.pos <= |ts|
  {
    var (al, s) :- r;
    var t := Cur(ts, s.pos);
    if !t.kind.RSQUARE? then Failure(MissingRSquare(t.position))
    else if obj.Some? then
      if |al.args| == 1 && !al.extraComma then Success((ItemNode(obj.value, al.args[0]), Next(s)))
      else Success((ItemNode(obj.value, TupleNode(al.args)), Next(s)))
    else Success((ListNode(al.args), Next(s)))
  }

  /** The elements after `[`: none at a `]`, otherwise a first element and the comma loop. */
  function SquareArgs(g: Grammar, ts: seq<Token>, isItem: bool, s: State): (r: Result<(ArgList, State), SyntaxError>)
    requires s.pos <= |ts|
    ensures r.Success? ==> Moved(ts, s, r.value.1) && ArgsInterned(r.value.0, r.value.1.cache)
    decreases |ts| - s.pos, 9
  {
    if Cur(ts, s.pos).kind.RSQUARE? then Success((ArgList([], [], false), s))
    else
      var first :- Component(g, ts, isItem, s);
      SquareLoop(g, ts, isItem, ArgList([first.0], [], false), first.1)
  }

  /** The comma loop of `parse_square`. */
  function SquareLoop(g: Grammar, ts: seq<Token>, isItem: bool, al: ArgList, s: State)
    : (r: Result<(ArgList, State), SyntaxError>)
    requires s.pos <= |ts| && ArgsInterned(al, s.cache)
    ensures r.Success? ==> Moved(ts, s, r.value.1) && ArgsInterned(r.value.0, r.value.1.cache)
    ensures r.Success? ==> r.value.0.kwargs == al.kwargs && |al.args| <= |r.value.0.args|
    ensures r.Success? ==> al.args <= r.value.0.args
    decreases |ts| - s.pos, 0
  {
    if !Cur(ts, s.pos).kind.COMMA? then Success((al, s))
    else
      var s1 := Next(s);
      var t1 := Cur(ts, s1.pos);
      if t1.kind.RSQUARE? then
        if |al.args| == 0 then Failure(UnexpectedToken(t1.position))
        else SquareLoop(g, ts, isItem, al.(extraComma := true), s1)
      else
        var item :- SquareItem(g, ts, isItem, al, s1);
        SquareLoop(g, ts, isItem, item.0, item.1)
  }

  /** One element after a comma in `parse_square`. */
  function SquareItem(g: Grammar, ts: seq<Token>, isItem: bool, al: ArgList, s: State)
    : (r: Result<(ArgList, State), SyntaxError>)
    requires s.pos <= |ts| && ArgsInterned(al, s.cache)
    ensures r.Success? ==> Moved(ts, s, r.value.1) && ArgsInterned(r.value.0, r.value.1.cache)
    ensures r.Success? ==> r.value.0 == al.(args := r.value.0.args) && |r.value.0.args| == |al.args| + 1
    ensures r.Success? ==> al.args <= r.value.0.args
    decreases |ts| - s.pos, 9
  {
    var e :- Component(g, ts, isItem, s);
    ArgsExtends(al, s.cache, e.1.cache);
    Success((al.(args := al.args + [e.0]), e.1))
  }

  /** One element inside brackets: a slice component after an object, otherwise an expression. */
  function Component(g: Grammar, ts: seq<Token>, isItem: bool, s: State): (r: Result<(Node, State), SyntaxError>)
    requires s.pos <= |ts|
    ensures r.Success? ==> Moved(ts, s, r.value.1) && Interned(r.value.0, r.value.1.cache)
    decreases |ts| - s.pos, 8
  {
    if isItem then Slice(g, ts, s) else Expr(g, ts, s, 0)
  }

  /** `parse_slice`: one bracket component, a slice when it holds a colon. */
  function Slice(g: Grammar, ts: seq<Token>, s: State): (r: Result<(Node, State), SyntaxError>)
    requires s.pos <= |ts|
    ensures r.Success? ==> Moved(ts, s, r.value.1) && Interned(r.value.0, r.value.1.cache)
    decreases |ts| - s.pos, 7
  {
    SliceClose(Cur(ts, s.pos).position, SliceLoop(g, ts, SliceParts([], false, 0), s))
  }

  /** The three parts of a slice: the given ones, then `None` for each missing one. */
  function Pad3(parts: seq<Node>): (r: seq<Node>)
    requires |parts| <= 3
    ensures |r| == 3 && r[..|parts|] == parts
    ensures forall i :: |parts| <= i < 3 ==> r[i] == NoneNode
  {
    parts + seq(3 - |parts|, _ => NoneNode)
  }

  /** The end of `parse_slice`: the slice triple or the single expression, or the error. */
  function SliceClose(cur: int, r: Result<(SliceParts, State), SyntaxError>): Result<(Node, State), SyntaxError> {
    var (sp, s) :- r;
    if sp.isSlice then
      if |sp.parts| > 3 then Failure(TooManySliceParts(cur))
      else if sp.colons > 2 then Failure(TooManyColons(cur))
      else
        var p := Pad3(sp.parts);
        Success((SliceNode(p[0], p[1], p[2]), s))
    else if |sp.parts| != 1 then Failure(MalformedSliceComponent(cur))
    else Success((sp.parts[0], s))
  }

  /** The loop of `parse_slice`, up to a `,` or `]`. */
  function SliceLoop(g: Grammar, ts: seq<Token>, sp: SliceParts, s: State): (r: Result<(SliceParts, State), SyntaxError>)
    requires s.pos <= |ts| && AllInterned(sp.parts, s.cache)
    ensures r.Success? ==> Moved(ts, s, r.value.1) && AllInterned(r.value.0.parts, r.value.1.cache)
    decreases |ts| - s.pos, 6
  {
    var t := Cur(ts, s.pos);
    if t.kind.COMMA? || t.kind.RSQUARE? then Success((sp, s))
    else if t.kind.COLON? then
      SliceLoop(g, ts, SliceParts(sp.parts + [NoneNode], true, sp.colons + 1), Next(s))
    else
      var item :- SliceItem(g, ts, sp, s);
      SliceLoop(g, ts, item.0, item.1)
  }

  /** An expression inside `parse_slice`, with the colon after it if there is one. */
  function SliceItem(g: Grammar, ts: seq<Token>, sp: SliceParts, s: State): (r: Result<(SliceParts, State), SyntaxError>)
    requires s.pos <= |ts| && AllInterned(sp.parts, s.cache)
    ensures r.Success? ==> s.pos < r.value.1.pos && Moved(ts, s, r.value.1) && AllInterned(r.value.0.parts, r.value.1.cache)
    decreases |ts| - s.pos, 5
  {
    var e :- Expr(g, ts, s, 0);
    var (node, s1) := e;
    AllExtends(sp.parts, s.cache, s1.cache);
    if Cur(ts, s1.pos).kind.COLON? then
      Success((SliceParts(sp.parts + [node], true, sp.colons + 1), Next(s1)))
    else
      Success((SliceParts(sp.parts + [node], sp.isSlice, sp.colons), s1))
  }

  /** `parse`: a whole expression that must be followed by EOF; a stream that is only EOF is empty. */
  function ParseTokens(g: Grammar, ts: seq<Token>): (r: Result<Node, SyntaxError>)
  {
    if Cur(ts, 0).kind.EOF? then Failure(EmptyExpression)
    else
      var e :- Expr(g, ts, State(0, map[]), 0);
      var t := Cur(ts, e.1.pos);
      if !t.kind.EOF? then Failure(UnexpectedToken(t.position)) else Success(e.0)
  }

  /** `Parser.parse`: lex the text with the registered lexemes, then parse the tokens with a fresh cache. */
  function ParseText(g: Grammar, ops: set<string>, text: string): Result<Node, SyntaxError> {
    var ts :- Tokenize(ops, text);
    ParseTokens(g, ts)
  }
}
