/**
 * Properties of the parser functions: whole-stream acceptance, the grouping
 * that precedence climbing produces, the arity errors of operator tokens,
 * identifier sharing, and the shapes of parentheses, calls and brackets.
 * Concrete formulas are written as the token streams the lexer makes of them.
 */
module ParserProps {
  import opened Wrappers
  import opened Errors
  import opened LexSpec
  import opened ParseTree
  import opened ParserSpec
  import OpManager

  function Num(n: int, p: int): Token { Token(NUMBER(IntValue(n)), p) }
  function Op(op: string, p: int): Token { Token(OPERATOR(op), p) }
  function Id(name: string, p: int): Token { Token(IDENTIFIER(name), p) }
  function Tok(kind: TokenKind, p: int): Token { Token(kind, p) }

  function Int(n: int): Node { NumberNode(IntValue(n)) }

  /** The tables of a parser right after construction. */
  predicate PredefinedGrammar(g: Grammar) {
    && (forall op :: op in OpManager.PredefinedBinaryOperators ==>
         op in g.precedences && g.precedences[op] == OpManager.PredefinedBinaryOperators[op].1)
    && g.unaryOps == OpManager.PredefinedUnaryOperators.Keys
  }

  /** A freshly built registry gives the predefined grammar, and no lexeme is empty. */
  lemma FreshTables(m: OpManager.OperatorManager)
    requires m.Valid()
    requires m.binaryOps == OpManager.PredefinedBinaryOperators.Keys
    requires forall op :: op in OpManager.PredefinedBinaryOperators ==>
      m.binaryPrecedences[op] == OpManager.PredefinedBinaryOperators[op].1
    requires m.unaryOps == OpManager.PredefinedUnaryOperators.Keys
    ensures PredefinedGrammar(Grammar(m.binaryPrecedences, m.unaryOps))
    ensures "" !in m.binaryOps + m.unaryOps
  {
    OpManager.PredefinedNonEmpty();
    forall op | op in OpManager.PredefinedBinaryOperators
      ensures op in m.binaryPrecedences && m.binaryPrecedences[op] == OpManager.PredefinedBinaryOperators[op].1
    {
      assert op in m.binaryOps;
    }
  }

  /** The precedences of the predefined grammar that the examples below use. */
  lemma PredefinedFacts(g: Grammar)
    requires PredefinedGrammar(g)
    ensures "+" in g.precedences && g.precedences["+"] == 16000
    ensures "-" in g.precedences && g.precedences["-"] == 16000
    ensures "*" in g.precedences && g.precedences["*"] == 17000
    ensures "/" in g.precedences && g.precedences["/"] == 17000
    ensures "@" in g.precedences && g.precedences["@"] == 17000
    ensures "-" in g.unaryOps && "%" !in g.unaryOps
  {
    OpManager.PredefinedPrecedenceLayers();
    OpManager.PredefinedBinaryLexemes();
    OpManager.PredefinedSharedLexemes();
    assert "+" in OpManager.PredefinedBinaryOperators && "-" in OpManager.PredefinedBinaryOperators;
    assert "*" in OpManager.PredefinedBinaryOperators && "/" in OpManager.PredefinedBinaryOperators;
    assert "@" in OpManager.PredefinedBinaryOperators;
  }

  // ----- whole streams -----

  /** A stream whose first token is EOF is an empty expression. */
  lemma EmptyStream(g: Grammar, ts: seq<Token>)
    requires Cur(ts, 0).kind.EOF?
    ensures ParseTokens(g, ts) == Failure(EmptyExpression)
  {
  }

  /**
   * On a stream that holds EOF only as its last token (as the lexer makes
   * them), a parse succeeds exactly when the first token is not EOF and the
   * expression parsed from the start stops at that last token.
   */
  lemma CompleteParse(g: Grammar, ts: seq<Token>)
    requires EndsWithEOF(ts) && forall i :: 0 <= i < |ts| - 1 ==> !ts[i].kind.EOF?
    ensures ParseTokens(g, ts).Success? <==>
      && !ts[0].kind.EOF?
      && var e := Expr(g, ts, State(0, map[]), 0);
         e.Success? && e.value.1.pos == |ts| - 1
    ensures ParseTokens(g, ts).Success? ==>
      ParseTokens(g, ts).value == Expr(g, ts, State(0, map[]), 0).value.0
  {
    var e := Expr(g, ts, State(0, map[]), 0);
    if !ts[0].kind.EOF? && e.Success? {
      assert e.value.1.pos < |ts|;
      if e.value.1.pos != |ts| - 1 {
        assert !ts[e.value.1.pos].kind.EOF?;
      }
    }
  }

  // ----- precedence climbing -----

  /** A number followed by something that is not a postfix is an operand of its own. */
  lemma NumberOperand(g: Grammar, ts: seq<Token>, s: State)
    requires s.pos < |ts| && ts[s.pos].kind.NUMBER? && EndsOperand(Cur(ts, s.pos + 1))
    ensures Unary(g, ts, s) == Success((NumberNode(ts[s.pos].kind.number), Next(s)))
  {
    var x := NumberNode(ts[s.pos].kind.number);
    assert Atom(g, ts, s) == Success((x, Next(s)));
    assert Postfix(g, ts, x, Next(s)) == Success((x, Next(s)));
    assert Primary(g, ts, s) == Success((x, Next(s)));
  }

  /** The three numbers and two operator tokens of `a op1 b op2 c`, then EOF. */
  predicate ThreeOperands(ts: seq<Token>) {
    && |ts| == 6
    && ts[0].kind.NUMBER? && ts[2].kind.NUMBER? && ts[4].kind.NUMBER?
    && ts[1].kind.OPERATOR? && ts[3].kind.OPERATOR? && ts[5].kind.EOF?
  }

  /**
   * `a op1 b op2 c`: with `op2` binding no tighter than `op1` the left pair
   * groups first; with `op2` binding tighter, the right pair does.
   */
  lemma TwoOperators(g: Grammar, ts: seq<Token>)
    requires ThreeOperands(ts)
    requires ts[1].kind.op in g.precedences && g.precedences[ts[1].kind.op] > 0
    requires ts[3].kind.op in g.precedences && g.precedences[ts[3].kind.op] > 0
    ensures var (op1, op2) := (ts[1].kind.op, ts[3].kind.op);
      var (a, b, c) := (NumberNode(ts[0].kind.number), NumberNode(ts[2].kind.number), NumberNode(ts[4].kind.number));
      && (g.precedences[op2] <= g.precedences[op1] ==>
           ParseTokens(g, ts) == Success(BinaryOpNode(op2, BinaryOpNode(op1, a, b), c)))
      && (g.precedences[op1] < g.precedences[op2] ==>
           ParseTokens(g, ts) == Success(BinaryOpNode(op1, a, BinaryOpNode(op2, b, c))))
  {
    var (op1, op2) := (ts[1].kind.op, ts[3].kind.op);
    var (a, b, c) := (NumberNode(ts[0].kind.number), NumberNode(ts[2].kind.number), NumberNode(ts[4].kind.number));
    var p1, p2 := g.precedences[op1], g.precedences[op2];
    var e := map[];
    NumberOperand(g, ts, State(0, e));
    NumberOperand(g, ts, State(2, e));
    NumberOperand(g, ts, State(4, e));
    assert Expr(g, ts, State(4, e), p2) == Success((c, State(5, e)));
    if p2 <= p1 {
      assert Expr(g, ts, State(2, e), p1) == Success((b, State(3, e)));
      var left := BinaryOpNode(op1, a, b);
      assert ExprLoop(g, ts, BinaryOpNode(op2, left, c), State(5, e), 0) == Success((BinaryOpNode(op2, left, c), State(5, e)));
      assert ExprLoop(g, ts, left, State(3, e), 0) == Success((BinaryOpNode(op2, left, c), State(5, e)));
      assert Expr(g, ts, State(0, e), 0) == Success((BinaryOpNode(op2, left, c), State(5, e)));
    } else {
      var right := BinaryOpNode(op2, b, c);
      assert ExprLoop(g, ts, b, State(3, e), p1) == Success((right, State(5, e)));
      assert Expr(g, ts, State(2, e), p1) == Success((right, State(5, e)));
      assert ExprLoop(g, ts, BinaryOpNode(op1, a, right), State(5, e), 0) == Success((BinaryOpNode(op1, a, right), State(5, e)));
      assert Expr(g, ts, State(0, e), 0) == Success((BinaryOpNode(op1, a, right), State(5, e)));
    }
  }

  /** `10 / 2 - 3` groups as `(10 / 2) - 3`. */
  lemma DivisionBeforeSubtraction(g: Grammar)
    requires PredefinedGrammar(g)
    ensures ParseTokens(g, [Num(10, 0), Op("/", 3), Num(2, 5), Op("-", 7), Num(3, 9), Tok(EOF, 10)])
      == Success(BinaryOpNode("-", BinaryOpNode("/", Int(10), Int(2)), Int(3)))
  {
    PredefinedFacts(g);
    TwoOperators(g, [Num(10, 0), Op("/", 3), Num(2, 5), Op("-", 7), Num(3, 9), Tok(EOF, 10)]);
  }

  /** `2 + 3 * 4` groups as `2 + (3 * 4)`. */
  lemma MultiplicationBeforeAddition(g: Grammar)
    requires PredefinedGrammar(g)
    ensures ParseTokens(g, [Num(2, 0), Op("+", 2), Num(3, 4), Op("*", 6), Num(4, 8), Tok(EOF, 9)])
      == Success(BinaryOpNode("+", Int(2), BinaryOpNode("*", Int(3), Int(4))))
  {
    PredefinedFacts(g);
    TwoOperators(g, [Num(2, 0), Op("+", 2), Num(3, 4), Op("*", 6), Num(4, 8), Tok(EOF, 9)]);
  }

  /** A number that an operand-ending token follows is a whole expression at any binding level. */
  lemma NumberExpr(g: Grammar, ts: seq<Token>, s: State, minPrec: int)
    requires s.pos < |ts| && ts[s.pos].kind.NUMBER? && EndsOperand(Cur(ts, s.pos + 1))
    requires !Cur(ts, s.pos + 1).kind.OPERATOR?
    ensures Expr(g, ts, s, minPrec) == Success((NumberNode(ts[s.pos].kind.number), Next(s)))
  {
    NumberOperand(g, ts, s);
  }

  /**
   * From offset `i`: the operator lexemes `ops`, each of precedence `p` and
   * each followed by the number of the same index in `nums`, then a token
   * that is neither an operator nor continues the last operand.
   */
  predicate SameLevelRun(g: Grammar, ts: seq<Token>, i: nat, ops: seq<string>, nums: seq<NumberValue>, p: int)
    decreases |ops|
  {
    && |ops| == |nums|
    && if |ops| == 0 then !Cur(ts, i).kind.OPERATOR? && EndsOperand(Cur(ts, i))
       else
         && Cur(ts, i).kind == OPERATOR(ops[0]) && ops[0] in g.precedences && g.precedences[ops[0]] == p
         && Cur(ts, i + 1).kind == NUMBER(nums[0])
         && SameLevelRun(g, ts, i + 2, ops[1..], nums[1..], p)
  }

  /** The number nodes of a run's operands, in order. */
  function NumberNodes(nums: seq<NumberValue>): (r: seq<Node>)
    ensures |r| == |nums|
  {
    if |nums| == 0 then [] else [NumberNode(nums[0])] + NumberNodes(nums[1..])
  }

  /** `a o1 x1 o2 x2 ... on xn` grouped to the left: the last operator is the root. */
  function LeftFold(a: Node, ops: seq<string>, xs: seq<Node>): Node
    requires |ops| == |xs|
    decreases |ops|
  {
    if |ops| == 0 then a
    else BinaryOpNode(ops[|ops| - 1], LeftFold(a, ops[..|ops| - 1], xs[..|xs| - 1]), xs[|xs| - 1])
  }

  /** Folding `a o x` first and then the rest is folding everything from `a`. */
  lemma {:induction false} FoldFirst(a: Node, o: string, x: Node, ops: seq<string>, xs: seq<Node>)
    requires |ops| == |xs|
    ensures LeftFold(BinaryOpNode(o, a, x), ops, xs) == LeftFold(a, [o] + ops, [x] + xs)
    decreases |ops|
  {
    if |ops| > 0 {
      var n := |ops| - 1;
      FoldFirst(a, o, x, ops[..n], xs[..n]);
      assert ([o] + ops)[..n + 1] == [o] + ops[..n];
      assert ([x] + xs)[..n + 1] == [x] + xs[..n];
    }
  }

  /** The right operand of an operator in a same-level run is the number after it alone. */
  lemma RunOperand(g: Grammar, ts: seq<Token>, s: State, ops: seq<string>, nums: seq<NumberValue>, p: int)
    requires |ops| > 0 && SameLevelRun(g, ts, s.pos, ops, nums, p)
    ensures Expr(g, ts, Next(s), p) == Success((NumberNode(nums[0]), State(s.pos + 2, s.cache)))
  {
    assert SameLevelRun(g, ts, s.pos + 2, ops[1..], nums[1..], p);
    NumberOperand(g, ts, Next(s));
  }

  /** One turn of the precedence-climbing loop at a binary operator that binds tighter than `minPrec`. */
  lemma LoopTurn(g: Grammar, ts: seq<Token>, a: Node, s: State, minPrec: int, x: Node, t: State)
    requires s.pos <= |ts| && Interned(a, s.cache)
    requires Cur(ts, s.pos).kind.OPERATOR? && Cur(ts, s.pos).kind.op in g.precedences
    requires minPrec < g.precedences[Cur(ts, s.pos).kind.op]
    requires Expr(g, ts, Next(s), g.precedences[Cur(ts, s.pos).kind.op]) == Success((x, t))
    ensures t.pos <= |ts| && Interned(BinaryOpNode(Cur(ts, s.pos).kind.op, a, x), t.cache)
    ensures ExprLoop(g, ts, a, s, minPrec) == ExprLoop(g, ts, BinaryOpNode(Cur(ts, s.pos).kind.op, a, x), t, minPrec)
  {
    InternedExtends(a, s.cache, t.cache);
  }

  /** A same-level run with no operators ends the loop where it starts. */
  lemma SameLevelEnd(g: Grammar, ts: seq<Token>, a: Node, s: State, minPrec: int, p: int)
    requires s.pos <= |ts| && SameLevelRun(g, ts, s.pos, [], [], p) && Interned(a, s.cache)
    ensures ExprLoop(g, ts, a, s, minPrec) == Success((a, s))
  {
  }

  /** Past the first operator and number of a non-empty same-level run, the rest of the run follows. */
  lemma SameLevelTail(g: Grammar, ts: seq<Token>, a: Node, s: State, ops: seq<string>, nums: seq<NumberValue>, p: int)
    requires |ops| > 0 && s.pos <= |ts| && SameLevelRun(g, ts, s.pos, ops, nums, p) && Interned(a, s.cache)
    ensures s.pos + 2 <= |ts| && SameLevelRun(g, ts, s.pos + 2, ops[1..], nums[1..], p)
    ensures Interned(BinaryOpNode(ops[0], a, NumberNode(nums[0])), s.cache)
  {
    RunOperand(g, ts, s, ops, nums, p);
  }

  /** The first turn of the loop over a same-level run, followed by the loop over the rest of the run. */
  lemma SameLevelStep(g: Grammar, ts: seq<Token>, a: Node, s: State, minPrec: int,
                      ops: seq<string>, nums: seq<NumberValue>, p: int)
    requires |ops| > 0 && s.pos <= |ts| && SameLevelRun(g, ts, s.pos, ops, nums, p) && minPrec < p && Interned(a, s.cache)
    requires s.pos + 2 <= |ts| && Interned(BinaryOpNode(ops[0], a, NumberNode(nums[0])), s.cache)
    requires ExprLoop(g, ts, BinaryOpNode(ops[0], a, NumberNode(nums[0])), State(s.pos + 2, s.cache), minPrec)
      == Success((LeftFold(BinaryOpNode(ops[0], a, NumberNode(nums[0])), ops[1..], NumberNodes(nums[1..])),
                  State(s.pos + 2 + 2 * |ops[1..]|, s.cache)))
    ensures ExprLoop(g, ts, a, s, minPrec) == Success((LeftFold(a, ops, NumberNodes(nums)), State(s.pos + 2 * |ops|, s.cache)))
  {
    RunOperand(g, ts, s, ops, nums, p);
    LoopTurn(g, ts, a, s, minPrec, NumberNode(nums[0]), State(s.pos + 2, s.cache));
    FoldRun(a, ops, nums);
  }

  /** Folding the first operator and number of a run, then the rest, is folding the whole run. */
  lemma FoldRun(a: Node, ops: seq<string>, nums: seq<NumberValue>)
    requires |ops| == |nums| > 0
    ensures LeftFold(BinaryOpNode(ops[0], a, NumberNode(nums[0])), ops[1..], NumberNodes(nums[1..]))
      == LeftFold(a, ops, NumberNodes(nums))
  {
    FoldFirst(a, ops[0], NumberNode(nums[0]), ops[1..], NumberNodes(nums[1..]));
    assert [ops[0]] + ops[1..] == ops;
  }

  /**
   * The loop of precedence climbing over a run of operators that share one
   * precedence above `minPrec`: the operands group to the left, for any
   * number of operators.
   */
  lemma {:induction false} SameLevelLoop(g: Grammar, ts: seq<Token>, a: Node, s: State, minPrec: int,
                                         ops: seq<string>, nums: seq<NumberValue>, p: int)
    requires s.pos <= |ts| && SameLevelRun(g, ts, s.pos, ops, nums, p) && minPrec < p && Interned(a, s.cache)
    ensures ExprLoop(g, ts, a, s, minPrec) == Success((LeftFold(a, ops, NumberNodes(nums)), State(s.pos + 2 * |ops|, s.cache)))
    decreases |ops|
  {
    if |ops| == 0 {
      SameLevelEnd(g, ts, a, s, minPrec, p);
    } else {
      SameLevelTail(g, ts, a, s, ops, nums, p);
      SameLevelLoop(g, ts, BinaryOpNode(ops[0], a, NumberNode(nums[0])), State(s.pos + 2, s.cache), minPrec, ops[1..], nums[1..], p);
      SameLevelStep(g, ts, a, s, minPrec, ops, nums, p);
    }
  }

  /** A number followed by a same-level run and EOF parses to the left-grouped tree. */
  lemma SameLevelGroupsLeft(g: Grammar, ts: seq<Token>, first: NumberValue, ops: seq<string>, nums: seq<NumberValue>, p: int)
    requires Cur(ts, 0).kind == NUMBER(first) && SameLevelRun(g, ts, 1, ops, nums, p) && p > 0
    requires Cur(ts, 1 + 2 * |ops|).kind.EOF?
    ensures ParseTokens(g, ts) == Success(LeftFold(NumberNode(first), ops, NumberNodes(nums)))
  {
    var e := map[];
    var a := NumberNode(first);
    assert EndsOperand(Cur(ts, 1)) by {
      if |ops| > 0 { assert Cur(ts, 1).kind.OPERATOR?; }
    }
    NumberOperand(g, ts, State(0, e));
    SameLevelLoop(g, ts, a, State(1, e), 0, ops, nums, p);
  }

  // ----- operator arity -----

  /** An operator lexeme in infix position that is not a binary operator is rejected at its offset. */
  lemma NotBinary(g: Grammar, ts: seq<Token>)
    requires |ts| == 4 && ts[0].kind.NUMBER? && ts[1].kind.OPERATOR? && ts[2].kind.NUMBER? && ts[3].kind.EOF?
    requires ts[1].kind.op !in g.precedences
    ensures ParseTokens(g, ts) == Failure(NotBinaryOperator(ts[1].position))
  {
    var x := NumberNode(ts[0].kind.number);
    NumberOperand(g, ts, State(0, map[]));
    assert ExprLoop(g, ts, x, State(1, map[]), 0) == Failure(NotBinaryOperator(ts[1].position));
    assert Expr(g, ts, State(0, map[]), 0) == Failure(NotBinaryOperator(ts[1].position));
  }

  /** An operator lexeme in prefix position that is not a unary operator is rejected at its offset. */
  lemma NotUnary(g: Grammar, ts: seq<Token>)
    requires |ts| == 3 && ts[0].kind.OPERATOR? && ts[1].kind.NUMBER? && ts[2].kind.EOF?
    requires ts[0].kind.op !in g.unaryOps
    ensures ParseTokens(g, ts) == Failure(NotUnaryOperator(ts[0].position))
  {
    assert Unary(g, ts, State(0, map[])) == Failure(NotUnaryOperator(ts[0].position));
    assert Expr(g, ts, State(0, map[]), 0) == Failure(NotUnaryOperator(ts[0].position));
  }

  /** An identifier is an atom: the cached node of its name, or a new one in the next slot. */
  lemma IdentifierAtom(g: Grammar, ts: seq<Token>, s: State)
    requires s.pos < |ts| && ts[s.pos].kind.IDENTIFIER?
    ensures var n := ts[s.pos].kind.name;
      Atom(g, ts, s) == Success((IdentifierNode(n, Intern(s.cache, n).0), State(s.pos + 1, Intern(s.cache, n).1)))
  {
  }

  /**
   * `a op1 op2 ...` where `op1` is binary and `op2` is not unary: the right
   * operand cannot start, so the formula is rejected at `op2`.
   */
  lemma OperatorAfterBinary(g: Grammar, ts: seq<Token>)
    requires |ts| >= 3 && ts[0].kind.IDENTIFIER? && ts[1].kind.OPERATOR? && ts[2].kind.OPERATOR?
    requires ts[1].kind.op in g.precedences && g.precedences[ts[1].kind.op] > 0
    requires ts[2].kind.op !in g.unaryOps
    ensures ParseTokens(g, ts) == Failure(NotUnaryOperator(ts[2].position))
  {
    var n := ts[0].kind.name;
    var x := IdentifierNode(n, 0);
    var c := map[n := 0];
    IdentifierAtom(g, ts, State(0, map[]));
    assert Postfix(g, ts, x, State(1, c)) == Success((x, State(1, c)));
    assert Unary(g, ts, State(0, map[])) == Success((x, State(1, c)));
    assert Unary(g, ts, State(2, c)) == Failure(NotUnaryOperator(ts[2].position));
    assert ExprLoop(g, ts, x, State(1, c), 0) == Failure(NotUnaryOperator(ts[2].position));
    assert Expr(g, ts, State(0, map[]), 0) == Failure(NotUnaryOperator(ts[2].position));
  }

  /** `a @%@ b` lexes as `a`, `@`, `%`, `@`, `b`, and `%` is not a prefix operator. */
  lemma AtPercentAtRejected(g: Grammar)
    requires PredefinedGrammar(g)
    ensures ParseTokens(g, [Id("a", 0), Op("@", 2), Op("%", 3), Op("@", 4), Id("b", 6), Tok(EOF, 7)])
      == Failure(NotUnaryOperator(3))
  {
    PredefinedFacts(g);
    OperatorAfterBinary(g, [Id("a", 0), Op("@", 2), Op("%", 3), Op("@", 4), Id("b", 6), Tok(EOF, 7)]);
  }

  /** A string, number or identifier right after a primary is rejected at its offset. */
  lemma AdjacentOperands(g: Grammar, ts: seq<Token>)
    requires |ts| == 3 && ts[0].kind.NUMBER? && ts[2].kind.EOF?
    requires ts[1].kind.STRING? || ts[1].kind.NUMBER? || ts[1].kind.IDENTIFIER?
    ensures ParseTokens(g, ts) == Failure(UnexpectedToken(ts[1].position))
  {
    var x := NumberNode(ts[0].kind.number);
    assert Atom(g, ts, State(0, map[])) == Success((x, State(1, map[])));
    assert Postfix(g, ts, x, State(1, map[])) == Failure(UnexpectedToken(ts[1].position));
    assert Unary(g, ts, State(0, map[])) == Failure(UnexpectedToken(ts[1].position));
    assert Expr(g, ts, State(0, map[]), 0) == Failure(UnexpectedToken(ts[1].position));
  }

  /** A token left over after a complete expression is rejected at its offset. */
  lemma TrailingToken(g: Grammar, ts: seq<Token>)
    requires |ts| == 3 && ts[0].kind.NUMBER? && ts[2].kind.EOF?
    requires ts[1].kind.RPAREN? || ts[1].kind.RSQUARE? || ts[1].kind.COMMA? || ts[1].kind.COLON? || ts[1].kind.ASSIGNMENT?
    ensures ParseTokens(g, ts) == Failure(UnexpectedToken(ts[1].position))
  {
    NumberExpr(g, ts, State(0, map[]), 0);
  }

  // ----- parentheses -----

  /** After a first argument the argument list is whatever the comma loop makes of it. */
  lemma ArgsAfterFirst(g: Grammar, ts: seq<Token>, isCall: bool, s: State, al: ArgList, s1: State)
    requires s.pos <= |ts| && !Cur(ts, s.pos).kind.RPAREN?
    requires ParenFirst(g, ts, isCall, s) == Success((al, s1))
    ensures ParenArgs(g, ts, isCall, s) == ParenLoop(g, ts, isCall, al, s1)
  {
  }

  /** An error inside the argument list is the error of the whole parenthesis. */
  lemma ParenError(g: Grammar, ts: seq<Token>, func: Option<Node>, s: State, e: SyntaxError)
    requires s.pos < |ts| && ts[s.pos].kind.LPAREN? && (func.Some? ==> Interned(func.value, s.cache))
    requires ParenArgs(g, ts, func.Some?, Next(s)) == Failure(e)
    ensures Paren(g, ts, func, s) == Failure(e)
  {
  }

  /** `(x)`: one element without a trailing comma is the element itself. */
  lemma Grouping(g: Grammar, ts: seq<Token>, s: State, x: Node, s1: State)
    requires s.pos < |ts| && ts[s.pos].kind.LPAREN? && !Cur(ts, s.pos + 1).kind.RPAREN?
    requires Expr(g, ts, Next(s), 0) == Success((x, s1)) && Cur(ts, s1.pos).kind.RPAREN?
    ensures Paren(g, ts, None, s) == Success((x, Next(s1)))
  {
    assert ParenFirst(g, ts, false, Next(s)) == Success((ArgList([x], [], false), s1));
    assert ParenArgs(g, ts, false, Next(s)) == Success((ArgList([x], [], false), s1));
  }

  /** `(x,)`: a trailing comma makes a one-element tuple. */
  lemma SingletonTuple(g: Grammar, ts: seq<Token>, s: State, x: Node, s1: State)
    requires s.pos < |ts| && ts[s.pos].kind.LPAREN? && !Cur(ts, s.pos + 1).kind.RPAREN?
    requires Expr(g, ts, Next(s), 0) == Success((x, s1))
    requires Cur(ts, s1.pos).kind.COMMA? && Cur(ts, s1.pos + 1).kind.RPAREN?
    ensures Paren(g, ts, None, s) == Success((TupleNode([x]), State(s1.pos + 2, s1.cache)))
  {
    var al := ArgList([x], [], false);
    assert ParenFirst(g, ts, false, Next(s)) == Success((al, s1));
    assert ParenLoop(g, ts, false, al.(extraComma := true), Next(s1)) == Success((al.(extraComma := true), Next(s1)));
    assert ParenArgs(g, ts, false, Next(s)) == Success((al.(extraComma := true), Next(s1)));
  }

  /** `()`: no elements make the empty tuple. */
  lemma EmptyTuple(g: Grammar, ts: seq<Token>, s: State)
    requires s.pos < |ts| && ts[s.pos].kind.LPAREN? && Cur(ts, s.pos + 1).kind.RPAREN?
    ensures Paren(g, ts, None, s) == Success((TupleNode([]), State(s.pos + 2, s.cache)))
  {
    assert ParenArgs(g, ts, false, Next(s)) == Success((ArgList([], [], false), Next(s)));
  }

  /** `(x, y)`: two elements make a pair, in order. */
  lemma PairTuple(g: Grammar, ts: seq<Token>, s: State, x: Node, s1: State, y: Node, s2: State)
    requires s.pos < |ts| && ts[s.pos].kind.LPAREN? && !Cur(ts, s.pos + 1).kind.RPAREN?
    requires Expr(g, ts, Next(s), 0) == Success((x, s1))
    requires Cur(ts, s1.pos).kind.COMMA? && !Cur(ts, s1.pos + 1).kind.RPAREN?
    requires Expr(g, ts, Next(s1), 0) == Success((y, s2)) && Cur(ts, s2.pos).kind.RPAREN?
    ensures Paren(g, ts, None, s) == Success((TupleNode([x, y]), Next(s2)))
  {
    var al := ArgList([x], [], false);
    assert ParenFirst(g, ts, false, Next(s)) == Success((al, s1));
    assert [x] + [y] == [x, y];
    assert ParenItem(g, ts, false, al, Next(s1)) == Success((ArgList([x, y], [], false), s2));
    assert ParenLoop(g, ts, false, ArgList([x, y], [], false), s2) == Success((ArgList([x, y], [], false), s2));
    assert ParenLoop(g, ts, false, al, s1) == Success((ArgList([x, y], [], false), s2));
  }

  /** `(n = v)`: outside a call `=` is not a keyword argument, and the parenthesis is left open. */
  lemma AssignmentInGroup(g: Grammar, ts: seq<Token>, s: State, x: Node, s1: State)
    requires s.pos < |ts| && ts[s.pos].kind.LPAREN? && !Cur(ts, s.pos + 1).kind.RPAREN?
    requires Expr(g, ts, Next(s), 0) == Success((x, s1)) && Cur(ts, s1.pos).kind.ASSIGNMENT?
    ensures Paren(g, ts, None, s) == Failure(MissingRParen(ts[s.pos].position))
  {
    assert ParenFirst(g, ts, false, Next(s)) == Success((ArgList([x], [], false), s1));
    assert ParenArgs(g, ts, false, Next(s)) == Success((ArgList([x], [], false), s1));
  }

  // ----- calls -----

  /** `f(x)`: one positional argument. */
  lemma CallOne(g: Grammar, ts: seq<Token>, f: Node, s: State, x: Node, s1: State)
    requires s.pos < |ts| && ts[s.pos].kind.LPAREN? && !Cur(ts, s.pos + 1).kind.RPAREN?
    requires Interned(f, s.cache)
    requires Expr(g, ts, Next(s), 0) == Success((x, s1)) && Cur(ts, s1.pos).kind.RPAREN?
    ensures Paren(g, ts, Some(f), s) == Success((FunctionCallNode(f, [x], []), Next(s1)))
  {
    assert ParenFirst(g, ts, true, Next(s)) == Success((ArgList([x], [], false), s1));
    assert ParenArgs(g, ts, true, Next(s)) == Success((ArgList([x], [], false), s1));
  }

  /** `f(x,)`: a trailing comma in a call is accepted. */
  lemma CallTrailingComma(g: Grammar, ts: seq<Token>, f: Node, s: State, x: Node, s1: State)
    requires s.pos < |ts| && ts[s.pos].kind.LPAREN? && !Cur(ts, s.pos + 1).kind.RPAREN?
    requires Interned(f, s.cache)
    requires Expr(g, ts, Next(s), 0) == Success((x, s1))
    requires Cur(ts, s1.pos).kind.COMMA? && Cur(ts, s1.pos + 1).kind.RPAREN?
    ensures Paren(g, ts, Some(f), s) == Success((FunctionCallNode(f, [x], []), State(s1.pos + 2, s1.cache)))
  {
    var al := ArgList([x], [], false);
    assert ParenFirst(g, ts, true, Next(s)) == Success((al, s1));
    assert ParenLoop(g, ts, true, al.(extraComma := true), Next(s1)) == Success((al.(extraComma := true), Next(s1)));
    assert ParenArgs(g, ts, true, Next(s)) == Success((al.(extraComma := true), Next(s1)));
  }

  /** `f(n = v)`: in a call, a bare name before `=` makes a keyword argument. */
  lemma CallKeyword(g: Grammar, ts: seq<Token>, f: Node, s: State, n: string, k: nat, s1: State, v: Node, s2: State)
    requires s.pos < |ts| && ts[s.pos].kind.LPAREN? && !Cur(ts, s.pos + 1).kind.RPAREN?
    requires Interned(f, s.cache)
    requires Expr(g, ts, Next(s), 0) == Success((IdentifierNode(n, k), s1)) && Cur(ts, s1.pos).kind.ASSIGNMENT?
    requires Expr(g, ts, Next(s1), 0) == Success((v, s2)) && Cur(ts, s2.pos).kind.RPAREN?
    ensures Paren(g, ts, Some(f), s) == Success((FunctionCallNode(f, [], [Kwarg(n, v)]), Next(s2)))
  {
    var al := ArgList([], [Kwarg(n, v)], false);
    KeywordFirst(g, ts, Next(s), n, k, s1, v, s2);
    assert ParenArgs(g, ts, true, Next(s)) == Success((al, s2));
  }

  /** The first argument `n = v` of a call is a keyword argument. */
  lemma KeywordFirst(g: Grammar, ts: seq<Token>, s: State, n: string, k: nat, s1: State, v: Node, s2: State)
    requires s.pos <= |ts|
    requires Expr(g, ts, s, 0) == Success((IdentifierNode(n, k), s1)) && Cur(ts, s1.pos).kind.ASSIGNMENT?
    requires Expr(g, ts, Next(s1), 0) == Success((v, s2))
    ensures ParenFirst(g, ts, true, s) == Success((ArgList([], [Kwarg(n, v)], false), s2))
  {
  }

  /** A call whose first argument is `n = v`: the argument list continues from one keyword argument. */
  lemma KeywordArgs(g: Grammar, ts: seq<Token>, s: State, n: string, k: nat, s1: State, v: Node, s2: State)
    requires s.pos <= |ts| && !Cur(ts, s.pos).kind.RPAREN?
    requires Expr(g, ts, s, 0) == Success((IdentifierNode(n, k), s1)) && Cur(ts, s1.pos).kind.ASSIGNMENT?
    requires Expr(g, ts, Next(s1), 0) == Success((v, s2))
    ensures ParenArgs(g, ts, true, s) == ParenLoop(g, ts, true, ArgList([], [Kwarg(n, v)], false), s2)
  {
    KeywordFirst(g, ts, s, n, k, s1, v, s2);
    ArgsAfterFirst(g, ts, true, s, ArgList([], [Kwarg(n, v)], false), s2);
  }

  /** `f(x = v)` with `x` not a bare name: `=` ends the argument list and the call is left open. */
  lemma CallAssignmentAfterExpression(g: Grammar, ts: seq<Token>, f: Node, s: State, x: Node, s1: State)
    requires s.pos < |ts| && ts[s.pos].kind.LPAREN? && !Cur(ts, s.pos + 1).kind.RPAREN?
    requires Interned(f, s.cache)
    requires Expr(g, ts, Next(s), 0) == Success((x, s1)) && !x.IdentifierNode? && Cur(ts, s1.pos).kind.ASSIGNMENT?
    ensures Paren(g, ts, Some(f), s) == Failure(MissingRParen(ts[s.pos].position))
  {
    assert ParenFirst(g, ts, true, Next(s)) == Success((ArgList([x], [], false), s1));
    assert ParenArgs(g, ts, true, Next(s)) == Success((ArgList([x], [], false), s1));
  }

  /** In a call that already has a keyword argument, a positional argument after a comma is rejected where it ends. */
  lemma PositionalItem(g: Grammar, ts: seq<Token>, al: ArgList, s: State, y: Node, s1: State)
    requires s.pos < |ts| && ArgsInterned(al, s.cache) && |al.kwargs| > 0
    requires ts[s.pos].kind.COMMA? && !Cur(ts, s.pos + 1).kind.RPAREN?
    requires Expr(g, ts, Next(s), 0) == Success((y, s1)) && !Cur(ts, s1.pos).kind.ASSIGNMENT?
    ensures ParenLoop(g, ts, true, al, s) == Failure(PositionalAfterKeyword(Cur(ts, s1.pos).position))
  {
    assert ParenItem(g, ts, true, al, Next(s)) == Failure(PositionalAfterKeyword(Cur(ts, s1.pos).position));
  }

  /** `f(n = v, y)`: a positional argument after a keyword argument is rejected where it ends. */
  lemma PositionalAfterKeywordRejected(g: Grammar, ts: seq<Token>, f: Node, s: State,
                                       n: string, k: nat, s1: State, v: Node, s2: State, y: Node, s3: State)
    requires s.pos < |ts| && ts[s.pos].kind.LPAREN? && !Cur(ts, s.pos + 1).kind.RPAREN?
    requires Interned(f, s.cache)
    requires Expr(g, ts, Next(s), 0) == Success((IdentifierNode(n, k), s1)) && Cur(ts, s1.pos).kind.ASSIGNMENT?
    requires Expr(g, ts, Next(s1), 0) == Success((v, s2))
    requires Cur(ts, s2.pos).kind.COMMA? && !Cur(ts, s2.pos + 1).kind.RPAREN?
    requires Expr(g, ts, Next(s2), 0) == Success((y, s3)) && !Cur(ts, s3.pos).kind.ASSIGNMENT?
    ensures Paren(g, ts, Some(f), s) == Failure(PositionalAfterKeyword(Cur(ts, s3.pos).position))
  {
    var al := ArgList([], [Kwarg(n, v)], false);
    KeywordArgs(g, ts, Next(s), n, k, s1, v, s2);
    PositionalItem(g, ts, al, s2, y, s3);
    ParenError(g, ts, Some(f), s, PositionalAfterKeyword(Cur(ts, s3.pos).position));
  }

  /** `f(x, e = v)` with `e` not a bare name: the `=` is rejected at its offset. */
  lemma MisplacedAssignmentRejected(g: Grammar, ts: seq<Token>, f: Node, s: State,
                                    x: Node, s1: State, e: Node, s2: State)
    requires s.pos < |ts| && ts[s.pos].kind.LPAREN? && !Cur(ts, s.pos + 1).kind.RPAREN?
    requires Interned(f, s.cache)
    requires Expr(g, ts, Next(s), 0) == Success((x, s1)) && !Cur(ts, s1.pos).kind.ASSIGNMENT?
    requires Cur(ts, s1.pos).kind.COMMA? && !Cur(ts, s1.pos + 1).kind.RPAREN?
    requires Expr(g, ts, Next(s1), 0) == Success((e, s2)) && !e.IdentifierNode? && Cur(ts, s2.pos).kind.ASSIGNMENT?
    ensures Paren(g, ts, Some(f), s) == Failure(MisplacedAssignment(Cur(ts, s2.pos).position))
  {
    var al := ArgList([x], [], false);
    assert ParenFirst(g, ts, true, Next(s)) == Success((al, s1));
    assert ParenItem(g, ts, true, al, Next(s1)) == Failure(MisplacedAssignment(Cur(ts, s2.pos).position));
    assert ParenLoop(g, ts, true, al, s1) == Failure(MisplacedAssignment(Cur(ts, s2.pos).position));
  }

  // ----- brackets -----

  /** A bracket component without a colon is the one expression in it. */
  lemma IndexComponent(g: Grammar, ts: seq<Token>, s: State, x: Node, s1: State)
    requires s.pos <= |ts| && !(Cur(ts, s.pos).kind.COMMA? || Cur(ts, s.pos).kind.RSQUARE? || Cur(ts, s.pos).kind.COLON?)
    requires Expr(g, ts, s, 0) == Success((x, s1))
    requires Cur(ts, s1.pos).kind.COMMA? || Cur(ts, s1.pos).kind.RSQUARE?
    ensures Slice(g, ts, s) == Success((x, s1))
  {
    var sp := SliceParts([x], false, 0);
    assert [] + [x] == [x];
    assert SliceItem(g, ts, SliceParts([], false, 0), s) == Success((sp, s1));
    assert SliceLoop(g, ts, sp, s1) == Success((sp, s1));
  }

  /** An empty bracket component (`x[1,,2]`) is rejected at the token that ends it. */
  lemma EmptyComponent(g: Grammar, ts: seq<Token>, s: State)
    requires s.pos <= |ts| && (Cur(ts, s.pos).kind.COMMA? || Cur(ts, s.pos).kind.RSQUARE?)
    ensures Slice(g, ts, s) == Failure(MalformedSliceComponent(Cur(ts, s.pos).position))
  {
  }

  /** `o[x]`: one index without a trailing comma is the index itself. */
  lemma ItemIndex(g: Grammar, ts: seq<Token>, o: Node, s: State, x: Node, s1: State)
    requires s.pos < |ts| && ts[s.pos].kind.LSQUARE? && Interned(o, s.cache)
    requires !(Cur(ts, s.pos + 1).kind.COMMA? || Cur(ts, s.pos + 1).kind.RSQUARE? || Cur(ts, s.pos + 1).kind.COLON?)
    requires Expr(g, ts, Next(s), 0) == Success((x, s1)) && Cur(ts, s1.pos).kind.RSQUARE?
    ensures Square(g, ts, Some(o), s) == Success((ItemNode(o, x), Next(s1)))
  {
    IndexComponent(g, ts, Next(s), x, s1);
    assert SquareArgs(g, ts, true, Next(s)) == Success((ArgList([x], [], false), s1));
  }

  /** `o[x,]`: a trailing comma makes the index a one-element tuple. */
  lemma ItemTuple(g: Grammar, ts: seq<Token>, o: Node, s: State, x: Node, s1: State)
    requires s.pos < |ts| && ts[s.pos].kind.LSQUARE? && Interned(o, s.cache)
    requires !(Cur(ts, s.pos + 1).kind.COMMA? || Cur(ts, s.pos + 1).kind.RSQUARE? || Cur(ts, s.pos + 1).kind.COLON?)
    requires Expr(g, ts, Next(s), 0) == Success((x, s1))
    requires Cur(ts, s1.pos).kind.COMMA? && Cur(ts, s1.pos + 1).kind.RSQUARE?
    ensures Square(g, ts, Some(o), s) == Success((ItemNode(o, TupleNode([x])), State(s1.pos + 2, s1.cache)))
  {
    var al := ArgList([x], [], false);
    IndexComponent(g, ts, Next(s), x, s1);
    assert SquareLoop(g, ts, true, al.(extraComma := true), Next(s1)) == Success((al.(extraComma := true), Next(s1)));
    assert SquareArgs(g, ts, true, Next(s)) == Success((al.(extraComma := true), Next(s1)));
  }

  /** `o[]`: no index at all is an item with the empty tuple. */
  lemma ItemEmpty(g: Grammar, ts: seq<Token>, o: Node, s: State)
    requires s.pos < |ts| && ts[s.pos].kind.LSQUARE? && Interned(o, s.cache) && Cur(ts, s.pos + 1).kind.RSQUARE?
    ensures Square(g, ts, Some(o), s) == Success((ItemNode(o, TupleNode([])), State(s.pos + 2, s.cache)))
  {
    assert SquareArgs(g, ts, true, Next(s)) == Success((ArgList([], [], false), Next(s)));
  }

  /** `[x, y]` without an object before it is a list, in order. */
  lemma ListPair(g: Grammar, ts: seq<Token>, s: State, x: Node, s1: State, y: Node, s2: State)
    requires s.pos < |ts| && ts[s.pos].kind.LSQUARE? && !Cur(ts, s.pos + 1).kind.RSQUARE?
    requires Expr(g, ts, Next(s), 0) == Success((x, s1))
    requires Cur(ts, s1.pos).kind.COMMA? && !Cur(ts, s1.pos + 1).kind.RSQUARE?
    requires Expr(g, ts, Next(s1), 0) == Success((y, s2)) && Cur(ts, s2.pos).kind.RSQUARE?
    ensures Square(g, ts, None, s) == Success((ListNode([x, y]), Next(s2)))
  {
    ListPairArgs(g, ts, Next(s), x, s1, y, s2);
  }

  lemma ListPairArgs(g: Grammar, ts: seq<Token>, s: State, x: Node, s1: State, y: Node, s2: State)
    requires s.pos <= |ts| && !Cur(ts, s.pos).kind.RSQUARE?
    requires Expr(g, ts, s, 0) == Success((x, s1))
    requires Cur(ts, s1.pos).kind.COMMA? && !Cur(ts, s1.pos + 1).kind.RSQUARE?
    requires Expr(g, ts, Next(s1), 0) == Success((y, s2)) && Cur(ts, s2.pos).kind.RSQUARE?
    ensures SquareArgs(g, ts, false, s) == Success((ArgList([x, y], [], false), s2))
  {
    var al := ArgList([x], [], false);
    assert [x] + [y] == [x, y];
    assert Component(g, ts, false, s) == Success((x, s1));
    assert Component(g, ts, false, Next(s1)) == Success((y, s2));
    assert SquareItem(g, ts, false, al, Next(s1)) == Success((ArgList([x, y], [], false), s2));
    assert SquareLoop(g, ts, false, ArgList([x, y], [], false), s2) == Success((ArgList([x, y], [], false), s2));
    assert SquareLoop(g, ts, false, al, s1) == Success((ArgList([x, y], [], false), s2));
  }

  /** `[]` is the empty list. */
  lemma ListEmpty(g: Grammar, ts: seq<Token>, s: State)
    requires s.pos < |ts| && ts[s.pos].kind.LSQUARE? && Cur(ts, s.pos + 1).kind.RSQUARE?
    ensures Square(g, ts, None, s) == Success((ListNode([]), State(s.pos + 2, s.cache)))
  {
    assert SquareArgs(g, ts, false, Next(s)) == Success((ArgList([], [], false), Next(s)));
  }

  /** `x:y` inside an item is the slice from `x` to `y`, with the step left `None`. */
  lemma RangeComponent(g: Grammar, ts: seq<Token>, s: State, x: Node, s1: State, y: Node, s2: State)
    requires s.pos <= |ts| && !(Cur(ts, s.pos).kind.COMMA? || Cur(ts, s.pos).kind.RSQUARE? || Cur(ts, s.pos).kind.COLON?)
    requires Expr(g, ts, s, 0) == Success((x, s1)) && Cur(ts, s1.pos).kind.COLON?
    requires !(Cur(ts, s1.pos + 1).kind.COMMA? || Cur(ts, s1.pos + 1).kind.RSQUARE? || Cur(ts, s1.pos + 1).kind.COLON?)
    requires Expr(g, ts, Next(s1), 0) == Success((y, s2))
    requires Cur(ts, s2.pos).kind.COMMA? || Cur(ts, s2.pos).kind.RSQUARE?
    ensures Slice(g, ts, s) == Success((SliceNode(x, y, NoneNode), s2))
  {
    var sp1 := SliceParts([x], true, 1);
    var sp2 := SliceParts([x, y], true, 1);
    assert [] + [x] == [x];
    assert [x] + [y] == [x, y];
    assert SliceItem(g, ts, SliceParts([], false, 0), s) == Success((sp1, Next(s1)));
    assert SliceItem(g, ts, sp1, Next(s1)) == Success((sp2, s2));
    assert SliceLoop(g, ts, sp2, s2) == Success((sp2, s2));
    assert SliceLoop(g, ts, sp1, Next(s1)) == Success((sp2, s2));
    assert Pad3([x, y]) == [x, y, NoneNode];
  }

  /** `:` alone inside an item is the slice with all three parts `None`. */
  lemma FullSliceComponent(g: Grammar, ts: seq<Token>, s: State)
    requires s.pos < |ts| && ts[s.pos].kind.COLON?
    requires Cur(ts, s.pos + 1).kind.COMMA? || Cur(ts, s.pos + 1).kind.RSQUARE?
    ensures Slice(g, ts, s) == Success((SliceNode(NoneNode, NoneNode, NoneNode), Next(s)))
  {
    var sp := SliceParts([NoneNode], true, 1);
    assert [] + [NoneNode] == [NoneNode];
    assert SliceLoop(g, ts, sp, Next(s)) == Success((sp, Next(s)));
    assert Pad3([NoneNode]) == [NoneNode, NoneNode, NoneNode];
  }

  /** `:::` inside an item has three colons, one too many. */
  lemma ThreeColons(g: Grammar, ts: seq<Token>, s: State)
    requires s.pos + 2 < |ts| && ts[s.pos].kind.COLON? && ts[s.pos + 1].kind.COLON? && ts[s.pos + 2].kind.COLON?
    requires Cur(ts, s.pos + 3).kind.COMMA? || Cur(ts, s.pos + 3).kind.RSQUARE?
    ensures Slice(g, ts, s) == Failure(TooManyColons(ts[s.pos].position))
  {
    var none3 := [NoneNode, NoneNode, NoneNode];
    assert [] + [NoneNode] == [NoneNode];
    assert [NoneNode] + [NoneNode] == [NoneNode, NoneNode];
    assert [NoneNode, NoneNode] + [NoneNode] == none3;
    var t := State(s.pos + 3, s.cache);
    var r := Success((SliceParts(none3, true, 3), t));
    assert SliceLoop(g, ts, SliceParts(none3, true, 3), t) == r;
    assert SliceLoop(g, ts, SliceParts([NoneNode, NoneNode], true, 2), State(s.pos + 2, s.cache)) == r;
    assert SliceLoop(g, ts, SliceParts([NoneNode], true, 1), State(s.pos + 1, s.cache)) == r;
    assert SliceLoop(g, ts, SliceParts([], false, 0), s) == r;
  }

  /** `:::x` inside an item has four parts, one too many; the part count is checked first. */
  lemma FourSliceParts(g: Grammar, ts: seq<Token>, s: State, x: Node, s1: State)
    requires s.pos + 3 < |ts| && ts[s.pos].kind.COLON? && ts[s.pos + 1].kind.COLON? && ts[s.pos + 2].kind.COLON?
    requires AllInterned([NoneNode, NoneNode, NoneNode], s.cache)
    requires !(ts[s.pos + 3].kind.COMMA? || ts[s.pos + 3].kind.RSQUARE? || ts[s.pos + 3].kind.COLON?)
    requires Expr(g, ts, State(s.pos + 3, s.cache), 0) == Success((x, s1))
    requires Cur(ts, s1.pos).kind.COMMA? || Cur(ts, s1.pos).kind.RSQUARE?
    ensures Slice(g, ts, s) == Failure(TooManySliceParts(ts[s.pos].position))
  {
    var none3 := [NoneNode, NoneNode, NoneNode];
    assert [] + [NoneNode] == [NoneNode];
    assert [NoneNode] + [NoneNode] == [NoneNode, NoneNode];
    assert [NoneNode, NoneNode] + [NoneNode] == none3;
    var t := State(s.pos + 3, s.cache);
    var sp4 := SliceParts(none3 + [x], true, 3);
    assert SliceItem(g, ts, SliceParts(none3, true, 3), t) == Success((sp4, s1));
    assert SliceLoop(g, ts, sp4, s1) == Success((sp4, s1));
    assert SliceLoop(g, ts, SliceParts(none3, true, 3), t) == Success((sp4, s1));
    assert SliceLoop(g, ts, SliceParts([NoneNode, NoneNode], true, 2), State(s.pos + 2, s.cache)) == Success((sp4, s1));
    assert SliceLoop(g, ts, SliceParts([NoneNode], true, 1), State(s.pos + 1, s.cache)) == Success((sp4, s1));
    assert SliceLoop(g, ts, SliceParts([], false, 0), s) == Success((sp4, s1));
  }

  // ----- slice components by their segments -----

  /** A bracket component ends at a `,` or a `]`. */
  predicate EndsComponent(t: Token) {
    t.kind.COMMA? || t.kind.RSQUARE?
  }

  /**
   * From `s` the tokens hold the colon-separated segments `segs` of one
   * bracket component, each empty (`None`) or a single expression, and the
   * component ends at `e`.
   */
  predicate Segments(g: Grammar, ts: seq<Token>, s: State, segs: seq<Option<Node>>, e: State)
    decreases |segs|
  {
    && |segs| > 0 && s.pos <= |ts|
    && var t := Cur(ts, s.pos);
       if segs[0].None? then
         if |segs| == 1 then EndsComponent(t) && e == s
         else t.kind.COLON? && Segments(g, ts, Next(s), segs[1..], e)
       else
         && !EndsComponent(t) && !t.kind.COLON?
         && Expr(g, ts, s, 0).Success? && Expr(g, ts, s, 0).value.0 == segs[0].value
         && var s1 := Expr(g, ts, s, 0).value.1;
            if |segs| == 1 then EndsComponent(Cur(ts, s1.pos)) && e == s1
            else Cur(ts, s1.pos).kind.COLON? && Segments(g, ts, Next(s1), segs[1..], e)
  }

  /** The node a segment stands for: its expression, or `None` when it is empty. */
  function SegmentNode(seg: Option<Node>): Node {
    if seg.Some? then seg.value else NoneNode
  }

  /** The parts `parse_slice` collects: one per colon-ended segment, and the last segment's expression if it has one. */
  function SegmentParts(segs: seq<Option<Node>>): (r: seq<Node>)
    requires |segs| > 0
    ensures |r| == |segs| - 1 + (if segs[|segs| - 1].Some? then 1 else 0)
    ensures forall i :: 0 <= i < |segs| - 1 ==> r[i] == SegmentNode(segs[i])
    ensures segs[|segs| - 1].Some? ==> r[|segs| - 1] == segs[|segs| - 1].value
    decreases |segs|
  {
    if |segs| == 1 then (if segs[0].Some? then [segs[0].value] else [])
    else [SegmentNode(segs[0])] + SegmentParts(segs[1..])
  }

  /** The `i`-th part of a slice written with segments `segs`: `None` past the last segment or for an empty one. */
  function SegmentOr(segs: seq<Option<Node>>, i: nat): Node {
    if i < |segs| then SegmentNode(segs[i]) else NoneNode
  }

  /** Appending a matched node to matched parts keeps them matched. */
  lemma AllInternedSnoc(xs: seq<Node>, x: Node, c: map<string, nat>)
    requires AllInterned(xs, c) && Interned(x, c)
    ensures AllInterned(xs + [x], c)
  {
    forall i | 0 <= i < |xs| + 1 ensures Interned((xs + [x])[i], c) {
      if i < |xs| { assert (xs + [x])[i] == xs[i]; }
    }
  }

  /** At a `,` or `]` the loop stops. */
  lemma EndStep(g: Grammar, ts: seq<Token>, sp: SliceParts, s: State)
    requires s.pos <= |ts| && EndsComponent(Cur(ts, s.pos)) && AllInterned(sp.parts, s.cache)
    ensures SliceLoop(g, ts, sp, s) == Success((sp, s))
  {
  }

  /** A colon with no expression before it adds a `None` part and moves past the colon. */
  lemma ColonStep(g: Grammar, ts: seq<Token>, sp: SliceParts, s: State)
    requires s.pos < |ts| && Cur(ts, s.pos).kind.COLON? && AllInterned(sp.parts, s.cache)
    ensures AllInterned(sp.parts + [NoneNode], s.cache)
    ensures SliceLoop(g, ts, sp, s) == SliceLoop(g, ts, SliceParts(sp.parts + [NoneNode], true, sp.colons + 1), Next(s))
  {
    AllInternedSnoc(sp.parts, NoneNode, s.cache);
  }

  /** An expression adds its part; a colon after it makes the component a slice and is passed. */
  lemma ExprStep(g: Grammar, ts: seq<Token>, sp: SliceParts, s: State, x: Node, s1: State)
    requires s.pos <= |ts| && !EndsComponent(Cur(ts, s.pos)) && !Cur(ts, s.pos).kind.COLON?
    requires AllInterned(sp.parts, s.cache) && Expr(g, ts, s, 0) == Success((x, s1))
    ensures AllInterned(sp.parts + [x], s1.cache)
    ensures Cur(ts, s1.pos).kind.COLON? ==>
      SliceLoop(g, ts, sp, s) == SliceLoop(g, ts, SliceParts(sp.parts + [x], true, sp.colons + 1), Next(s1))
    ensures !Cur(ts, s1.pos).kind.COLON? ==>
      SliceLoop(g, ts, sp, s) == SliceLoop(g, ts, SliceParts(sp.parts + [x], sp.isSlice, sp.colons), s1)
  {
    AllExtends(sp.parts, s.cache, s1.cache);
    AllInternedSnoc(sp.parts, x, s1.cache);
  }

  /** The last segment of a component: the loop adds its expression, if any, and stops. */
  lemma SegmentsEnd(g: Grammar, ts: seq<Token>, sp: SliceParts, s: State, seg: Option<Node>, e: State)
    requires Segments(g, ts, s, [seg], e) && AllInterned(sp.parts, s.cache)
    ensures SliceLoop(g, ts, sp, s) == Success((SliceParts(sp.parts + SegmentParts([seg]), sp.isSlice, sp.colons), e))
  {
    if seg.None? {
      EndStep(g, ts, sp, s);
      assert sp.parts + SegmentParts([seg]) == sp.parts;
    } else {
      var s1 := Expr(g, ts, s, 0).value.1;
      ExprStep(g, ts, sp, s, seg.value, s1);
      EndStep(g, ts, SliceParts(sp.parts + [seg.value], sp.isSlice, sp.colons), s1);
    }
  }

  /** A segment before a colon: the loop adds its part, becomes a slice and continues with the next segment. */
  lemma SegmentsHead(g: Grammar, ts: seq<Token>, sp: SliceParts, s: State, segs: seq<Option<Node>>, e: State)
      returns (sp1: SliceParts, s1: State)
    requires |segs| > 1 && Segments(g, ts, s, segs, e) && AllInterned(sp.parts, s.cache)
    ensures sp1 == SliceParts(sp.parts + [SegmentNode(segs[0])], true, sp.colons + 1)
    ensures Segments(g, ts, s1, segs[1..], e) && AllInterned(sp1.parts, s1.cache)
    ensures SliceLoop(g, ts, sp, s) == SliceLoop(g, ts, sp1, s1)
  {
    sp1 := SliceParts(sp.parts + [SegmentNode(segs[0])], true, sp.colons + 1);
    if segs[0].None? {
      ColonStep(g, ts, sp, s);
      s1 := Next(s);
    } else {
      var t := Expr(g, ts, s, 0).value.1;
      ExprStep(g, ts, sp, s, segs[0].value, t);
      s1 := Next(t);
    }
  }

  /**
   * The loop of `parse_slice` over a component written as segments: it
   * collects the segments' parts, counts one colon between each two
   * segments, becomes a slice at the first colon, and stops at the end.
   */
  lemma {:induction false} SegmentsLoop(g: Grammar, ts: seq<Token>, sp: SliceParts, s: State, segs: seq<Option<Node>>, e: State)
    requires Segments(g, ts, s, segs, e) && AllInterned(sp.parts, s.cache)
    ensures SliceLoop(g, ts, sp, s)
      == Success((SliceParts(sp.parts + SegmentParts(segs), sp.isSlice || |segs| > 1, sp.colons + |segs| - 1), e))
    decreases |segs|
  {
    if |segs| == 1 {
      assert segs == [segs[0]];
      SegmentsEnd(g, ts, sp, s, segs[0], e);
    } else {
      var sp1, s1 := SegmentsHead(g, ts, sp, s, segs, e);
      SegmentsLoop(g, ts, sp1, s1, segs[1..], e);
      SegmentsJoin(sp, segs, e, sp1, |segs[1..]|, SliceLoop(g, ts, sp, s), SliceLoop(g, ts, sp1, s1));
    }
  }

  /** The loop's result after the first segment and its colon, rebuilt as the result for all segments. */
  lemma SegmentsJoin(sp: SliceParts, segs: seq<Option<Node>>, e: State, sp1: SliceParts, k: int,
                     r: Result<(SliceParts, State), SyntaxError>, r1: Result<(SliceParts, State), SyntaxError>)
    requires |segs| > 1 && k == |segs| - 1 && r == r1
    requires sp1 == SliceParts(sp.parts + [SegmentNode(segs[0])], true, sp.colons + 1)
    requires r1 == Success((SliceParts(sp1.parts + SegmentParts(segs[1..]), sp1.isSlice || k > 1, sp1.colons + k - 1), e))
    ensures r == Success((SliceParts(sp.parts + SegmentParts(segs), true, sp.colons + |segs| - 1), e))
  {
    ConsParts(sp.parts, segs);
  }

  /** The parts collected up to the first segment's colon, then those of the rest, are those of all segments. */
  lemma ConsParts(parts: seq<Node>, segs: seq<Option<Node>>)
    requires |segs| > 1
    ensures (parts + [SegmentNode(segs[0])]) + SegmentParts(segs[1..]) == parts + SegmentParts(segs)
  {
    var head, rest := [SegmentNode(segs[0])], SegmentParts(segs[1..]);
    assert SegmentParts(segs) == head + rest;
    assert (parts + head) + rest == parts + (head + rest);
  }

  /**
   * `parse_slice` on a component written as segments: one expression alone
   * is that expression and one empty segment is malformed; two or three
   * segments make a slice whose parts are the segments, an empty or missing
   * one becoming `None`; more segments fail, with too many parts checked
   * before too many colons.
   */
  lemma SliceFromSegments(g: Grammar, ts: seq<Token>, s: State, segs: seq<Option<Node>>, e: State)
    requires Segments(g, ts, s, segs, e)
    ensures var cur := Cur(ts, s.pos).position;
      && (|segs| == 1 && segs[0].Some? ==> Slice(g, ts, s) == Success((segs[0].value, e)))
      && (|segs| == 1 && segs[0].None? ==> Slice(g, ts, s) == Failure(MalformedSliceComponent(cur)))
      && (2 <= |segs| <= 3 ==>
            Slice(g, ts, s) == Success((SliceNode(SegmentOr(segs, 0), SegmentOr(segs, 1), SegmentOr(segs, 2)), e)))
      && (|segs| > 3 ==>
            Slice(g, ts, s) == Failure(if |SegmentParts(segs)| > 3 then TooManySliceParts(cur) else TooManyColons(cur)))
  {
    SegmentsLoop(g, ts, SliceParts([], false, 0), s, segs, e);
    var parts := SegmentParts(segs);
    assert [] + parts == parts;
    if 2 <= |segs| <= 3 {
      var p := Pad3(parts);
      assert p[0] == SegmentOr(segs, 0) && p[1] == SegmentOr(segs, 1) && p[2] == SegmentOr(segs, 2);
    }
  }

  // ----- identifier sharing -----

  /** Every identifier node of an interned tree is the cached node of its name. */
  lemma {:induction false} InternedIdents(x: Node, c: map<string, nat>)
    requires Interned(x, c)
    ensures forall p :: p in Idents(x) ==> p.0 in c && c[p.0] == p.1
    decreases x
  {
    match x
    case UnaryOpNode(_, a) => InternedIdents(a, c);
    case BinaryOpNode(_, a, b) => InternedIdents(a, c); InternedIdents(b, c);
    case SliceNode(a, b, e) => InternedIdents(a, c); InternedIdents(b, c); InternedIdents(e, c);
    case AttributionNode(o, _) => InternedIdents(o, c);
    case TupleNode(xs) =>
      forall i | 0 <= i < |xs| ensures forall p :: p in Idents(xs[i]) ==> p.0 in c && c[p.0] == p.1 {
        InternedIdents(xs[i], c);
      }
    case ListNode(xs) =>
      forall i | 0 <= i < |xs| ensures forall p :: p in Idents(xs[i]) ==> p.0 in c && c[p.0] == p.1 {
        InternedIdents(xs[i], c);
      }
    case ItemNode(o, e) => InternedIdents(o, c); InternedIdents(e, c);
    case FunctionCallNode(f, xs, kw) =>
      InternedIdents(f, c);
      forall i | 0 <= i < |xs| ensures forall p :: p in Idents(xs[i]) ==> p.0 in c && c[p.0] == p.1 {
        InternedIdents(xs[i], c);
      }
      forall i | 0 <= i < |kw| ensures forall p :: p in Idents(kw[i].value) ==> p.0 in c && c[p.0] == p.1 {
        InternedIdents(kw[i].value, c);
      }
    case _ =>
  }

  /** Within one parse, all identifier nodes of the same name are the same node. */
  lemma SharedIdentifiers(g: Grammar, ts: seq<Token>)
    requires ParseTokens(g, ts).Success?
    ensures var x := ParseTokens(g, ts).value;
      forall p, q :: p in Idents(x) && q in Idents(x) && p.0 == q.0 ==> p == q
  {
    var e := Expr(g, ts, State(0, map[]), 0);
    InternedIdents(e.value.0, e.value.1.cache);
  }

  /** An identifier followed by something that is not a postfix is an operand of its own. */
  lemma IdentifierOperand(g: Grammar, ts: seq<Token>, s: State)
    requires s.pos < |ts| && ts[s.pos].kind.IDENTIFIER? && EndsOperand(Cur(ts, s.pos + 1))
    ensures var n := ts[s.pos].kind.name;
      Unary(g, ts, s) == Success((IdentifierNode(n, Intern(s.cache, n).0), State(s.pos + 1, Intern(s.cache, n).1)))
  {
    var n := ts[s.pos].kind.name;
    var x := IdentifierNode(n, Intern(s.cache, n).0);
    var t := State(s.pos + 1, Intern(s.cache, n).1);
    IdentifierAtom(g, ts, s);
    assert Postfix(g, ts, x, t) == Success((x, t));
  }

  /** One binary operator whose right operand ends the formula: the loop makes one node and stops. */
  lemma LastOperator(g: Grammar, ts: seq<Token>, left: Node, s: State, minPrec: int, right: Node, s1: State)
    requires s.pos < |ts| && ts[s.pos].kind.OPERATOR? && Interned(left, s.cache)
    requires ts[s.pos].kind.op in g.precedences && g.precedences[ts[s.pos].kind.op] > minPrec
    requires Expr(g, ts, Next(s), g.precedences[ts[s.pos].kind.op]) == Success((right, s1))
    requires !Cur(ts, s1.pos).kind.OPERATOR?
    ensures ExprLoop(g, ts, left, s, minPrec) == Success((BinaryOpNode(ts[s.pos].kind.op, left, right), s1))
  {
    InternedExtends(left, s.cache, s1.cache);
  }

  /** The token stream of `1 + abc - cef * abc`, token by token. */
  predicate RepeatedShape(ts: seq<Token>) {
    && |ts| == 8
    && ts[0] == Num(1, 0) && ts[1] == Op("+", 2) && ts[2] == Id("abc", 4) && ts[3] == Op("-", 8)
    && ts[4] == Id("cef", 10) && ts[5] == Op("*", 14) && ts[6] == Id("abc", 16) && ts[7] == Tok(EOF, 19)
  }

  /** In `1 + abc - cef * abc`, the product `cef * abc` reuses the node cached for `abc`. */
  lemma RepeatedProduct(g: Grammar, ts: seq<Token>)
    requires PredefinedGrammar(g) && RepeatedShape(ts)
    ensures Expr(g, ts, State(4, map["abc" := 0]), 16000)
      == Success((BinaryOpNode("*", IdentifierNode("cef", 1), IdentifierNode("abc", 0)),
                  State(7, map["abc" := 0, "cef" := 1])))
  {
    PredefinedFacts(g);
    var c1: map<string, nat> := map["abc" := 0];
    var c2 := c1["cef" := 1];
    var abc, cef := IdentifierNode("abc", 0), IdentifierNode("cef", 1);
    IdentifierOperand(g, ts, State(4, c1));
    RepeatedSecond(g, ts);
    LastOperator(g, ts, cef, State(5, c2), 16000, abc, State(7, c2));
  }

  /** In `1 + abc - cef * abc`, the second `abc` finds its cached node in slot 0. */
  lemma RepeatedSecond(g: Grammar, ts: seq<Token>)
    requires PredefinedGrammar(g) && RepeatedShape(ts)
    ensures Expr(g, ts, State(6, map["abc" := 0, "cef" := 1]), 17000)
      == Success((IdentifierNode("abc", 0), State(7, map["abc" := 0, "cef" := 1])))
  {
    var c2: map<string, nat> := map["abc" := 0, "cef" := 1];
    IdentifierOperand(g, ts, State(6, c2));
    assert Intern(c2, "abc") == (0, c2);
  }

  /** In `1 + abc - cef * abc`, the first `abc` is interned into slot 0 and stops before `-`. */
  lemma RepeatedFirst(g: Grammar, ts: seq<Token>)
    requires PredefinedGrammar(g) && RepeatedShape(ts)
    ensures Expr(g, ts, State(2, map[]), 16000)
      == Success((IdentifierNode("abc", 0), State(3, map["abc" := 0])))
  {
    PredefinedFacts(g);
    IdentifierOperand(g, ts, State(2, map[]));
  }

  /** In `1 + abc - cef * abc`, the loop after `1 + abc` takes the product as the right operand of `-`. */
  lemma RepeatedTail(g: Grammar, ts: seq<Token>)
    requires PredefinedGrammar(g) && RepeatedShape(ts)
    ensures var abc := IdentifierNode("abc", 0);
      var product := BinaryOpNode("*", IdentifierNode("cef", 1), abc);
      ExprLoop(g, ts, BinaryOpNode("+", Int(1), abc), State(3, map["abc" := 0]), 0)
        == Success((BinaryOpNode("-", BinaryOpNode("+", Int(1), abc), product), State(7, map["abc" := 0, "cef" := 1])))
  {
    PredefinedFacts(g);
    RepeatedProduct(g, ts);
    var abc := IdentifierNode("abc", 0);
    LastOperator(g, ts, BinaryOpNode("+", Int(1), abc), State(3, map["abc" := 0]), 0,
                 BinaryOpNode("*", IdentifierNode("cef", 1), abc), State(7, map["abc" := 0, "cef" := 1]));
  }

  /** `1 + abc - cef * abc`: both `abc` operands are the node in slot 0; `cef` gets slot 1. */
  lemma RepeatedIdentifier(g: Grammar)
    requires PredefinedGrammar(g)
    ensures ParseTokens(g, [Num(1, 0), Op("+", 2), Id("abc", 4), Op("-", 8), Id("cef", 10), Op("*", 14),
                            Id("abc", 16), Tok(EOF, 19)])
      == Success(BinaryOpNode("-", BinaryOpNode("+", Int(1), IdentifierNode("abc", 0)),
                              BinaryOpNode("*", IdentifierNode("cef", 1), IdentifierNode("abc", 0))))
  {
    PredefinedFacts(g);
    var ts := [Num(1, 0), Op("+", 2), Id("abc", 4), Op("-", 8), Id("cef", 10), Op("*", 14), Id("abc", 16), Tok(EOF, 19)];
    assert RepeatedShape(ts);
    NumberOperand(g, ts, State(0, map[]));
    RepeatedFirst(g, ts);
    RepeatedTail(g, ts);
  }

  /** The token stream of `-sqrt(4) + 10`. */
  function NegatedCallTokens(): seq<Token> {
    [Op("-", 0), Id("sqrt", 1), Tok(LPAREN, 5), Num(4, 6), Tok(RPAREN, 7), Op("+", 9), Num(10, 11), Tok(EOF, 13)]
  }

  /** `(n)` with a number argument after `f`, followed by something that is not a postfix: one call node. */
  lemma CalledWithNumber(g: Grammar, ts: seq<Token>, f: Node, s: State)
    requires s.pos + 2 < |ts| && ts[s.pos].kind.LPAREN? && ts[s.pos + 1].kind.NUMBER? && ts[s.pos + 2].kind.RPAREN?
    requires EndsOperand(Cur(ts, s.pos + 3)) && Interned(f, s.cache)
    ensures Postfix(g, ts, f, s)
      == Success((FunctionCallNode(f, [NumberNode(ts[s.pos + 1].kind.number)], []), State(s.pos + 3, s.cache)))
  {
    var x := NumberNode(ts[s.pos + 1].kind.number);
    var call := FunctionCallNode(f, [x], []);
    NumberExpr(g, ts, Next(s), 0);
    CallOne(g, ts, f, s, x, State(s.pos + 2, s.cache));
    assert Postfix(g, ts, call, State(s.pos + 3, s.cache)) == Success((call, State(s.pos + 3, s.cache)));
  }

  /** `f(n)` with a number argument, followed by something that is not a postfix: one call node. */
  lemma CalledIdentifier(g: Grammar, ts: seq<Token>, s: State)
    requires s.pos + 3 < |ts| && ts[s.pos].kind.IDENTIFIER? && ts[s.pos + 1].kind.LPAREN?
    requires ts[s.pos + 2].kind.NUMBER? && ts[s.pos + 3].kind.RPAREN? && EndsOperand(Cur(ts, s.pos + 4))
    ensures var n := ts[s.pos].kind.name; var (k, c) := Intern(s.cache, n);
      Unary(g, ts, s)
        == Success((FunctionCallNode(IdentifierNode(n, k), [NumberNode(ts[s.pos + 2].kind.number)], []), State(s.pos + 4, c)))
  {
    var n := ts[s.pos].kind.name;
    var (k, c) := Intern(s.cache, n);
    IdentifierAtom(g, ts, s);
    CalledWithNumber(g, ts, IdentifierNode(n, k), State(s.pos + 1, c));
  }

  /** In `-sqrt(4) + 10`, the prefix minus takes the whole call as its operand. */
  lemma NegatedCallOperand(g: Grammar)
    requires PredefinedGrammar(g)
    ensures Unary(g, NegatedCallTokens(), State(0, map[]))
      == Success((UnaryOpNode("-", FunctionCallNode(IdentifierNode("sqrt", 0), [Int(4)], [])),
                  State(5, map["sqrt" := 0])))
  {
    PredefinedFacts(g);
    CalledIdentifier(g, NegatedCallTokens(), State(1, map[]));
  }

  /** `-sqrt(4) + 10`: the prefix minus applies to the call, and the sum is outermost. */
  lemma NegatedCall(g: Grammar)
    requires PredefinedGrammar(g)
    ensures ParseTokens(g, NegatedCallTokens())
      == Success(BinaryOpNode("+",
           UnaryOpNode("-", FunctionCallNode(IdentifierNode("sqrt", 0), [Int(4)], [])), Int(10)))
  {
    PredefinedFacts(g);
    var ts := NegatedCallTokens();
    var c: map<string, nat> := map["sqrt" := 0];
    var neg := UnaryOpNode("-", FunctionCallNode(IdentifierNode("sqrt", 0), [Int(4)], []));
    NegatedCallOperand(g);
    NumberExpr(g, ts, State(6, c), 16000);
    assert ExprLoop(g, ts, neg, State(5, c), 0) == Success((BinaryOpNode("+", neg, Int(10)), State(7, c)));
  }
}
