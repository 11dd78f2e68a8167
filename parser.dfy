/**
 * The parser: a cursor over the token list with a per-parse identifier
 * cache, one method per grammar rule. Each method is proved to compute the
 * corresponding function of `ParserSpec` from the state it starts in. The
 * `Parser` class is the entry point: it owns the registries, lexes a text
 * and parses its tokens with a fresh `ExprParser`.
 */
module Parsing {
  import opened Wrappers
  import opened Errors
  import opened Callables
  import opened LexSpec
  import opened ParseTree
  import opened ParserSpec
  import Lexing
  import OpManager
  import FuncManager
  import ParserProps

  /** A parse result paired with the state the parser reached. */
  function WithState<T>(r: Result<T, SyntaxError>, s: State): Result<(T, State), SyntaxError> {
    if r.Success? then Success((r.value, s)) else Failure(r.error)
  }

  class ExprParser {
    const grammar: Grammar
    const tokens: seq<Token>
    var position: nat
    var currentToken: Token
    var identifierNodes: map<string, nat>

    /** The cursor is within the token list and `currentToken` is the token under it. */
    ghost predicate Valid()
      reads this
    {
      position <= |tokens| && currentToken == Cur(tokens, position)
    }

    ghost function St(): State
      reads this
    {
      State(position, identifierNodes)
    }

    /** A parser at the first token with an empty identifier cache. */
    constructor (grammar: Grammar, tokens: seq<Token>)
      ensures this.grammar == grammar && this.tokens == tokens
      ensures Valid() && position == 0 && identifierNodes == map[]
    {
      this.grammar := grammar;
      this.tokens := tokens;
      position := 0;
      currentToken := if |tokens| > 0 then tokens[0] else Token(EOF, -1);
      identifierNodes := map[];
    }

    /** Moves to the next token; past the end the current token is an EOF at offset -1. */
    method Advance()
      requires Valid() && position < |tokens|
      modifies this
      ensures Valid() && position == old(position) + 1 && identifierNodes == old(identifierNodes)
    {
      position := position + 1;
      if position < |tokens| {
        currentToken := tokens[position];
      } else {
        currentToken := Token(EOF, -1);
      }
    }

    /** Parses a whole expression that must be followed by EOF. */
    method Parse() returns (r: Result<Node, SyntaxError>)
      requires Valid() && position == 0 && identifierNodes == map[]
      modifies this
      ensures r == ParseTokens(grammar, tokens)
    {
      if currentToken.kind.EOF? {
        return Failure(EmptyExpression);
      }
      var result :- ParseExpression(0);
      if !currentToken.kind.EOF? {
        return Failure(UnexpectedToken(currentToken.position));
      }
      r := Success(result);
    }

    /** Precedence climbing: binary operators that bind tighter than `minPrec`, grouped to the left. */
    method ParseExpression(minPrec: int) returns (r: Result<Node, SyntaxError>)
      requires Valid()
      modifies this
      ensures Valid()
      ensures WithState(r, St()) == Expr(grammar, tokens, old(St()), minPrec)
      decreases |tokens| - position, 4
    {
      ghost var goal := Expr(grammar, tokens, St(), minPrec);
      var left :- ParseUnary();
      while currentToken.kind.OPERATOR?
        invariant Valid() && old(position) <= position
        invariant Interned(left, identifierNodes)
        invariant goal == ExprLoop(grammar, tokens, left, St(), minPrec)
        decreases |tokens| - position
      {
        var operator := currentToken.kind.op;
        if operator !in grammar.precedences {
          return Failure(NotBinaryOperator(currentToken.position));
        }
        var precedence := grammar.precedences[operator];
        if precedence <= minPrec {
          break;
        }
        ghost var cache := identifierNodes;
        Advance();
        var right :- ParseExpression(precedence);
        InternedExtends(left, cache, identifierNodes);
        left := BinaryOpNode(operator, left, right);
      }
      r := Success(left);
    }

    /** Prefix operators, right-recursively, over a primary. */
    method ParseUnary() returns (r: Result<Node, SyntaxError>)
      requires Valid()
      modifies this
      ensures Valid()
      ensures WithState(r, St()) == Unary(grammar, tokens, old(St()))
      decreases |tokens| - position, 3
    {
      if currentToken.kind.OPERATOR? {
        if currentToken.kind.op !in grammar.unaryOps {
          return Failure(NotUnaryOperator(currentToken.position));
        }
        var operator := currentToken.kind.op;
        Advance();
        var operand :- ParseUnary();
        return Success(UnaryOpNode(operator, operand));
      }
      r := ParsePrimary();
    }

    /** An atom, then the loop over calls, indexing and attributes applied to it. */
    method ParsePrimary() returns (r: Result<Node, SyntaxError>)
      requires Valid()
      modifies this
      ensures Valid()
      ensures WithState(r, St()) == Primary(grammar, tokens, old(St()))
      decreases |tokens| - position, 2
    {
      ghost var goal := Primary(grammar, tokens, St());
      var ret :- ParseAtom();
      while true
        invariant Valid() && old(position) < position
        invariant Interned(ret, identifierNodes)
        invariant goal == Postfix(grammar, tokens, ret, St())
        decreases |tokens| - position
      {
        if currentToken.kind.LPAREN? {
          ret :- ParseParenthesis(Some(ret));
        } else if currentToken.kind.LSQUARE? {
          ret :- ParseSquare(Some(ret));
        } else if currentToken.kind.ATTRIBUTION? {
          ret := AttributionNode(ret, currentToken.kind.names);
          Advance();
        } else if currentToken.kind.STRING? || currentToken.kind.NUMBER? || currentToken.kind.IDENTIFIER? {
          return Failure(UnexpectedToken(currentToken.position));
        } else {
          break;
        }
      }
      r := Success(ret);
    }

    /** The first part of `parse_primary`: a number, a string, an identifier, a parenthesis or a bracket. */
    method ParseAtom() returns (r: Result<Node, SyntaxError>)
      requires Valid()
      modifies this
      ensures Valid()
      ensures WithState(r, St()) == Atom(grammar, tokens, old(St()))
      decreases |tokens| - position, 1
    {
      var token := currentToken;
      if token.kind.NUMBER? {
        Advance();
        return Success(NumberNode(token.kind.number));
      } else if token.kind.STRING? {
        Advance();
        return Success(StringNode(token.kind.value));
      } else if token.kind.IDENTIFIER? {
        // One node per name: a name seen before gets its cached node back.
        if token.kind.name !in identifierNodes {
          identifierNodes := identifierNodes[token.kind.name := |identifierNodes|];
        }
        var ret := IdentifierNode(token.kind.name, identifierNodes[token.kind.name]);
        Advance();
        return Success(ret);
      } else if token.kind.LPAREN? {
        r := ParseParenthesis(None);
      } else if token.kind.LSQUARE? {
        r := ParseSquare(None);
      } else {
        r := Failure(UnexpectedToken(token.position));
      }
    }

    /** At a `(`: the call of `func` when there is one, otherwise a grouping or a tuple. */
    method ParseParenthesis(func: Option<Node>) returns (r: Result<Node, SyntaxError>)
      requires Valid() && currentToken.kind.LPAREN?
      requires func.Some? ==> Interned(func.value, identifierNodes)
      modifies this
      ensures Valid()
      ensures WithState(r, St()) == Paren(grammar, tokens, func, old(St()))
      decreases |tokens| - position, 0
    {
      var startPosition := currentToken.position;
      Advance();
      var isFunc := func.Some?;
      var al :- ParseParenArgs(isFunc);
      if !currentToken.kind.RPAREN? {
        return Failure(MissingRParen(startPosition));
      }
      Advance();
      if isFunc {
        return Success(FunctionCallNode(func.value, al.args, al.kwargs));
      }
      if |al.kwargs| > 0 {
        return Failure(KeywordInTuple(startPosition));
      }
      if |al.args| == 1 && !al.extraComma {
        return Success(al.args[0]);
      }
      r := Success(TupleNode(al.args));
    }

    /** The argument list of `parse_parenthesis`, up to the closing `)`: a first argument and the comma loop. */
    method ParseParenArgs(isFunc: bool) returns (r: Result<ArgList, SyntaxError>)
      requires Valid()
      modifies this
      ensures Valid()
      ensures WithState(r, St()) == ParenArgs(grammar, tokens, isFunc, old(St()))
      decreases |tokens| - position, 6
    {
      if currentToken.kind.RPAREN? {
        return Success(ArgList([], [], false));
      }
      ghost var goal := ParenArgs(grammar, tokens, isFunc, St());
      var al :- ParseParenFirst(isFunc);
      while currentToken.kind.COMMA?
        invariant Valid() && old(position) <= position
        invariant ArgsInterned(al, identifierNodes)
        invariant goal == ParenLoop(grammar, tokens, isFunc, al, St())
        decreases |tokens| - position
      {
        ghost var s0 := St();
        Advance();
        if currentToken.kind.RPAREN? {
          if |al.args| + |al.kwargs| == 0 {
            return Failure(UnexpectedToken(currentToken.position));
          }
          assert ParenLoop(grammar, tokens, isFunc, al, s0) == ParenLoop(grammar, tokens, isFunc, al.(extraComma := true), St());
          al := al.(extraComma := true);
        } else {
          ghost var al0 := al;
          al :- ParseParenItem(isFunc, al);
          assert ParenLoop(grammar, tokens, isFunc, al0, s0) == ParenLoop(grammar, tokens, isFunc, al, St());
        }
      }
      r := Success(al);
    }

    /** The first argument in `parse_parenthesis`: a keyword argument in a call, otherwise a positional one. */
    method ParseParenFirst(isFunc: bool) returns (r: Result<ArgList, SyntaxError>)
      requires Valid()
      modifies this
      ensures Valid()
      ensures WithState(r, St()) == ParenFirst(grammar, tokens, isFunc, old(St()))
      decreases |tokens| - position, 5
    {
      var node :- ParseExpression(0);
      if isFunc && node.IdentifierNode? && currentToken.kind.ASSIGNMENT? {
        Advance();
        var value :- ParseExpression(0);
        return Success(ArgList([], [Kwarg(node.name, value)], false));
      }
      r := Success(ArgList([node], [], false));
    }

    /** One argument after a comma in `parse_parenthesis`: a keyword argument in a call, otherwise a positional one. */
    method ParseParenItem(isFunc: bool, al: ArgList) returns (r: Result<ArgList, SyntaxError>)
      requires Valid() && ArgsInterned(al, identifierNodes)
      modifies this
      ensures Valid()
      ensures WithState(r, St()) == ParenItem(grammar, tokens, isFunc, al, old(St()))
      decreases |tokens| - position, 5
    {
      ghost var cache := identifierNodes;
      var node :- ParseExpression(0);
      if isFunc {
        if currentToken.kind.ASSIGNMENT? {
          if !node.IdentifierNode? {
            return Failure(MisplacedAssignment(currentToken.position));
          }
          Advance();
          var value :- ParseExpression(0);
          ArgsExtends(al, cache, identifierNodes);
          return Success(al.(kwargs := al.kwargs + [Kwarg(node.name, value)]));
        }
        if |al.kwargs| > 0 {
          return Failure(PositionalAfterKeyword(currentToken.position));
        }
      }
      ArgsExtends(al, cache, identifierNodes);
      r := Success(al.(args := al.args + [node]));
    }

    /** At a `[`: an item of `obj` when there is one, otherwise a list. */
    method ParseSquare(obj: Option<Node>) returns (r: Result<Node, SyntaxError>)
      requires Valid() && currentToken.kind.LSQUARE?
      requires obj.Some? ==> Interned(obj.value, identifierNodes)
      modifies this
      ensures Valid()
      ensures WithState(r, St()) == Square(grammar, tokens, obj, old(St()))
      decreases |tokens| - position, 0
    {
      Advance();
      var isSlice := obj.Some?;
      var al :- ParseSquareArgs(isSlice);
      if !currentToken.kind.RSQUARE? {
        return Failure(MissingRSquare(currentToken.position));
      }
      Advance();
      if isSlice {
        if |al.args| == 1 && !al.extraComma {
          return Success(ItemNode(obj.value, al.args[0]));
        }
        return Success(ItemNode(obj.value, TupleNode(al.args)));
      }
      r := Success(ListNode(al.args));
    }

    /** The elements of `parse_square`, up to the closing `]`: a first element and the comma loop. */
    method ParseSquareArgs(isSlice: bool) returns (r: Result<ArgList, SyntaxError>)
      requires Valid()
      modifies this
      ensures Valid()
      ensures WithState(r, St()) == SquareArgs(grammar, tokens, isSlice, old(St()))
      decreases |tokens| - position, 9
    {
      if currentToken.kind.RSQUARE? {
        return Success(ArgList([], [], false));
      }
      ghost var goal := SquareArgs(grammar, tokens, isSlice, St());
      var first :- ParseComponent(isSlice);
      var al := ArgList([first], [], false);
      while currentToken.kind.COMMA?
        invariant Valid() && old(position) <= position
        invariant ArgsInterned(al, identifierNodes)
        invariant goal == SquareLoop(grammar, tokens, isSlice, al, St())
        decreases |tokens| - position
      {
        Advance();
        if currentToken.kind.RSQUARE? {
          if |al.args| == 0 {
            return Failure(UnexpectedToken(currentToken.position));
          }
          al := al.(extraComma := true);
        } else {
          al :- ParseSquareItem(isSlice, al);
        }
      }
      r := Success(al);
    }

    /** One element after a comma in `parse_square`. */
    method ParseSquareItem(isSlice: bool, al: ArgList) returns (r: Result<ArgList, SyntaxError>)
      requires Valid() && ArgsInterned(al, identifierNodes)
      modifies this
      ensures Valid()
      ensures WithState(r, St()) == SquareItem(grammar, tokens, isSlice, al, old(St()))
      decreases |tokens| - position, 9
    {
      ghost var cache := identifierNodes;
      var element :- ParseComponent(isSlice);
      ArgsExtends(al, cache, identifierNodes);
      r := Success(al.(args := al.args + [element]));
    }

    /** One bracket element: a slice component after an object, otherwise an expression. */
    method ParseComponent(isSlice: bool) returns (r: Result<Node, SyntaxError>)
      requires Valid()
      modifies this
      ensures Valid()
      ensures WithState(r, St()) == Component(grammar, tokens, isSlice, old(St()))
      decreases |tokens| - position, 8
    {
      if isSlice {
        r := ParseSlice();
      } else {
        r := ParseExpression(0);
      }
    }

    /** One component inside `obj[...]`: a slice triple when it holds a colon, otherwise one expression. */
    method ParseSlice() returns (r: Result<Node, SyntaxError>)
      requires Valid()
      modifies this
      ensures Valid()
      ensures WithState(r, St()) == Slice(grammar, tokens, old(St()))
      decreases |tokens| - position, 7
    {
      var curPosition := currentToken.position;
      var sp := SliceParts([], false, 0);
      ghost var goal := SliceLoop(grammar, tokens, sp, St());
      while !(currentToken.kind.COMMA? || currentToken.kind.RSQUARE?)
        invariant Valid() && old(position) <= position
        invariant AllInterned(sp.parts, identifierNodes)
        invariant goal == SliceLoop(grammar, tokens, sp, St())
        decreases |tokens| - position
      {
        if currentToken.kind.COLON? {
          sp := SliceParts(sp.parts + [NoneNode], true, sp.colons + 1);
          Advance();
        } else {
          sp :- ParseSliceItem(sp);
        }
      }
      if sp.isSlice {
        if |sp.parts| > 3 {
          return Failure(TooManySliceParts(curPosition));
        }
        if sp.colons > 2 {
          return Failure(TooManyColons(curPosition));
        }
        var parts := Pad3(sp.parts);
        return Success(SliceNode(parts[0], parts[1], parts[2]));
      }
      if |sp.parts| != 1 {
        return Failure(MalformedSliceComponent(curPosition));
      }
      r := Success(sp.parts[0]);
    }

    /** An expression inside `parse_slice`, with the colon after it if there is one. */
    method ParseSliceItem(sp: SliceParts) returns (r: Result<SliceParts, SyntaxError>)
      requires Valid() && AllInterned(sp.parts, identifierNodes)
      modifies this
      ensures Valid()
      ensures WithState(r, St()) == SliceItem(grammar, tokens, sp, old(St()))
      decreases |tokens| - position, 5
    {
      ghost var cache := identifierNodes;
      var e :- ParseExpression(0);
      AllExtends(sp.parts, cache, identifierNodes);
      if currentToken.kind.COLON? {
        Advance();
        return Success(SliceParts(sp.parts + [e], true, sp.colons + 1));
      }
      r := Success(SliceParts(sp.parts + [e], sp.isSlice, sp.colons));
    }
  }

  /** The parser's entry point: the two registries, and a fresh lexer and parser for each text. */
  class Parser {
    const opMgr: OpManager.OperatorManager
    const funcMgr: FuncManager.FunctionManager

    constructor ()
      ensures fresh(opMgr) && fresh(funcMgr)
      ensures opMgr.Valid()
      ensures opMgr.binaryOps == OpManager.PredefinedBinaryOperators.Keys
      ensures forall op :: op in OpManager.PredefinedBinaryOperators ==>
        opMgr.binaryPrecedences[op] == OpManager.PredefinedBinaryOperators[op].1
      ensures opMgr.unaryOps == OpManager.PredefinedUnaryOperators.Keys
      ensures funcMgr.functions == FuncManager.BuiltinFunctions
      ensures ParserProps.PredefinedGrammar(Grammar()) && "" !in Lexemes()
    {
      opMgr := new OpManager.OperatorManager();
      funcMgr := new FuncManager.FunctionManager();
      new;
      ParserProps.FreshTables(opMgr);
    }

    /** The tables the parser consults, as the registry holds them now. */
    ghost function Grammar(): Grammar
      reads this, opMgr
    {
      ParserSpec.Grammar(opMgr.binaryPrecedences, opMgr.unaryOps)
    }

    ghost function Lexemes(): set<string>
      reads this, opMgr
    {
      opMgr.binaryOps + opMgr.unaryOps
    }

    /** Lexes `text` with every registered lexeme and parses the tokens with a fresh parser. */
    method Parse(text: string) returns (r: Result<Node, SyntaxError>)
      requires opMgr.Valid() && "" !in Lexemes()
      ensures r == ParseText(Grammar(), Lexemes(), text)
    {
      var tokens :- Lexing.TokenizeText(opMgr.binaryOps + opMgr.unaryOps, text);
      var parser := new ExprParser(ParserSpec.Grammar(opMgr.binaryPrecedences, opMgr.unaryOps), tokens);
      r := parser.Parse();
    }

    method RegisterFunction(name: string, func: HostFunc) returns (r: Outcome<ConfigError>)
      modifies funcMgr
      ensures r.Pass? <==> name !in old(funcMgr.functions)
      ensures r.Fail? ==> r == Fail(DuplicateFunction(name)) && funcMgr.functions == old(funcMgr.functions)
      ensures r.Pass? ==> funcMgr.functions == old(funcMgr.functions)[name := func]
    {
      r := funcMgr.RegisterFunc(name, func);
    }

    /** Registers a binary operator with the operator manager; its guards and their order are the manager's. */
    method RegisterBinaryOp(op: string, func: HostFunc, precedence: int) returns (r: Outcome<ConfigError>)
      requires opMgr.Valid()
      modifies opMgr
      ensures opMgr.Valid()
      ensures !OpManager.IsOperatorLegal(op) ==> r == Fail(IllegalOperator(op))
      ensures OpManager.IsOperatorLegal(op) && precedence <= 0 ==> r == Fail(NonPositivePrecedence(op))
      ensures OpManager.IsOperatorLegal(op) && precedence > 0 && op in old(opMgr.binaryOps) ==>
        r == Fail(DuplicateBinaryOperator(op))
      ensures r.Pass? <==> OpManager.IsOperatorLegal(op) && precedence > 0 && op !in old(opMgr.binaryOps)
      ensures r.Fail? ==>
        && opMgr.binaryOps == old(opMgr.binaryOps)
        && opMgr.binaryFuncs == old(opMgr.binaryFuncs)
        && opMgr.binaryPrecedences == old(opMgr.binaryPrecedences)
      ensures r.Pass? ==> opMgr.binaryOps == old(opMgr.binaryOps) + {op}
      ensures r.Pass? ==> opMgr.binaryFuncs == old(opMgr.binaryFuncs)[op := func]
      ensures r.Pass? ==> opMgr.binaryPrecedences == old(opMgr.binaryPrecedences)[op := precedence]
      ensures opMgr.unaryOps == old(opMgr.unaryOps) && opMgr.unaryFuncs == old(opMgr.unaryFuncs)
    {
      r := opMgr.RegisterBinaryOp(op, func, precedence);
    }

    /** Registers a unary operator with the operator manager. */
    method RegisterUnaryOp(op: string, func: HostFunc) returns (r: Outcome<ConfigError>)
      requires opMgr.Valid()
      modifies opMgr
      ensures opMgr.Valid()
      ensures !OpManager.IsOperatorLegal(op) ==> r == Fail(IllegalOperator(op))
      ensures OpManager.IsOperatorLegal(op) && op in old(opMgr.unaryOps) ==> r == Fail(DuplicateUnaryOperator(op))
      ensures r.Pass? <==> OpManager.IsOperatorLegal(op) && op !in old(opMgr.unaryOps)
      ensures r.Fail? ==> opMgr.unaryOps == old(opMgr.unaryOps) && opMgr.unaryFuncs == old(opMgr.unaryFuncs)
      ensures r.Pass? ==> opMgr.unaryOps == old(opMgr.unaryOps) + {op} && opMgr.unaryFuncs == old(opMgr.unaryFuncs)[op := func]
      ensures opMgr.binaryOps == old(opMgr.binaryOps) && opMgr.binaryFuncs == old(opMgr.binaryFuncs)
      ensures opMgr.binaryPrecedences == old(opMgr.binaryPrecedences)
    {
      r := opMgr.RegisterUnaryOp(op, func);
    }
  }
}
