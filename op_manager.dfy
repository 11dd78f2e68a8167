/**
 * The operator registry (`OperatorManager`): the binary and unary operator
 * lexemes, the callable each dispatches to and each binary operator's
 * precedence (larger binds tighter).
 */
module OpManager {
  import opened Wrappers
  import opened Errors
  import opened Callables

  /** The only characters an operator lexeme may contain. */
  const AvailableChars: string := "+-*/<>=`~!@#$%^&|?"

  /** Membership in `AvailableChars`, written as a disjunction. */
  predicate IsAvailableChar(c: char)
  {
    c == '+' || c == '-' || c == '*' || c == '/' || c == '<' || c == '>' || c == '=' || c == '`' || c == '~' ||
    c == '!' || c == '@' || c == '#' || c == '$' || c == '%' || c == '^' || c == '&' || c == '|' || c == '?'
  }

  /** The legality guard: every character of the lexeme is available (vacuously true of the empty lexeme). */
  predicate IsOperatorLegal(op: string)
  {
    forall i :: 0 <= i < |op| ==> IsAvailableChar(op[i])
  }

  /** The disjunction is exactly membership in `AvailableChars`. */
  lemma AvailableCharsExact(c: char)
    ensures IsAvailableChar(c) <==> c in AvailableChars
  {
  }

  /** The legality guard accepts exactly the lexemes spelled from `AvailableChars`. */
  lemma OperatorLegalMeansAvailable(op: string)
    ensures IsOperatorLegal(op) <==> forall i :: 0 <= i < |op| ==> op[i] in AvailableChars
  {
    forall i | 0 <= i < |op| {
      AvailableCharsExact(op[i]);
    }
  }

  /** The binary operators registered at construction, with callable and precedence. */
  const PredefinedBinaryOperators: map<string, (HostFunc, int)> := map[
    // comparisons
    "<"  := (HostFunc("operator.lt"), 11000),
    "<=" := (HostFunc("operator.le"), 11000),
    "==" := (HostFunc("operator.eq"), 11000),
    "!=" := (HostFunc("operator.ne"), 11000),
    ">=" := (HostFunc("operator.ge"), 11000),
    ">"  := (HostFunc("operator.gt"), 11000),
    // bitwise or, xor, and
    "|"  := (HostFunc("operator.or_"), 12000),
    "^"  := (HostFunc("operator.xor"), 13000),
    "&"  := (HostFunc("operator.and_"), 14000),
    // shifts
    "<<" := (HostFunc("operator.lshift"), 15000),
    ">>" := (HostFunc("operator.rshift"), 15000),
    // additive
    "+"  := (HostFunc("operator.add"), 16000),
    "-"  := (HostFunc("operator.sub"), 16000),
    // multiplicative and matrix product
    "*"  := (HostFunc("operator.mul"), 17000),
    "/"  := (HostFunc("operator.truediv"), 17000),
    "//" := (HostFunc("operator.floordiv"), 17000),
    "%"  := (HostFunc("operator.mod"), 17000),
    "@"  := (HostFunc("operator.matmul"), 17000)
  ]

  /** The unary operators registered at construction. */
  const PredefinedUnaryOperators: map<string, HostFunc> := map[
    "+" := HostFunc("operator.pos"),
    "-" := HostFunc("operator.neg"),
    "~" := HostFunc("operator.invert")
  ]

  class OperatorManager {
    var binaryOps: set<string>
    var binaryFuncs: map<string, HostFunc>
    var binaryPrecedences: map<string, int>
    var unaryOps: set<string>
    var unaryFuncs: map<string, HostFunc>

    /** The registry's invariant: the three binary tables and the two unary tables agree. */
    ghost predicate Valid()
      reads this
    {
      && binaryOps == binaryFuncs.Keys == binaryPrecedences.Keys
      && (forall op :: op in binaryPrecedences ==> binaryPrecedences[op] > 0)
      && (forall op :: op in binaryOps ==> IsOperatorLegal(op))
      && unaryOps == unaryFuncs.Keys
      && (forall op :: op in unaryOps ==> IsOperatorLegal(op))
    }

    /** Starts empty and registers every predefined operator through the guarded entry points. */
    constructor ()
      ensures Valid()
      ensures binaryOps == PredefinedBinaryOperators.Keys
      ensures forall op :: op in PredefinedBinaryOperators ==>
        binaryFuncs[op] == PredefinedBinaryOperators[op].0 && binaryPrecedences[op] == PredefinedBinaryOperators[op].1
      ensures unaryOps == PredefinedUnaryOperators.Keys
      ensures forall op :: op in PredefinedUnaryOperators ==> unaryFuncs[op] == PredefinedUnaryOperators[op]
    {
      binaryOps, binaryFuncs, binaryPrecedences := {}, map[], map[];
      unaryOps, unaryFuncs := {}, map[];
      new;
      PredefinedOperatorsLegal();
      RegisterBinaryTable(PredefinedBinaryOperators);
      RegisterUnaryTable(PredefinedUnaryOperators);
    }

    /** The first loop of the constructor: registers each entry of a table of new binary operators. */
    method RegisterBinaryTable(table: map<string, (HostFunc, int)>)
      requires Valid()
      requires forall op :: op in table ==> IsOperatorLegal(op) && table[op].1 > 0 && op !in binaryOps
      modifies this
      ensures Valid()
      ensures binaryOps == old(binaryOps) + table.Keys
      ensures forall op :: op in table ==> binaryFuncs[op] == table[op].0 && binaryPrecedences[op] == table[op].1
      ensures forall op :: op in old(binaryOps) ==>
        binaryFuncs[op] == old(binaryFuncs)[op] && binaryPrecedences[op] == old(binaryPrecedences)[op]
      ensures unaryOps == old(unaryOps) && unaryFuncs == old(unaryFuncs)
    {
      var todo := table.Keys;
      while todo != {}
        invariant todo <= table.Keys
        invariant Valid()
        invariant binaryOps == old(binaryOps) + (table.Keys - todo)
        invariant forall op :: op in table.Keys - todo ==>
          binaryFuncs[op] == table[op].0 && binaryPrecedences[op] == table[op].1
        invariant forall op :: op in old(binaryOps) ==>
          binaryFuncs[op] == old(binaryFuncs)[op] && binaryPrecedences[op] == old(binaryPrecedences)[op]
        invariant unaryOps == old(unaryOps) && unaryFuncs == old(unaryFuncs)
        decreases todo
      {
        var op :| op in todo;
        var (func, precedence) := table[op];
        var outcome := RegisterBinaryOp(op, func, precedence);
        todo := todo - {op};
      }
    }

    /** The second loop of the constructor: registers each entry of a table of new unary operators. */
    method RegisterUnaryTable(table: map<string, HostFunc>)
      requires Valid()
      requires forall op :: op in table ==> IsOperatorLegal(op) && op !in unaryOps
      modifies this
      ensures Valid()
      ensures unaryOps == old(unaryOps) + table.Keys
      ensures forall op :: op in table ==> unaryFuncs[op] == table[op]
      ensures forall op :: op in old(unaryOps) ==> unaryFuncs[op] == old(unaryFuncs)[op]
      ensures binaryOps == old(binaryOps) && binaryFuncs == old(binaryFuncs)
      ensures binaryPrecedences == old(binaryPrecedences)
    {
      var todo := table.Keys;
      while todo != {}
        invariant todo <= table.Keys
        invariant Valid()
        invariant unaryOps == old(unaryOps) + (table.Keys - todo)
        invariant forall op :: op in table.Keys - todo ==> unaryFuncs[op] == table[op]
        invariant forall op :: op in old(unaryOps) ==> unaryFuncs[op] == old(unaryFuncs)[op]
        invariant binaryOps == old(binaryOps) && binaryFuncs == old(binaryFuncs)
        invariant binaryPrecedences == old(binaryPrecedences)
        decreases todo
      {
        var op :| op in todo;
        var outcome := RegisterUnaryOp(op, table[op]);
        todo := todo - {op};
      }
    }

    /**
     * Registers a binary operator. The guards run in the order legality,
     * precedence, duplicate, all before anything changes.
     */
    method RegisterBinaryOp(op: string, func: HostFunc, precedence: int) returns (r: Outcome<ConfigError>)
      requires Valid()
      modifies this
      ensures Valid()
      ensures !IsOperatorLegal(op) ==> r == Fail(IllegalOperator(op))
      ensures IsOperatorLegal(op) && precedence <= 0 ==> r == Fail(NonPositivePrecedence(op))
      ensures IsOperatorLegal(op) && precedence > 0 && op in old(binaryOps) ==> r == Fail(DuplicateBinaryOperator(op))
      ensures r.Pass? <==> IsOperatorLegal(op) && precedence > 0 && op !in old(binaryOps)
      ensures r.Fail? ==> binaryOps == old(binaryOps) && binaryFuncs == old(binaryFuncs) && binaryPrecedences == old(binaryPrecedences)
      ensures r.Pass? ==> binaryOps == old(binaryOps) + {op}
      ensures r.Pass? ==> binaryFuncs == old(binaryFuncs)[op := func]
      ensures r.Pass? ==> binaryPrecedences == old(binaryPrecedences)[op := precedence]
      ensures unaryOps == old(unaryOps) && unaryFuncs == old(unaryFuncs)
    {
      if !IsOperatorLegal(op) {
        return Fail(IllegalOperator(op));
      }
      if precedence <= 0 {
        return Fail(NonPositivePrecedence(op));
      }
      if op in binaryOps {
        return Fail(DuplicateBinaryOperator(op));
      }
      binaryOps := binaryOps + {op};
      binaryFuncs := binaryFuncs[op := func];
      binaryPrecedences := binaryPrecedences[op := precedence];
      r := Pass;
    }

    /** Registers a unary operator: only legality and duplicates among unary operators are checked. */
    method RegisterUnaryOp(op: string, func: HostFunc) returns (r: Outcome<ConfigError>)
      requires Valid()
      modifies this
      ensures Valid()
      ensures !IsOperatorLegal(op) ==> r == Fail(IllegalOperator(op))
      ensures IsOperatorLegal(op) && op in old(unaryOps) ==> r == Fail(DuplicateUnaryOperator(op))
      ensures r.Pass? <==> IsOperatorLegal(op) && op !in old(unaryOps)
      ensures r.Fail? ==> unaryOps == old(unaryOps) && unaryFuncs == old(unaryFuncs)
      ensures r.Pass? ==> unaryOps == old(unaryOps) + {op} && unaryFuncs == old(unaryFuncs)[op := func]
      ensures binaryOps == old(binaryOps) && binaryFuncs == old(binaryFuncs)
      ensures binaryPrecedences == old(binaryPrecedences)
    {
      if !IsOperatorLegal(op) {
        return Fail(IllegalOperator(op));
      }
      if op in unaryOps {
        return Fail(DuplicateUnaryOperator(op));
      }
      unaryOps := unaryOps + {op};
      unaryFuncs := unaryFuncs[op := func];
      r := Pass;
    }
  }

  /** Every predefined lexeme passes the registration guards. */
  lemma PredefinedOperatorsLegal()
    ensures forall op :: op in PredefinedBinaryOperators ==>
      IsOperatorLegal(op) && PredefinedBinaryOperators[op].1 > 0
    ensures forall op :: op in PredefinedUnaryOperators ==> IsOperatorLegal(op)
  {
  }

  /** The eighteen predefined binary lexemes. */
  lemma PredefinedBinaryLexemes()
    ensures PredefinedBinaryOperators.Keys ==
      {"<", "<=", "==", "!=", ">=", ">", "|", "^", "&", "<<", ">>", "+", "-", "*", "/", "//", "%", "@"}
  {
  }

  /** No predefined lexeme is empty. */
  lemma PredefinedNonEmpty()
    ensures "" !in PredefinedBinaryOperators && "" !in PredefinedUnaryOperators
  {
    PredefinedBinaryLexemes();
    PredefinedSharedLexemes();
  }

  /** The predefined binary table is layered: comparisons lowest, multiplicative highest. */
  lemma PredefinedPrecedenceLayers()
    ensures forall op :: op in {"<", "<=", "==", "!=", ">=", ">"} ==> PredefinedBinaryOperators[op].1 == 11000
    ensures PredefinedBinaryOperators["|"].1 == 12000
    ensures PredefinedBinaryOperators["^"].1 == 13000
    ensures PredefinedBinaryOperators["&"].1 == 14000
    ensures forall op :: op in {"<<", ">>"} ==> PredefinedBinaryOperators[op].1 == 15000
    ensures forall op :: op in {"+", "-"} ==> PredefinedBinaryOperators[op].1 == 16000
    ensures forall op :: op in {"*", "/", "//", "%", "@"} ==> PredefinedBinaryOperators[op].1 == 17000
  {
  }

  /** Exactly `+` and `-` exist in both arities after construction. */
  lemma PredefinedSharedLexemes()
    ensures PredefinedUnaryOperators.Keys == {"+", "-", "~"}
    ensures PredefinedBinaryOperators.Keys * PredefinedUnaryOperators.Keys == {"+", "-"}
  {
  }

  /**
   * The registrations of the operator test on a fresh registry, in order:
   * unary `&*`, binary `$%` at 5500, then unary `.*`, unary `+`, binary `.*`,
   * binary `*=` at -1 and binary `+`.
   */
  method OperatorTestRegistrations() returns (results: seq<Outcome<ConfigError>>)
    ensures results == [
      Pass, Pass,
      Fail(IllegalOperator(".*")), Fail(DuplicateUnaryOperator("+")),
      Fail(IllegalOperator(".*")), Fail(NonPositivePrecedence("*=")),
      Fail(DuplicateBinaryOperator("+"))]
  {
    var m := new OperatorManager();
    OperatorTestLexemes();
    var accepted := AcceptedRegistrations(m);
    var rejected := RejectedRegistrations(m);
    results := accepted + rejected;
  }

  /** The two accepted registrations of the operator test: unary `&*` and binary `$%`. */
  method AcceptedRegistrations(m: OperatorManager) returns (results: seq<Outcome<ConfigError>>)
    requires m.Valid()
    requires "&*" !in m.unaryOps && "$%" !in m.binaryOps
    modifies m
    ensures m.Valid()
    ensures results == [Pass, Pass]
    ensures m.unaryOps == old(m.unaryOps) + {"&*"} && m.binaryOps == old(m.binaryOps) + {"$%"}
  {
    var r0 := m.RegisterUnaryOp("&*", HostFunc("cube"));
    var r1 := m.RegisterBinaryOp("$%", HostFunc("double_sum"), 5500);
    results := [r0, r1];
  }

  /** The five rejected registrations of the operator test, on any registry that has `+` in both arities. */
  method RejectedRegistrations(m: OperatorManager) returns (results: seq<Outcome<ConfigError>>)
    requires m.Valid()
    requires "+" in m.unaryOps && "+" in m.binaryOps
    modifies m
    ensures m.Valid()
    ensures results == [
      Fail(IllegalOperator(".*")), Fail(DuplicateUnaryOperator("+")),
      Fail(IllegalOperator(".*")), Fail(NonPositivePrecedence("*=")),
      Fail(DuplicateBinaryOperator("+"))]
  {
    assert ".*"[0] == '.';
    var r2 := m.RegisterUnaryOp(".*", HostFunc("identity"));
    var r3 := m.RegisterUnaryOp("+", HostFunc("identity"));
    var r4 := m.RegisterBinaryOp(".*", HostFunc("add"), 20);
    var r5 := m.RegisterBinaryOp("*=", HostFunc("add"), -1);
    var r6 := m.RegisterBinaryOp("+", HostFunc("add"), 20);
    results := [r2, r3, r4, r5, r6];
  }

  /** The predefined memberships the operator test relies on. */
  lemma OperatorTestLexemes()
    ensures "$%" !in PredefinedBinaryOperators && "+" in PredefinedBinaryOperators
    ensures "&*" !in PredefinedUnaryOperators && "+" in PredefinedUnaryOperators
    ensures "" !in PredefinedBinaryOperators && "" !in PredefinedUnaryOperators
  {
  }

  /** The empty lexeme passes the legality check, so a fresh registry accepts it in both arities. */
  method EmptyLexemeRegistrations() returns (results: seq<Outcome<ConfigError>>)
    ensures results == [Pass, Pass]
  {
    var m := new OperatorManager();
    OperatorTestLexemes();
    var r0 := m.RegisterBinaryOp("", HostFunc("f"), 1);
    var r1 := m.RegisterUnaryOp("", HostFunc("g"));
    results := [r0, r1];
  }
}
