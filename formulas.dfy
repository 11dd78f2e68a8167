/**
 * Formulas from text to tree: each example is lexed with any registered
 * lexemes that include the operators it uses, and the token stream is then
 * parsed with the predefined grammar. The lexing of a text is proved one
 * token at a time, each step for any stream after it.
 */
module Formulas {
  import opened Wrappers
  import opened Errors
  import opened Decimal
  import opened LexSpec
  import opened LexProps
  import opened ParseTree
  import opened ParserSpec
  import opened ParserProps
  import OpManager

  // ----- from text to tokens -----
  //
  // Each example text is lexed by the same chain of generated members, named
  // after the example:
  //   <Name>Chars   the text's characters one by one, so that no step has to
  //                 unfold a string literal;
  //   <Name>At<k>   the token that starts at offset k, for any stream lexed
  //                 after it;
  //   <Name>Stream  the steps chained from the end of the text back to 0;
  //   <Name>Tokens  the stream of the literal text, the only member of the
  //                 chain that the rest of the model uses.
  // Nested6 and Nested8 turn the chained stream `[t0] + ([t1] + ...)` into a
  // list display.

  /** A list of 6 built by putting one element at a time in front. */
  lemma Nested6<T>(a: T, b: T, c: T, d: T, e: T, f: T)
    ensures [a] + ([b] + ([c] + ([d] + ([e] + [f])))) == [a, b, c, d, e, f]
  {
  }

  /** A list of 8 built by putting one element at a time in front. */
  lemma Nested8<T>(a: T, b: T, c: T, d: T, e: T, f: T, g: T, h: T)
    ensures [a] + ([b] + ([c] + ([d] + ([e] + ([f] + ([g] + [h])))))) == [a, b, c, d, e, f, g, h]
  {
  }

  /** The characters of `10 / 2 - 3`, one by one. */
  predicate DivisionChars(text: string) {
    && |text| == 10
    && text[0] == '1' && text[1] == '0' && text[2] == ' ' && text[3] == '/' && text[4] == ' ' && text[5] == '2'
    && text[6] == ' ' && text[7] == '-' && text[8] == ' ' && text[9] == '3'
  }

  lemma DivisionCharsHold()
    ensures DivisionChars("10 / 2 - 3")
  {
  }

  lemma DivisionAt9(ops: set<string>, text: string, rest: seq<Token>)
    requires LegalLexemes(ops) && "/" in ops && "-" in ops
    requires DivisionChars(text)
    requires LexFrom(ops, text, 10) == Success(rest)
    ensures LexFrom(ops, text, 9) == Success([Num(3, 9)] + rest)
  {
    assert text[9..10] == "3" && DecimalValue("3") == 3;
    IntegerAt(ops, text, 9, 10);
    LexToken(ops, text, 9, Num(3, 9), 10, rest);
  }

  lemma DivisionAt7(ops: set<string>, text: string, rest: seq<Token>)
    requires LegalLexemes(ops) && "/" in ops && "-" in ops
    requires DivisionChars(text)
    requires LexFrom(ops, text, 9) == Success(rest)
    ensures LexFrom(ops, text, 7) == Success([Op("-", 7)] + rest)
  {
    assert text[7..8] == "-";
    SingleOperatorAt(ops, text, 7);
    LexSpace(ops, text, 8);
    LexToken(ops, text, 7, Op("-", 7), 8, rest);
  }

  lemma DivisionAt5(ops: set<string>, text: string, rest: seq<Token>)
    requires LegalLexemes(ops) && "/" in ops && "-" in ops
    requires DivisionChars(text)
    requires LexFrom(ops, text, 7) == Success(rest)
    ensures LexFrom(ops, text, 5) == Success([Num(2, 5)] + rest)
  {
    assert text[5..6] == "2" && DecimalValue("2") == 2;
    IntegerAt(ops, text, 5, 6);
    LexSpace(ops, text, 6);
    LexToken(ops, text, 5, Num(2, 5), 6, rest);
  }

  lemma DivisionAt3(ops: set<string>, text: string, rest: seq<Token>)
    requires LegalLexemes(ops) && "/" in ops && "-" in ops
    requires DivisionChars(text)
    requires LexFrom(ops, text, 5) == Success(rest)
    ensures LexFrom(ops, text, 3) == Success([Op("/", 3)] + rest)
  {
    assert text[3..4] == "/";
    SingleOperatorAt(ops, text, 3);
    LexSpace(ops, text, 4);
    LexToken(ops, text, 3, Op("/", 3), 4, rest);
  }

  lemma DivisionAt0(ops: set<string>, text: string, rest: seq<Token>)
    requires LegalLexemes(ops) && "/" in ops && "-" in ops
    requires DivisionChars(text)
    requires LexFrom(ops, text, 3) == Success(rest)
    ensures LexFrom(ops, text, 0) == Success([Num(10, 0)] + rest)
  {
    assert text[0..2] == "10" && DecimalValue("10") == 10;
    IntegerAt(ops, text, 0, 2);
    LexSpace(ops, text, 2);
    LexToken(ops, text, 0, Num(10, 0), 2, rest);
  }

  lemma DivisionStream(ops: set<string>, text: string)
    requires LegalLexemes(ops) && "/" in ops && "-" in ops
    requires DivisionChars(text)
    ensures LexFrom(ops, text, 0) == Success([Num(10, 0), Op("/", 3), Num(2, 5), Op("-", 7), Num(3, 9), Tok(EOF, 10)])
  {
    assert LexFrom(ops, text, 10) == Success([Tok(EOF, 10)]);
    DivisionAt9(ops, text, [Tok(EOF, 10)]);
    DivisionAt7(ops, text, [Num(3, 9)] + [Tok(EOF, 10)]);
    DivisionAt5(ops, text, [Op("-", 7)] + ([Num(3, 9)] + [Tok(EOF, 10)]));
    DivisionAt3(ops, text, [Num(2, 5)] + ([Op("-", 7)] + ([Num(3, 9)] + [Tok(EOF, 10)])));
    DivisionAt0(ops, text, [Op("/", 3)] + ([Num(2, 5)] + ([Op("-", 7)] + ([Num(3, 9)] + [Tok(EOF, 10)]))));
    Nested6(Num(10, 0), Op("/", 3), Num(2, 5), Op("-", 7), Num(3, 9), Tok(EOF, 10));
  }

  /** `10 / 2 - 3` lexes as two operators between three integers. */
  lemma DivisionTokens(ops: set<string>)
    requires LegalLexemes(ops) && "/" in ops && "-" in ops
    ensures Tokenize(ops, "10 / 2 - 3") == Success([Num(10, 0), Op("/", 3), Num(2, 5), Op("-", 7), Num(3, 9), Tok(EOF, 10)])
  {
    DivisionCharsHold();
    DivisionStream(ops, "10 / 2 - 3");
  }

  /** The characters of `2 + 3 * 4`, one by one. */
  predicate ProductChars(text: string) {
    && |text| == 9
    && text[0] == '2' && text[1] == ' ' && text[2] == '+' && text[3] == ' ' && text[4] == '3' && text[5] == ' '
    && text[6] == '*' && text[7] == ' ' && text[8] == '4'
  }

  lemma ProductCharsHold()
    ensures ProductChars("2 + 3 * 4")
  {
  }

  lemma ProductAt8(ops: set<string>, text: string, rest: seq<Token>)
    requires LegalLexemes(ops) && "+" in ops && "*" in ops
    requires ProductChars(text)
    requires LexFrom(ops, text, 9) == Success(rest)
    ensures LexFrom(ops, text, 8) == Success([Num(4, 8)] + rest)
  {
    assert text[8..9] == "4" && DecimalValue("4") == 4;
    IntegerAt(ops, text, 8, 9);
    LexToken(ops, text, 8, Num(4, 8), 9, rest);
  }

  lemma ProductAt6(ops: set<string>, text: string, rest: seq<Token>)
    requires LegalLexemes(ops) && "+" in ops && "*" in ops
    requires ProductChars(text)
    requires LexFrom(ops, text, 8) == Success(rest)
    ensures LexFrom(ops, text, 6) == Success([Op("*", 6)] + rest)
  {
    assert text[6..7] == "*";
    SingleOperatorAt(ops, text, 6);
    LexSpace(ops, text, 7);
    LexToken(ops, text, 6, Op("*", 6), 7, rest);
  }

  lemma ProductAt4(ops: set<string>, text: string, rest: seq<Token>)
    requires LegalLexemes(ops) && "+" in ops && "*" in ops
    requires ProductChars(text)
    requires LexFrom(ops, text, 6) == Success(rest)
    ensures LexFrom(ops, text, 4) == Success([Num(3, 4)] + rest)
  {
    assert text[4..5] == "3" && DecimalValue("3") == 3;
    IntegerAt(ops, text, 4, 5);
    LexSpace(ops, text, 5);
    LexToken(ops, text, 4, Num(3, 4), 5, rest);
  }

  lemma ProductAt2(ops: set<string>, text: string, rest: seq<Token>)
    requires LegalLexemes(ops) && "+" in ops && "*" in ops
    requires ProductChars(text)
    requires LexFrom(ops, text, 4) == Success(rest)
    ensures LexFrom(ops, text, 2) == Success([Op("+", 2)] + rest)
  {
    assert text[2..3] == "+";
    SingleOperatorAt(ops, text, 2);
    LexSpace(ops, text, 3);
    LexToken(ops, text, 2, Op("+", 2), 3, rest);
  }

  lemma ProductAt0(ops: set<string>, text: string, rest: seq<Token>)
    requires LegalLexemes(ops) && "+" in ops && "*" in ops
    requires ProductChars(text)
    requires LexFrom(ops, text, 2) == Success(rest)
    ensures LexFrom(ops, text, 0) == Success([Num(2, 0)] + rest)
  {
    assert text[0..1] == "2" && DecimalValue("2") == 2;
    IntegerAt(ops, text, 0, 1);
    LexSpace(ops, text, 1);
    LexToken(ops, text, 0, Num(2, 0), 1, rest);
  }

  lemma ProductStream(ops: set<string>, text: string)
    requires LegalLexemes(ops) && "+" in ops && "*" in ops
    requires ProductChars(text)
    ensures LexFrom(ops, text, 0) == Success([Num(2, 0), Op("+", 2), Num(3, 4), Op("*", 6), Num(4, 8), Tok(EOF, 9)])
  {
    assert LexFrom(ops, text, 9) == Success([Tok(EOF, 9)]);
    ProductAt8(ops, text, [Tok(EOF, 9)]);
    ProductAt6(ops, text, [Num(4, 8)] + [Tok(EOF, 9)]);
    ProductAt4(ops, text, [Op("*", 6)] + ([Num(4, 8)] + [Tok(EOF, 9)]));
    ProductAt2(ops, text, [Num(3, 4)] + ([Op("*", 6)] + ([Num(4, 8)] + [Tok(EOF, 9)])));
    ProductAt0(ops, text, [Op("+", 2)] + ([Num(3, 4)] + ([Op("*", 6)] + ([Num(4, 8)] + [Tok(EOF, 9)]))));
    Nested6(Num(2, 0), Op("+", 2), Num(3, 4), Op("*", 6), Num(4, 8), Tok(EOF, 9));
  }

  /** `2 + 3 * 4` lexes as two operators between three integers. */
  lemma ProductTokens(ops: set<string>)
    requires LegalLexemes(ops) && "+" in ops && "*" in ops
    ensures Tokenize(ops, "2 + 3 * 4") == Success([Num(2, 0), Op("+", 2), Num(3, 4), Op("*", 6), Num(4, 8), Tok(EOF, 9)])
  {
    ProductCharsHold();
    ProductStream(ops, "2 + 3 * 4");
  }

  /** The characters of `a @%@ b`, one by one. */
  predicate AtPercentAtChars(text: string) {
    && |text| == 7
    && text[0] == 'a' && text[1] == ' ' && text[2] == '@' && text[3] == '%' && text[4] == '@' && text[5] == ' '
    && text[6] == 'b'
  }

  lemma AtPercentAtCharsHold()
    ensures AtPercentAtChars("a @%@ b")
  {
  }

  lemma AtPercentAtAt6(ops: set<string>, text: string, rest: seq<Token>)
    requires LegalLexemes(ops) && "@" in ops && "%" in ops
    requires "@%" !in ops && "@%@" !in ops && "%@" !in ops
    requires AtPercentAtChars(text)
    requires LexFrom(ops, text, 7) == Success(rest)
    ensures LexFrom(ops, text, 6) == Success([Id("b", 6)] + rest)
  {
    assert text[6..7] == "b";
    IdentifierAt(ops, text, 6, 7);
    LexToken(ops, text, 6, Id("b", 6), 7, rest);
  }

  lemma AtPercentAtAt4(ops: set<string>, text: string, rest: seq<Token>)
    requires LegalLexemes(ops) && "@" in ops && "%" in ops
    requires "@%" !in ops && "@%@" !in ops && "%@" !in ops
    requires AtPercentAtChars(text)
    requires LexFrom(ops, text, 6) == Success(rest)
    ensures LexFrom(ops, text, 4) == Success([Op("@", 4)] + rest)
  {
    assert text[4..5] == "@";
    SingleOperatorAt(ops, text, 4);
    LexSpace(ops, text, 5);
    LexToken(ops, text, 4, Op("@", 4), 5, rest);
  }

  lemma AtPercentAtAt3(ops: set<string>, text: string, rest: seq<Token>)
    requires LegalLexemes(ops) && "@" in ops && "%" in ops
    requires "@%" !in ops && "@%@" !in ops && "%@" !in ops
    requires AtPercentAtChars(text)
    requires LexFrom(ops, text, 4) == Success(rest)
    ensures LexFrom(ops, text, 3) == Success([Op("%", 3)] + rest)
  {
    assert text[3..4] == "%" && text[3..5] == "%@";
    LexemesStopAt(ops, text, 3, 5);
    OperatorTokenAt(ops, text, 3, 1);
    LexToken(ops, text, 3, Op("%", 3), 4, rest);
  }

  lemma AtPercentAtAt2(ops: set<string>, text: string, rest: seq<Token>)
    requires LegalLexemes(ops) && "@" in ops && "%" in ops
    requires "@%" !in ops && "@%@" !in ops && "%@" !in ops
    requires AtPercentAtChars(text)
    requires LexFrom(ops, text, 3) == Success(rest)
    ensures LexFrom(ops, text, 2) == Success([Op("@", 2)] + rest)
  {
    assert text[2..3] == "@" && text[2..4] == "@%" && text[2..5] == "@%@";
    LexemesStopAt(ops, text, 2, 5);
    OperatorTokenAt(ops, text, 2, 1);
    LexToken(ops, text, 2, Op("@", 2), 3, rest);
  }

  lemma AtPercentAtAt0(ops: set<string>, text: string, rest: seq<Token>)
    requires LegalLexemes(ops) && "@" in ops && "%" in ops
    requires "@%" !in ops && "@%@" !in ops && "%@" !in ops
    requires AtPercentAtChars(text)
    requires LexFrom(ops, text, 2) == Success(rest)
    ensures LexFrom(ops, text, 0) == Success([Id("a", 0)] + rest)
  {
    assert text[0..1] == "a";
    IdentifierAt(ops, text, 0, 1);
    LexSpace(ops, text, 1);
    LexToken(ops, text, 0, Id("a", 0), 1, rest);
  }

  lemma AtPercentAtStream(ops: set<string>, text: string)
    requires LegalLexemes(ops) && "@" in ops && "%" in ops
    requires "@%" !in ops && "@%@" !in ops && "%@" !in ops
    requires AtPercentAtChars(text)
    ensures LexFrom(ops, text, 0) == Success([Id("a", 0), Op("@", 2), Op("%", 3), Op("@", 4), Id("b", 6), Tok(EOF, 7)])
  {
    assert LexFrom(ops, text, 7) == Success([Tok(EOF, 7)]);
    AtPercentAtAt6(ops, text, [Tok(EOF, 7)]);
    AtPercentAtAt4(ops, text, [Id("b", 6)] + [Tok(EOF, 7)]);
    AtPercentAtAt3(ops, text, [Op("@", 4)] + ([Id("b", 6)] + [Tok(EOF, 7)]));
    AtPercentAtAt2(ops, text, [Op("%", 3)] + ([Op("@", 4)] + ([Id("b", 6)] + [Tok(EOF, 7)])));
    AtPercentAtAt0(ops, text, [Op("@", 2)] + ([Op("%", 3)] + ([Op("@", 4)] + ([Id("b", 6)] + [Tok(EOF, 7)]))));
    Nested6(Id("a", 0), Op("@", 2), Op("%", 3), Op("@", 4), Id("b", 6), Tok(EOF, 7));
  }

  /** With no lexeme `@%`, `@%@` or `%@` registered, `a @%@ b` lexes `@`, `%` and `@` one by one. */
  lemma AtPercentAtTokens(ops: set<string>)
    requires LegalLexemes(ops) && "@" in ops && "%" in ops
    requires "@%" !in ops && "@%@" !in ops && "%@" !in ops
    ensures Tokenize(ops, "a @%@ b") == Success([Id("a", 0), Op("@", 2), Op("%", 3), Op("@", 4), Id("b", 6), Tok(EOF, 7)])
  {
    AtPercentAtCharsHold();
    AtPercentAtStream(ops, "a @%@ b");
  }

  /** The characters of `1 + abc - cef * abc`, one by one. */
  predicate RepeatedChars(text: string) {
    && |text| == 19
    && text[0] == '1' && text[1] == ' ' && text[2] == '+' && text[3] == ' ' && text[4] == 'a' && text[5] == 'b'
    && text[6] == 'c' && text[7] == ' ' && text[8] == '-' && text[9] == ' ' && text[10] == 'c' && text[11] == 'e'
    && text[12] == 'f' && text[13] == ' ' && text[14] == '*' && text[15] == ' ' && text[16] == 'a' && text[17] == 'b'
    && text[18] == 'c'
  }

  lemma RepeatedCharsHold()
    ensures RepeatedChars("1 + abc - cef * abc")
  {
  }

  lemma RepeatedAt16(ops: set<string>, text: string, rest: seq<Token>)
    requires LegalLexemes(ops) && "+" in ops && "-" in ops && "*" in ops
    requires RepeatedChars(text)
    requires LexFrom(ops, text, 19) == Success(rest)
    ensures LexFrom(ops, text, 16) == Success([Id("abc", 16)] + rest)
  {
    assert text[16..19] == "abc";
    IdentifierAt(ops, text, 16, 19);
    LexToken(ops, text, 16, Id("abc", 16), 19, rest);
  }

  lemma RepeatedAt14(ops: set<string>, text: string, rest: seq<Token>)
    requires LegalLexemes(ops) && "+" in ops && "-" in ops && "*" in ops
    requires RepeatedChars(text)
    requires LexFrom(ops, text, 16) == Success(rest)
    ensures LexFrom(ops, text, 14) == Success([Op("*", 14)] + rest)
  {
    assert text[14..15] == "*";
    SingleOperatorAt(ops, text, 14);
    LexSpace(ops, text, 15);
    LexToken(ops, text, 14, Op("*", 14), 15, rest);
  }

  lemma RepeatedAt10(ops: set<string>, text: string, rest: seq<Token>)
    requires LegalLexemes(ops) && "+" in ops && "-" in ops && "*" in ops
    requires RepeatedChars(text)
    requires LexFrom(ops, text, 14) == Success(rest)
    ensures LexFrom(ops, text, 10) == Success([Id("cef", 10)] + rest)
  {
    assert text[10..13] == "cef";
    IdentifierAt(ops, text, 10, 13);
    LexSpace(ops, text, 13);
    LexToken(ops, text, 10, Id("cef", 10), 13, rest);
  }

  lemma RepeatedAt8(ops: set<string>, text: string, rest: seq<Token>)
    requires LegalLexemes(ops) && "+" in ops && "-" in ops && "*" in ops
    requires RepeatedChars(text)
    requires LexFrom(ops, text, 10) == Success(rest)
    ensures LexFrom(ops, text, 8) == Success([Op("-", 8)] + rest)
  {
    assert text[8..9] == "-";
    SingleOperatorAt(ops, text, 8);
    LexSpace(ops, text, 9);
    LexToken(ops, text, 8, Op("-", 8), 9, rest);
  }

  lemma RepeatedAt4(ops: set<string>, text: string, rest: seq<Token>)
    requires LegalLexemes(ops) && "+" in ops && "-" in ops && "*" in ops
    requires RepeatedChars(text)
    requires LexFrom(ops, text, 8) == Success(rest)
    ensures LexFrom(ops, text, 4) == Success([Id("abc", 4)] + rest)
  {
    assert text[4..7] == "abc";
    IdentifierAt(ops, text, 4, 7);
    LexSpace(ops, text, 7);
    LexToken(ops, text, 4, Id("abc", 4), 7, rest);
  }

  lemma RepeatedAt2(ops: set<string>, text: string, rest: seq<Token>)
    requires LegalLexemes(ops) && "+" in ops && "-" in ops && "*" in ops
    requires RepeatedChars(text)
    requires LexFrom(ops, text, 4) == Success(rest)
    ensures LexFrom(ops, text, 2) == Success([Op("+", 2)] + rest)
  {
    assert text[2..3] == "+";
    SingleOperatorAt(ops, text, 2);
    LexSpace(ops, text, 3);
    LexToken(ops, text, 2, Op("+", 2), 3, rest);
  }

  lemma RepeatedAt0(ops: set<string>, text: string, rest: seq<Token>)
    requires LegalLexemes(ops) && "+" in ops && "-" in ops && "*" in ops
    requires RepeatedChars(text)
    requires LexFrom(ops, text, 2) == Success(rest)
    ensures LexFrom(ops, text, 0) == Success([Num(1, 0)] + rest)
  {
    assert text[0..1] == "1" && DecimalValue("1") == 1;
    IntegerAt(ops, text, 0, 1);
    LexSpace(ops, text, 1);
    LexToken(ops, text, 0, Num(1, 0), 1, rest);
  }

  lemma RepeatedStream(ops: set<string>, text: string)
    requires LegalLexemes(ops) && "+" in ops && "-" in ops && "*" in ops
    requires RepeatedChars(text)
    ensures LexFrom(ops, text, 0) == Success([Num(1, 0), Op("+", 2), Id("abc", 4), Op("-", 8), Id("cef", 10), Op("*", 14), Id("abc", 16), Tok(EOF, 19)])
  {
    assert LexFrom(ops, text, 19) == Success([Tok(EOF, 19)]);
    RepeatedAt16(ops, text, [Tok(EOF, 19)]);
    RepeatedAt14(ops, text, [Id("abc", 16)] + [Tok(EOF, 19)]);
    RepeatedAt10(ops, text, [Op("*", 14)] + ([Id("abc", 16)] + [Tok(EOF, 19)]));
    RepeatedAt8(ops, text, [Id("cef", 10)] + ([Op("*", 14)] + ([Id("abc", 16)] + [Tok(EOF, 19)])));
    RepeatedAt4(ops, text, [Op("-", 8)] + ([Id("cef", 10)] + ([Op("*", 14)] + ([Id("abc", 16)] + [Tok(EOF, 19)]))));
    RepeatedAt2(ops, text, [Id("abc", 4)] + ([Op("-", 8)] + ([Id("cef", 10)] + ([Op("*", 14)] + ([Id("abc", 16)] + [Tok(EOF, 19)])))));
    RepeatedAt0(ops, text, [Op("+", 2)] + ([Id("abc", 4)] + ([Op("-", 8)] + ([Id("cef", 10)] + ([Op("*", 14)] + ([Id("abc", 16)] + [Tok(EOF, 19)]))))));
    Nested8(Num(1, 0), Op("+", 2), Id("abc", 4), Op("-", 8), Id("cef", 10), Op("*", 14), Id("abc", 16), Tok(EOF, 19));
  }

  /** `1 + abc - cef * abc` lexes as four operands between three operators. */
  lemma RepeatedTokens(ops: set<string>)
    requires LegalLexemes(ops) && "+" in ops && "-" in ops && "*" in ops
    ensures Tokenize(ops, "1 + abc - cef * abc") == Success([Num(1, 0), Op("+", 2), Id("abc", 4), Op("-", 8), Id("cef", 10), Op("*", 14), Id("abc", 16), Tok(EOF, 19)])
  {
    RepeatedCharsHold();
    RepeatedStream(ops, "1 + abc - cef * abc");
  }

  /** The characters of `-sqrt(4) + 10`, one by one. */
  predicate NegationChars(text: string) {
    && |text| == 13
    && text[0] == '-' && text[1] == 's' && text[2] == 'q' && text[3] == 'r' && text[4] == 't' && text[5] == '('
    && text[6] == '4' && text[7] == ')' && text[8] == ' ' && text[9] == '+' && text[10] == ' ' && text[11] == '1'
    && text[12] == '0'
  }

  lemma NegationCharsHold()
    ensures NegationChars("-sqrt(4) + 10")
  {
  }

  lemma NegationAt11(ops: set<string>, text: string, rest: seq<Token>)
    requires LegalLexemes(ops) && "-" in ops && "+" in ops
    requires NegationChars(text)
    requires LexFrom(ops, text, 13) == Success(rest)
    ensures LexFrom(ops, text, 11) == Success([Num(10, 11)] + rest)
  {
    assert text[11..13] == "10" && DecimalValue("10") == 10;
    IntegerAt(ops, text, 11, 13);
    LexToken(ops, text, 11, Num(10, 11), 13, rest);
  }

  lemma NegationAt9(ops: set<string>, text: string, rest: seq<Token>)
    requires LegalLexemes(ops) && "-" in ops && "+" in ops
    requires NegationChars(text)
    requires LexFrom(ops, text, 11) == Success(rest)
    ensures LexFrom(ops, text, 9) == Success([Op("+", 9)] + rest)
  {
    assert text[9..10] == "+";
    SingleOperatorAt(ops, text, 9);
    LexSpace(ops, text, 10);
    LexToken(ops, text, 9, Op("+", 9), 10, rest);
  }

  lemma NegationAt7(ops: set<string>, text: string, rest: seq<Token>)
    requires LegalLexemes(ops) && "-" in ops && "+" in ops
    requires NegationChars(text)
    requires LexFrom(ops, text, 9) == Success(rest)
    ensures LexFrom(ops, text, 7) == Success([Tok(RPAREN, 7)] + rest)
  {
    PunctuationAt(ops, text, 7);
    LexSpace(ops, text, 8);
    LexToken(ops, text, 7, Tok(RPAREN, 7), 8, rest);
  }

  lemma NegationAt6(ops: set<string>, text: string, rest: seq<Token>)
    requires LegalLexemes(ops) && "-" in ops && "+" in ops
    requires NegationChars(text)
    requires LexFrom(ops, text, 7) == Success(rest)
    ensures LexFrom(ops, text, 6) == Success([Num(4, 6)] + rest)
  {
    assert text[6..7] == "4" && DecimalValue("4") == 4;
    IntegerAt(ops, text, 6, 7);
    LexToken(ops, text, 6, Num(4, 6), 7, rest);
  }

  lemma NegationAt5(ops: set<string>, text: string, rest: seq<Token>)
    requires LegalLexemes(ops) && "-" in ops && "+" in ops
    requires NegationChars(text)
    requires LexFrom(ops, text, 6) == Success(rest)
    ensures LexFrom(ops, text, 5) == Success([Tok(LPAREN, 5)] + rest)
  {
    PunctuationAt(ops, text, 5);
    LexToken(ops, text, 5, Tok(LPAREN, 5), 6, rest);
  }

  lemma NegationAt1(ops: set<string>, text: string, rest: seq<Token>)
    requires LegalLexemes(ops) && "-" in ops && "+" in ops
    requires NegationChars(text)
    requires LexFrom(ops, text, 5) == Success(rest)
    ensures LexFrom(ops, text, 1) == Success([Id("sqrt", 1)] + rest)
  {
    assert text[1..5] == "sqrt";
    IdentifierAt(ops, text, 1, 5);
    LexToken(ops, text, 1, Id("sqrt", 1), 5, rest);
  }

  lemma NegationAt0(ops: set<string>, text: string, rest: seq<Token>)
    requires LegalLexemes(ops) && "-" in ops && "+" in ops
    requires NegationChars(text)
    requires LexFrom(ops, text, 1) == Success(rest)
    ensures LexFrom(ops, text, 0) == Success([Op("-", 0)] + rest)
  {
    assert text[0..1] == "-";
    SingleOperatorAt(ops, text, 0);
    LexToken(ops, text, 0, Op("-", 0), 1, rest);
  }

  lemma NegationStream(ops: set<string>, text: string)
    requires LegalLexemes(ops) && "-" in ops && "+" in ops
    requires NegationChars(text)
    ensures LexFrom(ops, text, 0) == Success([Op("-", 0), Id("sqrt", 1), Tok(LPAREN, 5), Num(4, 6), Tok(RPAREN, 7), Op("+", 9), Num(10, 11), Tok(EOF, 13)])
  {
    assert LexFrom(ops, text, 13) == Success([Tok(EOF, 13)]);
    NegationAt11(ops, text, [Tok(EOF, 13)]);
    NegationAt9(ops, text, [Num(10, 11)] + [Tok(EOF, 13)]);
    NegationAt7(ops, text, [Op("+", 9)] + ([Num(10, 11)] + [Tok(EOF, 13)]));
    NegationAt6(ops, text, [Tok(RPAREN, 7)] + ([Op("+", 9)] + ([Num(10, 11)] + [Tok(EOF, 13)])));
    NegationAt5(ops, text, [Num(4, 6)] + ([Tok(RPAREN, 7)] + ([Op("+", 9)] + ([Num(10, 11)] + [Tok(EOF, 13)]))));
    NegationAt1(ops, text, [Tok(LPAREN, 5)] + ([Num(4, 6)] + ([Tok(RPAREN, 7)] + ([Op("+", 9)] + ([Num(10, 11)] + [Tok(EOF, 13)])))));
    NegationAt0(ops, text, [Id("sqrt", 1)] + ([Tok(LPAREN, 5)] + ([Num(4, 6)] + ([Tok(RPAREN, 7)] + ([Op("+", 9)] + ([Num(10, 11)] + [Tok(EOF, 13)]))))));
    Nested8(Op("-", 0), Id("sqrt", 1), Tok(LPAREN, 5), Num(4, 6), Tok(RPAREN, 7), Op("+", 9), Num(10, 11), Tok(EOF, 13));
  }

  /** `-sqrt(4) + 10` lexes as a prefix minus, a call of `sqrt` on `4`, a plus and `10`. */
  lemma NegationTokens(ops: set<string>)
    requires LegalLexemes(ops) && "-" in ops && "+" in ops
    ensures Tokenize(ops, "-sqrt(4) + 10") == Success([Op("-", 0), Id("sqrt", 1), Tok(LPAREN, 5), Num(4, 6), Tok(RPAREN, 7), Op("+", 9), Num(10, 11), Tok(EOF, 13)])
  {
    NegationCharsHold();
    NegationStream(ops, "-sqrt(4) + 10");
  }
  // ----- from text to tree -----

  /** `10 / 2 - 3` reads as `(10 / 2) - 3`. */
  lemma DivisionText(g: Grammar, ops: set<string>)
    requires PredefinedGrammar(g) && LegalLexemes(ops) && "/" in ops && "-" in ops
    ensures ParseText(g, ops, "10 / 2 - 3") == Success(BinaryOpNode("-", BinaryOpNode("/", Int(10), Int(2)), Int(3)))
  {
    DivisionTokens(ops);
    DivisionBeforeSubtraction(g);
  }

  /** `2 + 3 * 4` reads as `2 + (3 * 4)`. */
  lemma ProductText(g: Grammar, ops: set<string>)
    requires PredefinedGrammar(g) && LegalLexemes(ops) && "+" in ops && "*" in ops
    ensures ParseText(g, ops, "2 + 3 * 4") == Success(BinaryOpNode("+", Int(2), BinaryOpNode("*", Int(3), Int(4))))
  {
    ProductTokens(ops);
    MultiplicationBeforeAddition(g);
  }

  /** `a @%@ b` is rejected at the `%`, which is not a prefix operator. */
  lemma AtPercentAtText(g: Grammar, ops: set<string>)
    requires PredefinedGrammar(g) && LegalLexemes(ops) && "@" in ops && "%" in ops
    requires "@%" !in ops && "@%@" !in ops && "%@" !in ops
    ensures ParseText(g, ops, "a @%@ b") == Failure(NotUnaryOperator(3))
  {
    AtPercentAtTokens(ops);
    AtPercentAtRejected(g);
  }

  /** In `1 + abc - cef * abc` both `abc` operands are the same node. */
  lemma RepeatedText(g: Grammar, ops: set<string>)
    requires PredefinedGrammar(g) && LegalLexemes(ops) && "+" in ops && "-" in ops && "*" in ops
    ensures ParseText(g, ops, "1 + abc - cef * abc")
      == Success(BinaryOpNode("-", BinaryOpNode("+", Int(1), IdentifierNode("abc", 0)),
                              BinaryOpNode("*", IdentifierNode("cef", 1), IdentifierNode("abc", 0))))
  {
    RepeatedTokens(ops);
    RepeatedIdentifier(g);
  }

  /** `-sqrt(4) + 10` reads as `(-(sqrt(4))) + 10`. */
  lemma NegatedCallText(g: Grammar, ops: set<string>)
    requires PredefinedGrammar(g) && LegalLexemes(ops) && "-" in ops && "+" in ops
    ensures ParseText(g, ops, "-sqrt(4) + 10")
      == Success(BinaryOpNode("+", UnaryOpNode("-", FunctionCallNode(IdentifierNode("sqrt", 0), [Int(4)], [])), Int(10)))
  {
    NegationTokens(ops);
    NegatedCall(g);
  }

  /** The nineteen lexemes of a freshly built parser. */
  lemma PredefinedLexemeSet()
    ensures OpManager.PredefinedBinaryOperators.Keys + OpManager.PredefinedUnaryOperators.Keys
      == {"<", "<=", "==", "!=", ">=", ">", "|", "^", "&", "<<", ">>", "+", "-", "*", "/", "//", "%", "@", "~"}
  {
    OpManager.PredefinedBinaryLexemes();
    OpManager.PredefinedSharedLexemes();
  }

  /**
   * The lexemes of a freshly built parser meet the premises of every example
   * above: they are legal, they include the operators the examples use, and
   * none of `@%`, `@%@` and `%@` is registered.
   */
  lemma PredefinedLexemes()
    ensures var ops := OpManager.PredefinedBinaryOperators.Keys + OpManager.PredefinedUnaryOperators.Keys;
      && LegalLexemes(ops)
      && "+" in ops && "-" in ops && "*" in ops && "/" in ops && "@" in ops && "%" in ops
      && "@%" !in ops && "@%@" !in ops && "%@" !in ops
  {
    PredefinedLexemesLegal();
    PredefinedLexemeSet();
    NotPredefinedLexeme("@%");
    NotPredefinedLexeme("@%@");
    NotPredefinedLexeme("%@");
  }

  /** A text longer than two characters, or of two not starting with a comparison or `/`, is no predefined lexeme. */
  lemma NotPredefinedLexeme(s: string)
    requires |s| > 2 || (|s| == 2 && s[0] != '<' && s[0] != '=' && s[0] != '!' && s[0] != '>' && s[0] != '/')
    ensures s !in OpManager.PredefinedBinaryOperators && s !in OpManager.PredefinedUnaryOperators
  {
    PredefinedLexemeLengths();
  }

  /** Every lexeme of a freshly built parser is a legal, non-empty operator. */
  lemma PredefinedLexemesLegal()
    ensures LegalLexemes(OpManager.PredefinedBinaryOperators.Keys + OpManager.PredefinedUnaryOperators.Keys)
  {
    OpManager.PredefinedNonEmpty();
    OpManager.PredefinedOperatorsLegal();
  }

  /** Each predefined lexeme has at most two characters; the two-character ones start with a comparison or `/`. */
  lemma PredefinedLexemeLengths()
    ensures forall op :: op in OpManager.PredefinedBinaryOperators ==>
      |op| <= 2 && (|op| == 2 ==> op[0] == '<' || op[0] == '=' || op[0] == '!' || op[0] == '>' || op[0] == '/')
    ensures forall op :: op in OpManager.PredefinedUnaryOperators ==> |op| == 1
  {
  }
}
