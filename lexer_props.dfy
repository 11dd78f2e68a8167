/**
 * Properties of the token stream: its shape, where each token and each
 * error sits in the text, the operator choice, and the decoding of string
 * and attribute lexemes.
 */
module LexProps {
  import opened Wrappers
  import opened Errors
  import opened Decimal
  import opened LexSpec
  import OpManager

  /** The text at the token's position is what the token's rule starts on. */
  predicate StartsLexeme(t: Token, text: string) {
    if t.kind.EOF? then t.position == |text|
    else
      0 <= t.position < |text| &&
      var c := text[t.position];
      match t.kind
      case NUMBER(_) => IsDigit(c)
      case STRING(_) => c == '"'
      case OPERATOR(op) => op != "" && MatchesAt(op, text, t.position)
      case IDENTIFIER(name) => name != "" && MatchesAt(name, text, t.position)
      case ATTRIBUTION(_) => c == '.'
      case ASSIGNMENT => c == '='
      case LPAREN => c == '('
      case RPAREN => c == ')'
      case LSQUARE => c == '['
      case RSQUARE => c == ']'
      case COMMA => c == ','
      case COLON => c == ':'
  }

  /**
   * A token stream read from offset `p`: one EOF, last, at the end of the
   * text; every other token starts its lexeme at its position; positions
   * strictly increase and are at least `p`.
   */
  predicate WellFormedStream(ts: seq<Token>, text: string, p: nat) {
    && |ts| >= 1
    && ts[|ts| - 1] == Token(EOF, |text|)
    && (forall i :: 0 <= i < |ts| - 1 ==> !ts[i].kind.EOF?)
    && (forall i :: 0 <= i < |ts| ==> p <= ts[i].position && StartsLexeme(ts[i], text))
    && (forall i, j :: 0 <= i < j < |ts| ==> ts[i].position < ts[j].position)
  }

  /** The token of one rule starts its lexeme at the rule's offset. */
  lemma NextTokenStarts(ops: set<string>, text: string, p: nat)
    requires p < |text| && "" !in ops
    requires NextToken(ops, text, p).Success?
    ensures !NextToken(ops, text, p).value.0.kind.EOF?
    ensures StartsLexeme(NextToken(ops, text, p).value.0, text)
  {
    var c := text[p];
    if !IsDigit(c) && c != '"' && IsIdentStart(c) {
      var e := RunEnd(text, p + 1, IsIdentChar);
      assert MatchesAt(text[p..e], text, p);
    }
  }

  /** Every successful token stream is well formed. */
  lemma {:induction false} StreamShape(ops: set<string>, text: string, p: nat)
    requires p <= |text| && "" !in ops
    requires LexFrom(ops, text, p).Success?
    ensures WellFormedStream(LexFrom(ops, text, p).value, text, p)
    decreases |text| - p
  {
    if p == |text| {
    } else if IsSpace(text[p]) {
      StreamShape(ops, text, RunEnd(text, p, IsSpace));
    } else {
      var n := NextToken(ops, text, p);
      var (t, e) := n.value;
      StreamShape(ops, text, e);
      NextTokenStarts(ops, text, p);
      StreamCons(t, LexFrom(ops, text, e).value, text, p, e);
    }
  }

  /** A token that starts its lexeme at `p`, in front of a stream read from beyond `p`, is a stream read from `p`. */
  lemma StreamCons(t: Token, rest: seq<Token>, text: string, p: nat, e: nat)
    requires WellFormedStream(rest, text, e) && t.position == p < e
    requires !t.kind.EOF? && StartsLexeme(t, text)
    ensures WellFormedStream([t] + rest, text, p)
  {
    var ts := [t] + rest;
    forall i, j | 0 <= i < j < |ts|
      ensures ts[i].position < ts[j].position
    {
      if i > 0 {
        assert ts[i] == rest[i - 1] && ts[j] == rest[j - 1];
      } else {
        assert ts[j] == rest[j - 1];
      }
    }
    forall i | 0 <= i < |ts|
      ensures p <= ts[i].position && StartsLexeme(ts[i], text)
    {
      if i > 0 {
        assert ts[i] == rest[i - 1];
      }
    }
    forall i | 0 <= i < |ts| - 1
      ensures !ts[i].kind.EOF?
    {
      if i > 0 {
        assert ts[i] == rest[i - 1];
      }
    }
  }

  /** A character that no rule starts on. */
  predicate Unlexable(c: char) {
    !IsSpace(c) && !IsDigit(c) && c != '"' && !IsIdentStart(c) && c != '.' &&
    !OpManager.IsAvailableChar(c) && PunctuationKind(c).None?
  }

  /** A lexing error names an offset in the text and what is found there. */
  predicate ErrorSite(err: SyntaxError, text: string, p: nat) {
    match err
    case UnknownCharacter(q) => p <= q < |text| && Unlexable(text[q])
    case UnsupportedEscape(q) => p <= q < |text| && text[q] == '\\'
    case UnterminatedString(q) => p <= q < |text| && text[q] == '"'
    case UnsupportedOperator(q) => p <= q < |text| && OpManager.IsAvailableChar(text[q]) && text[q] != '='
    case MalformedAttribution(q) => p <= q < |text| && text[q] == '.'
    case _ => false
  }

  lemma NextTokenErrorSite(ops: set<string>, text: string, p: nat)
    requires p < |text| && !IsSpace(text[p])
    requires NextToken(ops, text, p).Failure?
    ensures ErrorSite(NextToken(ops, text, p).error, text, p)
  {
  }

  /** Every lexing error is one of the five lexer kinds, at an offset that shows it. */
  lemma {:induction false} ErrorSites(ops: set<string>, text: string, p: nat)
    requires p <= |text|
    requires LexFrom(ops, text, p).Failure?
    ensures ErrorSite(LexFrom(ops, text, p).error, text, p)
    decreases |text| - p
  {
    if p == |text| {
    } else if IsSpace(text[p]) {
      ErrorSites(ops, text, RunEnd(text, p, IsSpace));
    } else if NextToken(ops, text, p).Failure? {
      NextTokenErrorSite(ops, text, p);
    } else {
      ErrorSites(ops, text, NextToken(ops, text, p).value.1);
    }
  }

  /** A text that starts with Chinese characters is rejected at offset 0, whatever the operators are. */
  lemma ChineseRejected(ops: set<string>)
    ensures Tokenize(ops, "\U{6d4b}\U{8bd5}") == Failure(UnknownCharacter(0))
  {
  }

  /**
   * The lexeme read at `p` comes first when the registered lexemes are
   * scanned in reverse-sorted order: every other lexeme found at `p` sorts
   * before it, and there is none only when no lexeme is found at `p`.
   */
  lemma OperatorAtIsGreatest(ops: set<string>, text: string, p: nat)
    requires p <= |text| && "" !in ops
    ensures OperatorAt(ops, text, p).Some? ==>
      forall op :: op in ops && MatchesAt(op, text, p) ==>
        op == OperatorAt(ops, text, p).value || StrLess(op, OperatorAt(ops, text, p).value)
    ensures OperatorAt(ops, text, p).None? <==> forall op :: op in ops ==> !MatchesAt(op, text, p)
  {
    var m := OperatorAt(ops, text, p);
    if m.Some? {
      forall op | op in ops && MatchesAt(op, text, p)
        ensures op == m.value || StrLess(op, m.value)
      {
        MatchOrder(op, m.value, text, p);
        if |op| == |m.value| {
          assert op == text[p..p + |op|] == m.value;
        }
      }
    }
  }

  /** `<=` is read as one operator, not as `<` followed by `=`. */
  lemma LessEqualOverLess(ops: set<string>)
    requires "<" in ops && "<=" in ops
    requires forall op :: op in ops ==> OpManager.IsOperatorLegal(op)
    ensures OperatorAt(ops, "1 <= 2", 2) == Some("<=")
  {
    var text := "1 <= 2";
    assert text[2..6][2] == ' ' && text[2..5][2] == ' ';
    assert text[2..4] == "<=";
  }

  /** After `&*` is registered beside `&`, the text `&*3` starts with the operator `&*`. */
  lemma LongerLexemeFirst(ops: set<string>)
    requires "&" in ops && "&*" in ops
    requires forall op :: op in ops ==> OpManager.IsOperatorLegal(op)
    ensures OperatorAt(ops, "&*3", 0) == Some("&*")
  {
    var text := "&*3";
    assert text[0..3][2] == '3';
    assert text[0..2] == "&*";
  }

  /**
   * At an operator character, the rule yields an assignment token exactly
   * when the character is `=` and no registered lexeme is found there; the
   * assignment token is one character long.
   */
  lemma UnmatchedAssignment(ops: set<string>, text: string, p: nat)
    requires p < |text| && "" !in ops
    ensures var r := OperatorToken(ops, text, p);
      (r.Success? && r.value.0.kind.ASSIGNMENT?) <==> text[p] == '=' && forall op :: op in ops ==> !MatchesAt(op, text, p)
    ensures var r := OperatorToken(ops, text, p);
      r.Success? && r.value.0.kind.ASSIGNMENT? ==> r.value == (Token(ASSIGNMENT, p), p + 1)
  {
    OperatorAtIsGreatest(ops, text, p);
  }

  /** A lone `=` that is no registered lexeme is the assignment of a keyword argument. */
  lemma KeywordAssignment(ops: set<string>)
    requires "=" !in ops
    requires forall op :: op in ops ==> OpManager.IsOperatorLegal(op)
    ensures OperatorToken(ops, "k=1", 1) == Success((Token(ASSIGNMENT, 1), 2))
  {
    var text := "k=1";
    assert text[1..3][1] == '1';
    assert text[1..2] == "=";
  }

  // ----- number lexemes -----

  /** `text[i..j]` is a run of digits that the next character does not continue. */
  predicate MaximalDigits(text: string, i: nat, j: nat) {
    i < j <= |text| && AllDigits(text[i..j]) && (j == |text| || !IsDigit(text[j]))
  }

  /** A `.` at `d` with a digit after it: the start of a fraction. */
  predicate FractionStart(text: string, d: nat) {
    d + 1 < |text| && text[d] == '.' && IsDigit(text[d + 1])
  }

  /** Where the digits of an exponent whose `e` or `E` is at `f` begin: past an optional sign. */
  function ExponentDigits(text: string, f: nat): nat {
    if f + 1 < |text| && (text[f + 1] == '+' || text[f + 1] == '-') then f + 2 else f + 1
  }

  /** An `e` or `E` at `f`, an optional sign, and at least one digit: a complete exponent. */
  predicate ExponentStart(text: string, f: nat) {
    f < |text| && (text[f] == 'e' || text[f] == 'E') &&
    ExponentDigits(text, f) < |text| && IsDigit(text[ExponentDigits(text, f)])
  }

  /**
   * The number lexeme at `p` is the longest match of digits, an optional
   * `.digits` and an optional complete exponent: the integer digits end at
   * `d`, the fraction at `f` and the exponent at `NumberEnd`. Each part is
   * taken exactly when it is there in full, and each digit run is maximal.
   */
  lemma NumberLexemeShape(text: string, p: nat)
    requires p < |text| && IsDigit(text[p])
    ensures var d := RunEnd(text, p, IsDigit);
      var f := FractionEnd(text, d);
      var x := NumberEnd(text, p);
      && MaximalDigits(text, p, d)
      && (f == d <==> !FractionStart(text, d))
      && (f != d ==> text[d] == '.' && MaximalDigits(text, d + 1, f))
      && (x == f <==> !ExponentStart(text, f))
      && (x != f ==> (text[f] == 'e' || text[f] == 'E') && MaximalDigits(text, ExponentDigits(text, f), x))
  {
    IntegerPartShape(text, p);
    var d := RunEnd(text, p, IsDigit);
    FractionShape(text, d);
    ExponentShape(text, p, FractionEnd(text, d));
  }

  /** The integer part of a number lexeme is the longest run of digits at its start. */
  lemma IntegerPartShape(text: string, p: nat)
    requires p < |text| && IsDigit(text[p])
    ensures MaximalDigits(text, p, RunEnd(text, p, IsDigit))
  {
    var d := RunEnd(text, p, IsDigit);
    assert AllDigits(text[p..d]) by {
      forall k | 0 <= k < d - p ensures IsDigit(text[p..d][k]) { assert text[p..d][k] == text[p + k]; }
    }
  }

  /** The fraction of a number lexeme, when there is one, is a `.` and the longest run of digits after it. */
  lemma FractionShape(text: string, d: nat)
    requires d <= |text|
    ensures var f := FractionEnd(text, d);
      && (f == d <==> !FractionStart(text, d))
      && (f != d ==> text[d] == '.' && MaximalDigits(text, d + 1, f))
  {
    var f := FractionEnd(text, d);
    if f != d {
      var fraction := text[d + 1..f];
      assert AllDigits(fraction) by {
        forall k | 0 <= k < |fraction| ensures IsDigit(fraction[k]) { assert fraction[k] == text[d + 1 + k]; }
      }
    }
  }

  /** The exponent of a number lexeme, when there is one, is `e` or `E`, an optional sign and the longest run of digits after it. */
  lemma ExponentShape(text: string, p: nat, f: nat)
    requires p < |text| && IsDigit(text[p]) && f == FractionEnd(text, RunEnd(text, p, IsDigit))
    ensures var x := NumberEnd(text, p);
      && (x == f <==> !ExponentStart(text, f))
      && (x != f ==> (text[f] == 'e' || text[f] == 'E') && MaximalDigits(text, ExponentDigits(text, f), x))
  {
    var x := NumberEnd(text, p);
    if x != f {
      var e := ExponentDigits(text, f);
      assert AllDigits(text[e..x]) by {
        forall k | 0 <= k < x - e ensures IsDigit(text[e..x][k]) { assert text[e..x][k] == text[e + k]; }
      }
    }
  }

  /**
   * The value of a number token: the decimal value of the lexeme when it is
   * only the integer digits, otherwise the lexeme kept for a float.
   */
  lemma NumberTokenValue(text: string, p: nat)
    requires p < |text| && IsDigit(text[p])
    ensures var d := RunEnd(text, p, IsDigit);
      var x := NumberEnd(text, p);
      && NumberToken(text, p).1 == x
      && (x == d ==> AllDigits(text[p..x]) && NumberToken(text, p).0.kind == NUMBER(IntValue(DecimalValue(text[p..x]))))
      && (x != d ==> NumberToken(text, p).0.kind == NUMBER(FloatValue(text[p..x])))
  {
    var d := RunEnd(text, p, IsDigit);
    var x := NumberEnd(text, p);
    NumberLexemeShape(text, p);
    if x != d {
      assert d < x && !IsDigit(text[d]) by {
        if FractionEnd(text, d) == d { assert text[d] == 'e' || text[d] == 'E'; }
      }
      assert text[p..x][d - p] == text[d];
    }
  }

  // ----- stepping through a text -----

  /** No registered lexeme is empty and every one is spelled from operator characters. */
  predicate LegalLexemes(ops: set<string>) {
    "" !in ops && forall op :: op in ops ==> OpManager.IsOperatorLegal(op)
  }

  /** A run ends where its property first fails. */
  lemma {:induction false} RunEndAt(text: string, i: nat, p: char -> bool, e: nat)
    requires i <= e <= |text| && (forall k :: i <= k < e ==> p(text[k])) && (e == |text| || !p(text[e]))
    ensures RunEnd(text, i, p) == e
    decreases e - i
  {
    if i < e {
      RunEndAt(text, i + 1, p, e);
    }
  }

  /** A single space is skipped. */
  lemma LexSpace(ops: set<string>, text: string, p: nat)
    requires p < |text| && text[p] == ' ' && (p + 1 == |text| || text[p + 1] != ' ')
    ensures LexFrom(ops, text, p) == LexFrom(ops, text, p + 1)
  {
    RunEndAt(text, p, IsSpace, p + 1);
  }

  /** A token read at a non-space character is the head of the stream, the stream after it the tail. */
  lemma LexToken(ops: set<string>, text: string, p: nat, t: Token, e: nat, rest: seq<Token>)
    requires p < |text| && text[p] != ' ' && NextToken(ops, text, p) == Success((t, e))
    requires LexFrom(ops, text, e) == Success(rest)
    ensures LexFrom(ops, text, p) == Success([t] + rest)
  {
  }

  /** Digits not followed by a digit, a `.` or an exponent letter are an integer token of their decimal value. */
  lemma IntegerAt(ops: set<string>, text: string, p: nat, e: nat)
    requires p < e <= |text| && AllDigits(text[p..e])
    requires e == |text| || !(IsDigit(text[e]) || text[e] == '.' || text[e] == 'e' || text[e] == 'E')
    ensures NextToken(ops, text, p) == Success((Token(NUMBER(IntValue(DecimalValue(text[p..e]))), p), e))
  {
    forall k | p <= k < e ensures IsDigit(text[k]) { assert text[p..e][k - p] == text[k]; }
    RunEndAt(text, p, IsDigit, e);
    assert IsDigit(text[p]);
  }

  /** A letter or `_` and the identifier characters after it, up to the first other character, are an identifier. */
  lemma IdentifierAt(ops: set<string>, text: string, p: nat, e: nat)
    requires p < e <= |text| && IsIdentStart(text[p])
    requires (forall k :: p < k < e ==> IsIdentChar(text[k])) && (e == |text| || !IsIdentChar(text[e]))
    ensures NextToken(ops, text, p) == Success((Token(IDENTIFIER(text[p..e]), p), e))
  {
    RunEndAt(text, p + 1, IsIdentChar, e);
  }

  /**
   * At an operator character, the registered lexeme `text[p..p + n]` is read
   * when no registered lexeme found at `p` is longer.
   */
  lemma OperatorTokenAt(ops: set<string>, text: string, p: nat, n: nat)
    requires 0 < n && p + n <= |text| && text[p..p + n] in ops && OpManager.IsAvailableChar(text[p])
    requires forall op :: op in ops && MatchesAt(op, text, p) ==> |op| <= n
    ensures NextToken(ops, text, p) == Success((Token(OPERATOR(text[p..p + n]), p), p + n))
  {
    var m := OperatorAt(ops, text, p);
    assert MatchesAt(text[p..p + n], text, p);
    assert m.Some? && |m.value| == n;
  }

  /** No legal lexeme found at `p` reaches past a character that is no operator character. */
  lemma LexemesStopAt(ops: set<string>, text: string, p: nat, q: nat)
    requires LegalLexemes(ops) && p <= q < |text| && !OpManager.IsAvailableChar(text[q])
    ensures forall op :: op in ops && MatchesAt(op, text, p) ==> |op| <= q - p
  {
    forall op | op in ops && MatchesAt(op, text, p) ensures |op| <= q - p {
      if |op| > q - p {
        LegalLexemeChar(op, text, p, q);
      }
    }
  }

  /** Every character a legal lexeme covers in the text is an operator character. */
  lemma LegalLexemeChar(op: string, text: string, p: nat, q: nat)
    requires OpManager.IsOperatorLegal(op) && MatchesAt(op, text, p) && p <= q < p + |op|
    ensures OpManager.IsAvailableChar(text[q])
  {
    assert op[q - p] == text[q];
  }

  /** A registered one-character lexeme not followed by an operator character is an operator token. */
  lemma SingleOperatorAt(ops: set<string>, text: string, p: nat)
    requires LegalLexemes(ops) && p < |text| && text[p..p + 1] in ops
    requires p + 1 == |text| || !OpManager.IsAvailableChar(text[p + 1])
    ensures NextToken(ops, text, p) == Success((Token(OPERATOR(text[p..p + 1]), p), p + 1))
  {
    assert text[p..p + 1][0] == text[p];
    if p + 1 < |text| {
      LexemesStopAt(ops, text, p, p + 1);
    } else {
      forall op | op in ops && MatchesAt(op, text, p) ensures |op| <= 1 { }
    }
    OperatorTokenAt(ops, text, p, 1);
  }

  /** A bracket, a comma or a colon is a token of one character. */
  lemma PunctuationAt(ops: set<string>, text: string, p: nat)
    requires p < |text| && PunctuationKind(text[p]).Some?
    ensures NextToken(ops, text, p) == Success((Token(PunctuationKind(text[p]).value, p), p + 1))
  {
  }

  /** The characters a string value cannot hold unescaped. */
  predicate NeedsEscape(c: char) {
    c == '\n' || c == '\t' || c == '"' || c == '\\'
  }

  /** The letter after the backslash in the escape of `c`. */
  function EscapeCode(c: char): char {
    if c == '\n' then 'n' else if c == '\t' then 't' else c
  }

  /** The source text of one character of a string value. */
  function EscapeChar(c: char): string {
    if NeedsEscape(c) then ['\\', EscapeCode(c)] else [c]
  }

  function Escape(v: string): string
    decreases |v|
  {
    if |v| == 0 then "" else EscapeChar(v[0]) + Escape(v[1..])
  }

  /** Each escaped character is either itself, not a quote or backslash, or a backslash pair that decodes to it. */
  lemma EscapeCharDecodes(c: char)
    ensures |EscapeChar(c)| == 1 || |EscapeChar(c)| == 2
    ensures |EscapeChar(c)| == 1 ==> EscapeChar(c)[0] == c && c != '"' && c != '\\'
    ensures |EscapeChar(c)| == 2 ==> EscapeChar(c)[0] == '\\' && EscapedChar(EscapeChar(c)[1]) == Some(c)
  {
  }

  /** `w` occurs in `text` at offset `i`. */
  predicate OccursAt(w: string, text: string, i: nat) {
    i + |w| <= |text| && forall j :: 0 <= j < |w| ==> text[i + j] == w[j]
  }

  /** Scanning the escaped form of one character decodes that character. */
  lemma ScanEscapedChar(c: char, text: string, i: nat, start: int)
    requires OccursAt(EscapeChar(c), text, i) && i + |EscapeChar(c)| < |text|
    ensures ScanString(text, i, start) == ConsValue(c, ScanString(text, i + |EscapeChar(c)|, start))
  {
    var x := EscapeChar(c);
    assert text[i + 0] == x[0];
    if |x| == 2 {
      assert text[i + 1] == x[1];
    }
  }

  /** An occurrence of `x + y` is an occurrence of `x` followed by one of `y`. */
  lemma OccursSplit(x: string, y: string, text: string, i: nat)
    requires OccursAt(x + y, text, i)
    ensures OccursAt(x, text, i) && OccursAt(y, text, i + |x|)
  {
    forall j | 0 <= j < |x| ensures text[i + j] == x[j] { assert (x + y)[j] == x[j]; }
    forall j | 0 <= j < |y| ensures text[i + |x| + j] == y[j] { assert (x + y)[|x| + j] == y[j]; }
  }

  /** The escaped form of a non-empty value, quote included, splits after its first character. */
  lemma EscapeCons(v: string)
    requires |v| > 0
    ensures Escape(v) + "\"" == EscapeChar(v[0]) + (Escape(v[1..]) + "\"")
  {
  }

  /** One step of scanning an escaped value: its first character, then the rest of the occurrence. */
  lemma ScanEscapedStep(v: string, text: string, i: nat, start: int)
    requires |v| > 0 && OccursAt(Escape(v) + "\"", text, i)
    ensures |Escape(v)| == |EscapeChar(v[0])| + |Escape(v[1..])|
    ensures OccursAt(Escape(v[1..]) + "\"", text, i + |EscapeChar(v[0])|)
    ensures ScanString(text, i, start) == ConsValue(v[0], ScanString(text, i + |EscapeChar(v[0])|, start))
  {
    EscapeCons(v);
    OccursSplit(EscapeChar(v[0]), Escape(v[1..]) + "\"", text, i);
    ScanEscapedChar(v[0], text, i, start);
  }

  /** Scanning an escaped value followed by a closing quote decodes the value. */
  lemma {:induction false} ScanEscaped(v: string, text: string, i: nat, start: int)
    requires OccursAt(Escape(v) + "\"", text, i)
    ensures ScanString(text, i, start) == Success((v, i + |Escape(v)| + 1))
    decreases |v|
  {
    if |v| == 0 {
      assert text[i + 0] == (Escape(v) + "\"")[0];
    } else {
      ScanEscapedStep(v, text, i, start);
      ScanEscaped(v[1..], text, i + |EscapeChar(v[0])|, start);
      assert [v[0]] + v[1..] == v;
    }
  }

  /** A quoted, escaped value lexes back to one string token holding the value. */
  lemma StringRoundTrip(ops: set<string>, v: string)
    ensures Tokenize(ops, "\"" + Escape(v) + "\"") ==
      Success([Token(STRING(v), 0), Token(EOF, |Escape(v)| + 2)])
  {
    var text := "\"" + Escape(v) + "\"";
    assert OccursAt(Escape(v) + "\"", text, 1) by {
      forall j | 0 <= j < |Escape(v)| + 1 ensures text[1 + j] == (Escape(v) + "\"")[j] { }
    }
    ScanEscaped(v, text, 1, 0);
    assert text[0] == '"' && !IsDigit(text[0]) && !IsSpace(text[0]);
    assert StringToken(text, 0) == Success((Token(STRING(v), 0), |text|));
    assert NextToken(ops, text, 0) == Success((Token(STRING(v), 0), |text|));
    assert LexFrom(ops, text, |text|) == Success([Token(EOF, |text|)]);
    assert LexFrom(ops, text, 0) == Prepend(Token(STRING(v), 0), LexFrom(ops, text, |text|));
    assert [Token(STRING(v), 0)] + [Token(EOF, |text|)] == [Token(STRING(v), 0), Token(EOF, |text|)];
  }

  /** A name written with identifier syntax. */
  predicate IsIdentifier(n: string) {
    |n| > 0 && IsIdentStart(n[0]) && forall i :: 0 < i < |n| ==> IsIdentChar(n[i])
  }

  /** `.n1.n2...` */
  function DotJoin(names: seq<string>): string
    decreases |names|
  {
    if |names| == 0 then "" else "." + names[0] + DotJoin(names[1..])
  }

  /** The names of the `.name` run starting at `i`, one per segment. */
  function AttrNames(text: string, i: nat): seq<string>
    requires i <= |text|
    decreases |text| - i
  {
    if i + 1 < |text| && text[i] == '.' && IsIdentStart(text[i + 1]) then
      var j := RunEnd(text, i + 2, IsIdentChar);
      [text[i + 1..j]] + AttrNames(text, j)
    else
      []
  }

  lemma {:induction false} SplitPiece(n: string, r: string, sep: char)
    requires forall k :: 0 <= k < |n| ==> n[k] != sep
    ensures Split(n + r, sep) == [n + Split(r, sep)[0]] + Split(r, sep)[1..]
    decreases |n|
  {
    if |n| > 0 {
      assert (n + r)[1..] == n[1..] + r;
      SplitPiece(n[1..], r, sep);
      assert [n[0]] + (n[1..] + Split(r, sep)[0]) == n + Split(r, sep)[0];
    } else {
      assert n + r == r;
      assert n + Split(r, sep)[0] == Split(r, sep)[0];
      assert [Split(r, sep)[0]] + Split(r, sep)[1..] == Split(r, sep);
    }
  }

  /** Splitting `.n1.n2...` on the dot gives an empty piece and then the names. */
  lemma {:induction false} SplitDotJoin(names: seq<string>)
    requires forall m, k :: 0 <= m < |names| && 0 <= k < |names[m]| ==> names[m][k] != '.'
    ensures Split(DotJoin(names), '.') == [""] + names
    decreases |names|
  {
    if |names| > 0 {
      var rest := DotJoin(names[1..]);
      SplitDotJoin(names[1..]);
      var s := "." + names[0] + rest;
      assert DotJoin(names) == s;
      assert s[1..] == names[0] + rest;
      assert Split(s, '.') == [""] + Split(names[0] + rest, '.');
      SplitPiece(names[0], rest, '.');
      assert Split(rest, '.')[0] == "" && Split(rest, '.')[1..] == names[1..];
      assert names[0] + "" == names[0];
      assert [names[0]] + names[1..] == names;
    }
  }

  /** The `.name` run is the dot-joined names. */
  lemma {:induction false} AttrRun(text: string, i: nat)
    requires i <= |text|
    ensures text[i..AttrRunEnd(text, i)] == DotJoin(AttrNames(text, i))
    decreases |text| - i
  {
    if i + 1 < |text| && text[i] == '.' && IsIdentStart(text[i + 1]) {
      var j := RunEnd(text, i + 2, IsIdentChar);
      var e := AttrRunEnd(text, j);
      assert AttrRunEnd(text, i) == e;
      AttrRun(text, j);
      assert AttrNames(text, i) == [text[i + 1..j]] + AttrNames(text, j);
      assert DotJoin(AttrNames(text, i)) == "." + text[i + 1..j] + text[j..e];
      DotSlice(text, i, j, e);
    }
  }

  /** A slice that starts at a dot is the dot, then the rest cut at `j`. */
  lemma DotSlice(text: string, i: nat, j: nat, e: nat)
    requires i < j <= e <= |text| && text[i] == '.'
    ensures text[i..e] == "." + text[i + 1..j] + text[j..e]
  {
    assert text[i..e] == [text[i]] + text[i + 1..e];
    assert text[i + 1..e] == text[i + 1..j] + text[j..e];
  }

  /** Every name of the `.name` run has identifier syntax. */
  lemma {:induction false} AttrRunIdentifiers(text: string, i: nat)
    requires i <= |text|
    ensures forall n :: n in AttrNames(text, i) ==> IsIdentifier(n)
    decreases |text| - i
  {
    if i + 1 < |text| && text[i] == '.' && IsIdentStart(text[i + 1]) {
      var j := RunEnd(text, i + 2, IsIdentChar);
      AttrRunIdentifiers(text, j);
      IdentifierRun(text, i + 1);
      assert AttrNames(text, i) == [text[i + 1..j]] + AttrNames(text, j);
    }
  }

  /** The maximal identifier run starting at an identifier-start character has identifier syntax. */
  lemma IdentifierRun(text: string, i: nat)
    requires i < |text| && IsIdentStart(text[i])
    ensures IsIdentifier(text[i..RunEnd(text, i + 1, IsIdentChar)])
  {
    var n := text[i..RunEnd(text, i + 1, IsIdentChar)];
    forall k | 0 < k < |n|
      ensures IsIdentChar(n[k])
    {
      assert n[k] == text[i + k];
    }
  }

  /** An attribute token holds one identifier per dot of its lexeme, in order. */
  lemma AttributionNames(text: string, p: nat)
    requires p < |text| && text[p] == '.'
    requires AttributionToken(text, p).Success?
    ensures var (t, e) := AttributionToken(text, p).value;
      && t.kind.names == AttrNames(text, p)
      && |t.kind.names| >= 1
      && (forall n :: n in t.kind.names ==> IsIdentifier(n))
      && DotJoin(t.kind.names) == text[p..e]
  {
    var names := AttrNames(text, p);
    AttrRun(text, p);
    AttrRunIdentifiers(text, p);
    forall m, k | 0 <= m < |names| && 0 <= k < |names[m]|
      ensures names[m][k] != '.'
    {
      assert names[m] in names;
    }
    SplitDotJoin(names);
  }
}
