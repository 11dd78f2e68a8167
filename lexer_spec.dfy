/**
 * Tokens and the lexical grammar of a formula, as functions of the text and
 * of the set of registered operator lexemes. `LexFrom` is the token stream
 * the lexer produces from a given offset; the `Lexer` class computes it step
 * by step.
 */
module LexSpec {
  import opened Wrappers
  import opened Errors
  import opened Decimal
  import OpManager

  /** A number token's value: an exact integer for an all-digit lexeme, otherwise the float lexeme itself. */
  datatype NumberValue = IntValue(i: int) | FloatValue(lexeme: string)

  /** The token types, each carrying the token's value. */
  datatype TokenKind =
    | NUMBER(number: NumberValue)
    | STRING(value: string)
    | OPERATOR(op: string)
    | IDENTIFIER(name: string)
    | LPAREN
    | RPAREN
    | LSQUARE
    | RSQUARE
    | ATTRIBUTION(names: seq<string>)
    | ASSIGNMENT
    | COLON
    | COMMA
    | EOF

  /** A token and the offset where its lexeme starts. */
  datatype Token = Token(kind: TokenKind, position: int)

  predicate IsIdentStart(c: char) {
    ('a' <= c <= 'z') || ('A' <= c <= 'Z') || c == '_'
  }

  predicate IsIdentChar(c: char) {
    IsIdentStart(c) || IsDigit(c)
  }

  predicate IsSpace(c: char) {
    c == ' '
  }

  /** The end of the maximal run of characters satisfying `p` that starts at `i`. */
  function RunEnd(text: string, i: nat, p: char -> bool): (e: nat)
    requires i <= |text|
    ensures i <= e <= |text|
    ensures forall k :: i <= k < e ==> p(text[k])
    ensures e == |text| || !p(text[e])
    decreases |text| - i
  {
    if i < |text| && p(text[i]) then RunEnd(text, i + 1, p) else i
  }

  /** After the integer digits ending at `d`: the end of an optional `.digits` fraction. */
  function FractionEnd(text: string, d: nat): (f: nat)
    requires d <= |text|
    ensures d <= f <= |text|
  {
    if d + 1 < |text| && text[d] == '.' && IsDigit(text[d + 1]) then RunEnd(text, d + 1, IsDigit) else d
  }

  /** After the mantissa ending at `f`: the end of an optional `[eE][+-]?digits` exponent, if it is complete. */
  function ExponentEnd(text: string, f: nat): (x: nat)
    requires f <= |text|
    ensures f <= x <= |text|
  {
    if f < |text| && (text[f] == 'e' || text[f] == 'E') then
      var s := if f + 1 < |text| && (text[f + 1] == '+' || text[f + 1] == '-') then f + 2 else f + 1;
      if s < |text| && IsDigit(text[s]) then RunEnd(text, s, IsDigit) else f
    else
      f
  }

  /** The end of the number lexeme starting at the digit at `p`. */
  function NumberEnd(text: string, p: nat): (e: nat)
    requires p < |text| && IsDigit(text[p])
    ensures p < e <= |text|
  {
    ExponentEnd(text, FractionEnd(text, RunEnd(text, p, IsDigit)))
  }

  /** `int(chars)` for an all-digit lexeme, `float(chars)` otherwise. */
  function NumberValueOf(lexeme: string): NumberValue {
    if AllDigits(lexeme) then IntValue(DecimalValue(lexeme)) else FloatValue(lexeme)
  }

  /** The character an escape `\c` stands for: `\n`, `\t`, `\"` and `\\` only. */
  function EscapedChar(c: char): Option<char> {
    if c == 'n' then Some('\n')
    else if c == 't' then Some('\t')
    else if c == '"' then Some('"')
    else if c == '\\' then Some('\\')
    else None
  }

  /** Puts `c` in front of a scanned string value. */
  function ConsValue(c: char, r: Result<(string, nat), SyntaxError>): Result<(string, nat), SyntaxError> {
    if r.Success? then Success(([c] + r.value.0, r.value.1)) else r
  }

  /**
   * Scans the body of a string literal from `i` up to and including the
   * closing quote: the decoded value and the offset after the quote. The
   * opening quote is at `start`.
   */
  function ScanString(text: string, i: nat, start: int): (r: Result<(string, nat), SyntaxError>)
    requires i <= |text|
    ensures r.Success? ==> i < r.value.1 <= |text| && text[r.value.1 - 1] == '"'
    ensures r.Failure? ==>
      || r.error == UnterminatedString(start)
      || (r.error.UnsupportedEscape? && i <= r.error.pos < |text| && text[r.error.pos] == '\\')
    decreases |text| - i
  {
    if i == |text| then Failure(UnterminatedString(start))
    else if text[i] == '"' then Success(("", i + 1))
    else if text[i] == '\\' then
      if i + 1 < |text| && EscapedChar(text[i + 1]).Some? then
        ConsValue(EscapedChar(text[i + 1]).value, ScanString(text, i + 2, start))
      else
        Failure(UnsupportedEscape(i))
    else
      ConsValue(text[i], ScanString(text, i + 1, start))
  }

  /** The end of the maximal run of `.name` segments starting at `i`. */
  function AttrRunEnd(text: string, i: nat): (e: nat)
    requires i <= |text|
    ensures i <= e <= |text|
    decreases |text| - i
  {
    if i + 1 < |text| && text[i] == '.' && IsIdentStart(text[i + 1]) then
      AttrRunEnd(text, RunEnd(text, i + 2, IsIdentChar))
    else
      i
  }

  /** `s.split(sep)`: the pieces between the separators, empty ones included. */
  function Split(s: string, sep: char): (r: seq<string>)
    ensures |r| >= 1
    decreases |s|
  {
    if |s| == 0 then [""]
    else
      var rest := Split(s[1..], sep);
      if s[0] == sep then [""] + rest else [[s[0]] + rest[0]] + rest[1..]
  }

  /** `op` is the text at `p`, as tested by comparing it with the slice `text[p:p+len(op)]`. */
  predicate MatchesAt(op: string, text: string, p: nat) {
    p + |op| <= |text| && text[p..p + |op|] == op
  }

  /** The longest registered lexeme of length at most `k` (and at least 1) at `p`. */
  function LongestMatch(ops: set<string>, text: string, p: nat, k: nat): (r: Option<string>)
    requires p + k <= |text|
    ensures r.Some? ==> r.value in ops && 0 < |r.value| <= k && MatchesAt(r.value, text, p)
    ensures r.Some? ==> forall op :: op in ops && MatchesAt(op, text, p) && |op| <= k ==> |op| <= |r.value|
    ensures r.None? ==> forall op :: op in ops && MatchesAt(op, text, p) && |op| <= k ==> op == ""
    decreases k
  {
    if k == 0 then None
    else if text[p..p + k] in ops then Some(text[p..p + k])
    else LongestMatch(ops, text, p, k - 1)
  }

  /** The operator lexeme read at `p`: the longest registered lexeme the text continues with. */
  function OperatorAt(ops: set<string>, text: string, p: nat): Option<string>
    requires p <= |text|
  {
    LongestMatch(ops, text, p, |text| - p)
  }

  /** The single-character punctuation tokens. */
  function PunctuationKind(c: char): Option<TokenKind> {
    if c == '(' then Some(LPAREN)
    else if c == ')' then Some(RPAREN)
    else if c == '[' then Some(LSQUARE)
    else if c == ']' then Some(RSQUARE)
    else if c == ',' then Some(COMMA)
    else if c == ':' then Some(COLON)
    else None
  }

  /** Python's string order: lexicographic by character, a proper prefix first. */
  predicate StrLess(a: string, b: string)
    decreases |a|
  {
    |b| > 0 && (|a| == 0 || a[0] < b[0] || (a[0] == b[0] && StrLess(a[1..], b[1..])))
  }

  /** A proper prefix comes first in Python's string order. */
  lemma {:induction false} ProperPrefixLess(a: string, b: string)
    requires |a| < |b| && b[..|a|] == a
    ensures StrLess(a, b)
  {
    if |a| > 0 {
      assert a[0] == b[0];
      assert b[1..][..|a| - 1] == a[1..];
      ProperPrefixLess(a[1..], b[1..]);
    }
  }

  /** No string comes before one of its own prefixes. */
  lemma {:induction false} PrefixNotGreater(a: string, b: string)
    requires |b| <= |a| && a[..|b|] == b
    ensures !StrLess(a, b)
  {
    if |b| > 0 && |a| > 0 {
      assert a[0] == b[0];
      assert a[1..][..|b| - 1] == b[1..];
      PrefixNotGreater(a[1..], b[1..]);
    }
  }

  /** Two lexemes both found at `p` are ordered by length, so the greatest is the longest. */
  lemma MatchOrder(a: string, b: string, text: string, p: nat)
    requires MatchesAt(a, text, p) && MatchesAt(b, text, p)
    ensures StrLess(a, b) <==> |a| < |b|
  {
    if |a| < |b| {
      assert b[..|a|] == text[p..p + |a|];
      ProperPrefixLess(a, b);
    } else {
      assert a[..|b|] == text[p..p + |b|];
      PrefixNotGreater(a, b);
    }
  }

  /** The number token at the digit at `p`, and the offset after it. */
  function NumberToken(text: string, p: nat): (r: (Token, nat))
    requires p < |text| && IsDigit(text[p])
  {
    var e := NumberEnd(text, p);
    (Token(NUMBER(NumberValueOf(text[p..e])), p), e)
  }

  /** The string token whose opening quote is at `p`, and the offset after its closing quote. */
  function StringToken(text: string, p: nat): (r: Result<(Token, nat), SyntaxError>)
    requires p < |text| && text[p] == '"'
  {
    var s := ScanString(text, p + 1, p);
    if s.Failure? then Failure(s.error) else Success((Token(STRING(s.value.0), p), s.value.1))
  }

  /** The identifier token starting at `p`, and the offset after it. */
  function IdentifierToken(text: string, p: nat): (r: (Token, nat))
    requires p < |text| && IsIdentStart(text[p])
  {
    var e := RunEnd(text, p + 1, IsIdentChar);
    (Token(IDENTIFIER(text[p..e]), p), e)
  }

  /** The attribute token at the dot at `p`: the names of the `.name` run, or an error if there is none. */
  function AttributionToken(text: string, p: nat): (r: Result<(Token, nat), SyntaxError>)
    requires p < |text| && text[p] == '.'
  {
    var e := AttrRunEnd(text, p);
    if e == p then Failure(MalformedAttribution(p))
    else Success((Token(ATTRIBUTION(Split(text[p..e], '.')[1..]), p), e))
  }

  /** The operator token at `p`: the longest registered lexeme, else a lone `=` as an assignment. */
  function OperatorToken(ops: set<string>, text: string, p: nat): (r: Result<(Token, nat), SyntaxError>)
    requires p < |text|
  {
    var m := OperatorAt(ops, text, p);
    if m.Some? then Success((Token(OPERATOR(m.value), p), p + |m.value|))
    else if text[p] == '=' then Success((Token(ASSIGNMENT, p), p + 1))
    else Failure(UnsupportedOperator(p))
  }

  /**
   * The token that starts at the non-space character at `p`: the rules are
   * tried in the order digit, quote, identifier start, dot, operator
   * character, punctuation.
   */
  function NextToken(ops: set<string>, text: string, p: nat): (r: Result<(Token, nat), SyntaxError>)
    requires p < |text|
    ensures r.Success? ==> p < r.value.1 <= |text| && r.value.0.position == p
  {
    var c := text[p];
    if IsDigit(c) then Success(NumberToken(text, p))
    else if c == '"' then StringToken(text, p)
    else if IsIdentStart(c) then Success(IdentifierToken(text, p))
    else if c == '.' then AttributionToken(text, p)
    else if OpManager.IsAvailableChar(c) then OperatorToken(ops, text, p)
    else if PunctuationKind(c).Some? then Success((Token(PunctuationKind(c).value, p), p + 1))
    else Failure(UnknownCharacter(p))
  }

  /** Puts `t` in front of a token stream. */
  function Prepend(t: Token, r: Result<seq<Token>, SyntaxError>): Result<seq<Token>, SyntaxError> {
    if r.Success? then Success([t] + r.value) else r
  }

  /**
   * The token stream from offset `p` to the end: spaces are skipped, every
   * other character starts a token, and the stream ends with EOF at the end
   * of the text.
   */
  function LexFrom(ops: set<string>, text: string, p: nat): (r: Result<seq<Token>, SyntaxError>)
    requires p <= |text|
    decreases |text| - p
  {
    if p == |text| then Success([Token(EOF, p)])
    else if IsSpace(text[p]) then LexFrom(ops, text, RunEnd(text, p, IsSpace))
    else
      var n := NextToken(ops, text, p);
      if n.Failure? then Failure(n.error)
      else Prepend(n.value.0, LexFrom(ops, text, n.value.1))
  }

  /** The token stream of a whole formula. */
  function Tokenize(ops: set<string>, text: string): Result<seq<Token>, SyntaxError> {
    LexFrom(ops, text, 0)
  }
}
