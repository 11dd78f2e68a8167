/**
 * The lexer: a cursor over the formula text that reads one token at a time
 * and collects the token list. Each method is proved to compute the
 * corresponding function of `LexSpec`.
 */
module Lexing {
  import opened Wrappers
  import opened Errors
  import opened Decimal
  import opened LexSpec
  import OpManager

  /** The character under a cursor at offset `i`, or none past the end. */
  function CharAt(text: string, i: nat): Option<char> {
    if i < |text| then Some(text[i]) else None
  }

  /** A read that produced a token, paired with the offset the cursor reached. */
  function Step(r: Result<Token, SyntaxError>, position: nat): Result<(Token, nat), SyntaxError> {
    if r.Success? then Success((r.value, position)) else Failure(r.error)
  }

  /** Appends a scanned string value to the part already decoded. */
  function AfterValue(v: string, r: Result<(string, nat), SyntaxError>): Result<(string, nat), SyntaxError> {
    if r.Success? then Success((v + r.value.0, r.value.1)) else r
  }

  /** Appends a token stream to the tokens already collected. */
  function Then(tokens: seq<Token>, r: Result<seq<Token>, SyntaxError>): Result<seq<Token>, SyntaxError> {
    if r.Success? then Success(tokens + r.value) else r
  }

  lemma AfterValueCons(v: string, c: char, r: Result<(string, nat), SyntaxError>)
    ensures AfterValue(v, ConsValue(c, r)) == AfterValue(v + [c], r)
  {
    if r.Success? {
      assert v + ([c] + r.value.0) == (v + [c]) + r.value.0;
    }
  }

  lemma AfterEmptyValue(r: Result<(string, nat), SyntaxError>)
    ensures AfterValue("", r) == r
  {
    if r.Success? {
      assert "" + r.value.0 == r.value.0;
    }
  }

  lemma ThenNothing(r: Result<seq<Token>, SyntaxError>)
    ensures Then([], r) == r
  {
    if r.Success? {
      assert [] + r.value == r.value;
    }
  }

  lemma ThenPrepend(tokens: seq<Token>, t: Token, r: Result<seq<Token>, SyntaxError>)
    ensures Then(tokens, Prepend(t, r)) == Then(tokens + [t], r)
  {
    if r.Success? {
      assert tokens + ([t] + r.value) == (tokens + [t]) + r.value;
    }
  }

  class Lexer {
    const ops: set<string>
    const text: string
    var position: nat
    var currentChar: Option<char>

    /** The cursor is within the text and `currentChar` is the character under it. */
    ghost predicate Valid()
      reads this
    {
      position <= |text| && currentChar == CharAt(text, position)
    }

    /** A cursor at the start of `text`; `ops` are the registered binary and unary lexemes. */
    constructor (ops: set<string>, text: string)
      ensures this.ops == ops && this.text == text
      ensures position == 0 && Valid()
    {
      this.ops := ops;
      this.text := text;
      position := 0;
      currentChar := if |text| > 0 then Some(text[0]) else None;
    }

    method Advance()
      requires Valid() && position < |text|
      modifies this
      ensures Valid() && position == old(position) + 1
    {
      position := position + 1;
      if position < |text| {
        currentChar := Some(text[position]);
      } else {
        currentChar := None;
      }
    }

    /** Advances over the `n` characters of a lexeme. */
    method AdvanceBy(n: nat)
      requires Valid() && position + n <= |text|
      modifies this
      ensures Valid() && position == old(position) + n
    {
      for i := 0 to n
        invariant Valid() && position == old(position) + i
      {
        Advance();
      }
    }

    method SkipWhitespace()
      requires Valid()
      modifies this
      ensures Valid() && position == RunEnd(text, old(position), IsSpace)
    {
      while currentChar == Some(' ')
        invariant Valid() && old(position) <= position
        invariant RunEnd(text, position, IsSpace) == RunEnd(text, old(position), IsSpace)
        decreases |text| - position
      {
        Advance();
      }
    }

    method ReadNumber() returns (t: Token)
      requires Valid() && position < |text| && IsDigit(text[position])
      modifies this
      ensures Valid()
      ensures (t, position) == NumberToken(text, old(position))
    {
      var start := position;
      var chars := text[position..NumberEnd(text, position)];
      var value := NumberValueOf(chars);
      AdvanceBy(|chars|);
      t := Token(NUMBER(value), start);
    }

    method ReadString() returns (r: Result<Token, SyntaxError>)
      requires Valid() && position < |text| && text[position] == '"'
      modifies this
      ensures Valid()
      ensures Step(r, position) == StringToken(text, old(position))
    {
      var start := position;
      Advance();
      var value := "";
      AfterEmptyValue(ScanString(text, position, start));
      while currentChar.Some? && currentChar.value != '"'
        invariant Valid() && start < position
        invariant ScanString(text, start + 1, start) == AfterValue(value, ScanString(text, position, start))
        decreases |text| - position
      {
        var c := currentChar.value;
        if c == '\\' {
          Advance();
          // `\n`, `\t`, `\"` and `\\` decode; anything else, or the end of the text, is rejected.
          if currentChar.None? || EscapedChar(currentChar.value).None? {
            return Failure(UnsupportedEscape(position - 1));
          }
          var d := EscapedChar(currentChar.value).value;
          AfterValueCons(value, d, ScanString(text, position + 1, start));
          value := value + [d];
        } else {
          AfterValueCons(value, c, ScanString(text, position + 1, start));
          value := value + [c];
        }
        Advance();
      }
      if currentChar == Some('"') {
        assert value + "" == value;
        Advance();
      } else {
        return Failure(UnterminatedString(start));
      }
      r := Success(Token(STRING(value), start));
    }

    method ReadOperator() returns (r: Result<Token, SyntaxError>)
      requires Valid() && position < |text| && "" !in ops
      modifies this
      ensures Valid()
      ensures Step(r, position) == OperatorToken(ops, text, old(position))
    {
      var start := position;
      // The first match in reverse-sorted order is the greatest matching lexeme.
      var best: Option<string> := None;
      var todo := ops;
      while todo != {}
        invariant Valid() && position == start
        invariant todo <= ops
        invariant best.Some? ==> best.value in ops - todo && MatchesAt(best.value, text, start)
        invariant forall op :: op in ops - todo && MatchesAt(op, text, start) ==>
          best.Some? && (op == best.value || StrLess(op, best.value))
        decreases todo
      {
        var op :| op in todo;
        if MatchesAt(op, text, start) && (best.None? || StrLess(best.value, op)) {
          forall o | o in ops - todo && MatchesAt(o, text, start)
            ensures o == op || StrLess(o, op)
          {
            if o != best.value {
              MatchOrder(o, best.value, text, start);
              MatchOrder(best.value, op, text, start);
              MatchOrder(o, op, text, start);
            }
          }
          best := Some(op);
        } else if MatchesAt(op, text, start) {
          MatchOrder(op, best.value, text, start);
          MatchOrder(best.value, op, text, start);
        }
        todo := todo - {op};
      }
      GreatestIsLongest(best, start);
      if best.Some? {
        AdvanceBy(|best.value|);
        return Success(Token(OPERATOR(best.value), start));
      }
      if currentChar == Some('=') {
        Advance();
        return Success(Token(ASSIGNMENT, start));
      }
      r := Failure(UnsupportedOperator(start));
    }

    /** The greatest matching lexeme is the one `OperatorAt` picks by length. */
    lemma GreatestIsLongest(best: Option<string>, start: nat)
      requires start <= |text| && "" !in ops
      requires best.Some? ==> best.value in ops && MatchesAt(best.value, text, start)
      requires forall op :: op in ops && MatchesAt(op, text, start) ==>
        best.Some? && (op == best.value || StrLess(op, best.value))
      ensures best == OperatorAt(ops, text, start)
    {
      var m := OperatorAt(ops, text, start);
      if m.Some? {
        MatchOrder(m.value, best.value, text, start);
        MatchOrder(best.value, m.value, text, start);
      }
    }

    method ReadIdentifier() returns (t: Token)
      requires Valid() && position < |text| && IsIdentStart(text[position])
      modifies this
      ensures Valid()
      ensures (t, position) == IdentifierToken(text, old(position))
    {
      var start := position;
      var identifier := text[start..RunEnd(text, start + 1, IsIdentChar)];
      AdvanceBy(|identifier|);
      t := Token(IDENTIFIER(identifier), start);
    }

    method ReadAttribution() returns (r: Result<Token, SyntaxError>)
      requires Valid() && position < |text| && text[position] == '.'
      modifies this
      ensures Valid()
      ensures Step(r, position) == AttributionToken(text, old(position))
    {
      var start := position;
      var e := AttrRunEnd(text, start);
      if e == start {
        return Failure(MalformedAttribution(start));
      }
      var attributions := text[start..e];
      AdvanceBy(|attributions|);
      r := Success(Token(ATTRIBUTION(Split(attributions, '.')[1..]), start));
    }

    /** Reads the token that starts at the current, non-space character. */
    method ReadToken() returns (r: Result<Token, SyntaxError>)
      requires Valid() && position < |text| && !IsSpace(text[position]) && "" !in ops
      modifies this
      ensures Valid()
      ensures Step(r, position) == NextToken(ops, text, old(position))
    {
      var c := currentChar.value;
      if IsDigit(c) {
        var t := ReadNumber();
        return Success(t);
      }
      if c == '"' {
        r := ReadString();
        return;
      }
      if IsIdentStart(c) {
        var t := ReadIdentifier();
        return Success(t);
      }
      if c == '.' {
        r := ReadAttribution();
        return;
      }
      if OpManager.IsAvailableChar(c) {
        r := ReadOperator();
        return;
      }
      if PunctuationKind(c).Some? {
        var t := Token(PunctuationKind(c).value, position);
        Advance();
        return Success(t);
      }
      r := Failure(UnknownCharacter(position));
    }

    /** Reads tokens up to the end of the text and appends EOF. */
    method Tokenize() returns (r: Result<seq<Token>, SyntaxError>)
      requires Valid() && "" !in ops
      modifies this
      ensures r == LexFrom(ops, text, old(position))
    {
      var tokens: seq<Token> := [];
      ThenNothing(LexFrom(ops, text, position));
      while currentChar.Some?
        invariant Valid()
        invariant LexFrom(ops, text, old(position)) == Then(tokens, LexFrom(ops, text, position))
        decreases |text| - position
      {
        if currentChar.value == ' ' {
          SkipWhitespace();
          continue;
        }
        ghost var p := position;
        var s := ReadToken();
        if s.Failure? {
          return Failure(s.error);
        }
        ThenPrepend(tokens, s.value, LexFrom(ops, text, position));
        tokens := tokens + [s.value];
      }
      r := Success(tokens + [Token(EOF, position)]);
    }
  }

  /** Lexes a whole formula with a fresh lexer. */
  method TokenizeText(ops: set<string>, text: string) returns (r: Result<seq<Token>, SyntaxError>)
    requires "" !in ops
    ensures r == Tokenize(ops, text)
  {
    var lexer := new Lexer(ops, text);
    r := lexer.Tokenize();
  }
}
