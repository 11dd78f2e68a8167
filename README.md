# formulaparser in Dafny

A model of the front end of `formulaparser`, a small Python library that
reads arithmetic formulas such as `-sqrt(4) + 10 - abc` and turns them into a
syntax tree. The model has five parts:

- **The operator registry**, `OperatorManager`. It holds binary and unary operator lexemes, the callable behind each and each binary operator's precedence.
- **The function registry**, `FunctionManager`. It is an append-only name→callable map.
- **The lexer**. It is a character cursor that turns the text into tokens with their offsets.
- **The parser**. It does precedence climbing over unary operators and primaries, with a postfix loop for calls, indexing and attributes, and the rules for parentheses, brackets and slices. It keeps one shared node per identifier name within a parse.
- **The outline renderer and the `__repr__` formats** of the older node set in `ast_nodes.py`.

Where the source changes state step by step, the model does too:

- The registries are classes whose guarded methods update their sets and maps.
- The lexer class advances a `position` field in `while` loops.
- The parser class (`Parsing.ExprParser`) moves a cursor and fills an identifier cache.
- `AstNodes.Render` pops and pushes an explicit stack.

Each such method is proved equal to a specification function over values:

| method | specification function |
|---|---|
| `Lexing.Lexer.Tokenize` | `LexSpec.LexFrom` |
| each `Parsing.ExprParser` method | the `ParserSpec` function of the same name |
| `AstNodes.Render` | `AstNodes.Rendered` |

The properties are lemmas about those functions, in `LexProps`, `ParserProps` and `AstNodes`. `Formulas` takes sample formulas from the tests through both stages: the lexer's token stream for the text, then the parse of that stream.

Modules, one per file:

| module | contents |
|---|---|
| `Wrappers` | `Option`, `Result`, `Outcome` |
| `Errors` | error kinds, each with its offset or lexeme |
| `Callables` | opaque host callables |
| `Decimal` | digit strings |
| `OpManager` | the operator registry |
| `FuncManager` | the function registry |
| `LexSpec` | tokens and the lexing functions |
| `Lexing` | the lexer class |
| `LexProps` | lexer properties |
| `ParseTree` | the parser's tree |
| `ParserSpec` | the parsing functions |
| `Parsing` | the parser classes |
| `ParserProps` | parser properties |
| `AstNodes` | render and repr |
| `Formulas` | sample formulas from text to tree |

## Model

| member | source | states |
|---|---|---|
| OpManager.AvailableCharsExact | src/formulaparser/op_manager.py:6 | a character passes the per-character test exactly when it is one of the eighteen operator characters |
| OpManager.OperatorLegalMeansAvailable | src/formulaparser/op_manager.py:55-56 | a lexeme is legal exactly when every one of its characters is an operator character, so the empty lexeme is legal |
| OpManager.OperatorManager.constructor | src/formulaparser/op_manager.py:41-53 | after construction the registry satisfies its invariant and holds exactly the predefined binary operators, with their callables and precedences, and exactly the predefined unary operators with their callables |
| OpManager.OperatorManager.RegisterBinaryTable | src/formulaparser/op_manager.py:49-50 | registering a table of new legal binary operators with positive precedences adds exactly the table's entries, keeps the earlier entries and leaves the unary tables alone |
| OpManager.OperatorManager.RegisterUnaryTable | src/formulaparser/op_manager.py:52-53 | registering a table of new legal unary operators adds exactly them, keeps the earlier entries and leaves the binary tables alone |
| OpManager.OperatorManager.RegisterBinaryOp | src/formulaparser/op_manager.py:58-67 | the checks run in the order legality, then precedence > 0, then not already binary, each with its own error; it succeeds exactly when all three pass; a failure leaves all three binary tables unchanged; a success adds exactly `op` with its callable and precedence; the unary tables never change; the invariant is kept |
| OpManager.OperatorManager.RegisterUnaryOp | src/formulaparser/op_manager.py:69-75 | only legality and duplication within the unary set are checked, in that order; it succeeds exactly when both pass; a failure changes nothing; a success adds exactly `op` with its callable; the binary tables never change |
| OpManager.PredefinedOperatorsLegal | src/formulaparser/op_manager.py:8-39 | every predefined lexeme is legal and every predefined precedence is positive |
| OpManager.PredefinedBinaryLexemes | src/formulaparser/op_manager.py:8-34 | the predefined binary lexemes are exactly the eighteen listed |
| OpManager.PredefinedNonEmpty | src/formulaparser/op_manager.py:8-39 | no predefined lexeme is empty |
| OpManager.PredefinedPrecedenceLayers | src/formulaparser/op_manager.py:10-33 | the predefined precedences are layered: comparisons 11000, bitwise or 12000, `^` 13000, `&` 14000, shifts 15000, `+ -` 16000, `* / // % @` 17000 |
| OpManager.PredefinedSharedLexemes | src/formulaparser/op_manager.py:35-39 | the unary set is exactly `+ - ~`, and the lexemes that exist in both arities are exactly `+` and `-` |
| OpManager.OperatorTestLexemes | src/formulaparser/op_manager.py:26-39 | `$%` and `&*` are not predefined, `+` is predefined in both arities, and the empty lexeme is in neither table |
| OpManager.OperatorTestRegistrations | tests/test_parser.py:89-102 | on a fresh registry, unary `&*` and binary `$%` at 5500 are accepted; unary `.*`, unary `+`, binary `.*`, binary `*=` at -1 and binary `+` are rejected, each with its error kind |
| OpManager.AcceptedRegistrations | tests/test_parser.py:91-92 | on any registry without them, unary `&*` and binary `$%` register and join their sets |
| OpManager.RejectedRegistrations | tests/test_parser.py:97-102 | on any registry holding `+` in both arities, the five rejected registrations fail with illegal, duplicate, illegal, non-positive and duplicate |
| OpManager.EmptyLexemeRegistrations | src/formulaparser/op_manager.py:55-56 | a fresh registry accepts the empty lexeme as a binary and as a unary operator |
| FuncManager.FunctionManager.constructor | src/formulaparser/func_manager.py:5-18 | after construction the map is exactly the eleven builtins |
| FuncManager.FunctionManager.RegisterGeneralBuiltins | src/formulaparser/func_manager.py:8-12 | the first five registrations add `abs max min sum pow` to an empty map |
| FuncManager.FunctionManager.RegisterMathBuiltins | src/formulaparser/func_manager.py:13-18 | the math registrations add `sin cos tan log exp sqrt` bound to the math callables |
| FuncManager.FunctionManager.RegisterFunc | src/formulaparser/func_manager.py:20-23 | it succeeds exactly when the name is new; a failure reports the duplicate name and leaves the map unchanged; a success adds exactly `name→func` |
| FuncManager.FunctionManager.GetFunc | src/formulaparser/func_manager.py:25-29 | a registered name yields its callable, a missing name yields the missing-function error, and the map is not modified |
| FuncManager.BuiltinNames | src/formulaparser/func_manager.py:8-18 | the builtin names are exactly the eleven listed |
| FuncManager.FunctionTestRegistrations | tests/test_parser.py:86 | on a fresh registry, registering `sum` fails as a duplicate, `sqrt` is found, and `run` is missing |
| FuncManager.UserFunctionRegistrations | tests/test_parser.py:72-78 | two new user functions register in turn, and then each is found with its own callable |
| Decimal.DigitChar | src/formulaparser/lexer.py:62-63 | the digit character of a value below ten is a digit with that value |
| Decimal.NatToString | src/formulaparser/ast_nodes.py:44-45 | the decimal text of a natural number is a non-empty digit string without a leading zero |
| Decimal.DecimalRoundTrip | src/formulaparser/lexer.py:62-63 | reading back the decimal text of `n` gives `n` |
| Decimal.CanonicalDigits | src/formulaparser/lexer.py:62-63 | a non-empty digit string without a leading zero is the decimal text of its own value |
| LexSpec.RunEnd | src/formulaparser/lexer.py:52-55 | a scan ends at the first character that fails the test, or at the end of the text, and every character it passes satisfies the test |
| LexSpec.ScanString | src/formulaparser/lexer.py:72-100 | a successful string scan ends just after a closing quote; a failure is an unsupported escape at the backslash or an unterminated string at the opening quote |
| LexSpec.LongestMatch | src/formulaparser/lexer.py:104-108 | the match found is a registered, non-empty lexeme at the cursor that no other matching lexeme is longer than; when none is found, the only lexeme that matches is the empty one |
| LexSpec.ProperPrefixLess | src/formulaparser/lexer.py:104 | a proper prefix sorts before the longer string |
| LexSpec.PrefixNotGreater | src/formulaparser/lexer.py:104 | a string never sorts before one of its own prefixes |
| LexSpec.MatchOrder | src/formulaparser/lexer.py:104-108 | among lexemes that both match at the cursor, sort order is length order, so reverse-sorted order tries the longer first |
| LexSpec.NextToken | src/formulaparser/lexer.py:143-206 | a token read at offset `p` carries `p` as its position and consumes at least one character |
| LexSpec.Split | src/formulaparser/lexer.py:136 | splitting always yields at least one piece |
| Lexing.Lexer.constructor | src/formulaparser/lexer.py:38-42 | a new lexer holds the text and the lexemes with its cursor at 0 |
| Lexing.Lexer.Advance | src/formulaparser/lexer.py:44-50 | the cursor moves by one |
| Lexing.Lexer.AdvanceBy | src/formulaparser/lexer.py:67-68 | the cursor moves by `n` |
| Lexing.Lexer.SkipWhitespace | src/formulaparser/lexer.py:52-55 | the cursor moves to the end of the run of spaces |
| Lexing.Lexer.ReadNumber | src/formulaparser/lexer.py:57-70 | the method yields the number token and end offset of the specification |
| LexProps.NumberLexemeShape | src/formulaparser/lexer.py:61 | a number lexeme is the longest run of digits, then a fraction exactly when a `.` and a digit follow, as the longest run of digits after the `.`, then an exponent exactly when `e` or `E`, an optional sign and a digit follow, as the longest run of digits after the sign |
| LexProps.IntegerPartShape | src/formulaparser/lexer.py:61 | the integer part is the longest run of digits at the start |
| LexProps.FractionShape | src/formulaparser/lexer.py:61 | a fraction is present exactly when a `.` and a digit follow the integer part, and is then the longest run of digits after the `.` |
| LexProps.ExponentShape | src/formulaparser/lexer.py:61 | an exponent is present exactly when `e` or `E`, an optional sign and a digit follow, and is then the longest run of digits after the sign |
| LexProps.NumberTokenValue | src/formulaparser/lexer.py:62-70 | the token ends where the lexeme ends; an all-digit lexeme is an integer holding its decimal value, any other lexeme is a float |
| Lexing.Lexer.ReadString | src/formulaparser/lexer.py:72-100 | the method's loop over escapes yields the string token, or the error, of the specification |
| Lexing.Lexer.ReadOperator | src/formulaparser/lexer.py:102-112 | scanning the lexemes and keeping the greatest match yields the specification's operator, assignment or error |
| Lexing.Lexer.GreatestIsLongest | src/formulaparser/lexer.py:104-108 | the greatest matching lexeme in sort order is the operator the specification picks |
| Lexing.Lexer.ReadIdentifier | src/formulaparser/lexer.py:114-126 | the method yields the identifier token and end offset of the specification |
| Lexing.Lexer.ReadAttribution | src/formulaparser/lexer.py:128-136 | the method yields the attribute token, or the error, of the specification |
| Lexing.Lexer.ReadToken | src/formulaparser/lexer.py:143-206 | the rules are tried in the source's priority order and give the specification's next token |
| Lexing.Lexer.Tokenize | src/formulaparser/lexer.py:139-209 | the tokenize loop returns exactly the specification's token stream or first error from the current offset |
| Lexing.TokenizeText | src/formulaparser/lexer.py:139-209 | a fresh lexer on `text` returns the specification's token stream of the whole text |
| LexProps.NextTokenStarts | src/formulaparser/lexer.py:143-204 | a token is never EOF, and the text at its position is what its rule starts on (a digit, a quote, its own lexeme, a dot, `=` or its punctuation character) |
| LexProps.StreamShape | src/formulaparser/lexer.py:139-209 | a successful stream ends with exactly one EOF at the text's length, no other token is EOF, each token starts its lexeme at its position, and positions strictly increase |
| LexProps.StreamCons | src/formulaparser/lexer.py:141-208 | a lexeme-starting token before a well-formed stream that starts later gives a well-formed stream |
| LexProps.NextTokenErrorSite | src/formulaparser/lexer.py:90-112 | a failing rule fails at a bad escape, an unterminated quote, a dot without a name, an unmatched operator character or a character no rule accepts |
| LexProps.ErrorSites | src/formulaparser/lexer.py:143-206 | a lexing failure always names one of those sites |
| LexProps.ChineseRejected | tests/test_parser.py:11 | `测试` fails as an unknown character at offset 0 |
| LexProps.OperatorAtIsGreatest | src/formulaparser/lexer.py:104-108 | the chosen operator matches and is at least as long as every matching lexeme; there is none exactly when no lexeme matches |
| LexProps.LessEqualOverLess | src/formulaparser/lexer.py:104-108 | with `<` and `<=` registered, `1 <= 2` reads `<=` at offset 2 |
| LexProps.LongerLexemeFirst | src/formulaparser/lexer.py:104-108 | with `&` and `&*` registered, `&*3` reads `&*` |
| LexProps.UnmatchedAssignment | src/formulaparser/lexer.py:102-112 | for any lexeme set and any offset, the operator rule gives an assignment token exactly when the character is `=` and no registered lexeme matches there; the token then sits at the offset and is one character long |
| LexProps.KeywordAssignment | src/formulaparser/lexer.py:109-111 | on the text `k=1`, with legal lexemes that do not include `=`, the `=` is an assignment token of one character at offset 1 |
| LexProps.EscapeCharDecodes | src/formulaparser/lexer.py:79-90 | the escape written for a character is that character itself, unquoted, or a backslash and a code that decodes back to it |
| LexProps.ScanEscapedChar | src/formulaparser/lexer.py:78-93 | scanning, at the cursor, the escape written for a character contributes that character and continues after it |
| LexProps.ScanEscapedStep | src/formulaparser/lexer.py:78-93 | scanning an escaped value contributes its first character and continues after that character's escape |
| LexProps.ScanEscaped | src/formulaparser/lexer.py:72-100 | scanning an escaped value followed by a quote yields the value and the offset after the quote |
| LexProps.StringRoundTrip | src/formulaparser/lexer.py:72-100 | quoting and escaping any value lexes back to one string token holding that value, then EOF |
| LexProps.SplitPiece | src/formulaparser/lexer.py:136 | a piece without the separator joins the first piece of what follows |
| LexProps.SplitDotJoin | src/formulaparser/lexer.py:136 | splitting dot-prefixed names on `.` gives an empty piece followed by the names |
| LexProps.AttrRun | src/formulaparser/lexer.py:131-133 | the consumed attribute run is the dot-prefixed join of its names |
| LexProps.AttrRunIdentifiers | src/formulaparser/lexer.py:131 | every name of an attribute run has identifier syntax |
| LexProps.IdentifierRun | src/formulaparser/lexer.py:121 | an identifier lexeme has identifier syntax |
| LexProps.AttributionNames | src/formulaparser/lexer.py:128-136 | an attribute token holds at least one name, each with identifier syntax, and the names joined with leading dots are exactly the consumed lexeme |
| ParserSpec.Intern | src/formulaparser/parser.py:85-89 | the cache maps the name to the returned slot; existing entries are kept; a known name leaves the cache as it was; a new name adds exactly that name |
| ParserSpec.InternedExtends | src/formulaparser/parser.py:86-88 | a tree that matches the cache still matches once the cache has grown, because entries are never replaced |
| ParserSpec.Expr | src/formulaparser/parser.py:43-58 | a parsed expression consumes at least one token, only grows the cache, and every identifier node in it is the cache's node for its name |
| ParserSpec.ExprLoop | src/formulaparser/parser.py:47-57 | the operator loop only grows the cache and keeps every identifier node matched with the cache |
| ParserSpec.Unary | src/formulaparser/parser.py:60-70 | a unary operand consumes at least one token, keeps identifier nodes matched with the cache, and stops at a token that neither continues a primary nor is an operand |
| ParserSpec.Primary | src/formulaparser/parser.py:72-111 | a primary with its postfixes consumes at least one token, keeps identifier nodes matched with the cache, and on success stops at a token that is no `(`, `[`, attribute, string, number or identifier |
| ParserSpec.Atom | src/formulaparser/parser.py:74-97 | an atom consumes at least one token and keeps identifier nodes matched with the cache |
| ParserSpec.Postfix | src/formulaparser/parser.py:99-111 | the postfix loop keeps identifier nodes matched with the cache, and on success stops at a token that is no `(`, `[`, attribute, string, number or identifier |
| ParserSpec.Paren | src/formulaparser/parser.py:113-157 | a parenthesis consumes at least its opening token and keeps identifier nodes matched with the cache |
| ParserSpec.ParenArgs | src/formulaparser/parser.py:119-145 | outside a call an argument list never holds keyword arguments |
| ParserSpec.ParenFirst | src/formulaparser/parser.py:120-125 | the first argument is one positional or one keyword argument, and keyword only in a call |
| ParserSpec.ParenLoop | src/formulaparser/parser.py:126-145 | the comma loop keeps the arguments it started with as a prefix of both lists, and adds no keyword arguments outside a call |
| ParserSpec.ParenItem | src/formulaparser/parser.py:127-145 | one argument after a comma consumes tokens, keeps both lists as prefixes, adds exactly one argument, keeps the trailing-comma flag, and adds no keyword arguments outside a call |
| ParserSpec.Square | src/formulaparser/parser.py:159-184 | a bracket consumes at least its opening token and keeps identifier nodes matched with the cache |
| ParserSpec.SquareArgs | src/formulaparser/parser.py:165-174 | the bracket contents keep identifier nodes matched with the cache |
| ParserSpec.SquareLoop | src/formulaparser/parser.py:167-174 | the bracket comma loop keeps the components it started with as a prefix and adds no keyword arguments |
| ParserSpec.SquareItem | src/formulaparser/parser.py:168-174 | one bracket component keeps the earlier components as a prefix and appends exactly one positional argument |
| ParserSpec.Component | src/formulaparser/parser.py:164-166 | a bracket component, a slice inside an item and an expression in a list, keeps identifier nodes matched with the cache |
| ParserSpec.Slice | src/formulaparser/parser.py:186-211 | a slice component keeps identifier nodes matched with the cache |
| ParserSpec.Pad3 | src/formulaparser/parser.py:206 | padding keeps the given parts in order and fills up to three with `None` nodes |
| ParserSpec.SliceLoop | src/formulaparser/parser.py:189-200 | the slice loop keeps every part matched with the cache |
| ParserSpec.SliceItem | src/formulaparser/parser.py:190-200 | one step of the slice loop consumes at least one token |
| Parsing.ExprParser.constructor | src/formulaparser/parser.py:14-21 | a new parser holds the tokens with its cursor at 0 and an empty identifier cache |
| Parsing.ExprParser.Advance | src/formulaparser/parser.py:23-29 | the cursor moves by one and the cache is untouched |
| Parsing.ExprParser.Parse | src/formulaparser/parser.py:31-41 | the method returns exactly the specification's parse of the tokens |
| Parsing.ExprParser.ParseExpression | src/formulaparser/parser.py:43-58 | the climbing loop yields the specification's tree, new cursor and new cache |
| Parsing.ExprParser.ParseUnary | src/formulaparser/parser.py:60-70 | the method yields the specification's unary result and new state |
| Parsing.ExprParser.ParsePrimary | src/formulaparser/parser.py:72-111 | the postfix loop yields the specification's primary and new state |
| Parsing.ExprParser.ParseAtom | src/formulaparser/parser.py:74-97 | the method yields the specification's atom and new state, interning identifiers in the cache |
| Parsing.ExprParser.ParseParenthesis | src/formulaparser/parser.py:113-157 | the method yields the specification's grouping, tuple or call and new state |
| Parsing.ExprParser.ParseParenArgs | src/formulaparser/parser.py:118-145 | the argument loop yields the specification's argument list and new state |
| Parsing.ExprParser.ParseParenFirst | src/formulaparser/parser.py:119-125 | the method yields the specification's first argument |
| Parsing.ExprParser.ParseParenItem | src/formulaparser/parser.py:127-145 | the method yields the specification's handling of one argument after a comma |
| Parsing.ExprParser.ParseSquare | src/formulaparser/parser.py:159-184 | the method yields the specification's list or item node and new state |
| Parsing.ExprParser.ParseSquareArgs | src/formulaparser/parser.py:163-174 | the bracket loop yields the specification's components and new state |
| Parsing.ExprParser.ParseSquareItem | src/formulaparser/parser.py:168-174 | the method yields the specification's handling of one component after a comma |
| Parsing.ExprParser.ParseComponent | src/formulaparser/parser.py:164-166 | the method yields the specification's slice or expression component |
| Parsing.ExprParser.ParseSlice | src/formulaparser/parser.py:186-211 | the colon-counting loop yields the specification's slice, index or error |
| Parsing.ExprParser.ParseSliceItem | src/formulaparser/parser.py:190-200 | the method yields one step of the specification's slice loop |
| Parsing.Parser.constructor | src/formulaparser/parser.py:214-216 | the façade starts with the predefined operators and the builtins, and no registered lexeme is empty |
| Parsing.Parser.Parse | src/formulaparser/parser.py:218-220 | each call lexes the text with every registered lexeme and parses the tokens with a fresh parser and cache |
| Parsing.Parser.RegisterFunction | src/formulaparser/parser.py:222-223 | delegates to the function registry with its contract |
| Parsing.Parser.RegisterBinaryOp | src/formulaparser/parser.py:225-226 | the registry checks legality, then precedence > 0, then not already binary, each with its own error; it succeeds exactly when all three pass; a failure leaves the binary tables unchanged; a success adds exactly `op` with its callable and precedence; the unary tables and the function registry never change |
| Parsing.Parser.RegisterUnaryOp | src/formulaparser/parser.py:228-229 | the registry checks legality, then not already unary, each with its own error; it succeeds exactly when both pass; a failure changes nothing; a success adds exactly `op` with its callable; the binary tables and the function registry never change |
| ParserProps.FreshTables | src/formulaparser/op_manager.py:41-53 | the tables of a fresh registry give the predefined grammar, and none of its lexemes is empty |
| ParserProps.PredefinedFacts | src/formulaparser/op_manager.py:26-33 | in the predefined grammar `+ -` are at 16000, `* / @` at 17000, `-` is unary and `%` is not |
| ParserProps.EmptyStream | src/formulaparser/parser.py:33-34 | a stream that starts with EOF is an empty expression |
| ParserProps.CompleteParse | src/formulaparser/parser.py:31-41 | on a lexed stream a parse succeeds exactly when the stream is not empty and one expression reaches the final EOF, and the result is that expression |
| ParserProps.NumberOperand | src/formulaparser/parser.py:72-111 | a number not followed by a postfix is a unary operand of its own |
| ParserProps.TwoOperators | src/formulaparser/parser.py:47-56 | in `a op1 b op2 c`, equal or lower precedence of `op2` groups left, higher groups right |
| ParserProps.FoldFirst | src/formulaparser/parser.py:53-55 | folding `a o x` into the left operand, then the rest, is folding the whole run from `a` |
| ParserProps.SameLevelLoop | src/formulaparser/parser.py:46-57 | over any run of operators of one precedence above the loop's binding level, each followed by a number, the loop groups the operands to the left and stops after the run |
| ParserProps.SameLevelGroupsLeft | src/formulaparser/parser.py:31-57 | a number followed by any run of operators of one positive precedence, each with a number, and EOF parses as the left-grouped tree |
| ParserProps.DivisionBeforeSubtraction | tests/test_parser.py:24 | `10 / 2 - 3` parses as `(10 / 2) - 3` |
| ParserProps.MultiplicationBeforeAddition | tests/test_parser.py:22 | `2 + 3 * 4` parses as `2 + (3 * 4)` |
| ParserProps.NumberExpr | src/formulaparser/parser.py:43-58 | a number followed by neither a postfix nor an operator is a whole expression at any binding level |
| ParserProps.NotBinary | src/formulaparser/parser.py:49-50 | an operator in infix position that is not binary fails at its offset |
| ParserProps.NotUnary | src/formulaparser/parser.py:62-64 | an operator in prefix position that is not unary fails at its offset |
| ParserProps.IdentifierAtom | src/formulaparser/parser.py:85-89 | an identifier atom is the cache's node for its name, interned on first use |
| ParserProps.OperatorAfterBinary | src/formulaparser/parser.py:62-64 | a non-unary operator right after a binary operator fails at its offset |
| ParserProps.AtPercentAtRejected | tests/test_parser.py:12 | `a @%@ b` fails because `%` is not a prefix operator |
| ParserProps.AdjacentOperands | src/formulaparser/parser.py:107-108 | in a three-token stream, a string, number or identifier right after a number fails at its offset; `ParserSpec.Postfix` states the general rule |
| ParserProps.TrailingToken | src/formulaparser/parser.py:38-39 | a token left over after a complete expression fails at its offset |
| ParserProps.ArgsAfterFirst | src/formulaparser/parser.py:119-126 | after the first argument, the comma loop takes over |
| ParserProps.ParenError | src/formulaparser/parser.py:113-147 | an error inside the argument list is the error of the whole parenthesis |
| ParserProps.Grouping | src/formulaparser/parser.py:154-155 | `(e)` without a trailing comma is `e` itself |
| ParserProps.SingletonTuple | src/formulaparser/parser.py:154-157 | `(e,)` is a one-element tuple |
| ParserProps.EmptyTuple | src/formulaparser/parser.py:146-157 | `()` is an empty tuple |
| ParserProps.PairTuple | src/formulaparser/parser.py:126-157 | `(x, y)` is a two-element tuple |
| ParserProps.AssignmentInGroup | src/formulaparser/parser.py:121-147 | `=` inside a non-call parenthesis fails as a missing `)` at the opening offset |
| ParserProps.CallOne | src/formulaparser/parser.py:149-150 | `f(x)` is a call with one positional argument |
| ParserProps.CallTrailingComma | src/formulaparser/parser.py:128-131 | in a call, a trailing comma after a single argument of any kind, bare names included, is accepted and gives a one-argument call |
| ParserProps.CallKeyword | src/formulaparser/parser.py:121-123 | `f(n = v)` with a bare identifier `n` is a call with one keyword argument |
| ParserProps.KeywordFirst | src/formulaparser/parser.py:121-123 | a bare identifier followed by `=` as first argument becomes a keyword argument |
| ParserProps.KeywordArgs | src/formulaparser/parser.py:121-126 | after a keyword first argument, the comma loop continues with that keyword argument |
| ParserProps.CallAssignmentAfterExpression | src/formulaparser/parser.py:121-147 | `=` after a first argument that is not a bare identifier fails as a missing `)` |
| ParserProps.PositionalItem | src/formulaparser/parser.py:140-142 | a positional argument after a keyword argument fails at its end offset |
| ParserProps.PositionalAfterKeywordRejected | src/formulaparser/parser.py:140-142 | `f(n = v, y)` fails as positional after keyword |
| ParserProps.MisplacedAssignmentRejected | src/formulaparser/parser.py:135-137 | a later argument that is not a bare identifier followed by `=` fails as a misplaced assignment |
| ParserProps.IndexComponent | src/formulaparser/parser.py:208-211 | a component without a colon is exactly its one expression |
| ParserProps.EmptyComponent | src/formulaparser/parser.py:209-210 | an empty component, as in `x[1,,2]`, fails at its offset |
| ParserProps.ItemIndex | src/formulaparser/parser.py:179-180 | `o[e]` is an item node with index `e` |
| ParserProps.ItemTuple | src/formulaparser/parser.py:181-182 | `o[e,]` is an item node indexed by a one-element tuple |
| ParserProps.ItemEmpty | src/formulaparser/parser.py:178-182 | `o[]` is an item node indexed by an empty tuple |
| ParserProps.ListPair | src/formulaparser/parser.py:183-184 | `[x, y]` outside a postfix is a two-element list |
| ParserProps.ListPairArgs | src/formulaparser/parser.py:165-174 | the bracket loop collects `x, y` as two positional components |
| ParserProps.ListEmpty | src/formulaparser/parser.py:165-184 | `[]` outside a postfix is an empty list |
| ParserProps.RangeComponent | src/formulaparser/parser.py:196-207 | `x:y` is a slice padded with `None` as its third part |
| ParserProps.FullSliceComponent | src/formulaparser/parser.py:190-207 | `:` alone is a slice of three `None` parts |
| ParserProps.ThreeColons | src/formulaparser/parser.py:204-205 | `:::` fails as too many colons |
| ParserProps.FourSliceParts | src/formulaparser/parser.py:202-203 | `:::x` fails as more than three parts |
| ParserProps.EndStep | src/formulaparser/parser.py:189 | at a `,` or `]` the slice loop stops with its parts unchanged |
| ParserProps.ColonStep | src/formulaparser/parser.py:190-194 | a colon with no expression before it adds a `None` part, marks a slice, counts the colon and is passed |
| ParserProps.ExprStep | src/formulaparser/parser.py:195-200 | an expression adds its node; a colon after it marks a slice, is counted and is passed, and otherwise the flags stay |
| ParserProps.SegmentsLoop | src/formulaparser/parser.py:188-200 | over any component written as colon-separated segments, each empty or one expression, the loop collects one part per colon-ended segment plus the last expression, counts one colon fewer than segments, and is a slice exactly when there is a colon |
| ParserProps.SliceFromSegments | src/formulaparser/parser.py:186-211 | for any such component, a single expression is that expression, a single empty segment is malformed, two or three segments make the slice of the segments padded with `None`, and more fail on too many parts before too many colons |
| ParserProps.InternedIdents | src/formulaparser/parser.py:86-88 | every identifier node of a tree that matches the cache carries the cache's slot for its name |
| ParserProps.SharedIdentifiers | src/formulaparser/parser.py:86-88 | within one successful parse, identifier nodes with the same name are the same node |
| ParserProps.IdentifierOperand | src/formulaparser/parser.py:85-89 | an identifier not followed by a postfix is a unary operand of its own, interned in the cache |
| ParserProps.LastOperator | src/formulaparser/parser.py:47-57 | a binding operator whose right operand no operator follows makes one binary node and ends the loop |
| ParserProps.RepeatedProduct | tests/test_parser.py:65-67 | in `1 + abc - cef * abc`, `cef * abc` parses with `cef` interned in slot 1 and `abc` reusing slot 0 |
| ParserProps.RepeatedSecond | tests/test_parser.py:65-67 | the second `abc` of `1 + abc - cef * abc` is the node in slot 0 |
| ParserProps.RepeatedFirst | tests/test_parser.py:65-67 | the first `abc` of `1 + abc - cef * abc` is interned in slot 0 |
| ParserProps.RepeatedTail | tests/test_parser.py:65-67 | after `1 + abc`, the loop takes `cef * abc` as the right operand of `-` |
| ParserProps.RepeatedIdentifier | tests/test_parser.py:63-67 | `1 + abc - cef * abc` parses with both `abc` operands the same node |
| ParserProps.CalledWithNumber | src/formulaparser/parser.py:99-101 | `(n)` after a primary makes one call node with a number argument |
| ParserProps.CalledIdentifier | src/formulaparser/parser.py:85-101 | `f(n)` as an operand is a call of the interned node for `f` |
| ParserProps.NegatedCallOperand | src/formulaparser/parser.py:60-68 | in `-sqrt(4) + 10`, the prefix minus wraps the whole call |
| ParserProps.NegatedCall | tests/test_parser.py:34 | `-sqrt(4) + 10` parses as `(-(sqrt(4))) + 10` |
| Formulas.DivisionTokens | src/formulaparser/lexer.py:139-209 | with any legal lexemes that include `/` and `-`, `10 / 2 - 3` lexes to its five tokens and EOF at their offsets |
| Formulas.ProductTokens | src/formulaparser/lexer.py:139-209 | with any legal lexemes that include `+` and `*`, `2 + 3 * 4` lexes to its five tokens and EOF at their offsets |
| Formulas.AtPercentAtTokens | src/formulaparser/lexer.py:102-112 | with `@` and `%` registered and none of `@%`, `@%@`, `%@`, `a @%@ b` lexes to three one-character operators between two identifiers |
| Formulas.RepeatedTokens | src/formulaparser/lexer.py:139-209 | with any legal lexemes that include `+ - *`, `1 + abc - cef * abc` lexes to its seven tokens and EOF at their offsets |
| Formulas.NegationTokens | src/formulaparser/lexer.py:139-209 | with any legal lexemes that include `-` and `+`, `-sqrt(4) + 10` lexes to its seven tokens and EOF at their offsets |
| Formulas.DivisionText | tests/test_parser.py:24 | with the predefined grammar and any legal lexemes that include `/` and `-`, the text `10 / 2 - 3` parses as `(10 / 2) - 3` |
| Formulas.ProductText | tests/test_parser.py:22 | with the predefined grammar and any legal lexemes that include `+` and `*`, the text `2 + 3 * 4` parses as `2 + (3 * 4)` |
| Formulas.AtPercentAtText | tests/test_parser.py:12 | with the predefined grammar and the lexemes of the tokens lemma, the text `a @%@ b` fails at offset 3, whose `%` is not a prefix operator |
| Formulas.RepeatedText | tests/test_parser.py:63-67 | with the predefined grammar and any legal lexemes that include `+ - *`, the text `1 + abc - cef * abc` parses to a tree whose two `abc` operands are the same node |
| Formulas.NegatedCallText | tests/test_parser.py:34 | with the predefined grammar and any legal lexemes that include `-` and `+`, the text `-sqrt(4) + 10` parses as `(-(sqrt(4))) + 10` |
| Formulas.PredefinedLexemeSet | src/formulaparser/op_manager.py:8-39 | a fresh registry's lexemes are exactly the nineteen listed |
| Formulas.PredefinedLexemesLegal | src/formulaparser/op_manager.py:8-39 | a fresh registry's lexemes are all legal and non-empty |
| Formulas.PredefinedLexemeLengths | src/formulaparser/op_manager.py:8-39 | each predefined lexeme has at most two characters, and the two-character ones start with `<`, `=`, `!`, `>` or `/` |
| Formulas.NotPredefinedLexeme | src/formulaparser/op_manager.py:8-39 | a text of more than two characters, or of two not starting with a comparison character or `/`, is no predefined lexeme |
| Formulas.PredefinedLexemes | src/formulaparser/op_manager.py:8-39 | a fresh registry's lexemes meet every premise of the sample formulas: legal, holding `+ - * / @ %`, and without `@%`, `@%@`, `%@` |
| AstNodes.SplitJoin | src/formulaparser/ast_nodes.py:36 | splitting on newlines the newline-joined lines undoes the join when no line holds a newline |
| AstNodes.PushedLines | src/formulaparser/ast_nodes.py:30-35 | pushing the children reversed puts the first child's lines first when the stack is popped |
| AstNodes.PopStep | src/formulaparser/ast_nodes.py:14-35 | popping a supported node and pushing its children prints its line, then its subtree, then the rest of the stack |
| AstNodes.PushChildren | src/formulaparser/ast_nodes.py:30-35 | the push loop appends the frames of the children in reverse order, the last child with `└───` and four spaces, the others with `├───` and `│` plus three spaces |
| AstNodes.Render | src/formulaparser/ast_nodes.py:10-36 | the stack loop returns the recursive outline joined by newlines, or the error for the first unsupported node |
| AstNodes.LinesFailure | src/formulaparser/ast_nodes.py:28-29 | the outline of a tree fails exactly at the first unsupported node in pre-order |
| AstNodes.KidsFailure | src/formulaparser/ast_nodes.py:28-29 | the outline of a child list fails exactly at its first unsupported node in pre-order |
| AstNodes.FlattenSize | src/formulaparser/ast_nodes.py:12-35 | the pre-order listing holds one entry per node |
| AstNodes.FlattenAllSize | src/formulaparser/ast_nodes.py:12-35 | the pre-order listing of a child list holds one entry per node |
| AstNodes.LinesOutline | src/formulaparser/ast_nodes.py:30-35 | each line of a subtree is its node's label behind a prefix of 4 characters per depth |
| AstNodes.KidsOutline | src/formulaparser/ast_nodes.py:30-35 | each line of a child list is its node's label behind a prefix of 4 characters per depth |
| AstNodes.RenderOutline | src/formulaparser/ast_nodes.py:10-36 | rendering fails exactly when some node is unsupported, naming the first in pre-order; otherwise it prints one line per node in pre-order, the root's label unprefixed and a node at depth `d` behind `4·d` prefix characters |
| AstNodes.RenderSplit | src/formulaparser/ast_nodes.py:36 | when no label holds a newline, the printed text splits back into exactly the outline's lines |
| AstNodes.ReprListJoin | src/formulaparser/ast_nodes.py:93-95 | the argument text of a call's repr is the arguments' reprs joined by `", "` |
| AstNodes.LeafLines | src/formulaparser/ast_nodes.py:15-17 | a leaf's line is its prefix followed by its repr, with no children |
| AstNodes.RenderLeaf | src/formulaparser/ast_nodes.py:15-16 | a lone leaf renders as its repr |
| AstNodes.PairLines | src/formulaparser/ast_nodes.py:30-35 | of two children, the first is printed behind `├───`, the second behind `└───` |
| AstNodes.CallPairRepr | src/formulaparser/ast_nodes.py:93-95 | a call with two arguments has repr `FunctionCall(name, [a, b])` |
| AstNodes.NegationRepr | src/formulaparser/ast_nodes.py:83-84 | `UnaryOp(-, Variable(x))` is the repr of a negated variable |
| AstNodes.SampleUnsupported | src/formulaparser/ast_nodes.py:28-29 | an unsupported node under two supported ones makes the whole render fail with its kind |

## Left out

- Evaluation is not modelled. The tests call `parser.evaluate`, but `Parser` in `src/formulaparser/parser.py` defines no such method.
- Host callables (`operator.*`, `math.*`, the builtins, user lambdas) are opaque ids (`HostFunc`), because they are foreign code.
- Float values are left out. A float literal keeps its lexeme (`FloatValue(lexeme)`), and the repr of a float number prints that lexeme instead of Python's float formatting.
- Digits are ASCII only. Python's `\d` also accepts other Unicode digits.
- Error message texts are left out. Each error is a kind plus its offset or lexeme, from `Errors.SyntaxError` or `Errors.ConfigError`.
- A `.` not followed by identifier syntax crashes the source, because its match returns None. The model reports it as `MalformedAttribution` at the dot's offset.
- Lexing.Lexer.ReadOperator requires that no registered lexeme is empty. The registry accepts `""` (`OpManager.EmptyLexemeRegistrations`), and the source's lexer would then loop forever. `Parsing.Parser.Parse` carries the same requirement, and the façade's constructor establishes it.
- Lexing.Lexer.ReadOperator scans the lexeme set and keeps the greatest match in sort order instead of sorting and taking the first match. `Lexing.Lexer.GreatestIsLongest` and `LexSpec.MatchOrder` show that both pick the longest matching lexeme.
- Dictionary iteration order is left out. Pre-seeding registers table entries in an unspecified order, which makes no difference to the resulting tables.
- Two test expectations are not encoded:
  - tests/test_parser.py:87 expects `parse('run()')` to fail, but identifiers are not resolved while parsing.
  - tests/test_parser.py:92-95 expects a value from evaluation, and evaluation is not part of this model.
- The argument-list helpers `ArgsNode` and `KwargsNode` are modelled as ordered sequences (`ParserSpec.ArgList`), because the source that defines them is not part of this model. Duplicate keyword names are therefore not rejected.
- The parser's AST is defined by how `parser.py` builds nodes (`ParseTree.Node`), because the node classes it imports are not defined in `ast_nodes.py`. The renderer models the older node set that `ast_nodes.py` does define (`AstNodes.Ast`). Any other node class is `OtherNode(kind, repr)`, with its repr text as a parameter.
- `ExprParser` takes a token list. The façade's `Parse` does the lexing that `_Parser.__init__` does.
- The parser reads binary lexemes from the precedence map's keys. The registry invariant makes those keys equal to the binary operator set.
- `parse_parenthesis`, `parse_square` and `parse_slice` are each split into a method for the opening token and methods for the loop and its steps. Each piece is proved against the matching specification function.
- Two source branches cannot be reached on any input, and the model keeps them without proving anything about them:
  - the keyword-in-tuple error (parser.py:152-153), because keyword arguments are only collected in calls;
  - the empty-argument check before a trailing comma (parser.py:129-130 and 170-171), because the first argument is always parsed first.
- Number lexemes: the source matches a regular expression with two alternatives, the exponent form first. The model scans digits, then an optional fraction, then an optional exponent. `LexProps.NumberLexemeShape` states the shape it consumes. Equality with the regular-expression engine's match is not stated, because the engine is not modelled.
- Concrete multi-line render outputs of sample trees are not stated. `AstNodes.RenderOutline`, `AstNodes.PairLines` and `AstNodes.RenderLeaf` state the format for all trees.
- `examples/demo.py` is left out, because it only prints and uses the public API.
