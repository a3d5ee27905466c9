# GigglyCode front end and LLVM lowering, modelled in Dafny

GigglyCode is a small language whose C++ compiler reads a source text,
splits it into tokens, parses the tokens into a syntax tree with a Pratt
parser, and lowers the tree to LLVM IR while keeping a chain of scopes.
This project models that pipeline and proves properties about it:

- **Tokens** (`tokens.dfy`) covers the 66 token kinds, their names
  (`tokenTypeString`), the `Token` record and its textual rendering
  `Token::toString`.
- **Scan** (`scan.dfy`) is the lexer as pure functions on a cursor value
  (source, position, line, column). It covers character reading, numbers,
  identifiers and keywords, whitespace and `#` comments, quoted and
  triple-quoted strings with escapes, and the whole `nextToken` dispatch.
- **Lexing** (`lexer.dfy`) is the `Lexer` object. Each method updates the
  fields in place and is proved to move them exactly as the matching Scan
  function moves a cursor. The module also holds the two line helpers
  `getStringOnLineNumber` and `getNumberOfLines`.
- **NodeTypes** and **Ast** (`ast.dfy`) cover the node tags and their
  names, the syntax tree, and its JSON form (`toJSON`).
- **Precedence** (`precedence.dfy`) holds the precedence levels, the
  token-to-precedence table, and the prefix and infix parse-function
  tables of `parser.hpp`.
- **ParseSpec** (`parse_spec.dfy`) is every `_parse*` member function as a
  function from a parser state to an outcome. The state is the index of
  the current token plus the error list.
  - An outcome is either the node returned together with the new state, or
    `Halted`.
  - `Halted` covers the two ways the C++ code never returns: `std::stoll`
    throwing on a literal, and the generic-argument loop spinning at the
    end of input.
- **Parsing** (`parsing.dfy`) is the `Parser` object. Each method is proved
  equal to its ParseSpec function.
- **ParseProperties** (`parse_props.dfy`) proves dispatch, precedence and
  associativity, error recording, and divergence.
- **Environment** (`environment.dfy`) covers the `Record` classes, the scope
  chain as a value (`Scope`), and the `Enviornment` object that the
  compiler updates in place.
- **Ir** (`ir.dfy`) is the part of LLVM the compiler drives, as an
  append-only log:
  - globals, functions and basic blocks;
  - every instruction the builder creates, tagged with the insertion block
    current at the time.
- **LowerSpec** (`lower_spec.dfy`) is the compiler as pure functions on a
  compiler state. The state holds `type_map`, the module, the insertion
  block, the scope and `current_function`.
- **Compiling** (`compiler.dfy`) is the `Compiler` object. Each `_visit*`
  method is proved to leave the object in the state its LowerSpec function
  computes.
- **LowerProperties** (`lower_props.dfy`) proves what each construct lowers
  to:
  - literals, loads, infix instructions, declarations, assignments and
    returns;
  - the if/else block diamond;
  - function entry with parameter slots and scopes;
  - calls.

Reading the file, printing and LLVM's own semantics are outside the model.
The lexer's input is a `string`. The compiler's output is the instruction
log, not a verified LLVM module.

### Behaviour of the code that the model keeps

Each of these follows from the code as written:

- `_parseStatement` (src/parser/parser.cpp:27-58) has no `if` branch, and
  the syntax tree (src/parser/AST/ast.hpp:7-32) has no if/else or call node.
  The compiler's `_visitIfElseStatement` and `_visitCallExpression` are
  therefore modelled on their parts (condition, arms; name, arguments).
  `Compile` cannot reach them.
- The comparison operators have a precedence (src/parser/parser.hpp:29-34)
  but no infix parse function (src/parser/parser.hpp:79-86). So `1 < 2`
  parses as three statements, not one comparison
  (`ParseProperties.LessThanIsNotAnOperator`).
- `_parseFunctionStatement` parses the body with `_parseStatement` while
  the return type's token is still current (src/parser/parser.cpp:112-114).
  The body is therefore the expression statement of the type name, and the
  braces that follow become a separate statement
  (`ParseProperties.FunctionThenSeparateBlock`). It does not expect a `{`.
- A variable declaration is refused when the name is visible in any
  enclosing scope, not only the current one, because the check is
  `enviornment.get` (src/compiler/compiler.cpp:194).
  `LowerProperties.OuterNameBlocksDeclaration` proves this.
- A call's result type is the type recorded for the function's name, which
  is its function type rather than its return type
  (src/compiler/compiler.cpp:280, 302-304).
  `LowerProperties.CallAfterDeclarationHasFunctionType` proves this.
- A call lowers its arguments before it looks the name up
  (src/compiler/compiler.cpp:296-301).
- The scope has no records tagged by kind. `add`/`get` store and return a
  (value, type, slot) triple, with the all-null triple for "absent"
  (src/compiler/enviornment/enviornment.cpp:3-14). The `Record` classes of
  the header are modelled separately.
- The lexer has no branch for `[` or `]` (src/lexer/lexer.cpp:62-197), so
  both are `Illegal` tokens. The parser's generic-argument syntax
  `name[arg, ...]` therefore cannot come from real lexer output
  (`Scan.BracketsAreIllegal`).

## Model

| member | source | states |
|---|---|---|
| Tokens.Ordinal | src/lexer/tokens.hpp:8-93 | Each kind's position in the enumeration is below 66; the default case of `tokenTypeString` prints it |
| Tokens.NatToString | src/lexer/tokens.cpp:30-32 | `std::to_string` of a natural: non-empty decimal digits whose value is the number, one digit exactly when n < 10 |
| Tokens.IntToString | src/lexer/tokens.cpp:30-32 | `std::to_string` of an int: the digits of the magnitude, with a leading "-" exactly for negatives |
| Tokens.TokenTypeStringSpecialCases | src/lexer/tokens.cpp:67-204 | `Integer` is named "INT"; a kind without a case (`Var`) falls to the default "unknown token type(51)" |
| Tokens.KindNamedInverts | src/lexer/tokens.cpp:67-204 | Reading a kind's name back gives the kind, for every one of the 66 kinds |
| Tokens.TokenTypeStringInjective | src/lexer/tokens.cpp:67-204 | Two kinds with the same name are the same kind |
| Tokens.NewToken | src/lexer/tokens.hpp:109-113 | The literal constructor keeps kind, literal and line, sets the end column, and sets the start column to end minus the literal's length |
| Tokens.BareToken | src/lexer/tokens.hpp:107-108 | The literal-less constructor leaves the literal empty and the start column unset |
| Tokens.Escape | src/lexer/tokens.cpp:17-28 | The escaped literal contains no line feed and no tab |
| Tokens.EscapeByReplacing | src/lexer/tokens.cpp:17-28 | Replacing line feeds and then tabs gives the same text as tabs then line feeds, so the unspecified iteration order of the replacement map does not matter |
| Tokens.ReplaceCharConcat | src/lexer/tokens.cpp:21-28 | Replacing a character distributes over concatenation |
| Tokens.ReplaceCharAbsent | src/lexer/tokens.cpp:21-28 | Replacing a character that does not occur changes nothing |
| Tokens.FindSpec | src/lexer/tokens.cpp:22-26 | `find` from a position returns -1 exactly when the character does not occur from there, and otherwise its first occurrence |
| Tokens.ReplaceAll | src/lexer/tokens.cpp:21-28 | The find/replace loop replaces every occurrence of the character, resuming the search after each replacement, and ends equal to the all-occurrences replacement |
| Tokens.PadRight | src/lexer/tokens.cpp:42-49 | Padding keeps the text as a prefix and fills with spaces up to the width, never shortening |
| Tokens.LiteralPadding | src/lexer/tokens.cpp:35-39 | No padding for literals of 10 or more characters; otherwise the two pads and the literal span 10 or 11 characters |
| Tokens.WrittenFields | src/lexer/tokens.cpp:35-49 | The field strings `toString` builds; rendering fails (`std::length_error`) exactly when the escaped literal is shorter than 2 and the line number has more than 2 digits |
| Tokens.RenderedFields | src/lexer/tokens.cpp:42-64 | The kind name is padded to at least 15 and the columns to at least 2, and the rendering is the fixed layout of those fields |
| Tokens.RenderedLiteral | src/lexer/tokens.cpp:35-39 | The padded literal equals the escaped literal when that has 10 or more characters, and is 10 or 11 characters long otherwise |
| Tokens.ToString | src/lexer/tokens.cpp:5-65 | The method computes the specified rendering (or the length error) |
| Tokens.RenderThrowsOnShortLiteralAtLine100 | src/lexer/tokens.cpp:44-45 | A one-character token on line 100 makes `toString` fail |
| Tokens.RenderLeavesLineUnpadded | src/lexer/tokens.cpp:44-45 | A two-character literal on line 5 leaves the line number unpadded |
| Tokens.IntendedFields | src/lexer/tokens.cpp:42-49 | Padding the line number by its own length gives every numeric field at least 2 characters and never fails |
| Tokens.RenderAgreesWithIntended | src/lexer/tokens.cpp:35-64 | Whenever the literal-length guard and the line-length guard agree, the written rendering equals the intended one |
| Scan.CharAt | src/lexer/helper.cpp:4-12 | The current character is the one-character string at the position, or "" outside the source |
| Scan.ReadChar | src/lexer/helper.cpp:4-12 | `_readChar` advances the position and the column by one and keeps the line |
| Scan.PeekChar | src/lexer/helper.cpp:14-20 | The character `offset` ahead, or "" past the end |
| Scan.IsDigitIsDecimal | src/lexer/helper.cpp:76 | The string comparison `"0" <= c <= "9"` on a 0/1-character string holds exactly for a decimal digit |
| Scan.IsLetterIsAlpha | src/lexer/helper.cpp:78-80 | `_isLetter` holds exactly for ASCII letters and the underscore |
| Scan.EmptyIsNeither | src/lexer/helper.cpp:76-80 | The end-of-input "" is neither a digit nor a letter |
| Scan.ReadNumberSpec | src/lexer/helper.cpp:27-47 | `_readNumber` consumes a run of digits and dots on one line. With no dot the token is an Integer, with one dot a Float, and a second dot makes it Illegal. An Integer or Float literal is the consumed text, and a second dot gives an Illegal "." token |
| Scan.ReadNumberAtDigit | src/lexer/helper.cpp:27-47 | Starting on a digit, the reader advances and yields an Integer, Float or Illegal token |
| Scan.ReadIdentifierSpec | src/lexer/helper.cpp:49-56 | `_readIdentifier` returns the maximal run of letters and digits from the cursor and moves the column by its length |
| Scan.SkipBlanksSpec | src/lexer/helper.cpp:59-66 | The blank loop stops on a non-blank. Lines advance by the line feeds skipped. With none skipped the column follows the position; after a line feed the column restarts at 0 and counts the characters read after it, so it is 1 plus the characters following the last line feed |
| Scan.SinceLineFeedSplit | src/lexer/helper.cpp:61-64 | The characters after the last line feed of a concatenation are the second part's when it holds a line feed, and otherwise the first part's plus the whole second part |
| Scan.SkipBlanksAfterLineFeed | src/lexer/helper.cpp:59-66 | From column 1 on the line feed of `"a\n  x"`, the blanks end at `x` on line 2, column 3 |
| Scan.SkipCommentSpec | src/lexer/helper.cpp:67-71 | A comment is skipped up to the line feed or the end, within one line |
| Scan.SkipWhitespaceSpec | src/lexer/helper.cpp:58-74 | `_skipWhitespace` stops on a character that is neither blank nor `#`. The line goes up by the line feeds skipped, comments included; with none the column follows the position, and after one it is 1 plus the characters after the last line feed |
| Scan.SkipWhitespace | src/lexer/helper.cpp:58-74 | Skipping whitespace stays on the same source and never moves back |
| Scan.ShortKeywords | src/lexer/lexer.cpp:14-54 | The two- and three-letter keywords map to their kinds |
| Scan.MiddleKeywords | src/lexer/lexer.cpp:14-54 | `else`, `elif`, `True` and `None` map to their kinds |
| Scan.LongKeywords | src/lexer/lexer.cpp:14-54 | `while`, `break`, `False`, `MayBe`, `return` and `continue` map to their kinds |
| Scan.OnlyKeywordsRecognised | src/lexer/lexer.cpp:14-54 | Anything that is not `Identifier` comes from the keyword table |
| Scan.LookupIdentCaseSensitive | src/lexer/lexer.cpp:14-54 | Keyword lookup is case-sensitive: `true`, `false`, `Maybe`, `none` and `DEF` are identifiers |
| Scan.IsStringSpec | src/lexer/string.cpp:4-43 | `_isString` returns a triple quote exactly when three equal quotes start at the cursor, a single quote when one does, and "" when the character is not a quote |
| Scan.DecodeEscapeSpec | src/lexer/string.cpp:66-119 | The nine known escape letters decode to one character; any other letter keeps the backslash and the letter |
| Scan.OrdinaryStep | src/lexer/string.cpp:132-136 | An ordinary character is appended to both the value and the raw literal |
| Scan.PlainQuotedString | src/lexer/string.cpp:120-124 | A quoted string without escapes or line feeds reads as the text between the quotes, and the cursor lands after the closing quote |
| Scan.TripleClose | src/lexer/string.cpp:125-131 | Three closing quotes end a triple-quoted string and move the cursor by four |
| Scan.PlainTripleString | src/lexer/string.cpp:50-54 | A triple-quoted string without escapes reads as the text between the delimiters |
| Scan.UnterminatedAtEnd | src/lexer/string.cpp:58-61 | Reaching the end of the source inside a string is the "unterminated string" error on the string's line |
| Scan.UnterminatedAtNewline | src/lexer/string.cpp:62-65 | A line feed inside a single-quoted string is the same error, on a token whose end column is the string's start column |
| Scan.EscapeStep | src/lexer/string.cpp:66-119 | A backslash consumes the next character and appends its decoded value |
| Scan.ReadStringFromAdvances | src/lexer/string.cpp:45-139 | A successful string read advances past the opening and closing quote |
| Scan.TwoCharacterToken | src/lexer/lexer.cpp:62-191 | Each two-character operator (`++ += -> -- -= *= ** /= %= ^= == >= >> <= << != && ||`) becomes one token covering both characters |
| Scan.OneCharacterToken | src/lexer/lexer.cpp:62-195 | A one-character operator not followed by its second character becomes a one-character token |
| Scan.EllipsisToken | src/lexer/lexer.cpp:72-76 | `...` is one Ellipsis token of three characters |
| Scan.LoneOperatorIllegal | src/lexer/lexer.cpp:155-191 | A lone `!`, `&` or `\|` is an Illegal token |
| Scan.UnlistedCharacterIllegal | src/lexer/lexer.cpp:210-211 | Any other non-letter, non-digit, non-quote character is an Illegal token of that character |
| Scan.BracketsAreIllegal | src/lexer/lexer.cpp:162-211 | `[`, `]` and `\` produce Illegal tokens: the dispatch has no branch for them |
| Scan.EndOfFileForever | src/lexer/lexer.cpp:196-197 | At or past the end, `nextToken` returns an EndOfFile token and stays past the end |
| Scan.EndOfFileExactly | src/lexer/lexer.cpp:62-217 | After whitespace, the token is EndOfFile exactly when the source is used up |
| Scan.IdentifierToken | src/lexer/lexer.cpp:203-206 | A letter starts an identifier or keyword token whose kind is `_lookupIdent` of the text read |
| Scan.NumberTokenAt | src/lexer/lexer.cpp:207-209 | A digit starts the number reader's token, without the trailing `_readChar` |
| Scan.StringTokenAt | src/lexer/lexer.cpp:199-202 | A quote starts the string reader; its error is the lexer's error and its value becomes a String token |
| Scan.NegativeNumberSkipsNextCharacter | src/lexer/lexer.cpp:87-90 | For `-` followed by a digit, the token is "-" plus the number read, and the cursor ends one character beyond where the number ended |
| Scan.NegativeNumberSwallowsSemicolon | src/lexer/lexer.cpp:87-90 | On "-5;" the first token is Integer "-5" and the next one is EndOfFile: the semicolon is lost |
| Scan.NegativeNumberIntendedSpec | src/lexer/lexer.cpp:87-90 | Without the extra read, a negative number token's literal is exactly the source text consumed, and the cursor stops on the first character that does not belong to the number |
| Scan.NegativeNumberKeepsSemicolon | src/lexer/lexer.cpp:87-90 | With the correction, "-5;" lexes as Integer "-5" followed by Semicolon |
| Scan.NextTokenAdvances | src/lexer/lexer.cpp:56-217 | Every successful `nextToken` moves strictly forward over the same source, so the token stream is well founded up to EndOfFile |
| Lexing.Lexer.constructor | src/lexer/lexer.cpp:4-12 | The new lexer sits on the first character: position 0, line 1, column 0 |
| Lexing.Lexer.ReadChar | src/lexer/helper.cpp:4-12 | Moves the fields as `Scan.ReadChar` and keeps `currentChar` in step |
| Lexing.Lexer.ReadNumber | src/lexer/helper.cpp:27-47 | The loop returns the token and leaves the state `Scan.ReadNumber` specifies |
| Lexing.Lexer.ReadIdentifier | src/lexer/helper.cpp:49-56 | The loop returns the identifier and leaves the state `Scan.ReadIdentifier` specifies |
| Lexing.Lexer.SkipWhitespace | src/lexer/helper.cpp:58-74 | Leaves the state `Scan.SkipWhitespace` specifies |
| Lexing.Lexer.ReadString | src/lexer/string.cpp:45-139 | Returns the string value or the unterminated-string error, as `Scan.ReadString`, and on success leaves its cursor |
| Lexing.Lexer.NextToken | src/lexer/lexer.cpp:56-217 | Returns the token or the error `Scan.NextToken` gives and moves the fields to its cursor, always forward |
| Lexing.Lexer.TokenAt | src/lexer/lexer.cpp:62-213 | The dispatch after whitespace, equal to `Scan.NextTokenAt` |
| Lexing.Lexer.ArithmeticToken | src/lexer/lexer.cpp:62-127 | The `+ . - * / % ^` branches, equal to `Scan.ArithmeticAt` |
| Lexing.Lexer.ComparisonToken | src/lexer/lexer.cpp:128-161 | The `= > < !` branches, equal to `Scan.ComparisonAt` |
| Lexing.Lexer.PunctuationToken | src/lexer/lexer.cpp:162-195 | The bracket, colon, semicolon, `&`, `\|`, `~` and comma branches, equal to `Scan.PunctuationAt` |
| Lexing.Lexer.OtherToken | src/lexer/lexer.cpp:196-213 | End of input, strings, identifiers, numbers and illegal characters, equal to `Scan.OtherToken` |
| Lexing.Lines | src/lexer/helper.cpp:82-94 | Splitting at line feeds yields at least one line |
| Lexing.LinesCount | src/lexer/helper.cpp:94 | There is one more line than there are line feeds |
| Lexing.LinesHaveNoLineFeed | src/lexer/helper.cpp:82-92 | No line contains a line feed |
| Lexing.JoinLinesInverts | src/lexer/helper.cpp:82-92 | Joining the lines with line feeds gives back the source |
| Lexing.NthLineIsLine | src/lexer/helper.cpp:82-92 | Line n (n at most 1 meaning the first) is the n-th of the split; beyond the last line it is "" |
| Lexing.GetStringOnLineNumber | src/lexer/helper.cpp:82-92 | The find loop returns the requested line as `NthLine` defines it |
| Lexing.GetNumberOfLines | src/lexer/helper.cpp:94 | The result is the number of lines the source splits into, at least 1 |
| Lexing.FindFromSuffix | src/lexer/helper.cpp:85-90 | Searching from a position is searching the suffix, offset by that position |
| NodeTypes.NodeTypeNamesOfStatements | src/parser/AST/ast.cpp:3-38 | `Type` is named "TypeStatement" and `Unknown` falls to "UNKNOWN" |
| NodeTypes.NodeTypeNamedInverts | src/parser/AST/ast.cpp:3-38 | Every tag's name reads back as that tag |
| NodeTypes.NodeTypeToStringInjective | src/parser/AST/ast.cpp:3-38 | Distinct tags have distinct names |
| Ast.ExpressionJsonShape | src/parser/AST/ast.cpp:123-165 | Every expression's object carries its tag under "type", and each literal carries its payload under "value" |
| Ast.InfixJsonShape | src/parser/AST/ast.cpp:123-130 | An infix object has exactly the keys type, operator, left_node and right_node. The operator is named by `tokenTypeString`, and right_node is null exactly when the right operand is |
| Ast.StatementJsonTagged | src/parser/AST/ast.cpp:61-121 | Every statement's object carries its own tag under "type" |
| Ast.NullChildrenAreNull | src/parser/AST/ast.cpp:61-113 | Null children of expression statements, returns and declarations serialise as JSON null, and present ones never do |
| Ast.StatementsInOrder | src/parser/AST/ast.cpp:51-76 | A program's and a block's "statements" arrays are equal and list every statement's JSON in order |
| Ast.ParameterTypeOverwritten | src/parser/AST/ast.cpp:98-104 | A parameter's "type" key holds the value type's object: the second write replaces the tag name |
| Ast.ExpressionJsonInjective | src/parser/AST/ast.cpp:123-165 | Distinct expressions have distinct JSON |
| Ast.GenericTypeJsonInjective | src/parser/AST/ast.cpp:40-49 | Distinct type references have distinct JSON |
| Ast.ParameterJsonInjective | src/parser/AST/ast.cpp:98-104 | Distinct parameters have distinct JSON despite the overwritten "type" key |
| Ast.StatementJsonInjective | src/parser/AST/ast.cpp:61-121 | Distinct statements have distinct JSON |
| Ast.ProgramJsonInjective | src/parser/AST/ast.cpp:51-59 | Distinct programs have distinct JSON |
| Precedence.LevelsTotallyOrdered | src/parser/parser.hpp:13-25 | The eleven levels are strictly ordered from LOWEST to POSTFIX, and any two distinct levels compare |
| Precedence.PrecedenceOf | src/parser/parser.hpp:27-62 | A token's precedence is its table entry, and LOWEST when it has none |
| Precedence.SumPrecedence | src/parser/parser.hpp:54-55 | Exactly `+` and `-` are at SUM |
| Precedence.ProductPrecedence | src/parser/parser.hpp:56-60 | Exactly `*`, `%`, `/` and `\` are at PRODUCT |
| Precedence.ExponentPrecedence | src/parser/parser.hpp:58 | Exactly `**` is at Exponent |
| Precedence.ComparisonPrecedence | src/parser/parser.hpp:29-51 | Exactly the six comparisons, the three bitwise operators and the two shifts are at COMPARISION |
| Precedence.AssignPrecedence | src/parser/parser.hpp:35-43 | Exactly `=`, `is` and the seven compound assignments are at ASSIGN |
| Precedence.PrefixParseFnsExactly | src/parser/parser.hpp:70-78 | Exactly Integer, Float, String, True, False, Identifier and `(` have prefix parse functions; both Booleans share one |
| Precedence.InfixParseFnsBindAboveLowest | src/parser/parser.hpp:79-86 | Every token with an infix parse function binds above LOWEST and has no prefix function; `\` has a PRODUCT precedence but no infix function |
| Precedence.ComparisonsHaveNoInfixParseFn | src/parser/parser.hpp:79-86 | Comparison and assignment tokens bind above LOWEST yet have no infix parse function |
| ParseSpec.At | src/parser/parser.cpp:291-295 | The stream is the lexer's tokens followed by the end token forever: any token other than EndOfFile comes from the finite part |
| ParseSpec.MessagesIdentifyErrors | src/parser/parser.cpp:347-357 | A syntax error's message differs from a missing-prefix error's, and the latter names its token kind unambiguously |
| ParseSpec.Next | src/parser/parser.cpp:291-295 | `_nextToken` moves the window one token and keeps the errors |
| ParseSpec.Record | src/parser/parser.cpp:347-357 | Recording an error appends it and keeps the position |
| ParseSpec.LeadingDigitsIsLongest | src/parser/parser.cpp:267-271 | The digits `std::stoll` reads are the longest run of digits at the start |
| ParseSpec.StoLL | src/parser/parser.cpp:267-271 | A converted value is within the `long long` range |
| ParseSpec.StoLLOfDigits | src/parser/parser.cpp:267-271 | A non-empty digit string converts to its decimal value when that fits in `long long`, and throws otherwise |
| ParseSpec.StoLLReadsDecimal | src/parser/parser.cpp:267-271 | `std::stoll` of a decimal numeral gives its value up to 2^63-1 and throws beyond it |
| ParseSpec.StoLLReadsNegativeDecimal | src/parser/parser.cpp:267-271 | A minus sign before a numeral is read as the negated value down to -2^63 |
| ParseSpec.TypeName | src/parser/parser.cpp:179-189 | A type name is an integer, float or string literal for those tokens and an identifier otherwise; an integer token that `std::stoll` refuses is the only failure modelled (see Left out for `std::stod`) |
| ParseSpec.ParseType | src/parser/parser.cpp:177-207 | Parsing a type only moves forward and records no error |
| ParseSpec.GenericArguments | src/parser/parser.cpp:190-205 | The generic loop keeps the arguments already read, records no error and stops on `]` |
| ParseSpec.ParseExpression | src/parser/parser.cpp:223-245 | Parsing an expression at any precedence only moves forward and only adds errors |
| ParseSpec.ParsePrefix | src/parser/parser.cpp:256-289 | Each prefix parse function only moves forward and only adds errors |
| ParseSpec.InfixLoop | src/parser/parser.cpp:233-244 | The Pratt loop only moves forward and only adds errors |
| ParseSpec.ParseInfix | src/parser/parser.cpp:247-254 | An infix node keeps the left operand and the operator token |
| ParseSpec.ParseStatement | src/parser/parser.cpp:27-58 | The statement dispatch only moves forward and only adds errors |
| ParseSpec.Nullable | src/parser/parser.cpp:27-58 | A statement returned through a base-class pointer is never null |
| ParseSpec.SkipSemicolon | src/parser/parser.cpp:148-151 | The optional semicolon is consumed when it is next, and nothing else moves |
| ParseSpec.ParseExpressionStatement | src/parser/parser.cpp:145-154 | Yields an expression statement, only moving forward and only adding errors |
| ParseSpec.ParseReturnStatement | src/parser/parser.cpp:118-127 | Yields a return statement, only moving forward and only adding errors |
| ParseSpec.ParseBlockStatement | src/parser/parser.cpp:129-143 | Yields a block and stops on `}` or EndOfFile |
| ParseSpec.BlockStatements | src/parser/parser.cpp:133-141 | The statement loop keeps the statements so far and stops on its terminator |
| ParseSpec.ParseVariableDeclaration | src/parser/parser.cpp:156-175 | Any node it yields is a variable declaration |
| ParseSpec.ParseVariableAssignment | src/parser/parser.cpp:209-221 | Any node it yields is an assignment |
| ParseSpec.ParseFunctionStatement | src/parser/parser.cpp:60-116 | Any node it yields is a function statement |
| ParseSpec.FunctionSignatureRest | src/parser/parser.cpp:108-115 | Any node built after the parameters is a function statement |
| ParseSpec.ParseParameters | src/parser/parser.cpp:72-107 | The parameter loop keeps the parameters already read |
| ParseSpec.ParametersTail | src/parser/parser.cpp:86-106 | After a parameter, the separator step keeps the parameters already read |
| ParseSpec.ParseParameter | src/parser/parser.cpp:76-85 | A parameter is named by the identifier it starts at |
| ParseSpec.ParseProgramFrom | src/parser/parser.cpp:12-25 | A finished program loop stands on EndOfFile |
| ParseSpec.ParseProgram | src/parser/parser.cpp:12-25 | `parseProgram` from the primed state ends on EndOfFile |
| ParseSpec.ReturnStatementStep | src/parser/parser.cpp:118-127 | A return is the expression after `return`, then the optional semicolon |
| ParseSpec.ExpressionStatementStep | src/parser/parser.cpp:145-154 | An expression statement is the expression, then the optional semicolon |
| ParseSpec.GenericArgumentsStep | src/parser/parser.cpp:195-204 | One turn of the generic loop reads a type, steps past it and past an optional comma |
| ParseSpec.InfixLoopStep | src/parser/parser.cpp:233-243 | One turn of the Pratt loop applies the peeked operator to the left expression |
| Parsing.Parser.constructor | src/parser/parser.cpp:3-10 | Priming with two `_nextToken` calls puts the first two tokens in current and peek, with no errors |
| Parsing.Parser.NextToken | src/parser/parser.cpp:291-295 | The peek token becomes current |
| Parsing.Parser.CurrentTokenIs | src/parser/parser.cpp:297-300 | True exactly when the current token has the kind |
| Parsing.Parser.PeekTokenIs | src/parser/parser.cpp:302-305 | True exactly when the peek token has the kind |
| Parsing.Parser.CurrentPrecedence | src/parser/parser.cpp:321-332 | The current token's table precedence, LOWEST when absent |
| Parsing.Parser.PeekPrecedence | src/parser/parser.cpp:334-345 | The peek token's table precedence, LOWEST when absent |
| Parsing.Parser.PeekError | src/parser/parser.cpp:347-351 | Appends a syntax error at the peek token |
| Parsing.Parser.NoPrefixParseFnError | src/parser/parser.cpp:353-357 | Appends a missing-prefix error at the peek token |
| Parsing.Parser.ExpectPeek | src/parser/parser.cpp:307-319 | Advances and answers true on a match, else records one error |
| Parsing.Parser.ParseProgram | src/parser/parser.cpp:12-25 | The statement loop yields `ParseSpec.ParseProgramFrom` and leaves its state |
| Parsing.Parser.ParseStatement | src/parser/parser.cpp:27-58 | The dispatch equals `ParseSpec.ParseStatement` |
| Parsing.Parser.ParseFunctionStatement | src/parser/parser.cpp:60-71 | Name and `(` checks, then the rest, equal to the spec |
| Parsing.Parser.FunctionSignatureRest | src/parser/parser.cpp:108-115 | Arrow, return type and body, equal to the spec |
| Parsing.Parser.ParseParameterList | src/parser/parser.cpp:72-107 | The parameter loop equals `ParseSpec.ParseParameters` |
| Parsing.Parser.ParameterListTurn | src/parser/parser.cpp:76-106 | One turn either finishes with the spec's outcome or continues with a smaller remaining input |
| Parsing.Parser.ParameterSeparator | src/parser/parser.cpp:86-100 | A comma continues the loop, `)` ends it, anything else records an error and ends it |
| Parsing.Parser.ParseParameter | src/parser/parser.cpp:78-85 | `name : type`, equal to the spec |
| Parsing.Parser.ParseReturnStatement | src/parser/parser.cpp:118-127 | Equal to the spec |
| Parsing.Parser.ParseBlockStatement | src/parser/parser.cpp:129-143 | The block loop equals the spec |
| Parsing.Parser.ParseExpressionStatement | src/parser/parser.cpp:145-154 | Equal to the spec |
| Parsing.Parser.ParseVariableDeclaration | src/parser/parser.cpp:156-175 | Equal to the spec |
| Parsing.Parser.ParseType | src/parser/parser.cpp:177-207 | Equal to the spec, including divergence |
| Parsing.Parser.GenericArgumentList | src/parser/parser.cpp:193-204 | The generic loop equals `ParseSpec.GenericArguments` |
| Parsing.Parser.ParseVariableAssignment | src/parser/parser.cpp:209-221 | Equal to the spec |
| Parsing.Parser.ParseExpression | src/parser/parser.cpp:223-245 | Prefix then the infix loop, equal to the spec |
| Parsing.Parser.InfixExpressions | src/parser/parser.cpp:233-244 | The Pratt loop equals `ParseSpec.InfixLoop` |
| Parsing.Parser.ParsePrefix | src/parser/parser.cpp:267-289 | Each prefix handler equals the spec |
| Parsing.Parser.ParseIntegerLiteral | src/parser/parser.cpp:267-271 | Equal to the spec, aborting where `std::stoll` throws |
| Parsing.Parser.ParseGroupedExpression | src/parser/parser.cpp:256-265 | Equal to the spec: null when `)` is missing |
| Parsing.Parser.ParseInfixExpression | src/parser/parser.cpp:247-254 | Equal to `ParseSpec.ParseInfix` |
| ParseProperties.ExpectPeekAdvancesOnlyOnMatch | src/parser/parser.cpp:307-319 | `_expectPeek` succeeds exactly on a matching peek and then advances; otherwise it stays and appends exactly the expected-X-got-Y error |
| ParseProperties.StatementDispatch | src/parser/parser.cpp:27-58 | The first token and the peek token decide the statement kind as the dispatch says, with the identifier fallback to an expression statement |
| ParseProperties.NoPrefixParseFnIsOneError | src/parser/parser.cpp:225-230 | With no prefix function the expression is null, nothing is consumed and exactly one error is recorded |
| ParseProperties.InfixLoopStops | src/parser/parser.cpp:233-239 | The loop returns the left expression unchanged at a semicolon, a lower precedence or a token with no infix function |
| ParseProperties.ComparisonEndsExpression | src/parser/parser.cpp:233-239 | A comparison token after an operand ends the expression |
| ParseProperties.OtherTokensStartExpressionStatements | src/parser/parser.cpp:56-57 | Any other first token starts an expression statement |
| ParseProperties.ExpressionStatementWithoutSemicolon | src/parser/parser.cpp:145-154 | Without a semicolon the statement ends where the expression ended |
| ParseProperties.NameOperand | src/parser/parser.cpp:285-289 | An identifier with nothing to apply parses as itself, consuming nothing more |
| ParseProperties.IntegerTokenValue | src/parser/parser.cpp:267-271 | An integer token parses to its decimal value |
| ParseProperties.LessThanEndsStatement | src/parser/parser.cpp:145-154 | In `m < n` the first statement is just `m` |
| ParseProperties.LessThanStartsNullStatement | src/parser/parser.cpp:225-230 | `<` starts a null expression statement with one missing-prefix error |
| ParseProperties.LastIntegerStatement | src/parser/parser.cpp:145-154 | An integer token with nothing after it is a statement of its value, consuming nothing more |
| ParseProperties.LessThanRestOfProgram | src/parser/parser.cpp:15-23 | After `m`, the program loop collects a null statement for `<` and then `n`, with the one missing-prefix error |
| ParseProperties.LessThanIsNotAnOperator | src/parser/parser.cpp:12-25 | `m < n` parses as three statements (m, null, n) with one error |
| ParseProperties.SubtractionGroupsLeft | src/parser/parser.cpp:247-254 | `a - b - c` parses as `(a - b) - c` |
| ParseProperties.ProductBindsTighterThanSum | src/parser/parser.cpp:233-254 | `a + b * c` parses as `a + (b * c)` |
| ParseProperties.NameThenLoop | src/parser/parser.cpp:223-233 | An identifier operand then enters the infix loop |
| ParseProperties.InfixStep | src/parser/parser.cpp:247-254 | An infix node's right operand is parsed at the operator's own precedence |
| ParseProperties.DeclarationForms | src/parser/parser.cpp:156-175 | `x : T ;` has no value, `x : T = e` has value e, and anything else records the expected-`=` error and yields null |
| ParseProperties.GenericLoopNeverEndsAtEndOfInput | src/parser/parser.cpp:195-204 | At the end of input a type reads as the EndOfFile literal and the next token is still neither `]` nor `,` |
| ParseProperties.UnclosedGenericsDiverge | src/parser/parser.cpp:195-204 | Without a later `]` the generic-argument loop does not return |
| ParseProperties.StatementLoopStep | src/parser/parser.cpp:15-23 | One turn keeps a non-null statement and steps past it |
| ParseProperties.FunctionBodyIsReturnTypeName | src/parser/parser.cpp:60-116 | `def f() -> int { }` is a function statement whose body is the expression statement `int`, and parsing stops on `int` |
| ParseProperties.FunctionThenSeparateBlock | src/parser/parser.cpp:12-25 | The program `def f() -> int { }` is that function statement followed by a separate empty block statement |
| ParseProperties.EmptyProgram | src/parser/parser.cpp:12-25 | An empty token stream gives an empty program without errors |
| Environment.Record.ClassType | src/compiler/enviornment/enviornment.hpp:30 | Tag RecordClassType and the name |
| Environment.Record.EnumType | src/compiler/enviornment/enviornment.hpp:35 | Tag RecordEnumType and the name |
| Environment.Record.Builtin | src/compiler/enviornment/enviornment.hpp:41 | Tag BuiltinType and the name |
| Environment.Record.BuiltinWithType | src/compiler/enviornment/enviornment.hpp:42 | Tag BuiltinType, the name and the type |
| Environment.Record.Variable | src/compiler/enviornment/enviornment.hpp:50 | Tag RecordVariable and the name |
| Environment.Record.VariableWith | src/compiler/enviornment/enviornment.hpp:51-52 | Tag RecordVariable, with value, type and slot set |
| Environment.Record.Function | src/compiler/enviornment/enviornment.hpp:60 | Tag RecordFunction and the name |
| Environment.Record.FunctionWith | src/compiler/enviornment/enviornment.hpp:61-63 | Tag RecordFunction, with function, type and arguments set |
| Environment.Record.SetMetaData | src/compiler/enviornment/enviornment.hpp:19-24 | The four positions change and nothing else does |
| Environment.Scope.With | src/compiler/enviornment/enviornment.cpp:3-5 | `add` changes only the current scope's entry for the name |
| Environment.LookupIsVisible | src/compiler/enviornment/enviornment.cpp:6-14 | `get` finds exactly what the flattened chain (inner over outer) holds, and the null triple elsewhere |
| Environment.AddThenGet | src/compiler/enviornment/enviornment.cpp:3-14 | After `add(n, t, v, a)`, `get(n)` returns (v, t, a) |
| Environment.AddOverwrites | src/compiler/enviornment/enviornment.cpp:3-5 | A second `add` of a name replaces the first |
| Environment.AddFrame | src/compiler/enviornment/enviornment.cpp:3-14 | `add` of one name changes no other name's lookup nor the parent |
| Environment.InnermostShadows | src/compiler/enviornment/enviornment.cpp:7-8 | A name in the current scope hides every outer entry |
| Environment.MissDelegatesToParent | src/compiler/enviornment/enviornment.cpp:9-10 | A miss in the current scope is the parent's answer |
| Environment.RootMissIsNull | src/compiler/enviornment/enviornment.cpp:11-12 | A miss at the root is the all-null triple |
| Environment.Environment.constructor | src/compiler/enviornment/enviornment.hpp:71-73 | Parent, records and name are the arguments, by default none, empty and "unnamed" |
| Environment.Environment.Add | src/compiler/enviornment/enviornment.cpp:3-5 | The object's scope becomes `With(n, (value, type, alloca))` |
| Environment.Environment.Get | src/compiler/enviornment/enviornment.cpp:6-14 | The result is the flattened chain's entry, or the null triple |
| Environment.Environment.Assign | src/compiler/compiler.cpp:278-289 | Copy assignment makes the object hold exactly the saved scope |
| Environment.NewRootEnvironment | src/compiler/enviornment/enviornment.hpp:71-73 | A default scope is an unnamed root that finds nothing |
| Ir.Emit | src/compiler/compiler.cpp:195-197 | A builder call appends one instruction at the insertion point and returns a handle to it, changing nothing else |
| Ir.AddBlock | src/compiler/compiler.cpp:223-224 | `BasicBlock::Create` appends one block under the function and returns its index |
| LowerSpec.TypeNamed | src/compiler/compiler.cpp:190-192 | A `type_map` lookup finds exactly the entries present |
| LowerSpec.Initial | src/compiler/compiler.cpp:3-22 | After construction: int, float and bool map to i32, float and i1; globals True=1 and False=0 are bound with type bool and no slot; nothing else is bound; no code and no insertion point |
| LowerSpec.InfixInstruction | src/compiler/compiler.cpp:101-170 | An instruction exists exactly for int×int or float×float operands with an arithmetic or comparison operator. Its operands are the two values, comparisons are ICmp/FCmp, and integer operands give integer instructions |
| LowerSpec.Resolve | src/compiler/compiler.cpp:316-355 | Lowering an expression changes only the code, and only by appending |
| LowerSpec.EmitInfix | src/compiler/compiler.cpp:172-184 | Emitting the selected instruction appends at most that instruction |
| LowerSpec.CompileExpression | src/compiler/compiler.cpp:33-36 | Compiling a bare expression only appends code |
| LowerSpec.Declaration | src/compiler/compiler.cpp:187-202 | A declaration keeps the type table, the insertion point and the current function, and only appends code |
| LowerSpec.Assignment | src/compiler/compiler.cpp:204-214 | An assignment only appends code |
| LowerSpec.Return | src/compiler/compiler.cpp:310-314 | A return only appends code |
| LowerSpec.ParamNames | src/compiler/compiler.cpp:258-259 | One name per parameter |
| LowerSpec.ParamTypes | src/compiler/compiler.cpp:260-263 | One looked-up type per parameter |
| LowerSpec.BindParams | src/compiler/compiler.cpp:282-286 | The parameter loop changes only the code, by appending, and the current scope's records |
| LowerSpec.BindParamsStep | src/compiler/compiler.cpp:282-286 | The loop is the first parameter's alloca/store/add followed by the rest |
| LowerSpec.BodyState | src/compiler/compiler.cpp:253-287 | Before the body runs, the module has only grown and the scope is a new child named after the function |
| LowerSpec.CompileStatement | src/compiler/compiler.cpp:24-74 | Compiling any statement only grows the module and keeps the type table |
| LowerSpec.FunctionDeclaration | src/compiler/compiler.cpp:252-291 | Compiling a function only grows the module and keeps the type table |
| LowerSpec.CompileSeq | src/compiler/compiler.cpp:84-86 | Compiling statements in order only grows the module |
| LowerSpec.CompileSeqStep | src/compiler/compiler.cpp:84-86 | A sequence is its first statement then the rest |
| LowerSpec.Arm | src/compiler/compiler.cpp:226-228 | An arm only grows the module |
| LowerSpec.IfElse | src/compiler/compiler.cpp:216-244 | The if/else lowering only grows the module |
| LowerSpec.IfThen | src/compiler/compiler.cpp:222-229 | Only grows the module |
| LowerSpec.IfThenElse | src/compiler/compiler.cpp:231-242 | Only grows the module |
| LowerSpec.ResolveArgs | src/compiler/compiler.cpp:296-300 | The argument loop gives one value per argument and only appends code |
| LowerSpec.Call | src/compiler/compiler.cpp:293-308 | A call only appends code |
| LowerSpec.ResolveArgsStep | src/compiler/compiler.cpp:297-300 | Arguments are lowered first to last |
| LowerProperties.IntegerLiteralLowering | src/compiler/compiler.cpp:318-322 | An integer literal is the 32-bit constant `APInt(32, v)`: its bits agree with v modulo 2^32, it equals v inside the 32-bit signed range, its type is the type table's "int" entry, and no code is emitted |
| LowerProperties.OtherLiteralsLowering | src/compiler/compiler.cpp:323-353 | Floats and Booleans are constants of the float and bool types; a string literal reaches the default case and is the null pair |
| LowerProperties.IdentifierLowering | src/compiler/compiler.cpp:333-338 | An identifier is one Load, of the recorded type from the recorded slot, named after the identifier, with the recorded type |
| LowerProperties.InfixLowering | src/compiler/compiler.cpp:94-185 | Left is lowered first, then right. A handled operator appends exactly one instruction on the two values, typed by the operator; an unhandled one appends nothing and gives the null pair |
| LowerProperties.InfixTyping | src/compiler/compiler.cpp:102-170 | Arithmetic keeps the operand type, comparisons are bool, and unhandled combinations have no type |
| LowerProperties.MixedOperandsAreRejected | src/compiler/compiler.cpp:98-101 | `1 + 2.5` emits nothing and yields the null pair |
| LowerProperties.IntegerComparisonIsBool | src/compiler/compiler.cpp:102-135 | `1 < 2` is one signed `icmp slt` named "lttmp", typed i1 |
| LowerProperties.ExpressionStatementLowering | src/compiler/compiler.cpp:29-36 | An expression statement emits code only for an infix expression, and literals alone do nothing |
| LowerProperties.DeclarationLowering | src/compiler/compiler.cpp:187-202 | For a fresh name: after the value, an Alloca of the named type and a Store of the value, and the name bound to (value, type, slot) in the current scope. For a visible name: only the value's code |
| LowerProperties.DeclarationFrame | src/compiler/compiler.cpp:198 | A declaration changes no other name's lookup and not the parent scope |
| LowerProperties.DeclarationNode | src/compiler/compiler.cpp:37-40 | Compiling a declaration node is the declaration lowering |
| LowerProperties.OuterNameBlocksDeclaration | src/compiler/compiler.cpp:194 | A name bound in an enclosing scope cannot be declared in an inner one |
| LowerProperties.BuiltinNamesCannotBeDeclared | src/compiler/compiler.cpp:20-21 | `True` and `False` cannot be redeclared at the top level |
| LowerProperties.AssignmentLowering | src/compiler/compiler.cpp:204-214 | The scope is unchanged. A bound name gets a Store of the value into its slot; an unbound one only the value's code |
| LowerProperties.ReturnLowering | src/compiler/compiler.cpp:310-314 | A return is the value's code then one `ret` of it |
| LowerProperties.IfWithoutElse | src/compiler/compiler.cpp:222-229 | Blocks "then" and "cont" are added, the first new instruction branches on the condition to them, the last is `br cont`, and insertion continues in "cont" |
| LowerProperties.IfWithElse | src/compiler/compiler.cpp:231-242 | Blocks "then", "else" and "cont" are added, the conditional branch goes to then/else, the then arm's `br cont` comes before the else arm's code, the last instruction is `br cont`, and insertion continues in "cont" |
| LowerProperties.ArmEndsWithBranch | src/compiler/compiler.cpp:226-228 | An arm ends with a branch to the join block |
| LowerProperties.IfElseDispatch | src/compiler/compiler.cpp:216-222 | The condition is lowered in place, then the alternative decides which of the two forms runs, in the function holding the insertion block |
| LowerProperties.BindParamCode | src/compiler/compiler.cpp:283-285 | One parameter is an Alloca and a Store of the argument into it, bound to (argument, type, slot) |
| LowerProperties.BindParamsKeeps | src/compiler/compiler.cpp:282-286 | A name that is not among the remaining parameters keeps its entry |
| LowerProperties.BindParamsCode | src/compiler/compiler.cpp:282-286 | Parameter j's Alloca and Store sit at positions 2j and 2j+1 after the loop's start |
| LowerProperties.BindParamsBinds | src/compiler/compiler.cpp:282-286 | The last parameter of a given name is bound to its argument, type and slot |
| LowerProperties.FunctionBodyScope | src/compiler/compiler.cpp:267-287 | The body sees: the function declared with its type and argument names; "name_entry" as the insertion block; each parameter's slot code; parameters, then the function, then the outer scope in lookup order; and the current function set |
| LowerProperties.FunctionScopeAfterwards | src/compiler/compiler.cpp:288-290 | Afterwards the outer scope is restored with the function's name added, so nothing declared in the body is visible, and the function is in the module |
| LowerProperties.ResolveArgsAppend | src/compiler/compiler.cpp:297-300 | Lowering a concatenation of arguments is lowering each part in turn |
| LowerProperties.CallLowering | src/compiler/compiler.cpp:293-308 | All arguments are lowered first. An undeclared name then gives the null pair with no call; a declared one gives one `call` of the recorded function on the argument values, named "calltmp" |
| LowerProperties.CallAfterDeclarationHasFunctionType | src/compiler/compiler.cpp:302-304 | After a function declaration, calling it yields the function's type as recorded |
| LowerProperties.CompileSeqAppend | src/compiler/compiler.cpp:84-86 | Compiling a concatenation of statement lists is compiling one after the other |
| LowerProperties.BlockOpensNoScope | src/compiler/compiler.cpp:246-250 | A block compiles exactly as the same statements at program level: it opens no scope |
| Compiling.Compiler.constructor | src/compiler/compiler.cpp:3-6 | The object starts in `Initial()` |
| Compiling.Compiler.InitializeBuiltins | src/compiler/compiler.cpp:8-22 | Adds the three type names, the two globals and their bindings |
| Compiling.Compiler.Emit | src/compiler/compiler.cpp:195-197 | Appends one instruction at the insertion point, nothing else changes |
| Compiling.Compiler.CreateBlock | src/compiler/compiler.cpp:223-224 | Appends one block, nothing else changes |
| Compiling.Compiler.ResolveValue | src/compiler/compiler.cpp:316-355 | The object's new state and the result are `Resolve` of the expression |
| Compiling.Compiler.VisitInfixExpression | src/compiler/compiler.cpp:94-185 | Equal to `Resolve` on the infix node |
| Compiling.Compiler.IntegerInfix | src/compiler/compiler.cpp:102-135 | The int×int branch equals the specified case |
| Compiling.Compiler.FloatInfix | src/compiler/compiler.cpp:136-170 | The float×float branch equals the specified case |
| Compiling.Compiler.CompileExpressionNode | src/compiler/compiler.cpp:33-36 | Equal to `CompileExpression` |
| Compiling.Compiler.Compile | src/compiler/compiler.cpp:24-74 | The dispatch leaves the state `CompileStatement` computes |
| Compiling.Compiler.VisitProgram | src/compiler/compiler.cpp:76-88 | The statement loop equals `CompileProgram` |
| Compiling.Compiler.VisitBlockStatement | src/compiler/compiler.cpp:246-250 | The statement loop equals the block's specification |
| Compiling.Compiler.VisitVariableDeclarationStatement | src/compiler/compiler.cpp:187-202 | Equal to the specification |
| Compiling.Compiler.VisitVariableAssignmentStatement | src/compiler/compiler.cpp:204-214 | Equal to the specification |
| Compiling.Compiler.VisitReturnStatement | src/compiler/compiler.cpp:310-314 | Equal to `Return` |
| Compiling.Compiler.VisitFunctionDeclarationStatement | src/compiler/compiler.cpp:252-291 | Save, replace and restore of the scope object, equal to `FunctionDeclaration` |
| Compiling.Compiler.CollectParameters | src/compiler/compiler.cpp:256-263 | The loop collects the parameter names and looked-up types |
| Compiling.Compiler.BindParameters | src/compiler/compiler.cpp:282-286 | The loop equals `BindParams` |
| Compiling.Compiler.BindParameter | src/compiler/compiler.cpp:283-285 | One turn equals `BindParam` |
| Compiling.Compiler.VisitIfElseStatement | src/compiler/compiler.cpp:216-244 | Equal to `IfElse` |
| Compiling.Compiler.VisitIfThen | src/compiler/compiler.cpp:222-229 | Equal to `IfThen` |
| Compiling.Compiler.VisitIfThenElse | src/compiler/compiler.cpp:231-242 | Equal to `IfThenElse` |
| Compiling.Compiler.CompileArm | src/compiler/compiler.cpp:226-228 | Equal to `Arm` |
| Compiling.Compiler.VisitCallExpression | src/compiler/compiler.cpp:293-308 | Equal to `Call` |

## Left out

- Colour output of `Token::toString` (the `color` flag) and `Token::print`
  are not modelled, because they are terminal output. Only the uncoloured
  text is modelled.
- The start column of a token built without a literal is left unset,
  because C++ leaves it uninitialised. `Tokens.WrittenFields` requires it
  to be set.
- Diagnostics printing (`errors.cpp`), `main` and the first-generation
  sources under `src/*.cpp` and `src/include` are not part of this model.
  An unterminated string, which the lexer reports and then exits on, is the
  error value `LexError`.
- The parser's stream is the finite token list followed by a fixed
  EndOfFile token. Repeated EndOfFile tokens from the real lexer keep moving
  their column; that drift is not modelled.
- `_parseBooleanLiteral` is declared without a definition, so the token to
  expression function it stands for is a parameter of the parser model
  (`Input.booleanLiteral`).
- `std::stod` is not evaluated, because floating point is out of scope. A
  float literal keeps its text (`Ast.Double`), and the compiler's
  `APFloat` constant keeps that text too. So `1.0` and `1.00` are two
  values in the model but the same `double` in C++, and
  `Ast.ExpressionJsonInjective` relies on the spelling being kept.
- ParseSpec.TypeName, ParseSpec.ParsePrefix: `std::stod` throws
  `std::out_of_range` on a float literal beyond the range of `double`
  (src/parser/parser.cpp:183 and :275). The model never aborts on a float
  literal; only a refused `std::stoll` gives `Aborted`.
- The lexer works on characters, while the C++ lexer indexes the bytes of
  a `std::string`. Input outside ASCII therefore gives different tokens and
  columns: `é` is one character here but two bytes in C++, which the C++
  lexer reads as two Illegal tokens.
- A thrown `std::stoll` (integer literal out of range) is modelled as the
  outcome `Aborted`. A generic loop that never ends is modelled as
  `Diverged`, as proved by `ParseProperties.UnclosedGenericsDiverge`.
  Neither models a C++ exception or hang at run time.
- LLVM's own behaviour is not modelled: constant folding, IR verification,
  renaming of duplicate value names, `cast<Function>` on a non-function,
  null operands and null types. The module is a log of the builder calls
  the compiler makes, with null handles kept as `None`.
- `type_map[...]` with an unknown type name inserts a null entry in C++.
  The model returns `None` and leaves the map unchanged, because no later
  lookup tells the two apart.
- The "Unknown node type", "Variable already declared", "Variable not
  declared" and "Function not declared" messages are `std::cout` output.
  Only their control flow (nothing emitted) is modelled.
- The compiler requires the statements it lowers to be `Compilable`:
  - no null children;
  - names and type names are identifiers.

  C++ dereferences these pointers unchecked.
- Ast.ExpressionJson, Ast.StatementJson, Ast.ProgramJson: these require
  the tree to be serialisable: no null infix left operand
  (src/parser/AST/ast.cpp:123-130), no null assignment value (ast.cpp:119)
  and no null function body (ast.cpp:94). `toJSON` dereferences each of
  these unchecked, which is undefined behaviour, and the parser does build
  such trees: `x = ;` gives an assignment with a null value.
- LowerSpec.IfElse, Compiling.Compiler.VisitIfElseStatement,
  LowerProperties.IfElseDispatch: these require an insertion block
  (`HasInsertBlock`). Without one, `GetInsertBlock()->getParent()`
  (src/compiler/compiler.cpp:222 and :231) dereferences null.
- The environment header's record-based API (`add(record)`, `get(name,
  limit2current_scope)`, `is_*`, `get_*`) is declared only; the
  implementation file defines the tuple-based `add`/`get`, and that is what
  is modelled. `AST::MetaData` is reduced to its four positions.
- `Lexing.Lines`, `Lexing.GetStringOnLineNumber`: the line helpers work on
  characters; a line number beyond the last line yields "" as in C++, and
  negative numbers are treated as line 1, as the `for` loop does.

## Findings

| source | as written | input that shows it | evidently intended | confidence | as-written member | corrected member |
|---|---|---|---|---|---|---|
| src/lexer/tokens.cpp:44-45 | The line number is padded when the *literal* is shorter than 2 characters, using `2 - lineNoString.length()` as a `size_t`. For a line number of 3 or more digits this underflows and `std::string(n, ' ')` throws `std::length_error` | `Token(Plus, "+", 100, 1).toString()` | Guard on the line number's own length, as for the two column fields below it | high, not executed | Tokens.RenderThrowsOnShortLiteralAtLine100 | Tokens.RenderAgreesWithIntended |
| src/lexer/lexer.cpp:87-90 | The negative-number branch reads the number, which already stops on the following character, and then falls through to the trailing `_readChar` at line 215. The character after the number is skipped | `"-5;"` lexes as Integer "-5" then EndOfFile | Return right after the number, like the digit branch at lines 207-209 | high, not executed | Scan.NegativeNumberSwallowsSemicolon | Scan.NegativeNumberKeepsSemicolon |
