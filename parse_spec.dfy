/**
 * The parser of src/parser/parser.cpp as pure functions over a token
 * stream and a parser state.
 *
 * The stream is the lexer's output: a finite sequence of tokens followed by
 * `EndOfFile` forever. The state is the index of `current_token` in the
 * stream (`peek_token` is the next one) and the accumulated errors. Every
 * `_parse*` member function is a function from a state to an `Outcome`:
 * the node it returns (`None` for `nullptr`) and the state afterwards, or
 * `Halted` when the C++ code never returns: `std::stoll` throws on a
 * literal it cannot convert, and the generic-argument loop of `_parseType`
 * spins forever once it reaches the end of input.
 */
module ParseSpec {
  import opened Wrappers
  import opened Ast
  import T = Tokens
  import P = Precedence

  // ---------------------------------------------------------------------
  // The token stream and the parser state

  /** The token the lexer returns once its input is used up (on every later call too). */
  type EndToken = t: T.Token | t.kind.EndOfFile? witness T.Token(T.EndOfFile, "", 0, Option.None, 0)

  /**
   * The parser's input. `_parseBooleanLiteral` is declared but has no
   * definition, so what it returns for a `True` or `False` token is a
   * parameter of the model.
   */
  datatype Input = Input(tokens: seq<T.Token>, eof: EndToken, booleanLiteral: T.Token -> Option<Expression>)

  function At(inp: Input, i: nat): (t: T.Token)
    ensures !t.kind.EndOfFile? ==> i < |inp.tokens|
  {
    if i < |inp.tokens| then inp.tokens[i] else inp.eof
  }

  /** How many tokens of the finite part are left: the termination measure of every loop of the parser. */
  function Remaining(inp: Input, i: nat): nat
  {
    if i < |inp.tokens| then |inp.tokens| - i else 0
  }

  /**
   * An entry of the `errors` vector: the kind of error, what it is about,
   * and the token it points at; `Message` gives its text.
   */
  datatype ParseError =
    | SyntaxError(got: T.TokenType, expected: T.TokenType, at: T.Token)
    | NoPrefixParseFnError(kind: T.TokenType, at: T.Token)

  /** The message text `_peekError` and `_noPrefixParseFnError` build. */
  function Message(e: ParseError): (m: string)
  {
    match e
    case SyntaxError(got, expected, _) =>
      "Expected next token to be " + T.TokenTypeString(expected) + ", got " + T.TokenTypeString(got)
    case NoPrefixParseFnError(kind, _) => "No prefix parse function for " + T.TokenTypeString(kind)
  }

  /** The two kinds of error have different messages, and the message of a missing prefix function names the kind. */
  lemma MessagesIdentifyErrors(e1: ParseError, e2: ParseError)
    ensures e1.SyntaxError? && e2.NoPrefixParseFnError? ==> Message(e1) != Message(e2)
    ensures e1.NoPrefixParseFnError? && e2.NoPrefixParseFnError? && Message(e1) == Message(e2) ==> e1.kind == e2.kind
  {
    if e1.SyntaxError? && e2.NoPrefixParseFnError? {
      assert Message(e1)[0] == 'E' && Message(e2)[0] == 'N';
    }
    if e1.NoPrefixParseFnError? && e2.NoPrefixParseFnError? && Message(e1) == Message(e2) {
      var p := "No prefix parse function for ";
      assert T.TokenTypeString(e1.kind) == Message(e1)[|p|..];
      assert T.TokenTypeString(e2.kind) == Message(e2)[|p|..];
      T.TokenTypeStringInjective(e1.kind, e2.kind);
    }
  }

  datatype PState = PState(pos: nat, errors: seq<ParseError>)

  function Current(inp: Input, st: PState): T.Token { At(inp, st.pos) }

  function Peek(inp: Input, st: PState): T.Token { At(inp, st.pos + 1) }

  /** The state once the constructor has called `_nextToken` twice: the first two tokens are current and peek. */
  const Start: PState := PState(0, [])

  /** `_nextToken`: the peek token becomes current and the lexer supplies the next one. */
  function Next(st: PState): (r: PState)
    ensures r.pos == st.pos + 1 && r.errors == st.errors
  {
    st.(pos := st.pos + 1)
  }

  function Record(st: PState, e: ParseError): (r: PState)
    ensures r.pos == st.pos && r.errors == st.errors + [e]
  {
    st.(errors := st.errors + [e])
  }

  /** `_expectPeek(type)`: advance when the peek token has that kind, otherwise record one error at it. */
  function ExpectPeek(inp: Input, st: PState, kind: T.TokenType): (bool, PState)
  {
    if Peek(inp, st).kind == kind then (true, Next(st))
    else (false, Record(st, SyntaxError(Peek(inp, st).kind, kind, Peek(inp, st))))
  }

  /** The parser only moves forward and only adds errors. */
  predicate Follows(a: PState, b: PState)
  {
    a.pos <= b.pos && a.errors <= b.errors
  }

  // ---------------------------------------------------------------------
  // Outcomes

  /** Why a parse function never returns: `std::stoll` threw on the literal, or a loop never ends. */
  datatype Halt = Aborted(literal: string) | Diverged

  datatype Outcome<+X> = Done(value: X, st: PState) | Halted(why: Halt)

  predicate Moves<X>(st: PState, o: Outcome<X>)
  {
    o.Done? ==> Follows(st, o.st)
  }

  // ---------------------------------------------------------------------
  // std::stoll

  predicate IsSpace(c: char)
  {
    c == ' ' || c == '\t' || c == '\n' || c == '\U{B}' || c == '\U{C}' || c == '\r'
  }

  function DropSpaces(s: string): string
  {
    if |s| > 0 && IsSpace(s[0]) then DropSpaces(s[1..]) else s
  }

  /** What is left once the leading white space is skipped: a suffix that starts with no white space. */
  lemma {:induction false} DropSpacesIsSuffix(s: string)
    ensures var r := DropSpaces(s); |r| <= |s| && r == s[|s| - |r|..] && (|r| > 0 ==> !IsSpace(r[0]))
    decreases |s|
  {
    if |s| > 0 && IsSpace(s[0]) {
      DropSpacesIsSuffix(s[1..]);
    }
  }

  /** The longest prefix of decimal digits. */
  function LeadingDigits(s: string): (d: string)
    ensures forall i :: 0 <= i < |d| ==> T.IsDecimalDigit(d[i])
  {
    if |s| > 0 && T.IsDecimalDigit(s[0]) then [s[0]] + LeadingDigits(s[1..]) else ""
  }

  /** The run of digits is a prefix, and it is the longest one. */
  lemma {:induction false} LeadingDigitsIsLongest(s: string)
    ensures var d := LeadingDigits(s); d <= s && (|d| < |s| ==> !T.IsDecimalDigit(s[|d|]))
    decreases |s|
  {
    if |s| > 0 && T.IsDecimalDigit(s[0]) {
      LeadingDigitsIsLongest(s[1..]);
    }
  }

  const LongLongMin: int := -0x8000_0000_0000_0000
  const LongLongMax: int := 0x7FFF_FFFF_FFFF_FFFF

  /**
   * `std::stoll(s)` in base 10: leading white space, an optional sign and
   * the longest run of digits; `None` when it throws (no digits, or a value
   * outside `long long`).
   */
  function StoLL(s: string): (r: Option<int>)
    ensures r.Some? ==> LongLongMin <= r.value <= LongLongMax
  {
    var t := DropSpaces(s);
    var negative := |t| > 0 && t[0] == '-';
    var u := if |t| > 0 && (t[0] == '-' || t[0] == '+') then t[1..] else t;
    var d := LeadingDigits(u);
    var v: int := if negative then -(T.DecimalValue(d) as int) else T.DecimalValue(d);
    if |d| == 0 || v < LongLongMin || LongLongMax < v then Option.None else Some(v)
  }

  lemma LeadingDigitsOfDigits(s: string)
    requires forall i :: 0 <= i < |s| ==> T.IsDecimalDigit(s[i])
    ensures LeadingDigits(s) == s
  {
  }

  /** A run of digits is read as its decimal value. */
  lemma StoLLOfDigits(s: string)
    requires |s| > 0 && forall i :: 0 <= i < |s| ==> T.IsDecimalDigit(s[i])
    ensures StoLL(s) == if T.DecimalValue(s) <= LongLongMax then Some(T.DecimalValue(s) as int) else Option.None
  {
    LeadingDigitsOfDigits(s);
    assert T.IsDecimalDigit(s[0]);
    assert s[0] != '-' && s[0] != '+' && !IsSpace(s[0]);
    assert DropSpaces(s) == s;
    assert LeadingDigits(s) == s;
  }

  /** `stoll` reads back what the lexer produces for an integer: digits, possibly after a "-". */
  lemma StoLLReadsDecimal(n: nat)
    ensures n <= LongLongMax ==> StoLL(T.NatToString(n)) == Some(n as int)
    ensures LongLongMax < n ==> StoLL(T.NatToString(n)) == Option.None
  {
    StoLLOfDigits(T.NatToString(n));
  }

  lemma StoLLReadsNegativeDecimal(n: nat)
    ensures n <= -LongLongMin ==> StoLL("-" + T.NatToString(n)) == Some(-(n as int))
  {
    var s := T.NatToString(n);
    LeadingDigitsOfDigits(s);
    var m := "-" + s;
    assert m[1..] == s;
    assert DropSpaces(m) == m;
    assert T.DecimalValue(LeadingDigits(m[1..])) == n;
  }

  // ---------------------------------------------------------------------
  // Types

  /** The name of a type: the current token read as a literal; `None` when `std::stoll` throws. */
  function TypeName(tok: T.Token): (r: Option<Expression>)
    ensures r.None? <==> (tok.kind.Integer? && StoLL(tok.literal).None?)
    ensures !tok.kind.Integer? && !tok.kind.Float? && !tok.kind.String? ==> r == Some(IdentifierLiteral(tok.literal))
  {
    if tok.kind.Integer? then
      (if StoLL(tok.literal).Some? then Some(IntegerLiteral(StoLL(tok.literal).value)) else Option.None)
    else if tok.kind.Float? then Some(FloatLiteral(FromDecimal(tok.literal)))
    else if tok.kind.String? then Some(StringLiteral(tok.literal))
    else Some(IdentifierLiteral(tok.literal))
  }

  /** `_parseType`: a name, then generic arguments when the peek token is `[`; ends on the type's last token. */
  function ParseType(inp: Input, st: PState): (o: Outcome<GenericType>)
    ensures Moves(st, o)
    ensures o.Done? ==> o.st.errors == st.errors
    decreases Remaining(inp, st.pos), 0
  {
    var name := TypeName(Current(inp, st));
    if name.None? then Halted(Aborted(Current(inp, st).literal))
    else if Peek(inp, st).kind.LeftBracket? then
      match GenericArguments(inp, Next(Next(st)), [])
      case Halted(why) => Halted(why)
      case Done(gs, st1) => Done(GenericType(name.value, gs), st1)
    else Done(GenericType(name.value, []), st)
  }

  /**
   * The generic-argument loop: parse a type, step past it, step past a
   * comma if there is one; exit only on `]`. Once the finite part of the
   * stream is used up the current token is `EndOfFile` for good and the
   * loop never exits (see `GenericLoopNeverEndsAtEndOfInput`).
   */
  function GenericArguments(inp: Input, st: PState, gs: seq<GenericType>): (o: Outcome<seq<GenericType>>)
    ensures Moves(st, o)
    ensures o.Done? ==> o.st.errors == st.errors && gs <= o.value && Current(inp, o.st).kind.RightBracket?
    decreases Remaining(inp, st.pos), 1
  {
    if Current(inp, st).kind.RightBracket? then Done(gs, st)
    else if |inp.tokens| <= st.pos then Halted(Diverged)
    else
      match ParseType(inp, st)
      case Halted(why) => Halted(why)
      case Done(g, st1) =>
        var st2 := Next(st1);
        var st3 := if Current(inp, st2).kind.Comma? then Next(st2) else st2;
        GenericArguments(inp, st3, gs + [g])
  }

  // ---------------------------------------------------------------------
  // Expressions

  /** `_parseExpression(precedence)`: a prefix parse function, then the Pratt loop. */
  function ParseExpression(inp: Input, st: PState, prec: P.Level): (o: Outcome<Option<Expression>>)
    ensures Moves(st, o)
    decreases Remaining(inp, st.pos), 2
  {
    var cur := Current(inp, st);
    match P.PrefixParseFn(cur.kind)
    case None => Done(Option.None, Record(st, NoPrefixParseFnError(cur.kind, Peek(inp, st))))
    case Some(f) =>
      match ParsePrefix(inp, st, f)
      case Halted(why) => Halted(why)
      case Done(left, st1) => InfixLoop(inp, st1, prec, left)
  }

  /** The prefix parse functions `prefix_parse_fns` binds to the current token's kind. */
  function ParsePrefix(inp: Input, st: PState, f: P.PrefixParser): (o: Outcome<Option<Expression>>)
    requires P.PrefixParseFn(Current(inp, st).kind) == Some(f)
    ensures Moves(st, o)
    decreases Remaining(inp, st.pos), 1
  {
    var cur := Current(inp, st);
    match f
    case IntegerLiteral =>
      if StoLL(cur.literal).Some? then Done(Some(IntegerLiteral(StoLL(cur.literal).value)), st)
      else Halted(Aborted(cur.literal))
    case FloatLiteral => Done(Some(FloatLiteral(FromDecimal(cur.literal))), st)
    case StringLiteral => Done(Some(StringLiteral(cur.literal)), st)
    case BooleanLiteral => Done(inp.booleanLiteral(cur), st)
    case IdentifierLiteral => Done(Some(IdentifierLiteral(cur.literal)), st)
    case Grouped =>
      match ParseExpression(inp, Next(st), P.Lowest)
      case Halted(why) => Halted(why)
      case Done(e, st1) =>
        var (ok, st2) := ExpectPeek(inp, st1, T.RightParen);
        Done(if ok then e else Option.None, st2)
  }

  /**
   * The loop of `_parseExpression`: while the peek token is not `;` and
   * binds tighter than `prec`, hand the expression so far to its infix
   * parse function; stop as well when it has none.
   */
  function InfixLoop(inp: Input, st: PState, prec: P.Level, left: Option<Expression>): (o: Outcome<Option<Expression>>)
    ensures Moves(st, o)
    decreases Remaining(inp, st.pos), 1
  {
    var pk := Peek(inp, st).kind;
    if pk.Semicolon? || !P.Less(prec, P.PrecedenceOf(pk)) || !P.HasInfixParseFn(pk) then Done(left, st)
    else
      match ParseInfix(inp, Next(st), left)
      case Halted(why) => Halted(why)
      case Done(e, st1) => InfixLoop(inp, st1, prec, Some(e))
  }

  /** `_parseInfixExpression(left)`: the operator is the current token; the right side binds at its precedence. */
  function ParseInfix(inp: Input, st: PState, left: Option<Expression>): (o: Outcome<Expression>)
    requires P.HasInfixParseFn(Current(inp, st).kind)
    ensures Moves(st, o)
    ensures o.Done? ==> o.value.InfixExpression? && o.value.left == left && o.value.op == Current(inp, st).kind
    decreases Remaining(inp, st.pos), 0
  {
    var op := Current(inp, st).kind;
    match ParseExpression(inp, Next(st), P.PrecedenceOf(op))
    case Halted(why) => Halted(why)
    case Done(right, st1) => Done(InfixExpression(left, op, right), st1)
  }

  // ---------------------------------------------------------------------
  // Statements

  /** `_parseStatement`: predictive dispatch on the current token and, for an identifier, the peek token. */
  function ParseStatement(inp: Input, st: PState): (o: Outcome<Option<Statement>>)
    ensures Moves(st, o)
    decreases Remaining(inp, st.pos), 3
  {
    var cur := Current(inp, st).kind;
    if cur.Identifier? && Peek(inp, st).kind.Colon? then ParseVariableDeclaration(inp, st)
    else if cur.Identifier? && Peek(inp, st).kind.Equals? then ParseVariableAssignment(inp, st)
    else if cur.LeftBrace? then Nullable(ParseBlockStatement(inp, st))
    else if cur.Return? then Nullable(ParseReturnStatement(inp, st))
    else if cur.Def? then ParseFunctionStatement(inp, st)
    else Nullable(ParseExpressionStatement(inp, st))
  }

  /** A statement a `_parse*` function returns as a pointer that is never null. */
  function Nullable(o: Outcome<Statement>): (r: Outcome<Option<Statement>>)
    ensures r.Done? <==> o.Done?
    ensures o.Done? ==> r.value == Some(o.value) && r.st == o.st
  {
    match o
    case Halted(why) => Halted(why)
    case Done(s, st) => Done(Some(s), st)
  }

  /** `_parseExpressionStatement`: an expression, then a `;` if the peek token is one. */
  function ParseExpressionStatement(inp: Input, st: PState): (o: Outcome<Statement>)
    ensures Moves(st, o)
    ensures o.Done? ==> o.value.ExpressionStatement?
  {
    match ParseExpression(inp, st, P.Lowest)
    case Halted(why) => Halted(why)
    case Done(e, st1) => Done(ExpressionStatement(e), SkipSemicolon(inp, st1))
  }

  function SkipSemicolon(inp: Input, st: PState): (r: PState)
    ensures Follows(st, r) && r.errors == st.errors
    ensures Current(inp, r).kind.Semicolon? || r == st
  {
    if Peek(inp, st).kind.Semicolon? then Next(st) else st
  }

  /** `_parseReturnStatement`: step past `return`, an expression, then a `;` if the peek token is one. */
  function ParseReturnStatement(inp: Input, st: PState): (o: Outcome<Statement>)
    ensures Moves(st, o)
    ensures o.Done? ==> o.value.ReturnStatement?
  {
    match ParseExpression(inp, Next(st), P.Lowest)
    case Halted(why) => Halted(why)
    case Done(e, st1) => Done(ReturnStatement(e), SkipSemicolon(inp, st1))
  }

  /** `_parseBlockStatement`: step past `{`, then statements until `}` or the end of input. */
  function ParseBlockStatement(inp: Input, st: PState): (o: Outcome<Statement>)
    ensures Moves(st, o)
    ensures o.Done? ==> o.value.BlockStatement?
    ensures o.Done? ==> (Current(inp, o.st).kind.RightBrace? || Current(inp, o.st).kind.EndOfFile?)
    decreases Remaining(inp, st.pos), 2
  {
    match BlockStatements(inp, Next(st), [])
    case Halted(why) => Halted(why)
    case Done(ss, st1) => Done(BlockStatement(ss), st1)
  }

  /** Whether a kind ends a statement loop. */
  predicate Ends(k: T.TokenType, inBlock: bool)
  {
    k.EndOfFile? || (inBlock && k.RightBrace?)
  }

  /**
   * The loop of `_parseBlockStatement` and of `parseProgram`: a statement,
   * kept when it is not null, then a step to the next token. `EndOfFile`
   * ends the loop, and so does `}` when `inBlock` (the block's loop; the
   * program's loop passes `false`).
   */
  function BlockStatements(inp: Input, st: PState, ss: seq<Statement>, inBlock: bool := true): (o: Outcome<seq<Statement>>)
    ensures Moves(st, o)
    ensures o.Done? ==> ss <= o.value && (Ends(Current(inp, o.st).kind, inBlock))
    decreases Remaining(inp, st.pos), if st.pos < |inp.tokens| then 4 else 0
  {
    if Ends(Current(inp, st).kind, inBlock) then Done(ss, st)
    else
      match ParseStatement(inp, st)
      case Halted(why) => Halted(why)
      case Done(s, st1) => BlockStatements(inp, Next(st1), if s.Some? then ss + [s.value] else ss, inBlock)
  }

  /** `_parseVariableDeclaration`: `name : type ;`, or `name : type = expression`, or an error and null. */
  function ParseVariableDeclaration(inp: Input, st: PState): (o: Outcome<Option<Statement>>)
    ensures Moves(st, o)
    ensures o.Done? && o.value.Some? ==> o.value.value.VariableDeclarationStatement?
  {
    var name := IdentifierLiteral(Current(inp, st).literal);
    match ParseType(inp, Next(Next(st)))
    case Halted(why) => Halted(why)
    case Done(t, st1) =>
      if Peek(inp, st1).kind.Semicolon? then
        Done(Some(VariableDeclarationStatement(name, t, Option.None)), Next(st1))
      else
        var (ok, st2) := ExpectPeek(inp, st1, T.Equals);
        if !ok then Done(Option.None, st2)
        else
          match ParseExpression(inp, Next(st2), P.Lowest)
          case Halted(why) => Halted(why)
          case Done(e, st3) => Done(Some(VariableDeclarationStatement(name, t, e)), Next(st3))
  }

  /** `_parseVariableAssignment`: `name = expression`, then a step past the expression. */
  function ParseVariableAssignment(inp: Input, st: PState): (o: Outcome<Option<Statement>>)
    ensures Moves(st, o)
    ensures o.Done? && o.value.Some? ==> o.value.value.VariableAssignmentStatement?
  {
    var name := IdentifierLiteral(Current(inp, st).literal);
    var (ok, st1) := ExpectPeek(inp, st, T.Equals);
    if !ok then Done(Option.None, st1)
    else
      match ParseExpression(inp, Next(st1), P.Lowest)
      case Halted(why) => Halted(why)
      case Done(e, st2) => Done(Some(VariableAssignmentStatement(name, e)), Next(st2))
  }

  /**
   * `_parseFunctionStatement`: `def name ( parameters ) -> type`, then a
   * statement parsed where the return type ends, which is the body.
   */
  function ParseFunctionStatement(inp: Input, st: PState): (o: Outcome<Option<Statement>>)
    ensures Moves(st, o)
    ensures o.Done? && o.value.Some? ==> o.value.value.FunctionStatement?
    decreases Remaining(inp, st.pos), 2
  {
    var (ok1, st1) := ExpectPeek(inp, st, T.Identifier);
    if !ok1 then Done(Option.None, st1)
    else
      var name := IdentifierLiteral(Current(inp, st1).literal);
      var (ok2, st2) := ExpectPeek(inp, st1, T.LeftParen);
      if !ok2 then Done(Option.None, st2)
      else
        match ParseParameters(inp, Next(st2), [])
        case Halted(why) => Halted(why)
        case Done(ps, st3) =>
          if ps.None? then Done(Option.None, st3)
          else FunctionSignatureRest(inp, st3, name, ps.value)
  }

  /** The rest of `_parseFunctionStatement` once the parameter list is read: `-> type`, then the body. */
  function FunctionSignatureRest(inp: Input, st: PState, name: Expression, ps: seq<Parameter>): (o: Outcome<Option<Statement>>)
    ensures Moves(st, o)
    ensures o.Done? && o.value.Some? ==> o.value.value.FunctionStatement?
    decreases Remaining(inp, st.pos), 4
  {
    var (ok, st1) := ExpectPeek(inp, st, T.RightArrow);
    if !ok then Done(Option.None, st1)
    else
      match ParseType(inp, Next(st1))
      case Halted(why) => Halted(why)
      case Done(rt, st2) =>
        match ParseStatement(inp, st2)
        case Halted(why) => Halted(why)
        case Done(body, st3) => Done(Some(FunctionStatement(name, ps, rt, body)), st3)
  }

  /**
   * The parameter loop of `_parseFunctionStatement`: `name : type` items
   * separated by commas up to `)`. `None` stands for the `return nullptr`
   * when a name is not followed by `:`; a token that is neither a name, a
   * comma nor `)` records an error and ends the list.
   */
  function ParseParameters(inp: Input, st: PState, ps: seq<Parameter>): (o: Outcome<Option<seq<Parameter>>>)
    ensures Moves(st, o)
    ensures o.Done? && o.value.Some? ==> ps <= o.value.value
    decreases Remaining(inp, st.pos)
  {
    var cur := Current(inp, st);
    if cur.kind.RightParen? then Done(Some(ps), st)
    else if !cur.kind.Identifier? then Done(Some(ps), Record(st, SyntaxError(cur.kind, T.Identifier, Peek(inp, st))))
    else
      match ParseParameter(inp, st)
      case Halted(why) => Halted(why)
      case Done(p, st1) =>
        if p.None? then Done(Option.None, st1)
        else ParametersTail(inp, Next(st1), ps + [p.value])
  }

  /** What follows a parameter: a comma and more parameters, `)`, or an error that ends the list. */
  function ParametersTail(inp: Input, st: PState, ps: seq<Parameter>): (o: Outcome<Option<seq<Parameter>>>)
    ensures Moves(st, o)
    ensures o.Done? && o.value.Some? ==> ps <= o.value.value
    decreases Remaining(inp, st.pos)
  {
    var k := Current(inp, st).kind;
    if k.Comma? then ParseParameters(inp, Next(st), ps)
    else if k.RightParen? then Done(Some(ps), st)
    else Done(Some(ps), Record(st, SyntaxError(k, T.Comma, Peek(inp, st))))
  }

  /** One parameter, from its name to the last token of its type; `None` when the name is not followed by `:`. */
  function ParseParameter(inp: Input, st: PState): (o: Outcome<Option<Parameter>>)
    ensures Moves(st, o)
    ensures o.Done? && o.value.Some? ==> o.value.value.name == IdentifierLiteral(Current(inp, st).literal)
  {
    var (ok, st1) := ExpectPeek(inp, st, T.Colon);
    if !ok then Done(Option.None, st1)
    else
      match ParseType(inp, Next(st1))
      case Halted(why) => Halted(why)
      case Done(t, st2) => Done(Some(Parameter(IdentifierLiteral(Current(inp, st).literal), t)), st2)
  }

  /** `parseProgram`: statements until the current token is `EndOfFile`. */
  function ParseProgramFrom(inp: Input, st: PState): (o: Outcome<Program>)
    ensures Moves(st, o)
    ensures o.Done? ==> Current(inp, o.st).kind.EndOfFile?
  {
    match BlockStatements(inp, st, [], false)
    case Halted(why) => Halted(why)
    case Done(ss, st1) => Done(Program(ss), st1)
  }

  /** A parser fresh from its constructor parsing the whole stream. */
  function ParseProgram(inp: Input): (o: Outcome<Program>)
    ensures o.Done? ==> Current(inp, o.st).kind.EndOfFile?
  {
    ParseProgramFrom(inp, Start)
  }

  // ---------------------------------------------------------------------
  // One step of each statement form and loop, for the proofs of the parser object

  /** `return e` with an optional semicolon. */
  lemma ReturnStatementStep(inp: Input, st: PState, e: Option<Expression>, st1: PState, st2: PState)
    requires ParseExpression(inp, Next(st), P.Lowest) == Done(e, st1)
    requires st2 == if At(inp, st1.pos + 1).kind.Semicolon? then Next(st1) else st1
    ensures ParseReturnStatement(inp, st) == Done(ReturnStatement(e), st2)
  {
  }

  /** An expression with an optional semicolon. */
  lemma ExpressionStatementStep(inp: Input, st: PState, e: Option<Expression>, st1: PState, st2: PState)
    requires ParseExpression(inp, st, P.Lowest) == Done(e, st1)
    requires st2 == if At(inp, st1.pos + 1).kind.Semicolon? then Next(st1) else st1
    ensures ParseExpressionStatement(inp, st) == Done(ExpressionStatement(e), st2)
  {
  }

  /** One turn of the generic-argument loop: a type, a step, and a step past a comma. */
  lemma GenericArgumentsStep(inp: Input, st: PState, gs: seq<GenericType>, g: GenericType, st1: PState)
    requires !Current(inp, st).kind.RightBracket? && st.pos < |inp.tokens|
    requires ParseType(inp, st) == Done(g, st1)
    ensures GenericArguments(inp, st, gs)
         == GenericArguments(inp, if Current(inp, Next(st1)).kind.Comma? then Next(Next(st1)) else Next(st1), gs + [g])
  {
  }

  /** One turn of the loop of `_parseExpression`: an infix expression becomes the new left operand. */
  lemma InfixLoopStep(inp: Input, st: PState, prec: P.Level, left: Option<Expression>, e: Expression, st1: PState)
    requires !Peek(inp, st).kind.Semicolon? && P.Less(prec, P.PrecedenceOf(Peek(inp, st).kind))
    requires P.HasInfixParseFn(Peek(inp, st).kind)
    requires ParseInfix(inp, Next(st), left) == Done(e, st1)
    ensures InfixLoop(inp, st, prec, left) == InfixLoop(inp, st1, prec, Some(e))
  {
  }
}
