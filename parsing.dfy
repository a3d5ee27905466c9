/**
 * The parser object of src/parser/parser.cpp: two tokens of lookahead and
 * an error vector, advanced in place. Every method is proved to do to the
 * fields what the function of the same name in module ParseSpec does to a
 * parser state, and to return the same node.
 */
module Parsing {
  import opened Wrappers
  import opened Ast
  import opened ParseSpec
  import T = Tokens
  import P = Precedence

  class Parser {
    /** The lexer, as the token stream it produces. */
    const input: Input
    /** Where the current token is in the lexer's stream. */
    var pos: nat
    var currentToken: T.Token
    var peekToken: T.Token
    var errors: seq<ParseError>

    ghost predicate Valid()
      reads this
    {
      currentToken == At(input, pos) && peekToken == At(input, pos + 1)
    }

    function State(): PState
      reads this
    {
      PState(pos, errors)
    }

    /** The two calls of `_nextToken` in the constructor make the first two tokens current and peek. */
    constructor (input: Input)
      ensures Valid() && State() == Start && this.input == input
    {
      this.input := input;
      pos := 0;
      currentToken := At(input, 0);
      peekToken := At(input, 1);
      errors := [];
    }

    method NextToken()
      requires Valid()
      modifies this
      ensures Valid() && State() == Next(old(State()))
      ensures currentToken == old(peekToken)
    {
      currentToken := peekToken;
      peekToken := At(input, pos + 2);
      pos := pos + 1;
    }

    function CurrentTokenIs(kind: T.TokenType): (b: bool)
      reads this
      requires Valid()
      ensures b <==> Current(input, State()).kind == kind
    {
      currentToken.kind == kind
    }

    function PeekTokenIs(kind: T.TokenType): (b: bool)
      reads this
      requires Valid()
      ensures b <==> Peek(input, State()).kind == kind
    {
      peekToken.kind == kind
    }

    function CurrentPrecedence(): (p: P.Level)
      reads this
      requires Valid()
      ensures p == P.PrecedenceOf(Current(input, State()).kind)
    {
      if P.TokenPrecedence(currentToken.kind).Some? then P.TokenPrecedence(currentToken.kind).value else P.Lowest
    }

    function PeekPrecedence(): (p: P.Level)
      reads this
      requires Valid()
      ensures p == P.PrecedenceOf(Peek(input, State()).kind)
    {
      if P.TokenPrecedence(peekToken.kind).Some? then P.TokenPrecedence(peekToken.kind).value else P.Lowest
    }

    /** `_peekError(got, expected)`: one error, at the peek token. */
    method PeekError(got: T.TokenType, expected: T.TokenType)
      requires Valid()
      modifies this
      ensures Valid() && State() == Record(old(State()), ParseSpec.SyntaxError(got, expected, old(peekToken)))
    {
      errors := errors + [ParseSpec.SyntaxError(got, expected, peekToken)];
    }

    method NoPrefixParseFnError(kind: T.TokenType)
      requires Valid()
      modifies this
      ensures Valid() && State() == Record(old(State()), ParseSpec.NoPrefixParseFnError(kind, old(peekToken)))
    {
      errors := errors + [ParseSpec.NoPrefixParseFnError(kind, peekToken)];
    }

    method ExpectPeek(kind: T.TokenType) returns (ok: bool)
      requires Valid()
      modifies this
      ensures Valid() && (ok, State()) == ParseSpec.ExpectPeek(input, old(State()), kind)
    {
      if peekToken.kind == kind {
        NextToken();
        return true;
      } else {
        PeekError(peekToken.kind, kind);
        return false;
      }
    }

    // -------------------------------------------------------------------
    // Program and statements

    method ParseProgram() returns (r: Outcome<Program>)
      requires Valid()
      modifies this
      ensures Valid() && r == ParseProgramFrom(input, old(State()))
      ensures r.Done? ==> State() == r.st
    {
      var statements: seq<Statement> := [];
      while !currentToken.kind.EndOfFile?
        invariant Valid()
        invariant BlockStatements(input, State(), statements, false) == BlockStatements(input, old(State()), [], false)
        decreases Remaining(input, pos)
      {
        var statement := ParseStatement();
        if statement.Halted? {
          return Halted(statement.why);
        }
        if statement.value.Some? {
          statements := statements + [statement.value.value];
        }
        NextToken();
      }
      return Done(Program(statements), State());
    }

    method ParseStatement() returns (r: Outcome<Option<Statement>>)
      requires Valid()
      modifies this
      ensures Valid() && r == ParseSpec.ParseStatement(input, old(State()))
      ensures r.Done? ==> State() == r.st
      decreases Remaining(input, pos), 3
    {
      if currentToken.kind.Identifier? && peekToken.kind.Colon? {
        r := ParseVariableDeclaration();
      } else if currentToken.kind.Identifier? && peekToken.kind.Equals? {
        r := ParseVariableAssignment();
      } else if currentToken.kind.LeftBrace? {
        var s := ParseBlockStatement();
        r := Nullable(s);
      } else if currentToken.kind.Return? {
        var s := ParseReturnStatement();
        r := Nullable(s);
      } else if currentToken.kind.Def? {
        r := ParseFunctionStatement();
      } else {
        var s := ParseExpressionStatement();
        r := Nullable(s);
      }
    }

    method ParseFunctionStatement() returns (r: Outcome<Option<Statement>>)
      requires Valid()
      modifies this
      ensures Valid() && r == ParseSpec.ParseFunctionStatement(input, old(State()))
      ensures r.Done? ==> State() == r.st
      decreases Remaining(input, pos), 2
    {
      var ok := ExpectPeek(T.Identifier);
      if !ok {
        return Done(Option.None, State());
      }
      var name := IdentifierLiteral(currentToken.literal);
      ok := ExpectPeek(T.LeftParen);
      if !ok {
        return Done(Option.None, State());
      }
      NextToken();
      var parameters := ParseParameterList();
      if parameters.Halted? {
        return Halted(parameters.why);
      }
      if parameters.value.None? {
        return Done(Option.None, State());
      }
      r := FunctionSignatureRest(name, parameters.value.value);
    }

    /** `-> type` and the body, once the parameter list is read. */
    method FunctionSignatureRest(name: Expression, parameters: seq<Parameter>) returns (r: Outcome<Option<Statement>>)
      requires Valid()
      modifies this
      ensures Valid() && r == ParseSpec.FunctionSignatureRest(input, old(State()), name, parameters)
      ensures r.Done? ==> State() == r.st
      decreases Remaining(input, pos), 4
    {
      var ok := ExpectPeek(T.RightArrow);
      if !ok {
        return Done(Option.None, State());
      }
      NextToken();
      var returnType := ParseType();
      if returnType.Halted? {
        return Halted(returnType.why);
      }
      var body := ParseStatement();
      if body.Halted? {
        return Halted(body.why);
      }
      return Done(Some(FunctionStatement(name, parameters, returnType.value, body.value)), State());
    }

    /** The parameter loop of `_parseFunctionStatement`, from the token after `(`. */
    method ParseParameterList() returns (r: Outcome<Option<seq<Parameter>>>)
      requires Valid()
      modifies this
      ensures Valid() && r == ParseParameters(input, old(State()), [])
      ensures r.Done? ==> State() == r.st
    {
      ghost var goal := ParseParameters(input, State(), []);
      var parameters: seq<Parameter> := [];
      while !currentToken.kind.RightParen?
        invariant Valid()
        invariant ParseParameters(input, State(), parameters) == goal
        decreases Remaining(input, pos)
      {
        ghost var before := Remaining(input, pos);
        var last;
        parameters, last := ParameterListTurn(parameters);
        if last.Some? {
          return last.value;
        }
        assert Remaining(input, pos) < before;
      }
      return Done(Some(parameters), State());
    }

    /**
     * One turn of the parameter loop: a parameter and the comma after it,
     * or the end of the list (`last`, what the loop returns).
     */
    method ParameterListTurn(parameters: seq<Parameter>) returns (parameters': seq<Parameter>, last: Option<Outcome<Option<seq<Parameter>>>>)
      requires Valid() && !currentToken.kind.RightParen?
      modifies this
      ensures Valid()
      ensures last.Some? ==> last.value == ParseParameters(input, old(State()), parameters) && (last.value.Done? ==> State() == last.value.st)
      ensures last.None? ==> ParseParameters(input, State(), parameters') == ParseParameters(input, old(State()), parameters)
                             && Remaining(input, pos) < Remaining(input, old(pos))
    {
      parameters' := parameters;
      if !currentToken.kind.Identifier? {
        PeekError(currentToken.kind, T.Identifier);
        return parameters', Some(Done(Some(parameters), State()));
      }
      var parameter := ParseParameter();
      if parameter.Halted? {
        return parameters', Some(Halted(parameter.why));
      }
      if parameter.value.None? {
        return parameters', Some(Done(Option.None, State()));
      }
      parameters' := parameters + [parameter.value.value];
      NextToken();
      var more := ParameterSeparator(parameters');
      if !more {
        return parameters', Some(Done(Some(parameters'), State()));
      }
      last := Option.None;
    }

    /** The end of one turn of the parameter loop: step past a comma, or stop at `)` or on an error. */
    method ParameterSeparator(ghost parameters: seq<Parameter>) returns (more: bool)
      requires Valid()
      modifies this
      ensures Valid() && old(pos) <= pos
      ensures more ==> ParametersTail(input, old(State()), parameters) == ParseParameters(input, State(), parameters)
      ensures !more ==> ParametersTail(input, old(State()), parameters) == Done(Some(parameters), State())
    {
      if currentToken.kind.Comma? {
        NextToken();
        return true;
      } else if currentToken.kind.RightParen? {
        return false;
      } else {
        PeekError(currentToken.kind, T.Comma);
        return false;
      }
    }

    method ParseParameter() returns (r: Outcome<Option<Parameter>>)
      requires Valid()
      modifies this
      ensures Valid() && r == ParseSpec.ParseParameter(input, old(State()))
      ensures r.Done? ==> State() == r.st
    {
      var identifier := IdentifierLiteral(currentToken.literal);
      var ok := ExpectPeek(T.Colon);
      if !ok {
        return Done(Option.None, State());
      }
      NextToken();
      var valueType := ParseType();
      if valueType.Halted? {
        return Halted(valueType.why);
      }
      return Done(Some(Parameter(identifier, valueType.value)), State());
    }

    method ParseReturnStatement() returns (r: Outcome<Statement>)
      requires Valid()
      modifies this
      ensures Valid() && r == ParseSpec.ParseReturnStatement(input, old(State()))
      ensures r.Done? ==> State() == r.st
    {
      ghost var st0 := State();
      NextToken();
      var expr := ParseExpression(P.Lowest);
      if expr.Halted? {
        return Halted(expr.why);
      }
      ghost var st1 := State();
      if peekToken.kind.Semicolon? {
        NextToken();
      }
      ReturnStatementStep(input, st0, expr.value, st1, State());
      return Done(ReturnStatement(expr.value), State());
    }

    method ParseBlockStatement() returns (r: Outcome<Statement>)
      requires Valid()
      modifies this
      ensures Valid() && r == ParseSpec.ParseBlockStatement(input, old(State()))
      ensures r.Done? ==> State() == r.st
      decreases Remaining(input, pos), 2
    {
      NextToken();
      var statements: seq<Statement> := [];
      while !currentToken.kind.RightBrace? && !currentToken.kind.EndOfFile?
        invariant Valid() && old(pos) < pos
        invariant BlockStatements(input, State(), statements) == BlockStatements(input, Next(old(State())), [])
        decreases Remaining(input, pos)
      {
        var stmt := ParseStatement();
        if stmt.Halted? {
          return Halted(stmt.why);
        }
        if stmt.value.Some? {
          statements := statements + [stmt.value.value];
        }
        NextToken();
      }
      return Done(BlockStatement(statements), State());
    }

    method ParseExpressionStatement() returns (r: Outcome<Statement>)
      requires Valid()
      modifies this
      ensures Valid() && r == ParseSpec.ParseExpressionStatement(input, old(State()))
      ensures r.Done? ==> State() == r.st
    {
      ghost var st0 := State();
      var expr := ParseExpression(P.Lowest);
      if expr.Halted? {
        return Halted(expr.why);
      }
      ghost var st1 := State();
      if peekToken.kind.Semicolon? {
        NextToken();
      }
      ExpressionStatementStep(input, st0, expr.value, st1, State());
      return Done(ExpressionStatement(expr.value), State());
    }

    method ParseVariableDeclaration() returns (r: Outcome<Option<Statement>>)
      requires Valid()
      modifies this
      ensures Valid() && r == ParseSpec.ParseVariableDeclaration(input, old(State()))
      ensures r.Done? ==> State() == r.st
    {
      var identifier := IdentifierLiteral(currentToken.literal);
      NextToken();
      NextToken();
      var valueType := ParseType();
      if valueType.Halted? {
        return Halted(valueType.why);
      }
      if peekToken.kind.Semicolon? {
        NextToken();
        return Done(Some(VariableDeclarationStatement(identifier, valueType.value, Option.None)), State());
      }
      var ok := ExpectPeek(T.Equals);
      if ok {
        NextToken();
        var expr := ParseExpression(P.Lowest);
        if expr.Halted? {
          return Halted(expr.why);
        }
        NextToken();
        return Done(Some(VariableDeclarationStatement(identifier, valueType.value, expr.value)), State());
      }
      return Done(Option.None, State());
    }

    /** `_parseType`; the `RawString` branch of the source is left out, since no token has that kind. */
    method ParseType() returns (r: Outcome<GenericType>)
      requires Valid()
      modifies this
      ensures Valid() && r == ParseSpec.ParseType(input, old(State()))
      ensures r.Done? ==> State() == r.st
      decreases Remaining(input, pos), 0
    {
      var name := TypeName(currentToken);
      if name.None? {
        return Halted(Aborted(currentToken.literal));
      }
      if !peekToken.kind.LeftBracket? {
        return Done(GenericType(name.value, []), State());
      }
      NextToken();
      NextToken();
      var generics := GenericArgumentList();
      if generics.Halted? {
        return Halted(generics.why);
      }
      return Done(GenericType(name.value, generics.value), State());
    }

    /** The loop of `_parseType` over generic arguments, from the token after `[`. */
    method GenericArgumentList() returns (r: Outcome<seq<GenericType>>)
      requires Valid()
      modifies this
      ensures Valid() && r == GenericArguments(input, old(State()), [])
      ensures r.Done? ==> State() == r.st
      decreases Remaining(input, pos), 1
    {
      ghost var goal := GenericArguments(input, State(), []);
      ghost var start := pos;
      var generics: seq<GenericType> := [];
      while !currentToken.kind.RightBracket?
        invariant Valid() && start <= pos
        invariant GenericArguments(input, State(), generics) == goal
        decreases Remaining(input, pos)
      {
        if |input.tokens| <= pos {
          // From here on the C++ loop runs forever: see ParseProperties.GenericLoopNeverEndsAtEndOfInput.
          return Halted(Diverged);
        }
        ghost var st1 := State();
        assert !Current(input, st1).kind.RightBracket? && st1.pos < |input.tokens|;
        var generic := ParseType();
        if generic.Halted? {
          return Halted(generic.why);
        }
        NextToken();
        assert State() == Next(generic.st) && currentToken == Current(input, State());
        if currentToken.kind.Comma? {
          NextToken();
        }
        GenericArgumentsStep(input, st1, generics, generic.value, generic.st);
        assert State() == (if Current(input, Next(generic.st)).kind.Comma? then Next(Next(generic.st)) else Next(generic.st));
        generics := generics + [generic.value];
      }
      return Done(generics, State());
    }

    method ParseVariableAssignment() returns (r: Outcome<Option<Statement>>)
      requires Valid()
      modifies this
      ensures Valid() && r == ParseSpec.ParseVariableAssignment(input, old(State()))
      ensures r.Done? ==> State() == r.st
    {
      var identifier := IdentifierLiteral(currentToken.literal);
      var ok := ExpectPeek(T.Equals);
      if !ok {
        return Done(Option.None, State());
      }
      NextToken();
      var expr := ParseExpression(P.Lowest);
      if expr.Halted? {
        return Halted(expr.why);
      }
      NextToken();
      return Done(Some(VariableAssignmentStatement(identifier, expr.value)), State());
    }

    // -------------------------------------------------------------------
    // Expressions

    method ParseExpression(precedence: P.Level) returns (r: Outcome<Option<Expression>>)
      requires Valid()
      modifies this
      ensures Valid() && r == ParseSpec.ParseExpression(input, old(State()), precedence)
      ensures r.Done? ==> State() == r.st
      decreases Remaining(input, pos), 2
    {
      ghost var st0 := State();
      assert Current(input, st0) == currentToken && Peek(input, st0) == peekToken;
      var prefix := P.PrefixParseFn(currentToken.kind);
      if prefix.None? {
        NoPrefixParseFnError(currentToken.kind);
        assert ParseSpec.ParseExpression(input, st0, precedence) == Done(Option.None, State());
        return Done(Option.None, State());
      }
      var left := ParsePrefix(prefix.value);
      if left.Halted? {
        return Halted(left.why);
      }
      r := InfixExpressions(precedence, left.value);
    }

    /** The loop of `_parseExpression`, from the expression the prefix parse function returned. */
    method InfixExpressions(precedence: P.Level, left: Option<Expression>) returns (r: Outcome<Option<Expression>>)
      requires Valid()
      modifies this
      ensures Valid() && r == InfixLoop(input, old(State()), precedence, left)
      ensures r.Done? ==> State() == r.st
      decreases Remaining(input, pos), 1
    {
      var leftExpr := left;
      while true
        invariant Valid() && old(pos) <= pos
        invariant InfixLoop(input, State(), precedence, leftExpr) == InfixLoop(input, old(State()), precedence, left)
        decreases Remaining(input, pos)
      {
        ghost var st1 := State();
        assert Peek(input, st1) == peekToken;
        var pk := peekToken.kind;
        if pk.Semicolon? || !P.Less(precedence, P.PrecedenceOf(pk)) || !P.HasInfixParseFn(pk) {
          return Done(leftExpr, State());
        }
        NextToken();
        var infix := ParseInfixExpression(leftExpr);
        if infix.Halted? {
          return Halted(infix.why);
        }
        InfixLoopStep(input, st1, precedence, leftExpr, infix.value, infix.st);
        leftExpr := Some(infix.value);
      }
    }

    /** Calls the prefix parse function that `prefix_parse_fns` binds to the current token's kind. */
    method ParsePrefix(f: P.PrefixParser) returns (r: Outcome<Option<Expression>>)
      requires Valid() && P.PrefixParseFn(currentToken.kind) == Some(f)
      modifies this
      ensures Valid() && r == ParseSpec.ParsePrefix(input, old(State()), f)
      ensures r.Done? ==> State() == r.st
      decreases Remaining(input, pos), 1
    {
      match f
      case IntegerLiteral => r := ParseIntegerLiteral();
      case FloatLiteral => r := Done(Some(FloatLiteral(FromDecimal(currentToken.literal))), State());
      case StringLiteral => r := Done(Some(StringLiteral(currentToken.literal)), State());
      case BooleanLiteral => r := Done(input.booleanLiteral(currentToken), State());
      case IdentifierLiteral => r := Done(Some(IdentifierLiteral(currentToken.literal)), State());
      case Grouped => r := ParseGroupedExpression();
    }

    method ParseIntegerLiteral() returns (r: Outcome<Option<Expression>>)
      requires Valid() && P.PrefixParseFn(currentToken.kind) == Some(P.IntegerLiteral)
      modifies this
      ensures Valid() && r == ParseSpec.ParsePrefix(input, old(State()), P.IntegerLiteral)
      ensures r.Done? ==> State() == r.st
    {
      ghost var st := State();
      assert Current(input, st) == currentToken;
      var value := StoLL(currentToken.literal);
      if value.None? {
        return Halted(Aborted(currentToken.literal));
      }
      return Done(Some(IntegerLiteral(value.value)), State());
    }

    method ParseGroupedExpression() returns (r: Outcome<Option<Expression>>)
      requires Valid() && P.PrefixParseFn(currentToken.kind) == Some(P.Grouped)
      modifies this
      ensures Valid() && r == ParseSpec.ParsePrefix(input, old(State()), P.Grouped)
      ensures r.Done? ==> State() == r.st
      decreases Remaining(input, pos), 0
    {
      NextToken();
      var expr := ParseExpression(P.Lowest);
      if expr.Halted? {
        return Halted(expr.why);
      }
      var ok := ExpectPeek(T.RightParen);
      if !ok {
        return Done(Option.None, State());
      }
      return Done(expr.value, State());
    }

    method ParseInfixExpression(left: Option<Expression>) returns (r: Outcome<Expression>)
      requires Valid() && P.HasInfixParseFn(currentToken.kind)
      modifies this
      ensures Valid() && r == ParseInfix(input, old(State()), left)
      ensures r.Done? ==> State() == r.st
      decreases Remaining(input, pos), 0
    {
      var op := currentToken.kind;
      var precedence := CurrentPrecedence();
      NextToken();
      var right := ParseExpression(precedence);
      if right.Halted? {
        return Halted(right.why);
      }
      return Done(InfixExpression(left, op, right.value), State());
    }
  }
}
