/** What the parser of src/parser/parser.cpp does, stated over `ParseSpec`. */
module ParseProperties {
  import opened Wrappers
  import opened Ast
  import opened ParseSpec
  import T = Tokens
  import P = Precedence

  /** `_expectPeek` advances exactly when the peek token matches; otherwise it records one error and stays put. */
  lemma ExpectPeekAdvancesOnlyOnMatch(inp: Input, st: PState, kind: T.TokenType)
    ensures var (ok, st') := ExpectPeek(inp, st, kind);
            (ok <==> Peek(inp, st).kind == kind)
            && (ok ==> st' == Next(st) && Current(inp, st') == Peek(inp, st))
            && (!ok ==> st'.pos == st.pos
                        && st'.errors == st.errors + [SyntaxError(Peek(inp, st).kind, kind, Peek(inp, st))])
  {
  }

  /** Which statement `_parseStatement` builds is decided by the current token and, after a name, the peek token. */
  lemma StatementDispatch(inp: Input, st: PState)
    ensures var o := ParseStatement(inp, st);
            var cur, pk := Current(inp, st).kind, Peek(inp, st).kind;
            o.Done? ==>
              (cur.Identifier? && pk.Colon? ==> o.value.None? || o.value.value.VariableDeclarationStatement?)
              && (cur.Identifier? && pk.Equals? ==> o.value.Some? && o.value.value.VariableAssignmentStatement?)
              && (cur.LeftBrace? ==> o.value.Some? && o.value.value.BlockStatement?)
              && (cur.Return? ==> o.value.Some? && o.value.value.ReturnStatement?)
              && (cur.Def? ==> o.value.None? || o.value.value.FunctionStatement?)
              && (!(cur.Identifier? || cur.LeftBrace? || cur.Return? || cur.Def?) ==> o.value.Some? && o.value.value.ExpressionStatement?)
              && (cur.Identifier? && !pk.Colon? && !pk.Equals? ==> o.value.Some? && o.value.value.ExpressionStatement?)
  {
    var cur, pk := Current(inp, st).kind, Peek(inp, st).kind;
    if cur.Identifier? && pk.Equals? {
      // `_expectPeek(Equals)` cannot fail right after the dispatch checked the peek token.
      assert ExpectPeek(inp, st, T.Equals).0;
    }
  }

  /** Without a prefix parse function for the current token, `_parseExpression` records one error and returns null. */
  lemma NoPrefixParseFnIsOneError(inp: Input, st: PState, prec: P.Level)
    requires P.PrefixParseFn(Current(inp, st).kind) == Option.None
    ensures ParseExpression(inp, st, prec)
            == Done(Option.None, PState(st.pos, st.errors + [NoPrefixParseFnError(Current(inp, st).kind, Peek(inp, st))]))
  {
  }

  /**
   * The Pratt loop leaves the expression alone at a `;`, at an operator
   * that binds no tighter than the level it runs at, and at an operator
   * without an infix parse function.
   */
  lemma InfixLoopStops(inp: Input, st: PState, prec: P.Level, left: Option<Expression>)
    requires var pk := Peek(inp, st).kind;
             pk.Semicolon? || !P.Less(prec, P.PrecedenceOf(pk)) || !P.HasInfixParseFn(pk)
    ensures InfixLoop(inp, st, prec, left) == Done(left, st)
  {
  }

  /** A comparison operator ends an expression at any level, since no infix parse function handles it. */
  lemma ComparisonEndsExpression(inp: Input, st: PState, prec: P.Level, left: Option<Expression>)
    requires P.PrecedenceOf(Peek(inp, st).kind).Comparision?
    ensures InfixLoop(inp, st, prec, left) == Done(left, st)
  {
    P.ComparisonsHaveNoInfixParseFn(Peek(inp, st).kind);
  }

  predicate Is(t: T.Token, kind: T.TokenType, literal: string)
  {
    t.kind == kind && t.literal == literal
  }

  /** A token that starts no other statement starts an expression statement. */
  lemma OtherTokensStartExpressionStatements(inp: Input, st: PState)
    requires var k := Current(inp, st).kind; !(k.Identifier? || k.LeftBrace? || k.Return? || k.Def?)
    ensures ParseStatement(inp, st) == Nullable(ParseExpressionStatement(inp, st))
  {
  }

  /** Without a `;` after it, an expression statement ends where its expression does. */
  lemma ExpressionStatementWithoutSemicolon(inp: Input, st: PState, e: Option<Expression>, st1: PState)
    requires ParseExpression(inp, st, P.Lowest) == Done(e, st1)
    requires !Peek(inp, st1).kind.Semicolon?
    ensures ParseExpressionStatement(inp, st) == Done(ExpressionStatement(e), st1)
  {
  }

  /** A name whose peek token does not continue the expression at level `prec` is the whole expression. */
  lemma NameOperand(inp: Input, st: PState, prec: P.Level)
    requires Current(inp, st).kind.Identifier?
    requires var pk := Peek(inp, st).kind;
             pk.Semicolon? || !P.Less(prec, P.PrecedenceOf(pk)) || !P.HasInfixParseFn(pk)
    ensures ParseExpression(inp, st, prec) == Done(Some(IdentifierLiteral(Current(inp, st).literal)), st)
  {
    InfixLoopStops(inp, st, prec, Some(IdentifierLiteral(Current(inp, st).literal)));
  }

  /** An integer token the lexer produced reads as its value. */
  lemma IntegerTokenValue(inp: Input, st: PState, n: nat)
    requires Current(inp, st).kind.Integer? && Current(inp, st).literal == T.NatToString(n) && n <= LongLongMax
    ensures ParsePrefix(inp, st, P.IntegerLiteral) == Done(Some(IntegerLiteral(n)), st)
  {
    StoLLReadsDecimal(n);
  }

  /** `m < n` as an expression statement is just `m`: the Pratt loop stops before `<`. */
  lemma LessThanEndsStatement(inp: Input, m: nat, n: nat)
    requires |inp.tokens| == 3 && m <= LongLongMax
    requires Is(inp.tokens[0], T.Integer, T.NatToString(m)) && inp.tokens[1].kind.LessThan?
    ensures ParseStatement(inp, Start) == Done(Some(ExpressionStatement(Some(IntegerLiteral(m)))), Start)
  {
    IntegerTokenValue(inp, Start, m);
    ComparisonEndsExpression(inp, Start, P.Lowest, Some(IntegerLiteral(m)));
    assert ParseExpression(inp, Start, P.Lowest) == Done(Some(IntegerLiteral(m)), Start);
    ExpressionStatementWithoutSemicolon(inp, Start, Some(IntegerLiteral(m)), Start);
    OtherTokensStartExpressionStatements(inp, Start);
  }

  /** The `<` then starts a statement of its own, which has no prefix parse function: one error, a null expression. */
  lemma LessThanStartsNullStatement(inp: Input)
    requires |inp.tokens| == 3 && inp.tokens[1].kind.LessThan? && inp.tokens[2].kind.Integer?
    ensures ParseStatement(inp, PState(1, []))
            == Done(Some(ExpressionStatement(Option.None)), PState(1, [NoPrefixParseFnError(T.LessThan, inp.tokens[2])]))
  {
    NoPrefixParseFnIsOneError(inp, PState(1, []), P.Lowest);
    var e := NoPrefixParseFnError(T.LessThan, inp.tokens[2]);
    ExpressionStatementWithoutSemicolon(inp, PState(1, []), Option.None, PState(1, [e]));
    OtherTokensStartExpressionStatements(inp, PState(1, []));
  }

  /** An integer before the end of input is an expression statement on its own. */
  lemma LastIntegerStatement(inp: Input, st: PState, n: nat)
    requires Current(inp, st).kind.Integer? && Current(inp, st).literal == T.NatToString(n) && n <= LongLongMax
    requires |inp.tokens| <= st.pos + 1
    ensures ParseStatement(inp, st) == Done(Some(ExpressionStatement(Some(IntegerLiteral(n)))), st)
  {
    IntegerTokenValue(inp, st, n);
    InfixLoopStops(inp, st, P.Lowest, Some(IntegerLiteral(n)));
    assert ParseExpression(inp, st, P.Lowest) == Done(Some(IntegerLiteral(n)), st);
    ExpressionStatementWithoutSemicolon(inp, st, Some(IntegerLiteral(n)), st);
    OtherTokensStartExpressionStatements(inp, st);
  }

  /** After `m`, the statement loop reads the null statement at `<` and then `n`, and stops at the end. */
  lemma LessThanRestOfProgram(inp: Input, m: nat, n: nat)
    requires |inp.tokens| == 3 && n <= LongLongMax
    requires inp.tokens[1].kind.LessThan? && Is(inp.tokens[2], T.Integer, T.NatToString(n))
    ensures var s0 := ExpressionStatement(Some(IntegerLiteral(m)));
            BlockStatements(inp, PState(1, []), [s0], false)
            == Done([s0, ExpressionStatement(Option.None), ExpressionStatement(Some(IntegerLiteral(n)))],
                    PState(3, [NoPrefixParseFnError(T.LessThan, inp.tokens[2])]))
  {
    var s0 := ExpressionStatement(Some(IntegerLiteral(m)));
    var s1 := ExpressionStatement(Option.None);
    var s2 := ExpressionStatement(Some(IntegerLiteral(n)));
    var e := NoPrefixParseFnError(T.LessThan, inp.tokens[2]);
    LessThanStartsNullStatement(inp);
    LastIntegerStatement(inp, PState(2, [e]), n);
    StatementLoopStep(inp, PState(1, []), [s0], false, Some(s1), PState(1, [e]));
    StatementLoopStep(inp, PState(2, [e]), [s0, s1], false, Some(s2), PState(2, [e]));
    assert [s0] + [s1] == [s0, s1] && [s0, s1] + [s2] == [s0, s1, s2];
    assert Next(PState(2, [e])) == PState(3, [e]) && Next(PState(1, [e])) == PState(2, [e]);
    assert BlockStatements(inp, PState(3, [e]), [s0, s1, s2], false) == Done([s0, s1, s2], PState(3, [e]));
  }

  /** `m < n` as a whole program: three expression statements, the middle one null, and one error. */
  lemma LessThanIsNotAnOperator(inp: Input, m: nat, n: nat)
    requires |inp.tokens| == 3 && m <= LongLongMax && n <= LongLongMax
    requires Is(inp.tokens[0], T.Integer, T.NatToString(m)) && inp.tokens[1].kind.LessThan?
    requires Is(inp.tokens[2], T.Integer, T.NatToString(n))
    ensures ParseProgram(inp)
            == Done(Program([ExpressionStatement(Some(IntegerLiteral(m))), ExpressionStatement(Option.None),
                             ExpressionStatement(Some(IntegerLiteral(n)))]),
                    PState(3, [NoPrefixParseFnError(T.LessThan, inp.tokens[2])]))
  {
    var s0 := ExpressionStatement(Some(IntegerLiteral(m)));
    LessThanEndsStatement(inp, m, n);
    StatementLoopStep(inp, Start, [], false, Some(s0), Start);
    assert [] + [s0] == [s0] && Next(Start) == PState(1, []);
    LessThanRestOfProgram(inp, m, n);
  }

  /** `a - b - c` groups to the left: the right side of the first `-` stops at the second, which binds no tighter. */
  lemma SubtractionGroupsLeft(inp: Input, a: string, b: string, c: string)
    requires |inp.tokens| == 5
    requires Is(inp.tokens[0], T.Identifier, a) && inp.tokens[1].kind.Dash? && Is(inp.tokens[2], T.Identifier, b)
    requires inp.tokens[3].kind.Dash? && Is(inp.tokens[4], T.Identifier, c)
    ensures ParseExpression(inp, Start, P.Lowest)
            == Done(Some(InfixExpression(Some(InfixExpression(Some(IdentifierLiteral(a)), T.Dash, Some(IdentifierLiteral(b)))),
                                         T.Dash, Some(IdentifierLiteral(c)))), PState(4, []))
  {
    var ea, eb, ec := IdentifierLiteral(a), IdentifierLiteral(b), IdentifierLiteral(c);
    var ab := InfixExpression(Some(ea), T.Dash, Some(eb));
    var abc := InfixExpression(Some(ab), T.Dash, Some(ec));
    var s0, s1, s2, s3, s4 := PState(0, []), PState(1, []), PState(2, []), PState(3, []), PState(4, []);
    assert Next(s0) == s1 && Next(s1) == s2 && Next(s2) == s3 && Next(s3) == s4;
    P.SumPrecedence(T.Dash);
    // `b`, at SUM, stops before the second `-`, which binds no tighter
    NameOperand(inp, s2, P.Sum);
    InfixStep(inp, s1, Some(ea), Some(eb), s2);
    NameOperand(inp, s4, P.Sum);
    InfixStep(inp, s3, Some(ab), Some(ec), s4);
    // the LOWEST loop takes in both operators, the first one first
    InfixLoopStops(inp, s4, P.Lowest, Some(abc));
    InfixLoopStep(inp, s2, P.Lowest, Some(ab), abc, s4);
    InfixLoopStep(inp, s0, P.Lowest, Some(ea), ab, s2);
    NameThenLoop(inp, s0, P.Lowest);
  }

  /** `a + b * c` groups the product first: the right side of `+` runs at SUM and takes in `*`. */
  lemma ProductBindsTighterThanSum(inp: Input, a: string, b: string, c: string)
    requires |inp.tokens| == 5
    requires Is(inp.tokens[0], T.Identifier, a) && inp.tokens[1].kind.Plus? && Is(inp.tokens[2], T.Identifier, b)
    requires inp.tokens[3].kind.Asterisk? && Is(inp.tokens[4], T.Identifier, c)
    ensures ParseExpression(inp, Start, P.Lowest)
            == Done(Some(InfixExpression(Some(IdentifierLiteral(a)), T.Plus,
                                         Some(InfixExpression(Some(IdentifierLiteral(b)), T.Asterisk, Some(IdentifierLiteral(c)))))),
                    PState(4, []))
  {
    var ea, eb, ec := IdentifierLiteral(a), IdentifierLiteral(b), IdentifierLiteral(c);
    var bc := InfixExpression(Some(eb), T.Asterisk, Some(ec));
    var abc := InfixExpression(Some(ea), T.Plus, Some(bc));
    var s0, s1, s2, s3, s4 := PState(0, []), PState(1, []), PState(2, []), PState(3, []), PState(4, []);
    assert Next(s0) == s1 && Next(s1) == s2 && Next(s2) == s3 && Next(s3) == s4;
    P.SumPrecedence(T.Plus);
    P.ProductPrecedence(T.Asterisk);
    // `c`, at PRODUCT, ends at the end of input
    NameOperand(inp, s4, P.Product);
    InfixStep(inp, s3, Some(eb), Some(ec), s4);
    // `b * c`, at SUM: `*` binds tighter, so the loop takes it in
    InfixLoopStops(inp, s4, P.Sum, Some(bc));
    InfixLoopStep(inp, s2, P.Sum, Some(eb), bc, s4);
    NameThenLoop(inp, s2, P.Sum);
    InfixStep(inp, s1, Some(ea), Some(bc), s4);
    // the whole expression, at LOWEST
    InfixLoopStops(inp, s4, P.Lowest, Some(abc));
    InfixLoopStep(inp, s0, P.Lowest, Some(ea), abc, s4);
    NameThenLoop(inp, s0, P.Lowest);
  }

  /** A name is the left side the Pratt loop starts from. */
  lemma NameThenLoop(inp: Input, st: PState, prec: P.Level)
    requires Current(inp, st).kind.Identifier?
    ensures ParseExpression(inp, st, prec) == InfixLoop(inp, st, prec, Some(IdentifierLiteral(Current(inp, st).literal)))
  {
  }

  /** An infix expression: the operator's right side, parsed at the operator's own level. */
  lemma InfixStep(inp: Input, st: PState, left: Option<Expression>, right: Option<Expression>, st1: PState)
    requires P.HasInfixParseFn(Current(inp, st).kind)
    requires ParseExpression(inp, Next(st), P.PrecedenceOf(Current(inp, st).kind)) == Done(right, st1)
    ensures ParseInfix(inp, st, left) == Done(InfixExpression(left, Current(inp, st).kind, right), st1)
  {
  }

  /**
   * The three forms of a declaration, once the type is parsed: `;` ends a
   * declaration without value, `=` introduces the value, and anything else
   * is one error and a null statement.
   */
  lemma DeclarationForms(inp: Input, st: PState, t: GenericType, st1: PState)
    requires Current(inp, st).kind.Identifier? && Peek(inp, st).kind.Colon?
    requires ParseType(inp, Next(Next(st))) == Done(t, st1)
    ensures var o := ParseStatement(inp, st);
            var name := IdentifierLiteral(Current(inp, st).literal);
            var pk := Peek(inp, st1);
            (pk.kind.Semicolon? ==> o == Done(Some(VariableDeclarationStatement(name, t, Option.None)), Next(st1)))
            && (pk.kind.Equals? ==>
                  match ParseExpression(inp, Next(Next(st1)), P.Lowest)
                  case Halted(why) => o == Halted(why)
                  case Done(e, st2) => o == Done(Some(VariableDeclarationStatement(name, t, e)), Next(st2)))
            && (!pk.kind.Semicolon? && !pk.kind.Equals? ==> o == Done(Option.None, Record(st1, SyntaxError(pk.kind, T.Equals, pk))))
  {
  }

  /** At the end of input the body of the generic-argument loop leads back to the end of input without meeting `]` or `,`. */
  lemma GenericLoopNeverEndsAtEndOfInput(inp: Input, st: PState)
    requires |inp.tokens| <= st.pos
    ensures ParseType(inp, st) == Done(GenericType(IdentifierLiteral(inp.eof.literal), []), st)
    ensures !Current(inp, Next(st)).kind.RightBracket? && !Current(inp, Next(st)).kind.Comma? && |inp.tokens| <= Next(st).pos
  {
  }

  /** Without a `]` in the rest of the input, `_parseType`'s generic-argument loop never returns. */
  lemma {:induction false} UnclosedGenericsDiverge(inp: Input, st: PState, gs: seq<GenericType>)
    requires forall i :: st.pos <= i < |inp.tokens| ==> !inp.tokens[i].kind.RightBracket?
    ensures GenericArguments(inp, st, gs).Halted?
    decreases Remaining(inp, st.pos)
  {
    if st.pos < |inp.tokens| {
      match ParseType(inp, st)
      case Halted(_) =>
      case Done(g, st1) =>
        var st2 := Next(st1);
        var st3 := if Current(inp, st2).kind.Comma? then Next(st2) else st2;
        UnclosedGenericsDiverge(inp, st3, gs + [g]);
    }
  }

  /**
   * One turn of the statement loop of a block or a program: the statement
   * is appended after those before it when it is not null, dropped when it
   * is, and the loop goes on from the token after it.
   */
  lemma StatementLoopStep(inp: Input, st: PState, ss: seq<Statement>, inBlock: bool, s: Option<Statement>, st1: PState)
    requires !Ends(Current(inp, st).kind, inBlock)
    requires ParseStatement(inp, st) == Done(s, st1)
    ensures BlockStatements(inp, st, ss, inBlock)
            == BlockStatements(inp, Next(st1), ss + (if s.Some? then [s.value] else []), inBlock)
  {
    if s.None? {
      assert ss + [] == ss;
    }
  }

  /** The tokens of `def f() -> int { }`. */
  predicate FunctionWithBraces(inp: Input)
  {
    |inp.tokens| == 8
    && inp.tokens[0].kind.Def? && Is(inp.tokens[1], T.Identifier, "f") && inp.tokens[2].kind.LeftParen?
    && inp.tokens[3].kind.RightParen? && inp.tokens[4].kind.RightArrow? && Is(inp.tokens[5], T.Identifier, "int")
    && inp.tokens[6].kind.LeftBrace? && inp.tokens[7].kind.RightBrace?
  }

  /**
   * `def f() -> int { }`: the body is the statement parsed where the
   * return type ends, so it is the expression statement `int`, and the
   * parser stops on `int`, before the braces.
   */
  lemma FunctionBodyIsReturnTypeName(inp: Input)
    requires FunctionWithBraces(inp)
    ensures ParseStatement(inp, Start)
            == Done(Some(FunctionStatement(IdentifierLiteral("f"), [], GenericType(IdentifierLiteral("int"), []),
                                           Some(ExpressionStatement(Some(IdentifierLiteral("int")))))),
                    PState(5, []))
  {
    var s5 := PState(5, []);
    var intName := IdentifierLiteral("int");
    NameOperand(inp, s5, P.Lowest);
    ExpressionStatementWithoutSemicolon(inp, s5, Some(intName), s5);
    assert ParseStatement(inp, s5) == Done(Some(ExpressionStatement(Some(intName))), s5);
    assert ParseType(inp, s5) == Done(GenericType(intName, []), s5);
    assert ExpectPeek(inp, PState(3, []), T.RightArrow) == (true, PState(4, []));
    assert FunctionSignatureRest(inp, PState(3, []), IdentifierLiteral("f"), [])
           == Done(Some(FunctionStatement(IdentifierLiteral("f"), [], GenericType(intName, []), Some(ExpressionStatement(Some(intName))))), s5);
    assert ParseParameters(inp, PState(3, []), []) == Done(Some([]), PState(3, []));
    assert ExpectPeek(inp, Start, T.Identifier) == (true, PState(1, []));
    assert ExpectPeek(inp, PState(1, []), T.LeftParen) == (true, PState(2, []));
  }

  /** The braces after it are a separate, empty block statement of the program. */
  lemma FunctionThenSeparateBlock(inp: Input)
    requires FunctionWithBraces(inp)
    ensures ParseProgram(inp)
            == Done(Program([FunctionStatement(IdentifierLiteral("f"), [], GenericType(IdentifierLiteral("int"), []),
                                               Some(ExpressionStatement(Some(IdentifierLiteral("int"))))),
                             BlockStatement([])]),
                    PState(8, []))
  {
    var f := FunctionStatement(IdentifierLiteral("f"), [], GenericType(IdentifierLiteral("int"), []),
                               Some(ExpressionStatement(Some(IdentifierLiteral("int")))));
    FunctionBodyIsReturnTypeName(inp);
    StatementLoopStep(inp, Start, [], false, Some(f), PState(5, []));
    assert [] + [f] == [f];
    assert ParseBlockStatement(inp, PState(6, [])) == Done(BlockStatement([]), PState(7, []));
    StatementLoopStep(inp, PState(6, []), [f], false, Some(BlockStatement([])), PState(7, []));
    assert [f] + [BlockStatement([])] == [f, BlockStatement([])];
  }

  /** An empty token stream is an empty program and no errors. */
  lemma EmptyProgram(inp: Input)
    requires inp.tokens == []
    ensures ParseProgram(inp) == Done(Program([]), Start)
  {
  }
}
