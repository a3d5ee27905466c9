/**
 * The parser's static tables (src/parser/parser.hpp): the precedence
 * levels, the precedence of each token kind, and which kinds have a prefix
 * or an infix parse function.
 */
module Precedence {
  import opened Wrappers
  import opened Tokens

  /** `PrecedenceType`, weakest first. */
  datatype Level =
    | Lowest | Assign | Comparision | Sum | Product | Exponent | Prefix | Call | Index | MemberAccess | Postfix

  /** The enumerator's position; C++ compares enum class values by it. */
  function Rank(p: Level): (n: nat)
    ensures n <= 10
  {
    match p
    case Lowest => 0 case Assign => 1 case Comparision => 2 case Sum => 3 case Product => 4
    case Exponent => 5 case Prefix => 6 case Call => 7 case Index => 8 case MemberAccess => 9
    case Postfix => 10
  }

  /** `a < b` on `PrecedenceType`. */
  predicate Less(a: Level, b: Level)
  {
    Rank(a) < Rank(b)
  }

  /** The levels form one chain in declaration order, and distinct levels have distinct ranks. */
  lemma LevelsTotallyOrdered()
    ensures Less(Lowest, Assign) && Less(Assign, Comparision) && Less(Comparision, Sum)
            && Less(Sum, Product) && Less(Product, Exponent) && Less(Exponent, Prefix)
            && Less(Prefix, Call) && Less(Call, Index) && Less(Index, MemberAccess)
            && Less(MemberAccess, Postfix)
    ensures forall a: Level, b: Level :: a != b ==> Less(a, b) || Less(b, a)
    ensures forall a: Level :: !Less(a, Lowest) && !Less(Postfix, a)
  {
  }

  /** `token_precedence`: the entries of the table, `None` for a kind it does not list. */
  function TokenPrecedence(t: TokenType): Option<Level>
  {
    if t.Illegal? || t.Ellipsis? || t.EndOfFile? then Some(Lowest)
    else if t.GreaterThan? || t.LessThan? || t.GreaterThanOrEqual? || t.LessThanOrEqual? || t.EqualEqual?
         || t.NotEquals? then Some(Comparision)
    else if t.PlusEqual? || t.DashEqual? || t.AsteriskEqual? || t.PercentEqual? || t.CaretEqual?
         || t.ForwardSlashEqual? || t.BackwardSlashEqual? || t.Equals? || t.Is? then Some(Assign)
    else if t.Increment? || t.Decrement? then Some(Postfix)
    else if t.BitwiseAnd? || t.BitwiseOr? || t.BitwiseXor? || t.LeftShift? || t.RightShift? then Some(Comparision)
    else if t.BitwiseNot? then Some(Prefix)
    else if t.Dot? then Some(MemberAccess)
    else if t.Plus? || t.Dash? then Some(Sum)
    else if t.Asterisk? || t.Percent? || t.ForwardSlash? || t.BackwardSlash? then Some(Product)
    else if t.AsteriskAsterisk? then Some(Exponent)
    else Option.None
  }

  /** `_currentPrecedence` and `_peekPrecedence`: the table entry, or LOWEST for an unlisted kind. */
  function PrecedenceOf(t: TokenType): (p: Level)
    ensures TokenPrecedence(t) == Option.None ==> p == Lowest
    ensures TokenPrecedence(t).Some? ==> p == TokenPrecedence(t).value
  {
    if TokenPrecedence(t).Some? then TokenPrecedence(t).value else Lowest
  }

  /** `+` and `-` are the SUM operators. */
  lemma SumPrecedence(t: TokenType)
    ensures (t.Plus? || t.Dash?) <==> PrecedenceOf(t).Sum?
  {
  }

  /** `*`, `%`, `/` and the backslash are the PRODUCT operators. */
  lemma ProductPrecedence(t: TokenType)
    ensures (t.Asterisk? || t.Percent? || t.ForwardSlash? || t.BackwardSlash?) <==> PrecedenceOf(t).Product?
  {
  }

  /** `**` is the one EXPONENT operator. */
  lemma ExponentPrecedence(t: TokenType)
    ensures t.AsteriskAsterisk? <==> PrecedenceOf(t).Exponent?
  {
  }

  /** Comparisons, bitwise operators and shifts share COMPARISION. */
  lemma ComparisonPrecedence(t: TokenType)
    ensures (t.GreaterThan? || t.LessThan? || t.GreaterThanOrEqual? || t.LessThanOrEqual? || t.EqualEqual?
             || t.NotEquals? || t.BitwiseAnd? || t.BitwiseOr? || t.BitwiseXor? || t.LeftShift? || t.RightShift?)
            <==> PrecedenceOf(t).Comparision?
  {
  }

  /** `=`, the compound assignments and `is` share ASSIGN. */
  lemma AssignPrecedence(t: TokenType)
    ensures (t.PlusEqual? || t.DashEqual? || t.AsteriskEqual? || t.PercentEqual? || t.CaretEqual?
             || t.ForwardSlashEqual? || t.BackwardSlashEqual? || t.Equals? || t.Is?)
            <==> PrecedenceOf(t).Assign?
  {
  }

  /** The keys of `prefix_parse_fns`, each with the member function it is bound to. */
  datatype PrefixParser = IntegerLiteral | FloatLiteral | StringLiteral | BooleanLiteral | IdentifierLiteral | Grouped

  function PrefixParseFn(t: TokenType): Option<PrefixParser>
  {
    if t.Integer? then Some(IntegerLiteral)
    else if t.Float? then Some(FloatLiteral)
    else if t.String? then Some(StringLiteral)
    else if t.True? || t.False? then Some(BooleanLiteral)
    else if t.Identifier? then Some(IdentifierLiteral)
    else if t.LeftParen? then Some(Grouped)
    else Option.None
  }

  /** The keys of `infix_parse_Fns`; every one is bound to `_parseInfixExpression`. */
  predicate HasInfixParseFn(t: TokenType)
  {
    t.Plus? || t.Dash? || t.Asterisk? || t.ForwardSlash? || t.Percent? || t.AsteriskAsterisk?
  }

  lemma PrefixParseFnsExactly(t: TokenType)
    ensures PrefixParseFn(t).Some? <==> t.Integer? || t.Float? || t.String? || t.True? || t.False? || t.Identifier? || t.LeftParen?
    ensures PrefixParseFn(t) == Some(BooleanLiteral) <==> t.True? || t.False?
  {
  }

  /**
   * Every kind with an infix parse function binds tighter than LOWEST, so a
   * LOWEST-level Pratt loop never turns one away on precedence; the
   * backslash is in the precedence table but has no infix function.
   */
  lemma InfixParseFnsBindAboveLowest(t: TokenType)
    ensures HasInfixParseFn(t) ==> Less(Lowest, PrecedenceOf(t))
    ensures HasInfixParseFn(t) ==> PrefixParseFn(t) == Option.None
    ensures !HasInfixParseFn(BackwardSlash) && PrecedenceOf(BackwardSlash).Product?
  {
  }

  /** No comparison, assignment or bitwise operator has an infix parse function although all of them bind above LOWEST. */
  lemma ComparisonsHaveNoInfixParseFn(t: TokenType)
    requires PrecedenceOf(t).Comparision? || PrecedenceOf(t).Assign?
    ensures !HasInfixParseFn(t)
    ensures Less(Lowest, PrecedenceOf(t))
  {
  }
}
