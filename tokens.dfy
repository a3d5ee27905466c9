/** Token kinds, tokens and their rendering: src/lexer/tokens.hpp and src/lexer/tokens.cpp. */
module Tokens {
  import opened Wrappers

  /** The 66 token kinds, in declaration order (their ordinals are 0 .. 65). */
  datatype TokenType =
    | EndOfFile | Illegal
      // comparison operators
    | GreaterThan | LessThan | GreaterThanOrEqual | LessThanOrEqual | EqualEqual | NotEquals
      // data
    | Identifier | Integer | Float | String
      // assignment operators
    | PlusEqual | DashEqual | AsteriskEqual | PercentEqual | CaretEqual | ForwardSlashEqual
    | BackwardSlashEqual | Equals | Is
      // increment and decrement
    | Increment | Decrement
      // bitwise operators
    | BitwiseAnd | BitwiseOr | BitwiseXor | BitwiseNot | LeftShift | RightShift
      // arithmetic operators
    | Dot | Ellipsis | Plus | Dash | Asterisk | Percent | AsteriskAsterisk | ForwardSlash | BackwardSlash
      // symbols
    | LeftParen | RightParen | LeftBrace | RightBrace | LeftBracket | RightBracket
    | Colon | Semicolon | RightArrow | Comma
      // keywords
    | And | Or | Not | Var | Def | Return | If | Else | ElIf | While | For | In | Break | Continue
    | True | False | Maybe | None

  /** The value of `static_cast<int>(type)`: the position of the kind in the enumeration. */
  function Ordinal(t: TokenType): (n: nat)
    ensures n < 66
  {
    match t
    case EndOfFile => 0 case Illegal => 1
    case GreaterThan => 2 case LessThan => 3 case GreaterThanOrEqual => 4 case LessThanOrEqual => 5
    case EqualEqual => 6 case NotEquals => 7
    case Identifier => 8 case Integer => 9 case Float => 10 case String => 11
    case PlusEqual => 12 case DashEqual => 13 case AsteriskEqual => 14 case PercentEqual => 15
    case CaretEqual => 16 case ForwardSlashEqual => 17 case BackwardSlashEqual => 18
    case Equals => 19 case Is => 20
    case Increment => 21 case Decrement => 22
    case BitwiseAnd => 23 case BitwiseOr => 24 case BitwiseXor => 25 case BitwiseNot => 26
    case LeftShift => 27 case RightShift => 28
    case Dot => 29 case Ellipsis => 30 case Plus => 31 case Dash => 32 case Asterisk => 33
    case Percent => 34 case AsteriskAsterisk => 35 case ForwardSlash => 36 case BackwardSlash => 37
    case LeftParen => 38 case RightParen => 39 case LeftBrace => 40 case RightBrace => 41
    case LeftBracket => 42 case RightBracket => 43 case Colon => 44 case Semicolon => 45
    case RightArrow => 46 case Comma => 47
    case And => 48 case Or => 49 case Not => 50 case Var => 51 case Def => 52 case Return => 53
    case If => 54 case Else => 55 case ElIf => 56 case While => 57 case For => 58 case In => 59
    case Break => 60 case Continue => 61 case True => 62 case False => 63 case Maybe => 64
    case None => 65
  }

  // ---------------------------------------------------------------------------------------------
  // Decimal text (std::to_string)
  // ---------------------------------------------------------------------------------------------

  predicate IsDecimalDigit(c: char) { '0' <= c <= '9' }

  function DigitChar(d: nat): (c: char)
    requires d < 10
    ensures IsDecimalDigit(c)
  {
    "0123456789"[d]
  }

  function DigitValue(c: char): (d: nat)
    requires IsDecimalDigit(c)
    ensures d < 10
  {
    c as int - '0' as int
  }

  /** The value of a string of decimal digits. */
  function DecimalValue(s: string): nat
    requires forall i :: 0 <= i < |s| ==> IsDecimalDigit(s[i])
  {
    if |s| == 0 then 0 else 10 * DecimalValue(s[..|s| - 1]) + DigitValue(s[|s| - 1])
  }

  /** Decimal rendering of a natural number, most significant digit first, without leading zeros. */
  function NatToString(n: nat): (s: string)
    ensures 1 <= |s|
    ensures forall i :: 0 <= i < |s| ==> IsDecimalDigit(s[i])
    ensures |s| == 1 <==> n < 10
    ensures DecimalValue(s) == n
  {
    if n < 10 then [DigitChar(n)] else NatToString(n / 10) + [DigitChar(n % 10)]
  }

  /** `std::to_string(int)`: an optional minus sign followed by the decimal digits. */
  function IntToString(i: int): (s: string)
    ensures 1 <= |s|
    ensures i >= 0 ==> s == NatToString(i)
    ensures i < 0 ==> s == "-" + NatToString(-i)
  {
    if i < 0 then "-" + NatToString(-i) else NatToString(i)
  }

  // ---------------------------------------------------------------------------------------------
  // tokenTypeString
  // ---------------------------------------------------------------------------------------------

  /** The name `tokenTypeString` gives a kind. Every kind has a case of its own except `Var`,
      which falls to the default and renders with its ordinal. */
  function TokenTypeString(t: TokenType): string
  {
    match t
    case Identifier => "Identifier" case Integer => "INT" case Float => "Float"
    case PlusEqual => "PlusEqual" case DashEqual => "DashEqual" case AsteriskEqual => "AsteriskEqual"
    case PercentEqual => "PercentEqual" case CaretEqual => "CaretEqual"
    case ForwardSlashEqual => "ForwardSlashEqual" case BackwardSlashEqual => "BackwardSlashEqual"
    case Increment => "Increment" case Decrement => "Decrement" case Dot => "Dot" case Ellipsis => "Ellipsis"
    case Plus => "Plus" case Dash => "Dash" case Asterisk => "Asterisk"
    case AsteriskAsterisk => "AsteriskAsterisk" case Percent => "Percent" case ForwardSlash => "ForwardSlash"
    case BackwardSlash => "BackwardSlash" case LeftParen => "LeftParen" case RightParen => "RightParen"
    case LeftBrace => "LeftBrace" case RightBrace => "RightBrace" case LeftBracket => "LeftBracket"
    case RightBracket => "RightBracket" case Colon => "Colon" case Semicolon => "Semicolon"
    case RightArrow => "RightArrow" case Comma => "Comma" case Equals => "Equals" case Illegal => "Illegal"
    case EndOfFile => "EndOfFile" case Return => "Return" case GreaterThan => "GreaterThan"
    case LessThan => "LessThan" case GreaterThanOrEqual => "GreaterThanOrEqual"
    case LessThanOrEqual => "LessThanOrEqual" case EqualEqual => "EqualEqual" case NotEquals => "NotEquals"
    case BitwiseAnd => "BitwiseAnd" case BitwiseOr => "BitwiseOr" case BitwiseXor => "BitwiseXor"
    case BitwiseNot => "BitwiseNot" case LeftShift => "LeftShift" case RightShift => "RightShift"
    case And => "And" case Or => "Or" case Not => "Not" case Def => "Def" case If => "If" case Else => "Else"
    case ElIf => "ElIf" case Is => "Is" case While => "While" case For => "For" case In => "In"
    case Break => "Break" case Continue => "Continue" case True => "True" case False => "False"
    case Maybe => "Maybe" case None => "None" case String => "String"
    case Var => "unknown token type(" + IntToString(Ordinal(Var)) + ")"
  }

  /** `Integer` renders as "INT", and `Var`, left out of the switch, with its ordinal 51. */
  lemma TokenTypeStringSpecialCases()
    ensures TokenTypeString(Integer) == "INT"
    ensures TokenTypeString(Var) == "unknown token type(51)"
  {
  }

  /** The kind a name belongs to, if any: a left inverse of TokenTypeString. The names
      are told apart by their length and then by a letter where they differ, so that only
      one name is compared in full. */
  function KindNamed(s: string): (k: Option<TokenType>)
  {
    if |s| == 2 then
      if s[1] == 'f' then
        if s == "If" then Some(If) else Option.None
      else if s[1] == 'n' then
        if s == "In" then Some(In) else Option.None
      else if s[1] == 'r' then
        if s == "Or" then Some(Or) else Option.None
      else if s[1] == 's' then
        if s == "Is" then Some(Is) else Option.None
      else Option.None
    else if |s| == 3 then
      if s[0] == 'A' then
        if s == "And" then Some(And) else Option.None
      else if s[0] == 'D' then
        if s[1] == 'e' then
          if s == "Def" then Some(Def) else Option.None
        else if s[1] == 'o' then
          if s == "Dot" then Some(Dot) else Option.None
        else Option.None
      else if s[0] == 'F' then
        if s == "For" then Some(For) else Option.None
      else if s[0] == 'I' then
        if s == "INT" then Some(Integer) else Option.None
      else if s[0] == 'N' then
        if s == "Not" then Some(Not) else Option.None
      else Option.None
    else if |s| == 4 then
      if s[0] == 'D' then
        if s == "Dash" then Some(Dash) else Option.None
      else if s[0] == 'E' then
        if s[2] == 'I' then
          if s == "ElIf" then Some(ElIf) else Option.None
        else if s[2] == 's' then
          if s == "Else" then Some(Else) else Option.None
        else Option.None
      else if s[0] == 'N' then
        if s == "None" then Some(TokenType.None) else Option.None
      else if s[0] == 'P' then
        if s == "Plus" then Some(Plus) else Option.None
      else if s[0] == 'T' then
        if s == "True" then Some(True) else Option.None
      else Option.None
    else if |s| == 5 then
      if s[2] == 'e' then
        if s == "Break" then Some(Break) else Option.None
      else if s[2] == 'i' then
        if s == "While" then Some(While) else Option.None
      else if s[2] == 'l' then
        if s[0] == 'C' then
          if s == "Colon" then Some(Colon) else Option.None
        else if s[0] == 'F' then
          if s == "False" then Some(False) else Option.None
        else Option.None
      else if s[2] == 'm' then
        if s == "Comma" then Some(Comma) else Option.None
      else if s[2] == 'o' then
        if s == "Float" then Some(Float) else Option.None
      else if s[2] == 'y' then
        if s == "Maybe" then Some(Maybe) else Option.None
      else Option.None
    else if |s| == 6 then
      if s[0] == 'E' then
        if s == "Equals" then Some(Equals) else Option.None
      else if s[0] == 'R' then
        if s == "Return" then Some(Return) else Option.None
      else if s[0] == 'S' then
        if s == "String" then Some(String) else Option.None
      else Option.None
    else if |s| == 7 then
      if s[0] == 'I' then
        if s == "Illegal" then Some(Illegal) else Option.None
      else if s[0] == 'P' then
        if s == "Percent" then Some(Percent) else Option.None
      else Option.None
    else if |s| == 8 then
      if s[0] == 'A' then
        if s == "Asterisk" then Some(Asterisk) else Option.None
      else if s[0] == 'C' then
        if s == "Continue" then Some(Continue) else Option.None
      else if s[0] == 'E' then
        if s == "Ellipsis" then Some(Ellipsis) else Option.None
      else if s[0] == 'L' then
        if s == "LessThan" then Some(LessThan) else Option.None
      else Option.None
    else if |s| == 9 then
      if s[4] == 'B' then
        if s == "LeftBrace" then Some(LeftBrace) else Option.None
      else if s[4] == 'E' then
        if s[0] == 'D' then
          if s == "DashEqual" then Some(DashEqual) else Option.None
        else if s[0] == 'P' then
          if s == "PlusEqual" then Some(PlusEqual) else Option.None
        else Option.None
      else if s[4] == 'P' then
        if s == "LeftParen" then Some(LeftParen) else Option.None
      else if s[4] == 'S' then
        if s == "LeftShift" then Some(LeftShift) else Option.None
      else if s[4] == 'c' then
        if s == "Semicolon" then Some(Semicolon) else Option.None
      else if s[4] == 'e' then
        if s[0] == 'D' then
          if s == "Decrement" then Some(Decrement) else Option.None
        else if s[0] == 'I' then
          if s == "Increment" then Some(Increment) else Option.None
        else Option.None
      else if s[4] == 'f' then
        if s == "EndOfFile" then Some(EndOfFile) else Option.None
      else if s[4] == 'i' then
        if s == "BitwiseOr" then Some(BitwiseOr) else Option.None
      else if s[4] == 'q' then
        if s == "NotEquals" then Some(NotEquals) else Option.None
      else Option.None
    else if |s| == 10 then
      if s[5] == 'A' then
        if s == "RightArrow" then Some(RightArrow) else Option.None
      else if s[5] == 'B' then
        if s == "RightBrace" then Some(RightBrace) else Option.None
      else if s[5] == 'E' then
        if s[0] == 'C' then
          if s == "CaretEqual" then Some(CaretEqual) else Option.None
        else if s[0] == 'E' then
          if s == "EqualEqual" then Some(EqualEqual) else Option.None
        else Option.None
      else if s[5] == 'P' then
        if s == "RightParen" then Some(RightParen) else Option.None
      else if s[5] == 'S' then
        if s == "RightShift" then Some(RightShift) else Option.None
      else if s[5] == 'i' then
        if s == "Identifier" then Some(Identifier) else Option.None
      else if s[5] == 's' then
        if s[7] == 'A' then
          if s == "BitwiseAnd" then Some(BitwiseAnd) else Option.None
        else if s[7] == 'N' then
          if s == "BitwiseNot" then Some(BitwiseNot) else Option.None
        else if s[7] == 'X' then
          if s == "BitwiseXor" then Some(BitwiseXor) else Option.None
        else Option.None
      else Option.None
    else if |s| == 11 then
      if s[0] == 'G' then
        if s == "GreaterThan" then Some(GreaterThan) else Option.None
      else if s[0] == 'L' then
        if s == "LeftBracket" then Some(LeftBracket) else Option.None
      else Option.None
    else if |s| == 12 then
      if s[0] == 'F' then
        if s == "ForwardSlash" then Some(ForwardSlash) else Option.None
      else if s[0] == 'P' then
        if s == "PercentEqual" then Some(PercentEqual) else Option.None
      else if s[0] == 'R' then
        if s == "RightBracket" then Some(RightBracket) else Option.None
      else Option.None
    else if |s| == 13 then
      if s[0] == 'A' then
        if s == "AsteriskEqual" then Some(AsteriskEqual) else Option.None
      else if s[0] == 'B' then
        if s == "BackwardSlash" then Some(BackwardSlash) else Option.None
      else Option.None
    else if |s| == 15 then
      if s == "LessThanOrEqual" then Some(LessThanOrEqual) else Option.None
    else if |s| == 16 then
      if s == "AsteriskAsterisk" then Some(AsteriskAsterisk) else Option.None
    else if |s| == 17 then
      if s == "ForwardSlashEqual" then Some(ForwardSlashEqual) else Option.None
    else if |s| == 18 then
      if s[0] == 'B' then
        if s == "BackwardSlashEqual" then Some(BackwardSlashEqual) else Option.None
      else if s[0] == 'G' then
        if s == "GreaterThanOrEqual" then Some(GreaterThanOrEqual) else Option.None
      else Option.None
    else if |s| == 22 then
      if s == "unknown token type(51)" then Some(Var) else Option.None
    else Option.None
  }

  lemma KindNamedInvertsGroup0(t: TokenType)
    requires t.EndOfFile? || t.Illegal? || t.GreaterThan? || t.LessThan? || t.GreaterThanOrEqual? || t.LessThanOrEqual?
    ensures KindNamed(TokenTypeString(t)) == Some(t)
  {
    match t
    case EndOfFile => {}
    case Illegal => {}
    case GreaterThan => {}
    case LessThan => {}
    case GreaterThanOrEqual => {}
    case LessThanOrEqual => {}
    case _ => assert false;
  }

  lemma KindNamedInvertsGroup1(t: TokenType)
    requires t.EqualEqual? || t.NotEquals? || t.Identifier? || t.Integer? || t.Float? || t.String?
    ensures KindNamed(TokenTypeString(t)) == Some(t)
  {
    match t
    case EqualEqual => {}
    case NotEquals => {}
    case Identifier => {}
    case Integer => {}
    case Float => {}
    case String => {}
    case _ => assert false;
  }

  lemma KindNamedInvertsGroup2(t: TokenType)
    requires t.PlusEqual? || t.DashEqual? || t.AsteriskEqual? || t.PercentEqual? || t.CaretEqual? || t.ForwardSlashEqual?
    ensures KindNamed(TokenTypeString(t)) == Some(t)
  {
    match t
    case PlusEqual => {}
    case DashEqual => {}
    case AsteriskEqual => {}
    case PercentEqual => {}
    case CaretEqual => {}
    case ForwardSlashEqual => {}
    case _ => assert false;
  }

  lemma KindNamedInvertsGroup3(t: TokenType)
    requires t.BackwardSlashEqual? || t.Equals? || t.Is? || t.Increment? || t.Decrement? || t.BitwiseAnd?
    ensures KindNamed(TokenTypeString(t)) == Some(t)
  {
    match t
    case BackwardSlashEqual => {}
    case Equals => {}
    case Is => {}
    case Increment => {}
    case Decrement => {}
    case BitwiseAnd => {}
    case _ => assert false;
  }

  lemma KindNamedInvertsGroup4(t: TokenType)
    requires t.BitwiseOr? || t.BitwiseXor? || t.BitwiseNot? || t.LeftShift? || t.RightShift? || t.Dot?
    ensures KindNamed(TokenTypeString(t)) == Some(t)
  {
    match t
    case BitwiseOr => {}
    case BitwiseXor => {}
    case BitwiseNot => {}
    case LeftShift => {}
    case RightShift => {}
    case Dot => {}
    case _ => assert false;
  }

  lemma KindNamedInvertsGroup5(t: TokenType)
    requires t.Ellipsis? || t.Plus? || t.Dash? || t.Asterisk? || t.Percent? || t.AsteriskAsterisk?
    ensures KindNamed(TokenTypeString(t)) == Some(t)
  {
    match t
    case Ellipsis => {}
    case Plus => {}
    case Dash => {}
    case Asterisk => {}
    case Percent => {}
    case AsteriskAsterisk => {}
    case _ => assert false;
  }

  lemma KindNamedInvertsGroup6(t: TokenType)
    requires t.ForwardSlash? || t.BackwardSlash? || t.LeftParen? || t.RightParen? || t.LeftBrace? || t.RightBrace?
    ensures KindNamed(TokenTypeString(t)) == Some(t)
  {
    match t
    case ForwardSlash => {}
    case BackwardSlash => {}
    case LeftParen => {}
    case RightParen => {}
    case LeftBrace => {}
    case RightBrace => {}
    case _ => assert false;
  }

  lemma KindNamedInvertsGroup7(t: TokenType)
    requires t.LeftBracket? || t.RightBracket? || t.Colon? || t.Semicolon? || t.RightArrow? || t.Comma?
    ensures KindNamed(TokenTypeString(t)) == Some(t)
  {
    match t
    case LeftBracket => {}
    case RightBracket => {}
    case Colon => {}
    case Semicolon => {}
    case RightArrow => {}
    case Comma => {}
    case _ => assert false;
  }

  lemma KindNamedInvertsGroup8(t: TokenType)
    requires t.And? || t.Or? || t.Not? || t.Var? || t.Def? || t.Return?
    ensures KindNamed(TokenTypeString(t)) == Some(t)
  {
    match t
    case And => {}
    case Or => {}
    case Not => {}
    case Var => {}
    case Def => {}
    case Return => {}
    case _ => assert false;
  }

  lemma KindNamedInvertsGroup9(t: TokenType)
    requires t.If? || t.Else? || t.ElIf? || t.While? || t.For? || t.In?
    ensures KindNamed(TokenTypeString(t)) == Some(t)
  {
    match t
    case If => {}
    case Else => {}
    case ElIf => {}
    case While => {}
    case For => {}
    case In => {}
    case _ => assert false;
  }

  lemma KindNamedInvertsGroup10(t: TokenType)
    requires t.Break? || t.Continue? || t.True? || t.False? || t.Maybe? || t.None?
    ensures KindNamed(TokenTypeString(t)) == Some(t)
  {
    match t
    case Break => {}
    case Continue => {}
    case True => {}
    case False => {}
    case Maybe => {}
    case None => {}
    case _ => assert false;
  }

  lemma KindNamedInverts(t: TokenType)
    ensures KindNamed(TokenTypeString(t)) == Some(t)
  {
    match t
    case EndOfFile | Illegal | GreaterThan | LessThan | GreaterThanOrEqual | LessThanOrEqual => KindNamedInvertsGroup0(t);
    case EqualEqual | NotEquals | Identifier | Integer | Float | String => KindNamedInvertsGroup1(t);
    case PlusEqual | DashEqual | AsteriskEqual | PercentEqual | CaretEqual | ForwardSlashEqual => KindNamedInvertsGroup2(t);
    case BackwardSlashEqual | Equals | Is | Increment | Decrement | BitwiseAnd => KindNamedInvertsGroup3(t);
    case BitwiseOr | BitwiseXor | BitwiseNot | LeftShift | RightShift | Dot => KindNamedInvertsGroup4(t);
    case Ellipsis | Plus | Dash | Asterisk | Percent | AsteriskAsterisk => KindNamedInvertsGroup5(t);
    case ForwardSlash | BackwardSlash | LeftParen | RightParen | LeftBrace | RightBrace => KindNamedInvertsGroup6(t);
    case LeftBracket | RightBracket | Colon | Semicolon | RightArrow | Comma => KindNamedInvertsGroup7(t);
    case And | Or | Not | Var | Def | Return => KindNamedInvertsGroup8(t);
    case If | Else | ElIf | While | For | In => KindNamedInvertsGroup9(t);
    case Break | Continue | True | False | Maybe | None => KindNamedInvertsGroup10(t);
  }

  /** Every kind renders under a name of its own. */
  lemma TokenTypeStringInjective(a: TokenType, b: TokenType)
    requires TokenTypeString(a) == TokenTypeString(b)
    ensures a == b
  {
    KindNamedInverts(a);
    KindNamedInverts(b);
  }

  // ---------------------------------------------------------------------------------------------
  // Token
  // ---------------------------------------------------------------------------------------------

  /** A token. `colNo` is None when the literal-less constructor leaves `col_no` unset. */
  datatype Token = Token(kind: TokenType, literal: string, lineNo: int, colNo: Option<int>, endColNo: int)

  /** `Token(type, literal, line_no, col_no)`: the given column is the end column, and the start
      column is found by subtracting the literal's length. */
  function NewToken(kind: TokenType, literal: string, lineNo: int, col: int): (t: Token)
    ensures t.kind == kind && t.literal == literal && t.lineNo == lineNo
    ensures t.endColNo == col
    ensures t.colNo.Some? && t.colNo.value + |literal| == t.endColNo
    ensures t.colNo.value <= t.endColNo
  {
    Token(kind, literal, lineNo, Some(col - |literal|), col)
  }

  /** `Token(type, line_no, col_no)`: an empty literal, the given column as end column, and no
      start column. */
  function BareToken(kind: TokenType, lineNo: int, col: int): (t: Token)
    ensures t.kind == kind && t.literal == "" && t.lineNo == lineNo
    ensures t.endColNo == col && t.colNo.None?
  {
    Token(kind, "", lineNo, Option.None, col)
  }

  // ---------------------------------------------------------------------------------------------
  // Escaping the literal (the find/replace loop of Token::toString)
  // ---------------------------------------------------------------------------------------------

  const NewlineEscape: string := "\\$(n)"
  const TabEscape: string := "\\$(t)"

  /** `s` with every occurrence of `c` replaced by `rep`. */
  function ReplaceChar(s: string, c: char, rep: string): string
  {
    if |s| == 0 then ""
    else (if s[0] == c then rep else [s[0]]) + ReplaceChar(s[1..], c, rep)
  }

  /** The escaped literal, character by character: newline and tab become "\$(n)" and "\$(t)". */
  function Escape(s: string): (r: string)
    ensures '\n' !in r && '\t' !in r
  {
    if |s| == 0 then ""
    else (if s[0] == '\n' then NewlineEscape else if s[0] == '\t' then TabEscape else [s[0]])
         + Escape(s[1..])
  }

  lemma {:induction false} ReplaceCharConcat(a: string, b: string, c: char, rep: string)
    ensures ReplaceChar(a + b, c, rep) == ReplaceChar(a, c, rep) + ReplaceChar(b, c, rep)
  {
    if |a| == 0 {
      assert a + b == b;
    } else {
      assert (a + b)[1..] == a[1..] + b;
      ReplaceCharConcat(a[1..], b, c, rep);
    }
  }

  lemma {:induction false} ReplaceCharAbsent(s: string, c: char, rep: string)
    requires c !in s
    ensures ReplaceChar(s, c, rep) == s
  {
    if |s| > 0 {
      ReplaceCharAbsent(s[1..], c, rep);
    }
  }

  /** Replacing newlines and then tabs, the order the two replacements are applied in, gives the
      one-pass escape; as neither replacement text holds the other character, the order the
      unordered map visits them in does not matter. */
  lemma {:induction false} EscapeByReplacing(s: string)
    ensures ReplaceChar(ReplaceChar(s, '\n', NewlineEscape), '\t', TabEscape) == Escape(s)
    ensures ReplaceChar(ReplaceChar(s, '\t', TabEscape), '\n', NewlineEscape) == Escape(s)
  {
    NewlineThenTab(s);
    TabThenNewline(s);
  }

  lemma {:induction false} NewlineThenTab(s: string)
    ensures ReplaceChar(ReplaceChar(s, '\n', NewlineEscape), '\t', TabEscape) == Escape(s)
  {
    if |s| > 0 {
      NewlineThenTab(s[1..]);
      var h := if s[0] == '\n' then NewlineEscape else [s[0]];
      assert ReplaceChar(s, '\n', NewlineEscape) == h + ReplaceChar(s[1..], '\n', NewlineEscape);
      ReplaceCharConcat(h, ReplaceChar(s[1..], '\n', NewlineEscape), '\t', TabEscape);
      if s[0] == '\n' {
        ReplaceCharAbsent(NewlineEscape, '\t', TabEscape);
      }
    }
  }

  lemma {:induction false} TabThenNewline(s: string)
    ensures ReplaceChar(ReplaceChar(s, '\t', TabEscape), '\n', NewlineEscape) == Escape(s)
  {
    if |s| > 0 {
      TabThenNewline(s[1..]);
      var g := if s[0] == '\t' then TabEscape else [s[0]];
      assert ReplaceChar(s, '\t', TabEscape) == g + ReplaceChar(s[1..], '\t', TabEscape);
      ReplaceCharConcat(g, ReplaceChar(s[1..], '\t', TabEscape), '\n', NewlineEscape);
      if s[0] == '\t' {
        ReplaceCharAbsent(TabEscape, '\n', NewlineEscape);
      }
    }
  }

  /** `std::string::find(c, from)`: the first index at or after `from` holding `c`, or -1 for npos. */
  function Find(s: string, c: char, from: nat): int
    decreases |s| - from
  {
    if from >= |s| then -1 else if s[from] == c then from else Find(s, c, from + 1)
  }

  /** Find returns npos exactly when `c` does not occur from `from` on, and otherwise the first
      index at or after `from` that holds `c`. */
  lemma {:induction false} FindSpec(s: string, c: char, from: nat)
    ensures Find(s, c, from) == -1 <==> forall j :: from <= j < |s| ==> s[j] != c
    ensures Find(s, c, from) != -1 ==>
              var r := Find(s, c, from);
              from <= r < |s| && s[r] == c && forall j :: from <= j < r ==> s[j] != c
    decreases |s| - from
  {
    if from < |s| && s[from] != c {
      FindSpec(s, c, from + 1);
    }
  }

  /** One step of the replacement loop on the original text: the prefix up to and including the
      next occurrence of `c`. */
  lemma ReplaceStep(s: string, done: nat, k: nat, c: char, rep: string)
    requires done + k < |s| && s[done + k] == c && c !in s[done..done + k]
    ensures ReplaceChar(s[..done + k + 1], c, rep) == ReplaceChar(s[..done], c, rep) + s[done..done + k] + rep
  {
    assert s[..done + k + 1] == s[..done] + s[done..done + k] + [c];
    ReplaceCharConcat(s[..done] + s[done..done + k], [c], c, rep);
    ReplaceCharConcat(s[..done], s[done..done + k], c, rep);
    ReplaceCharAbsent(s[done..done + k], c, rep);
  }

  /** The text searched from `|p|` on is the untouched rest `s[done..]` of the original. */
  lemma UntouchedRest(s: string, done: nat, p: string, c: char, pos: int)
    requires done <= |s| && pos == Find(p + s[done..], c, |p|)
    ensures pos == -1 ==> c !in s[done..]
    ensures pos != -1 ==> |p| <= pos && done + (pos - |p|) < |s| && s[done + (pos - |p|)] == c
                          && c !in s[done..done + (pos - |p|)]
  {
    var r := p + s[done..];
    FindSpec(r, c, |p|);
    if pos == -1 {
      var w := s[done..];
      forall j | 0 <= j < |w| ensures w[j] != c {
        assert w[j] == r[|p| + j];
      }
    } else {
      var k := pos - |p|;
      assert s[done + k] == r[pos];
      var w := s[done..done + k];
      forall j | 0 <= j < |w| ensures w[j] != c {
        assert w[j] == r[|p| + j];
      }
    }
  }

  /** One iteration of the replacement loop keeps its invariant: after replacing the occurrence
      found at `pos`, the transformed prefix has grown by the untouched text before it and `rep`. */
  lemma ReplaceLoopStep(s: string, c: char, rep: string, done: nat, p: string, r: string, pos: int)
    returns (done': nat, p': string)
    requires done <= |s| && p == ReplaceChar(s[..done], c, rep) && r == p + s[done..]
    requires pos == Find(r, c, |p|) && pos != -1
    ensures done < done' <= |s| && p' == ReplaceChar(s[..done'], c, rep)
    ensures 0 <= pos < |r| && |p'| == pos + |rep|
    ensures r[..pos] + rep + r[pos + 1..] == p' + s[done'..]
  {
    UntouchedRest(s, done, p, c, pos);
    var k := pos - |p|;
    ReplaceStep(s, done, k, c, rep);
    SplitConcat(p, s[done..], k);
    assert s[done..][..k] == s[done..done + k];
    assert s[done..][k + 1..] == s[done + k + 1..];
    done' := done + k + 1;
    p' := p + s[done..done + k] + rep;
  }

  /** Cutting `a + b` inside `b`, on either side of the character at `|a| + k`. */
  lemma SplitConcat(a: string, b: string, k: nat)
    requires k < |b|
    ensures (a + b)[..|a| + k] == a + b[..k]
    ensures (a + b)[|a| + k + 1..] == b[k + 1..]
  {
  }

  /** Once `c` no longer occurs in the rest `s[done..]`, the transformed prefix followed by that
      rest is the whole replacement. */
  lemma ReplaceTail(s: string, done: nat, c: char, rep: string)
    requires done <= |s| && c !in s[done..]
    ensures ReplaceChar(s[..done], c, rep) + s[done..] == ReplaceChar(s, c, rep)
  {
    assert s[..done] + s[done..] == s;
    ReplaceCharAbsent(s[done..], c, rep);
    ReplaceCharConcat(s[..done], s[done..], c, rep);
  }

  /** The invariant of the replacement loop: the first `done` characters of `s` have been
      transformed into `p`, the rest is untouched, and `pos` is the next occurrence past `p`. */
  ghost predicate ReplaceInv(s: string, c: char, rep: string, done: nat, p: string, r: string, pos: int)
  {
    done <= |s| && p == ReplaceChar(s[..done], c, rep) && r == p + s[done..] && pos == Find(r, c, |p|)
  }

  /** The searched position is in range, and the loop's update keeps its invariant. */
  lemma ReplaceIteration(s: string, c: char, rep: string, done: nat, p: string, r: string, pos: int)
    returns (done': nat, p': string)
    requires ReplaceInv(s, c, rep, done, p, r, pos) && pos != -1
    ensures 0 <= pos < |r| && done < done'
    ensures ReplaceInv(s, c, rep, done', p', r[..pos] + rep + r[pos + 1..],
                       Find(r[..pos] + rep + r[pos + 1..], c, pos + |rep|))
  {
    done', p' := ReplaceLoopStep(s, c, rep, done, p, r, pos);
    var r' := r[..pos] + rep + r[pos + 1..];
    assert r' == p' + s[done'..] && pos + |rep| == |p'|;
  }

  /** The replacement loop of Token::toString for one entry of the map: find `c`, replace the one
      character by `rep`, and search again just after the inserted text. */
  method ReplaceAll(s: string, c: char, rep: string) returns (r: string)
    ensures r == ReplaceChar(s, c, rep)
  {
    r := s;
    var pos := Find(r, c, 0);
    ghost var done := 0;
    ghost var p := "";
    assert s[..0] == "";
    while pos != -1
      invariant ReplaceInv(s, c, rep, done, p, r, pos)
      decreases |s| - done
    {
      done, p := ReplaceIteration(s, c, rep, done, p, r, pos);
      r := r[..pos] + rep + r[pos + 1..];
      pos := Find(r, c, pos + |rep|);
    }
    UntouchedRest(s, done, p, c, pos);
    ReplaceTail(s, done, c, rep);
  }

  // ---------------------------------------------------------------------------------------------
  // Token::toString(false)
  // ---------------------------------------------------------------------------------------------

  function Spaces(n: nat): (s: string)
    ensures |s| == n && forall i :: 0 <= i < n ==> s[i] == ' '
    ensures '\n' !in s && '\t' !in s
  {
    if n == 0 then "" else Spaces(n - 1) + " "
  }

  /** `s` followed by enough spaces to make it at least `width` long. */
  function PadRight(s: string, width: nat): (r: string)
    ensures |r| == if |s| < width then width else |s|
    ensures r[..|s|] == s && forall i :: |s| <= i < |r| ==> r[i] == ' '
  {
    if |s| < width then s + Spaces(width - |s|) else s
  }

  /** The spaces put on each side of the literal: together with it they make 10 or 11 characters,
      and a literal of 10 or more characters gets none. */
  function LiteralPadding(len: nat): (n: nat)
    ensures len >= 10 ==> n == 0
    ensures len < 10 ==> 10 <= 2 * n + len <= 11
  {
    if len >= 10 then 0 else (10 - len) / 2 + len % 2
  }

  /** The five rendered fields of a token. */
  datatype Fields = Fields(typeName: string, literal: string, lineNo: string, colNo: string, endColNo: string)

  /** The uncoloured layout of Token::toString. */
  function Layout(f: Fields): string
  {
    "Token{type: " + f.typeName + ", literal: " + f.literal + ", line_no: " + f.lineNo
    + ", col_no: " + f.colNo + ", end_col_no: " + f.endColNo + "};"
  }

  /** `std::string(n, ' ')` with a count past max_size() throws std::length_error. */
  datatype RenderError = LengthError

  /** The fields as tokens.cpp computes them. The line number is padded when the LITERAL is
      shorter than two characters, with `2 - lineNoString.length()` spaces; for a line number of
      three or more digits that unsigned subtraction wraps around and the string constructor
      throws. */
  function WrittenFields(t: Token): (r: Result<Fields, RenderError>)
    requires t.colNo.Some?
    ensures r.Err? <==> |Escape(t.literal)| < 2 && |IntToString(t.lineNo)| > 2
    ensures r.Ok? ==> '\n' !in r.value.literal && '\t' !in r.value.literal
  {
    var lit := Escape(t.literal);
    var pad := Spaces(LiteralPadding(|lit|));
    var line := IntToString(t.lineNo);
    if |lit| < 2 && |line| > 2 then Err(LengthError)
    else Ok(Fields(PadRight(TokenTypeString(t.kind), 15),
                   pad + lit + pad,
                   if |lit| < 2 then PadRight(line, 2) else line,
                   PadRight(IntToString(t.colNo.value), 2),
                   PadRight(IntToString(t.endColNo), 2)))
  }

  /** `Token::toString(false)`. Reading `col_no` of a token built without one is undefined, so a
      start column is required. */
  function Render(t: Token): Result<string, RenderError>
    requires t.colNo.Some?
  {
    match WrittenFields(t)
    case Ok(f) => Ok(Layout(f))
    case Err(e) => Err(e)
  }

  /** The rendered fields: the type name right-padded to 15 and the two columns padded to 2. */
  lemma RenderedFields(t: Token)
    requires t.colNo.Some? && WrittenFields(t).Ok?
    ensures var f := WrittenFields(t).value;
            && |f.typeName| >= 15 && f.typeName[..|TokenTypeString(t.kind)|] == TokenTypeString(t.kind)
            && |f.colNo| >= 2 && |f.endColNo| >= 2
            && Render(t) == Ok(Layout(f))
  {
  }

  /** The escaped literal centred in padding: a literal of ten or more characters is shown as it
      is, a shorter one takes ten or eleven characters with its padding. */
  lemma RenderedLiteral(t: Token)
    requires t.colNo.Some? && WrittenFields(t).Ok?
    ensures var f := WrittenFields(t).value;
            var lit := Escape(t.literal);
            && (|lit| >= 10 ==> f.literal == lit)
            && (|lit| < 10 ==> 10 <= |f.literal| <= 11)
  {
  }

  /** Token::toString(false), computed as tokens.cpp does: the two replacement loops, then the
      padding. */
  method ToString(t: Token) returns (r: Result<string, RenderError>)
    requires t.colNo.Some?
    ensures r == Render(t)
  {
    var typeString := TokenTypeString(t.kind);
    var literalString := ReplaceAll(t.literal, '\n', NewlineEscape);
    literalString := ReplaceAll(literalString, '\t', TabEscape);
    EscapeByReplacing(t.literal);
    var lineNoString := IntToString(t.lineNo);
    var colNoString := IntToString(t.colNo.value);
    var endColNoString := IntToString(t.endColNo);
    var padding := LiteralPadding(|literalString|);
    var paddingString := Spaces(padding);
    if |typeString| < 15 {
      typeString := typeString + Spaces(15 - |typeString|);
    }
    if |literalString| < 2 {
      if |lineNoString| > 2 {
        return Err(LengthError);
      }
      lineNoString := lineNoString + Spaces(2 - |lineNoString|);
      assert lineNoString == PadRight(IntToString(t.lineNo), 2);
    }
    if |colNoString| < 2 {
      colNoString := colNoString + Spaces(2 - |colNoString|);
    }
    if |endColNoString| < 2 {
      endColNoString := endColNoString + Spaces(2 - |endColNoString|);
    }
    assert typeString == PadRight(TokenTypeString(t.kind), 15);
    assert colNoString == PadRight(IntToString(t.colNo.value), 2);
    assert endColNoString == PadRight(IntToString(t.endColNo), 2);
    r := Ok(Layout(Fields(typeString, paddingString + literalString + paddingString,
                          lineNoString, colNoString, endColNoString)));
  }

  /** A one-character token on line 100 makes toString throw. */
  lemma RenderThrowsOnShortLiteralAtLine100()
    ensures Render(NewToken(Plus, "+", 100, 1)).Err?
  {
    assert IntToString(100) == "100";
    assert Escape("+") == "+";
    assert WrittenFields(NewToken(Plus, "+", 100, 1)).Err?;
  }

  /** A two-character literal leaves a one-digit line number unpadded. */
  lemma RenderLeavesLineUnpadded()
    ensures WrittenFields(NewToken(Increment, "++", 5, 2)).value.lineNo == "5"
  {
  }

  /** The evidently intended fields: the line number is padded when IT is shorter than two
      characters, like the two columns, so all three numbers take at least two characters. */
  function IntendedFields(t: Token): (f: Fields)
    requires t.colNo.Some?
    ensures |f.lineNo| >= 2 && |f.colNo| >= 2 && |f.endColNo| >= 2 && |f.typeName| >= 15
    ensures '\n' !in f.literal && '\t' !in f.literal
  {
    var lit := Escape(t.literal);
    var pad := Spaces(LiteralPadding(|lit|));
    Fields(PadRight(TokenTypeString(t.kind), 15), pad + lit + pad,
           PadRight(IntToString(t.lineNo), 2),
           PadRight(IntToString(t.colNo.value), 2), PadRight(IntToString(t.endColNo), 2))
  }

  /** The corrected rendering: it never fails. */
  function RenderIntended(t: Token): string
    requires t.colNo.Some?
  {
    Layout(IntendedFields(t))
  }

  /** The written rendering agrees with the corrected one wherever its guard happens to test the
      right thing: a short literal with a short line number, or a long literal with a line number
      that needs no padding. */
  lemma RenderAgreesWithIntended(t: Token)
    requires t.colNo.Some?
    requires (|Escape(t.literal)| < 2 && |IntToString(t.lineNo)| <= 2)
          || (|Escape(t.literal)| >= 2 && |IntToString(t.lineNo)| >= 2)
    ensures Render(t) == Ok(RenderIntended(t))
  {
    var line := IntToString(t.lineNo);
    if |Escape(t.literal)| >= 2 {
      assert PadRight(line, 2) == line;
    }
    assert WrittenFields(t) == Ok(IntendedFields(t));
  }
}
