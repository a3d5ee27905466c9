/**
 * The lexer object: a cursor over the source that `nextToken` advances in
 * place. Every method is proved to move the fields exactly as the
 * corresponding function of module Scan moves a cursor value.
 */
module Lexing {
  import opened Wrappers
  import opened Tokens
  import Scan

  class Lexer {
    var source: string
    var pos: int
    var lineNo: int
    var colNo: int
    var currentChar: string

    /** `currentChar` is the character under `pos` ("" outside the source). */
    ghost predicate Valid()
      reads this
    {
      -1 <= pos && currentChar == Scan.CharAt(source, pos)
    }

    function State(): Scan.Cursor
      reads this
    {
      Scan.Cursor(source, pos, lineNo, colNo)
    }

    /** Starts before the source and reads its first character. */
    constructor (source: string)
      ensures Valid() && State() == Scan.Cursor(source, 0, 1, 0)
    {
      this.source := source;
      pos := -1;
      lineNo := 1;
      colNo := -1;
      currentChar := "";
      new;
      ReadChar();
    }

    method ReadChar()
      requires Valid()
      modifies this
      ensures Valid() && State() == Scan.ReadChar(old(State()))
    {
      pos := pos + 1;
      if pos >= |source| {
        currentChar := "";
      } else {
        currentChar := [source[pos]];
      }
      colNo := colNo + 1;
    }

    method ReadNumber() returns (t: Token)
      requires Valid() && pos >= 0
      modifies this
      ensures Valid() && (t, State()) == Scan.ReadNumber(old(State()))
    {
      var dots: nat := 0;
      var number := "";
      while Scan.IsDigit(currentChar) || currentChar == "."
        invariant Valid() && pos >= 0 && source == old(source) && dots <= 1
        invariant Scan.ReadNumberFrom(State(), dots, number) == Scan.ReadNumber(old(State()))
        decreases |source| - pos
      {
        Scan.EmptyIsNeither();
        if currentChar == "." {
          dots := dots + 1;
          if dots > 1 {
            t := Scan.NewTok(State(), Illegal, currentChar);
            return;
          }
        }
        number := number + currentChar;
        ReadChar();
        if currentChar == "" {
          break;
        }
      }
      if dots == 0 {
        t := Scan.NewTok(State(), Integer, number);
      } else {
        t := Scan.NewTok(State(), Float, number);
      }
    }

    method ReadIdentifier() returns (id: string)
      requires Valid() && pos >= 0
      modifies this
      ensures Valid() && (id, State()) == Scan.ReadIdentifier(old(State()))
    {
      id := "";
      assert "" + Scan.ReadIdentifier(State()).0 == Scan.ReadIdentifier(State()).0;
      while Scan.IsLetter(currentChar) || Scan.IsDigit(currentChar)
        invariant Valid() && pos >= 0 && source == old(source)
        invariant Scan.ReadIdentifier(old(State())) == (id + Scan.ReadIdentifier(State()).0, Scan.ReadIdentifier(State()).1)
        decreases |source| - pos
      {
        Scan.EmptyIsNeither();
        var ch := currentChar;
        ghost var rest := Scan.ReadIdentifier(Scan.ReadChar(State())).0;
        assert Scan.ReadIdentifier(State()).0 == ch + rest;
        ghost var before := id;
        id := id + ch;
        ReadChar();
        assert before + (ch + rest) == id + rest;
      }
      assert id + "" == id;
    }

    method SkipWhitespace()
      requires Valid() && pos >= 0
      modifies this
      ensures Valid() && State() == Scan.SkipWhitespace(old(State()))
      decreases |source| - pos
    {
      ghost var start := State();
      while currentChar == " " || currentChar == "\t" || currentChar == "\n" || currentChar == "\r"
        invariant Valid() && pos >= 0 && source == start.source
        invariant Scan.SkipBlanks(State()) == Scan.SkipBlanks(start)
        decreases |source| - pos
      {
        if currentChar == "\n" {
          lineNo := lineNo + 1;
          colNo := 0;
        }
        ReadChar();
      }
      if currentChar == "#" {
        ReadChar();
        while currentChar != "\n" && currentChar != ""
          invariant Valid() && pos >= 0 && source == start.source
          invariant Scan.SkipComment(State()) == Scan.SkipComment(Scan.ReadChar(Scan.SkipBlanks(start)))
          decreases |source| - pos
        {
          ReadChar();
        }
        SkipWhitespace();
      }
    }

    /**
     * `_readString(quote)`. An unterminated string is the syntax error the
     * source raises before exiting; the lexer's state is then of no interest.
     */
    method ReadString(quote: string) returns (r: Result<string, Scan.LexError>)
      requires Valid()
      modifies this
      ensures Valid() && r == Scan.Strip(Scan.ReadString(old(State()), quote))
      ensures r.Ok? ==> State() == Scan.ReadString(old(State()), quote).value.1
    {
      var str := "";
      var literal := quote;
      var stColNo := colNo;
      if quote == "\"\"\"" || quote == "'''" {
        ReadChar();
        ReadChar();
      }
      while true
        invariant Valid() && source == old(source)
        invariant Scan.ReadStringFrom(State(), quote, str, literal, stColNo) == Scan.ReadString(old(State()), quote)
        decreases |source| - pos
      {
        ReadChar();
        if currentChar == "" {
          return Err(Scan.Unterminated(State(), quote, literal, stColNo));
        } else if currentChar == "\n" && quote != "\"\"\"" && quote != "'''" {
          return Err(Scan.Unterminated(State(), quote, literal, stColNo));
        } else if currentChar == "\\" {
          ReadChar();
          var (v, l) := Scan.DecodeEscape(currentChar);
          str := str + v;
          literal := literal + l;
        } else if currentChar == quote {
          ReadChar();
          return Ok(str);
        } else if currentChar + Scan.PeekChar(State(), 1) + Scan.PeekChar(State(), 2) == quote {
          ReadChar();
          ReadChar();
          ReadChar();
          return Ok(str);
        } else {
          str := str + currentChar;
          literal := literal + currentChar;
        }
      }
    }


    /**
     * `nextToken`: skips whitespace and comments, then reads one token. The
     * string, identifier and number branches return at once; every other
     * branch ends with the shared trailing `_readChar`.
     */
    method NextToken() returns (r: Result<Token, Scan.LexError>)
      requires Valid() && pos >= 0
      modifies this
      ensures Valid() && r == Scan.Strip(Scan.NextToken(old(State())))
      ensures r.Ok? ==> State() == Scan.NextToken(old(State())).value.1 && pos > old(pos)
    {
      Scan.NextTokenAdvances(State());
      SkipWhitespace();
      r := TokenAt();
    }

    /**
     * The branch chain of `nextToken`, once whitespace is skipped. Its
     * branches are grouped here by the operator family of the current
     * character; each group keeps the branches and their order.
     */
    method TokenAt() returns (r: Result<Token, Scan.LexError>)
      requires Valid() && pos >= 0
      modifies this
      ensures Valid() && r == Scan.Strip(Scan.NextTokenAt(old(State())))
      ensures r.Ok? ==> State() == Scan.NextTokenAt(old(State())).value.1
    {
      if currentChar == "" {
        var token := Scan.NewTok(State(), EndOfFile, "");
        ReadChar();
        r := Ok(token);
      } else if Scan.ArithmeticChar(currentChar[0]) {
        r := ArithmeticToken();
      } else if Scan.ComparisonChar(currentChar[0]) {
        r := ComparisonToken();
      } else if Scan.PunctuationChar(currentChar[0]) {
        r := PunctuationToken();
      } else {
        r := OtherToken();
      }
    }

    /** The `+`, `.`, `-`, `*`, `/`, `%` and `^` branches, each ending with the trailing `_readChar`. */
    method ArithmeticToken() returns (r: Result<Token, Scan.LexError>)
      requires Valid() && 0 <= pos < |source| && Scan.ArithmeticChar(source[pos])
      modifies this
      ensures Valid() && r == Scan.Strip(Scan.ArithmeticAt(old(State())))
      ensures r.Ok? ==> State() == Scan.ArithmeticAt(old(State())).value.1
    {
      var token: Token;
      var p1 := Scan.PeekChar(State(), 1);
      ghost var x := source[pos];
      assert currentChar == [x];
      if currentChar == "+" {
        assert x == '+';
        if p1 == "+" {
          token := Scan.NewTok(State(), Increment, currentChar + p1);
          ReadChar();
        } else if p1 == "=" {
          token := Scan.NewTok(State(), PlusEqual, currentChar + p1);
          ReadChar();
        } else {
          token := Scan.NewTok(State(), Plus, currentChar);
        }
      } else if currentChar == "." {
        assert x == '.';
        if p1 == "." && Scan.PeekChar(State(), 2) == "." {
          token := Scan.NewTok(State(), Ellipsis, currentChar + p1 + Scan.PeekChar(State(), 2));
          ReadChar();
          ReadChar();
        } else {
          token := Scan.NewTok(State(), Dot, currentChar);
        }
      } else if currentChar == "-" {
        assert x == '-';
        if p1 == ">" {
          token := Scan.NewTok(State(), RightArrow, currentChar + p1);
          ReadChar();
        } else if p1 == "-" {
          token := Scan.NewTok(State(), Decrement, currentChar + p1);
          ReadChar();
        } else if Scan.IsDigit(p1) {
          ReadChar();
          token := ReadNumber();
          token := token.(literal := "-" + token.literal);
        } else if p1 == "=" {
          token := Scan.NewTok(State(), DashEqual, currentChar + p1);
          ReadChar();
        } else {
          token := Scan.NewTok(State(), Dash, currentChar);
        }
      } else if currentChar == "*" {
        assert x == '*';
        if p1 == "=" {
          token := Scan.NewTok(State(), AsteriskEqual, currentChar + p1);
          ReadChar();
        } else if p1 == "*" {
          token := Scan.NewTok(State(), AsteriskAsterisk, currentChar + p1);
          ReadChar();
        } else {
          token := Scan.NewTok(State(), Asterisk, currentChar);
        }
      } else if currentChar == "/" {
        assert x == '/';
        if p1 == "=" {
          token := Scan.NewTok(State(), ForwardSlashEqual, currentChar + p1);
          ReadChar();
        } else {
          token := Scan.NewTok(State(), ForwardSlash, currentChar);
        }
      } else if currentChar == "%" {
        assert x == '%';
        if p1 == "=" {
          token := Scan.NewTok(State(), PercentEqual, currentChar + p1);
          ReadChar();
        } else {
          token := Scan.NewTok(State(), Percent, currentChar);
        }
      } else {
        assert x == '^';
        if p1 == "=" {
          token := Scan.NewTok(State(), CaretEqual, currentChar + p1);
          ReadChar();
        } else {
          token := Scan.NewTok(State(), BitwiseXor, currentChar);
        }
      }
      ReadChar();
      r := Ok(token);
    }

    /** The `=`, `>`, `<` and `!` branches. */
    method ComparisonToken() returns (r: Result<Token, Scan.LexError>)
      requires Valid() && 0 <= pos < |source| && Scan.ComparisonChar(source[pos])
      modifies this
      ensures Valid() && r == Scan.Strip(Scan.ComparisonAt(old(State())))
      ensures r.Ok? ==> State() == Scan.ComparisonAt(old(State())).value.1
    {
      var token: Token;
      var p1 := Scan.PeekChar(State(), 1);
      ghost var x := source[pos];
      assert currentChar == [x];
      if currentChar == "=" {
        assert x == '=';
        if p1 == "=" {
          token := Scan.NewTok(State(), EqualEqual, currentChar + p1);
          ReadChar();
        } else {
          token := Scan.NewTok(State(), Equals, currentChar);
        }
      } else if currentChar == ">" {
        assert x == '>';
        if p1 == "=" {
          token := Scan.NewTok(State(), GreaterThanOrEqual, currentChar + p1);
          ReadChar();
        } else if p1 == ">" {
          token := Scan.NewTok(State(), RightShift, currentChar + p1);
          ReadChar();
        } else {
          token := Scan.NewTok(State(), GreaterThan, currentChar);
        }
      } else if currentChar == "<" {
        assert x == '<';
        if p1 == "=" {
          token := Scan.NewTok(State(), LessThanOrEqual, currentChar + p1);
          ReadChar();
        } else if p1 == "<" {
          token := Scan.NewTok(State(), LeftShift, currentChar + p1);
          ReadChar();
        } else {
          token := Scan.NewTok(State(), LessThan, currentChar);
        }
      } else {
        assert x == '!';
        if p1 == "=" {
          token := Scan.NewTok(State(), NotEquals, currentChar + p1);
          ReadChar();
        } else {
          token := Scan.NewTok(State(), Illegal, currentChar);
        }
      }
      ReadChar();
      r := Ok(token);
    }

    /** The brace, parenthesis, `:`, `;`, `&`, `|`, `~` and `,` branches. */
    method PunctuationToken() returns (r: Result<Token, Scan.LexError>)
      requires Valid() && 0 <= pos < |source| && Scan.PunctuationChar(source[pos])
      modifies this
      ensures Valid() && r == Scan.Strip(Scan.PunctuationAt(old(State())))
      ensures r.Ok? ==> State() == Scan.PunctuationAt(old(State())).value.1
    {
      var token: Token;
      var p1 := Scan.PeekChar(State(), 1);
      ghost var x := source[pos];
      assert currentChar == [x];
      if currentChar == "{" {
        assert x == '{';
        token := Scan.NewTok(State(), LeftBrace, currentChar);
      } else if currentChar == "}" {
        assert x == '}';
        token := Scan.NewTok(State(), RightBrace, currentChar);
      } else if currentChar == "(" {
        assert x == '(';
        token := Scan.NewTok(State(), LeftParen, currentChar);
      } else if currentChar == ")" {
        assert x == ')';
        token := Scan.NewTok(State(), RightParen, currentChar);
      } else if currentChar == ":" {
        assert x == ':';
        token := Scan.NewTok(State(), Colon, currentChar);
      } else if currentChar == ";" {
        assert x == ';';
        token := Scan.NewTok(State(), Semicolon, currentChar);
      } else if currentChar == "&" {
        assert x == '&';
        if p1 == "&" {
          token := Scan.NewTok(State(), BitwiseAnd, currentChar + p1);
          ReadChar();
        } else {
          token := Scan.NewTok(State(), Illegal, currentChar);
        }
      } else if currentChar == "|" {
        assert x == '|';
        if p1 == "|" {
          token := Scan.NewTok(State(), BitwiseOr, currentChar + p1);
          ReadChar();
        } else {
          token := Scan.NewTok(State(), Illegal, currentChar);
        }
      } else if currentChar == "~" {
        assert x == '~';
        token := Scan.NewTok(State(), BitwiseNot, currentChar);
      } else {
        assert x == ',';
        token := Scan.NewTok(State(), Comma, currentChar);
      }
      ReadChar();
      r := Ok(token);
    }

    /** The final else of `nextToken`: a string, an identifier, a number, or an Illegal character. */
    method OtherToken() returns (r: Result<Token, Scan.LexError>)
      requires Valid() && 0 <= pos < |source|
      modifies this
      ensures Valid() && r == Scan.Strip(Scan.OtherToken(old(State())))
      ensures r.Ok? ==> State() == Scan.OtherToken(old(State())).value.1
    {
      var quote := Scan.IsString(State());
      if quote != "" {
        var str := ReadString(quote);
        if str.Err? {
          return Err(str.error);
        }
        return Ok(Scan.NewTok(State(), String, str.value));
      } else if Scan.IsLetter(currentChar) {
        var ident := ReadIdentifier();
        return Ok(Scan.NewTok(State(), Scan.LookupIdent(ident), ident));
      } else if Scan.IsDigit(currentChar) {
        var token := ReadNumber();
        return Ok(token);
      }
      var token := Scan.NewTok(State(), Illegal, currentChar);
      ReadChar();
      return Ok(token);
    }
  }

  // ---------------------------------------------------------------------
  // Source lines, as the error reporter reads them

  /** The text split at every line feed: a text with k line feeds has k + 1 lines. */
  function Lines(s: string): (ls: seq<string>)
    ensures |ls| >= 1
    decreases |s|
  {
    var i := Find(s, '\n', 0);
    FindSpec(s, '\n', 0);
    if i == -1 then [s] else [s[..i]] + Lines(s[i + 1..])
  }

  /** The lines joined back with line feeds. */
  function JoinLines(ls: seq<string>): string
    requires |ls| >= 1
  {
    if |ls| == 1 then ls[0] else ls[0] + "\n" + JoinLines(ls[1..])
  }

  /**
   * What `getStringOnLineNumber` computes, one line at a time: line `n`
   * counted from 1, without its line feed; a number below 1 gives the
   * first line, and a number past the last line gives "".
   */
  function NthLine(s: string, n: int): string
    decreases n
  {
    var i := Find(s, '\n', 0);
    FindSpec(s, '\n', 0);
    if n <= 1 then (if i == -1 then s else s[..i])
    else if i == -1 then ""
    else NthLine(s[i + 1..], n - 1)
  }

  /** `getStringOnLineNumber(str, lineNumber)`. */
  method GetStringOnLineNumber(str: string, lineNumber: int) returns (r: string)
    ensures r == NthLine(str, lineNumber)
  {
    var startPos := 0;
    var i := 1;
    while i < lineNumber
      invariant 0 <= startPos <= |str|
      invariant NthLine(str, lineNumber) == NthLine(str[startPos..], lineNumber - i + 1)
    {
      var found := Find(str, '\n', startPos);
      FindFromSuffix(str, startPos);
      FindSpec(str, '\n', startPos);
      if found == -1 {
        return "";
      }
      assert str[startPos..][found - startPos + 1..] == str[found + 1..];
      startPos := found + 1;
      i := i + 1;
    }
    var endPos := Find(str, '\n', startPos);
    FindFromSuffix(str, startPos);
    FindSpec(str, '\n', startPos);
    if endPos != -1 {
      assert str[startPos..][..endPos - startPos] == str[startPos..endPos];
      r := str[startPos..endPos];
    } else {
      r := str[startPos..];
    }
  }

  /** Searching from `from` is searching the suffix that starts there. */
  lemma FindFromSuffix(s: string, from: nat)
    requires from <= |s|
    ensures var k := Find(s[from..], '\n', 0);
            (k == -1 || 0 <= k < |s| - from) && Find(s, '\n', from) == (if k == -1 then -1 else from + k)
  {
    var t := s[from..];
    FindSpec(s, '\n', from);
    FindSpec(t, '\n', 0);
    var k := Find(t, '\n', 0);
    if k == -1 {
      forall j | from <= j < |s| ensures s[j] != '\n' {
        assert s[j] == t[j - from];
      }
    } else {
      assert s[from + k] == t[k];
      forall j | from <= j < from + k ensures s[j] != '\n' {
        assert s[j] == t[j - from];
      }
    }
  }

  /** `getNumberOfLines`: one more than the number of line feeds, which is the number of lines. */
  function GetNumberOfLines(s: string): (n: int)
    ensures n == |Lines(s)| && n >= 1
  {
    LinesCount(s);
    Scan.CountChar(s, '\n') + 1
  }

  /** A text without a line feed counts none. */
  lemma {:induction false} CountAbsent(s: string, x: char)
    requires x !in s
    ensures Scan.CountChar(s, x) == 0
    decreases |s|
  {
    if s != [] {
      assert x !in s[1..];
      CountAbsent(s[1..], x);
    }
  }

  /** The first line ends at the first line feed; the rest follows it. */
  lemma SplitAtFirst(s: string, i: int)
    requires i == Find(s, '\n', 0) && i != -1
    ensures 0 <= i < |s| && s == s[..i] + "\n" + s[i + 1..] && '\n' !in s[..i]
  {
    FindInRange(s, '\n', 0);
    SplitAround(s, i);
    assert [s[i]] == "\n";
    NoLineFeedBefore(s, i);
  }

  lemma SplitAround(s: string, i: int)
    requires 0 <= i < |s|
    ensures s == s[..i] + [s[i]] + s[i + 1..]
  {
  }

  lemma NoLineFeedBefore(s: string, i: int)
    requires i == Find(s, '\n', 0) && i != -1
    ensures 0 <= i <= |s| && '\n' !in s[..i]
  {
    FindSpec(s, '\n', 0);
    var a := s[..i];
    assert forall j :: 0 <= j < |a| ==> a[j] == s[j];
  }

  lemma {:induction false} LinesCount(s: string)
    ensures |Lines(s)| == Scan.CountChar(s, '\n') + 1
    decreases |s|
  {
    var i := Find(s, '\n', 0);
    FindSpec(s, '\n', 0);
    if i == -1 {
      CountAbsent(s, '\n');
    } else {
      SplitAtFirst(s, i);
      LinesCount(s[i + 1..]);
      CountAbsent(s[..i], '\n');
      Scan.CountCharSplit(s[..i] + "\n", s[i + 1..], '\n');
      Scan.CountCharSplit(s[..i], "\n", '\n');
    }
  }

  /** No line holds a line feed. */
  lemma {:induction false} LinesHaveNoLineFeed(s: string)
    ensures forall k :: 0 <= k < |Lines(s)| ==> '\n' !in Lines(s)[k]
    decreases |s|
  {
    var i := Find(s, '\n', 0);
    FindSpec(s, '\n', 0);
    if i != -1 {
      SplitAtFirst(s, i);
      LinesHaveNoLineFeed(s[i + 1..]);
    }
  }

  /** Joining the lines with line feeds gives back the text. */
  lemma {:induction false} JoinLinesInverts(s: string)
    ensures JoinLines(Lines(s)) == s
    decreases |s|
  {
    var i := Find(s, '\n', 0);
    FindSpec(s, '\n', 0);
    if i != -1 {
      SplitAtFirst(s, i);
      JoinLinesInverts(s[i + 1..]);
      var ls := Lines(s);
      assert ls[1..] == Lines(s[i + 1..]);
    }
  }

  /**
   * `getStringOnLineNumber(s, n)` is line n of the text (lines counted from
   * 1, a number below 1 meaning the first), and "" when the text has fewer
   * than n lines.
   */
  lemma {:induction false} NthLineIsLine(s: string, n: int)
    ensures NthLine(s, n) == if n <= 1 then Lines(s)[0] else if n <= |Lines(s)| then Lines(s)[n - 1] else ""
    decreases n
  {
    var i := Find(s, '\n', 0);
    FindInRange(s, '\n', 0);
    if i == -1 {
      assert Lines(s) == [s];
    } else {
      var ls := Lines(s);
      assert ls == [s[..i]] + Lines(s[i + 1..]);
      if n > 1 {
        NthLineIsLine(s[i + 1..], n - 1);
        assert NthLine(s, n) == NthLine(s[i + 1..], n - 1);
        if n <= |ls| {
          assert ls[n - 1] == Lines(s[i + 1..])[n - 2];
        }
      }
    }
  }

  /** A search that succeeds lands inside the text. */
  lemma {:induction false} FindInRange(s: string, c: char, from: nat)
    ensures Find(s, c, from) == -1 || (from <= Find(s, c, from) < |s| && s[Find(s, c, from)] == c)
    decreases |s| - from
  {
    if from < |s| && s[from] != c {
      FindInRange(s, c, from + 1);
    }
  }
}
