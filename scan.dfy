/**
 * The character lexer as pure functions on a cursor value.
 *
 * A `Cursor` is the lexer's state (`source`, `pos`, `lineNo`, `colNo`);
 * the current character is not stored but derived (`Current`), which is
 * what the class in module Lexing keeps in its `currentChar` field.
 * Characters are strings of length 0 or 1, as in the lexer, where the
 * empty string stands for "past the end of the source".
 */
module Scan {
  import opened Wrappers
  import opened Tokens

  datatype Cursor = Cursor(source: string, pos: int, lineNo: int, colNo: int)

  /** The one-character string at `i`, or "" outside the source. */
  function CharAt(s: string, i: int): (r: string)
    ensures |r| <= 1
    ensures r == "" <==> !(0 <= i < |s|)
    ensures 0 <= i < |s| ==> r[0] == s[i]
  {
    if 0 <= i < |s| then [s[i]] else ""
  }

  function Current(c: Cursor): string { CharAt(c.source, c.pos) }

  /** Advances the position and the column by one. */
  function ReadChar(c: Cursor): (r: Cursor)
    ensures r.source == c.source && r.lineNo == c.lineNo
    ensures r.pos == c.pos + 1 && r.colNo == c.colNo + 1
  {
    c.(pos := c.pos + 1, colNo := c.colNo + 1)
  }

  /** Looks `offset` characters ahead; "" at or past the end. */
  function PeekChar(c: Cursor, offset: int): (r: string)
    requires c.pos + offset >= 0
    ensures |r| <= 1
    ensures r == "" <==> c.pos + offset >= |c.source|
    ensures r != "" ==> r[0] == c.source[c.pos + offset]
  {
    if c.pos + offset >= |c.source| then "" else [c.source[c.pos + offset]]
  }

  /** A token ending at the cursor's column and line. */
  function NewTok(c: Cursor, kind: TokenType, literal: string): Token
  {
    NewToken(kind, literal, c.lineNo, c.colNo)
  }

  // ---------------------------------------------------------------------
  // Character classes, by std::string comparison

  /** std::string's `<`: lexicographic on characters, a proper prefix first. */
  predicate StrLess(a: string, b: string)
  {
    if |b| == 0 then false
    else if |a| == 0 then true
    else if a[0] != b[0] then a[0] < b[0]
    else StrLess(a[1..], b[1..])
  }

  /** `character >= "0" && character <= "9"` */
  predicate IsDigit(ch: string) { !StrLess(ch, "0") && !StrLess("9", ch) }

  /** `(character >= "a" && character <= "z") || (... "A" ... "Z") || character == "_"` */
  predicate IsLetter(ch: string)
  {
    (!StrLess(ch, "a") && !StrLess("z", ch)) || (!StrLess(ch, "A") && !StrLess("Z", ch)) || ch == "_"
  }

  lemma StrLessSingle(ch: string, d: char)
    requires |ch| <= 1
    ensures StrLess(ch, [d]) <==> (ch == "" || ch[0] < d)
    ensures StrLess([d], ch) <==> (ch != "" && d < ch[0])
  {
    if ch != "" {
      assert ch[1..] == [];
      assert [d][1..] == [];
    }
  }

  /** On the lexer's one-character strings, IsDigit is exactly a decimal digit. */
  lemma IsDigitIsDecimal(ch: string)
    requires |ch| <= 1
    ensures IsDigit(ch) <==> (ch != "" && IsDecimalDigit(ch[0]))
  {
    StrLessSingle(ch, '0');
    StrLessSingle(ch, '9');
  }

  /** On the lexer's one-character strings, IsLetter is an ASCII letter or '_'. */
  lemma IsLetterIsAlpha(ch: string)
    requires |ch| <= 1
    ensures IsLetter(ch) <==> (ch != "" && ('a' <= ch[0] <= 'z' || 'A' <= ch[0] <= 'Z' || ch[0] == '_'))
  {
    StrLessSingle(ch, 'a');
    StrLessSingle(ch, 'z');
    StrLessSingle(ch, 'A');
    StrLessSingle(ch, 'Z');
  }

  lemma EmptyIsNeither()
    ensures !IsDigit("") && !IsLetter("")
  {
  }

  /** A character the identifier reader consumes. */
  predicate IdentChar(ch: string) { IsLetter(ch) || IsDigit(ch) }

  /** A character the number reader consumes. */
  predicate NumberChar(ch: string) { IsDigit(ch) || ch == "." }

  // ---------------------------------------------------------------------
  // Numbers

  /** Number of `x` characters in `s`. */
  function CountChar(s: string, x: char): (n: nat)
    ensures n <= |s|
  {
    if s == [] then 0 else (if s[0] == x then 1 else 0) + CountChar(s[1..], x)
  }

  /** The source text from `c` up to `c'`, when `c'` is at or after `c` within the source. */
  function Consumed(c: Cursor, c': Cursor): string
  {
    if 0 <= c.pos <= c'.pos <= |c.source| then c.source[c.pos..c'.pos] else ""
  }

  function FinishNumber(c: Cursor, dots: nat, number: string): (Token, Cursor)
  {
    if dots == 0 then (NewTok(c, Integer, number), c) else (NewTok(c, Float, number), c)
  }

  /** The loop of `_readNumber`, with `dots` dots already counted in `number`. */
  function ReadNumberFrom(c: Cursor, dots: nat, number: string): (Token, Cursor)
    decreases |c.source| - c.pos
  {
    var ch := Current(c);
    if !NumberChar(ch) then FinishNumber(c, dots, number)
    else if ch == "." && dots + 1 > 1 then (NewTok(c, Illegal, ch), c)
    else
      var dots' := if ch == "." then dots + 1 else dots;
      var c' := ReadChar(c);
      if Current(c') == "" then FinishNumber(c', dots', number + ch)
      else ReadNumberFrom(c', dots', number + ch)
  }

  function ReadNumber(c: Cursor): (Token, Cursor) { ReadNumberFrom(c, 0, "") }

  /** Where the number loop leaves the cursor: after a run of digits and dots, on the same line. */
  predicate NumberMoves(c: Cursor, c': Cursor)
  {
    0 <= c.pos <= c'.pos <= |c.source| && c'.source == c.source && c'.lineNo == c.lineNo
    && c'.colNo == c.colNo + (c'.pos - c.pos)
    && (forall j :: c.pos <= j < c'.pos ==> NumberChar(CharAt(c.source, j)))
  }

  lemma {:induction false} ReadNumberFromMoves(c: Cursor, dots: nat, number: string)
    requires 0 <= c.pos <= |c.source|
    ensures NumberMoves(c, ReadNumberFrom(c, dots, number).1)
    decreases |c.source| - c.pos
  {
    var ch := Current(c);
    if NumberChar(ch) && !(ch == "." && dots + 1 > 1) {
      var dots' := if ch == "." then dots + 1 else dots;
      var c1 := ReadChar(c);
      if Current(c1) != "" {
        ReadNumberFromMoves(c1, dots', number + ch);
      }
    }
  }

  /** What the number loop returns, in terms of the text it consumed. */
  predicate NumberToken(c: Cursor, dots: nat, number: string, t: Token, c': Cursor)
  {
    var read := Consumed(c, c');
    var total := dots + CountChar(read, '.');
    t == NewTok(c', t.kind, t.literal)
    && (t.kind.Integer? || t.kind.Float? || t.kind.Illegal?)
    && (!t.kind.Illegal? ==> t.literal == number + read && !NumberChar(Current(c')))
    && (t.kind.Integer? <==> total == 0)
    && (t.kind.Float? ==> total == 1)
    && (t.kind.Illegal? ==> t.literal == "." && Current(c') == "." && total == 1)
  }

  /** One step of the number loop preserves the description of its outcome. */
  lemma NumberTokenStep(c: Cursor, dots: nat, number: string, t: Token, c': Cursor)
    requires 0 <= c.pos < |c.source| && c.pos + 1 <= c'.pos <= |c.source| && c'.source == c.source
    requires NumberChar(Current(c)) && !(Current(c) == "." && dots + 1 > 1)
    requires NumberToken(ReadChar(c), if Current(c) == "." then dots + 1 else dots, number + Current(c), t, c')
    ensures NumberToken(c, dots, number, t, c')
  {
    var ch := Current(c);
    var c1 := ReadChar(c);
    assert ch == [c.source[c.pos]];
    var rest := Consumed(c1, c');
    assert Consumed(c, c') == ch + rest;
    CountCharSplit(ch, rest, '.');
    assert CountChar(ch, '.') == if ch == "." then 1 else 0;
    assert number + Consumed(c, c') == (number + ch) + rest;
  }

  lemma {:induction false} ReadNumberFromToken(c: Cursor, dots: nat, number: string)
    requires 0 <= c.pos <= |c.source| && dots <= 1
    ensures var (t, c') := ReadNumberFrom(c, dots, number); NumberToken(c, dots, number, t, c')
    decreases |c.source| - c.pos
  {
    var ch := Current(c);
    if NumberChar(ch) && !(ch == "." && dots + 1 > 1) {
      var dots' := if ch == "." then dots + 1 else dots;
      var c1 := ReadChar(c);
      if Current(c1) == "" {
        assert ch == [c.source[c.pos]];
        assert c.source[c.pos..c1.pos] == ch;
        assert CountChar(ch, '.') == if ch == "." then 1 else 0;
        EmptyIsNeither();
      } else {
        ReadNumberFromToken(c1, dots', number + ch);
        ReadNumberFromMoves(c1, dots', number + ch);
        var (t, c') := ReadNumberFrom(c1, dots', number + ch);
        NumberTokenStep(c, dots, number, t, c');
      }
    }
  }

  /**
   * `_readNumber`: an Integer when no dot was read, a Float when exactly
   * one was, and an Illegal "." at a second dot. An Integer or Float
   * literal is exactly the characters consumed, and reading stops at the
   * first character that is neither a digit nor a dot.
   */
  lemma ReadNumberSpec(c: Cursor)
    requires 0 <= c.pos <= |c.source|
    ensures var (t, c') := ReadNumber(c);
            NumberMoves(c, c') && NumberToken(c, 0, "", t, c')
  {
    ReadNumberFromMoves(c, 0, "");
    ReadNumberFromToken(c, 0, "");
  }

  /** Started at a digit, `_readNumber` consumes at least that digit. */
  lemma ReadNumberAtDigit(c: Cursor)
    requires 0 <= c.pos && IsDigit(Current(c))
    ensures var (t, c') := ReadNumber(c);
            c.pos < c'.pos <= |c.source| && (t.kind.Integer? || t.kind.Float? || t.kind.Illegal?)
  {
    IsDigitIsDecimal(Current(c));
    var c1 := ReadChar(c);
    assert Current(c) != "." && NumberChar(Current(c));
    assert ReadNumber(c) == if Current(c1) == "" then FinishNumber(c1, 0, "" + Current(c))
                            else ReadNumberFrom(c1, 0, "" + Current(c));
    if Current(c1) != "" {
      ReadNumberFromMoves(c1, 0, "" + Current(c));
      ReadNumberFromToken(c1, 0, "" + Current(c));
    }
  }
  // Identifiers

  /** The loop of `_readIdentifier`: the identifier read and the cursor after it. */
  function ReadIdentifier(c: Cursor): (r: (string, Cursor))
    decreases |c.source| - c.pos
  {
    var ch := Current(c);
    if IdentChar(ch) then
      assert ch != "" by { EmptyIsNeither(); }
      var (s, c') := ReadIdentifier(ReadChar(c));
      (ch + s, c')
    else ("", c)
  }

  /**
   * `_readIdentifier` consumes the maximal run of letters, digits and '_'
   * starting at the cursor, and returns exactly that run.
   */
  lemma {:induction false} ReadIdentifierSpec(c: Cursor)
    requires 0 <= c.pos <= |c.source|
    ensures var (s, c') := ReadIdentifier(c);
            c.pos <= c'.pos <= |c.source| && s == c.source[c.pos..c'.pos]
            && c'.source == c.source && c'.lineNo == c.lineNo && c'.colNo == c.colNo + |s|
            && (forall j :: c.pos <= j < c'.pos ==> IdentChar(CharAt(c.source, j)))
            && !IdentChar(Current(c'))
    decreases |c.source| - c.pos
  {
    var ch := Current(c);
    if IdentChar(ch) {
      EmptyIsNeither();
      ReadIdentifierSpec(ReadChar(c));
      var (s, c') := ReadIdentifier(ReadChar(c));
      assert c.source[c.pos..c'.pos] == ch + c.source[c.pos + 1..c'.pos];
    }
  }

  // ---------------------------------------------------------------------
  // Whitespace and comments

  predicate IsBlank(ch: string) { ch == " " || ch == "\t" || ch == "\n" || ch == "\r" }

  /** The first loop of `_skipWhitespace`; a line feed bumps the line and zeroes the column. */
  function SkipBlanks(c: Cursor): (r: Cursor)
    ensures r.source == c.source && r.pos >= c.pos
    decreases |c.source| - c.pos
  {
    var ch := Current(c);
    if IsBlank(ch) then
      var c1 := if ch == "\n" then c.(lineNo := c.lineNo + 1, colNo := 0) else c;
      SkipBlanks(ReadChar(c1))
    else c
  }

  /** The comment loop: advances to the next line feed or the end. */
  function SkipComment(c: Cursor): (r: Cursor)
    ensures r.source == c.source && r.pos >= c.pos
    decreases |c.source| - c.pos
  {
    var ch := Current(c);
    if ch != "\n" && ch != "" then SkipComment(ReadChar(c)) else c
  }

  /** `_skipWhitespace`: blanks, then a `#` comment and, recursively, more. */
  function SkipWhitespace(c: Cursor): (r: Cursor)
    ensures r.source == c.source && r.pos >= c.pos
    decreases |c.source| - c.pos
  {
    var c1 := SkipBlanks(c);
    if Current(c1) == "#" then SkipWhitespace(SkipComment(ReadChar(c1))) else c1
  }

  /** Line feeds in the text between two cursors. */
  function LinesIn(c: Cursor, r: Cursor): nat { CountChar(Consumed(c, r), '\n') }

  /** The number of characters after the last line feed of `s` (all of `s` when it has none). */
  function SinceLineFeed(s: string): (n: nat)
    ensures n <= |s|
    ensures n < |s| ==> s[|s| - 1 - n] == '\n'
    ensures forall k :: |s| - n <= k < |s| ==> s[k] != '\n'
    decreases |s|
  {
    if s == [] then 0
    else if s[|s| - 1] == '\n' then 0
    else SinceLineFeed(s[..|s| - 1]) + 1
  }

  /**
   * How skipping from `c` to `r` moves the counters: the line goes up by
   * the line feeds skipped; when there were none, the column moves with
   * the position, and otherwise the last line feed set the column to 0
   * and each character read after it (the line feed included) added one.
   */
  predicate SkipCounters(c: Cursor, r: Cursor)
  {
    0 <= c.pos <= r.pos <= |c.source| && r.source == c.source
    && r.lineNo == c.lineNo + LinesIn(c, r)
    && (LinesIn(c, r) == 0 ==> r.colNo == c.colNo + (r.pos - c.pos))
    && (LinesIn(c, r) > 0 ==> r.colNo == 1 + SinceLineFeed(Consumed(c, r)))
  }

  lemma {:induction false} CountCharSplit(a: string, b: string, x: char)
    ensures CountChar(a + b, x) == CountChar(a, x) + CountChar(b, x)
  {
    if a != [] {
      assert (a + b)[0] == a[0];
      assert (a + b)[1..] == a[1..] + b;
      CountCharSplit(a[1..], b, x);
    } else {
      assert a + b == b;
    }
  }

  /** After a concatenation, the last line feed is the second part's when it has one. */
  lemma {:induction false} SinceLineFeedSplit(a: string, b: string)
    ensures SinceLineFeed(a + b)
            == if CountChar(b, '\n') > 0 then SinceLineFeed(b) else SinceLineFeed(a) + |b|
    decreases |b|
  {
    if b == [] {
      assert a + b == a;
    } else {
      var b', x := b[..|b| - 1], b[|b| - 1];
      assert b == b' + [x];
      assert (a + b)[..|a + b| - 1] == a + b';
      assert (a + b)[|a + b| - 1] == x;
      CountCharSplit(b', [x], '\n');
      assert CountChar([x], '\n') == if x == '\n' then 1 else 0;
      if x != '\n' {
        SinceLineFeedSplit(a, b');
      }
    }
  }

  /** Counters compose along consecutive stretches of skipped text. */
  lemma SkipCountersCompose(c: Cursor, m: Cursor, r: Cursor)
    requires SkipCounters(c, m) && SkipCounters(m, r)
    ensures SkipCounters(c, r)
  {
    var a, b := Consumed(c, m), Consumed(m, r);
    assert a == c.source[c.pos..m.pos] && b == c.source[m.pos..r.pos];
    assert Consumed(c, r) == c.source[c.pos..r.pos];
    assert c.source[c.pos..r.pos] == a + b;
    CountCharSplit(a, b, '\n');
    SinceLineFeedSplit(a, b);
    assert LinesIn(c, r) == LinesIn(c, m) + LinesIn(m, r);
  }

  /** Reading one character `ch` moves the counters as skipping does. */
  lemma ReadOneCounters(c: Cursor)
    requires 0 <= c.pos < |c.source| && c.source[c.pos] != '\n'
    ensures SkipCounters(c, ReadChar(c))
  {
    assert Consumed(c, ReadChar(c)) == [c.source[c.pos]];
  }

  /** A line feed: the line goes up by one and the character after it is read at column 1. */
  lemma ReadNewlineCounters(c: Cursor)
    requires 0 <= c.pos < |c.source| && c.source[c.pos] == '\n'
    ensures var c2 := ReadChar(c.(lineNo := c.lineNo + 1, colNo := 0));
            SkipCounters(c, c2) && LinesIn(c, c2) == 1
  {
    var c2 := ReadChar(c.(lineNo := c.lineNo + 1, colNo := 0));
    assert Consumed(c, c2) == "\n";
    assert SinceLineFeed("\n") == 0;
  }

  lemma {:induction false} SkipBlanksSpec(c: Cursor)
    requires 0 <= c.pos <= |c.source|
    ensures var r := SkipBlanks(c);
            SkipCounters(c, r) && !IsBlank(Current(r))
    decreases |c.source| - c.pos
  {
    var ch := Current(c);
    if IsBlank(ch) {
      var c1 := if ch == "\n" then c.(lineNo := c.lineNo + 1, colNo := 0) else c;
      var c2 := ReadChar(c1);
      SkipBlanksSpec(c2);
      var r := SkipBlanks(c2);
      if ch == "\n" {
        ReadNewlineCounters(c);
      } else {
        ReadOneCounters(c);
      }
      SkipCountersCompose(c, c2, r);
    } else {
      assert Consumed(c, c) == [];
    }
  }

  lemma {:induction false} SkipCommentSpec(c: Cursor)
    requires 0 <= c.pos <= |c.source|
    ensures var r := SkipComment(c);
            SkipCounters(c, r) && LinesIn(c, r) == 0 && (Current(r) == "\n" || Current(r) == "")
    decreases |c.source| - c.pos
  {
    var ch := Current(c);
    if ch != "\n" && ch != "" {
      var c2 := ReadChar(c);
      SkipCommentSpec(c2);
      ReadOneCounters(c);
      SkipCountersCompose(c, c2, SkipComment(c2));
      var r := SkipComment(c2);
      assert Consumed(c, r) == Consumed(c, c2) + Consumed(c2, r);
      CountCharSplit(Consumed(c, c2), Consumed(c2, r), '\n');
    } else {
      assert Consumed(c, c) == [];
    }
  }

  /**
   * After `_skipWhitespace` the current character is none of space, tab,
   * CR, LF and '#'; the line counter went up by the number of line feeds
   * skipped (comments included), and when none was skipped the column
   * moved with the position.
   */
  lemma {:induction false} SkipWhitespaceSpec(c: Cursor)
    requires 0 <= c.pos <= |c.source|
    ensures var r := SkipWhitespace(c);
            SkipCounters(c, r) && !IsBlank(Current(r)) && Current(r) != "#"
    decreases |c.source| - c.pos
  {
    var c1 := SkipBlanks(c);
    SkipBlanksSpec(c);
    if Current(c1) == "#" {
      var c2 := ReadChar(c1);
      ReadOneCounters(c1);
      SkipCommentSpec(c2);
      var c3 := SkipComment(c2);
      SkipWhitespaceSpec(c3);
      SkipCountersCompose(c1, c2, c3);
      SkipCountersCompose(c1, c3, SkipWhitespace(c3));
      SkipCountersCompose(c, c1, SkipWhitespace(c3));
    }
  }

  /** Two blanks after a line feed: line 2, and the `x` is read at column 3. */
  lemma SkipBlanksAfterLineFeed()
    ensures SkipBlanks(Cursor("a\n  x", 1, 1, 1)) == Cursor("a\n  x", 4, 2, 3)
  {
  }

  // ---------------------------------------------------------------------
  // Keywords

  /** The spellings `_lookupIdent` recognises, in its order, with their kinds. */
  const Keywords: seq<(string, TokenType)> := [
    ("and", And), ("or", Or), ("not", Not), ("def", Def), ("return", Return),
    ("if", If), ("else", Else), ("elif", ElIf), ("is", Is), ("while", While),
    ("for", For), ("in", In), ("break", Break), ("continue", Continue),
    ("True", True), ("False", False), ("MayBe", Maybe), ("None", TokenType.None)
  ]

  /**
   * `_lookupIdent`. The source compares against the spellings one after
   * another; spellings of different lengths never match, so the chain is
   * grouped here by length without changing its result.
   */
  function LookupIdent(s: string): TokenType
  {
    if |s| == 2 then
      (if s == "or" then Or else if s == "if" then If else if s == "is" then Is
       else if s == "in" then In else Identifier)
    else if |s| == 3 then
      (if s == "and" then And else if s == "not" then Not else if s == "def" then Def
       else if s == "for" then For else Identifier)
    else if |s| == 4 then
      (if s == "else" then Else else if s == "elif" then ElIf else if s == "True" then True
       else if s == "None" then TokenType.None else Identifier)
    else if |s| == 5 then
      (if s == "while" then While else if s == "break" then Break else if s == "False" then False
       else if s == "MayBe" then Maybe else Identifier)
    else if |s| == 6 then (if s == "return" then Return else Identifier)
    else if |s| == 8 then (if s == "continue" then Continue else Identifier)
    else Identifier
  }

  /** Every listed spelling maps to its own kind (spellings of two and three letters). */
  lemma ShortKeywords()
    ensures LookupIdent("or").Or? && LookupIdent("if").If? && LookupIdent("is").Is?
    ensures LookupIdent("in").In?
    ensures LookupIdent("and").And? && LookupIdent("not").Not? && LookupIdent("def").Def?
    ensures LookupIdent("for").For?
  {
  }

  /** ... of four letters. */
  lemma MiddleKeywords()
    ensures LookupIdent("else").Else? && LookupIdent("elif").ElIf? && LookupIdent("True").True?
    ensures LookupIdent("None").None?
  {
  }

  /** ... of five letters and more. */
  lemma LongKeywords()
    ensures LookupIdent("while").While? && LookupIdent("break").Break?
    ensures LookupIdent("False").False? && LookupIdent("MayBe").Maybe?
    ensures LookupIdent("return").Return? && LookupIdent("continue").Continue?
  {
  }

  /** Any other identifier maps to `Identifier`. */
  lemma OnlyKeywordsRecognised(s: string)
    ensures LookupIdent(s) != Identifier ==> (s, LookupIdent(s)) in Keywords
  {
  }

  /** Matching is case-sensitive: other spellings are plain identifiers. */
  lemma LookupIdentCaseSensitive()
    ensures LookupIdent("true").Identifier? && LookupIdent("false").Identifier?
    ensures LookupIdent("Maybe").Identifier? && LookupIdent("none").Identifier?
    ensures LookupIdent("DEF").Identifier? && LookupIdent("MayBe").Maybe?
  {
  }

  // ---------------------------------------------------------------------
  // Strings

  const TripleDouble: string := "\"\"\""
  const TripleSingle: string := "'''"

  predicate IsTriple(quote: string) { quote == TripleDouble || quote == TripleSingle }

  /** `_isString`: the delimiter starting at the cursor, or "". */
  function IsString(c: Cursor): (q: string)
    requires c.pos >= 0
  {
    var ch := Current(c);
    if ch == "\"" then
      (if PeekChar(c, 1) == "\"" then (if PeekChar(c, 2) == "\"" then TripleDouble else "\"") else "\"")
    else if ch == "'" then
      (if PeekChar(c, 1) == "'" then (if PeekChar(c, 2) == "'" then TripleSingle else "'") else "'")
    else ""
  }

  /**
   * `_isString` returns a triple delimiter when three identical quotes
   * start at the cursor, otherwise the quote under the cursor, otherwise "".
   */
  lemma IsStringSpec(c: Cursor)
    requires c.pos >= 0
    ensures var q := IsString(c);
            var ch := Current(c);
            (q == TripleDouble <==> ch == "\"" && PeekChar(c, 1) == "\"" && PeekChar(c, 2) == "\"")
            && (q == TripleSingle <==> ch == "'" && PeekChar(c, 1) == "'" && PeekChar(c, 2) == "'")
            && (q == "" <==> ch != "\"" && ch != "'")
            && (q != "" && !IsTriple(q) ==> q == ch)
  {
  }

  /** The value and the echoed literal text of an escape `\x`, for `x` the character after the backslash. */
  function DecodeEscape(x: string): (r: (string, string))
    ensures |r.0| >= 1 && |r.1| >= 1 && r.1[0] == '\\'
  {
    if x == "\"" then ("\"", "\\\"")
    else if x == "'" then ("'", "\\'")
    else if x == "n" then ("\n", "\\n")
    else if x == "t" then ("\t", "\\t")
    else if x == "r" then ("\r", "\\r")
    else if x == "b" then ("\U{8}", "\\b")
    else if x == "f" then ("\U{C}", "\\f")
    else if x == "v" then ("\U{B}", "\\v")
    else if x == "\\" then ("\\", "\\\\")
    else ("\\" + x, "\\" + x)
  }

  /**
   * The nine recognised escapes decode to one character; any other keeps
   * the backslash and the character.
   */
  lemma DecodeEscapeSpec(x: string)
    requires |x| <= 1
    ensures var (v, _) := DecodeEscape(x);
            (x in {"\"", "'", "n", "t", "r", "b", "f", "v", "\\"} ==> |v| == 1)
            && (x !in {"\"", "'", "n", "t", "r", "b", "f", "v", "\\"} ==> v == "\\" + x)
  {
  }

  const UnterminatedMessage: string := "Unterminated string literal"

  /** The syntax error `_readString` raises, which ends the program. */
  datatype LexError = LexError(message: string, at: Token, suggestedFix: string)

  function Unterminated(c: Cursor, quote: string, literal: string, stCol: int): LexError
  {
    LexError(UnterminatedMessage, NewToken(String, literal, c.lineNo, stCol),
             "Add a closing " + quote + " to terminate the string literal")
  }

  /**
   * The `while(true)` loop of `_readString`. `str` is the decoded value so
   * far, `literal` the echoed source text (for the error), `stCol` the
   * column of the opening quote.
   */
  function ReadStringFrom(c: Cursor, quote: string, str: string, literal: string, stCol: int)
    : Result<(string, Cursor), LexError>
    decreases |c.source| - c.pos
  {
    var c1 := ReadChar(c);
    var ch := Current(c1);
    if ch == "" then Err(Unterminated(c1, quote, literal, stCol))
    else if ch == "\n" && !IsTriple(quote) then Err(Unterminated(c1, quote, literal, stCol))
    else if ch == "\\" then
      var c2 := ReadChar(c1);
      var (v, l) := DecodeEscape(Current(c2));
      ReadStringFrom(c2, quote, str + v, literal + l, stCol)
    else if ch == quote then Ok((str, ReadChar(c1)))
    else if ch + PeekChar(c1, 1) + PeekChar(c1, 2) == quote then Ok((str, ReadChar(ReadChar(ReadChar(c1)))))
    else ReadStringFrom(c1, quote, str + ch, literal + ch, stCol)
  }

  /** `_readString(quote)` with the cursor on the opening quote. */
  function ReadString(c: Cursor, quote: string): Result<(string, Cursor), LexError>
  {
    var c0 := if IsTriple(quote) then ReadChar(ReadChar(c)) else c;
    ReadStringFrom(c0, quote, "", quote, c.colNo)
  }

  /** A source character the string loop appends unchanged. */
  predicate Ordinary(s: string, j: int, quote: string)
  {
    0 <= j < |s| && s[j] != '\\' && [s[j]] != quote && (s[j] == '\n' ==> IsTriple(quote))
    && [s[j]] + CharAt(s, j + 1) + CharAt(s, j + 2) != quote
  }

  /** One ordinary character is appended to both buffers. */
  lemma OrdinaryStep(c: Cursor, quote: string, str: string, literal: string, stCol: int)
    requires c.pos >= -1 && Ordinary(c.source, c.pos + 1, quote)
    ensures var ch := [c.source[c.pos + 1]];
            ReadStringFrom(c, quote, str, literal, stCol) == ReadStringFrom(ReadChar(c), quote, str + ch, literal + ch, stCol)
  {
    var c1 := ReadChar(c);
    var ch := Current(c1);
    assert ch == [c.source[c.pos + 1]];
    assert PeekChar(c1, 1) == CharAt(c.source, c.pos + 2);
    assert PeekChar(c1, 2) == CharAt(c.source, c.pos + 3);
  }

  /** The cursor on the last character before `k`, as the string loop leaves it. */
  function LastBefore(c: Cursor, k: int): Cursor
  {
    c.(pos := k - 1, colNo := c.colNo + (k - 1 - c.pos))
  }

  /**
   * Ordinary characters are appended to both buffers unchanged and in
   * order; the loop then carries on from the last of them.
   */
  lemma {:induction false} OrdinaryRun(c: Cursor, quote: string, str: string, literal: string, stCol: int, k: int)
    requires 0 <= c.pos < k <= |c.source|
    requires forall j :: c.pos < j < k ==> Ordinary(c.source, j, quote)
    ensures var run := c.source[c.pos + 1..k];
            ReadStringFrom(c, quote, str, literal, stCol) == ReadStringFrom(LastBefore(c, k), quote, str + run, literal + run, stCol)
    decreases k - c.pos
  {
    if c.pos + 1 < k {
      var ch := [c.source[c.pos + 1]];
      var c1 := ReadChar(c);
      assert c1.source == c.source && c1.pos == c.pos + 1;
      var run := c.source[c.pos + 1..k];
      var rest := c1.source[c1.pos + 1..k];
      assert LastBefore(c1, k) == LastBefore(c, k);
      assert run == ch + rest;
      assert (str + ch) + rest == str + run;
      assert (literal + ch) + rest == literal + run;
      OrdinaryStep(c, quote, str, literal, stCol);
      OrdinaryRun(c1, quote, str + ch, literal + ch, stCol, k);
    } else {
      assert c.source[c.pos + 1..k] == [];
      assert str + [] == str && literal + [] == literal;
      assert LastBefore(c, k) == c;
    }
  }

  /**
   * A single-quoted or double-quoted string of ordinary characters: the
   * value excludes both delimiters and the closing one is consumed.
   */
  lemma PlainQuotedString(c: Cursor, k: int)
    requires 0 <= c.pos < k < |c.source|
    requires Current(c) == "\"" || Current(c) == "'"
    requires forall j :: c.pos < j < k ==> Ordinary(c.source, j, Current(c))
    requires [c.source[k]] == Current(c)
    ensures ReadString(c, Current(c)) == Ok((c.source[c.pos + 1..k], c.(pos := k + 1, colNo := c.colNo + (k + 1 - c.pos))))
  {
    var q := Current(c);
    OrdinaryRun(c, q, "", q, c.colNo, k);
    var run := c.source[c.pos + 1..k];
    var last := LastBefore(c, k);
    assert "" + run == run;
    assert Current(ReadChar(last)) == q;
  }

  /** Three closing quotes end a triple-quoted string and are all consumed. */
  lemma TripleClose(c: Cursor, quote: string, str: string, literal: string, stCol: int)
    requires IsTriple(quote) && 0 <= c.pos && c.pos + 3 < |c.source|
    requires [c.source[c.pos + 1]] + [c.source[c.pos + 2]] + [c.source[c.pos + 3]] == quote
    ensures ReadStringFrom(c, quote, str, literal, stCol) == Ok((str, c.(pos := c.pos + 4, colNo := c.colNo + 4)))
  {
    var c1 := ReadChar(c);
    var w := [c.source[c.pos + 1]] + [c.source[c.pos + 2]] + [c.source[c.pos + 3]];
    assert w[0] == c.source[c.pos + 1];
    assert c.source[c.pos + 1] == '"' || c.source[c.pos + 1] == '\'';
    assert Current(c1) == [c.source[c.pos + 1]];
    assert PeekChar(c1, 1) == [c.source[c.pos + 2]];
    assert PeekChar(c1, 2) == [c.source[c.pos + 3]];
    assert Current(c1) != quote;
  }

  /**
   * A triple-quoted string of ordinary characters (line feeds allowed):
   * the value excludes all six quotes and all three closing ones are consumed.
   */
  lemma PlainTripleString(c: Cursor, quote: string, k: int)
    requires IsTriple(quote) && 0 <= c.pos && c.pos + 2 < k && k + 2 < |c.source|
    requires forall j :: c.pos + 2 < j < k ==> Ordinary(c.source, j, quote)
    requires [c.source[k]] + [c.source[k + 1]] + [c.source[k + 2]] == quote
    ensures ReadString(c, quote) == Ok((c.source[c.pos + 3..k], c.(pos := k + 3, colNo := c.colNo + (k + 3 - c.pos))))
  {
    var run := c.source[c.pos + 3..k];
    var last := LastBefore(c, k);
    TripleOpenRun(c, quote, k);
    TripleClose(last, quote, run, quote + run, c.colNo);
    assert last.(pos := last.pos + 4, colNo := last.colNo + 4) == c.(pos := k + 3, colNo := c.colNo + (k + 3 - c.pos));
  }

  /** The opening quotes are skipped and the ordinary characters after them read. */
  lemma TripleOpenRun(c: Cursor, quote: string, k: int)
    requires IsTriple(quote) && 0 <= c.pos && c.pos + 2 < k <= |c.source|
    requires forall j :: c.pos + 2 < j < k ==> Ordinary(c.source, j, quote)
    ensures var run := c.source[c.pos + 3..k];
            ReadString(c, quote)
            == ReadStringFrom(LastBefore(c, k), quote, run, quote + run, c.colNo)
  {
    var c0 := ReadChar(ReadChar(c));
    assert ReadString(c, quote) == ReadStringFrom(c0, quote, "", quote, c.colNo);
    assert c0.source == c.source && c0.pos == c.pos + 2;
    assert c0.source[c0.pos + 1..k] == c.source[c.pos + 3..k];
    assert LastBefore(c0, k) == LastBefore(c, k);
    OrdinaryRunFromStart(c0, quote, c.colNo, k);
  }

  /** OrdinaryRun from the empty buffers the loop starts with. */
  lemma OrdinaryRunFromStart(c: Cursor, quote: string, stCol: int, k: int)
    requires 0 <= c.pos < k <= |c.source|
    requires forall j :: c.pos < j < k ==> Ordinary(c.source, j, quote)
    ensures var run := c.source[c.pos + 1..k];
            var last := LastBefore(c, k);
            ReadStringFrom(c, quote, "", quote, stCol) == ReadStringFrom(last, quote, run, quote + run, stCol)
  {
    OrdinaryRun(c, quote, "", quote, stCol, k);
    assert "" + c.source[c.pos + 1..k] == c.source[c.pos + 1..k];
  }

  /** Reaching the end of the source inside a string is the unterminated-string error. */
  lemma UnterminatedAtEnd(c: Cursor, quote: string, str: string, literal: string, stCol: int)
    requires 0 <= c.pos < |c.source|
    requires forall j :: c.pos < j < |c.source| ==> Ordinary(c.source, j, quote)
    ensures var r := ReadStringFrom(c, quote, str, literal, stCol);
            r.Err? && r.error.message == UnterminatedMessage && r.error.at.kind.String?
            && r.error.at.lineNo == c.lineNo
  {
    OrdinaryRun(c, quote, str, literal, stCol, |c.source|);
  }

  /** A raw line feed inside a non-triple string is the same error. */
  lemma UnterminatedAtNewline(c: Cursor, quote: string, str: string, literal: string, stCol: int, k: int)
    requires 0 <= c.pos < k < |c.source| && !IsTriple(quote)
    requires forall j :: c.pos < j < k ==> Ordinary(c.source, j, quote)
    requires c.source[k] == '\n'
    ensures var r := ReadStringFrom(c, quote, str, literal, stCol);
            r.Err? && r.error.message == UnterminatedMessage && r.error.at.endColNo == stCol
  {
    OrdinaryRun(c, quote, str, literal, stCol, k);
  }

  /** An escape appends its decoded value and echoed text, and the loop goes on after it. */
  lemma EscapeStep(c: Cursor, quote: string, str: string, literal: string, stCol: int)
    requires CharAt(c.source, c.pos + 1) == "\\"
    ensures var c2 := ReadChar(ReadChar(c));
            var (v, l) := DecodeEscape(Current(c2));
            ReadStringFrom(c, quote, str, literal, stCol) == ReadStringFrom(c2, quote, str + v, literal + l, stCol)
  {
  }

  // ---------------------------------------------------------------------
  // nextToken

  /** A one-character token; the trailing `_readChar` consumes it. */
  function One(c: Cursor, kind: TokenType): Result<(Token, Cursor), LexError>
  {
    Ok((NewTok(c, kind, Current(c)), ReadChar(c)))
  }

  /** A two-character token; one `_readChar` in the branch and the trailing one. */
  function Two(c: Cursor, kind: TokenType): Result<(Token, Cursor), LexError>
    requires c.pos >= -1
  {
    Ok((NewTok(c, kind, Current(c) + PeekChar(c, 1)), ReadChar(ReadChar(c))))
  }

  /** The "-" followed by a digit branch, as written: the number, then the trailing `_readChar`. */
  function NegativeNumber(c: Cursor): (Token, Cursor)
  {
    var (t, c2) := ReadNumber(ReadChar(c));
    (t.(literal := "-" + t.literal), ReadChar(c2))
  }

  /**
   * The branch chain of `nextToken` once whitespace is skipped. The source
   * compares the current character with one-character strings in turn;
   * those are pairwise distinct and none is "", so the chain is one on the
   * character here, with the end of the source (`currentChar == ""`)
   * checked first, and the branches grouped by operator family. The second
   * pair of `{` and `}` branches in the source is unreachable and has no
   * counterpart.
   */
  function NextTokenAt(c: Cursor): Result<(Token, Cursor), LexError>
    requires c.pos >= 0
  {
    if c.pos >= |c.source| then Ok((NewTok(c, EndOfFile, ""), ReadChar(c)))
    else if ArithmeticChar(c.source[c.pos]) then ArithmeticAt(c)
    else if ComparisonChar(c.source[c.pos]) then ComparisonAt(c)
    else if PunctuationChar(c.source[c.pos]) then PunctuationAt(c)
    else OtherToken(c)
  }

  /** The characters whose branches make up `ArithmeticAt`. */
  predicate ArithmeticChar(x: char)
  {
    x == '+' || x == '.' || x == '-' || x == '*' || x == '/' || x == '%' || x == '^'
  }

  /** The characters whose branches make up `ComparisonAt`. */
  predicate ComparisonChar(x: char)
  {
    x == '=' || x == '>' || x == '<' || x == '!'
  }

  /** The characters whose branches make up `PunctuationAt`. */
  predicate PunctuationChar(x: char)
  {
    x == '{' || x == '}' || x == '(' || x == ')' || x == ':' || x == ';' || x == '&' || x == '|' || x == '~' || x == ','
  }

  /** The `+`, `.`, `-`, `*`, `/`, `%` and `^` branches (the last case is `^`). */
  function ArithmeticAt(c: Cursor): Result<(Token, Cursor), LexError>
    requires 0 <= c.pos < |c.source|
  {
    var p1 := PeekChar(c, 1);
    match c.source[c.pos]
    case '+' => if p1 == "+" then Two(c, Increment) else if p1 == "=" then Two(c, PlusEqual) else One(c, Plus)
    case '.' =>
      if p1 == "." && PeekChar(c, 2) == "." then
        Ok((NewTok(c, Ellipsis, Current(c) + p1 + PeekChar(c, 2)), ReadChar(ReadChar(ReadChar(c)))))
      else One(c, Dot)
    case '-' =>
      if p1 == ">" then Two(c, RightArrow)
      else if p1 == "-" then Two(c, Decrement)
      else if IsDigit(p1) then Ok(NegativeNumber(c))
      else if p1 == "=" then Two(c, DashEqual)
      else One(c, Dash)
    case '*' => if p1 == "=" then Two(c, AsteriskEqual) else if p1 == "*" then Two(c, AsteriskAsterisk) else One(c, Asterisk)
    case '/' => if p1 == "=" then Two(c, ForwardSlashEqual) else One(c, ForwardSlash)
    case '%' => if p1 == "=" then Two(c, PercentEqual) else One(c, Percent)
    case _ => if p1 == "=" then Two(c, CaretEqual) else One(c, BitwiseXor)
  }

  /** The `=`, `>`, `<` and `!` branches (the last case is `!`). */
  function ComparisonAt(c: Cursor): Result<(Token, Cursor), LexError>
    requires 0 <= c.pos < |c.source|
  {
    var p1 := PeekChar(c, 1);
    match c.source[c.pos]
    case '=' => if p1 == "=" then Two(c, EqualEqual) else One(c, Equals)
    case '>' => if p1 == "=" then Two(c, GreaterThanOrEqual) else if p1 == ">" then Two(c, RightShift) else One(c, GreaterThan)
    case '<' => if p1 == "=" then Two(c, LessThanOrEqual) else if p1 == "<" then Two(c, LeftShift) else One(c, LessThan)
    case _ => if p1 == "=" then Two(c, NotEquals) else One(c, Illegal)
  }

  /** The brace, parenthesis, `:`, `;`, `&`, `|`, `~` and `,` branches (the last case is `,`). */
  function PunctuationAt(c: Cursor): Result<(Token, Cursor), LexError>
    requires 0 <= c.pos < |c.source|
  {
    var p1 := PeekChar(c, 1);
    match c.source[c.pos]
    case '{' => One(c, LeftBrace)
    case '}' => One(c, RightBrace)
    case '(' => One(c, LeftParen)
    case ')' => One(c, RightParen)
    case ':' => One(c, Colon)
    case ';' => One(c, Semicolon)
    case '&' => if p1 == "&" then Two(c, BitwiseAnd) else One(c, Illegal)
    case '|' => if p1 == "|" then Two(c, BitwiseOr) else One(c, Illegal)
    case '~' => One(c, BitwiseNot)
    case _ => One(c, Comma)
  }

  /** The final else of the chain: a string, an identifier, a number, or Illegal. */
  function OtherToken(c: Cursor): Result<(Token, Cursor), LexError>
    requires c.pos >= 0
  {
    var ch := Current(c);
    if IsString(c) != "" then
      match ReadString(c, IsString(c))
      case Err(e) => Err(e)
      case Ok((s, c')) => Ok((NewTok(c', String, s), c'))
    else if IsLetter(ch) then
      var (id, c') := ReadIdentifier(c);
      Ok((NewTok(c', LookupIdent(id), id), c'))
    else if IsDigit(ch) then Ok(ReadNumber(c))
    else One(c, Illegal)
  }

  /** `nextToken`: skip whitespace and comments, then one token. */
  function NextToken(c: Cursor): Result<(Token, Cursor), LexError>
    requires c.pos >= 0
  {
    NextTokenAt(SkipWhitespace(c))
  }

  // ---------------------------------------------------------------------
  // Properties of nextToken

  /** The two-character operators, with the kind each one yields. */
  function TwoCharOperator(x: char, y: char): Option<TokenType>
  {
    match x
    case '+' => if y == '+' then Some(Increment) else if y == '=' then Some(PlusEqual) else Option.None
    case '-' =>
      if y == '>' then Some(RightArrow) else if y == '-' then Some(Decrement)
      else if y == '=' then Some(DashEqual) else Option.None
    case '*' => if y == '=' then Some(AsteriskEqual) else if y == '*' then Some(AsteriskAsterisk) else Option.None
    case '/' => if y == '=' then Some(ForwardSlashEqual) else Option.None
    case '%' => if y == '=' then Some(PercentEqual) else Option.None
    case '^' => if y == '=' then Some(CaretEqual) else Option.None
    case '=' => if y == '=' then Some(EqualEqual) else Option.None
    case '>' => if y == '=' then Some(GreaterThanOrEqual) else if y == '>' then Some(RightShift) else Option.None
    case '<' => if y == '=' then Some(LessThanOrEqual) else if y == '<' then Some(LeftShift) else Option.None
    case '!' => if y == '=' then Some(NotEquals) else Option.None
    case '&' => if y == '&' then Some(BitwiseAnd) else Option.None
    case '|' => if y == '|' then Some(BitwiseOr) else Option.None
    case _ => Option.None
  }

  /** A two-character token's literal is both characters, and both are consumed. */
  lemma TwoShape(d: Cursor, kind: TokenType)
    requires 0 <= d.pos && d.pos + 1 < |d.source|
    ensures Two(d, kind) == Ok((NewTok(d, kind, [d.source[d.pos], d.source[d.pos + 1]]), d.(pos := d.pos + 2, colNo := d.colNo + 2)))
  {
    assert Current(d) + PeekChar(d, 1) == [d.source[d.pos], d.source[d.pos + 1]];
  }

  /** The characters with a branch of their own, with the kind a lone one yields. */
  function OneCharOperator(x: char): Option<TokenType>
  {
    match x
    case '+' => Some(Plus)
    case '.' => Some(Dot)
    case '-' => Some(Dash)
    case '*' => Some(Asterisk)
    case '/' => Some(ForwardSlash)
    case '%' => Some(Percent)
    case '^' => Some(BitwiseXor)
    case '=' => Some(Equals)
    case '>' => Some(GreaterThan)
    case '<' => Some(LessThan)
    case '!' => Some(Illegal)
    case '{' => Some(LeftBrace)
    case '}' => Some(RightBrace)
    case '(' => Some(LeftParen)
    case ')' => Some(RightParen)
    case ':' => Some(Colon)
    case ';' => Some(Semicolon)
    case '&' => Some(Illegal)
    case '|' => Some(Illegal)
    case '~' => Some(BitwiseNot)
    case ',' => Some(Comma)
    case _ => Option.None
  }

  /** Every two-character operator starts with a character that has a branch of its own. */
  lemma TwoCharOperatorStartsBranch(x: char, y: char)
    ensures TwoCharOperator(x, y).Some? ==> OneCharOperator(x).Some?
  {
  }

  /**
   * Maximal munch: when the current and the next character form a
   * two-character operator, both are in the literal and both are consumed.
   */
  lemma TwoCharacterToken(d: Cursor)
    requires 0 <= d.pos && d.pos + 1 < |d.source| && TwoCharOperator(d.source[d.pos], d.source[d.pos + 1]).Some?
    ensures var x, y := d.source[d.pos], d.source[d.pos + 1];
            NextTokenAt(d) == Ok((NewTok(d, TwoCharOperator(x, y).value, [x, y]), d.(pos := d.pos + 2, colNo := d.colNo + 2)))
  {
    var x, y := d.source[d.pos], d.source[d.pos + 1];
    TwoShape(d, TwoCharOperator(x, y).value);
    if x == '+' || x == '-' || x == '*' || x == '/' || x == '%' || x == '^' {
      assert NextTokenAt(d) == ArithmeticAt(d);
      TwoArithmetic(d);
    } else if x == '=' || x == '>' || x == '<' || x == '!' {
      assert NextTokenAt(d) == ComparisonAt(d);
      TwoComparison(d);
    } else {
      assert NextTokenAt(d) == PunctuationAt(d);
      TwoPunctuation(d);
    }
  }

  /** The two-character operators of the arithmetic branches. */
  lemma TwoArithmetic(d: Cursor)
    requires 0 <= d.pos && d.pos + 1 < |d.source| && (d.source[d.pos] == '+' || d.source[d.pos] == '-' || d.source[d.pos] == '*' || d.source[d.pos] == '/' || d.source[d.pos] == '%' || d.source[d.pos] == '^')
    requires TwoCharOperator(d.source[d.pos], d.source[d.pos + 1]).Some?
    ensures ArithmeticAt(d) == Two(d, TwoCharOperator(d.source[d.pos], d.source[d.pos + 1]).value)
  {
    if d.source[d.pos] == '+' {
      TwoAfterPlus(d);
    } else if d.source[d.pos] == '-' {
      TwoAfterDash(d);
    } else if d.source[d.pos] == '*' {
      TwoAfterStar(d);
    } else if d.source[d.pos] == '/' {
      TwoAfterSlash(d);
    } else if d.source[d.pos] == '%' {
      TwoAfterPercent(d);
    } else {
      TwoAfterCaret(d);
    }
  }

  lemma TwoAfterPlus(d: Cursor)
    requires 0 <= d.pos && d.pos + 1 < |d.source| && d.source[d.pos] == '+'
    requires TwoCharOperator('+', d.source[d.pos + 1]).Some?
    ensures ArithmeticAt(d) == Two(d, TwoCharOperator('+', d.source[d.pos + 1]).value)
  {
    assert PeekChar(d, 1) == [d.source[d.pos + 1]];
  }

  lemma TwoAfterDash(d: Cursor)
    requires 0 <= d.pos && d.pos + 1 < |d.source| && d.source[d.pos] == '-'
    requires TwoCharOperator('-', d.source[d.pos + 1]).Some?
    ensures ArithmeticAt(d) == Two(d, TwoCharOperator('-', d.source[d.pos + 1]).value)
  {
    assert PeekChar(d, 1) == [d.source[d.pos + 1]];
  }

  lemma TwoAfterStar(d: Cursor)
    requires 0 <= d.pos && d.pos + 1 < |d.source| && d.source[d.pos] == '*'
    requires TwoCharOperator('*', d.source[d.pos + 1]).Some?
    ensures ArithmeticAt(d) == Two(d, TwoCharOperator('*', d.source[d.pos + 1]).value)
  {
    assert PeekChar(d, 1) == [d.source[d.pos + 1]];
  }

  lemma TwoAfterSlash(d: Cursor)
    requires 0 <= d.pos && d.pos + 1 < |d.source| && d.source[d.pos] == '/'
    requires TwoCharOperator('/', d.source[d.pos + 1]).Some?
    ensures ArithmeticAt(d) == Two(d, TwoCharOperator('/', d.source[d.pos + 1]).value)
  {
    assert PeekChar(d, 1) == [d.source[d.pos + 1]];
  }

  lemma TwoAfterPercent(d: Cursor)
    requires 0 <= d.pos && d.pos + 1 < |d.source| && d.source[d.pos] == '%'
    requires TwoCharOperator('%', d.source[d.pos + 1]).Some?
    ensures ArithmeticAt(d) == Two(d, TwoCharOperator('%', d.source[d.pos + 1]).value)
  {
    assert PeekChar(d, 1) == [d.source[d.pos + 1]];
  }

  lemma TwoAfterCaret(d: Cursor)
    requires 0 <= d.pos && d.pos + 1 < |d.source| && d.source[d.pos] == '^'
    requires TwoCharOperator('^', d.source[d.pos + 1]).Some?
    ensures ArithmeticAt(d) == Two(d, TwoCharOperator('^', d.source[d.pos + 1]).value)
  {
    assert PeekChar(d, 1) == [d.source[d.pos + 1]];
  }

  /** The two-character operators of the comparison branches. */
  lemma TwoComparison(d: Cursor)
    requires 0 <= d.pos && d.pos + 1 < |d.source| && (d.source[d.pos] == '=' || d.source[d.pos] == '>' || d.source[d.pos] == '<' || d.source[d.pos] == '!')
    requires TwoCharOperator(d.source[d.pos], d.source[d.pos + 1]).Some?
    ensures ComparisonAt(d) == Two(d, TwoCharOperator(d.source[d.pos], d.source[d.pos + 1]).value)
  {
    if d.source[d.pos] == '=' {
      TwoAfterEquals(d);
    } else if d.source[d.pos] == '>' {
      TwoAfterGreater(d);
    } else if d.source[d.pos] == '<' {
      TwoAfterLess(d);
    } else {
      TwoAfterBang(d);
    }
  }

  lemma TwoAfterEquals(d: Cursor)
    requires 0 <= d.pos && d.pos + 1 < |d.source| && d.source[d.pos] == '='
    requires TwoCharOperator('=', d.source[d.pos + 1]).Some?
    ensures ComparisonAt(d) == Two(d, TwoCharOperator('=', d.source[d.pos + 1]).value)
  {
    assert PeekChar(d, 1) == [d.source[d.pos + 1]];
  }

  lemma TwoAfterGreater(d: Cursor)
    requires 0 <= d.pos && d.pos + 1 < |d.source| && d.source[d.pos] == '>'
    requires TwoCharOperator('>', d.source[d.pos + 1]).Some?
    ensures ComparisonAt(d) == Two(d, TwoCharOperator('>', d.source[d.pos + 1]).value)
  {
    assert PeekChar(d, 1) == [d.source[d.pos + 1]];
  }

  lemma TwoAfterLess(d: Cursor)
    requires 0 <= d.pos && d.pos + 1 < |d.source| && d.source[d.pos] == '<'
    requires TwoCharOperator('<', d.source[d.pos + 1]).Some?
    ensures ComparisonAt(d) == Two(d, TwoCharOperator('<', d.source[d.pos + 1]).value)
  {
    assert PeekChar(d, 1) == [d.source[d.pos + 1]];
  }

  lemma TwoAfterBang(d: Cursor)
    requires 0 <= d.pos && d.pos + 1 < |d.source| && d.source[d.pos] == '!'
    requires TwoCharOperator('!', d.source[d.pos + 1]).Some?
    ensures ComparisonAt(d) == Two(d, TwoCharOperator('!', d.source[d.pos + 1]).value)
  {
    assert PeekChar(d, 1) == [d.source[d.pos + 1]];
  }

  /** The two-character operators of the punctuation branches. */
  lemma TwoPunctuation(d: Cursor)
    requires 0 <= d.pos && d.pos + 1 < |d.source| && (d.source[d.pos] == '&' || d.source[d.pos] == '|')
    requires TwoCharOperator(d.source[d.pos], d.source[d.pos + 1]).Some?
    ensures PunctuationAt(d) == Two(d, TwoCharOperator(d.source[d.pos], d.source[d.pos + 1]).value)
  {
    if d.source[d.pos] == '&' {
      TwoAfterAmpersand(d);
    } else {
      TwoAfterBar(d);
    }
  }

  lemma TwoAfterAmpersand(d: Cursor)
    requires 0 <= d.pos && d.pos + 1 < |d.source| && d.source[d.pos] == '&'
    requires TwoCharOperator('&', d.source[d.pos + 1]).Some?
    ensures PunctuationAt(d) == Two(d, TwoCharOperator('&', d.source[d.pos + 1]).value)
  {
    assert PeekChar(d, 1) == [d.source[d.pos + 1]];
  }

  lemma TwoAfterBar(d: Cursor)
    requires 0 <= d.pos && d.pos + 1 < |d.source| && d.source[d.pos] == '|'
    requires TwoCharOperator('|', d.source[d.pos + 1]).Some?
    ensures PunctuationAt(d) == Two(d, TwoCharOperator('|', d.source[d.pos + 1]).value)
  {
    assert PeekChar(d, 1) == [d.source[d.pos + 1]];
  }

  /**
   * A character with a branch of its own that does not start a
   * two-character operator, an ellipsis or a negative number is a token by
   * itself, and exactly one character is consumed.
   */
  lemma OneCharacterToken(d: Cursor)
    requires 0 <= d.pos < |d.source| && OneCharOperator(d.source[d.pos]).Some?
             && (d.pos + 1 < |d.source| ==> TwoCharOperator(d.source[d.pos], d.source[d.pos + 1]).None?)
             && !(d.source[d.pos] == '.' && PeekChar(d, 1) == "." && PeekChar(d, 2) == ".")
             && !(d.source[d.pos] == '-' && IsDigit(PeekChar(d, 1)))
    ensures var x := d.source[d.pos];
            NextTokenAt(d) == Ok((NewTok(d, OneCharOperator(x).value, [x]), d.(pos := d.pos + 1, colNo := d.colNo + 1)))
  {
    var x := d.source[d.pos];
    assert Current(d) == [x];
    if x == '+' || x == '.' || x == '-' || x == '*' || x == '/' || x == '%' || x == '^' {
      assert NextTokenAt(d) == ArithmeticAt(d);
      OneArithmetic(d);
    } else if x == '=' || x == '>' || x == '<' || x == '!' {
      assert NextTokenAt(d) == ComparisonAt(d);
      OneComparison(d);
    } else {
      assert NextTokenAt(d) == PunctuationAt(d);
      OnePunctuation(d);
    }
  }

  lemma OneArithmetic(d: Cursor)
    requires 0 <= d.pos < |d.source| && (d.source[d.pos] == '+' || d.source[d.pos] == '.' || d.source[d.pos] == '-' || d.source[d.pos] == '*' || d.source[d.pos] == '/' || d.source[d.pos] == '%' || d.source[d.pos] == '^')
    requires d.pos + 1 < |d.source| ==> TwoCharOperator(d.source[d.pos], d.source[d.pos + 1]).None?
    requires !(d.source[d.pos] == '.' && PeekChar(d, 1) == "." && PeekChar(d, 2) == ".")
    requires !(d.source[d.pos] == '-' && IsDigit(PeekChar(d, 1)))
    ensures ArithmeticAt(d) == One(d, OneCharOperator(d.source[d.pos]).value)
  {
    if d.source[d.pos] == '+' {
      OneAfterPlus(d);
    } else if d.source[d.pos] == '.' {
      OneAfterDot(d);
    } else if d.source[d.pos] == '-' {
      OneAfterDash(d);
    } else if d.source[d.pos] == '*' {
      OneAfterStar(d);
    } else if d.source[d.pos] == '/' {
      OneAfterSlash(d);
    } else if d.source[d.pos] == '%' {
      OneAfterPercent(d);
    } else {
      OneAfterCaret(d);
    }
  }

  lemma OneAfterPlus(d: Cursor)
    requires 0 <= d.pos < |d.source| && d.source[d.pos] == '+'
    requires d.pos + 1 < |d.source| ==> TwoCharOperator('+', d.source[d.pos + 1]).None?
    ensures ArithmeticAt(d) == One(d, OneCharOperator('+').value)
  {
    if d.pos + 1 < |d.source| {
      assert PeekChar(d, 1) == [d.source[d.pos + 1]];
    }
  }

  lemma OneAfterDot(d: Cursor)
    requires 0 <= d.pos < |d.source| && d.source[d.pos] == '.'
    requires !(PeekChar(d, 1) == "." && PeekChar(d, 2) == ".")
    ensures ArithmeticAt(d) == One(d, OneCharOperator('.').value)
  {
  }

  lemma OneAfterDash(d: Cursor)
    requires 0 <= d.pos < |d.source| && d.source[d.pos] == '-'
    requires d.pos + 1 < |d.source| ==> TwoCharOperator('-', d.source[d.pos + 1]).None?
    requires !IsDigit(PeekChar(d, 1))
    ensures ArithmeticAt(d) == One(d, OneCharOperator('-').value)
  {
    if d.pos + 1 < |d.source| {
      assert PeekChar(d, 1) == [d.source[d.pos + 1]];
    }
  }

  lemma OneAfterStar(d: Cursor)
    requires 0 <= d.pos < |d.source| && d.source[d.pos] == '*'
    requires d.pos + 1 < |d.source| ==> TwoCharOperator('*', d.source[d.pos + 1]).None?
    ensures ArithmeticAt(d) == One(d, OneCharOperator('*').value)
  {
    if d.pos + 1 < |d.source| {
      assert PeekChar(d, 1) == [d.source[d.pos + 1]];
    }
  }

  lemma OneAfterSlash(d: Cursor)
    requires 0 <= d.pos < |d.source| && d.source[d.pos] == '/'
    requires d.pos + 1 < |d.source| ==> TwoCharOperator('/', d.source[d.pos + 1]).None?
    ensures ArithmeticAt(d) == One(d, OneCharOperator('/').value)
  {
    if d.pos + 1 < |d.source| {
      assert PeekChar(d, 1) == [d.source[d.pos + 1]];
    }
  }

  lemma OneAfterPercent(d: Cursor)
    requires 0 <= d.pos < |d.source| && d.source[d.pos] == '%'
    requires d.pos + 1 < |d.source| ==> TwoCharOperator('%', d.source[d.pos + 1]).None?
    ensures ArithmeticAt(d) == One(d, OneCharOperator('%').value)
  {
    if d.pos + 1 < |d.source| {
      assert PeekChar(d, 1) == [d.source[d.pos + 1]];
    }
  }

  lemma OneAfterCaret(d: Cursor)
    requires 0 <= d.pos < |d.source| && d.source[d.pos] == '^'
    requires d.pos + 1 < |d.source| ==> TwoCharOperator('^', d.source[d.pos + 1]).None?
    ensures ArithmeticAt(d) == One(d, OneCharOperator('^').value)
  {
    if d.pos + 1 < |d.source| {
      assert PeekChar(d, 1) == [d.source[d.pos + 1]];
    }
  }

  lemma OneComparison(d: Cursor)
    requires 0 <= d.pos < |d.source| && (d.source[d.pos] == '=' || d.source[d.pos] == '>' || d.source[d.pos] == '<' || d.source[d.pos] == '!')
    requires d.pos + 1 < |d.source| ==> TwoCharOperator(d.source[d.pos], d.source[d.pos + 1]).None?
    ensures ComparisonAt(d) == One(d, OneCharOperator(d.source[d.pos]).value)
  {
    if d.source[d.pos] == '=' {
      OneAfterEquals(d);
    } else if d.source[d.pos] == '>' {
      OneAfterGreater(d);
    } else if d.source[d.pos] == '<' {
      OneAfterLess(d);
    } else {
      OneAfterBang(d);
    }
  }

  lemma OneAfterEquals(d: Cursor)
    requires 0 <= d.pos < |d.source| && d.source[d.pos] == '='
    requires d.pos + 1 < |d.source| ==> TwoCharOperator('=', d.source[d.pos + 1]).None?
    ensures ComparisonAt(d) == One(d, OneCharOperator('=').value)
  {
    if d.pos + 1 < |d.source| {
      assert PeekChar(d, 1) == [d.source[d.pos + 1]];
    }
  }

  lemma OneAfterGreater(d: Cursor)
    requires 0 <= d.pos < |d.source| && d.source[d.pos] == '>'
    requires d.pos + 1 < |d.source| ==> TwoCharOperator('>', d.source[d.pos + 1]).None?
    ensures ComparisonAt(d) == One(d, OneCharOperator('>').value)
  {
    if d.pos + 1 < |d.source| {
      assert PeekChar(d, 1) == [d.source[d.pos + 1]];
    }
  }

  lemma OneAfterLess(d: Cursor)
    requires 0 <= d.pos < |d.source| && d.source[d.pos] == '<'
    requires d.pos + 1 < |d.source| ==> TwoCharOperator('<', d.source[d.pos + 1]).None?
    ensures ComparisonAt(d) == One(d, OneCharOperator('<').value)
  {
    if d.pos + 1 < |d.source| {
      assert PeekChar(d, 1) == [d.source[d.pos + 1]];
    }
  }

  lemma OneAfterBang(d: Cursor)
    requires 0 <= d.pos < |d.source| && d.source[d.pos] == '!'
    requires d.pos + 1 < |d.source| ==> TwoCharOperator('!', d.source[d.pos + 1]).None?
    ensures ComparisonAt(d) == One(d, OneCharOperator('!').value)
  {
    if d.pos + 1 < |d.source| {
      assert PeekChar(d, 1) == [d.source[d.pos + 1]];
    }
  }

  lemma OnePunctuation(d: Cursor)
    requires 0 <= d.pos < |d.source| && (d.source[d.pos] == '{' || d.source[d.pos] == '}' || d.source[d.pos] == '(' || d.source[d.pos] == ')' || d.source[d.pos] == ':' || d.source[d.pos] == ';' || d.source[d.pos] == '&' || d.source[d.pos] == '|' || d.source[d.pos] == '~' || d.source[d.pos] == ',')
    requires d.pos + 1 < |d.source| ==> TwoCharOperator(d.source[d.pos], d.source[d.pos + 1]).None?
    ensures PunctuationAt(d) == One(d, OneCharOperator(d.source[d.pos]).value)
  {
    if d.source[d.pos] == '{' {
      OneAfterLeftBrace(d);
    } else if d.source[d.pos] == '}' {
      OneAfterRightBrace(d);
    } else if d.source[d.pos] == '(' {
      OneAfterLeftParen(d);
    } else if d.source[d.pos] == ')' {
      OneAfterRightParen(d);
    } else if d.source[d.pos] == ':' {
      OneAfterColon(d);
    } else if d.source[d.pos] == ';' {
      OneAfterSemicolon(d);
    } else if d.source[d.pos] == '&' {
      OneAfterAmpersand(d);
    } else if d.source[d.pos] == '|' {
      OneAfterBar(d);
    } else if d.source[d.pos] == '~' {
      OneAfterTilde(d);
    } else {
      OneAfterComma(d);
    }
  }

  lemma OneAfterLeftBrace(d: Cursor)
    requires 0 <= d.pos < |d.source| && d.source[d.pos] == '{'
    ensures PunctuationAt(d) == One(d, OneCharOperator('{').value)
  {
  }

  lemma OneAfterRightBrace(d: Cursor)
    requires 0 <= d.pos < |d.source| && d.source[d.pos] == '}'
    ensures PunctuationAt(d) == One(d, OneCharOperator('}').value)
  {
  }

  lemma OneAfterLeftParen(d: Cursor)
    requires 0 <= d.pos < |d.source| && d.source[d.pos] == '('
    ensures PunctuationAt(d) == One(d, OneCharOperator('(').value)
  {
  }

  lemma OneAfterRightParen(d: Cursor)
    requires 0 <= d.pos < |d.source| && d.source[d.pos] == ')'
    ensures PunctuationAt(d) == One(d, OneCharOperator(')').value)
  {
  }

  lemma OneAfterColon(d: Cursor)
    requires 0 <= d.pos < |d.source| && d.source[d.pos] == ':'
    ensures PunctuationAt(d) == One(d, OneCharOperator(':').value)
  {
  }

  lemma OneAfterSemicolon(d: Cursor)
    requires 0 <= d.pos < |d.source| && d.source[d.pos] == ';'
    ensures PunctuationAt(d) == One(d, OneCharOperator(';').value)
  {
  }

  lemma OneAfterAmpersand(d: Cursor)
    requires 0 <= d.pos < |d.source| && d.source[d.pos] == '&'
    requires d.pos + 1 < |d.source| ==> TwoCharOperator('&', d.source[d.pos + 1]).None?
    ensures PunctuationAt(d) == One(d, OneCharOperator('&').value)
  {
    if d.pos + 1 < |d.source| {
      assert PeekChar(d, 1) == [d.source[d.pos + 1]];
    }
  }

  lemma OneAfterBar(d: Cursor)
    requires 0 <= d.pos < |d.source| && d.source[d.pos] == '|'
    requires d.pos + 1 < |d.source| ==> TwoCharOperator('|', d.source[d.pos + 1]).None?
    ensures PunctuationAt(d) == One(d, OneCharOperator('|').value)
  {
    if d.pos + 1 < |d.source| {
      assert PeekChar(d, 1) == [d.source[d.pos + 1]];
    }
  }

  lemma OneAfterTilde(d: Cursor)
    requires 0 <= d.pos < |d.source| && d.source[d.pos] == '~'
    ensures PunctuationAt(d) == One(d, OneCharOperator('~').value)
  {
  }

  lemma OneAfterComma(d: Cursor)
    requires 0 <= d.pos < |d.source| && d.source[d.pos] == ','
    ensures PunctuationAt(d) == One(d, OneCharOperator(',').value)
  {
  }

  /** A character without a branch of its own reaches the final else of the chain. */
  lemma NoBranchIsOther(d: Cursor)
    requires 0 <= d.pos < |d.source| && OneCharOperator(d.source[d.pos]).None?
    ensures NextTokenAt(d) == OtherToken(d)
  {
    Ungrouped(d.source[d.pos]);
  }

  /** Every character of the three groups has a one-character operator. */
  lemma Ungrouped(x: char)
    requires OneCharOperator(x).None?
    ensures !ArithmeticChar(x) && !ComparisonChar(x) && !PunctuationChar(x)
  {
  }

  /** `...` is one Ellipsis token of three characters. */
  lemma EllipsisToken(d: Cursor)
    requires 0 <= d.pos && Current(d) == "." && PeekChar(d, 1) == "." && PeekChar(d, 2) == "."
    ensures NextTokenAt(d) == Ok((NewTok(d, Ellipsis, "..."), d.(pos := d.pos + 3, colNo := d.colNo + 3)))
  {
    assert Current(d) + PeekChar(d, 1) + PeekChar(d, 2) == "...";
  }

  /** A `!`, `&` or `|` not followed by `=`, `&` or `|` respectively is Illegal. */
  lemma LoneOperatorIllegal(d: Cursor)
    requires 0 <= d.pos < |d.source| && (d.source[d.pos] == '!' || d.source[d.pos] == '&' || d.source[d.pos] == '|')
    requires d.pos + 1 < |d.source| ==> TwoCharOperator(d.source[d.pos], d.source[d.pos + 1]).None?
    ensures NextTokenAt(d).Ok? && NextTokenAt(d).value.0.kind.Illegal?
  {
    OneCharacterToken(d);
  }

  /** Any other character that starts no string, identifier or number is Illegal; one character is consumed. */
  lemma UnlistedCharacterIllegal(d: Cursor)
    requires 0 <= d.pos < |d.source| && OneCharOperator(d.source[d.pos]).None?
    requires IsString(d) == "" && !IsLetter(Current(d)) && !IsDigit(Current(d))
    ensures NextTokenAt(d) == Ok((NewTok(d, Illegal, Current(d)), d.(pos := d.pos + 1, colNo := d.colNo + 1)))
  {
    NoBranchIsOther(d);
  }

  /** In particular `[`, `]` and a backslash: the lexer has no bracket tokens. */
  lemma BracketsAreIllegal(x: char)
    requires x == '[' || x == ']' || x == '\\'
    ensures NextToken(Cursor([x], 0, 1, 0)) == Ok((NewToken(Illegal, [x], 1, 0), Cursor([x], 1, 1, 1)))
  {
    var c := Cursor([x], 0, 1, 0);
    assert SkipBlanks(c) == c;
    assert SkipWhitespace(c) == c;
    IsLetterIsAlpha([x]);
    IsDigitIsDecimal([x]);
    UnlistedCharacterIllegal(c);
  }

  /** Past the end of the source nothing is skipped. */
  lemma SkipAtEnd(c: Cursor)
    requires c.pos >= |c.source|
    ensures SkipWhitespace(c) == c
  {
  }

  /**
   * At the end of the source `nextToken` yields EndOfFile with an empty
   * literal and moves one position on, so it is again at the end: every
   * later call yields EndOfFile too.
   */
  lemma EndOfFileForever(c: Cursor)
    requires 0 <= c.pos && |c.source| <= c.pos
    ensures NextToken(c) == Ok((NewTok(c, EndOfFile, ""), ReadChar(c)))
    ensures |c.source| <= ReadChar(c).pos
  {
    SkipAtEnd(c);
  }

  /** An identifier token is returned without the trailing `_readChar`. */
  lemma IdentifierToken(d: Cursor)
    requires 0 <= d.pos && IsLetter(Current(d))
    ensures var (id, d') := ReadIdentifier(d);
            NextTokenAt(d) == Ok((NewTok(d', LookupIdent(id), id), d'))
  {
    IsLetterIsAlpha(Current(d));
    assert OneCharOperator(d.source[d.pos]).None?;
    NoBranchIsOther(d);
  }

  /** A number token is returned without the trailing `_readChar`. */
  lemma NumberTokenAt(d: Cursor)
    requires 0 <= d.pos && IsDigit(Current(d))
    ensures NextTokenAt(d) == Ok(ReadNumber(d))
  {
    IsDigitIsDecimal(Current(d));
    IsLetterIsAlpha(Current(d));
    assert OneCharOperator(d.source[d.pos]).None?;
    NoBranchIsOther(d);
  }

  /** A string token is returned without the trailing `_readChar`; an unterminated one is the lexer's error. */
  lemma StringTokenAt(d: Cursor)
    requires 0 <= d.pos && IsString(d) != ""
    ensures match ReadString(d, IsString(d))
            case Err(e) => NextTokenAt(d) == Err(e)
            case Ok((s, d')) => NextTokenAt(d) == Ok((NewTok(d', String, s), d'))
  {
    assert d.source[d.pos] == '"' || d.source[d.pos] == '\'';
    NoBranchIsOther(d);
  }

  /** A token other than EndOfFile, in terms of what it starts with. */
  lemma OtherTokenNotEndOfFile(d: Cursor)
    requires 0 <= d.pos < |d.source|
    ensures var r := OtherToken(d); r.Ok? ==> !r.value.0.kind.EndOfFile?
  {
    var ch := Current(d);
    if IsString(d) == "" {
      if IsLetter(ch) {
        var (id, _) := ReadIdentifier(d);
        OnlyKeywordsRecognised(id);
      } else if IsDigit(ch) {
        ReadNumberSpec(d);
      }
    }
  }

  /** A negative number is an Integer, a Float or an Illegal token. */
  lemma NegativeNumberKind(d: Cursor)
    requires 0 <= d.pos < |d.source|
    ensures NegativeNumber(d).0.kind.Integer? || NegativeNumber(d).0.kind.Float? || NegativeNumber(d).0.kind.Illegal?
  {
    ReadNumberSpec(ReadChar(d));
  }

  /** A token other than EndOfFile, when the character has a branch of its own. */
  lemma OperatorNotEndOfFile(d: Cursor)
    requires 0 <= d.pos < |d.source| && OneCharOperator(d.source[d.pos]).Some?
    ensures var r := NextTokenAt(d); r.Ok? && !r.value.0.kind.EndOfFile?
  {
    var x := d.source[d.pos];
    Grouped(x);
    if ArithmeticChar(x) {
      if x == '-' {
        NegativeNumberKind(d);
      }
      assert NextTokenAt(d) == ArithmeticAt(d);
    } else if ComparisonChar(x) {
      assert NextTokenAt(d) == ComparisonAt(d);
    } else {
      assert NextTokenAt(d) == PunctuationAt(d);
    }
  }

  /** The characters with a one-character operator are those of the three groups. */
  lemma Grouped(x: char)
    requires OneCharOperator(x).Some?
    ensures ArithmeticChar(x) || ComparisonChar(x) || PunctuationChar(x)
  {
  }

  /**
   * EndOfFile comes exactly from the end of the source: any other token
   * has another kind.
   */
  lemma EndOfFileExactly(d: Cursor)
    requires 0 <= d.pos
    ensures var r := NextTokenAt(d);
            (r.Ok? && r.value.0.kind.EndOfFile?) <==> d.pos >= |d.source|
  {
    if d.pos < |d.source| {
      if OneCharOperator(d.source[d.pos]).None? {
        OtherTokenNotEndOfFile(d);
        NoBranchIsOther(d);
      } else {
        OperatorNotEndOfFile(d);
      }
    }
  }

  // ---------------------------------------------------------------------
  // The "-" followed by a digit branch

  /**
   * As written, the branch reads the number and then also takes the
   * trailing `_readChar` meant for one- and two-character tokens, so the
   * character right after the number is skipped without becoming a token.
   */
  lemma NegativeNumberSkipsNextCharacter(d: Cursor)
    requires 0 <= d.pos && Current(d) == "-" && IsDigit(PeekChar(d, 1))
    ensures var (t, e) := ReadNumber(ReadChar(d));
            NextTokenAt(d) == Ok(NegativeNumber(d))
            && NegativeNumber(d).1.pos == e.pos + 1
            && NegativeNumber(d).0.literal == "-" + t.literal
            && (!t.kind.Illegal? ==> !NumberChar(Current(e)))
  {
    ReadNumberSpec(ReadChar(d));
  }

  /** On "-5;" the semicolon is lost: the token after "-5" is EndOfFile. */
  lemma NegativeNumberSwallowsSemicolon()
    ensures var c := Cursor("-5;", 0, 1, 0);
            NextToken(c) == Ok((Token(Integer, "-5", 1, Some(1), 2), Cursor("-5;", 3, 1, 3)))
            && NextToken(Cursor("-5;", 3, 1, 3)).Ok?
            && NextToken(Cursor("-5;", 3, 1, 3)).value.0.kind.EndOfFile?
  {
    MinusFiveIsNegativeNumber();
    MinusFiveRead();
    EndOfFileForever(Cursor("-5;", 3, 1, 3));
  }

  /** "-5;" starts with the branch for "-" followed by a digit. */
  lemma MinusFiveIsNegativeNumber()
    ensures NextToken(Cursor("-5;", 0, 1, 0)) == Ok(NegativeNumber(Cursor("-5;", 0, 1, 0)))
  {
    var c := Cursor("-5;", 0, 1, 0);
    assert SkipBlanks(c) == c;
    assert SkipWhitespace(c) == c;
    assert Current(c) == "-" && PeekChar(c, 1) == "5";
    IsDigitIsDecimal("5");
    NegativeNumberSkipsNextCharacter(c);
  }

  /** The number read after the "-" of "-5;" and where each branch leaves the cursor. */
  lemma MinusFiveRead()
    ensures NegativeNumber(Cursor("-5;", 0, 1, 0)) == (Token(Integer, "-5", 1, Some(1), 2), Cursor("-5;", 3, 1, 3))
    ensures NegativeNumberIntended(Cursor("-5;", 0, 1, 0)) == (Token(Integer, "-5", 1, Some(1), 2), Cursor("-5;", 2, 1, 2))
  {
    var c := Cursor("-5;", 0, 1, 0);
    var c2 := Cursor("-5;", 2, 1, 2);
    assert ReadChar(c) == Cursor("-5;", 1, 1, 1);
    FiveThenSemicolon();
    var (t, e) := ReadNumber(ReadChar(c));
    assert t == NewToken(Integer, "5", 1, 2) && e == c2;
    assert "-" + "5" == "-5";
    assert t.(literal := "-5") == Token(Integer, "-5", 1, Some(1), 2);
    assert ReadChar(c2) == Cursor("-5;", 3, 1, 3);
  }

  /** Reading the number of "-5;" from the "5" stops on the semicolon. */
  lemma FiveThenSemicolon()
    ensures ReadNumber(Cursor("-5;", 1, 1, 1)) == (NewToken(Integer, "5", 1, 2), Cursor("-5;", 2, 1, 2))
  {
    var c1 := Cursor("-5;", 1, 1, 1);
    var c2 := Cursor("-5;", 2, 1, 2);
    IsDigitIsDecimal("5");
    IsDigitIsDecimal(";");
    assert Current(c1) == "5" && Current(c2) == ";";
    assert NumberChar("5") && !NumberChar(";");
    assert "" + "5" == "5";
    assert ReadNumber(c1) == ReadNumberFrom(c2, 0, "5");
  }

  /** The branch as evidently intended: the number, without a trailing `_readChar`. */
  function NegativeNumberIntended(d: Cursor): (Token, Cursor)
  {
    var (t, e) := ReadNumber(ReadChar(d));
    (t.(literal := "-" + t.literal), e)
  }

  /** `nextToken` with the "-" followed by a digit branch corrected. */
  function NextTokenIntended(c: Cursor): Result<(Token, Cursor), LexError>
    requires c.pos >= 0
  {
    var d := SkipWhitespace(c);
    if Current(d) == "-" && IsDigit(PeekChar(d, 1)) then Ok(NegativeNumberIntended(d)) else NextTokenAt(d)
  }

  /**
   * Corrected, the literal of a negative number is exactly the source text
   * consumed, "-" included, and the cursor stops on the first character
   * that is not part of it.
   */
  lemma NegativeNumberIntendedSpec(d: Cursor)
    requires 0 <= d.pos && Current(d) == "-" && IsDigit(PeekChar(d, 1))
    ensures var (t, e) := NegativeNumberIntended(d);
            d.pos + 1 < e.pos <= |d.source|
            && (t.kind.Integer? || t.kind.Float? ==> t.literal == d.source[d.pos..e.pos] && !NumberChar(Current(e)))
  {
    var d1 := ReadChar(d);
    IsDigitIsDecimal(PeekChar(d, 1));
    assert Current(d1) == PeekChar(d, 1);
    ReadNumberAtDigit(d1);
    ReadNumberSpec(d1);
    var (t, e) := ReadNumber(d1);
    assert d.source[d.pos..e.pos] == "-" + d.source[d1.pos..e.pos];
    assert Consumed(d1, e) == d.source[d1.pos..e.pos];
    assert "" + Consumed(d1, e) == Consumed(d1, e);
  }

  /** Corrected, "-5;" yields "-5" and then the semicolon. */
  lemma NegativeNumberKeepsSemicolon()
    ensures var c := Cursor("-5;", 0, 1, 0);
            NextTokenIntended(c) == Ok((Token(Integer, "-5", 1, Some(1), 2), Cursor("-5;", 2, 1, 2)))
            && NextToken(Cursor("-5;", 2, 1, 2)) == Ok((NewToken(Semicolon, ";", 1, 2), Cursor("-5;", 3, 1, 3)))
  {
    var c := Cursor("-5;", 0, 1, 0);
    assert NextTokenIntended(c) == Ok(NegativeNumberIntended(c)) by {
      assert SkipBlanks(c) == c;
      assert SkipWhitespace(c) == c;
      assert Current(c) == "-" && PeekChar(c, 1) == "5";
      IsDigitIsDecimal("5");
    }
    MinusFiveRead();
    SemicolonAfterFive();
  }

  lemma SemicolonAfterFive()
    ensures NextToken(Cursor("-5;", 2, 1, 2)) == Ok((NewToken(Semicolon, ";", 1, 2), Cursor("-5;", 3, 1, 3)))
  {
    var c2 := Cursor("-5;", 2, 1, 2);
    assert c2.source[c2.pos] == ';';
    assert Current(c2) == ";";
    assert SkipBlanks(c2) == c2;
    assert SkipWhitespace(c2) == c2;
    assert NextTokenAt(c2) == PunctuationAt(c2);
    OneAfterSemicolon(c2);
  }

  // ---------------------------------------------------------------------
  // Progress

  /** A result without its cursor: what the lexer's methods return. */
  function Strip<T>(r: Result<(T, Cursor), LexError>): Result<T, LexError>
  {
    match r
    case Ok((v, _)) => Ok(v)
    case Err(e) => Err(e)
  }

  /** A string that closes consumes its closing delimiter, so the loop always moves on. */
  lemma {:induction false} ReadStringFromAdvances(c: Cursor, quote: string, str: string, literal: string, stCol: int)
    ensures var r := ReadStringFrom(c, quote, str, literal, stCol);
            r.Ok? ==> r.value.1.pos >= c.pos + 2 && r.value.1.source == c.source
    decreases |c.source| - c.pos
  {
    var c1 := ReadChar(c);
    var ch := Current(c1);
    if ch != "" && !(ch == "\n" && !IsTriple(quote)) {
      if ch == "\\" {
        ReadStringFromAdvances(ReadChar(c1), quote, str + DecodeEscape(Current(ReadChar(c1))).0,
                               literal + DecodeEscape(Current(ReadChar(c1))).1, stCol);
      } else if ch != quote && ch + PeekChar(c1, 1) + PeekChar(c1, 2) != quote {
        ReadStringFromAdvances(c1, quote, str + ch, literal + ch, stCol);
      }
    }
  }

  lemma OtherTokenAdvances(d: Cursor)
    requires 0 <= d.pos < |d.source|
    ensures var r := OtherToken(d); r.Ok? ==> r.value.1.pos > d.pos && r.value.1.source == d.source
  {
    var ch := Current(d);
    if IsString(d) != "" {
      var q := IsString(d);
      var c0 := if IsTriple(q) then ReadChar(ReadChar(d)) else d;
      ReadStringFromAdvances(c0, q, "", q, d.colNo);
    } else if IsLetter(ch) {
      ReadIdentifierSpec(d);
      IsLetterIsAlpha(ch);
    } else if IsDigit(ch) {
      ReadNumberAtDigit(d);
      ReadNumberSpec(d);
    }
  }

  lemma OperatorAdvances(d: Cursor)
    requires 0 <= d.pos < |d.source| && OneCharOperator(d.source[d.pos]).Some?
    ensures var r := NextTokenAt(d); r.Ok? ==> r.value.1.pos > d.pos && r.value.1.source == d.source
  {
    if d.source[d.pos] == '-' && IsDigit(PeekChar(d, 1)) {
      ReadNumberSpec(ReadChar(d));
    }
  }

  /** Every token `nextToken` returns consumes at least one character. */
  lemma NextTokenAtAdvances(d: Cursor)
    requires 0 <= d.pos
    ensures var r := NextTokenAt(d); r.Ok? ==> r.value.1.pos > d.pos && r.value.1.source == d.source
  {
    if d.pos < |d.source| {
      if OneCharOperator(d.source[d.pos]).None? {
        NoBranchIsOther(d);
        OtherTokenAdvances(d);
      } else {
        OperatorAdvances(d);
      }
    }
  }

  lemma NextTokenAdvances(c: Cursor)
    requires 0 <= c.pos
    ensures var r := NextToken(c); r.Ok? ==> r.value.1.pos > c.pos && r.value.1.source == c.source
  {
    NextTokenAtAdvances(SkipWhitespace(c));
  }
}
