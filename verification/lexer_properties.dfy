/** What the scanner guarantees about a whole scan: the fate of every
    character, the shape of every token, where a scan fails, and how its
    output can be turned back into text that scans to the same tokens. */
module LexerProperties {
  import opened Lexer

  /** The token values, concatenated in order. */
  function Values(ts: seq<Token>): string {
    if ts == [] then [] else ts[0].value + Values(ts[1..])
  }

  /** The input with every space, newline and tab removed. */
  function Strip(s: string): string {
    if s == [] then []
    else (if IsSkippable(s[0]) then [] else [s[0]]) + Strip(s[1..])
  }

  /** Token values written out, each followed by one space. */
  function Unlex(ts: seq<Token>): string {
    if ts == [] then [] else ts[0].value + " " + Unlex(ts[1..])
  }

  /** The kind a one-character token gets from its character. */
  function SingleKind(c: char): TokenType
    requires c == '(' || c == ')' || IsBinaryOperator(c) || c == '='
  {
    if c == '(' then OpenParem
    else if c == ')' then CloseParem
    else if c == '=' then Equals
    else BinaryOperator
  }

  // ---------------------------------------------------------------------
  // Single dispatches
  // ---------------------------------------------------------------------

  /** Parentheses, the four operators and '=' each give one token holding
      exactly that character, whatever follows; '-' is an operator, never
      the start of a number. */
  lemma SingleCharacterTokens(c: char, rest: string)
    requires c == '(' || c == ')' || IsBinaryOperator(c) || c == '='
    ensures Scan([c] + rest) == Prepend([Token([c], SingleKind(c))], Scan(rest))
    ensures c == '-' ==> SingleKind(c) == BinaryOperator
  {
    var s := [c] + rest;
    assert s[0] == c && s[1..] == rest;
    ScanStep(s);
  }

  /** Space, newline and tab are consumed and contribute no token. */
  lemma WhitespaceEmitsNothing(c: char, rest: string)
    requires IsSkippable(c)
    ensures Scan([c] + rest) == Scan(rest)
  {
    var s := [c] + rest;
    assert s[0] == c && s[1..] == rest;
    ScanStep(s);
  }

  /** Every token of a successful scan is well formed: in particular every
      Number is a non-empty run of decimal digits, and every value is
      non-empty. */
  lemma {:induction false} ScanTokensWellFormed(s: string)
    requires Scan(s).Success?
    ensures forall i :: 0 <= i < |Scan(s).tokens| ==> WellFormed(Scan(s).tokens[i])
    decreases |s|
  {
    if s != [] {
      ScanStep(s);
      StepFacts(s);
      match Step(s)
      case Emit(t, rest) =>
        ScanTokensWellFormed(rest);
        assert Scan(s).tokens == [t] + Scan(rest).tokens;
      case Skip(rest) =>
        ScanTokensWellFormed(rest);
      case Reject(_) =>
    }
  }

  /** A failed scan reports a character of the input that no branch of the
      scanner accepts. */
  lemma {:induction false} ScanFailureCharacter(s: string)
    requires Scan(s).Failure?
    ensures Scan(s).badChar in s && !Recognized(Scan(s).badChar)
    decreases |s|
  {
    ScanStep(s);
    StepFacts(s);
    match Step(s)
    case Emit(t, rest) =>
      ScanFailureCharacter(rest);
      assert rest == s[|t.value|..];
    case Skip(rest) =>
      ScanFailureCharacter(rest);
    case Reject(_) =>
  }

  /** Every character of a token is one the scanner accepts, and none of
      them is whitespace. */
  lemma WellFormedCharacters(t: Token)
    requires WellFormed(t)
    ensures |t.value| > 0
    ensures forall i :: 0 <= i < |t.value| ==> Recognized(t.value[i]) && !IsSkippable(t.value[i])
  {
  }

  /** Whether character c, following token t, ends t's run: only digits
      extend a number and only letters extend a word. */
  predicate Delimits(t: Token, c: char) {
    match t.tokenType
    case Number => !IsInt(c)
    case Identifier => !IsAlpha(c)
    case Let => !IsAlpha(c)
    case _ => true
  }

  /** A well-formed token at the end of the input, or followed by a
      character that cannot extend it, is read back as itself. */
  lemma StepOfToken(t: Token, rest: string)
    requires WellFormed(t)
    requires rest == [] || Delimits(t, rest[0])
    ensures Step(t.value + rest) == Emit(t, rest)
  {
    var v, s := t.value, t.value + rest;
    assert s[..|v|] == v && s[|v|..] == rest;
    assert s[0] == v[0];
    if t.tokenType == Number {
      RunLengthUnique(s, IsInt, |v|);
    } else if t.tokenType in {Identifier, Let} {
      RunLengthUnique(s, IsAlpha, |v|);
    }
  }

  // ---------------------------------------------------------------------
  // Whole scans
  // ---------------------------------------------------------------------

  /** Removing whitespace distributes over concatenation. */
  lemma StripAppend(a: string, b: string)
    ensures Strip(a + b) == Strip(a) + Strip(b)
    decreases |a|
  {
    if a == [] {
      assert a + b == b;
    } else {
      assert (a + b)[0] == a[0] && (a + b)[1..] == a[1..] + b;
      StripAppend(a[1..], b);
      var h := if IsSkippable(a[0]) then [] else [a[0]];
      assert Strip(a + b) == h + Strip(a[1..] + b);
      assert Strip(a) == h + Strip(a[1..]);
      assert h + (Strip(a[1..]) + Strip(b)) == (h + Strip(a[1..])) + Strip(b);
    }
  }

  /** Text without whitespace is left as it is. */
  lemma StripNoWhitespace(a: string)
    requires forall i :: 0 <= i < |a| ==> !IsSkippable(a[i])
    ensures Strip(a) == a
    decreases |a|
  {
    if a != [] {
      StripNoWhitespace(a[1..]);
    }
  }

  /** On success no character is lost or invented: the token values,
      concatenated in order, are the input without its whitespace. Every
      non-whitespace character therefore lies in exactly one token. */
  lemma {:induction false} ScanKeepsText(s: string)
    requires Scan(s).Success?
    ensures Values(Scan(s).tokens) == Strip(s)
    decreases |s|
  {
    if s != [] {
      ScanStep(s);
      StepFacts(s);
      match Step(s)
      case Emit(t, rest) =>
        ScanKeepsText(rest);
        var ts := Scan(s).tokens;
        assert ts == [t] + Scan(rest).tokens;
        assert ts[0] == t && ts[1..] == Scan(rest).tokens;
        WellFormedCharacters(t);
        StripAppend(t.value, rest);
        StripNoWhitespace(t.value);
      case Skip(rest) =>
        ScanKeepsText(rest);
      case Reject(_) =>
    }
  }

  /** Only whitespace: the gaps between tokens. */
  predicate Blank(w: string) {
    forall i :: 0 <= i < |w| ==> IsSkippable(w[i])
  }

  /** Gaps ws[0], ..., ws[|ts|] interleaved with the token values:
      ws[0] + ts[0].value + ws[1] + ... + ts[|ts|-1].value + ws[|ts|]. */
  function Layout(ws: seq<string>, ts: seq<Token>): string
    requires |ws| == |ts| + 1
  {
    ws[0] + Trailing(ws[1..], ts)
  }

  /** Each token value followed by the gap after it. */
  function Trailing(gaps: seq<string>, ts: seq<Token>): string
    requires |gaps| == |ts|
    decreases |ts|
  {
    if ts == [] then [] else ts[0].value + gaps[0] + Trailing(gaps[1..], ts[1..])
  }

  /** s is the tokens ts laid out in order with whitespace gaps ws. */
  predicate LaidOut(s: string, ws: seq<string>, ts: seq<Token>) {
    && |ws| == |ts| + 1
    && (forall i :: 0 <= i < |ws| ==> Blank(ws[i]))
    && s == Layout(ws, ts)
  }

  /** A token in front of a laid-out text, with no gap before it. */
  lemma LaidOutToken(t: Token, rest: string, ws: seq<string>, ts: seq<Token>)
    requires LaidOut(rest, ws, ts)
    ensures LaidOut(t.value + rest, [[]] + ws, [t] + ts)
  {
    var ws', ts' := [[]] + ws, [t] + ts;
    assert ts'[0] == t && ts'[1..] == ts && ws'[0] == [] && ws'[1..] == ws;
    assert ws[0] == ws'[1..][0] && ws[1..] == ws'[1..][1..];
    var x := Trailing(ws[1..], ts);
    assert Layout(ws', ts') == [] + (t.value + ws[0] + x);
    assert t.value + ws[0] + x == t.value + (ws[0] + x);
    assert forall i :: 1 <= i < |ws'| ==> ws'[i] == ws[i - 1];
  }

  /** A whitespace character in front of a laid-out text joins its first
      gap. */
  lemma LaidOutBlank(c: char, rest: string, ws: seq<string>, ts: seq<Token>)
    requires IsSkippable(c) && LaidOut(rest, ws, ts)
    ensures LaidOut([c] + rest, [[c] + ws[0]] + ws[1..], ts)
  {
    var g := [c] + ws[0];
    var ws' := [g] + ws[1..];
    assert Blank(g) by {
      forall i | 0 <= i < |g| ensures IsSkippable(g[i]) {
        if i > 0 { assert g[i] == ws[0][i - 1]; }
      }
    }
    assert forall i :: 1 <= i < |ws'| ==> ws'[i] == ws[i];
    assert ws'[0] == g && ws'[1..] == ws[1..];
    var x := Trailing(ws[1..], ts);
    assert [c] + rest == [c] + (ws[0] + x) == g + x;
  }

  /** A token in front of a separated layout, with no gap before it, keeps
      it separated when the token cannot run into what follows. */
  lemma SeparatedToken(t: Token, rest: string, ws: seq<string>, ts: seq<Token>)
    requires LaidOut(rest, ws, ts) && Separated(ws, ts)
    requires forall i :: 0 <= i < |ts| ==> WellFormed(ts[i])
    requires rest == [] || Delimits(t, rest[0])
    ensures Separated([[]] + ws, [t] + ts)
  {
    var ws', ts' := [[]] + ws, [t] + ts;
    forall i | 0 <= i < |ts'| - 1 && ws'[i + 1] == [] && ts'[i + 1].value != []
      ensures Delimits(ts'[i], ts'[i + 1].value[0])
    {
      assert ws'[i + 1] == ws[i] && ts'[i + 1] == ts[i];
      if i == 0 {
        WellFormedCharacters(ts[0]);
        LayoutStart(ws, ts);
      } else {
        assert ts'[i] == ts[i - 1];
      }
    }
  }

  /** Whitespace joining the first gap does not touch any separation. */
  lemma SeparatedBlank(c: char, ws: seq<string>, ts: seq<Token>)
    requires |ws| == |ts| + 1 && Separated(ws, ts)
    ensures Separated([[c] + ws[0]] + ws[1..], ts)
  {
    var ws' := [[c] + ws[0]] + ws[1..];
    assert forall i :: 1 <= i < |ws'| ==> ws'[i] == ws[i];
  }

  /** On success the input is exactly the tokens, in order, with only
      whitespace between them, before the first and after the last: each
      token is a contiguous slice of the input, and the slices follow one
      another. Where two tokens touch, the first could not have been
      extended by the second: the runs the scan produces are maximal. */
  lemma {:induction false} ScanLayout(s: string)
    requires Scan(s).Success?
    ensures exists ws :: LaidOut(s, ws, Scan(s).tokens) && Separated(ws, Scan(s).tokens)
    decreases |s|
  {
    if s == [] {
      assert LaidOut(s, [[]], []) && Separated([[]], []);
    } else {
      ScanStep(s);
      StepFacts(s);
      match Step(s)
      case Emit(t, rest) =>
        ScanLayout(rest);
        var ts := Scan(rest).tokens;
        var ws :| LaidOut(rest, ws, ts) && Separated(ws, ts);
        LaidOutToken(t, rest, ws, ts);
        ScanTokensWellFormed(rest);
        assert rest == [] || Delimits(t, rest[0]);
        SeparatedToken(t, rest, ws, ts);
        assert Scan(s).tokens == [t] + ts;
        assert LaidOut(s, [[]] + ws, [t] + ts);
      case Skip(rest) =>
        ScanLayout(rest);
        var ts := Scan(rest).tokens;
        var ws :| LaidOut(rest, ws, ts) && Separated(ws, ts);
        LaidOutBlank(s[0], rest, ws, ts);
        SeparatedBlank(s[0], ws, ts);
        assert s == [s[0]] + rest;
        assert LaidOut(s, [[s[0]] + ws[0]] + ws[1..], ts);
      case Reject(_) =>
    }
  }

  /** Wherever no gap separates two tokens, the first cannot be extended
      by the second: a number is never directly followed by a digit, nor a
      word by a letter. */
  predicate Separated(ws: seq<string>, ts: seq<Token>)
    requires |ws| == |ts| + 1
  {
    forall i :: 0 <= i < |ts| - 1 && ws[i + 1] == [] && ts[i + 1].value != [] ==>
      Delimits(ts[i], ts[i + 1].value[0])
  }

  /** Leading whitespace contributes no token. */
  lemma {:induction false} BlankPrefix(w: string, rest: string)
    requires Blank(w)
    ensures Scan(w + rest) == Scan(rest)
    decreases |w|
  {
    if w == [] {
      assert w + rest == rest;
    } else {
      assert w + rest == [w[0]] + (w[1..] + rest);
      WhitespaceEmitsNothing(w[0], w[1..] + rest);
      BlankPrefix(w[1..], rest);
    }
  }

  /** Splitting off the first token of a layout: what follows it is the
      layout of the remaining gaps and tokens. */
  lemma LayoutFirst(ws: seq<string>, ts: seq<Token>)
    requires |ws| == |ts| + 1 && ts != []
    ensures Trailing(ws[1..], ts) == ts[0].value + Layout(ws[1..], ts[1..])
  {
    var ws' := ws[1..];
    var x := Trailing(ws[2..], ts[1..]);
    assert ws'[0] == ws[1] && ws'[1..] == ws[2..];
    assert Layout(ws', ts[1..]) == ws[1] + x;
    assert ts[0].value + ws[1] + x == ts[0].value + (ws[1] + x);
  }

  /** The first character of a layout, if any, is whitespace or begins
      its first token. */
  lemma LayoutStart(ws: seq<string>, ts: seq<Token>)
    requires |ws| == |ts| + 1
    requires Blank(ws[0]) && (ts != [] ==> |ts[0].value| > 0)
    ensures var s := Layout(ws, ts);
      s == [] || IsSkippable(s[0]) || (ws[0] == [] && ts != [] && s[0] == ts[0].value[0])
    ensures ws[0] == [] && ts != [] ==> Layout(ws, ts) != [] && Layout(ws, ts)[0] == ts[0].value[0]
  {
    if ws[0] != [] {
      assert Layout(ws, ts)[0] == ws[0][0];
    } else if ts != [] {
      LayoutFirst(ws, ts);
      assert Layout(ws, ts) == [] + Trailing(ws[1..], ts);
    }
  }

  /** Dropping the first gap and token keeps a layout valid. */
  lemma LayoutRest(ws: seq<string>, ts: seq<Token>)
    requires |ws| == |ts| + 1 && ts != []
    requires forall i :: 0 <= i < |ws| ==> Blank(ws[i])
    requires forall i :: 0 <= i < |ts| ==> WellFormed(ts[i])
    requires Separated(ws, ts)
    ensures forall i :: 0 <= i < |ws| - 1 ==> Blank(ws[1..][i])
    ensures forall i :: 0 <= i < |ts| - 1 ==> WellFormed(ts[1..][i])
    ensures Separated(ws[1..], ts[1..])
    ensures ws[1] == [] && |ts| > 1 ==> |ts[1].value| > 0 && Delimits(ts[0], ts[1].value[0])
  {
    var ws', ts' := ws[1..], ts[1..];
    forall i | 0 <= i < |ts'| - 1 && ws'[i + 1] == [] && ts'[i + 1].value != []
      ensures Delimits(ts'[i], ts'[i + 1].value[0])
    {
      assert ws'[i + 1] == ws[i + 2] && ts'[i] == ts[i + 1] && ts'[i + 1] == ts[i + 2];
    }
    if ws[1] == [] && |ts| > 1 {
      WellFormedCharacters(ts[1]);
    }
  }

  /** The converse of ScanLayout: well-formed tokens laid out with
      whitespace gaps, where tokens that touch cannot run into each other,
      scan back to exactly those tokens. */
  lemma {:induction false} LayoutScan(ws: seq<string>, ts: seq<Token>)
    requires |ws| == |ts| + 1
    requires forall i :: 0 <= i < |ws| ==> Blank(ws[i])
    requires forall i :: 0 <= i < |ts| ==> WellFormed(ts[i])
    requires Separated(ws, ts)
    ensures Scan(Layout(ws, ts)) == Success(ts)
    decreases |ts|
  {
    var tr := Trailing(ws[1..], ts);
    BlankPrefix(ws[0], tr);
    if ts != [] {
      var ws', ts' := ws[1..], ts[1..];
      var after := Layout(ws', ts');
      LayoutFirst(ws, ts);
      LayoutRest(ws, ts);
      LayoutScan(ws', ts');
      assert after == [] || Delimits(ts[0], after[0]) by {
        if ts' != [] { WellFormedCharacters(ts'[0]); }
        LayoutStart(ws', ts');
      }
      ScanTokenThen(ts[0], after);
      assert [ts[0]] + ts' == ts;
    }
  }

  /** A scan fails at the first character outside the alphabet, and reports
      that character. */
  lemma {:induction false} ScanFailsAtFirstUnrecognized(s: string, i: nat)
    requires i < |s| && !Recognized(s[i])
    requires forall j :: 0 <= j < i ==> Recognized(s[j])
    ensures Scan(s) == Failure(s[i])
    decreases |s|
  {
    ScanStep(s);
    StepFacts(s);
    if i > 0 {
      match Step(s)
      case Emit(t, rest) =>
        WellFormedCharacters(t);
        var k := |t.value|;
        assert k <= i;
        assert rest == s[k..];
        ScanFailsAtFirstUnrecognized(rest, i - k);
      case Skip(rest) =>
        ScanFailsAtFirstUnrecognized(rest, i - 1);
      case Reject(_) =>
    }
  }

  /** Input made only of accepted characters always scans successfully. */
  lemma {:induction false} ScanSucceedsOnAlphabet(s: string)
    requires forall j :: 0 <= j < |s| ==> Recognized(s[j])
    ensures Scan(s).Success?
    decreases |s|
  {
    if s != [] {
      ScanStep(s);
      StepFacts(s);
      match Step(s)
      case Emit(t, rest) =>
        var k := |t.value|;
        assert rest == s[k..];
        ScanSucceedsOnAlphabet(rest);
      case Skip(rest) =>
        ScanSucceedsOnAlphabet(rest);
      case Reject(_) =>
    }
  }

  /** Any sequence of well-formed tokens, written out with a space after
      each value, scans back to exactly that sequence. */
  lemma {:induction false} RelexRoundTrip(ts: seq<Token>)
    requires forall i :: 0 <= i < |ts| ==> WellFormed(ts[i])
    ensures Scan(Unlex(ts)) == Success(ts)
    decreases |ts|
  {
    if ts != [] {
      var t, u := ts[0], Unlex(ts[1..]);
      var sp := " " + u;
      assert Unlex(ts) == t.value + sp;
      StepOfToken(t, sp);
      ScanStep(t.value + sp);
      WhitespaceEmitsNothing(' ', u);
      RelexRoundTrip(ts[1..]);
      assert [t] + ts[1..] == ts;
    }
  }

  /** Re-scanning the written-out tokens of a successful scan reproduces
      that scan. */
  lemma ScanRelex(s: string)
    requires Scan(s).Success?
    ensures Scan(Unlex(Scan(s).tokens)) == Scan(s)
  {
    ScanTokensWellFormed(s);
    RelexRoundTrip(Scan(s).tokens);
  }

  /** A well-formed token at the end of the input, or followed by a
      character that cannot extend it, is scanned as itself, in front of
      whatever follows. */
  lemma {:induction false} ScanTokenThen(t: Token, rest: string)
    requires WellFormed(t)
    requires rest == [] || Delimits(t, rest[0])
    ensures Scan(t.value + rest) == Prepend([t], Scan(rest))
  {
    StepOfToken(t, rest);
    ScanStep(t.value + rest);
  }

  /** A lone run of digits scans to a single Number token. */
  lemma {:induction false} ScanNumberRun(v: string)
    requires DigitRun(v)
    ensures Scan(v) == Success([Token(v, Number)])
  {
    assert v + [] == v;
    ScanTokenThen(Token(v, Number), []);
  }

  /** A lone run of letters scans to a single token, classified by the
      keyword table only once the whole run is read: "let" is the keyword,
      "letx" an identifier. */
  lemma {:induction false} ScanWord(v: string)
    requires |v| > 0 && forall i :: 0 <= i < |v| ==> IsAlpha(v[i])
    ensures Scan(v) == Success([Token(v, if v == "let" then Let else Identifier)])
  {
    assert v + [] == v;
    ScanTokenThen(Token(v, Classify(v)), []);
  }

  /** The keyword is recognized only as a whole word. */
  lemma KeywordExamples()
    ensures Scan("let") == Success([Token("let", Let)])
    ensures Scan("letx") == Success([Token("letx", Identifier)])
    ensures Scan("x") == Success([Token("x", Identifier)])
  {
    ScanWord("let");
    ScanWord("letx");
    ScanWord("x");
  }

  /** The statement "let x = (1 + 23)": the keyword, an identifier, '=',
      and a parenthesised sum of a one-digit and a two-digit number ... */
  const ExampleTokens: seq<Token> := [Token("let", Let), Token("x", Identifier),
    Token("=", Equals), Token("(", OpenParem), Token("1", Number),
    Token("+", BinaryOperator), Token("23", Number), Token(")", CloseParem)]

  /** ... with single spaces between some of them and none between the
      others. */
  const ExampleGaps: seq<string> := ["", " ", " ", " ", "", " ", " ", "", ""]

  /** The example tokens and gaps spell out the statement. */
  lemma ExampleText()
    ensures Layout(ExampleGaps, ExampleTokens) == "let x = (1 + 23)"
  {
  }

  /** The example is a valid layout: the tokens are well formed, the gaps
      are whitespace, and touching tokens cannot run into each other. */
  lemma ExampleValid()
    ensures forall i :: 0 <= i < |ExampleGaps| ==> Blank(ExampleGaps[i])
    ensures forall i :: 0 <= i < |ExampleTokens| ==> WellFormed(ExampleTokens[i])
    ensures Separated(ExampleGaps, ExampleTokens)
  {
    assert Classify("let") == Let && Classify("x") == Identifier;
  }

  /** The statement "let x = (1 + 23)" from end to end: each branch of the
      dispatch takes part, and the spaces are dropped. */
  lemma ExampleStatement()
    ensures Scan("let x = (1 + 23)") == Success([Token("let", Let), Token("x", Identifier),
      Token("=", Equals), Token("(", OpenParem), Token("1", Number),
      Token("+", BinaryOperator), Token("23", Number), Token(")", CloseParem)])
  {
    ExampleText();
    ExampleValid();
    LayoutScan(ExampleGaps, ExampleTokens);
  }

  /** Input made only of spaces, newlines and tabs gives no tokens and no
      failure. */
  lemma {:induction false} WhitespaceOnly(s: string)
    requires forall i :: 0 <= i < |s| ==> IsSkippable(s[i])
    ensures Scan(s) == Success([])
    decreases |s|
  {
    if s != [] {
      assert s == [s[0]] + s[1..];
      WhitespaceEmitsNothing(s[0], s[1..]);
      WhitespaceOnly(s[1..]);
    }
  }

  /** Two digit runs written next to each other form one digit run. */
  lemma {:induction false} DigitRunAppend(a: string, b: string)
    requires DigitRun(a) && DigitRun(b)
    ensures DigitRun(a + b)
  {
    forall i | 0 <= i < |a + b| ensures IsInt((a + b)[i]) {
      if i < |a| { assert (a + b)[i] == a[i]; } else { assert (a + b)[i] == b[i - |a|]; }
    }
  }

  /** Two digit runs separated by a space scan to two numbers. */
  lemma {:induction false} SeparatedNumbers(a: string, b: string)
    requires DigitRun(a) && DigitRun(b)
    ensures Scan(a + " " + b) == Success([Token(a, Number), Token(b, Number)])
  {
    var ta, tb := Token(a, Number), Token(b, Number);
    assert Scan(" " + b) == Success([tb]) by {
      assert " " + b == [' '] + b;
      WhitespaceEmitsNothing(' ', b);
      ScanNumberRun(b);
    }
    assert Scan(a + " " + b) == Prepend([ta], Scan(" " + b)) by {
      assert a + " " + b == ta.value + (" " + b);
      ScanTokenThen(ta, " " + b);
    }
    assert [ta] + [tb] == [ta, tb];
  }

  /** The values of those two numbers, written next to each other, form
      one digit run, which scans to a single number. */
  lemma {:induction false} AdjacentNumbersMerge(a: string, b: string)
    requires DigitRun(a) && DigitRun(b)
    ensures Values([Token(a, Number), Token(b, Number)]) == a + b
    ensures Scan(a + b) == Success([Token(a + b, Number)])
  {
    var ta, tb := Token(a, Number), Token(b, Number);
    assert Values([ta, tb]) == a + b by {
      assert Values([ta, tb]) == a + Values([tb]);
      assert Values([tb]) == b + Values([]);
    }
    DigitRunAppend(a, b);
    ScanNumberRun(a + b);
  }

  /** For instance "12 34" gives the numbers 12 and 34, but their values
      written together, "1234", give the single number 1234. */
  lemma ConcatenationDoesNotRelex()
    ensures Scan("12 34") == Success([Token("12", Number), Token("34", Number)])
    ensures Values([Token("12", Number), Token("34", Number)]) == "1234"
    ensures Scan("1234") == Success([Token("1234", Number)])
  {
    assert DigitRun("12") && DigitRun("34");
    assert "12" + " " + "34" == "12 34" && "12" + "34" == "1234";
    SeparatedNumbers("12", "34");
    AdjacentNumbersMerge("12", "34");
  }
}
