/** The single-pass lexical scanner of the interpreter's front end.
    Characters come in, classified tokens come out, or the scan stops at the
    first character that belongs to no token class. */
module Lexer {

  datatype Option<+T> = None | Some(value: T)

  /** The closed set of token kinds, spelled as the scanner spells them. */
  datatype TokenType = Number | Identifier | Equals | OpenParem | CloseParem | BinaryOperator | Let

  /** One classified lexeme: the characters it was built from and its kind. */
  datatype Token = Token(value: string, tokenType: TokenType)

  /** A whole scan: the tokens in source order, or the offending character. */
  datatype ScanResult = Success(tokens: seq<Token>) | Failure(badChar: char)

  /** The reserved words; an identifier run is looked up here once complete. */
  const KEYWORDS: map<string, TokenType> := map["let" := Let]

  // ---------------------------------------------------------------------
  // Character classes
  // ---------------------------------------------------------------------

  /** The four arithmetic operators. None of them is a digit or a letter,
      so an operator never starts or extends a number or a word; in
      particular '-' is always an operator and never a sign. */
  predicate IsBinaryOperator(c: char): (b: bool)
    ensures b ==> !IsInt(c) && !IsAlpha(c)
  {
    c == '+' || c == '-' || c == '*' || c == '/'
  }

  /** A letter. The scanner calls a character alphabetic when its upper-
      and lower-case forms differ; over ASCII those are exactly the letters
      (see AlphaByCaseMapping). */
  predicate IsAlpha(c: char) {
    'a' <= c <= 'z' || 'A' <= c <= 'Z'
  }

  /** Upper-case mapping, restricted to ASCII. */
  function ToUpper(c: char): char {
    if 'a' <= c <= 'z' then (c as int - 32) as char else c
  }

  /** Lower-case mapping, restricted to ASCII. */
  function ToLower(c: char): char {
    if 'A' <= c <= 'Z' then (c as int + 32) as char else c
  }

  /** The letter test as the scanner states it: the case forms differ. */
  lemma AlphaByCaseMapping(c: char)
    ensures IsAlpha(c) <==> ToUpper(c) != ToLower(c)
  {
  }

  /** A decimal digit. The scanner tests a character against the integer
      pattern; on a single character that is exactly this test (see
      IntPatternOnCharacter). */
  predicate IsInt(c: char) {
    '0' <= c <= '9'
  }

  /** One or more decimal digits. */
  predicate DigitRun(s: string) {
    |s| > 0 && forall i :: 0 <= i < |s| ==> IsInt(s[i])
  }

  /** Full match of the pattern ^-?\d+$: an optional minus sign, then one or
      more decimal digits, and nothing else. */
  predicate MatchesIntPattern(s: string) {
    if |s| > 0 && s[0] == '-' then DigitRun(s[1..]) else DigitRun(s)
  }

  /** On a one-character string the optional sign can never take part:
      the pattern accepts exactly the digits, and never '-'. */
  lemma IntPatternOnCharacter(c: char)
    ensures MatchesIntPattern([c]) <==> IsInt(c)
    ensures !MatchesIntPattern("-")
  {
    assert [c][0] == c && [c][1..] == [];
    assert "-"[1..] == [];
  }

  /** Characters that are consumed without producing a token. None of them
      belongs to any token class, so whitespace never ends up inside a
      token. */
  predicate IsSkippable(c: char): (b: bool)
    ensures b ==> !IsInt(c) && !IsAlpha(c) && !IsBinaryOperator(c)
    ensures b ==> c != '(' && c != ')' && c != '='
  {
    c == ' ' || c == '\n' || c == '\t'
  }

  /** Every character some branch of the scanner accepts. */
  predicate Recognized(c: char) {
    c == '(' || c == ')' || IsBinaryOperator(c) || c == '=' ||
    IsInt(c) || IsAlpha(c) || IsSkippable(c)
  }

  /** Kind of a complete letter run: its keyword kind if reserved, else Identifier. */
  function Classify(ident: string): (r: TokenType)
    ensures r == Let <==> ident == "let"
    ensures r == Identifier || r == Let
  {
    if ident in KEYWORDS then KEYWORDS[ident] else Identifier
  }

  // ---------------------------------------------------------------------
  // Specification of one step and of a whole scan
  // ---------------------------------------------------------------------

  /** What a token produced by the scanner looks like, kind by kind. */
  predicate WellFormed(t: Token) {
    var v := t.value;
    match t.tokenType
    case OpenParem => v == "("
    case CloseParem => v == ")"
    case BinaryOperator => |v| == 1 && IsBinaryOperator(v[0])
    case Equals => v == "="
    case Number => |v| > 0 && forall i :: 0 <= i < |v| ==> IsInt(v[i])
    case Identifier => |v| > 0 && (forall i :: 0 <= i < |v| ==> IsAlpha(v[i])) && Classify(v) == Identifier
    case Let => |v| > 0 && (forall i :: 0 <= i < |v| ==> IsAlpha(v[i])) && Classify(v) == Let
  }

  /** Length of the longest prefix of s whose characters all satisfy p. */
  function RunLength(s: string, p: char -> bool): (n: nat)
    ensures n <= |s|
    ensures forall i :: 0 <= i < n ==> p(s[i])
    ensures n == |s| || !p(s[n])
  {
    if s == [] || !p(s[0]) then 0 else 1 + RunLength(s[1..], p)
  }

  /** The effect of one dispatch on non-empty input. */
  datatype Lexeme = Emit(tok: Token, rest: string) | Skip(rest: string) | Reject(bad: char)

  /** One dispatch at the front of s, in the scanner's priority order. */
  function Step(s: string): (r: Lexeme)
    requires s != []
    ensures !r.Reject? ==> |r.rest| < |s|
  {
    var c := s[0];
    if c == '(' then Emit(Token([c], OpenParem), s[1..])
    else if c == ')' then Emit(Token([c], CloseParem), s[1..])
    else if IsBinaryOperator(c) then Emit(Token([c], BinaryOperator), s[1..])
    else if c == '=' then Emit(Token([c], Equals), s[1..])
    else if IsInt(c) then
      var n := RunLength(s, IsInt);
      Emit(Token(s[..n], Number), s[n..])
    else if IsAlpha(c) then
      var n := RunLength(s, IsAlpha);
      Emit(Token(s[..n], Classify(s[..n])), s[n..])
    else if IsSkippable(c) then Skip(s[1..])
    else Reject(c)
  }

  /** What one dispatch does: an emitted token is a well-formed prefix of
      the input and the rest follows it unchanged; a number or word run is
      maximal; only whitespace is skipped, one character at a time; and
      exactly the characters outside the alphabet are rejected. */
  lemma StepFacts(s: string)
    requires s != []
    ensures var r := Step(s);
      && (r.Emit? ==> s == r.tok.value + r.rest && WellFormed(r.tok))
      && (r.Emit? && r.tok.tokenType == Number ==> r.rest == [] || !IsInt(r.rest[0]))
      && (r.Emit? && r.tok.tokenType in {Identifier, Let} ==> r.rest == [] || !IsAlpha(r.rest[0]))
      && (r.Skip? ==> IsSkippable(s[0]) && r.rest == s[1..])
      && (r.Reject? <==> !Recognized(s[0]))
      && (r.Reject? ==> r.bad == s[0])
  {
  }

  /** Puts tokens in front of a successful result; a failure stays as it is. */
  function Prepend(ts: seq<Token>, r: ScanResult): ScanResult {
    match r
    case Success(rest) => Success(ts + rest)
    case Failure(c) => Failure(c)
  }

  /** The whole scan: dispatch repeatedly until the input is exhausted.
      Every token consumes at least one character, so there are never more
      tokens than characters. */
  function Scan(s: string): (r: ScanResult)
    ensures r.Success? ==> |r.tokens| <= |s|
    decreases |s|
  {
    if s == [] then Success([])
    else match Step(s)
      case Emit(t, rest) => Prepend([t], Scan(rest))
      case Skip(rest) => Scan(rest)
      case Reject(c) => Failure(c)
  }

  /** RunLength is determined by its contract. */
  lemma RunLengthUnique(s: string, p: char -> bool, m: nat)
    requires m <= |s|
    requires forall i :: 0 <= i < m ==> p(s[i])
    requires m == |s| || !p(s[m])
    ensures RunLength(s, p) == m
  {
  }

  /** One unfolding of Scan on non-empty input. */
  lemma ScanStep(s: string)
    requires s != []
    ensures Scan(s) == match Step(s)
      case Emit(t, rest) => Prepend([t], Scan(rest))
      case Skip(rest) => Scan(rest)
      case Reject(c) => Failure(c)
  {
  }

  /** One dispatch keeps "tokens so far, then a scan of the rest" equal to
      the scan of the whole input. */
  lemma StepKeepsScan(whole: string, tokens: seq<Token>, s: string)
    requires s != [] && Scan(whole) == Prepend(tokens, Scan(s))
    ensures match Step(s)
      case Emit(t, rest) => Scan(whole) == Prepend(tokens + [t], Scan(rest))
      case Skip(rest) => Scan(whole) == Prepend(tokens, Scan(rest))
      case Reject(c) => Scan(whole) == Failure(c)
  {
    ScanStep(s);
    match Step(s)
    case Emit(t, rest) =>
      if Scan(rest).Success? {
        var ts := Scan(rest).tokens;
        assert tokens + ([t] + ts) == (tokens + [t]) + ts;
      }
    case Skip(_) =>
    case Reject(_) =>
  }

  // ---------------------------------------------------------------------
  // The scanner: the input array consumed from the front, and the
  // output array the tokens are pushed onto
  // ---------------------------------------------------------------------

  class Scanner {
    /** The input as split into characters; pos marks how much was shifted off. */
    const source: string
    var pos: nat
    var tokens: seq<Token>

    /** The tokens pushed so far, followed by a scan of what is left,
        give the scan of the whole input. */
    ghost predicate Valid()
      reads this
    {
      pos <= |source| && Scan(source) == Prepend(tokens, Scan(source[pos..]))
    }

    /** The characters not yet shifted off the input. */
    ghost function Remaining(): string
      reads this
      requires pos <= |source|
    {
      source[pos..]
    }

    constructor (sourceCode: string)
      ensures Valid()
      ensures source == sourceCode && pos == 0 && tokens == []
    {
      source := sourceCode;
      pos := 0;
      tokens := [];
    }

    /** Shifts characters off the front of the input while they satisfy p,
        accumulating them: the longest run of p-characters. */
    method ShiftWhile(p: char -> bool) returns (run: string)
      requires pos <= |source|
      modifies this`pos
      ensures old(pos) <= pos <= |source|
      ensures run == old(Remaining())[..RunLength(old(Remaining()), p)]
      ensures Remaining() == old(Remaining())[|run|..]
    {
      var start := pos;
      run := "";
      while pos < |source| && p(source[pos])
        invariant start <= pos <= |source|
        invariant run == source[start..pos]
        invariant forall i :: start <= i < pos ==> p(source[i])
      {
        run := run + [source[pos]];
        pos := pos + 1;
      }
      RunLengthUnique(source[start..], p, pos - start);
    }

    /** Classifies the character at the front of the remaining input,
        consumes it (and the rest of its run) and pushes at most one token;
        an unrecognized character is reported and nothing is consumed. */
    method PushToken() returns (fault: Option<char>)
      requires Valid() && pos < |source|
      modifies this
      ensures Valid()
      ensures fault.None? ==> old(pos) < pos
      ensures match Step(old(Remaining()))
        case Emit(t, rest) => fault == None && tokens == old(tokens) + [t] && Remaining() == rest
        case Skip(rest) => fault == None && tokens == old(tokens) && Remaining() == rest
        case Reject(c) => fault == Some(c) && tokens == old(tokens) && pos == old(pos)
    {
      var s := source[pos..];
      var c := source[pos];
      assert s[0] == c;
      ghost var before := tokens;
      fault := None;
      if c == '(' {
        assert Step(s) == Emit(Token([c], OpenParem), source[pos + 1..]);
        tokens := tokens + [Token([c], OpenParem)];
        pos := pos + 1;
      } else if c == ')' {
        assert Step(s) == Emit(Token([c], CloseParem), source[pos + 1..]);
        tokens := tokens + [Token([c], CloseParem)];
        pos := pos + 1;
      } else if IsBinaryOperator(c) {
        assert Step(s) == Emit(Token([c], BinaryOperator), source[pos + 1..]);
        tokens := tokens + [Token([c], BinaryOperator)];
        pos := pos + 1;
      } else if c == '=' {
        assert Step(s) == Emit(Token([c], Equals), source[pos + 1..]);
        tokens := tokens + [Token([c], Equals)];
        pos := pos + 1;
      } else if IsInt(c) {
        var num := ShiftWhile(IsInt);
        assert Step(s) == Emit(Token(num, Number), source[pos..]);
        tokens := tokens + [Token(num, Number)];
      } else if IsAlpha(c) {
        var ident := ShiftWhile(IsAlpha);
        assert Step(s) == Emit(Token(ident, Classify(ident)), source[pos..]);
        var reserved := if ident in KEYWORDS then Some(KEYWORDS[ident]) else None;
        if reserved == None {
          tokens := tokens + [Token(ident, Identifier)];
        } else {
          tokens := tokens + [Token(ident, reserved.value)];
        }
      } else if IsSkippable(c) {
        assert Step(s) == Skip(source[pos + 1..]);
        pos := pos + 1;
      } else {
        assert Step(s) == Reject(c);
        fault := Some(c);
      }
      StepKeepsScan(source, before, s);
    }
  }

  /** Scans a whole source text: pushes tokens until the input is empty,
      or stops at the first unrecognized character. */
  method Tokenize(sourceCode: string) returns (r: ScanResult)
    ensures r == Scan(sourceCode)
    ensures sourceCode == [] ==> r == Success([])
  {
    var scanner := new Scanner(sourceCode);
    while scanner.pos < |scanner.source|
      invariant scanner.Valid() && scanner.source == sourceCode
      decreases |scanner.source| - scanner.pos
    {
      var fault := scanner.PushToken();
      if fault.Some? {
        return Failure(fault.value);
      }
    }
    assert scanner.source[scanner.pos..] == [];
    r := Success(scanner.tokens);
  }
}
