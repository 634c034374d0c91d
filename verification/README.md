# Lexer: a verified model of the interpreter's scanner

This project models the lexical scanner of a small TypeScript interpreter
(`lexer.ts`). The scanner turns source text into a flat sequence of tokens.
A token is a `value` (the characters it was built from) and a `type` from the
closed set `Number`, `Identifier`, `Equals`, `OpenParem`, `CloseParem`,
`BinaryOperator`, `Let`. The constructor names keep the source's spelling.

`tokenize` splits the text into a character array. It then calls `pushToken`
until the array is empty. Each call looks at the front character and
dispatches in this order:

- `(` and `)` give one token each.
- `+ - * /` give one `BinaryOperator` token.
- `=` gives one `Equals` token.
- A maximal run of digits gives one `Number` token.
- A maximal run of letters is looked up in the keyword table (`let` gives `Let`, anything else `Identifier`).
- Space, newline and tab are dropped.
- Any other character aborts the scan.

Layout:

- `lexer.dfy`, module `Lexer`, holds the model.
  - The datatypes, the keyword table and the character tests.
  - `Step`, a function that specifies one dispatch, and `Scan`, a function that specifies a whole scan.
  - The imperative scanner: class `Scanner`, with the input as an immutable `source` plus a cursor `pos` in place of the array the source shifts from, and a `tokens` sequence that is appended to. `Scanner.PushToken` is proved against `Step`; the object invariant `Valid()` says that the tokens pushed so far, followed by the scan of the remaining input, equal the scan of the whole input.
  - `Tokenize`, the driver loop, proved equal to `Scan`.
- `lexer_properties.dfy`, module `LexerProperties`, holds what is proved about `Scan`:
  - where characters go, and how the tokens lie in the input;
  - what shape tokens have;
  - where a scan fails;
  - a round trip from tokens back to text.

An unrecognized character makes the source log a message and exit the
process. Here it is a `Failure(badChar)` result, and the tokens produced
before it are discarded.

One might expect that concatenating the token values (dropping the
whitespace) and scanning again gives the same token types. It does not:
adjacent runs merge, so `"12 34"` scans to two numbers but `"1234"` to one
(`ConcatenationDoesNotRelex`). What does hold is that the values written out
with a space after each scan back to exactly the same tokens
(`RelexRoundTrip`, `ScanRelex`). More generally, the tokens of a successful
scan lie in the input in order, separated only by whitespace and with no run
that could have been extended (`ScanLayout`); and conversely any such
arrangement of well-formed tokens scans back to exactly those tokens
(`LayoutScan`).

## Model

| member | source | states |
|---|---|---|
| `Lexer.IsBinaryOperator` | lexer.ts:24-26 | true for `+ - * /`; none of them is a digit or a letter, so an operator never starts or extends a number or a word |
| `Lexer.IsSkippable` | lexer.ts:37-39 | true for space, newline and tab; none of them is a digit, letter, operator, parenthesis or `=`, so whitespace never ends up inside a token |
| `Lexer.IntPatternOnCharacter` | lexer.ts:32-34 | the pattern `^-?\d+$` applied to a one-character string accepts exactly the decimal digits; `"-"` alone never matches |
| `Lexer.AlphaByCaseMapping` | lexer.ts:28-30 | "upper-case form differs from lower-case form" holds exactly for the letters a-z and A-Z |
| `Lexer.Classify` | lexer.ts:64-70 | a completed letter run gets type `Let` exactly when it is `"let"`, and `Identifier` otherwise |
| `Lexer.RunLength` | lexer.ts:54-56 | the run is the longest prefix whose characters all pass the test: every character in it passes, and the next one (if any) does not |
| `Lexer.Step` | lexer.ts:41-78 | each dispatch that does not fail consumes at least one character, so the scan terminates |
| `Lexer.StepFacts` | lexer.ts:41-77 | an emitted token is a well-formed prefix of the input and is followed by the rest unchanged; number and letter runs are maximal; only space, newline and tab are skipped; a dispatch fails exactly on a character outside the alphabet, and reports that character |
| `Lexer.Scan` | lexer.ts:86-88 | the driver loop as a function: dispatch at the front until the input is exhausted, stopping at the first rejected character; a successful scan never has more tokens than the input has characters |
| `Lexer.StepKeepsScan` | lexer.ts:86-88 | one dispatch keeps "tokens so far, then the scan of the rest" equal to the scan of the whole input; a failing dispatch makes the whole scan fail with that character |
| `Lexer.Scanner.constructor` | lexer.ts:82-83 | a new scanner has the whole input pending, no tokens, and satisfies the scanner invariant |
| `Lexer.Scanner.ShiftWhile` | lexer.ts:54-56 | shifts exactly the maximal run of characters passing the test off the front of the input and returns them in order |
| `Lexer.Scanner.PushToken` | lexer.ts:41-78 | keeps the scanner invariant; pushes exactly the token `Step` emits and leaves exactly the rest `Step` leaves; on a skipped character pushes nothing; on an unrecognized character reports it and changes nothing; consumes input whenever it does not fail |
| `Lexer.Tokenize` | lexer.ts:81-91 | the result equals `Scan` of the input; the empty input gives an empty token list with no failure |
| `LexerProperties.SingleCharacterTokens` | lexer.ts:42-49 | `(`, `)`, `+ - * /` and `=` each give one token holding exactly that character, typed `OpenParem`, `CloseParem`, `BinaryOperator` and `Equals`, whatever follows; `-` is an operator and never starts a number |
| `LexerProperties.WhitespaceEmitsNothing` | lexer.ts:71-72 | a leading space, newline or tab is consumed and contributes no token |
| `LexerProperties.WhitespaceOnly` | lexer.ts:37-39 | input made only of spaces, newlines and tabs scans to no tokens and no failure |
| `LexerProperties.ScanTokensWellFormed` | lexer.ts:41-78 | every token of a successful scan is well formed: a non-empty value; every `Number` a run of decimal digits; every `Identifier` or `Let` a run of letters classified by the keyword table |
| `LexerProperties.WellFormedCharacters` | lexer.ts:41-78 | a well-formed token's value is non-empty and made of accepted, non-whitespace characters |
| `LexerProperties.ScanKeepsText` | lexer.ts:41-91 | on success, the token values concatenated in order equal the input with its whitespace removed, so every other character lies in exactly one token |
| `LexerProperties.ScanLayout` | lexer.ts:41-91 | on success the input is exactly the tokens in order with only whitespace before, between and after them: each token is a contiguous slice of the input and the slices follow one another; where two tokens touch, a number is never followed by a digit nor a word by a letter, so every run is maximal |
| `LexerProperties.LayoutScan` | lexer.ts:41-91 | conversely, well-formed tokens laid out with whitespace gaps, where no number touches a following digit and no word a following letter, scan back to exactly those tokens |
| `LexerProperties.ScanFailureCharacter` | lexer.ts:73-75 | a failed scan reports a character of the input that no branch accepts |
| `LexerProperties.ScanFailsAtFirstUnrecognized` | lexer.ts:73-75 | if the first unaccepted character is at index i, the scan fails and reports exactly that character |
| `LexerProperties.ScanSucceedsOnAlphabet` | lexer.ts:41-88 | input made only of accepted characters always scans successfully |
| `LexerProperties.StepOfToken` | lexer.ts:52-70 | a well-formed token followed by the end of input, or by a character that cannot extend its run, is read back as exactly that token |
| `LexerProperties.ScanTokenThen` | lexer.ts:52-70 | such a token is scanned as itself, in front of the scan of what follows |
| `LexerProperties.RelexRoundTrip` | lexer.ts:81-91 | any sequence of well-formed tokens, written out with a space after each value, scans back to exactly that sequence |
| `LexerProperties.ScanRelex` | lexer.ts:81-91 | re-scanning the written-out tokens of a successful scan reproduces that scan |
| `LexerProperties.ScanNumberRun` | lexer.ts:52-57 | a lone digit run scans to a single `Number` token holding the whole run |
| `LexerProperties.ScanWord` | lexer.ts:58-70 | a lone letter run scans to a single token holding the whole run, typed `Let` exactly when the run is `"let"` |
| `LexerProperties.KeywordExamples` | lexer.ts:11-13 | `"let"` scans to `Let`; `"letx"` and `"x"` scan to `Identifier` |
| `LexerProperties.ExampleStatement` | lexer.ts:41-91 | `"let x = (1 + 23)"` scans to `Let`, `Identifier`, `Equals`, `OpenParem`, `Number` 1, `BinaryOperator`, `Number` 23, `CloseParem` |
| `LexerProperties.SeparatedNumbers` | lexer.ts:52-57 | two digit runs separated by a space scan to two `Number` tokens |
| `LexerProperties.AdjacentNumbersMerge` | lexer.ts:54-56 | the same two runs written together form one run, which scans to a single `Number` |
| `LexerProperties.ConcatenationDoesNotRelex` | lexer.ts:54-56 | `"12 34"` gives the numbers 12 and 34, but their values concatenated, `"1234"`, give the single number 1234 |

## Left out

- Reading `./source.txt` and printing each token (lexer.ts:93-97) are I/O. They are not part of this model.
- The log message and `Deno.exit(1)` on an unrecognized character become a `Failure(badChar)` result. Tokens pushed before the fault are not returned.
- `isAlpha` compares `toUpperCase()` with `toLocaleLowerCase()`, which follow Unicode and the locale. The model uses ASCII case mapping only, so its letters are exactly `a-z` and `A-Z`. A non-ASCII letter such as `é` is accepted by the source and rejected by the model.
- `isInt` runs a regular expression engine. The model states the pattern `^-?\d+$` directly as `MatchesIntPattern`, with `\d` read as the ASCII digits. The scanner uses the equivalent single-character test `IsInt`.
- `KEYWORDS[ident]` is a JavaScript object lookup, so inherited property names such as `"constructor"` or `"toString"` are not `undefined`. The source would then push a token whose type is not a `TokenType`. The model's keyword table is exactly `{"let" ↦ Let}`, and those words become identifiers.
- `split("")` splits into UTF-16 code units. Dafny's `char` is a Unicode scalar value, so characters outside the Basic Multilingual Plane are one character here and two in the source.
- The two accumulation loops (lexer.ts:54-56 and 60-62) are the same loop with a different character test. Both are modelled by the one method `Scanner.ShiftWhile`, which takes the test as a parameter.
- The `?? ""` fallback after `src.shift()` can never be taken, because the array is non-empty at every shift.
- `pushToken` is never called on an empty array (it would throw inside `isAlpha`). `Scanner.PushToken` requires pending input instead.
