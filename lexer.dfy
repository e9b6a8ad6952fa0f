/** The lexer of src/lexer.rs.

    The source declares its tokens as regular expressions and lets a generated
    automaton pick, at every position, the longest prefix matching one of them:
      skipped     [ \t]+
      NewLine     [\n\f]+            (the lexer stops there)
      + - * / ( ) one token each
      Number      [0-9][0-9_]*  |  0b[0-1_]*  |  0o[0-7_]*  |  0x[0-9a-fA-F_]*
    and every other character is an Error token of length one.  Here that
    longest-match scanner is written out by hand (LogosNext, ScanAt), the
    conversion callback is ParseInt, and the error text that the source passes
    through a global variable is returned directly as a LexError value. */
module Lexer {
  import opened Wrappers

  /** Rust's u64. */
  newtype u64 = x: int | 0 <= x < 0x1_0000_0000_0000_0000

  const U64Limit: nat := 0x1_0000_0000_0000_0000
  const FormFeed: char := '\U{C}'

  datatype Token = Error | NewLine | Plus | Minus | Times | Division | LP | RP | Number(value: u64)
  {
    /** The tokens `lexer` may hand on; Error and NewLine stay inside the lexer. */
    predicate IsEmitted() {
      !Error? && !NewLine?
    }

    /** `Display for Token`; the two internal markers print their variant names. */
    function Display(): string {
      match this
      case Plus => "+"
      case Minus => "-"
      case Times => "*"
      case Division => "/"
      case LP => "("
      case RP => ")"
      case Number(n) => Digits(n as nat, 10)
      case Error => "Error"
      case NewLine => "NewLine"
    }
  }

  // ---------------------------------------------------------------------------
  // Digits and numerals

  function DigitValue(c: char): nat {
    if '0' <= c <= '9' then c as nat - '0' as nat
    else if 'a' <= c <= 'f' then c as nat - 'a' as nat + 10
    else if 'A' <= c <= 'F' then c as nat - 'A' as nat + 10
    else 0
  }

  /** A digit of `radix`; hexadecimal digits in either case. */
  predicate IsDigitOf(c: char, radix: nat) {
    ('0' <= c <= '9' || 'a' <= c <= 'f' || 'A' <= c <= 'F') && DigitValue(c) < radix
  }

  function DigitChar(d: nat): (c: char)
    requires d < 16
    ensures DigitValue(c) == d && ('0' <= c <= '9' || 'a' <= c <= 'f')
  {
    if d < 10 then ('0' as int + d) as char else ('a' as int + d - 10) as char
  }

  /** The value of a digit string, most significant digit first. */
  function DigitsValue(ds: string, radix: nat): nat {
    if ds == [] then 0 else DigitsValue(ds[..|ds| - 1], radix) * radix + DigitValue(ds[|ds| - 1])
  }

  /** The numeral of `n` in `radix` (lower-case digits, no leading zero). */
  function Digits(n: nat, radix: nat): (r: string)
    requires 2 <= radix <= 16
    ensures |r| >= 1 && (|r| == 1 <==> n < radix)
    decreases n
  {
    if n < radix then [DigitChar(n)]
    else
      DivMod(n, radix);
      Digits(n / radix, radix) + [DigitChar(n % radix)]
  }

  lemma DivMod(n: nat, radix: nat)
    requires 2 <= radix <= n
    ensures n / radix < n && (n / radix) * radix + n % radix == n && n % radix < radix
  {
  }

  /** Reading a numeral back gives the number, and only 0 is written with a leading zero. */
  lemma {:induction false} DigitsRoundTrip(n: nat, radix: nat)
    requires 2 <= radix <= 16
    ensures DigitsValue(Digits(n, radix), radix) == n
    ensures Digits(n, radix)[0] == '0' ==> n == 0
    ensures forall k :: 0 <= k < |Digits(n, radix)| ==> IsDigitOf(Digits(n, radix)[k], radix)
    decreases n
  {
    if n < radix {
      assert Digits(n, radix) == [DigitChar(n)];
    } else {
      var q, d := n / radix, n % radix;
      assert q < n && q * radix + d == n && d < radix by {
        DivMod(n, radix);
      }
      var high := Digits(q, radix);
      var r := Digits(n, radix);
      assert r == high + [DigitChar(d)];
      DigitsRoundTrip(q, radix);
      assert DigitsValue(r, radix) == n by {
        assert r[..|r| - 1] == high;
        assert DigitsValue(r, radix) == DigitsValue(high, radix) * radix + DigitValue(DigitChar(d));
      }
      assert r[0] == high[0];
      assert forall k :: 0 <= k < |high| ==> r[k] == high[k];
      assert IsDigitOf(r[|r| - 1], radix);
    }
  }

  // ---------------------------------------------------------------------------
  // Character classes and runs

  datatype CharClass = Blanks | LineBreaks | DigitRun(radix: nat)

  predicate InClass(c: char, cls: CharClass) {
    match cls
    case Blanks => c == ' ' || c == '\t'
    case LineBreaks => c == '\n' || c == FormFeed
    case DigitRun(radix) => IsDigitOf(c, radix) || c == '_'
  }

  /** The end of the longest run of `cls` characters that starts at `i`. */
  function RunEnd(s: string, i: nat, cls: CharClass): (j: nat)
    requires i <= |s|
    ensures i <= j <= |s|
    ensures forall k :: i <= k < j ==> InClass(s[k], cls)
    ensures j == |s| || !InClass(s[j], cls)
    decreases |s| - i
  {
    if i < |s| && InClass(s[i], cls) then RunEnd(s, i + 1, cls) else i
  }

  predicate IsRunOf(w: string, cls: CharClass) {
    forall k :: 0 <= k < |w| ==> InClass(w[k], cls)
  }

  lemma RunEndIsRun(s: string, i: nat, cls: CharClass)
    requires i <= |s|
    ensures IsRunOf(s[i..RunEnd(s, i, cls)], cls)
  {
    var j := RunEnd(s, i, cls);
    assert forall k :: 0 <= k < j - i ==> s[i..j][k] == s[i + k];
  }

  // ---------------------------------------------------------------------------
  // parse_int and the number rules

  /** `input.replace("_", "")`: the characters of `s` other than `_`, in order. */
  function StripUnderscores(s: string): (r: string)
    ensures '_' !in r && |r| <= |s|
  {
    if s == [] then [] else (if s[0] == '_' then [] else [s[0]]) + StripUnderscores(s[1..])
  }

  /** parse_int: the underscore-free digits read in `radix` (an empty run is 0),
      or None when the value does not fit in u64.  The callers hand it only the
      digit run a number rule matched, so every character is a digit of the
      radix or `_`. */
  function ParseInt(input: string, radix: nat): (r: Option<u64>)
    requires IsRunOf(input, DigitRun(radix))
    ensures r.Some? <==> DigitsValue(StripUnderscores(input), radix) < U64Limit
    ensures r.Some? ==> r.value as nat == DigitsValue(StripUnderscores(input), radix)
  {
    var digits := StripUnderscores(input);
    if |digits| == 0 then Some(0)
    else
      var v := DigitsValue(digits, radix);
      if v < U64Limit then Some(v as u64) else None
  }

  /** The radix a `0b`, `0o` or `0x` prefix selects (prefix letters are lower case only). */
  function RadixOfMarker(c: char): Option<nat> {
    if c == 'b' then Some(2) else if c == 'o' then Some(8) else if c == 'x' then Some(16) else None
  }

  /** `[0-9][0-9_]*` */
  predicate IsDecLiteral(w: string) {
    |w| >= 1 && IsDigitOf(w[0], 10) && IsRunOf(w[1..], DigitRun(10))
  }

  /** `0b[0-1_]*`, `0o[0-7_]*` and `0x[0-9a-fA-F_]*` */
  predicate IsPrefixedLiteral(w: string, marker: char, radix: nat) {
    |w| >= 2 && w[0] == '0' && w[1] == marker && IsRunOf(w[2..], DigitRun(radix))
  }

  /** The text of a Number token. */
  predicate IsNumberLiteral(w: string) {
    IsDecLiteral(w) || IsPrefixedLiteral(w, 'b', 2) || IsPrefixedLiteral(w, 'o', 8) || IsPrefixedLiteral(w, 'x', 16)
  }

  function LiteralRadix(w: string): nat {
    if |w| >= 2 && w[0] == '0' && RadixOfMarker(w[1]).Some? then RadixOfMarker(w[1]).value else 10
  }

  /** The value a number literal denotes: its digits after the prefix, underscores dropped. */
  function LiteralValue(w: string): nat {
    var digits := if LiteralRadix(w) == 10 then w else w[2..];
    DigitsValue(StripUnderscores(digits), LiteralRadix(w))
  }

  // ---------------------------------------------------------------------------
  // The scanner

  /** One match of the automaton: the token (Error when nothing matches or the
      number callback fails) and the span [start, end) it covers. */
  datatype Lexeme = Lexeme(token: Token, start: nat, end: nat)

  /** The six one-character tokens `+ - * / ( )`. */
  function SymbolToken(c: char): Option<Token> {
    if c == '+' then Some(Plus)
    else if c == '-' then Some(Minus)
    else if c == '*' then Some(Times)
    else if c == '/' then Some(Division)
    else if c == '(' then Some(LP)
    else if c == ')' then Some(RP)
    else None
  }

  /** A character some rule can start with. */
  predicate StartsToken(c: char) {
    InClass(c, Blanks) || InClass(c, LineBreaks) || SymbolToken(c).Some? || IsDigitOf(c, 10)
  }

  function NumberToken(v: Option<u64>): Token {
    if v.Some? then Number(v.value) else Error
  }

  /** `0b…`, `0o…` or `0x…` at `start`: the prefix and the longest run of
      digits of the radix and underscores after it. */
  function ScanPrefixed(s: string, start: nat, radix: nat): (lx: Lexeme)
    requires start + 1 < |s| && s[start] == '0' && RadixOfMarker(s[start + 1]) == Some(radix)
    ensures lx.start == start && start + 2 <= lx.end <= |s|
    ensures IsNumberLiteral(s[start..lx.end])
    ensures lx.token == NumberToken(if LiteralValue(s[start..lx.end]) < U64Limit
                                    then Some(LiteralValue(s[start..lx.end]) as u64) else None)
  {
    var end := RunEnd(s, start + 2, DigitRun(radix));
    RunEndIsRun(s, start + 2, DigitRun(radix));
    var w := s[start..end];
    assert w[2..] == s[start + 2..end];
    assert IsPrefixedLiteral(w, s[start + 1], radix);
    assert LiteralRadix(w) == radix;
    Lexeme(NumberToken(ParseInt(s[start + 2..end], radix)), start, end)
  }

  lemma SingleDigitValue(c: char, radix: nat)
    requires c != '_'
    ensures StripUnderscores([c]) == [c] && DigitsValue([c], radix) == DigitValue(c)
  {
    assert [c][..0] == [];
    assert [c][1..] == [];
  }

  /** A decimal literal at `start`: the digit and the longest run of digits and
      underscores after it. */
  function ScanDecimal(s: string, start: nat): (lx: Lexeme)
    requires start < |s| && IsDigitOf(s[start], 10)
    requires !(s[start] == '0' && start + 1 < |s| && RadixOfMarker(s[start + 1]).Some?)
    ensures lx.start == start < lx.end <= |s|
    ensures IsNumberLiteral(s[start..lx.end])
    ensures lx.token == NumberToken(if LiteralValue(s[start..lx.end]) < U64Limit
                                    then Some(LiteralValue(s[start..lx.end]) as u64) else None)
    ensures lx.end == start + 1 ==> lx.token.Number?
  {
    var end := RunEnd(s, start + 1, DigitRun(10));
    DecimalRun(s, start);
    Lexeme(NumberToken(ParseInt(s[start..end], 10)), start, end)
  }

  /** The digit at `start` and the run after it form a decimal literal. */
  lemma DecimalRun(s: string, start: nat)
    requires start < |s| && IsDigitOf(s[start], 10)
    requires !(s[start] == '0' && start + 1 < |s| && RadixOfMarker(s[start + 1]).Some?)
    ensures var w := s[start..RunEnd(s, start + 1, DigitRun(10))];
      IsDecLiteral(w) && IsRunOf(w, DigitRun(10)) && LiteralRadix(w) == 10 &&
      (|w| == 1 ==> StripUnderscores(w) == w && DigitsValue(w, 10) == DigitValue(s[start]))
  {
    var end := RunEnd(s, start + 1, DigitRun(10));
    RunEndIsRun(s, start + 1, DigitRun(10));
    var w := s[start..end];
    assert w[0] == s[start] && w[1..] == s[start + 1..end];
    assert IsRunOf(w, DigitRun(10)) by {
      forall k | 0 <= k < |w|
        ensures InClass(w[k], DigitRun(10))
      {
        if k > 0 {
          assert w[k] == w[1..][k - 1];
        }
      }
    }
    if |w| == 1 {
      SingleDigitValue(s[start], 10);
      assert w == [s[start]];
    }
  }

  /** The longest match at `start`, which is not a blank. */
  function ScanAt(s: string, start: nat): (lx: Lexeme)
    requires start < |s| && !InClass(s[start], Blanks)
    ensures lx.start == start < lx.end <= |s|
    ensures lx.token.Number? ==>
      IsNumberLiteral(s[start..lx.end]) && lx.token.value as nat == LiteralValue(s[start..lx.end])
    ensures lx.token.Error? && lx.end == start + 1 ==> !StartsToken(s[start])
    ensures lx.token.Error? && lx.end > start + 1 ==>
      IsNumberLiteral(s[start..lx.end]) && LiteralValue(s[start..lx.end]) >= U64Limit
    ensures lx.token.NewLine? <==> InClass(s[start], LineBreaks)
  {
    var c := s[start];
    if InClass(c, LineBreaks) then Lexeme(NewLine, start, RunEnd(s, start + 1, LineBreaks))
    else if SymbolToken(c).Some? then Lexeme(SymbolToken(c).value, start, start + 1)
    else if c == '0' && start + 1 < |s| && RadixOfMarker(s[start + 1]).Some? then
      ScanPrefixed(s, start, RadixOfMarker(s[start + 1]).value)
    else if IsDigitOf(c, 10) then ScanDecimal(s, start)
    else Lexeme(Error, start, start + 1)
  }

  /** The automaton's `next()`: skip blanks, then take the longest match, or
      None at the end of the input. */
  function LogosNext(s: string, pos: nat): (r: Option<Lexeme>)
    requires pos <= |s|
    ensures r.Some? ==> pos <= r.value.start < r.value.end <= |s|
    ensures r.None? <==> forall k :: pos <= k < |s| ==> InClass(s[k], Blanks)
  {
    var start := RunEnd(s, pos, Blanks);
    if start == |s| then None else Some(ScanAt(s, start))
  }

  // ---------------------------------------------------------------------------
  // lexer

  datatype LexError =
    | InvalidCharacter(start: nat, end: nat, slice: string)
    | ParseIntFailed(start: nat, end: nat, raw: string)
  {
    /** The message `lexer` returns; a span prints as Rust's `start..end`. */
    function Message(): string {
      match this
      case InvalidCharacter(start, end, slice) =>
        "Invalid character near " + SpanText(start, end) + ": " + slice
      case ParseIntFailed(start, end, raw) =>
        "Parse int failed: number too large to fit in target type\nNear " + SpanText(start, end) + ": " + raw
    }
  }

  function SpanText(start: nat, end: nat): string {
    Digits(start, 10) + ".." + Digits(end, 10)
  }

  /** The error for an Error match: a one-character slice is an invalid
      character, a longer one a literal whose conversion failed. */
  function ErrorOf(s: string, lx: Lexeme): LexError
    requires lx.start < lx.end <= |s|
  {
    if lx.end - lx.start == 1 then InvalidCharacter(lx.start, lx.end, s[lx.start..lx.end])
    else ParseIntFailed(lx.start, lx.end, s[lx.start..lx.end])
  }

  /** What a lexer error says about the text: an invalid character is a single
      character no rule starts with; a failed literal is a whole number literal
      whose value is 2^64 or more. */
  predicate DescribesError(s: string, e: LexError) {
    match e
    case InvalidCharacter(start, end, slice) =>
      end == start + 1 <= |s| && slice == [s[start]] && !StartsToken(s[start])
    case ParseIntFailed(start, end, raw) =>
      start < end <= |s| && raw == s[start..end] && IsNumberLiteral(raw) && LiteralValue(raw) >= U64Limit
  }

  /** The tokens of `s` from `pos` on. */
  function TokenizeFrom(s: string, pos: nat): (r: Result<seq<Token>, LexError>)
    requires pos <= |s|
    ensures r.Success? ==> forall k :: 0 <= k < |r.value| ==> r.value[k].IsEmitted()
    ensures r.Failure? ==> DescribesError(s, r.error)
    decreases |s| - pos
  {
    match LogosNext(s, pos)
    case None => Success([])
    case Some(lx) =>
      if lx.token.Error? then Failure(ErrorOf(s, lx))
      else if lx.token.NewLine? then Success([])
      else
        var rest :- TokenizeFrom(s, lx.end);
        Success([lx.token] + rest)
  }

  /** The result of `lexer(s)`. */
  function Tokenize(s: string): (r: Result<seq<Token>, LexError>)
    ensures r.Success? ==> forall k :: 0 <= k < |r.value| ==> r.value[k].IsEmitted()
    ensures r.Failure? ==> DescribesError(s, r.error)
  {
    TokenizeFrom(s, 0)
  }

  /** `tokens` followed by the outcome of the rest of the scan. */
  function Prepend(tokens: seq<Token>, r: Result<seq<Token>, LexError>): Result<seq<Token>, LexError> {
    if r.Failure? then r else Success(tokens + r.value)
  }

  lemma PrependPrepend(a: seq<Token>, b: seq<Token>, r: Result<seq<Token>, LexError>)
    ensures Prepend(a, Prepend(b, r)) == Prepend(a + b, r)
  {
    if r.Success? {
      assert a + (b + r.value) == (a + b) + r.value;
    }
  }

  /** `lexer`: pull matches until the input or the line ends, pushing each token;
      the first Error match ends the call with its message. */
  method Lex(input: string) returns (r: Result<seq<Token>, LexError>)
    ensures r == Tokenize(input)
  {
    var tokens: seq<Token> := [];
    var pos: nat := 0;
    assert Tokenize(input).Success? ==> [] + Tokenize(input).value == Tokenize(input).value;
    while true
      invariant pos <= |input|
      invariant Tokenize(input) == Prepend(tokens, TokenizeFrom(input, pos))
      decreases |input| - pos
    {
      var next := LogosNext(input, pos);
      if next.None? {
        assert tokens + [] == tokens;
        break;
      }
      var lx := next.value;
      if lx.token.Error? {
        return Failure(ErrorOf(input, lx));
      }
      if lx.token.NewLine? {
        assert tokens + [] == tokens;
        break;
      }
      assert TokenizeFrom(input, pos) == Prepend([lx.token], TokenizeFrom(input, lx.end));
      PrependPrepend(tokens, [lx.token], TokenizeFrom(input, lx.end));
      tokens := tokens + [lx.token];
      pos := lx.end;
    }
    return Success(tokens);
  }
}
