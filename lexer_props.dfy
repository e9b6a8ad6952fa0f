/** Properties of the lexer model: longest match, the line end, radix literals
    and their u64 bound, underscores, and a round trip from tokens to text. */
module LexerProps {
  import opened Wrappers
  import opened Lexer

  // ---------------------------------------------------------------------------
  // Runs

  /** A run that is exactly [i, j) ends at j. */
  lemma {:induction false} RunEndExact(s: string, i: nat, j: nat, cls: CharClass)
    requires i <= j <= |s|
    requires forall k :: i <= k < j ==> InClass(s[k], cls)
    requires j == |s| || !InClass(s[j], cls)
    ensures RunEnd(s, i, cls) == j
    decreases j - i
  {
    if i < j {
      RunEndExact(s, i + 1, j, cls);
    }
  }

  /** Appending text that starts outside the class does not move the end of a run. */
  lemma {:induction false} RunEndExtended(s: string, u: string, i: nat, cls: CharClass)
    requires |s| < |u| && u[..|s|] == s && i <= |s|
    requires !InClass(u[|s|], cls)
    ensures RunEnd(u, i, cls) == RunEnd(s, i, cls)
    decreases |s| - i
  {
    if i < |s| {
      assert u[i] == s[i];
      if InClass(s[i], cls) {
        RunEndExtended(s, u, i + 1, cls);
      }
    }
  }

  // ---------------------------------------------------------------------------
  // Longest match

  /** The prefix letters are no decimal digits. */
  lemma MarkerOutsideDecimal(c: char)
    requires RadixOfMarker(c).Some?
    ensures !InClass(c, DigitRun(10))
  {
  }

  lemma NoLongerPrefixed(s: string, start: nat, j: nat, radix: nat)
    requires start + 1 < |s| && s[start] == '0' && RadixOfMarker(s[start + 1]) == Some(radix)
    requires ScanPrefixed(s, start, radix).end < j <= |s|
    ensures !IsNumberLiteral(s[start..j])
  {
    PrefixedRunStops(s, start, RunEnd(s, start + 2, DigitRun(radix)), j, radix);
  }

  /** Past the end of the digit run after a prefix, no literal continues. */
  lemma PrefixedRunStops(s: string, start: nat, end: nat, j: nat, radix: nat)
    requires start + 1 < |s| && s[start] == '0' && RadixOfMarker(s[start + 1]) == Some(radix)
    requires start + 2 <= end < j <= |s| && !InClass(s[end], DigitRun(radix))
    ensures !IsNumberLiteral(s[start..j])
  {
    var w := s[start..j];
    var i := end - start;
    var m := s[start + 1];
    assert w[1] == m && w[1..][0] == m;
    assert w[2..][i - 2] == s[end];
    MarkerOutsideDecimal(m);
    assert !IsDecLiteral(w);
    assert !IsPrefixedLiteral(w, m, radix);
  }

  lemma NoLongerDecimal(s: string, start: nat, j: nat)
    requires start < |s| && IsDigitOf(s[start], 10)
    requires !(s[start] == '0' && start + 1 < |s| && RadixOfMarker(s[start + 1]).Some?)
    requires ScanDecimal(s, start).end < j <= |s|
    ensures !IsNumberLiteral(s[start..j])
  {
    var end := RunEnd(s, start + 1, DigitRun(10));
    assert ScanDecimal(s, start).end == end;
    var w := s[start..j];
    var i := end - start;
    assert w[1..][i - 1] == s[end];
    assert !InClass(s[end], DigitRun(10));
    assert !IsDecLiteral(w);
    assert w[0] == s[start] && w[1] == s[start + 1];
  }

  lemma NoLongerLiteral(s: string, start: nat, j: nat)
    requires start < |s| && IsDigitOf(s[start], 10)
    requires ScanAt(s, start).end < j <= |s|
    ensures !IsNumberLiteral(s[start..j])
  {
    ScanAtDigit(s, start);
    if s[start] == '0' && start + 1 < |s| && RadixOfMarker(s[start + 1]).Some? {
      NoLongerPrefixed(s, start, j, RadixOfMarker(s[start + 1]).value);
    } else {
      NoLongerDecimal(s, start, j);
    }
  }

  /** At a digit the number rule takes the longest prefix that is a number
      literal: its lexeme is one, and no longer prefix is. */
  lemma LongestMatch(s: string, start: nat)
    requires start < |s| && IsDigitOf(s[start], 10)
    ensures IsNumberLiteral(s[start..ScanAt(s, start).end])
    ensures forall j :: ScanAt(s, start).end < j <= |s| ==> !IsNumberLiteral(s[start..j])
  {
    forall j | ScanAt(s, start).end < j <= |s|
      ensures !IsNumberLiteral(s[start..j])
    {
      NoLongerLiteral(s, start, j);
    }
  }

  // ---------------------------------------------------------------------------
  // The line end

  /** A slice inside a prefix is a slice of the prefix. */
  lemma SliceOfPrefix(s: string, u: string, i: nat, j: nat)
    requires |s| <= |u| && u[..|s|] == s && i <= j <= |s|
    ensures u[i..j] == s[i..j]
  {
    assert forall k :: i <= k < j ==> u[k] == u[..|s|][k];
  }

  /** A decimal digit is no blank, line break or symbol. */
  lemma DigitIsNoSymbol(c: char)
    requires IsDigitOf(c, 10)
    ensures !InClass(c, Blanks) && !InClass(c, LineBreaks) && SymbolToken(c).None?
  {
  }

  /** Which number rule ScanAt takes at a digit. */
  lemma ScanAtDigit(s: string, start: nat)
    requires start < |s| && IsDigitOf(s[start], 10)
    ensures s[start] == '0' && start + 1 < |s| && RadixOfMarker(s[start + 1]).Some? ==>
      ScanAt(s, start) == ScanPrefixed(s, start, RadixOfMarker(s[start + 1]).value)
    ensures !(s[start] == '0' && start + 1 < |s| && RadixOfMarker(s[start + 1]).Some?) ==>
      ScanAt(s, start) == ScanDecimal(s, start)
  {
    DigitIsNoSymbol(s[start]);
  }

  lemma PrefixedExtended(s: string, u: string, start: nat, radix: nat)
    requires |s| < |u| && u[..|s|] == s && InClass(u[|s|], LineBreaks)
    requires start + 1 < |s| && s[start] == '0' && RadixOfMarker(s[start + 1]) == Some(radix)
    ensures u[start] == '0' && RadixOfMarker(u[start + 1]) == Some(radix)
    ensures ScanPrefixed(u, start, radix) == ScanPrefixed(s, start, radix)
  {
    assert u[start] == s[start] && u[start + 1] == s[start + 1];
    RunEndExtended(s, u, start + 2, DigitRun(radix));
    var end := RunEnd(s, start + 2, DigitRun(radix));
    SliceOfPrefix(s, u, start + 2, end);
  }

  lemma DecimalExtended(s: string, u: string, start: nat)
    requires |s| < |u| && u[..|s|] == s && InClass(u[|s|], LineBreaks)
    requires start < |s| && IsDigitOf(s[start], 10)
    requires !(s[start] == '0' && start + 1 < |s| && RadixOfMarker(s[start + 1]).Some?)
    ensures u[start] == s[start] && !(u[start] == '0' && start + 1 < |u| && RadixOfMarker(u[start + 1]).Some?)
    ensures ScanDecimal(u, start) == ScanDecimal(s, start)
  {
    assert u[start] == s[start];
    if start + 1 < |s| {
      assert u[start + 1] == s[start + 1];
    }
    RunEndExtended(s, u, start + 1, DigitRun(10));
    var end := RunEnd(s, start + 1, DigitRun(10));
    SliceOfPrefix(s, u, start, end);
  }

  lemma ScanAtExtended(s: string, u: string, start: nat)
    requires |s| < |u| && u[..|s|] == s && InClass(u[|s|], LineBreaks)
    requires start < |s| && !InClass(s[start], Blanks)
    ensures ScanAt(u, start).token == ScanAt(s, start).token
    ensures !ScanAt(s, start).token.NewLine? ==> ScanAt(u, start).end == ScanAt(s, start).end
  {
    assert u[start] == s[start];
    var c := s[start];
    if IsDigitOf(c, 10) {
      ScanAtDigit(s, start);
      ScanAtDigit(u, start);
      if c == '0' && start + 1 < |s| && RadixOfMarker(s[start + 1]).Some? {
        PrefixedExtended(s, u, start, RadixOfMarker(s[start + 1]).value);
      } else {
        DecimalExtended(s, u, start);
      }
    }
  }

  lemma {:induction false} TokenizeExtended(s: string, u: string, pos: nat)
    requires |s| < |u| && u[..|s|] == s && InClass(u[|s|], LineBreaks)
    requires pos <= |s|
    ensures TokenizeFrom(u, pos) == TokenizeFrom(s, pos)
    decreases |s| - pos
  {
    RunEndExtended(s, u, pos, Blanks);
    var start := RunEnd(s, pos, Blanks);
    if start < |s| {
      assert u[start] == s[start];
      ScanAtExtended(s, u, start);
      var lx := ScanAt(s, start);
      assert LogosNext(s, pos) == Some(lx);
      assert LogosNext(u, pos) == Some(ScanAt(u, start));
      if lx.token.Error? {
        SliceOfPrefix(s, u, lx.start, lx.end);
      } else if !lx.token.NewLine? {
        TokenizeExtended(s, u, lx.end);
      }
    } else {
      assert LogosNext(u, pos) == Some(ScanAt(u, |s|));
    }
  }

  /** `\n` or `\f` ends the line: whatever follows it is never read. */
  lemma StopsAtLineBreak(s: string, c: char, rest: string)
    requires c == '\n' || c == FormFeed
    ensures Tokenize(s + [c] + rest) == Tokenize(s)
  {
    var u := s + [c] + rest;
    assert u[..|s|] == s && u[|s|] == c;
    TokenizeExtended(s, u, 0);
  }

  // ---------------------------------------------------------------------------
  // Radix literals

  predicate IsRadix(radix: nat) {
    radix == 2 || radix == 8 || radix == 10 || radix == 16
  }

  function Prefix(radix: nat): string {
    if radix == 2 then "0b" else if radix == 8 then "0o" else if radix == 16 then "0x" else ""
  }

  /** The literal for `n` in `radix`: prefix and numeral. */
  function Literal(n: nat, radix: nat): string
    requires IsRadix(radix)
  {
    Prefix(radix) + Digits(n, radix)
  }

  lemma StripWithoutUnderscores(w: string)
    requires '_' !in w
    ensures StripUnderscores(w) == w
  {
    if w != [] {
      assert w == [w[0]] + w[1..];
      StripWithoutUnderscores(w[1..]);
    }
  }

  /** A numeral without underscores is a digit run and reads back as its number. */
  lemma NumeralRun(n: nat, radix: nat)
    requires IsRadix(radix)
    ensures var ds := Digits(n, radix);
      IsRunOf(ds, DigitRun(radix)) && IsDigitOf(ds[0], radix) &&
      DigitsValue(StripUnderscores(ds), radix) == n && (ds[0] == '0' ==> n == 0)
  {
    var ds := Digits(n, radix);
    DigitsRoundTrip(n, radix);
    assert '_' !in ds by {
      forall k | 0 <= k < |ds| ensures ds[k] != '_' {
        assert IsDigitOf(ds[k], radix);
      }
    }
    StripWithoutUnderscores(ds);
  }

  /** A decimal numeral is a decimal literal denoting its number. */
  lemma DecimalNumeral(n: nat, d: string)
    requires d == Digits(n, 10)
    ensures IsDecLiteral(d) && IsRunOf(d, DigitRun(10)) && LiteralRadix(d) == 10 && LiteralValue(d) == n
    ensures d[0] == '0' ==> |d| == 1
    ensures n >= U64Limit ==> |d| > 1
  {
    NumeralRun(n, 10);
    assert forall k :: 0 <= k < |d| - 1 ==> d[1..][k] == d[k + 1];
  }

  lemma DecimalLiteralText(n: nat)
    ensures var s := Literal(n, 10);
      IsDecLiteral(s) && IsRunOf(s, DigitRun(10)) && LiteralRadix(s) == 10 && LiteralValue(s) == n &&
      !(s[0] == '0' && 1 < |s|) && (n >= U64Limit ==> |s| > 1)
  {
    var s := Literal(n, 10);
    assert s == Digits(n, 10);
    DecimalNumeral(n, s);
  }

  lemma PrefixedLiteralText(n: nat, radix: nat)
    requires radix == 2 || radix == 8 || radix == 16
    ensures var s := Literal(n, radix);
      2 < |s| && s[0] == '0' && RadixOfMarker(s[1]) == Some(radix) &&
      IsRunOf(s[2..], DigitRun(radix)) && LiteralRadix(s) == radix && LiteralValue(s) == n
  {
    var s := Literal(n, radix);
    var ds := Digits(n, radix);
    NumeralRun(n, radix);
    assert s[2..] == ds;
    assert s[1] == Prefix(radix)[1];
  }

  lemma LiteralScan(n: nat, radix: nat)
    requires IsRadix(radix)
    ensures var s := Literal(n, radix);
      LogosNext(s, 0) == Some(Lexeme(LiteralToken(n), 0, |s|))
  {
    var s := Literal(n, radix);
    assert s[0..|s|] == s;
    if radix == 10 {
      DecimalLiteralText(n);
      ScanDecimalWord(s, 0, s);
    } else {
      PrefixedLiteralText(n, radix);
      ScanPrefixedWord(s, 0, s, radix);
    }
    RunEndExact(s, 0, 0, Blanks);
    assert LogosNext(s, 0) == Some(ScanAt(s, 0));
  }

  /** The prefix selects the radix, and a literal lexes to one Number token
      exactly when its value is below 2^64; otherwise the whole literal is the
      span of the error. */
  lemma LiteralRoundTrip(n: nat, radix: nat)
    requires IsRadix(radix)
    ensures Tokenize(Literal(n, radix)) ==
      if n < U64Limit then Success([Number(n as u64)])
      else Failure(ParseIntFailed(0, |Literal(n, radix)|, Literal(n, radix)))
  {
    var s := Literal(n, radix);
    LiteralScan(n, radix);
    assert s[0..|s|] == s;
    if radix == 10 {
      DecimalLiteralText(n);
    } else {
      PrefixedLiteralText(n, radix);
    }
    if n < U64Limit {
      assert TokenizeFrom(s, |s|) == Success([]);
      assert [Number(n as u64)] + [] == [Number(n as u64)];
    }
  }

  /** Underscores anywhere in a digit run are dropped before the conversion. */
  lemma {:induction false} StripAppend(a: string, b: string)
    ensures StripUnderscores(a + b) == StripUnderscores(a) + StripUnderscores(b)
  {
    if a == [] {
      assert a + b == b;
    } else {
      var h := if a[0] == '_' then [] else [a[0]];
      assert (a + b)[0] == a[0];
      assert (a + b)[1..] == a[1..] + b;
      StripAppend(a[1..], b);
      assert StripUnderscores(a + b) == h + StripUnderscores(a[1..] + b);
      assert StripUnderscores(a) == h + StripUnderscores(a[1..]);
      assert h + (StripUnderscores(a[1..]) + StripUnderscores(b))
          == (h + StripUnderscores(a[1..])) + StripUnderscores(b);
    }
  }

  lemma UnderscoreInRun(a: string, b: string, radix: nat)
    requires IsRunOf(a + b, DigitRun(radix))
    ensures IsRunOf(a + "_" + b, DigitRun(radix))
  {
    var w := a + "_" + b;
    forall k | 0 <= k < |w|
      ensures InClass(w[k], DigitRun(radix))
    {
      if k < |a| {
        assert w[k] == (a + b)[k];
      } else if k > |a| {
        assert w[k] == (a + b)[k - 1];
      }
    }
  }

  lemma StripLeadingUnderscore(b: string)
    ensures StripUnderscores("_" + b) == StripUnderscores(b)
  {
    assert ("_" + b)[1..] == b;
  }

  lemma StripInserted(a: string, b: string)
    ensures StripUnderscores(a + "_" + b) == StripUnderscores(a + b)
  {
    assert a + "_" + b == a + ("_" + b);
    StripAppend(a, "_" + b);
    StripLeadingUnderscore(b);
    StripAppend(a, b);
  }

  lemma UnderscoreIgnored(a: string, b: string, radix: nat)
    requires IsRunOf(a + b, DigitRun(radix))
    ensures IsRunOf(a + "_" + b, DigitRun(radix))
    ensures ParseInt(a + "_" + b, radix) == ParseInt(a + b, radix)
  {
    UnderscoreInRun(a, b, radix);
    StripInserted(a, b);
  }

  /** A run of underscores alone reads as 0. */
  lemma {:induction false} OnlyUnderscores(w: string, radix: nat)
    requires forall k :: 0 <= k < |w| ==> w[k] == '_'
    ensures IsRunOf(w, DigitRun(radix))
    ensures StripUnderscores(w) == [] && ParseInt(w, radix) == Some(0)
  {
    if w != [] {
      OnlyUnderscores(w[1..], radix);
      assert w[0] == '_';
    }
  }

  // ---------------------------------------------------------------------------
  // From tokens to text and back

  /** A run copied into a string is a run there. */
  lemma RunInside(u: string, a: nat, w: string, cls: CharClass)
    requires IsRunOf(w, cls) && a + |w| <= |u| && u[a..a + |w|] == w
    ensures forall k :: a <= k < a + |w| ==> InClass(u[k], cls)
  {
    forall k | a <= k < a + |w|
      ensures InClass(u[k], cls)
    {
      assert u[k] == w[k - a];
    }
  }

  /** A run copied into a string and followed by the end or a character
      outside the class ends where the copy ends. */
  lemma WordRunEnd(u: string, a: nat, w: string, cls: CharClass)
    requires IsRunOf(w, cls) && 1 <= |w| && a + |w| <= |u| && u[a..a + |w|] == w
    requires a + |w| == |u| || !InClass(u[a + |w|], cls)
    ensures RunEnd(u, a + 1, cls) == a + |w|
  {
    RunInside(u, a, w, cls);
    RunEndExact(u, a + 1, a + |w|, cls);
  }

  /** The token of a number literal whose value is `v`. */
  function LiteralToken(v: nat): Token {
    NumberToken(if v < U64Limit then Some(v as u64) else None)
  }

  /** Position `i` of `u` ends a decimal numeral: the text ends there, or the
      character there is neither a digit, an underscore nor a prefix letter. */
  predicate EndsDecimal(u: string, i: nat) {
    i <= |u| && (i == |u| || (!InClass(u[i], DigitRun(10)) && RadixOfMarker(u[i]).None?))
  }

  /** A decimal literal followed by the end or a character that cannot
      continue it is scanned whole. */
  lemma ScanDecimalWord(u: string, a: nat, w: string)
    requires IsDecLiteral(w) && IsRunOf(w, DigitRun(10))
    requires a + |w| <= |u| && u[a..a + |w|] == w
    requires EndsDecimal(u, a + |w|)
    ensures !InClass(u[a], Blanks)
    ensures ScanAt(u, a) == Lexeme(LiteralToken(LiteralValue(w)), a, a + |w|)
  {
    assert RunEnd(u, a + 1, DigitRun(10)) == a + |w| by {
      WordRunEnd(u, a, w, DigitRun(10));
    }
    assert u[a] == w[0];
    assert !(u[a] == '0' && a + 1 < |u| && RadixOfMarker(u[a + 1]).Some?) by {
      if |w| > 1 {
        assert u[a + 1] == w[1] && InClass(w[1], DigitRun(10));
      }
    }
    assert ScanAt(u, a) == ScanDecimal(u, a) by {
      ScanAtDigit(u, a);
    }
    var lx := ScanDecimal(u, a);
    assert lx.end == a + |w|;
    assert u[a..lx.end] == w;
  }

  /** A prefixed literal followed by the end or a character that is not a
      digit of its radix or an underscore is scanned whole. */
  lemma ScanPrefixedWord(u: string, a: nat, w: string, radix: nat)
    requires |w| >= 2 && w[0] == '0' && RadixOfMarker(w[1]) == Some(radix)
    requires IsRunOf(w[2..], DigitRun(radix))
    requires a + |w| <= |u| && u[a..a + |w|] == w
    requires a + |w| == |u| || !InClass(u[a + |w|], DigitRun(radix))
    ensures !InClass(u[a], Blanks)
    ensures ScanAt(u, a) == Lexeme(LiteralToken(LiteralValue(w)), a, a + |w|)
  {
    assert RunEnd(u, a + 2, DigitRun(radix)) == a + |w| by {
      assert u[a + 2..a + |w|] == w[2..];
      RunInside(u, a + 2, w[2..], DigitRun(radix));
      RunEndExact(u, a + 2, a + |w|, DigitRun(radix));
    }
    assert u[a] == '0' && u[a + 1] == w[1];
    assert ScanAt(u, a) == ScanPrefixed(u, a, radix) by {
      ScanAtDigit(u, a);
    }
    var lx := ScanPrefixed(u, a, radix);
    assert lx.end == a + |w|;
    assert u[a..lx.end] == w;
  }

  /** A numeral followed by the end or a character that cannot continue it
      lexes to its Number token. */
  lemma ScanNumeral(u: string, a: nat, n: u64, d: string)
    requires d == Digits(n as nat, 10)
    requires a + |d| <= |u| && u[a..a + |d|] == d
    requires EndsDecimal(u, a + |d|)
    ensures a < |u| && !InClass(u[a], Blanks)
    ensures ScanAt(u, a) == Lexeme(Number(n), a, a + |d|)
  {
    DecimalNumeral(n as nat, d);
    ScanDecimalWord(u, a, d);
    assert LiteralToken(n as nat) == Number(n);
  }

  /** An operator or parenthesis lexes to its own token. */
  lemma ScanSymbol(u: string, a: nat, t: Token)
    requires t.IsEmitted() && !t.Number?
    requires a < |u| && u[a] == t.Display()[0]
    ensures |t.Display()| == 1 && !InClass(u[a], Blanks)
    ensures ScanAt(u, a) == Lexeme(t, a, a + 1)
  {
  }

  /** A blank or a symbol ends a numeral. */
  lemma DelimiterEndsDecimal(u: string, i: nat)
    requires i < |u| && (InClass(u[i], Blanks) || SymbolToken(u[i]).Some?)
    ensures EndsDecimal(u, i)
  {
  }

  /** `t` is displayed at `a + g` after `g` blanks, followed by the end, a
      blank, or (when it is a number) a symbol. */
  predicate TokenAfterGap(u: string, a: nat, g: nat, t: Token) {
    var d := t.Display();
    && t.IsEmitted()
    && a + g + |d| <= |u|
    && (forall k :: a <= k < a + g ==> InClass(u[k], Blanks))
    && (forall k :: 0 <= k < |d| ==> u[a + g + k] == d[k])
    && (t.Number? && a + g + |d| < |u| ==> InClass(u[a + g + |d|], Blanks) || SymbolToken(u[a + g + |d|]).Some?)
  }

  /** A displayed token followed by the end, a blank, or (when it is a
      number) a symbol is the match at its start. */
  lemma ScanDisplayed(u: string, b: nat, t: Token)
    requires t.IsEmitted()
    requires b + |t.Display()| <= |u| && u[b..b + |t.Display()|] == t.Display()
    requires t.Number? && b + |t.Display()| < |u| ==>
      InClass(u[b + |t.Display()|], Blanks) || SymbolToken(u[b + |t.Display()|]).Some?
    ensures b < |u| && !InClass(u[b], Blanks)
    ensures ScanAt(u, b) == Lexeme(t, b, b + |t.Display()|)
  {
    var d := t.Display();
    if t.Number? {
      if b + |d| < |u| {
        DelimiterEndsDecimal(u, b + |d|);
      }
      ScanNumeral(u, b, t.value, d);
    } else {
      assert u[b] == d[0];
      ScanSymbol(u, b, t);
    }
  }

  /** Such a token is the next match after the blanks before it. */
  lemma ScanSpaced(u: string, a: nat, g: nat, t: Token)
    requires TokenAfterGap(u, a, g, t)
    ensures LogosNext(u, a) == Some(Lexeme(t, a + g, a + g + |t.Display()|))
  {
    var b, d := a + g, t.Display();
    assert u[b..b + |d|] == d by {
      forall k | 0 <= k < |d|
        ensures u[b..b + |d|][k] == d[k]
      {
        assert u[b + k] == d[k];
      }
    }
    ScanDisplayed(u, b, t);
    NextAfterBlanks(u, a, b);
  }

  /** After blanks, the next match starts at the first other character. */
  lemma NextAfterBlanks(u: string, a: nat, b: nat)
    requires a <= b < |u| && !InClass(u[b], Blanks)
    requires forall k :: a <= k < b ==> InClass(u[k], Blanks)
    ensures LogosNext(u, a) == Some(ScanAt(u, b))
  {
    RunEndExact(u, a, b, Blanks);
  }

  /** Every gap is a run of blanks: spaces and tabs, possibly none. */
  predicate BlankGaps(gaps: seq<string>) {
    forall i :: 0 <= i < |gaps| ==> IsRunOf(gaps[i], Blanks)
  }

  /** The tokens printed with their Display text, token k after the text
      gaps[k]. */
  function Spaced(tokens: seq<Token>, gaps: seq<string>): string
    requires |gaps| == |tokens|
  {
    if tokens == [] then "" else gaps[0] + tokens[0].Display() + Spaced(tokens[1..], gaps[1..])
  }

  /** Two numbers in a row have a non-empty gap between them. */
  predicate ApartNumbers(tokens: seq<Token>, gaps: seq<string>)
    decreases |tokens|
  {
    |gaps| == |tokens| &&
    (|tokens| >= 2 ==>
      (tokens[0].Number? && tokens[1].Number? ==> gaps[1] != "") && ApartNumbers(tokens[1..], gaps[1..]))
  }

  /** No two numbers in a row. */
  predicate Separated(tokens: seq<Token>)
    decreases |tokens|
  {
    |tokens| >= 2 ==> !(tokens[0].Number? && tokens[1].Number?) && Separated(tokens[1..])
  }

  /** The text of tokens starts with blanks or with the first token's symbol. */
  lemma SpacedStart(tokens: seq<Token>, gaps: seq<string>)
    requires |gaps| == |tokens| && tokens != [] && tokens[0].IsEmitted()
    requires IsRunOf(gaps[0], Blanks) && (gaps[0] == "" ==> !tokens[0].Number?)
    ensures Spaced(tokens, gaps) != []
    ensures gaps[0] != "" ==> InClass(Spaced(tokens, gaps)[0], Blanks)
    ensures gaps[0] == "" ==> SymbolToken(Spaced(tokens, gaps)[0]).Some?
  {
    var d := tokens[0].Display();
    assert Spaced(tokens, gaps) == gaps[0] + d + Spaced(tokens[1..], gaps[1..]);
    if gaps[0] != "" {
      assert Spaced(tokens, gaps)[0] == gaps[0][0];
    } else {
      assert Spaced(tokens, gaps)[0] == d[0];
    }
  }

  lemma GapInside(p: string, g: string, d: string, tail: string, u: string)
    requires u == p + g + d + tail && IsRunOf(g, Blanks)
    ensures |p| + |g| + |d| <= |u|
    ensures forall k :: |p| <= k < |p| + |g| ==> InClass(u[k], Blanks)
    ensures forall k :: 0 <= k < |d| ==> u[|p| + |g| + k] == d[k]
  {
    forall k | |p| <= k < |p| + |g|
      ensures InClass(u[k], Blanks)
    {
      assert u[k] == g[k - |p|];
    }
    forall k | 0 <= k < |d|
      ensures u[|p| + |g| + k] == d[k]
    {
      assert u[|p| + |g| + k] == (p + g + d)[|p| + |g| + k];
    }
  }

  lemma SpacedUnfold(tokens: seq<Token>, gaps: seq<string>)
    requires |gaps| == |tokens| && tokens != []
    ensures Spaced(tokens, gaps) == gaps[0] + tokens[0].Display() + Spaced(tokens[1..], gaps[1..])
  {
  }

  lemma Associate(p: string, a: string, b: string, c: string)
    ensures p + (a + b + c) == p + a + b + c
  {
  }

  /** Where the pieces of spaced tokens lie, and what follows a number there. */
  lemma SpacedLayout(p: string, tokens: seq<Token>, gaps: seq<string>, u: string) returns (p': string)
    requires forall k :: 0 <= k < |tokens| ==> tokens[k].IsEmitted()
    requires ApartNumbers(tokens, gaps) && BlankGaps(gaps) && tokens != [] && u == p + Spaced(tokens, gaps)
    ensures TokenAfterGap(u, |p|, |gaps[0]|, tokens[0])
    ensures |p'| == |p| + |gaps[0]| + |tokens[0].Display()|
    ensures u == p' + Spaced(tokens[1..], gaps[1..])
  {
    var g, d := gaps[0], tokens[0].Display();
    p' := p + g + d;
    var rest, gr := tokens[1..], gaps[1..];
    var tail := Spaced(rest, gr);
    assert u == p + g + d + tail by {
      SpacedUnfold(tokens, gaps);
      Associate(p, g, d, tail);
    }
    GapInside(p, g, d, tail, u);
    if tokens[0].Number? && |p| + |g| + |d| < |u| {
      assert u[|p| + |g| + |d|] == tail[0];
      ApartTail(tokens, gaps);
      assert rest[0].IsEmitted();
      SpacedStart(rest, gr);
    }
  }

  /** From `pos` on, the text holds each token after its gap, and nothing
      after the last one. */
  predicate LaidOut(u: string, pos: nat, tokens: seq<Token>, gaps: seq<string>)
    decreases |tokens|, 2
  {
    |gaps| == |tokens| && pos <= |u| &&
    if tokens == [] then pos == |u| else LaidOutFirst(u, pos, tokens, gaps)
  }

  /** The first token fits in the text after its gap, and is laid out there
      with the rest after it. */
  predicate LaidOutFirst(u: string, pos: nat, tokens: seq<Token>, gaps: seq<string>)
    requires |gaps| == |tokens| && tokens != []
    decreases |tokens|, 1
  {
    pos + |gaps[0]| + |tokens[0].Display()| <= |u| && TokenThenLaidOut(u, pos, tokens, gaps)
  }

  /** The first token follows its gap, and the rest are laid out after it.
      (Kept apart from `LaidOutFirst` so that unfolding `LaidOut` twice does
      not yet reach the text.) */
  predicate TokenThenLaidOut(u: string, pos: nat, tokens: seq<Token>, gaps: seq<string>)
    requires |gaps| == |tokens| && tokens != []
    decreases |tokens|, 0
  {
    TokenAfterGap(u, pos, |gaps[0]|, tokens[0]) &&
    LaidOut(u, pos + |gaps[0]| + |tokens[0].Display()|, tokens[1..], gaps[1..])
  }

  lemma {:induction false} SpacedLaidOut(p: string, tokens: seq<Token>, gaps: seq<string>)
    requires forall k :: 0 <= k < |tokens| ==> tokens[k].IsEmitted()
    requires ApartNumbers(tokens, gaps) && BlankGaps(gaps)
    ensures LaidOut(p + Spaced(tokens, gaps), |p|, tokens, gaps)
    decreases |tokens|
  {
    var u := p + Spaced(tokens, gaps);
    if tokens == [] {
      assert u == p;
    } else {
      var p' := SpacedLayout(p, tokens, gaps, u);
      ApartTail(tokens, gaps);
      SpacedLaidOut(p', tokens[1..], gaps[1..]);
    }
  }

  lemma ApartTail(tokens: seq<Token>, gaps: seq<string>)
    requires ApartNumbers(tokens, gaps) && tokens != []
    ensures ApartNumbers(tokens[1..], gaps[1..])
    ensures tokens[0].Number? && |tokens| > 1 && gaps[1] == "" ==> !tokens[1].Number?
  {
  }

  /** One emitted token, then the rest of the scan. */
  lemma TokenizeStep(u: string, pos: nat, lx: Lexeme, rest: seq<Token>)
    requires pos <= |u| && LogosNext(u, pos) == Some(lx) && lx.token.IsEmitted()
    requires TokenizeFrom(u, lx.end) == Success(rest)
    ensures TokenizeFrom(u, pos) == Success([lx.token] + rest)
  {
  }

  /** Nothing is left at the end of the text. */
  lemma TokenizeAtEnd(u: string)
    ensures TokenizeFrom(u, |u|) == Success([])
  {
    assert LogosNext(u, |u|).None?;
  }

  lemma LaidOutStep(u: string, pos: nat, tokens: seq<Token>, gaps: seq<string>) returns (pos': nat)
    requires LaidOut(u, pos, tokens, gaps) && tokens != []
    ensures pos' == pos + |gaps[0]| + |tokens[0].Display()| <= |u|
    ensures LaidOut(u, pos', tokens[1..], gaps[1..])
  {
    assert TokenThenLaidOut(u, pos, tokens, gaps);
    pos' := pos + |gaps[0]| + |tokens[0].Display()|;
  }

  /** From `pos` on, the automaton's matches are `tokens`, all emitted, and
      the last one ends the text. */
  predicate Scans(u: string, pos: nat, tokens: seq<Token>)
    decreases |tokens|, 2
  {
    pos <= |u| &&
    if tokens == [] then pos == |u| else ScansFirst(u, pos, tokens)
  }

  /** The first token is emitted, matched next, and the rest follow it. */
  predicate ScansFirst(u: string, pos: nat, tokens: seq<Token>)
    requires pos <= |u| && tokens != []
    decreases |tokens|, 1
  {
    tokens[0].IsEmitted() && MatchThenScans(u, pos, tokens)
  }

  /** The next match is the first token, and the rest follow it.  (Kept
      apart from `ScansFirst` so that unfolding `Scans` twice does not yet
      reach the automaton.) */
  predicate MatchThenScans(u: string, pos: nat, tokens: seq<Token>)
    requires pos <= |u| && tokens != []
    decreases |tokens|, 0
  {
    var next := LogosNext(u, pos);
    next.Some? && next.value.token == tokens[0] && Scans(u, next.value.end, tokens[1..])
  }

  /** One match of an emitted token, then the rest of the matches. */
  lemma ScansStep(u: string, pos: nat, tokens: seq<Token>, start: nat, end: nat)
    requires pos <= |u| && tokens != [] && LogosNext(u, pos) == Some(Lexeme(tokens[0], start, end))
    requires tokens[0].IsEmitted() && Scans(u, end, tokens[1..])
    ensures Scans(u, pos, tokens)
  {
    assert MatchThenScans(u, pos, tokens);
  }

  lemma LaidOutHead(u: string, pos: nat, tokens: seq<Token>, gaps: seq<string>)
    requires |gaps| == |tokens| && tokens != [] && LaidOut(u, pos, tokens, gaps)
    ensures TokenAfterGap(u, pos, |gaps[0]|, tokens[0])
  {
    assert TokenThenLaidOut(u, pos, tokens, gaps);
  }

  /** The automaton's next match is the first laid-out token. */
  lemma LaidOutNext(u: string, pos: nat, tokens: seq<Token>, gaps: seq<string>)
    requires |gaps| == |tokens| && tokens != [] && LaidOut(u, pos, tokens, gaps)
    ensures tokens[0].IsEmitted()
    ensures LogosNext(u, pos) == Some(Lexeme(tokens[0], pos + |gaps[0]|, pos + |gaps[0]| + |tokens[0].Display()|))
  {
    LaidOutHead(u, pos, tokens, gaps);
    ScanSpaced(u, pos, |gaps[0]|, tokens[0]);
  }

  /** The first laid-out token is the next match, and the rest scan after it. */
  lemma LaidOutScansFirst(u: string, pos: nat, tokens: seq<Token>, gaps: seq<string>, pos': nat)
    requires |gaps| == |tokens| && tokens != [] && LaidOut(u, pos, tokens, gaps)
    requires pos' == pos + |gaps[0]| + |tokens[0].Display()| && Scans(u, pos', tokens[1..])
    ensures Scans(u, pos, tokens)
  {
    LaidOutNext(u, pos, tokens, gaps);
    ScansStep(u, pos, tokens, pos + |gaps[0]|, pos');
  }

  lemma {:induction false} LaidOutScans(u: string, pos: nat, tokens: seq<Token>, gaps: seq<string>)
    requires |gaps| == |tokens| && LaidOut(u, pos, tokens, gaps)
    ensures Scans(u, pos, tokens)
    decreases |tokens|
  {
    if tokens != [] {
      var pos' := LaidOutStep(u, pos, tokens, gaps);
      LaidOutScans(u, pos', tokens[1..], gaps[1..]);
      LaidOutScansFirst(u, pos, tokens, gaps, pos');
    }
  }

  lemma {:induction false} ScansTokenize(u: string, pos: nat, tokens: seq<Token>)
    requires Scans(u, pos, tokens)
    ensures TokenizeFrom(u, pos) == Success(tokens)
    decreases |tokens|
  {
    if tokens == [] {
      TokenizeAtEnd(u);
    } else {
      assert MatchThenScans(u, pos, tokens);
      var lx := LogosNext(u, pos).value;
      ScansTokenize(u, lx.end, tokens[1..]);
      TokenizeStep(u, pos, lx, tokens[1..]);
      assert [tokens[0]] + tokens[1..] == tokens;
    }
  }

  /** Blanks produce no tokens and the others come out in input order: the
      tokens written out, with any run of spaces and tabs before each and a
      non-empty one between two numbers, lex back to themselves. */
  lemma SpacedRoundTrip(tokens: seq<Token>, gaps: seq<string>)
    requires forall k :: 0 <= k < |tokens| ==> tokens[k].IsEmitted()
    requires ApartNumbers(tokens, gaps) && BlankGaps(gaps)
    ensures Tokenize(Spaced(tokens, gaps)) == Success(tokens)
  {
    var u := Spaced(tokens, gaps);
    assert "" + u == u;
    SpacedLaidOut("", tokens, gaps);
    LaidOutScans(u, 0, tokens, gaps);
    ScansTokenize(u, 0, tokens);
  }

  /** Without two numbers in a row, any spacing keeps numbers apart. */
  lemma {:induction false} SeparatedApart(tokens: seq<Token>, gaps: seq<string>)
    requires Separated(tokens) && |gaps| == |tokens|
    ensures ApartNumbers(tokens, gaps)
    decreases |tokens|
  {
    if |tokens| >= 2 {
      SeparatedApart(tokens[1..], gaps[1..]);
    }
  }

  // ---------------------------------------------------------------------------
  // The source's tests of the lexer

  /** A `0` that nothing continues is the number 0. */
  lemma LoneZeroNext(u: string, a: nat)
    requires a < |u| && u[a] == '0' && EndsDecimal(u, a + 1)
    ensures LogosNext(u, a) == Some(Lexeme(Number(0), a, a + 1))
  {
    assert Digits(0, 10) == "0" && u[a..a + 1] == "0";
    ScanNumeral(u, a, 0, "0");
    RunEndExact(u, a, a, Blanks);
  }

  /** A symbol is matched alone. */
  lemma SymbolNext(u: string, a: nat, t: Token)
    requires t.IsEmitted() && !t.Number? && a < |u| && u[a] == t.Display()[0]
    ensures LogosNext(u, a) == Some(Lexeme(t, a, a + 1))
  {
    ScanSymbol(u, a, t);
    RunEndExact(u, a, a, Blanks);
  }

  /** A character no rule starts with is an error of length one. */
  lemma InvalidNext(u: string, a: nat)
    requires a < |u| && !StartsToken(u[a])
    ensures LogosNext(u, a) == Some(Lexeme(Error, a, a + 1))
  {
    RunEndExact(u, a, a, Blanks);
  }

  /** A token scanned after blanks, then the matches of the other tokens. */
  /** After the blanks in [a, b), the match at `b` is `t`, ending at `end`. */
  predicate ScannedAfterBlanks(u: string, a: nat, b: nat, end: nat, t: Token) {
    && a <= b < |u| && !InClass(u[b], Blanks) && t.IsEmitted()
    && (forall k :: a <= k < b ==> InClass(u[k], Blanks))
    && ScanAt(u, b) == Lexeme(t, b, end)
  }

  lemma ScanAfterBlanks(u: string, a: nat, b: nat, end: nat, tokens: seq<Token>)
    requires tokens != [] && ScannedAfterBlanks(u, a, b, end, tokens[0])
    requires Scans(u, end, tokens[1..])
    ensures Scans(u, a, tokens)
  {
    NextAfterBlanks(u, a, b);
    ScansStep(u, a, tokens, b, end);
  }

  /** `w` is a decimal literal whose value fits, written at `b` in `u` and
      followed by the end or a character that cannot continue it. */
  predicate DecimalWordAt(u: string, b: nat, w: string) {
    && IsDecLiteral(w) && IsRunOf(w, DigitRun(10)) && LiteralValue(w) < U64Limit
    && b + |w| <= |u| && u[b..b + |w|] == w && EndsDecimal(u, b + |w|)
  }

  /** `w` is a literal with the prefix of `radix` whose value fits, written at
      `b` in `u` and followed by the end or a character that is not a digit of
      the radix or an underscore. */
  predicate PrefixedWordAt(u: string, b: nat, w: string, radix: nat) {
    && |w| >= 2 && w[0] == '0' && RadixOfMarker(w[1]) == Some(radix)
    && IsRunOf(w[2..], DigitRun(radix)) && LiteralValue(w) < U64Limit
    && b + |w| <= |u| && u[b..b + |w|] == w
    && (b + |w| == |u| || !InClass(u[b + |w|], DigitRun(radix)))
  }

  /** A decimal literal whose value fits scans as its Number token. */
  lemma DecimalLexeme(u: string, a: nat, b: nat, w: string)
    requires DecimalWordAt(u, b, w) && a <= b
    requires forall k :: a <= k < b ==> InClass(u[k], Blanks)
    ensures ScannedAfterBlanks(u, a, b, b + |w|, Number(LiteralValue(w) as u64))
  {
    ScanDecimalWord(u, b, w);
  }

  /** A prefixed literal whose value fits scans as its Number token. */
  lemma PrefixedLexeme(u: string, a: nat, b: nat, w: string, radix: nat)
    requires PrefixedWordAt(u, b, w, radix) && a <= b
    requires forall k :: a <= k < b ==> InClass(u[k], Blanks)
    ensures ScannedAfterBlanks(u, a, b, b + |w|, Number(LiteralValue(w) as u64))
  {
    ScanPrefixedWord(u, b, w, radix);
  }

  /** A decimal literal after blanks, then the matches of the other tokens. */
  lemma DecimalScans(u: string, a: nat, b: nat, w: string, tokens: seq<Token>)
    requires DecimalWordAt(u, b, w) && a <= b
    requires forall k :: a <= k < b ==> InClass(u[k], Blanks)
    requires tokens != [] && tokens[0] == Number(LiteralValue(w) as u64)
    requires Scans(u, b + |w|, tokens[1..])
    ensures Scans(u, a, tokens)
  {
    DecimalLexeme(u, a, b, w);
    ScanAfterBlanks(u, a, b, b + |w|, tokens);
  }

  /** A prefixed literal after blanks, then the matches of the other tokens. */
  lemma PrefixedScans(u: string, a: nat, b: nat, w: string, radix: nat, tokens: seq<Token>)
    requires PrefixedWordAt(u, b, w, radix) && a <= b
    requires forall k :: a <= k < b ==> InClass(u[k], Blanks)
    requires tokens != [] && tokens[0] == Number(LiteralValue(w) as u64)
    requires Scans(u, b + |w|, tokens[1..])
    ensures Scans(u, a, tokens)
  {
    PrefixedLexeme(u, a, b, w, radix);
    ScanAfterBlanks(u, a, b, b + |w|, tokens);
  }

  /** A symbol, then the matches of the other tokens. */
  lemma SymbolScans(u: string, a: nat, tokens: seq<Token>)
    requires tokens != [] && tokens[0].IsEmitted() && !tokens[0].Number?
    requires a < |u| && u[a] == tokens[0].Display()[0]
    requires Scans(u, a + 1, tokens[1..])
    ensures Scans(u, a, tokens)
  {
    SymbolNext(u, a, tokens[0]);
    ScansStep(u, a, tokens, a, a + 1);
  }

  lemma ValueOfTwelve()
    ensures LiteralValue("12") == 12
  {
    assert StripUnderscores("12") == "12";
    assert DigitsValue("1", 10) == 1;
  }

  lemma ValueOfHex()
    ensures LiteralValue("0x_1A") == 26
  {
    assert "0x_1A"[2..] == "_1A";
    assert StripUnderscores("_1A") == "1A";
    assert DigitsValue("1", 16) == 1;
  }

  lemma ValueOfBinary()
    ensures LiteralValue("0b01") == 1
  {
    assert "0b01"[2..] == "01";
    assert StripUnderscores("01") == "01";
    assert DigitsValue("0", 2) == 0;
  }

  lemma ValueOfOctal()
    ensures LiteralValue("0o12") == 10
  {
    assert "0o12"[2..] == "12";
    assert StripUnderscores("12") == "12";
    assert DigitsValue("1", 8) == 1;
  }

  lemma ValueOfZero()
    ensures LiteralValue("0") == 0
  {
    assert StripUnderscores("0") == "0";
  }

  /** The text of `test_lexer` before its line break, and its tokens. */
  predicate LexerExampleInput(t: string, ts: seq<Token>) {
    && t == "12*(0x_1A-0b01)+-0o12/0"
    && ts == [Number(12), Times, LP, Number(26), Minus, Number(1),
              RP, Plus, Minus, Number(10), Division, Number(0)]
  }

  // The matches of that text, two tokens at a time from its end.

  lemma LexerExampleFrom21(t: string, ts: seq<Token>)
    requires LexerExampleInput(t, ts)
    ensures Scans(t, 21, ts[10..])
  {
    assert Scans(t, 23, ts[12..]);
    ValueOfZero();
    DecimalScans(t, 22, 22, "0", ts[11..]);
    SymbolScans(t, 21, ts[10..]);
  }

  lemma LexerExampleFrom16(t: string, ts: seq<Token>)
    requires LexerExampleInput(t, ts)
    ensures Scans(t, 16, ts[8..])
  {
    LexerExampleFrom21(t, ts);
    ValueOfOctal();
    PrefixedScans(t, 17, 17, "0o12", 8, ts[9..]);
    SymbolScans(t, 16, ts[8..]);
  }

  lemma LexerExampleFrom14(t: string, ts: seq<Token>)
    requires LexerExampleInput(t, ts)
    ensures Scans(t, 14, ts[6..])
  {
    LexerExampleFrom16(t, ts);
    SymbolScans(t, 15, ts[7..]);
    SymbolScans(t, 14, ts[6..]);
  }

  lemma LexerExampleFrom9(t: string, ts: seq<Token>)
    requires LexerExampleInput(t, ts)
    ensures Scans(t, 9, ts[4..])
  {
    LexerExampleFrom14(t, ts);
    ValueOfBinary();
    PrefixedScans(t, 10, 10, "0b01", 2, ts[5..]);
    SymbolScans(t, 9, ts[4..]);
  }

  lemma LexerExampleFrom3(t: string, ts: seq<Token>)
    requires LexerExampleInput(t, ts)
    ensures Scans(t, 3, ts[2..])
  {
    LexerExampleFrom9(t, ts);
    ValueOfHex();
    PrefixedScans(t, 4, 4, "0x_1A", 16, ts[3..]);
    SymbolScans(t, 3, ts[2..]);
  }

  lemma LexerExampleScans(t: string, ts: seq<Token>)
    requires LexerExampleInput(t, ts)
    ensures Scans(t, 0, ts)
  {
    LexerExampleFrom3(t, ts);
    SymbolScans(t, 2, ts[1..]);
    ValueOfTwelve();
    DecimalScans(t, 0, 0, "12", ts[0..]);
    assert ts[0..] == ts;
  }

  /** The source's `test_lexer`: numbers in every radix between symbols, up
      to the line break, which ends the scan. */
  lemma LexerExample(s: string)
    requires s == "12*(0x_1A-0b01)+-0o12/0\n123"
    ensures Tokenize(s) == Success([Number(12), Times, LP, Number(26), Minus, Number(1),
                                    RP, Plus, Minus, Number(10), Division, Number(0)])
  {
    var t := s[..23];
    var ts := [Number(12), Times, LP, Number(26), Minus, Number(1),
               RP, Plus, Minus, Number(10), Division, Number(0)];
    assert t == "12*(0x_1A-0b01)+-0o12/0";
    assert s == t + ['\n'] + "123";
    StopsAtLineBreak(t, '\n', "123");
    LexerExampleScans(t, ts);
    ScansTokenize(t, 0, ts);
  }

  /** The literals of `test_number`: a prefix, its digit run and its value. */
  predicate PrefixedLiteralOf(w: string, radix: nat, v: nat) {
    && |w| >= 2 && w[0] == '0' && RadixOfMarker(w[1]) == Some(radix)
    && IsRunOf(w[2..], DigitRun(radix)) && LiteralValue(w) == v
  }

  lemma UnderscoredLiteral(w: string)
    requires w == "12_3"
    ensures IsDecLiteral(w) && IsRunOf(w, DigitRun(10)) && LiteralValue(w) == 123
  {
    var a, b := w[..2], w[3..];
    assert w == a + "_" + b;
    StripInserted(a, b);
    StripWithoutUnderscores(a + b);
    DigitsOfThree(a + b, 10);
  }

  /** The value of a three-digit numeral, digit by digit. */
  lemma DigitsOfThree(d: string, radix: nat)
    requires |d| == 3
    ensures DigitsValue(d, radix) == (DigitValue(d[0]) * radix + DigitValue(d[1])) * radix + DigitValue(d[2])
  {
    assert DigitsValue(d[..0], radix) == 0;
    DigitsPrefixStep(d, 1, radix);
    DigitsPrefixStep(d, 2, radix);
    DigitsPrefixStep(d, 3, radix);
    assert d[..3] == d;
  }

  /** The value of a four-digit numeral, digit by digit. */
  lemma DigitsOfFour(d: string, radix: nat)
    requires |d| == 4
    ensures DigitsValue(d, radix) ==
      ((DigitValue(d[0]) * radix + DigitValue(d[1])) * radix + DigitValue(d[2])) * radix + DigitValue(d[3])
  {
    assert DigitsValue(d[..0], radix) == 0;
    DigitsPrefixStep(d, 1, radix);
    DigitsPrefixStep(d, 2, radix);
    DigitsPrefixStep(d, 3, radix);
    DigitsPrefixStep(d, 4, radix);
    assert d[..4] == d;
  }

  lemma BinaryByteLiteral(w: string)
    requires w == "0b0000_1111"
    ensures PrefixedLiteralOf(w, 2, 15)
  {
    var d := w[2..];
    var zeros, ones := d[..4], d[5..];
    assert d == zeros + "_" + ones;
    StripInserted(zeros, ones);
    StripWithoutUnderscores(zeros + ones);
    BinaryByteValue(zeros + ones);
  }

  /** One more digit on the right of a prefix of `d`. */
  lemma DigitsPrefixStep(d: string, k: nat, radix: nat)
    requires 0 < k <= |d|
    ensures DigitsValue(d[..k], radix) == DigitsValue(d[..k - 1], radix) * radix + DigitValue(d[k - 1])
  {
    assert d[..k][..k - 1] == d[..k - 1];
  }

  lemma BinaryByteValue(d: string)
    requires d == "00001111"
    ensures DigitsValue(d, 2) == 15
  {
    assert DigitsValue(d[..0], 2) == 0;
    DigitsPrefixStep(d, 1, 2);
    DigitsPrefixStep(d, 2, 2);
    DigitsPrefixStep(d, 3, 2);
    DigitsPrefixStep(d, 4, 2);
    DigitsPrefixStep(d, 5, 2);
    DigitsPrefixStep(d, 6, 2);
    DigitsPrefixStep(d, 7, 2);
    DigitsPrefixStep(d, 8, 2);
    assert d[..8] == d;
  }

  lemma PaddedOctalLiteral(w: string)
    requires w == "0o00_13"
    ensures PrefixedLiteralOf(w, 8, 11)
  {
    var d := w[2..];
    var a, b := d[..2], d[3..];
    assert d == a + "_" + b;
    StripInserted(a, b);
    StripWithoutUnderscores(a + b);
    DigitsOfFour(a + b, 8);
  }

  lemma PaddedHexLiteral(w: string)
    requires w == "0x00_1a"
    ensures PrefixedLiteralOf(w, 16, 26)
  {
    var d := w[2..];
    var a, b := d[..2], d[3..];
    assert d == a + "_" + b;
    StripInserted(a, b);
    StripWithoutUnderscores(a + b);
    DigitsOfFour(a + b, 16);
  }

  lemma EmptyHexLiteral(w: string)
    requires w == "0x____"
    ensures PrefixedLiteralOf(w, 16, 0)
  {
    OnlyUnderscores(w[2..], 16);
  }

  /** The tokens of `test_number`. */
  function NumberExampleTokens(): seq<Token> {
    [Number(123), Number(15), Number(11), Number(26), Number(0)]
  }

  /** Where the literals of `test_number` lie in its text, with one blank
      between two of them. */
  predicate NumberExampleLayout(t: string) {
    |t| == 39 && NumberExampleFront(t) && NumberExampleBack(t)
  }

  predicate NumberExampleFront(t: string) {
    |t| == 39 && t[0..4] == "12_3" && t[4] == ' ' && t[5..16] == "0b0000_1111" && t[16] == ' '
  }

  predicate NumberExampleBack(t: string) {
    && |t| == 39 && t[17..24] == "0o00_13" && t[24] == ' '
    && t[25..32] == "0x00_1a" && t[32] == ' ' && t[33..39] == "0x____"
  }

  // The matches of that text, one literal at a time from its end.

  lemma NumberExampleFrom32(t: string, ts: seq<Token>)
    requires NumberExampleLayout(t) && ts == NumberExampleTokens()
    ensures Scans(t, 32, ts[4..])
  {
    assert Scans(t, 39, ts[5..]);
    var w := t[33..39];
    EmptyHexLiteral(w);
    PrefixedScans(t, 32, 33, w, 16, ts[4..]);
  }

  lemma NumberExampleFrom24(t: string, ts: seq<Token>)
    requires NumberExampleLayout(t) && ts == NumberExampleTokens()
    ensures Scans(t, 24, ts[3..])
  {
    NumberExampleFrom32(t, ts);
    var w := t[25..32];
    PaddedHexLiteral(w);
    PrefixedScans(t, 24, 25, w, 16, ts[3..]);
  }

  lemma NumberExampleFrom16(t: string, ts: seq<Token>)
    requires NumberExampleLayout(t) && ts == NumberExampleTokens()
    ensures Scans(t, 16, ts[2..])
  {
    NumberExampleFrom24(t, ts);
    var w := t[17..24];
    PaddedOctalLiteral(w);
    PrefixedScans(t, 16, 17, w, 8, ts[2..]);
  }

  lemma NumberExampleFrom4(t: string, ts: seq<Token>)
    requires NumberExampleLayout(t) && ts == NumberExampleTokens()
    ensures Scans(t, 4, ts[1..])
  {
    NumberExampleFrom16(t, ts);
    var w := t[5..16];
    BinaryByteLiteral(w);
    PrefixedScans(t, 4, 5, w, 2, ts[1..]);
  }

  lemma NumberExampleScans(t: string, ts: seq<Token>)
    requires NumberExampleLayout(t) && ts == NumberExampleTokens()
    ensures Scans(t, 0, ts)
  {
    NumberExampleFrom4(t, ts);
    var w := t[0..4];
    UnderscoredLiteral(w);
    DecimalScans(t, 0, 0, w, ts[0..]);
    assert ts[0..] == ts;
  }

  /** The source's `test_number`: underscores anywhere in a literal, every
      radix, leading zeros, and a prefix with only underscores after it. */
  lemma NumberExampleText(s: string)
    requires s == "12_3 0b0000_1111 0o00_13 0x00_1a 0x____"
    ensures NumberExampleLayout(s)
  {
    NumberExampleFrontText(s);
    NumberExampleBackText(s);
  }

  lemma NumberExampleFrontText(s: string)
    requires s == "12_3 0b0000_1111 0o00_13 0x00_1a 0x____"
    ensures NumberExampleFront(s)
  {
    SliceIs(s, 0, "12_3");
    SliceIs(s, 5, "0b0000_1111");
  }

  lemma NumberExampleBackText(s: string)
    requires s == "12_3 0b0000_1111 0o00_13 0x00_1a 0x____"
    ensures NumberExampleBack(s)
  {
    SliceIs(s, 17, "0o00_13");
    SliceIs(s, 25, "0x00_1a");
    SliceIs(s, 33, "0x____");
  }

  lemma SliceIs(s: string, a: nat, w: string)
    requires a + |w| <= |s| && forall k :: 0 <= k < |w| ==> s[a + k] == w[k]
    ensures s[a..a + |w|] == w
  {
  }

  lemma NumberExample(s: string)
    requires s == "12_3 0b0000_1111 0o00_13 0x00_1a 0x____"
    ensures Tokenize(s) == Success([Number(123), Number(15), Number(11), Number(26), Number(0)])
  {
    var ts := NumberExampleTokens();
    NumberExampleText(s);
    NumberExampleScans(s, ts);
    ScansTokenize(s, 0, ts);
  }

  /** "0+a": the `0` and the `+` are read, then `a` is an invalid character
      at 2..3, and no token is returned. */
  lemma InvalidCharacterExample(s: string)
    requires s == "0+a"
    ensures Tokenize(s) == Failure(InvalidCharacter(2, 3, "a"))
  {
    LoneZeroNext(s, 0);
    SymbolNext(s, 1, Plus);
    InvalidNext(s, 2);
    assert TokenizeFrom(s, 2) == Failure(InvalidCharacter(2, 3, "a")) by {
      assert s[2..3] == "a";
    }
    assert TokenizeFrom(s, 1) == Failure(InvalidCharacter(2, 3, "a"));
  }

  lemma InvalidCharacterMessage()
    ensures InvalidCharacter(2, 3, "a").Message() == "Invalid character near 2..3: a"
  {
    assert Digits(2, 10) == "2" && Digits(3, 10) == "3";
  }

  /** "0abc": a `0` not followed by a prefix letter is the number 0, and the
      `a` after it is an invalid character at 1..2. */
  lemma MismatchExample(s: string)
    requires s == "0abc"
    ensures LogosNext(s, 0) == Some(Lexeme(Number(0), 0, 1))
    ensures LogosNext(s, 1) == Some(Lexeme(Error, 1, 2))
    ensures Tokenize(s) == Failure(InvalidCharacter(1, 2, "a"))
  {
    LoneZeroNext(s, 0);
    InvalidNext(s, 1);
    assert TokenizeFrom(s, 1) == Failure(InvalidCharacter(1, 2, "a")) by {
      assert s[1..2] == "a";
    }
  }

  /** The message of a failed conversion of the literal `raw` at 0..36: the
      conversion error's text, then the span and the literal. */
  lemma OverflowMessage(raw: string)
    ensures ParseIntFailed(0, 36, raw).Message()
         == "Parse int failed: number too large to fit in target type\nNear 0..36: " + raw
  {
    SpanOfOverflow();
  }

  lemma SpanOfOverflow()
    ensures SpanText(0, 36) == "0..36"
  {
    assert Digits(0, 10) == "0";
    assert Digits(3, 10) == "3";
    assert Digits(36, 10) == "36";
  }
}
