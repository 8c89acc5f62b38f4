/** The text handling of `TextFileLevelDataProvider`
    (Assets/Module/Game/Core/Level/TextFileLevelDataProvider.cs:128-180):
    splitting the file into lines, keeping the trimmed content lines, and
    splitting a line into tokens — together with the .NET operations they
    rest on (`StringReader.ReadLine`, `string.Trim`, `string.Split`,
    `int.TryParse`). */
module LevelTokens {
  import opened Wrappers
  import opened Int32s

  // ---------------------------------------------------------------------
  // Characters and strings

  /** `char.IsWhiteSpace`: the Unicode space separators, the line and
      paragraph separators, and U+0009 to U+000D, U+0085, U+00A0. */
  predicate IsWhiteSpace(c: char) {
    || c == ' ' || ('\t' <= c <= '\r') || c == '\U{0085}' || c == '\U{00A0}'
    || c == '\U{1680}' || ('\U{2000}' <= c <= '\U{200A}') || c == '\U{2028}'
    || c == '\U{2029}' || c == '\U{202F}' || c == '\U{205F}' || c == '\U{3000}'
  }

  /** `string.IsNullOrWhiteSpace` on a non-null string. */
  predicate IsBlank(s: string) {
    forall i :: 0 <= i < |s| ==> IsWhiteSpace(s[i])
  }

  /** The characters `ReadLine` ends a line at. */
  predicate IsLineBreak(c: char) {
    c == '\r' || c == '\n'
  }

  /** The characters `Tokenize` splits at. */
  predicate IsSeparator(c: char) {
    c == ' ' || c == '\t' || c == ','
  }

  /** `s` with the characters satisfying `p` removed, order kept. */
  function Remove(s: string, p: char -> bool): (r: string)
    ensures |r| <= |s|
  {
    if s == [] then [] else (if p(s[0]) then [] else [s[0]]) + Remove(s[1..], p)
  }

  lemma {:induction false} RemoveAppend(a: string, b: string, p: char -> bool)
    ensures Remove(a + b, p) == Remove(a, p) + Remove(b, p)
    decreases |a|
  {
    if a != [] {
      assert (a + b)[0] == a[0] && (a + b)[1..] == a[1..] + b;
      RemoveAppend(a[1..], b, p);
    } else {
      assert a + b == b;
    }
  }

  lemma {:induction false} RemoveNone(s: string, p: char -> bool)
    requires forall i :: 0 <= i < |s| ==> !p(s[i])
    ensures Remove(s, p) == s
    decreases |s|
  {
    if s != [] {
      RemoveNone(s[1..], p);
    }
  }

  lemma {:induction false} RemoveAll(s: string, p: char -> bool)
    requires forall i :: 0 <= i < |s| ==> p(s[i])
    ensures Remove(s, p) == []
    decreases |s|
  {
    if s != [] {
      RemoveAll(s[1..], p);
    }
  }

  /** The strings of `parts` written one after another. */
  function Concat(parts: seq<string>): string {
    if parts == [] then [] else parts[0] + Concat(parts[1..])
  }

  // ---------------------------------------------------------------------
  // Lines: StringReader.ReadLine

  /** Length of the first line of `s`: the index of the first line break. */
  function LineEnd(s: string): (k: nat)
    ensures k <= |s|
    ensures forall i :: 0 <= i < k ==> !IsLineBreak(s[i])
    ensures k < |s| ==> IsLineBreak(s[k])
  {
    if s == [] || IsLineBreak(s[0]) then 0 else 1 + LineEnd(s[1..])
  }

  /** Where the line after a break at `k` starts: "\r\n" is one break. */
  function NextLine(s: string, k: nat): (j: nat)
    requires k < |s| && IsLineBreak(s[k])
    ensures k < j <= |s|
    ensures forall i :: k <= i < j ==> IsLineBreak(s[i])
  {
    if s[k] == '\r' && k + 1 < |s| && s[k + 1] == '\n' then k + 2 else k + 1
  }

  /** The lines successive `ReadLine` calls return until they return null:
      each break ends a line, and text after the last break is one more
      line. No line holds a break. */
  function ReadLines(text: string): (lines: seq<string>)
    ensures forall l <- lines :: forall i :: 0 <= i < |l| ==> !IsLineBreak(l[i])
    decreases |text|
  {
    if text == [] then []
    else
      var k := LineEnd(text);
      if k == |text| then [text]
      else [text[..k]] + ReadLines(text[NextLine(text, k)..])
  }

  /** Reading lines loses the line breaks and nothing else. */
  lemma {:induction false} ReadLinesJoin(text: string)
    ensures Concat(ReadLines(text)) == Remove(text, IsLineBreak)
    decreases |text|
  {
    if text != [] {
      var k := LineEnd(text);
      if k == |text| {
        RemoveNone(text, IsLineBreak);
      } else {
        var rest := text[NextLine(text, k)..];
        ReadLinesStep(text);
        ReadLinesJoin(rest);
      }
    }
  }

  /** One line and its break: the first line is read whole and the break
      is lost. */
  lemma ReadLinesStep(text: string)
    requires text != [] && LineEnd(text) < |text|
    ensures var k := LineEnd(text); var rest := text[NextLine(text, k)..];
      && Concat(ReadLines(text)) == text[..k] + Concat(ReadLines(rest))
      && Remove(text, IsLineBreak) == text[..k] + Remove(rest, IsLineBreak)
  {
    var k := LineEnd(text);
    var j := NextLine(text, k);
    var lines := ReadLines(text);
    assert lines == [text[..k]] + ReadLines(text[j..]);
    assert lines[1..] == ReadLines(text[j..]);
    BreakRemoved(text, k, j);
  }

  /** Removing the breaks of a line, its break and the rest. */
  lemma BreakRemoved(text: string, k: nat, j: nat)
    requires k < j <= |text|
    requires forall i :: 0 <= i < k ==> !IsLineBreak(text[i])
    requires forall i :: k <= i < j ==> IsLineBreak(text[i])
    ensures Remove(text, IsLineBreak) == text[..k] + Remove(text[j..], IsLineBreak)
  {
    var a, b, c := text[..k], text[k..j], text[j..];
    assert text == a + (b + c) by { SplitThree(text, k, j); }
    assert forall i :: 0 <= i < |a| ==> !IsLineBreak(a[i]) by {
      forall i | 0 <= i < |a| ensures !IsLineBreak(a[i]) { assert a[i] == text[i]; }
    }
    assert forall i :: 0 <= i < |b| ==> IsLineBreak(b[i]) by {
      forall i | 0 <= i < |b| ensures IsLineBreak(b[i]) { assert b[i] == text[k + i]; }
    }
    RemoveThree(a, b, c, IsLineBreak);
  }

  lemma SplitThree(s: string, k: nat, j: nat)
    requires k <= j <= |s|
    ensures s == s[..k] + (s[k..j] + s[j..])
  {
  }

  /** Removing from a kept part, a removed part and the rest. */
  lemma RemoveThree(a: string, b: string, c: string, p: char -> bool)
    requires forall i :: 0 <= i < |a| ==> !p(a[i])
    requires forall i :: 0 <= i < |b| ==> p(b[i])
    ensures Remove(a + (b + c), p) == a + Remove(c, p)
  {
    RemoveAll(b, p);
    RemoveAppend(b, c, p);
    assert Remove(b + c, p) == Remove(c, p);
    RemoveNone(a, p);
    RemoveAppend(a, b + c, p);
  }

  // ---------------------------------------------------------------------
  // string.Trim

  /** Number of leading white-space characters. */
  function LeadingWhite(s: string): (n: nat)
    ensures n <= |s|
    ensures forall i :: 0 <= i < n ==> IsWhiteSpace(s[i])
    ensures n < |s| ==> !IsWhiteSpace(s[n])
  {
    if s == [] || !IsWhiteSpace(s[0]) then 0 else 1 + LeadingWhite(s[1..])
  }

  /** Where the trailing white space starts. */
  function TrailingWhite(s: string): (n: nat)
    ensures n <= |s|
    ensures forall i :: n <= i < |s| ==> IsWhiteSpace(s[i])
    ensures n > 0 ==> !IsWhiteSpace(s[n - 1])
  {
    if s == [] || !IsWhiteSpace(s[|s| - 1]) then |s| else TrailingWhite(s[..|s| - 1])
  }

  /** `string.Trim`: empty exactly for a blank string, and otherwise starting
      and ending with a character that is not white space. */
  function Trim(s: string): (t: string)
    ensures t == [] <==> IsBlank(s)
    ensures t != [] ==> !IsWhiteSpace(t[0]) && !IsWhiteSpace(t[|t| - 1])
  {
    var a := LeadingWhite(s);
    if a == |s| then [] else s[a..TrailingWhite(s)]
  }

  /** `Trim` cuts white space off both ends and nothing else: the result is
      a slice of `s` and everything outside it is white space. */
  lemma TrimSlice(s: string)
    ensures exists i, j ::
      && 0 <= i <= j <= |s| && Trim(s) == s[i..j]
      && (forall k :: 0 <= k < i ==> IsWhiteSpace(s[k]))
      && (forall k :: j <= k < |s| ==> IsWhiteSpace(s[k]))
  {
    var a := LeadingWhite(s);
    if a == |s| {
      assert Trim(s) == s[a..a];
    } else {
      var b := TrailingWhite(s);
      assert Trim(s) == s[a..b];
    }
  }

  // ---------------------------------------------------------------------
  // GetContentLines

  /** `StartsWith("//", StringComparison.Ordinal)`. */
  predicate IsComment(t: string) {
    |t| >= 2 && t[0] == '/' && t[1] == '/'
  }

  /** Whether a line is kept: its trimmed text is neither blank nor a
      comment. */
  predicate IsContent(line: string) {
    var t := Trim(line);
    !IsBlank(t) && !IsComment(t)
  }

  /** What one line read from the text contributes: its trimmed text when it
      has content, nothing otherwise. */
  function Kept(line: string): seq<string> {
    if IsContent(line) then [Trim(line)] else []
  }

  /** What the lines of `raw` contribute under `f`, in their order. */
  function Joined(raw: seq<string>, f: string -> seq<string>): seq<string> {
    if raw == [] then []
    else Joined(raw[..|raw| - 1], f) + f(raw[|raw| - 1])
  }

  /** The trimmed content lines among `raw`, in their order. */
  function ContentLinesOf(raw: seq<string>): seq<string> {
    Joined(raw, Kept)
  }

  /** The content lines of a text. */
  function ContentLines(text: string): seq<string> {
    ContentLinesOf(ReadLines(text))
  }

  /** `GetContentLines`: reads line by line, trims each line, skips blank
      lines and `//` comments and keeps the rest. */
  method GetContentLines(rawText: string) returns (lines: seq<string>)
    ensures lines == ContentLines(rawText)
  {
    var reader := ReadLines(rawText);
    lines := [];
    var n := 0;
    while n < |reader|
      invariant n <= |reader|
      invariant lines == ContentLinesOf(reader[..n])
    {
      var line := reader[n];
      n := n + 1;
      assert reader[..n][..n - 1] == reader[..n - 1];
      var trimmed := Trim(line);
      if IsBlank(trimmed) {
        continue;
      }
      if IsComment(trimmed) {
        continue;
      }
      lines := lines + [trimmed];
    }
    assert reader[..n] == reader;
  }

  /** What every content line is: trimmed, not blank and not a comment. */
  predicate IsContentLine(l: string) {
    l != [] && !IsWhiteSpace(l[0]) && !IsWhiteSpace(l[|l| - 1]) && !IsComment(l)
  }

  /** What a line contributes is a content line, if anything. */
  lemma KeptSound(line: string)
    ensures forall l <- Kept(line) :: IsContentLine(l)
  {
  }

  /** Every content line is trimmed, not blank and not a comment. */
  lemma {:induction false} ContentLinesSound(raw: seq<string>)
    ensures forall l <- ContentLinesOf(raw) :: IsContentLine(l)
    decreases |raw|
  {
    if raw != [] {
      var init, last := raw[..|raw| - 1], raw[|raw| - 1];
      ContentLinesSound(init);
      KeptSound(last);
      assert ContentLinesOf(raw) == ContentLinesOf(init) + Kept(last);
    }
  }

  /** Lines are taken one by one: what a text cut anywhere contributes is
      what the part before the cut contributes followed by what the part
      after it contributes. */
  lemma {:induction false} JoinedSplit(raw: seq<string>, f: string -> seq<string>, k: nat)
    requires k <= |raw|
    ensures Joined(raw, f) == Joined(raw[..k], f) + Joined(raw[k..], f)
    decreases |raw|
  {
    if k == |raw| {
      assert raw[..k] == raw && raw[k..] == [];
    } else {
      var init := raw[..|raw| - 1];
      JoinedSplit(init, f, k);
      assert init[..k] == raw[..k];
      var rest := raw[k..];
      assert rest[..|rest| - 1] == init[k..] && rest[|rest| - 1] == raw[|raw| - 1];
    }
  }

  /** Every line with content is kept, at its place among the others. */
  lemma ContentLinesKeep(raw: seq<string>, i: int)
    requires 0 <= i < |raw|
    ensures ContentLinesOf(raw) == ContentLinesOf(raw[..i]) + Kept(raw[i]) + ContentLinesOf(raw[i + 1..])
  {
    JoinedSplit(raw, Kept, i + 1);
    var front := raw[..i + 1];
    assert front[..|front| - 1] == raw[..i] && front[|front| - 1] == raw[i];
  }

  // ---------------------------------------------------------------------
  // Tokenize

  /** Length of the first token of `s`: the index of the first separator. */
  function TokenEnd(s: string): (k: nat)
    ensures k <= |s|
    ensures forall i :: 0 <= i < k ==> !IsSeparator(s[i])
    ensures k < |s| ==> IsSeparator(s[k])
  {
    if s == [] || IsSeparator(s[0]) then 0 else 1 + TokenEnd(s[1..])
  }

  /** A token: non-empty and free of separators. */
  predicate IsToken(t: string) {
    t != [] && forall i :: 0 <= i < |t| ==> !IsSeparator(t[i])
  }

  /** `Tokenize`: `Split` at spaces, tabs and commas with empty entries
      removed. Every token is non-empty and free of separators. */
  function Tokenize(s: string): (tokens: seq<string>)
    ensures forall t <- tokens :: IsToken(t)
    decreases |s|
  {
    if s == [] then []
    else if IsSeparator(s[0]) then Tokenize(s[1..])
    else
      var k := TokenEnd(s);
      [s[..k]] + Tokenize(s[k..])
  }

  /** Splitting loses the separators and nothing else. */
  lemma {:induction false} TokenizeJoin(s: string)
    ensures Concat(Tokenize(s)) == Remove(s, IsSeparator)
    decreases |s|
  {
    if s != [] {
      if IsSeparator(s[0]) {
        TokenizeJoin(s[1..]);
      } else {
        var k := TokenEnd(s);
        assert s == s[..k] + s[k..];
        RemoveAppend(s[..k], s[k..], IsSeparator);
        RemoveNone(s[..k], IsSeparator);
        TokenizeJoin(s[k..]);
        assert ([s[..k]] + Tokenize(s[k..]))[1..] == Tokenize(s[k..]);
      }
    }
  }

  /** Tokens written with one space between them. */
  function JoinSpaced(tokens: seq<string>): string {
    if |tokens| == 0 then []
    else if |tokens| == 1 then tokens[0]
    else tokens[0] + " " + JoinSpaced(tokens[1..])
  }

  /** Tokens that are non-empty and hold no separator come back from a
      space-separated line unchanged. */
  lemma {:induction false} TokenizeRoundTrip(tokens: seq<string>)
    requires forall t <- tokens :: IsToken(t)
    ensures Tokenize(JoinSpaced(tokens)) == tokens
    decreases |tokens|
  {
    if |tokens| == 1 {
      TokenizeFirst(tokens[0], []);
      assert tokens[0] + [] == tokens[0] && tokens == [tokens[0]];
    } else if |tokens| > 1 {
      var t, more := tokens[0], tokens[1..];
      TokenizeRoundTrip(more);
      var rest := " " + JoinSpaced(more);
      assert JoinSpaced(tokens) == t + rest;
      TokenizeFirst(t, rest);
      assert rest[1..] == JoinSpaced(more);
      assert tokens == [t] + more;
    }
  }

  /** A separator-free, non-empty prefix followed by a separator or the end
      is the first token, and the tokens after it are those of the rest. */
  lemma TokenizeFirst(t: string, rest: string)
    requires IsToken(t)
    requires rest == [] || IsSeparator(rest[0])
    ensures Tokenize(t + rest) == [t] + Tokenize(rest)
  {
    var s := t + rest;
    forall i | 0 <= i < |t|
      ensures !IsSeparator(s[i])
    {
      assert s[i] == t[i];
    }
    assert |t| < |s| ==> s[|t|] == rest[0];
    assert TokenEnd(s) == |t|;
    assert s[..|t|] == t && s[|t|..] == rest;
  }

  // ---------------------------------------------------------------------
  // int.TryParse

  predicate IsDigit(c: char) {
    '0' <= c <= '9'
  }

  predicate AllDigits(s: string) {
    forall i :: 0 <= i < |s| ==> IsDigit(s[i])
  }

  /** The value of a string of decimal digits. */
  function DigitsValue(s: string): nat
    requires AllDigits(s)
  {
    if s == [] then 0 else DigitsValue(s[..|s| - 1]) * 10 + (s[|s| - 1] as int - '0' as int)
  }

  /** The white space `NumberStyles.Integer` allows around a number:
      U+0009 to U+000D and the space. */
  predicate IsNumberWhite(c: char) {
    c == ' ' || '\t' <= c <= '\r'
  }

  /** The string with number white space cut off both ends. */
  function TrimNumber(s: string): (t: string)
    decreases |s|
    ensures |t| <= |s|
    ensures t != [] ==> !IsNumberWhite(t[0]) && !IsNumberWhite(t[|t| - 1])
    ensures (forall i :: 0 <= i < |s| ==> !IsNumberWhite(s[i])) ==> t == s
  {
    if s != [] && IsNumberWhite(s[0]) then TrimNumber(s[1..])
    else if s != [] && IsNumberWhite(s[|s| - 1]) then TrimNumber(s[..|s| - 1])
    else s
  }

  /** An optional sign followed by decimal digits whose value fits an `int`. */
  function ParseSigned(s: string): (r: Option<Int32>)
    ensures r.Some? ==> |s| > 0 && AllDigits(s[1..]) && (IsDigit(s[0]) || s[0] == '-' || s[0] == '+')
    ensures r.Some? && r.value < 0 ==> s[0] == '-'
  {
    var signed := |s| > 0 && (s[0] == '-' || s[0] == '+');
    var digits := if signed then s[1..] else s;
    if digits == [] || !AllDigits(digits) then None
    else
      var v: int := if signed && s[0] == '-' then -(DigitsValue(digits) as int) else DigitsValue(digits);
      if MinInt32 <= v <= MaxInt32 then Some(v) else None
  }

  /** `int.TryParse` with `NumberStyles.Integer`: number white space around
      an optional sign and decimal digits whose value fits an `int`; `None`
      where TryParse returns false. */
  function ParseInt(s: string): (r: Option<Int32>)
    ensures r.Some? ==> var t := TrimNumber(s);
      |t| > 0 && AllDigits(t[1..]) && (IsDigit(t[0]) || t[0] == '-' || t[0] == '+')
    ensures r.Some? && r.value < 0 ==> TrimNumber(s)[0] == '-'
  {
    ParseSigned(TrimNumber(s))
  }

  /** Number white space on either side of a token does not change what it
      parses to. */
  lemma {:induction false} NumberWhiteIgnored(w1: string, t: string, w2: string)
    requires forall i :: 0 <= i < |w1| ==> IsNumberWhite(w1[i])
    requires forall i :: 0 <= i < |w2| ==> IsNumberWhite(w2[i])
    requires t != [] && !IsNumberWhite(t[0]) && !IsNumberWhite(t[|t| - 1])
    ensures TrimNumber(w1 + t + w2) == t
    ensures ParseInt(w1 + t + w2) == ParseSigned(t)
    decreases |w1| + |w2|
  {
    var s := w1 + t + w2;
    if w1 != [] {
      assert s[0] == w1[0] && s[1..] == w1[1..] + t + w2;
      NumberWhiteIgnored(w1[1..], t, w2);
    } else if w2 != [] {
      assert s[0] == t[0] && s[|s| - 1] == w2[|w2| - 1];
      assert s[..|s| - 1] == w1 + t + w2[..|w2| - 1];
      NumberWhiteIgnored(w1, t, w2[..|w2| - 1]);
    } else {
      assert s == t;
    }
  }

  /** The shortest decimal digits of `n`. */
  function Decimal(n: nat): (s: string)
    ensures s != [] && AllDigits(s)
  {
    if n < 10 then ['0' + n as char] else Decimal(n / 10) + ['0' + (n % 10) as char]
  }

  lemma {:induction false} DecimalValue(n: nat)
    ensures DigitsValue(Decimal(n)) == n
  {
    if n >= 10 {
      var s := Decimal(n);
      assert s[..|s| - 1] == Decimal(n / 10);
      DecimalValue(n / 10);
    }
  }

  /** `int.ToString()` in the invariant culture. */
  function ShowInt(n: Int32): string {
    var m: int := n;
    if m < 0 then "-" + Decimal(-m) else Decimal(m)
  }

  /** Every `int` parses back from its decimal form. */
  lemma ParseIntRoundTrip(n: Int32)
    ensures ParseInt(ShowInt(n)) == Some(n)
  {
    ShowIntUnpadded(n);
    ParseSignedShow(n);
  }

  /** Trimming number white space leaves an `int`'s decimal form alone. */
  lemma ShowIntUnpadded(n: Int32)
    ensures TrimNumber(ShowInt(n)) == ShowInt(n)
  {
    ShowIntChars(n);
  }

  /** The decimal form of an `int` holds no number white space. */
  lemma ShowIntChars(n: Int32)
    ensures forall i :: 0 <= i < |ShowInt(n)| ==> !IsNumberWhite(ShowInt(n)[i])
  {
    var m: int := n;
    var s := ShowInt(n);
    if m < 0 {
      var d := Decimal(-m);
      assert s == "-" + d;
      forall i | 0 <= i < |s|
        ensures !IsNumberWhite(s[i])
      {
        if i > 0 {
          assert s[i] == d[i - 1] && IsDigit(d[i - 1]);
        }
      }
    } else {
      var d := Decimal(m);
      assert s == d;
      forall i | 0 <= i < |s|
        ensures !IsNumberWhite(s[i])
      {
        assert IsDigit(d[i]);
      }
    }
  }

  /** The sign and digits of an `int`'s decimal form read back as it. */
  lemma ParseSignedShow(n: Int32)
    ensures ParseSigned(ShowInt(n)) == Some(n)
  {
    var m: int := n;
    var s := ShowInt(n);
    if m < 0 {
      DecimalValue(-m);
      assert s[0] == '-' && s[1..] == Decimal(-m);
    } else {
      DecimalValue(m);
      assert s == Decimal(m) && IsDigit(s[0]);
    }
  }
}
