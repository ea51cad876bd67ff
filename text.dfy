/**
 * String primitives shared by every component: Python's `lower()`, `strip()`,
 * whitespace collapsing (`re.sub(r"\s+", " ", ...)`), the `in` operator on
 * strings, `str.split`, and the decimal conversions `int(...)` / `str(...)`.
 */
module Text {
  import opened Wrappers

  // ---------------------------------------------------------------------------
  // Characters

  /** Python's `str.isspace()`: the characters `strip()` and the regex class `\s` remove. */
  predicate IsSpace(c: char) {
    c == ' ' || ('\t' <= c <= '\r') || ('\U{1C}' <= c <= '\U{1F}') || c == '\U{85}' || c == '\U{A0}'
    || c == '\U{1680}' || ('\U{2000}' <= c <= '\U{200A}') || c == '\U{2028}' || c == '\U{2029}'
    || c == '\U{202F}' || c == '\U{205F}' || c == '\U{3000}'
  }

  /** `lower()` on one character, for ASCII, Latin-1 and the French ligature; other scripts are left alone. */
  function LowerChar(c: char): char {
    if 'A' <= c <= 'Z' then (c as int + 32) as char
    else if '\U{C0}' <= c <= '\U{DE}' && c != '\U{D7}' then (c as int + 32) as char
    else if c == '\U{152}' then '\U{153}'
    else if c == '\U{178}' then '\U{FF}'
    else c
  }

  lemma LowerCharIdempotent(c: char)
    ensures LowerChar(LowerChar(c)) == LowerChar(c)
    ensures IsSpace(LowerChar(c)) == IsSpace(c)
  {
  }

  predicate IsDigit(c: char) {
    '0' <= c <= '9'
  }

  // ---------------------------------------------------------------------------
  // lower(), strip()

  function Lower(s: string): (r: string)
    ensures |r| == |s|
    ensures forall i :: 0 <= i < |s| ==> r[i] == LowerChar(s[i])
  {
    seq(|s|, i requires 0 <= i < |s| => LowerChar(s[i]))
  }

  predicate IsLowered(s: string) {
    forall i :: 0 <= i < |s| ==> LowerChar(s[i]) == s[i]
  }

  /** The suffix of `s` left after dropping every leading character that satisfies `drop`. */
  function TrimLeftWhere(s: string, drop: char -> bool): (r: string)
    ensures |r| <= |s| && r == s[|s| - |r|..]
    ensures r == [] || !drop(r[0])
    ensures forall i :: 0 <= i < |s| - |r| ==> drop(s[i])
    decreases |s|
  {
    if s != [] && drop(s[0]) then TrimLeftWhere(s[1..], drop) else s
  }

  /** The prefix of `s` left after dropping every trailing character that satisfies `drop`. */
  function TrimRightWhere(s: string, drop: char -> bool): (r: string)
    ensures |r| <= |s| && r == s[..|r|]
    ensures r == [] || !drop(r[|r| - 1])
    ensures forall i :: |r| <= i < |s| ==> drop(s[i])
    decreases |s|
  {
    if s != [] && drop(s[|s| - 1]) then TrimRightWhere(s[..|s| - 1], drop) else s
  }

  /** Python's `s.strip(chars)`, with the character set given as a predicate. */
  function StripWhere(s: string, drop: char -> bool): (r: string)
    ensures |r| <= |s|
    ensures r == [] || (!drop(r[0]) && !drop(r[|r| - 1]))
  {
    TrimRightWhere(TrimLeftWhere(s, drop), drop)
  }

  function TrimLeft(s: string): string {
    TrimLeftWhere(s, IsSpace)
  }

  function TrimRight(s: string): string {
    TrimRightWhere(s, IsSpace)
  }

  /** Python's `s.strip()`. */
  function Strip(s: string): string {
    StripWhere(s, IsSpace)
  }

  /** `strip()` leaves no whitespace at either end. */
  lemma StripEnds(s: string)
    ensures var t := Strip(s); t == [] || (!IsSpace(t[0]) && !IsSpace(t[|t| - 1]))
  {
  }

  /** Every character `strip()` keeps is one of the input's, so lower case survives it. */
  lemma StripLowered(s: string)
    requires IsLowered(s)
    ensures IsLowered(Strip(s))
  {
    var l := TrimLeft(s);
    assert IsLowered(l);
  }

  /** A string that neither starts nor ends with whitespace is left alone by `strip()`. */
  lemma StripUnpadded(s: string)
    requires s == [] || (!IsSpace(s[0]) && !IsSpace(s[|s| - 1]))
    ensures Strip(s) == s
  {
  }

  lemma StripEmptyIffAllSpace(s: string)
    ensures Strip(s) == [] <==> forall i :: 0 <= i < |s| ==> IsSpace(s[i])
  {
    var l := TrimLeft(s);
    if l != [] {
      assert !IsSpace(s[|s| - |l|]);
    }
  }

  // ---------------------------------------------------------------------------
  // re.sub(r"\s+", " ", s) and the text normalisation built on it

  /** `re.sub(r"\s+", " ", s)`: every maximal run of whitespace becomes one space. */
  function Collapse(s: string): (r: string)
    ensures |r| <= |s|
    decreases |s|
  {
    if s == [] then []
    else if IsSpace(s[0]) then " " + Collapse(TrimLeft(s))
    else [s[0]] + Collapse(s[1..])
  }

  /** Collapsing keeps the first character when it is not whitespace. */
  lemma CollapseFirst(s: string)
    requires s != []
    ensures Collapse(s) != []
    ensures !IsSpace(s[0]) ==> Collapse(s)[0] == s[0]
  {
  }

  /** Collapsing keeps the last character when it is not whitespace. */
  lemma {:induction false} CollapseLast(s: string)
    requires s != [] && !IsSpace(s[|s| - 1])
    ensures Collapse(s) != [] && Collapse(s)[|Collapse(s)| - 1] == s[|s| - 1]
    decreases |s|
  {
    if IsSpace(s[0]) {
      var t := TrimLeft(s);
      assert t != [] && t[|t| - 1] == s[|s| - 1];
      CollapseLast(t);
    } else if |s| > 1 {
      CollapseLast(s[1..]);
    }
  }

  /** The only whitespace left is the plain space, and never two of them in a row. */
  lemma {:induction false} CollapseSpaces(s: string)
    ensures forall i :: 0 <= i < |Collapse(s)| ==> (IsSpace(Collapse(s)[i]) ==> Collapse(s)[i] == ' ')
    ensures NoDoubleSpace(Collapse(s))
    decreases |s|
  {
    if s != [] {
      if IsSpace(s[0]) {
        var t := TrimLeft(s);
        CollapseSpaces(t);
        if t != [] {
          CollapseFirst(t);
        }
      } else {
        CollapseSpaces(s[1..]);
      }
    }
  }

  /** Collapsing a lower-case string gives a lower-case string. */
  lemma {:induction false} CollapseLowered(s: string)
    requires IsLowered(s)
    ensures IsLowered(Collapse(s))
    decreases |s|
  {
    if s != [] {
      if IsSpace(s[0]) {
        var t := TrimLeft(s);
        assert IsLowered(t);
        CollapseLowered(t);
      } else {
        CollapseLowered(s[1..]);
      }
    }
  }

  predicate NoDoubleSpace(r: string) {
    forall i :: 0 <= i < |r| - 1 ==> !(r[i] == ' ' && r[i + 1] == ' ')
  }

  /** `re.sub(r"\s+", " ", (text or "").lower().strip())`, the normalisation both tables apply. */
  function Normalize(text: string): string {
    Collapse(Strip(Lower(text)))
  }

  /** What a normalised text looks like: lower case, single inner spaces, no outer whitespace. */
  predicate NormalForm(r: string) {
    && IsLowered(r)
    && (forall i :: 0 <= i < |r| ==> (IsSpace(r[i]) ==> r[i] == ' '))
    && NoDoubleSpace(r)
    && (r == [] || (!IsSpace(r[0]) && !IsSpace(r[|r| - 1])))
  }

  /** Lower-casing gives a lower-case string. */
  lemma LowerIsLowered(s: string)
    ensures IsLowered(Lower(s))
  {
    forall i | 0 <= i < |s| ensures LowerChar(Lower(s)[i]) == Lower(s)[i] {
      LowerCharIdempotent(s[i]);
    }
  }

  lemma NormalizeInNormalForm(text: string)
    ensures NormalForm(Normalize(text))
  {
    NormalizeLowered(text);
    NormalizeSpaces(text);
    NormalizeEnds(text);
  }

  lemma NormalizeLowered(text: string)
    ensures IsLowered(Normalize(text))
  {
    var l := Lower(text);
    LowerIsLowered(text);
    StripLowered(l);
    CollapseLowered(Strip(l));
  }

  lemma NormalizeSpaces(text: string)
    ensures var c := Normalize(text); forall i :: 0 <= i < |c| ==> (IsSpace(c[i]) ==> c[i] == ' ')
    ensures NoDoubleSpace(Normalize(text))
  {
    CollapseSpaces(Strip(Lower(text)));
  }

  lemma NormalizeEnds(text: string)
    ensures var c := Normalize(text); c == [] || (!IsSpace(c[0]) && !IsSpace(c[|c| - 1]))
  {
    StripEnds(Lower(text));
    CollapseEnds(Strip(Lower(text)));
  }

  /** Collapsing a string without outer whitespace gives one without outer whitespace. */
  lemma CollapseEnds(t: string)
    requires t == [] || (!IsSpace(t[0]) && !IsSpace(t[|t| - 1]))
    ensures var c := Collapse(t); c == [] || (!IsSpace(c[0]) && !IsSpace(c[|c| - 1]))
  {
    if t != [] {
      CollapseFirst(t);
      CollapseLast(t);
    }
  }

  /** A string in normal form is left unchanged by `Collapse`. */
  lemma {:induction false} CollapseFixed(s: string)
    requires forall i :: 0 <= i < |s| ==> (IsSpace(s[i]) ==> s[i] == ' ')
    requires NoDoubleSpace(s)
    ensures Collapse(s) == s
    decreases |s|
  {
    if s != [] {
      NormalTail(s);
      CollapseFixed(s[1..]);
      if IsSpace(s[0]) {
        TrimLeftAfterSpace(s);
        assert Collapse(s) == " " + s[1..];
      } else {
        assert Collapse(s) == [s[0]] + s[1..];
      }
    }
  }

  /** The tail of a string in normal form is in normal form, and a space is followed by a non-space. */
  lemma NormalTail(s: string)
    requires s != []
    requires forall i :: 0 <= i < |s| ==> (IsSpace(s[i]) ==> s[i] == ' ')
    requires NoDoubleSpace(s)
    ensures forall i :: 0 <= i < |s[1..]| ==> (IsSpace(s[1..][i]) ==> s[1..][i] == ' ')
    ensures NoDoubleSpace(s[1..])
    ensures IsSpace(s[0]) && |s| > 1 ==> !IsSpace(s[1])
  {
    if IsSpace(s[0]) && |s| > 1 {
      assert s[0] == ' ' && !(s[0] == ' ' && s[1] == ' ');
    }
    assert forall i :: 0 <= i < |s[1..]| ==> s[1..][i] == s[i + 1];
  }

  lemma TrimLeftAfterSpace(s: string)
    requires s != [] && IsSpace(s[0]) && (|s| == 1 || !IsSpace(s[1]))
    ensures TrimLeft(s) == s[1..]
  {
    assert TrimLeft(s) == TrimLeftWhere(s[1..], IsSpace);
  }

  lemma NormalFormFixed(r: string)
    requires NormalForm(r)
    ensures Normalize(r) == r
  {
    assert Lower(r) == r;
    assert TrimLeft(r) == r;
    assert TrimRight(r) == r;
    CollapseFixed(r);
  }

  /** Normalising twice is normalising once. */
  lemma NormalizeIdempotent(text: string)
    ensures Normalize(Normalize(text)) == Normalize(text)
  {
    NormalizeInNormalForm(text);
    NormalFormFixed(Normalize(text));
  }

  // ---------------------------------------------------------------------------
  // Substring search: Python's `p in s`, `s.startswith(p)`, `s.index(p)`

  predicate StartsWith(s: string, p: string) {
    |p| <= |s| && s[..|p|] == p
  }

  /** Python's `p in s`. */
  predicate Occurs(p: string, s: string)
    decreases |s|
  {
    StartsWith(s, p) || (s != [] && Occurs(p, s[1..]))
  }

  /** Python's `any(k in s for k in ks)`. */
  predicate AnyOccurs(ks: seq<string>, s: string) {
    exists k :: k in ks && Occurs(k, s)
  }

  /** A regular-expression search for `a.*b` on a text without line breaks: `a` occurs, and `b` after it. */
  predicate Follows(a: string, b: string, s: string)
    decreases |s|
  {
    (StartsWith(s, a) && Occurs(b, s[|a|..])) || (s != [] && Follows(a, b, s[1..]))
  }

  /** The two regular-expression shapes the keyword tables use: a literal, and `a.*b`. */
  datatype Pattern = Literal(s: string) | Then(a: string, b: string)

  /** `re.search(pattern, text)` succeeds, for a text without line breaks. */
  predicate Matches(p: Pattern, text: string) {
    match p
    case Literal(w) => Occurs(w, text)
    case Then(a, b) => Follows(a, b, text)
  }

  /** `any(re.search(p, text) for p in ps)`. */
  predicate AnyMatches(ps: seq<Pattern>, text: string) {
    exists p :: p in ps && Matches(p, text)
  }

  /** A pattern with some text in it. */
  predicate NonEmptyPattern(p: Pattern) {
    match p
    case Literal(w) => w != ""
    case Then(a, b) => a != "" || b != ""
  }

  /** Only an empty pattern matches the empty text. */
  lemma MatchesEmptyText(p: Pattern)
    requires NonEmptyPattern(p)
    ensures !Matches(p, "")
  {
    match p
    case Literal(w) => OccursEmptyText(w);
    case Then(a, b) =>
      if StartsWith("", a) {
        assert a == "" && ""[|a|..] == "";
        OccursEmptyText(b);
      }
  }

  lemma NoPatternMatchesEmpty(ps: seq<Pattern>)
    requires forall p :: p in ps ==> NonEmptyPattern(p)
    ensures !AnyMatches(ps, "")
  {
    forall p | p in ps ensures !Matches(p, "") {
      MatchesEmptyText(p);
    }
  }

  lemma {:induction false} OccursAt(p: string, s: string, i: nat)
    requires i + |p| <= |s| && s[i..i + |p|] == p
    ensures Occurs(p, s)
    decreases i
  {
    if i == 0 {
      assert StartsWith(s, p);
    } else {
      var here, there := s[1..][i - 1..i - 1 + |p|], s[i..i + |p|];
      assert forall j :: 0 <= j < |p| ==> here[j] == there[j];
      OccursAt(p, s[1..], i - 1);
    }
  }

  /** Python's `s.index(p)`: the first position at which `p` occurs. */
  function IndexOf(p: string, s: string): (i: nat)
    requires Occurs(p, s)
    ensures i + |p| <= |s| && s[i..i + |p|] == p
    decreases |s|
  {
    if StartsWith(s, p) then 0
    else
      var k := IndexOf(p, s[1..]);
      var here, there := s[1 + k..1 + k + |p|], s[1..][k..k + |p|];
      assert forall j :: 0 <= j < |p| ==> here[j] == there[j];
      1 + k
  }

  lemma OccursEmptyText(p: string)
    ensures Occurs(p, "") <==> p == ""
  {
  }

  /** Containment is transitive: a piece of a piece of `s` is a piece of `s`. */
  lemma {:induction false} OccursTransitive(a: string, b: string, s: string)
    requires Occurs(a, b) && Occurs(b, s)
    ensures Occurs(a, s)
    decreases |s|
  {
    if StartsWith(s, b) {
      OccursInPrefix(a, b, s);
    } else {
      OccursTransitive(a, b, s[1..]);
    }
  }

  /** What occurs in a prefix of `s` occurs in `s`. */
  lemma {:induction false} OccursInPrefix(a: string, b: string, s: string)
    requires Occurs(a, b) && StartsWith(s, b)
    ensures Occurs(a, s)
    decreases |b|
  {
    if StartsWith(b, a) {
      assert s[..|a|] == s[..|b|][..|a|];
      assert StartsWith(s, a);
    } else {
      assert s[1..][..|b| - 1] == s[..|b|][1..];
      OccursInPrefix(a, b[1..], s[1..]);
    }
  }

  /** Every string occurs in itself, and the empty string occurs everywhere. */
  lemma OccursSelf(s: string)
    ensures Occurs(s, s) && Occurs("", s)
  {
    assert StartsWith(s, s) && StartsWith(s, "");
  }

  // ---------------------------------------------------------------------------
  // str.split(c) and friends

  function IndexOfChar(s: string, c: char): (i: nat)
    requires c in s
    ensures i < |s| && s[i] == c && c !in s[..i]
  {
    if s[0] == c then 0 else 1 + IndexOfChar(s[1..], c)
  }

  /** Python's `s.split(c)` for a one-character separator. */
  function SplitOn(s: string, c: char): (parts: seq<string>)
    ensures |parts| >= 1
    ensures forall k :: 0 <= k < |parts| ==> c !in parts[k]
    decreases |s|
  {
    if c !in s then [s]
    else
      var i := IndexOfChar(s, c);
      [s[..i]] + SplitOn(s[i + 1..], c)
  }

  /** Python's `s.split(c)[-1]`: the text after the last separator. */
  function AfterLast(s: string, c: char): string {
    var parts := SplitOn(s, c);
    parts[|parts| - 1]
  }

  /** Python's `s.split(c, 1)[-1]`: the text after the first separator. */
  function AfterFirst(s: string, c: char): string {
    if c in s then s[IndexOfChar(s, c) + 1..] else s
  }

  /** Python's `s.replace(" ", "")`. */
  function RemoveSpaces(s: string): (r: string)
    ensures ' ' !in r
  {
    if s == [] then []
    else if s[0] == ' ' then RemoveSpaces(s[1..])
    else [s[0]] + RemoveSpaces(s[1..])
  }

  /** Python's `s[:n]`. */
  function Take<T>(s: seq<T>, n: nat): (r: seq<T>)
    ensures |r| <= n && |r| <= |s|
    ensures n <= |s| ==> |r| == n
    ensures r == s[..|r|]
  {
    if n <= |s| then s[..n] else s
  }

  // ---------------------------------------------------------------------------
  // Decimal numerals: `str(n)`, `int(s)`, `s.isdigit()`

  /** Python's `s.isdigit()` restricted to ASCII digits: non-empty and every character a digit. */
  predicate AllDigits(s: string) {
    |s| > 0 && forall i :: 0 <= i < |s| ==> IsDigit(s[i])
  }

  function DigitValue(c: char): nat
    requires IsDigit(c)
  {
    c as int - '0' as int
  }

  function DigitChar(d: nat): (c: char)
    requires d < 10
    ensures IsDigit(c) && DigitValue(c) == d
  {
    (d + '0' as int) as char
  }

  /** The value of a string of decimal digits, read left to right. */
  function DigitsValue(s: string): nat
    requires forall i :: 0 <= i < |s| ==> IsDigit(s[i])
  {
    if s == [] then 0 else 10 * DigitsValue(s[..|s| - 1]) + DigitValue(s[|s| - 1])
  }

  /** Python's `str(n)` for a natural number: no sign and no leading zero. */
  function NatToString(n: nat): (r: string)
    ensures AllDigits(r)
    ensures r[0] == '0' ==> n == 0 && |r| == 1
    decreases n
  {
    if n < 10 then [DigitChar(n)] else NatToString(n / 10) + [DigitChar(n % 10)]
  }

  /** Reading back what `str(n)` printed gives `n`. */
  lemma {:induction false} NatToStringRoundTrip(n: nat)
    ensures DigitsValue(NatToString(n)) == n
    decreases n
  {
    if n >= 10 {
      var s := NatToString(n);
      assert s[..|s| - 1] == NatToString(n / 10);
      NatToStringRoundTrip(n / 10);
    }
  }

  /** A number below 100 prints with at most two digits. */
  lemma {:induction false} NatToStringShort(n: nat)
    requires n < 100
    ensures 1 <= |NatToString(n)| <= 2
    ensures |NatToString(n)| == 2 <==> n >= 10
  {
    if n >= 10 {
      assert n / 10 < 10;
    }
  }

  /** Python's `str(n)` for any integer. */
  function IntToString(n: int): string {
    if n < 0 then "-" + NatToString(-n) else NatToString(n)
  }

  /** A whole number as `str(int(...))` prints it: an optional minus sign and digits. */
  predicate IsWholeNumber(s: string) {
    AllDigits(s) || (|s| > 1 && s[0] == '-' && AllDigits(s[1..]))
  }

  lemma IntToStringWhole(n: int)
    ensures IsWholeNumber(IntToString(n))
  {
    if n < 0 {
      assert IntToString(n)[1..] == NatToString(-n);
    }
  }

  /** Digits, with single underscores between them, as `int()` reads them. */
  predicate GroupedDigits(t: string) {
    |t| > 0 && IsDigit(t[0]) && IsDigit(t[|t| - 1])
    && forall i :: 0 <= i < |t| ==> IsDigit(t[i]) || (t[i] == '_' && i + 1 < |t| && IsDigit(t[i + 1]))
  }

  /**
   * Python's `int(s)` on text: surrounding whitespace, an optional sign, then
   * ASCII digits, possibly grouped by single underscores.
   */
  function ParseInt(s: string): Option<int> {
    var t := Strip(s);
    var body := if |t| > 0 && (t[0] == '-' || t[0] == '+') then t[1..] else t;
    if GroupedDigits(body) then
      var v := DigitsValue(Filter(body, IsDigit)) as int;
      Some(if t[0] == '-' then 0 - v else v)
    else None
  }

  /** Plain digits are read as their value. */
  lemma ParseIntDigits(s: string)
    requires AllDigits(Strip(s))
    ensures ParseInt(s) == Some(DigitsValue(Strip(s)) as int)
  {
    var t := Strip(s);
    assert !IsDigit('-') && !IsDigit('+');
    assert GroupedDigits(t);
    FilterKeepsAll(t, IsDigit);
  }

  /** An underscore between two digit groups is skipped: `int(a + "_" + b) == int(a + b)`. */
  lemma ParseIntSkipsUnderscores(a: string, b: string)
    requires AllDigits(a) && AllDigits(b)
    ensures ParseInt(a + "_" + b) == ParseInt(a + b)
  {
    SingleUnderscoreGrouped(a, b);
    ParseIntGrouped(a + "_" + b);
    FilterDropsUnderscore(a, b);
    DigitsConcat(a, b);
    ParseIntGrouped(a + b);
    FilterKeepsAll(a + b, IsDigit);
  }

  lemma SingleUnderscoreGrouped(a: string, b: string)
    requires AllDigits(a) && AllDigits(b)
    ensures GroupedDigits(a + "_" + b)
  {
    var t := a + "_" + b;
    assert t[0] == a[0] && t[|t| - 1] == b[|b| - 1];
    forall i | 0 <= i < |t| ensures IsDigit(t[i]) || (t[i] == '_' && i + 1 < |t| && IsDigit(t[i + 1])) {
      if i < |a| { assert t[i] == a[i]; }
      else if i == |a| { assert t[i + 1] == b[0]; }
      else { assert t[i] == b[i - |a| - 1]; }
    }
  }

  lemma FilterDropsUnderscore(a: string, b: string)
    requires AllDigits(a) && AllDigits(b)
    ensures Filter(a + "_" + b, IsDigit) == a + b
  {
    FilterConcat(a + "_", b, IsDigit);
    FilterConcat(a, "_", IsDigit);
    FilterKeepsAll(a, IsDigit);
    FilterKeepsAll(b, IsDigit);
    assert Filter("_", IsDigit) == "";
  }

  /** Grouped digits, which have no surrounding space and no sign, are read as their digits' value. */
  lemma ParseIntGrouped(t: string)
    requires GroupedDigits(t)
    ensures ParseInt(t) == Some(DigitsValue(Filter(t, IsDigit)) as int)
  {
    DigitEnds(t);
  }

  /** A text that starts and ends with a digit is its own strip and has no sign. */
  lemma DigitEnds(t: string)
    requires |t| > 0 && IsDigit(t[0]) && IsDigit(t[|t| - 1])
    ensures Strip(t) == t && t[0] != '-' && t[0] != '+'
  {
    assert !IsSpace(t[0]) && !IsSpace(t[|t| - 1]);
    StripUnpadded(t);
  }

  lemma DigitsConcat(a: string, b: string)
    requires AllDigits(a) && AllDigits(b)
    ensures AllDigits(a + b)
  {
    assert forall i :: 0 <= i < |a + b| ==> (a + b)[i] == if i < |a| then a[i] else b[i - |a|];
  }

  /** A doubled underscore is refused, as `int()` refuses it. */
  lemma ParseIntRefusesDoubleUnderscore(a: string, b: string)
    requires AllDigits(a) && AllDigits(b)
    ensures ParseInt(a + "__" + b) == None
  {
    DoubleUnderscoreNotGrouped(a, b);
    ParseIntUngrouped(a + "__" + b);
  }

  lemma DoubleUnderscoreNotGrouped(a: string, b: string)
    requires AllDigits(a) && AllDigits(b)
    ensures var t := a + "__" + b; |t| > 0 && IsDigit(t[0]) && IsDigit(t[|t| - 1]) && !GroupedDigits(t)
  {
    var t := a + "__" + b;
    assert t[0] == a[0] && t[|t| - 1] == b[|b| - 1];
    assert t[|a|] == '_' && t[|a| + 1] == '_';
  }

  /** Text between two digits that is not grouped digits is refused. */
  lemma ParseIntUngrouped(t: string)
    requires |t| > 0 && IsDigit(t[0]) && IsDigit(t[|t| - 1]) && !GroupedDigits(t)
    ensures ParseInt(t) == None
  {
    DigitEnds(t);
  }

  /** Filtering distributes over concatenation. */
  lemma {:induction false} FilterConcat(s: string, t: string, keep: char -> bool)
    ensures Filter(s + t, keep) == Filter(s, keep) + Filter(t, keep)
    decreases |s|
  {
    if s != [] {
      assert (s + t)[1..] == s[1..] + t;
      FilterConcat(s[1..], t, keep);
    } else {
      assert s + t == t;
    }
  }

  /** Filtering a string whose characters are all kept gives it back. */
  lemma {:induction false} FilterKeepsAll(s: string, keep: char -> bool)
    requires forall i :: 0 <= i < |s| ==> keep(s[i])
    ensures Filter(s, keep) == s
  {
    if s != [] {
      FilterKeepsAll(s[1..], keep);
    }
  }

  /** Keeps only the characters `keep` accepts: `re.sub(r"[^...]", "", s)`. */
  function Filter(s: string, keep: char -> bool): (r: string)
    ensures |r| <= |s|
    ensures forall i :: 0 <= i < |r| ==> keep(r[i])
  {
    if s == [] then [] else (if keep(s[0]) then [s[0]] else []) + Filter(s[1..], keep)
  }
}
