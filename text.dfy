/**
 * The parts of Python's `str` and `int` that the controller relies on:
 * `str.strip()`, `str.lower()`, `str.capitalize()` and `int(text)`.
 */
module Text {
  import opened Wrappers

  /** Python's `str.isspace()` for one character (the whitespace `strip()` removes). */
  predicate IsSpace(c: char) {
    || ('\t' <= c <= '\r')
    || ('\U{1C}' <= c <= '\U{1F}')
    || c == ' ' || c == '\U{85}' || c == '\U{A0}' || c == '\U{1680}'
    || ('\U{2000}' <= c <= '\U{200A}')
    || c == '\U{2028}' || c == '\U{2029}' || c == '\U{202F}' || c == '\U{205F}' || c == '\U{3000}'
  }

  predicate AllSpace(s: string) {
    forall i :: 0 <= i < |s| ==> IsSpace(s[i])
  }

  /** The number of whitespace characters `s` starts with. */
  function LeadingSpaces(s: string): (n: nat)
    ensures n <= |s| && AllSpace(s[..n])
    ensures n < |s| ==> !IsSpace(s[n])
  {
    if s != [] && IsSpace(s[0]) then
      var m := LeadingSpaces(s[1..]);
      assert forall k :: 1 <= k <= m ==> s[k] == s[1..][..m][k - 1];
      1 + m
    else 0
  }

  /** The number of whitespace characters `s` ends with. */
  function TrailingSpaces(s: string): (n: nat)
    ensures n <= |s| && AllSpace(s[|s| - n..])
    ensures n < |s| ==> !IsSpace(s[|s| - n - 1])
  {
    if s != [] && IsSpace(s[|s| - 1]) then
      var m := TrailingSpaces(s[..|s| - 1]);
      assert forall k :: |s| - 1 - m <= k < |s| - 1 ==> s[k] == s[..|s| - 1][|s| - 1 - m..][k - (|s| - 1 - m)];
      1 + m
    else 0
  }

  /**
   * Python's `s.strip()`: the infix of `s` left once the leading and the trailing
   * whitespace are cut off.
   */
  function Strip(s: string): (r: string)
    ensures r == [] || (!IsSpace(r[0]) && !IsSpace(r[|r| - 1]))
    ensures r == [] <==> AllSpace(s)
    ensures exists i, j :: 0 <= i <= j <= |s| && r == s[i..j] && AllSpace(s[..i]) && AllSpace(s[j..])
  {
    var i := LeadingSpaces(s);
    if i == |s| then
      assert s[..i] == s;
      assert s[..0] == [] && s[0..0] == [];
      []
    else
      var j := |s| - TrailingSpaces(s);
      assert i < j by { assert !IsSpace(s[i]); }
      assert !AllSpace(s) by { assert !IsSpace(s[i]); }
      s[i..j]
  }

  /** Stripping a string that already has no outer whitespace changes nothing. */
  lemma StripNoOuterSpace(s: string)
    requires s == [] || (!IsSpace(s[0]) && !IsSpace(s[|s| - 1]))
    ensures Strip(s) == s
  {
  }

  /** `strip()` is idempotent. */
  lemma StripIdempotent(s: string)
    ensures Strip(Strip(s)) == Strip(s)
  {
    StripNoOuterSpace(Strip(s));
  }

  /** Python's `str.lower()` on one character (ASCII letters only). */
  function LowerChar(c: char): char {
    if 'A' <= c <= 'Z' then (c as int + 32) as char else c
  }

  /** Python's `str.upper()` on one character (ASCII letters only). */
  function UpperChar(c: char): char {
    if 'a' <= c <= 'z' then (c as int - 32) as char else c
  }

  predicate IsUpperLetter(c: char) {
    'A' <= c <= 'Z'
  }

  predicate IsLowerLetter(c: char) {
    'a' <= c <= 'z'
  }

  /**
   * Python's `s.lower()`: same length, every upper-case letter turned into the lower-case
   * letter at the same place in the alphabet, and every other character kept as it was.
   */
  function Lower(s: string): (r: string)
    ensures |r| == |s|
    ensures forall i :: 0 <= i < |r| ==> !IsUpperLetter(r[i])
    ensures forall i :: 0 <= i < |s| && IsUpperLetter(s[i]) ==> r[i] as int - 'a' as int == s[i] as int - 'A' as int
    ensures forall i :: 0 <= i < |s| && !IsUpperLetter(s[i]) ==> r[i] == s[i]
  {
    seq(|s|, i requires 0 <= i < |s| => LowerChar(s[i]))
  }

  /**
   * Python's `s.capitalize()`: same length, the first character upper-cased, the rest
   * lower-cased; a letter keeps its place in the alphabet.
   */
  function Capitalize(s: string): (r: string)
    ensures |r| == |s|
    ensures r != [] ==> !IsLowerLetter(r[0]) && (!IsLowerLetter(s[0]) ==> r[0] == s[0])
    ensures s != [] && IsLowerLetter(s[0]) ==> r[0] as int - 'A' as int == s[0] as int - 'a' as int
    ensures forall i :: 1 <= i < |r| ==> !IsUpperLetter(r[i])
    ensures forall i :: 1 <= i < |s| && IsUpperLetter(s[i]) ==> r[i] as int - 'a' as int == s[i] as int - 'A' as int
    ensures forall i :: 1 <= i < |s| && !IsUpperLetter(s[i]) ==> r[i] == s[i]
  {
    if s == [] then [] else [UpperChar(s[0])] + Lower(s[1..])
  }

  /** Lower-casing is idempotent. */
  lemma LowerIdempotent(s: string)
    ensures Lower(Lower(s)) == Lower(s)
  {
  }

  /** Lower-casing before capitalizing makes no difference (`name.lower().capitalize()`). */
  lemma CapitalizeOfLower(s: string)
    ensures Capitalize(Lower(s)) == Capitalize(s)
  {
    if s != [] {
      assert Lower(s)[1..] == Lower(s[1..]);
      LowerIdempotent(s[1..]);
    }
  }

  /** Capitalizing is idempotent: a capitalized name is its own capitalized form. */
  lemma CapitalizeIdempotent(s: string)
    ensures Capitalize(Capitalize(s)) == Capitalize(s)
  {
    if s != [] {
      assert Capitalize(s)[1..] == Lower(s[1..]);
      LowerIdempotent(s[1..]);
    }
  }

  /** A word that continues in lower case capitalizes to the same word with its first letter upper-cased. */
  lemma CapitalizeWord(word: string, capitalized: string)
    requires |word| == |capitalized| > 0 && UpperChar(word[0]) == capitalized[0]
    requires forall i :: 1 <= i < |word| ==> 'a' <= word[i] <= 'z' && word[i] == capitalized[i]
    ensures Capitalize(word) == capitalized
  {
    assert Lower(word[1..]) == capitalized[1..];
  }

  predicate IsDigit(c: char) {
    '0' <= c <= '9'
  }

  predicate AllDigits(s: string) {
    forall i :: 0 <= i < |s| ==> IsDigit(s[i])
  }

  /** The value of a string of decimal digits, read most significant digit first. */
  function DigitsValue(s: string): nat
    requires AllDigits(s)
  {
    if s == [] then 0 else 10 * DigitsValue(s[..|s| - 1]) + (s[|s| - 1] as int - '0' as int)
  }

  /**
   * The ASCII information separators U+001C..U+001F: `str.isspace()` holds for them,
   * but `int()` does not skip them as whitespace.
   */
  predicate IsInfoSeparator(c: char) {
    '\U{1C}' <= c <= '\U{1F}'
  }

  /** The whitespace `int()` skips around a number: `str.isspace()` without the information separators. */
  predicate IsIntSpace(c: char) {
    IsSpace(c) && !IsInfoSeparator(c)
  }

  predicate NoInfoSeparator(s: string) {
    forall i :: 0 <= i < |s| ==> !IsInfoSeparator(s[i])
  }

  predicate AllIntSpace(s: string) {
    forall i :: 0 <= i < |s| ==> IsIntSpace(s[i])
  }

  /**
   * Python's `int(text)` restricted to ASCII decimal literals: surrounding whitespace,
   * then an optional `+` or `-`, then one or more digits. `None` stands for `ValueError`.
   * CPython turns non-ASCII whitespace into spaces and then skips only the ASCII spaces
   * `\t \n \v \f \r` and ' ', so an information separator anywhere in the text is left
   * inside the literal and refused; without one, `int()` skips exactly what `strip()` cuts.
   */
  function ParseInt(text: string): (r: Option<int>)
    ensures r.Some? ==> Strip(text) != [] && NoInfoSeparator(text)
  {
    if NoInfoSeparator(text) then ParseLiteral(Strip(text)) else None
  }

  /** The value of an optional sign followed by one or more digits. */
  function ParseLiteral(t: string): Option<int> {
    if t != [] && (t[0] == '+' || t[0] == '-') then
      if |t| > 1 && AllDigits(t[1..]) then
        Some(if t[0] == '-' then -(DigitsValue(t[1..]) as int) else DigitsValue(t[1..]))
      else None
    else if t != [] && AllDigits(t) then Some(DigitsValue(t))
    else None
  }

  /**
   * The points a new task gets from the points field, as `int(text or 0)` with
   * `ValueError` mapped to 0: the parsed integer when `int(text)` succeeds, 0 when it
   * raises. The empty-text shortcut falls in the second case.
   */
  function ParsePoints(text: string): (r: int)
    ensures ParseInt(text).Some? ==> r == ParseInt(text).value
    ensures ParseInt(text).None? ==> r == 0
  {
    if text == [] then
      assert AllSpace(text);
      0
    else match ParseInt(text)
      case Some(n) => n
      case None => 0
  }

  /** Python's `str(n)` for a natural number: its decimal digits without leading zeros. */
  function ShowNat(n: nat): (r: string)
    ensures r != [] && AllDigits(r)
  {
    var d := ['0' + (n % 10) as char];
    if n < 10 then d else ShowNat(n / 10) + d
  }

  /** Python's `str(n)` for an integer. */
  function ShowInt(n: int): string {
    if n < 0 then "-" + ShowNat(-n) else ShowNat(n)
  }

  lemma {:induction false} ShowNatValue(n: nat)
    ensures DigitsValue(ShowNat(n)) == n
  {
    var s := ShowNat(n);
    if n >= 10 {
      ShowNatValue(n / 10);
      assert s[..|s| - 1] == ShowNat(n / 10);
    }
  }

  /** Decimal text round-trips: `int(str(n)) == n`. */
  lemma ParseShowInt(n: int)
    ensures ParseInt(ShowInt(n)) == Some(n)
  {
    var s := ShowInt(n);
    var digits := ShowNat(if n < 0 then -n else n);
    assert !IsSpace(s[0]) && !IsSpace(s[|s| - 1]);
    assert NoInfoSeparator(s) by {
      if n < 0 {
        assert forall i :: 1 <= i < |s| ==> s[i] == digits[i - 1];
      }
    }
    StripNoOuterSpace(s);
    ShowNatValue(if n < 0 then -n else n);
    if n < 0 {
      assert s[1..] == digits;
    }
  }

  /** The points text of a number gives that number. */
  lemma ParsePointsOfShowInt(n: int)
    ensures ParsePoints(ShowInt(n)) == n
  {
    ParseShowInt(n);
  }

  /**
   * Whitespace that `int()` skips, on either side of a number's decimal text, leaves
   * that number: `int(" 5 ") == 5`.
   */
  lemma ParsePointsSpaced(w1: string, w2: string, n: int)
    requires AllIntSpace(w1) && AllIntSpace(w2)
    ensures ParsePoints(w1 + ShowInt(n) + w2) == n
  {
    var s := ShowInt(n);
    ParseShowInt(n);
    StripNoOuterSpace(s);
    StripPadded(w1, s, w2);
    NoInfoSeparatorConcat(w1, s);
    NoInfoSeparatorConcat(w1 + s, w2);
    assert ParseInt(w1 + s + w2) == ParseLiteral(s) == ParseInt(s);
  }

  lemma NoInfoSeparatorConcat(a: string, b: string)
    requires NoInfoSeparator(a) && NoInfoSeparator(b)
    ensures NoInfoSeparator(a + b)
  {
    assert forall i :: |a| <= i < |a + b| ==> (a + b)[i] == b[i - |a|];
  }

  /** Whitespace padded around text without outer whitespace is exactly what `strip()` cuts. */
  lemma StripPadded(w1: string, s: string, w2: string)
    requires AllSpace(w1) && AllSpace(w2)
    requires s != [] && !IsSpace(s[0]) && !IsSpace(s[|s| - 1])
    ensures Strip(w1 + s + w2) == s
  {
    var text := w1 + s + w2;
    assert text[|w1|] == s[0];
    assert text[|w1| + |s| - 1] == s[|s| - 1];
    var i := LeadingSpaces(text);
    var t := TrailingSpaces(text);
    assert forall m :: 0 <= m < |w1| ==> text[m] == w1[m];
    assert forall m :: 0 <= m < i ==> text[..i][m] == text[m];
    assert i == |w1|;
    assert forall m :: |text| - |w2| <= m < |text| ==> text[m] == w2[m - (|text| - |w2|)];
    assert forall m :: |text| - t <= m < |text| ==> text[|text| - t..][m - (|text| - t)] == text[m];
    assert t == |w2|;
    assert text[i..|text| - t] == s;
  }

  /**
   * An information separator anywhere in the points text gives 0 points, although
   * `strip()` would cut it: `int("\x1c5")` raises `ValueError`.
   */
  lemma ParsePointsSeparator(text: string, k: nat)
    requires k < |text| && IsInfoSeparator(text[k])
    ensures ParsePoints(text) == 0
  {
  }

  /** Empty or all-whitespace points text gives 0 points. */
  lemma ParsePointsBlank(text: string)
    requires AllSpace(text)
    ensures ParsePoints(text) == 0
  {
  }

  /** A literal holding a character that is neither a sign nor a digit is refused. */
  lemma {:induction false} ParseLiteralJunk(t: string, p: nat)
    requires p < |t| && !IsDigit(t[p]) && t[p] != '+' && t[p] != '-'
    ensures ParseLiteral(t) == None
  {
    assert !AllDigits(t);
    if p > 0 {
      assert !AllDigits(t[1..]) by { assert t[1..][p - 1] == t[p]; }
    }
  }

  /** Points text holding a character that is neither a sign, a digit nor whitespace gives 0 points. */
  lemma {:induction false} ParsePointsJunk(text: string, k: nat)
    requires k < |text| && !IsSpace(text[k]) && !IsDigit(text[k]) && text[k] != '+' && text[k] != '-'
    ensures ParsePoints(text) == 0
  {
    var i, j := StripBounds(text, k);
    var t := text[i..j];
    assert t[k - i] == text[k];
    ParseLiteralJunk(t, k - i);
  }

  /** A non-whitespace character at `k` survives stripping, at `k - i` of the infix `text[i..j]`. */
  lemma StripBounds(text: string, k: nat) returns (i: nat, j: nat)
    requires k < |text| && !IsSpace(text[k])
    ensures i <= k < j <= |text| && Strip(text) == text[i..j]
  {
    i := LeadingSpaces(text);
    j := |text| - TrailingSpaces(text);
    assert forall m :: 0 <= m < i ==> text[..i][m] == text[m];
    assert forall m :: j <= m < |text| ==> text[j..][m - j] == text[m];
  }
}
