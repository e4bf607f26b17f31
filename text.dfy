/** The standard-library string behaviour the core relies on: decimal
    digits and `String(n)` for unsigned integers, trimming of whitespace
    and newlines, and lower-casing. Characters are restricted to ASCII
    where the Swift library would consult Unicode tables. */
module Text {

  // ---------------------------------------------------------------- digits

  predicate IsDigit(c: char) {
    '0' <= c <= '9'
  }

  predicate AllDigits(s: string) {
    forall i | 0 <= i < |s| :: IsDigit(s[i])
  }

  function DigitValue(c: char): (d: nat)
    requires IsDigit(c)
    ensures d <= 9
  {
    c as int - '0' as int
  }

  function DigitChar(d: nat): (c: char)
    requires d <= 9
    ensures IsDigit(c) && DigitValue(c) == d
  {
    (d + '0' as int) as char
  }

  /** The base-10 value of a digit string, most significant digit first;
      leading zeros are allowed and the empty string denotes 0. */
  function ValueOf(s: string): nat
    requires AllDigits(s)
  {
    if s == [] then 0 else 10 * ValueOf(s[..|s| - 1]) + DigitValue(s[|s| - 1])
  }

  /** `String(n)` for an unsigned integer: the shortest decimal numeral. */
  function NatToString(n: nat): (s: string)
    ensures s != [] && AllDigits(s) && ValueOf(s) == n
    ensures s[0] == '0' ==> s == "0"
  {
    if n < 10 then [DigitChar(n)]
    else
      var prefix := NatToString(n / 10);
      var s := prefix + [DigitChar(n % 10)];
      assert s[..|s| - 1] == prefix;
      s
  }

  /** A canonical numeral (no leading zero) has a positive value unless it is "0". */
  lemma {:induction false} CanonicalValuePositive(s: string)
    requires s != [] && AllDigits(s) && s[0] != '0'
    ensures ValueOf(s) > 0
  {
    if |s| > 1 {
      var prefix := s[..|s| - 1];
      assert prefix[0] == s[0];
      CanonicalValuePositive(prefix);
    }
  }

  /** `String(n)` and the digit-string value are inverse on canonical numerals. */
  lemma {:induction false} CanonicalNumeralRoundTrip(s: string)
    requires s != [] && AllDigits(s) && (s[0] == '0' ==> s == "0")
    ensures NatToString(ValueOf(s)) == s
  {
    if |s| > 1 {
      var prefix := s[..|s| - 1];
      assert prefix[0] == s[0];
      CanonicalValuePositive(prefix);
      CanonicalNumeralRoundTrip(prefix);
      var n := ValueOf(s);
      assert n / 10 == ValueOf(prefix) && n % 10 == DigitValue(s[|s| - 1]);
      assert s == prefix + [s[|s| - 1]];
    }
  }

  /** Distinct numbers print differently. */
  lemma NatToStringInjective(a: nat, b: nat)
    requires NatToString(a) == NatToString(b)
    ensures a == b
  {
  }

  /** A leading zero does not change the value of a digit string. */
  lemma {:induction false} LeadingZeroIgnored(s: string)
    requires AllDigits(s)
    ensures AllDigits("0" + s) && ValueOf("0" + s) == ValueOf(s)
  {
    if s != [] {
      var prefix := s[..|s| - 1];
      assert ("0" + s)[..|s|] == "0" + prefix;
      LeadingZeroIgnored(prefix);
    }
  }

  // ------------------------------------------------------------ whitespace

  /** The ASCII members of `CharacterSet.whitespacesAndNewlines` */
  predicate IsWhitespace(c: char) {
    c == ' ' || c == '\t' || c == '\n' || c == '\r' || c == '\U{000B}' || c == '\U{000C}'
  }

  predicate AllWhitespace(s: string) {
    forall i | 0 <= i < |s| :: IsWhitespace(s[i])
  }

  /** `s` without its leading whitespace */
  function TrimStart(s: string): string {
    if s != [] && IsWhitespace(s[0]) then TrimStart(s[1..]) else s
  }

  /** `s` without its trailing whitespace */
  function TrimEnd(s: string): string {
    if s != [] && IsWhitespace(s[|s| - 1]) then TrimEnd(s[..|s| - 1]) else s
  }

  /** `trimmingCharacters(in: .whitespacesAndNewlines)` */
  function Trim(s: string): string {
    TrimEnd(TrimStart(s))
  }

  /** `TrimStart` drops the whitespace before the first other character:
      it keeps the suffix from index `n` on, everything before `n` is
      whitespace, and the character at `n` is not. */
  lemma {:induction false} TrimStartDropsPrefix(s: string)
    ensures |TrimStart(s)| <= |s|
    ensures var n := |s| - |TrimStart(s)|;
      && TrimStart(s) == s[n..]
      && (forall k | 0 <= k < n :: IsWhitespace(s[k]))
      && (n < |s| ==> !IsWhitespace(s[n]))
  {
    if s != [] && IsWhitespace(s[0]) {
      var tail := s[1..];
      TrimStartDropsPrefix(tail);
      var m := |tail| - |TrimStart(tail)|;
      assert tail[m..] == s[m + 1..];
      assert forall k | 1 <= k < m + 1 :: s[k] == tail[k - 1];
    }
  }

  /** `TrimEnd` drops the whitespace after the last other character: it
      keeps the prefix up to `n`, everything from `n` on is whitespace, and
      the character before `n` is not. */
  lemma {:induction false} TrimEndDropsSuffix(s: string)
    ensures |TrimEnd(s)| <= |s|
    ensures var n := |TrimEnd(s)|;
      && TrimEnd(s) == s[..n]
      && (forall k | n <= k < |s| :: IsWhitespace(s[k]))
      && (0 < n ==> !IsWhitespace(s[n - 1]))
  {
    if s != [] && IsWhitespace(s[|s| - 1]) {
      var prefix := s[..|s| - 1];
      TrimEndDropsSuffix(prefix);
      var m := |TrimEnd(prefix)|;
      assert prefix[..m] == s[..m];
      assert forall k | m <= k < |s| - 1 :: s[k] == prefix[k];
    }
  }

  /** `Trim` removes whitespace only: it keeps the slice `s[i..j]`, and what
      it drops before and after that slice is all whitespace. */
  lemma TrimRemovesOnlyWhitespace(s: string)
    ensures exists i, j :: 0 <= i <= j <= |s| && Trim(s) == s[i..j]
                           && AllWhitespace(s[..i]) && AllWhitespace(s[j..])
  {
    TrimStartDropsPrefix(s);
    var i := |s| - |TrimStart(s)|;
    var rest := TrimStart(s);
    TrimEndDropsSuffix(rest);
    var k := |TrimEnd(rest)|;
    assert rest[..k] == s[i..i + k];
    assert s[i + k..] == rest[k..];
  }

  /** The trimmed text neither starts nor ends with whitespace, and is empty
      exactly when the text is all whitespace. */
  lemma TrimEnds(s: string)
    ensures Trim(s) != [] ==> !IsWhitespace(Trim(s)[0]) && !IsWhitespace(Trim(s)[|Trim(s)| - 1])
    ensures Trim(s) == [] <==> AllWhitespace(s)
  {
    TrimStartDropsPrefix(s);
    var rest := TrimStart(s);
    TrimEndDropsSuffix(rest);
    if Trim(s) != [] {
      assert Trim(s)[0] == rest[0];
    }
  }

  /** Text without whitespace at its ends is left as it is by `Trim`. */
  lemma TrimKeepsTrimmed(s: string)
    requires s != [] ==> !IsWhitespace(s[0]) && !IsWhitespace(s[|s| - 1])
    ensures Trim(s) == s
  {
  }

  // ------------------------------------------------------------ lower case

  function LowerChar(c: char): char {
    if 'A' <= c <= 'Z' then (c as int - 'A' as int + 'a' as int) as char else c
  }

  predicate IsLowercase(s: string) {
    forall i | 0 <= i < |s| :: LowerChar(s[i]) == s[i]
  }

  /** `lowercased()`, on ASCII letters */
  function Lowercased(s: string): (r: string)
    ensures |r| == |s| && IsLowercase(r)
    ensures forall i | 0 <= i < |s| :: r[i] == LowerChar(s[i])
  {
    seq(|s|, i requires 0 <= i < |s| => LowerChar(s[i]))
  }

  /** Case-insensitive equality, letter by letter */
  predicate EqualsIgnoringCase(a: string, b: string) {
    |a| == |b| && forall i | 0 <= i < |a| :: LowerChar(a[i]) == LowerChar(b[i])
  }
}
