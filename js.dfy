/** The parts of JavaScript's string and number semantics that the authentication core relies on:
    the whitespace class of regular expressions and String.prototype.trim, ASCII case folding,
    parseInt, the decimal rendering of a number inside a template string, and Math.floor. */
module Js {

  datatype Option<T> = None | Some(value: T)

  /** ECMAScript WhiteSpace and LineTerminator: what the class \s matches and what trim() removes. */
  predicate IsWhitespace(c: char) {
    || c == '\t' || c == '\n' || c == '\U{B}' || c == '\U{C}' || c == '\r' || c == ' '
    || c == '\U{A0}' || c == '\U{1680}' || ('\U{2000}' <= c <= '\U{200A}')
    || c == '\U{2028}' || c == '\U{2029}' || c == '\U{202F}' || c == '\U{205F}'
    || c == '\U{3000}' || c == '\U{FEFF}'
  }

  /** The characters that the regular expression '.' does not match. */
  predicate IsLineTerminator(c: char) {
    c == '\n' || c == '\r' || c == '\U{2028}' || c == '\U{2029}'
  }

  predicate NoWhitespace(s: string) {
    forall i :: 0 <= i < |s| ==> !IsWhitespace(s[i])
  }

  // ---------------------------------------------------------------------------
  // String.prototype.trim

  /** Drops the leading whitespace. */
  function TrimStart(s: string): string {
    if |s| > 0 && IsWhitespace(s[0]) then TrimStart(s[1..]) else s
  }

  /** Drops the trailing whitespace. */
  function TrimEnd(s: string): string {
    if |s| > 0 && IsWhitespace(s[|s| - 1]) then TrimEnd(s[..|s| - 1]) else s
  }

  function Trim(s: string): string {
    TrimEnd(TrimStart(s))
  }

  /** TrimStart returns a suffix of s, every dropped character is whitespace, and the result does not
      start with whitespace. */
  lemma {:induction false} TrimStartSpec(s: string)
    ensures var r := TrimStart(s);
      && |r| <= |s| && r == s[|s| - |r|..]
      && (forall i :: 0 <= i < |s| - |r| ==> IsWhitespace(s[i]))
      && (|r| > 0 ==> !IsWhitespace(r[0]))
  {
    if |s| > 0 && IsWhitespace(s[0]) {
      TrimStartSpec(s[1..]);
    }
  }

  /** TrimEnd returns a prefix of s, every dropped character is whitespace, and the result does not
      end with whitespace. */
  lemma {:induction false} TrimEndSpec(s: string)
    ensures var r := TrimEnd(s);
      && |r| <= |s| && r == s[..|r|]
      && (forall i :: |r| <= i < |s| ==> IsWhitespace(s[i]))
      && (|r| > 0 ==> !IsWhitespace(r[|r| - 1]))
  {
    if |s| > 0 && IsWhitespace(s[|s| - 1]) {
      TrimEndSpec(s[..|s| - 1]);
    }
  }

  /** Neither end of s is whitespace. */
  predicate Trimmed(s: string) {
    |s| == 0 || (!IsWhitespace(s[0]) && !IsWhitespace(s[|s| - 1]))
  }

  /** trim() leaves exactly the strings with no whitespace at either end unchanged, and what it
      returns is such a string. */
  lemma TrimmedIff(s: string)
    ensures Trim(s) == s <==> Trimmed(s)
    ensures Trimmed(Trim(s))
  {
    var t := TrimStart(s);
    var r := Trim(s);
    TrimStartSpec(s);
    TrimEndSpec(t);
    if |r| > 0 {
      assert r == t[..|r|];
      assert r[0] == t[0];
    }
    if Trimmed(s) && |s| > 0 {
      assert t == s;
    }
  }

  /** A string without whitespace is its own trim. */
  lemma TrimNoWhitespace(s: string)
    requires NoWhitespace(s)
    ensures Trim(s) == s
  {
    assert TrimStart(s) == s by {
      if |s| > 0 { assert !IsWhitespace(s[0]); }
    }
    if |s| > 0 { assert !IsWhitespace(s[|s| - 1]); }
  }

  /** Trimming twice is trimming once. */
  lemma TrimIdempotent(s: string)
    ensures Trim(Trim(s)) == Trim(s)
  {
    TrimmedIff(s);
    TrimmedIff(Trim(s));
  }

  // ---------------------------------------------------------------------------
  // String.prototype.toLowerCase, on the ASCII letters

  function ToLowerChar(c: char): char {
    if 'A' <= c <= 'Z' then (c as int + 32) as char else c
  }

  function ToLower(s: string): string {
    seq(|s|, i requires 0 <= i < |s| => ToLowerChar(s[i]))
  }

  /** Lower-casing maps each character on its own. */
  lemma ToLowerSpec(s: string)
    ensures |ToLower(s)| == |s| && forall i :: 0 <= i < |s| ==> ToLower(s)[i] == ToLowerChar(s[i])
  {
  }

  predicate NoUpperAscii(s: string) {
    forall i :: 0 <= i < |s| ==> !('A' <= s[i] <= 'Z')
  }

  /** Lower-casing leaves no upper-case letter, keeps whitespace, '@' and '.' where they were,
      and turns no other character into one of them. */
  lemma ToLowerShape(s: string)
    ensures NoUpperAscii(ToLower(s))
    ensures forall i :: 0 <= i < |s| ==> (IsWhitespace(ToLower(s)[i]) <==> IsWhitespace(s[i]))
    ensures forall i :: 0 <= i < |s| ==> (ToLower(s)[i] == '@' <==> s[i] == '@')
    ensures forall i :: 0 <= i < |s| ==> (ToLower(s)[i] == '.' <==> s[i] == '.')
  {
    ToLowerSpec(s);
  }

  /** A string with no upper-case letter is its own lower-case form. */
  lemma ToLowerNoUpper(s: string)
    requires NoUpperAscii(s)
    ensures ToLower(s) == s
  {
    ToLowerSpec(s);
  }

  // ---------------------------------------------------------------------------
  // Digits, the decimal rendering of a number and parseInt

  predicate IsDecimalDigit(c: char) {
    '0' <= c <= '9'
  }

  /** A digit of the given radix (10, or 16 after a "0x" prefix). */
  predicate IsDigitIn(c: char, radix: nat) {
    if radix == 16 then IsDecimalDigit(c) || 'a' <= c <= 'f' || 'A' <= c <= 'F'
    else IsDecimalDigit(c)
  }

  function DigitValue(c: char): nat {
    if IsDecimalDigit(c) then c as int - '0' as int
    else if 'a' <= c <= 'f' then c as int - 'a' as int + 10
    else if 'A' <= c <= 'F' then c as int - 'A' as int + 10
    else 0
  }

  function DigitChar(d: nat): (c: char)
    requires d < 10
    ensures IsDecimalDigit(c) && DigitValue(c) == d
  {
    ('0' as int + d) as char
  }

  /** The longest prefix of s made of digits of the radix. */
  function DigitPrefix(s: string, radix: nat): (r: string)
    ensures |r| <= |s| && r == s[..|r|]
    ensures forall i :: 0 <= i < |r| ==> IsDigitIn(r[i], radix)
    ensures |r| < |s| ==> !IsDigitIn(s[|r|], radix)
  {
    if |s| > 0 && IsDigitIn(s[0], radix) then [s[0]] + DigitPrefix(s[1..], radix) else []
  }

  /** The value of a digit string in the radix, most significant digit first. */
  function DigitsValue(ds: string, radix: nat): nat {
    if ds == [] then 0 else DigitsValue(ds[..|ds| - 1], radix) * radix + DigitValue(ds[|ds| - 1])
  }

  /** `${n}` for a non-negative integer n: decimal digits, no leading zero. */
  function DecimalText(n: nat): (s: string)
    ensures |s| > 0 && forall i :: 0 <= i < |s| ==> IsDecimalDigit(s[i])
    ensures n > 0 ==> s[0] != '0'
  {
    if n < 10 then [DigitChar(n)] else DecimalText(n / 10) + [DigitChar(n % 10)]
  }

  /** parseInt(s) with no radix: skip leading whitespace, take one optional sign, take an optional
      "0x"/"0X" prefix (radix 16), then the longest run of digits; no digits is NaN (None). */
  function ParseInt(s: string): Option<int> {
    var t := TrimStart(s);
    var sign := if |t| > 0 && t[0] == '-' then -1 else 1;
    var u := if |t| > 0 && (t[0] == '-' || t[0] == '+') then t[1..] else t;
    var hex := |u| >= 2 && u[0] == '0' && (u[1] == 'x' || u[1] == 'X');
    var radix := if hex then 16 else 10;
    var ds := DigitPrefix(if hex then u[2..] else u, radix);
    if ds == [] then None else Some(sign * DigitsValue(ds, radix))
  }

  lemma {:induction false} DecimalTextValue(n: nat)
    ensures DigitsValue(DecimalText(n), 10) == n
  {
    var s := DecimalText(n);
    if n >= 10 {
      DecimalTextValue(n / 10);
      assert s[..|s| - 1] == DecimalText(n / 10);
    }
  }

  lemma {:induction false} DigitPrefixOfDigits(s: string, radix: nat)
    requires forall i :: 0 <= i < |s| ==> IsDigitIn(s[i], radix)
    ensures DigitPrefix(s, radix) == s
  {
    if |s| > 0 {
      DigitPrefixOfDigits(s[1..], radix);
    }
  }

  /** Round trip: the decimal text of a code, as mailed, parses back to the code. */
  lemma ParseIntDecimalText(n: nat)
    ensures ParseInt(DecimalText(n)) == Some(n)
  {
    var s := DecimalText(n);
    assert !IsWhitespace(s[0]);
    assert TrimStart(s) == s;
    assert s[0] != '-' && s[0] != '+';
    if |s| >= 2 {
      assert IsDecimalDigit(s[1]);
    }
    DigitPrefixOfDigits(s, 10);
    DecimalTextValue(n);
    assert DigitPrefix(s, 10) == s;
    assert ParseInt(s) == Some(1 * DigitsValue(s, 10));
  }

  /** A submission whose first non-blank character is not a sign or a digit is NaN. */
  lemma ParseIntNaN(s: string)
    requires var t := TrimStart(s); |t| == 0 || !(IsDecimalDigit(t[0]) || t[0] == '-' || t[0] == '+')
    ensures ParseInt(s) == None
  {
  }

  // ---------------------------------------------------------------------------
  // Math.floor(base + Math.random() * span)

  /** A random integer drawn as the source draws it: r is the value of Math.random(), in [0, 1).
      The result lies in [base, base + span - 1]. */
  function RandomInt(base: int, span: nat, r: real): (n: int)
    requires 0.0 <= r < 1.0 && span > 0
    ensures base <= n < base + span
  {
    (base as real + r * span as real).Floor
  }

  /** Every integer in [base, base + span - 1] is drawn by some value of Math.random(). */
  lemma RandomIntCovers(base: int, span: nat, n: int)
    requires span > 0 && base <= n < base + span
    ensures var r := (n - base) as real / span as real; 0.0 <= r < 1.0 && RandomInt(base, span, r) == n
  {
    var r := (n - base) as real / span as real;
    assert r * span as real == (n - base) as real;
    assert base as real + r * span as real == n as real;
  }
}
