/**
 * The Python built-ins that the custom-data record relies on, on `str`
 * values: `int(x, 2)`, `str(n)` for an int, `hex(n)` and `str.zfill`.
 */
module PyBuiltins {
  import opened Wrappers
  import opened BinaryStrings

  // ---------------------------------------------------------------------------
  // Digit strings in base 2 to 16, lower-case letters as Python prints them

  /** The character of a digit below sixteen: '0' to '9', then 'a' to 'f'. */
  function DigitChar(d: nat): (c: char)
    requires d < 16
    ensures IsDigit(c, d + 1) && DigitValue(c) == d
  {
    if d < 10 then ('0' as int + d) as char else ('a' as int + d - 10) as char
  }

  /** The value of a digit character ('a' to 'f' count ten to fifteen); 0 for any other character. */
  function DigitValue(c: char): (d: nat)
    ensures d < 16
  {
    if '0' <= c <= '9' then (c as int) - ('0' as int)
    else if 'a' <= c <= 'f' then (c as int) - ('a' as int) + 10
    else 0
  }

  /** A digit of the base: '0' to '9', then 'a' to 'f', below the base. */
  predicate IsDigit(c: char, base: nat) {
    ('0' <= c <= '9' || 'a' <= c <= 'f') && DigitValue(c) < base
  }

  predicate IsDigits(s: string, base: nat) {
    forall i :: 0 <= i < |s| ==> IsDigit(s[i], base)
  }

  /** The value of a string of digits in the given base, most significant first. */
  function DigitsValue(s: string, base: nat): nat {
    if s == [] then 0 else base * DigitsValue(s[..|s| - 1], base) + DigitValue(s[|s| - 1])
  }

  lemma DivMod(n: nat, base: nat)
    requires 2 <= base <= n
    ensures n / base < n && n % base < base && base * (n / base) + n % base == n
  {
  }

  /**
   * The digits of n in the given base with no leading zero ("0" for zero):
   * the digit part of what Python prints for a non-negative int.
   */
  function DigitsOf(n: nat, base: nat): (r: string)
    requires 2 <= base <= 16
    ensures |r| > 0 && IsDigits(r, base) && DigitsValue(r, base) == n
    ensures r[0] != '0' || r == "0"
    decreases n
  {
    if n < base then
      var c := DigitChar(n);
      assert n == 0 ==> c == '0';
      [c]
    else
      DivMod(n, base);
      var p := DigitsOf(n / base, base);
      var c := DigitChar(n % base);
      var r := p + [c];
      assert r[..|r| - 1] == p && r[|r| - 1] == c && r[0] == p[0];
      assert DigitsValue(r, base) == base * DigitsValue(p, base) + DigitValue(c);
      r
  }

  /** A canonical Python integer literal in base 10: optional '-', digits, no leading zero, no "-0". */
  predicate IsCanonicalDecimal(s: string) {
    var digits := if |s| > 0 && s[0] == '-' then s[1..] else s;
    |digits| > 0 && IsDigits(digits, 10) && (digits[0] != '0' || s == "0")
  }

  /** The value of a canonical decimal literal, what Python's int(s) gives back. */
  function DecimalValue(s: string): int
    requires IsCanonicalDecimal(s)
  {
    if s[0] == '-' then -(DigitsValue(s[1..], 10) as int) else DigitsValue(s, 10)
  }

  /** Python's str(n) for an int: canonical, and int() reads it back as n. */
  function IntStr(n: int): (r: string)
    ensures IsCanonicalDecimal(r) && DecimalValue(r) == n
    ensures r[0] == '-' <==> n < 0
  {
    if n < 0 then "-" + DigitsOf(-n, 10) else DigitsOf(n, 10)
  }

  /** Python's hex(n): "0x" and the lower-case digits, "-0x" before them for a negative n. */
  function Hex(n: int): (r: string)
    ensures |r| >= 3
    ensures n >= 0 ==> r[..2] == "0x" && r[2..] == DigitsOf(n, 16)
    ensures n < 0 ==> r[..3] == "-0x" && r[3..] == DigitsOf(-n, 16)
  {
    if n < 0 then "-0x" + DigitsOf(-n, 16) else "0x" + DigitsOf(n, 16)
  }

  function Zeros(k: nat): (r: string)
    ensures |r| == k && forall i :: 0 <= i < k ==> r[i] == '0'
  {
    if k == 0 then "" else "0" + Zeros(k - 1)
  }

  /**
   * Python's s.zfill(width): left-pads s with '0' to the width, after a
   * leading sign if there is one; a string already that wide is unchanged.
   */
  function ZFill(s: string, width: int): (r: string)
    ensures |r| == if |s| >= width then |s| else width
    ensures |s| >= width ==> r == s
    ensures |s| < width && HasSign(s) ==>
      && r[0] == s[0] && r[width - |s| + 1..] == s[1..]
      && forall i :: 1 <= i <= width - |s| ==> r[i] == '0'
    ensures |s| < width && !HasSign(s) ==>
      && r[width - |s|..] == s
      && forall i :: 0 <= i < width - |s| ==> r[i] == '0'
  {
    if |s| >= width then s
    else if HasSign(s) then [s[0]] + Zeros(width - |s|) + s[1..]
    else Zeros(width - |s|) + s
  }

  /** A leading '+' or '-', which zfill keeps in front of the padding. */
  predicate HasSign(s: string) {
    |s| > 0 && (s[0] == '+' || s[0] == '-')
  }

  /** Leading zeros do not change the value of a digit string. */
  lemma {:induction false} LeadingZerosValue(k: nat, s: string, base: nat)
    ensures DigitsValue(Zeros(k) + s, base) == DigitsValue(s, base)
    decreases |s|
  {
    if s == [] {
      ZerosValue(k, base);
      assert Zeros(k) + s == Zeros(k);
    } else {
      var p := s[..|s| - 1];
      LeadingZerosValue(k, p, base);
      assert (Zeros(k) + s)[..|Zeros(k) + s| - 1] == Zeros(k) + p;
    }
  }

  lemma {:induction false} ZerosValue(k: nat, base: nat)
    ensures DigitsValue(Zeros(k), base) == 0
  {
    if k > 0 {
      ZerosValue(k - 1, base);
      assert Zeros(k) == Zeros(k - 1) + "0";
      assert Zeros(k)[..k - 1] == Zeros(k - 1);
    }
  }

  lemma ZerosPrefixDigits(k: nat, s: string, base: nat)
    requires 2 <= base && IsDigits(s, base)
    ensures IsDigits(Zeros(k) + s, base)
  {
  }

  /**
   * Zero-filling a digit string with no leading zero keeps its digits and
   * value and reaches the width; zeros appear in front only as padding.
   */
  lemma ZFillDigits(d: string, width: nat, base: nat)
    requires 2 <= base <= 16 && |d| > 0 && IsDigits(d, base) && (d[0] != '0' || d == "0")
    ensures var h := ZFill(d, width);
      && IsDigits(h, base) && DigitsValue(h, base) == DigitsValue(d, base)
      && |h| >= width
      && (|h| > width ==> h[0] != '0' || h == "0")
  {
    assert !HasSign(d) by {
      assert IsDigit(d[0], base);
    }
    if |d| < width {
      LeadingZerosValue(width - |d|, d, base);
      ZerosPrefixDigits(width - |d|, d, base);
    }
  }

  // ---------------------------------------------------------------------------
  // int(x, 2)

  /** The ASCII whitespace that int() skips before and after its argument. */
  predicate IsSpace(c: char) {
    c == ' ' || c == '\t' || c == '\n' || c == '\U{000B}' || c == '\U{000C}' || c == '\r'
  }

  function TrimStart(s: string): string {
    if |s| > 0 && IsSpace(s[0]) then TrimStart(s[1..]) else s
  }

  function TrimEnd(s: string): string {
    if |s| > 0 && IsSpace(s[|s| - 1]) then TrimEnd(s[..|s| - 1]) else s
  }

  /**
   * Binary digits with single underscores between them, as an integer
   * literal may be written: no leading, trailing or doubled underscore.
   */
  predicate IsUnderscoredBinary(w: string) {
    && |w| > 0
    && IsBit(w[0])
    && (|w| == 1 || if w[1] == '_' then IsUnderscoredBinary(w[2..]) else IsUnderscoredBinary(w[1..]))
  }

  /** The digits of an underscored binary literal, underscores dropped. */
  function RemoveUnderscores(w: string): (r: string)
    requires IsUnderscoredBinary(w)
    ensures |r| > 0 && IsBinary(r)
  {
    if |w| == 1 then w
    else if w[1] == '_' then [w[0]] + RemoveUnderscores(w[2..])
    else [w[0]] + RemoveUnderscores(w[1..])
  }

  /**
   * What int(s, 2) reads after the sign: an optional "0b"/"0B" prefix, which
   * one underscore may follow, then binary digits with single underscores
   * between them.
   */
  function UnsignedBase2(u: string): Option<nat> {
    var w :=
      if |u| >= 2 && u[0] == '0' && (u[1] == 'b' || u[1] == 'B') then
        (if |u| >= 3 && u[2] == '_' then u[3..] else u[2..])
      else u;
    if IsUnderscoredBinary(w) then Some(BitsValue(RemoveUnderscores(w))) else None
  }

  /**
   * Python's int(s, 2): surrounding whitespace is skipped, then an optional
   * sign and the unsigned part. None stands for the ValueError raised on
   * anything else, the empty string included.
   */
  function IntBase2(s: string): (r: Option<int>)
    ensures r.Some? ==> |TrimEnd(TrimStart(s))| > 0
    ensures r.Some? && r.value < 0 ==> TrimEnd(TrimStart(s))[0] == '-'
  {
    var t := TrimEnd(TrimStart(s));
    if |t| > 0 && t[0] == '-' then
      (match UnsignedBase2(t[1..]) case Some(m) => Some(-(m as int)) case None => None)
    else
      var u := if |t| > 0 && t[0] == '+' then t[1..] else t;
      (match UnsignedBase2(u) case Some(m) => Some(m as int) case None => None)
  }

  /** A plain binary string is an underscored literal with no underscore to drop. */
  lemma {:induction false} RemoveUnderscoresOfBinary(s: string)
    requires |s| > 0 && IsBinary(s)
    ensures IsUnderscoredBinary(s) && RemoveUnderscores(s) == s
  {
    if |s| > 1 {
      assert IsBinary(s[1..]);
      RemoveUnderscoresOfBinary(s[1..]);
      assert s == [s[0]] + s[1..];
    }
  }

  lemma UnsignedBase2OfBinary(u: string)
    requires |u| > 0 && IsBinary(u)
    ensures UnsignedBase2(u) == Some(BitsValue(u))
  {
    assert !(|u| >= 2 && (u[1] == 'b' || u[1] == 'B'));
    RemoveUnderscoresOfBinary(u);
  }

  /** On a non-empty string of '0' and '1', int(s, 2) is the unsigned value. */
  lemma IntBase2OfBinary(s: string)
    requires |s| > 0 && IsBinary(s)
    ensures IntBase2(s) == Some(BitsValue(s))
  {
    assert !IsSpace(s[0]) && !IsSpace(s[|s| - 1]);
    assert TrimStart(s) == s;
    assert TrimEnd(s) == s;
    assert !(s[0] == '+' || s[0] == '-');
    UnsignedBase2OfBinary(s);
  }

  /** int() also takes a minus sign: "-" followed by binary digits reads as a negative number. */
  lemma IntBase2OfNegated(s: string)
    requires |s| > 1 && s[0] == '-' && IsBinary(s[1..])
    ensures IntBase2(s) == Some(-(BitsValue(s[1..]) as int))
  {
    assert s[|s| - 1] == s[1..][|s| - 2];
    assert TrimStart(s) == s;
    assert TrimEnd(s) == s;
    UnsignedBase2OfBinary(s[1..]);
  }

  /** int("", 2) raises: an empty field never reads as a number. */
  lemma IntBase2OfEmpty()
    ensures IntBase2("") == None
  {
  }
}
