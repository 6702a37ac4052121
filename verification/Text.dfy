/** The C string conventions every program of the repository relies on:
    NUL-terminated text, `strchr`, and the decimal conversions of `%d`, `%ld`,
    `atoi` and `sscanf`. */
module Text {

  datatype Option<+T> = None | Some(value: T)

  predicate NulFree(s: string) {
    '\0' !in s
  }

  lemma CStringOfFree(s: string)
    requires NulFree(s)
    ensures CString(s) == s
  {
    CStringOf(s, []);
    assert s + [] == s;
  }

  /** What a string function sees of a buffer: the text before the first NUL. */
  function CString(s: string): (r: string)
    ensures NulFree(r) && r <= s
    ensures |r| < |s| ==> s[|r|] == '\0'
  {
    if s == [] || s[0] == '\0' then [] else [s[0]] + CString(s[1..])
  }

  /** The conventions of CString leave no choice: a NUL-free text followed by
      nothing, or by a NUL, is what is read back. */
  lemma {:induction false} CStringOf(s: string, t: string)
    requires NulFree(s)
    requires t == [] || t[0] == '\0'
    ensures CString(s + t) == s
  {
    if s == [] {
      assert s + t == t;
    } else {
      CStringOf(s[1..], t);
      assert (s + t)[1..] == s[1..] + t;
    }
  }

  /** `strchr` as an index; the length of the text when the character is absent. */
  function IndexOf(s: string, c: char): (i: nat)
    ensures i <= |s| && c !in s[..i]
    ensures i < |s| ==> s[i] == c
  {
    if s == [] || s[0] == c then 0
    else
      var i := IndexOf(s[1..], c);
      assert s[..i + 1] == [s[0]] + s[1..][..i];
      i + 1
  }

  lemma {:induction false} IndexOfSplit(s: string, c: char, t: string)
    requires c !in s
    ensures IndexOf(s + [c] + t, c) == |s|
  {
    if s != [] {
      IndexOfSplit(s[1..], c, t);
      assert (s + [c] + t)[1..] == s[1..] + [c] + t;
    }
  }

  lemma {:induction false} IndexOfAbsent(s: string, c: char)
    requires c !in s
    ensures IndexOf(s, c) == |s|
  {
    if s != [] {
      IndexOfAbsent(s[1..], c);
    }
  }

  lemma {:induction false} IndexOfAtMost(s: string, c: char, k: nat)
    requires k < |s| && s[k] == c
    ensures IndexOf(s, c) <= k
  {
    if k > 0 {
      IndexOfAtMost(s[1..], c, k - 1);
    }
  }

  // ---------- decimal numbers ----------

  predicate IsDigit(c: char) {
    '0' <= c <= '9'
  }

  predicate IsSpace(c: char) {
    c == ' ' || '\t' <= c <= '\r'
  }

  function DigitChar(d: nat): (c: char)
    requires d < 10
    ensures IsDigit(c) && DigitValue(c) == d
  {
    '0' + d as char
  }

  function DigitValue(c: char): (d: nat)
    requires IsDigit(c)
    ensures d < 10
  {
    c as int - '0' as int
  }

  predicate AllDigits(s: string) {
    forall i :: 0 <= i < |s| ==> IsDigit(s[i])
  }

  function Digits(n: nat): (s: string)
    ensures |s| >= 1 && AllDigits(s)
  {
    if n < 10 then [DigitChar(n)] else Digits(n / 10) + [DigitChar(n % 10)]
  }

  /** `%d` and `%ld`. */
  function Decimal(n: int): (s: string)
    ensures |s| >= 1
    ensures forall c :: c in s ==> c == '-' || IsDigit(c)
  {
    if n < 0 then "-" + Digits(-n) else Digits(n)
  }

  /** The value accumulated over the leading digits of a text. */
  function ScanDigits(s: string, acc: nat): nat {
    if s == [] || !IsDigit(s[0]) then acc
    else ScanDigits(s[1..], 10 * acc + DigitValue(s[0]))
  }

  function DropDigits(s: string): string {
    if s == [] || !IsDigit(s[0]) then s else DropDigits(s[1..])
  }

  function SkipSpaces(s: string): string {
    if s == [] || !IsSpace(s[0]) then s else SkipSpaces(s[1..])
  }

  datatype Scan = NoNumber | Number(value: int, rest: string)

  function ScanUnsigned(s: string, negative: bool): Scan {
    if s == [] || !IsDigit(s[0]) then NoNumber
    else
      var magnitude: int := ScanDigits(s, 0);
      Number(if negative then -magnitude else magnitude, DropDigits(s))
  }

  /** `%d` of `sscanf`: spaces, an optional sign, digits. */
  function ScanInt(s: string): Scan {
    var t := SkipSpaces(s);
    if t != [] && t[0] == '-' then ScanUnsigned(t[1..], true)
    else if t != [] && t[0] == '+' then ScanUnsigned(t[1..], false)
    else ScanUnsigned(t, false)
  }

  /** `atoi`: zero where there is no number. */
  function Atoi(s: string): int {
    match ScanInt(s)
    case Number(v, _) => v
    case NoNumber => 0
  }

  predicate NoDigitFirst(s: string) {
    s == [] || !IsDigit(s[0])
  }

  lemma {:induction false} ScanDigitsSnoc(s: string, d: char, rest: string, acc: nat)
    requires AllDigits(s) && IsDigit(d) && NoDigitFirst(rest)
    ensures ScanDigits(s + [d] + rest, acc) == 10 * ScanDigits(s, acc) + DigitValue(d)
    ensures DropDigits(s + [d] + rest) == rest
  {
    var u := s + [d] + rest;
    if s == [] {
      assert u[0] == d && u[1..] == rest;
    } else {
      assert u[0] == s[0] && u[1..] == s[1..] + [d] + rest;
      ScanDigitsSnoc(s[1..], d, rest, 10 * acc + DigitValue(s[0]));
    }
  }

  lemma {:induction false} DigitsRoundTrip(n: nat, rest: string)
    requires NoDigitFirst(rest)
    ensures ScanDigits(Digits(n) + rest, 0) == n
    ensures DropDigits(Digits(n) + rest) == rest
  {
    if n < 10 {
      ScanDigitsSnoc([], DigitChar(n), rest, 0);
      assert [] + [DigitChar(n)] + rest == Digits(n) + rest;
    } else {
      DigitsRoundTrip(n / 10, []);
      assert Digits(n / 10) + [] == Digits(n / 10);
      ScanDigitsSnoc(Digits(n / 10), DigitChar(n % 10), rest, 0);
    }
  }

  lemma UnsignedRoundTrip(n: int, negative: bool, rest: string)
    requires n >= 0 && NoDigitFirst(rest)
    ensures ScanUnsigned(Digits(n) + rest, negative) == Number(if negative then -n else n, rest)
  {
    DigitsRoundTrip(n, rest);
    assert (Digits(n) + rest)[0] == Digits(n)[0];
  }

  lemma SkipNothing(s: string)
    requires s != [] && !IsSpace(s[0])
    ensures SkipSpaces(s) == s
  {
  }

  /** A number printed with `%d` is read back by `%d`, and reading stops right after it. */
  lemma DecimalRoundTrip(n: int, rest: string)
    requires NoDigitFirst(rest)
    ensures ScanInt(Decimal(n) + rest) == Number(n, rest)
  {
    var s := Decimal(n) + rest;
    if n < 0 {
      assert s == ['-'] + (Digits(-n) + rest);
      SkipNothing(s);
      assert s[1..] == Digits(-n) + rest;
      UnsignedRoundTrip(-n, true, rest);
    } else {
      assert s[0] == Digits(n)[0];
      SkipNothing(s);
      UnsignedRoundTrip(n, false, rest);
    }
  }

  lemma DecimalAlone(n: int)
    ensures ScanInt(Decimal(n)) == Number(n, []) && Atoi(Decimal(n)) == n
  {
    DecimalRoundTrip(n, []);
    assert Decimal(n) + [] == Decimal(n);
  }

  // ---------- which numerals and which numbers ----------

  const DIGITS := "0123456789"

  lemma DigitExactly(d: nat)
    requires d < 10
    ensures DigitChar(d) == DIGITS[d] && DigitValue(DIGITS[d]) == d
  {
  }

  /** Numerals are decimal: a last digit is appended to the numeral of the tens, a sign goes in front. */
  lemma DecimalExactly(n: int, d: nat)
    requires n >= 0 && d < 10
    ensures Decimal(d) == [DIGITS[d]]
    ensures n > 0 ==> Decimal(10 * n + d) == Decimal(n) + [DIGITS[d]]
    ensures n > 0 ==> Decimal(-n) == "-" + Decimal(n)
  {
    DigitExactly(d);
    if n > 0 {
      assert (10 * n + d) / 10 == n && (10 * n + d) % 10 == d;
    }
  }

  /** The number some digits stand for, read from the last one back. */
  function Value(digits: string): (v: int)
    requires AllDigits(digits)
    ensures v >= 0
  {
    if digits == [] then 0
    else 10 * Value(digits[..|digits| - 1]) + (digits[|digits| - 1] as int - '0' as int)
  }

  lemma {:induction false} ScanDigitsExactly(digits: string, rest: string)
    requires AllDigits(digits) && NoDigitFirst(rest)
    ensures ScanDigits(digits + rest, 0) == Value(digits) && DropDigits(digits + rest) == rest
  {
    if digits == [] {
      assert digits + rest == rest;
    } else {
      var n := |digits| - 1;
      ScanDigitsExactly(digits[..n], []);
      assert digits[..n] + [] == digits[..n];
      ScanDigitsSnoc(digits[..n], digits[n], rest, 0);
      assert digits[..n] + [digits[n]] + rest == digits + rest;
    }
  }

  predicate AllSpaces(s: string) {
    forall i :: 0 <= i < |s| ==> s[i] as int == 32 || 9 <= s[i] as int <= 13
  }

  lemma {:induction false} SkipExactly(spaces: string, rest: string)
    requires AllSpaces(spaces) && (rest == [] || !IsSpace(rest[0]))
    ensures SkipSpaces(spaces + rest) == rest
  {
    if spaces == [] {
      assert spaces + rest == rest;
    } else {
      assert (spaces + rest)[1..] == spaces[1..] + rest;
      SkipExactly(spaces[1..], rest);
    }
  }

  /** `%d` reads white space, an optional sign and all digits that follow. */
  lemma ScanExactly(spaces: string, sign: string, digits: string, rest: string)
    requires AllSpaces(spaces) && (sign == "" || sign == "+" || sign == "-")
    requires digits != [] && AllDigits(digits) && NoDigitFirst(rest)
    ensures ScanInt(spaces + (sign + (digits + rest))) ==
              Number(if sign == "-" then -Value(digits) else Value(digits), rest)
  {
    var number := sign + (digits + rest);
    assert number[0] == if sign == "" then digits[0] else sign[0];
    SkipExactly(spaces, number);
    assert (digits + rest)[0] == digits[0];
    ScanDigitsExactly(digits, rest);
    assert sign == "" ==> number == digits + rest;
    assert sign != "" ==> number[1..] == digits + rest;
  }

  /** It reads nothing where no digit follows the white space and the sign; `atoi` is then zero. */
  lemma NoNumberExactly(spaces: string, sign: string, rest: string)
    requires AllSpaces(spaces) && (sign == "" || sign == "+" || sign == "-") && NoDigitFirst(rest)
    requires sign == "" ==> rest == [] || (!IsSpace(rest[0]) && rest[0] != '+' && rest[0] != '-')
    ensures ScanInt(spaces + (sign + rest)) == NoNumber && Atoi(spaces + (sign + rest)) == 0
  {
    var number := sign + rest;
    assert sign != "" ==> number[0] == sign[0] && number[1..] == rest;
    assert sign == "" ==> number == rest;
    SkipExactly(spaces, number);
  }
}
