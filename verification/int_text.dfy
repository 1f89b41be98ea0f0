/**
 * Python's `str.strip()`, `int(text)` and `str(n)` on integers, as the
 * preprocessing scripts use them. Whitespace is Python's own set; digits are
 * the ASCII ones, and `int` is taken to accept an optional sign followed by at
 * least one digit, surrounded by whitespace.
 */
module IntText {
  import opened Basics

  /**
   * The characters `str.strip()` and `int()` drop (Python's `str.isspace`):
   * tab to carriage return, the separators U+001C to U+001F, space, U+0085,
   * no-break space, and the Unicode space separators and line breaks.
   */
  predicate IsSpace(c: char) {
    var n := c as int;
    || 9 <= n <= 13 || 28 <= n <= 32 || n == 0x85 || n == 0xA0 || n == 0x1680
    || 0x2000 <= n <= 0x200A || n == 0x2028 || n == 0x2029 || n == 0x202F || n == 0x205F || n == 0x3000
  }

  /** `s.lstrip()`: `s` without its leading whitespace. */
  function TrimStart(s: string): (r: string)
    ensures |r| <= |s|
    ensures |r| == 0 || !IsSpace(r[0])
  {
    if |s| > 0 && IsSpace(s[0]) then TrimStart(s[1..]) else s
  }

  /** What `lstrip` removes is a prefix of whitespace; what it keeps is the rest. */
  lemma {:induction false} TrimStartIsSuffix(s: string)
    ensures TrimStart(s) == s[|s| - |TrimStart(s)|..]
    ensures forall i :: 0 <= i < |s| - |TrimStart(s)| ==> IsSpace(s[i])
  {
    if |s| > 0 && IsSpace(s[0]) {
      TrimStartIsSuffix(s[1..]);
      assert forall i :: 1 <= i < |s| ==> s[1..][i - 1] == s[i];
    }
  }

  /** `s.rstrip()`: `s` without its trailing whitespace. */
  function TrimEnd(s: string): (r: string)
    ensures |r| <= |s|
    ensures |r| == 0 || !IsSpace(r[|r| - 1])
  {
    if |s| > 0 && IsSpace(s[|s| - 1]) then TrimEnd(s[..|s| - 1]) else s
  }

  /** What `rstrip` removes is a suffix of whitespace; what it keeps is the rest. */
  lemma {:induction false} TrimEndIsPrefix(s: string)
    ensures TrimEnd(s) == s[..|TrimEnd(s)|]
    ensures forall i :: |TrimEnd(s)| <= i < |s| ==> IsSpace(s[i])
  {
    if |s| > 0 && IsSpace(s[|s| - 1]) {
      TrimEndIsPrefix(s[..|s| - 1]);
    }
  }

  /**
   * `s.strip()`: what is left of `s` after removing whitespace from both
   * ends; it neither starts nor ends with whitespace.
   */
  function Trim(s: string): (r: string)
    ensures |r| <= |s|
    ensures |r| == 0 || (!IsSpace(r[0]) && !IsSpace(r[|r| - 1]))
  {
    TrimEndIsPrefix(TrimStart(s));
    TrimEnd(TrimStart(s))
  }

  /** `s` is `t` with `a` whitespace characters before it and only whitespace after it. */
  ghost predicate SpaceAround(s: string, t: string, a: nat) {
    && a + |t| <= |s| && s[a..a + |t|] == t
    && (forall i :: 0 <= i < a ==> IsSpace(s[i]))
    && (forall i :: a + |t| <= i < |s| ==> IsSpace(s[i]))
  }

  /** `strip` removes whitespace only: `s` is the trimmed text surrounded by whitespace. */
  lemma TrimRemovesSpaceOnly(s: string)
    ensures exists a: nat :: SpaceAround(s, Trim(s), a)
  {
    var t := TrimStart(s);
    TrimStartIsSuffix(s);
    TrimEndIsPrefix(t);
    var a := |s| - |t|;
    assert s[a..a + |Trim(s)|] == t[..|Trim(s)|];
    assert SpaceAround(s, Trim(s), a);
  }

  /** A string that starts and ends with a non-space is its own `strip()`. */
  lemma TrimNoop(s: string)
    requires |s| > 0 && !IsSpace(s[0]) && !IsSpace(s[|s| - 1])
    ensures Trim(s) == s
  {
  }

  predicate IsDigit(c: char) {
    '0' <= c <= '9'
  }

  predicate AllDigits(s: string) {
    forall i :: 0 <= i < |s| ==> IsDigit(s[i])
  }

  function DigitChar(d: nat): (c: char)
    requires d < 10
    ensures IsDigit(c)
  {
    ('0' as int + d) as char
  }

  /** Value of a string of decimal digits, most significant first. */
  function DigitsValue(s: string): nat
    requires AllDigits(s)
  {
    if |s| == 0 then 0 else DigitsValue(s[..|s| - 1]) * 10 + (s[|s| - 1] as int - '0' as int)
  }

  /** Decimal digits of `n` without leading zeros (Python `str` on a non-negative int). */
  function NatToString(n: nat): (r: string)
    ensures |r| > 0 && AllDigits(r)
    ensures |r| > 1 ==> r[0] != '0'
  {
    if n < 10 then [DigitChar(n)] else NatToString(n / 10) + [DigitChar(n % 10)]
  }

  /** Python `str(n)` for an integer `n`. */
  function IntToString(n: int): string {
    if n < 0 then "-" + NatToString(-n) else NatToString(n)
  }

  /** The shape `int()` accepts once stripped: an optional sign and at least one digit. */
  predicate IsIntegerText(t: string) {
    if |t| > 0 && (t[0] == '-' || t[0] == '+') then |t| > 1 && AllDigits(t[1..])
    else |t| > 0 && AllDigits(t)
  }

  /** The digits of an integer text: the text without its sign. */
  function Unsigned(t: string): string {
    if |t| > 0 && (t[0] == '-' || t[0] == '+') then t[1..] else t
  }

  /**
   * Python `int(s)` on a string: `None` where Python raises `ValueError`.
   * Otherwise the magnitude is the value of the digits, and the value is
   * negative only when the text carries a minus sign.
   */
  function ParseInt(s: string): (r: Option<int>)
    ensures r.Some? <==> IsIntegerText(Trim(s))
    ensures r.Some? ==> (
      && AllDigits(Unsigned(Trim(s)))
      && (if Trim(s)[0] == '-' then -r.value else r.value) == DigitsValue(Unsigned(Trim(s))))
    ensures r.Some? && r.value < 0 ==> Trim(s)[0] == '-'
  {
    var t := Trim(s);
    if |t| > 0 && (t[0] == '-' || t[0] == '+') then
      var digits := t[1..];
      if |digits| > 0 && AllDigits(digits) then
        var v: int := DigitsValue(digits);
        Some(if t[0] == '-' then -v else v)
      else None
    else if |t| > 0 && AllDigits(t) then Some(DigitsValue(t))
    else None
  }

  lemma {:induction false} DigitsOfNat(n: nat)
    ensures DigitsValue(NatToString(n)) == n
  {
    if n >= 10 {
      DigitsOfNat(n / 10);
      var prefix := NatToString(n / 10);
      assert (prefix + [DigitChar(n % 10)])[..|prefix|] == prefix;
    }
  }

  /** `int(str(n)) == n`: printing an integer and parsing it back is the identity. */
  lemma {:induction false} ParsePrinted(n: int)
    ensures ParseInt(IntToString(n)) == Some(n)
  {
    var s := IntToString(n);
    if n < 0 {
      DigitsOfNat(-n);
      assert s[1..] == NatToString(-n);
    } else {
      DigitsOfNat(n);
    }
    TrimNoop(s);
  }

  /** Distinct integers print differently, so `str` keys never collide. */
  lemma PrintInjective(a: int, b: int)
    requires IntToString(a) == IntToString(b)
    ensures a == b
  {
    ParsePrinted(a);
    ParsePrinted(b);
  }

  /** Leading zeros removed, keeping at least one digit: "007" is "7", "000" is "0". */
  function DropZeros(d: string): string {
    if |d| > 1 && d[0] == '0' then DropZeros(d[1..]) else d
  }

  /**
   * The text `str(int(t))` prints for an integer text `t`: no '+', no leading
   * zeros, and no minus sign on zero.
   */
  function Canonical(t: string): string {
    var z := DropZeros(Unsigned(t));
    if |t| > 0 && t[0] == '-' && z != "0" then "-" + z else z
  }

  /** Digits are worth 0 exactly when every digit is '0'. */
  lemma {:induction false} DigitsZero(d: string)
    requires AllDigits(d)
    ensures DigitsValue(d) == 0 <==> forall i :: 0 <= i < |d| ==> d[i] == '0'
  {
    if |d| > 0 {
      var p := d[..|d| - 1];
      DigitsZero(p);
      assert forall i :: 0 <= i < |p| ==> p[i] == d[i];
    }
  }

  /** Zeros before a last digit all go. */
  lemma {:induction false} DropZerosOfZeros(p: string, c: char)
    requires forall i :: 0 <= i < |p| ==> p[i] == '0'
    ensures DropZeros(p + [c]) == [c]
  {
    if |p| > 0 {
      assert (p + [c])[1..] == p[1..] + [c];
      DropZerosOfZeros(p[1..], c);
    }
  }

  /** Once a non-zero digit comes first, appending a digit does not change what is dropped. */
  lemma {:induction false} DropZerosAppend(p: string, c: char, k: nat)
    requires k < |p| && p[k] != '0'
    ensures DropZeros(p + [c]) == DropZeros(p) + [c]
  {
    if |p| > 1 && p[0] == '0' {
      assert (p + [c])[1..] == p[1..] + [c];
      DropZerosAppend(p[1..], c, k - 1);
    }
  }

  /** `str(int(d))` of a digit string is the digits without their leading zeros. */
  lemma {:induction false} PrintDigits(d: string)
    requires |d| > 0 && AllDigits(d)
    ensures NatToString(DigitsValue(d)) == DropZeros(d)
  {
    var p, c := d[..|d| - 1], d[|d| - 1];
    assert d == p + [c];
    var e := c as int - '0' as int;
    assert DigitChar(e) == c;
    if |p| > 0 {
      var v := DigitsValue(p);
      DigitsZero(p);
      if v == 0 {
        DropZerosOfZeros(p, c);
      } else {
        PrintDigits(p);
        var k :| 0 <= k < |p| && p[k] != '0';
        DropZerosAppend(p, c, k);
        var n := v * 10 + e;
        assert n / 10 == v && n % 10 == e;
      }
    }
  }

  /**
   * `str(int(s))` is the canonical form of the stripped text: the round trip
   * back from `int`, partner of `ParsePrinted`.
   */
  lemma ParseIntCanonical(s: string)
    ensures ParseInt(s).Some? ==> IntToString(ParseInt(s).value) == Canonical(Trim(s))
  {
    if ParseInt(s).Some? {
      var t := Trim(s);
      var u := Unsigned(t);
      var v := DigitsValue(u);
      PrintDigits(u);
      DigitsOfNat(0);
      if v != 0 {
        DigitsOfNat(v);
        assert DropZeros(u) != "0";
      }
    }
  }

  /** `strip` drops a no-break space, U+0085 and the separator U+001C. */
  lemma StripExamples()
    ensures Trim("Norte\U{A0}") == "Norte"
    ensures Trim("\U{85}x x\U{1C}") == "x x"
  {
    assert TrimStart("Norte\U{A0}") == "Norte\U{A0}";
    assert TrimEnd("Norte\U{A0}") == TrimEnd("Norte");
    assert TrimStart("\U{85}x x\U{1C}") == "x x\U{1C}";
    assert TrimEnd("x x\U{1C}") == TrimEnd("x x");
  }

  /** `int(" 12 ")` is 12: the surrounding spaces are stripped first. */
  lemma ParseSpacedExample()
    ensures ParseInt(" 12 ") == Some(12)
  {
    assert Trim(" 12 ") == "12" by {
      assert TrimStart(" 12 ") == "12 ";
      assert TrimEnd("12 ") == "12";
    }
    assert DigitsValue("12") == 12 by {
      assert "12"[..1] == "1";
    }
  }

  /** `int("+7")` is 7 and `int("-0")` is 0. */
  lemma ParseSignExample()
    ensures ParseInt("+7") == Some(7)
    ensures ParseInt("-0") == Some(0)
  {
    TrimNoop("+7");
    TrimNoop("-0");
    assert Unsigned("+7") == "7";
    assert Unsigned("-0") == "0";
  }

  /** `int("007")` is 7: leading zeros are read, and dropped again by `str`. */
  lemma ParseZerosExample()
    ensures ParseInt("007") == Some(7)
    ensures Canonical("007") == "7"
  {
    TrimNoop("007");
    assert DigitsValue("007") == 7 by {
      assert "007"[..2] == "00" && "00"[..1] == "0";
    }
  }

  /** A space inside the digits makes `int` raise. */
  lemma ParseInnerSpaceExample()
    ensures ParseInt("1 2") == None
  {
    TrimNoop("1 2");
    assert !IsDigit("1 2"[1]);
  }
}
