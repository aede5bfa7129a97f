/** ECMAScript `parseInt(string)` with the radix argument absent, as section 19.2.5
    of ECMA-262 ("parseInt (string, radix)") defines it: strip leading white space,
    take an optional sign, take an optional `0x`/`0X` prefix (which switches to
    radix 16), then read the longest run of digits of the radix; no digits gives
    NaN. Digit runs are read exactly (the standard allows rounding beyond twenty
    significant digits; this model does not round). */
module JsParseInt {
  import opened JsValues

  /** StrWhiteSpaceChar: WhiteSpace (TAB, VT, FF, ZWNBSP and every code point of
      the Unicode category Zs) or LineTerminator (LF, CR, LS, PS). */
  predicate IsStrWhiteSpace(c: char) {
    // TAB, LF, VT, FF and CR are the contiguous code points 9 to 13.
    if c <= ' ' then c == ' ' || '\t' <= c <= '\r'
    else ('\U{00A0}' <= c &&
          (c == '\U{00A0}' || c == '\U{1680}' || '\U{2000}' <= c <= '\U{200A}'
           || c == '\U{2028}' || c == '\U{2029}' || c == '\U{202F}' || c == '\U{205F}'
           || c == '\U{3000}' || c == '\U{FEFF}'))
  }

  predicate AllWhiteSpace(w: string) {
    forall i :: 0 <= i < |w| ==> IsStrWhiteSpace(w[i])
  }

  /** TrimString(s, start): the suffix of `s` after its leading white space. */
  function TrimStart(s: string): (r: string)
    ensures |r| <= |s| && r == s[|s| - |r|..]
    ensures forall i :: 0 <= i < |s| - |r| ==> IsStrWhiteSpace(s[i])
    ensures r == [] || !IsStrWhiteSpace(r[0])
  {
    if s != [] && IsStrWhiteSpace(s[0]) then TrimStart(s[1..]) else s
  }

  /** The value of `c` as a digit of radix up to 36 (`0`-`9`, then `a`-`z` or
      `A`-`Z` for 10 to 35); 36 for a character that is a digit in no radix. */
  function DigitValue(c: char): (v: nat)
    ensures v <= 36
    ensures v < 10 <==> '0' <= c <= '9'
  {
    if '0' <= c <= '9' then (c as int - '0' as int)
    else if 'a' <= c <= 'z' then (c as int - 'a' as int) + 10
    else if 'A' <= c <= 'Z' then (c as int - 'A' as int) + 10
    else 36
  }

  predicate IsRadixDigit(c: char, radix: nat) {
    DigitValue(c) < radix
  }

  /** The length of the longest prefix of `s` made of radix-`radix` digits: the
      index `end` of the first non-digit (or the length when there is none). */
  function DigitRunLength(s: string, radix: nat): (n: nat)
    ensures n <= |s|
    ensures forall i :: 0 <= i < n ==> IsRadixDigit(s[i], radix)
    ensures n == |s| || !IsRadixDigit(s[n], radix)
  {
    if s != [] && IsRadixDigit(s[0], radix) then 1 + DigitRunLength(s[1..], radix) else 0
  }

  /** The mathematical value of the digit string `z` read in radix `radix`. */
  function DigitsValue(z: string, radix: nat): nat
  {
    if z == [] then 0 else DigitsValue(z[..|z| - 1], radix) * radix + DigitValue(z[|z| - 1])
  }

  /** After the sign has been removed: does `s` start with the `0x` or `0X` prefix? */
  predicate HasHexPrefix(s: string) {
    |s| >= 2 && s[0] == '0' && (s[1] == 'x' || s[1] == 'X')
  }

  /** What steps 2 to 10 of the algorithm leave: the sign, the radix and the
      remaining text in which the digit run is sought. */
  datatype Scanned = Scanned(sign: int, radix: nat, digits: string)

  function Scan(input: string): (sc: Scanned)
    ensures sc.sign == 1 || sc.sign == -1
    ensures sc.radix == 10 || sc.radix == 16
    ensures |sc.digits| <= |input|
    ensures var t := TrimStart(input);
            var u := if t != [] && (t[0] == '+' || t[0] == '-') then t[1..] else t;
            (sc.sign == -1 <==> t != [] && t[0] == '-')
            && (sc.radix == 16 <==> HasHexPrefix(u))
            && sc.digits == (if HasHexPrefix(u) then u[2..] else u)
  {
    ScanTrimmed(TrimStart(input))
  }

  /** Steps 3 to 10, on text whose leading white space is already gone: the
      sign is -1 exactly after a leading `-`, a leading `+` or `-` is dropped,
      and the radix is 16 exactly when what remains starts with `0x` or `0X`,
      which is then dropped too. */
  function ScanTrimmed(s: string): (sc: Scanned)
    ensures sc.sign == 1 || sc.sign == -1
    ensures sc.radix == 10 || sc.radix == 16
    ensures |sc.digits| <= |s|
    ensures var u := if s != [] && (s[0] == '+' || s[0] == '-') then s[1..] else s;
            (sc.sign == -1 <==> s != [] && s[0] == '-')
            && (sc.radix == 16 <==> HasHexPrefix(u))
            && sc.digits == (if HasHexPrefix(u) then u[2..] else u)
  {
    var sign := if s != [] && s[0] == '-' then -1 else 1;
    var unsigned := if s != [] && (s[0] == '+' || s[0] == '-') then s[1..] else s;
    ScanRadix(sign, unsigned)
  }

  /** Step 10: an optional `0x` or `0X` prefix selects radix 16. */
  function ScanRadix(sign: int, unsigned: string): Scanned
  {
    if HasHexPrefix(unsigned) then Scanned(sign, 16, unsigned[2..])
    else Scanned(sign, 10, unsigned)
  }

  /** `parseInt(input)` with no radix argument. */
  function ParseInt(input: string): Num
  {
    ParseScanned(Scan(input))
  }

  /** Steps 11 to 16: the digit run, NaN when it is empty, and the signed value. */
  function ParseScanned(sc: Scanned): Num
  {
    var end := DigitRunLength(sc.digits, sc.radix);
    var magnitude: int := DigitsValue(sc.digits[..end], sc.radix);
    if end == 0 then NaN
    else if sc.sign == -1 then Int(-magnitude) else Int(magnitude)
  }

  // ---------------------------------------------------------------------------
  // A reference printer: the decimal text of an integer, as Number::toString
  // writes an integer below 10^21.

  function DigitChar(d: nat): (c: char)
    requires d < 10
    ensures '0' <= c <= '9' && DigitValue(c) == d
  {
    ('0' as int + d) as char
  }

  function DecimalDigits(n: nat): (s: string)
    ensures |s| >= 1
    ensures forall i :: 0 <= i < |s| ==> '0' <= s[i] <= '9'
    ensures s[0] == '0' ==> n == 0
  {
    if n < 10 then [DigitChar(n)] else DecimalDigits(n / 10) + [DigitChar(n % 10)]
  }

  function DecimalString(n: int): string
  {
    if n < 0 then "-" + DecimalDigits(-n) else DecimalDigits(n)
  }

  // ---------------------------------------------------------------------------
  // Properties.

  lemma {:induction false} DecimalDigitsValue(n: nat)
    ensures DigitsValue(DecimalDigits(n), 10) == n
  {
    if n >= 10 {
      var s := DecimalDigits(n);
      assert s[..|s| - 1] == DecimalDigits(n / 10);
      DecimalDigitsValue(n / 10);
    }
  }

  /** A run of digits followed by a non-digit (or by nothing) is read up to the
      non-digit and no further. */
  lemma {:induction false} DigitRunStopsAtNonDigit(p: string, rest: string, radix: nat)
    requires forall i :: 0 <= i < |p| ==> IsRadixDigit(p[i], radix)
    requires rest == [] || !IsRadixDigit(rest[0], radix)
    ensures DigitRunLength(p + rest, radix) == |p|
  {
    if p != [] {
      assert (p + rest)[1..] == p[1..] + rest;
      DigitRunStopsAtNonDigit(p[1..], rest, radix);
    }
  }

  /** Leading white space never changes the trimmed text. */
  lemma {:induction false} TrimStartSkipsWhiteSpace(w: string, s: string)
    requires AllWhiteSpace(w)
    requires s == [] || !IsStrWhiteSpace(s[0])
    ensures TrimStart(w + s) == s
  {
    if w != [] {
      assert (w + s)[1..] == w[1..] + s;
      TrimStartSkipsWhiteSpace(w[1..], s);
    }
  }

  /** Leading white space never changes the trimmed text, whatever follows it. */
  lemma {:induction false} TrimStartAfterWhiteSpace(w: string, s: string)
    requires AllWhiteSpace(w)
    ensures TrimStart(w + s) == TrimStart(s)
  {
    if w != [] {
      assert (w + s)[0] == w[0];
      assert (w + s)[1..] == w[1..] + s;
      TrimStartAfterWhiteSpace(w[1..], s);
    } else {
      assert w + s == s;
    }
  }

  /** Leading white space never changes what `parseInt` returns. */
  lemma ParseIntIgnoresLeadingWhiteSpace(w: string, s: string)
    requires AllWhiteSpace(w)
    ensures ParseInt(w + s) == ParseInt(s)
  {
    TrimStartAfterWhiteSpace(w, s);
    var t := TrimStart(s);
    assert TrimStart(w + s) == t;
    assert Scan(w + s) == ScanTrimmed(t);
    assert Scan(s) == ScanTrimmed(t);
  }

  /** Steps 2 to 10 on printed decimal text: the sign is the integer's, the radix
      is 10 and the digit run is sought in the printed digits followed by `rest`. */
  lemma ScanDecimalString(w: string, n: int, rest: string)
    requires AllWhiteSpace(w)
    requires rest == [] || (n != 0 || (rest[0] != 'x' && rest[0] != 'X'))
    ensures Scan(w + DecimalString(n) + rest)
         == Scanned(if n < 0 then -1 else 1, 10, DecimalDigits(if n < 0 then -n else n) + rest)
  {
    var m := if n < 0 then -n else n;
    var digits := DecimalDigits(m);
    var unsigned := digits + rest;
    var text := DecimalString(n) + rest;
    assert w + DecimalString(n) + rest == w + text;
    assert !HasHexPrefix(unsigned);
    if n < 0 {
      assert text == ['-'] + unsigned;
      assert text[1..] == unsigned;
      assert ScanTrimmed(text) == ScanRadix(-1, unsigned);
    } else {
      assert text == unsigned;
      assert ScanTrimmed(text) == ScanRadix(1, unsigned);
    }
    assert text[0] == '-' || '0' <= text[0] <= '9';
    TrimStartSkipsWhiteSpace(w, text);
  }

  /** Round trip with the reference printer: the decimal text of any integer,
      after any leading white space and before any text that cannot continue the
      number, parses back to that integer. The one text that could continue it
      besides a digit is an `x` or `X` right after a lone `0`, which would make
      a hexadecimal prefix. */
  lemma ParseIntDecimalString(w: string, n: int, rest: string)
    requires AllWhiteSpace(w)
    requires rest == [] || (!IsRadixDigit(rest[0], 10) && (n != 0 || (rest[0] != 'x' && rest[0] != 'X')))
    ensures ParseInt(w + DecimalString(n) + rest) == Int(n)
  {
    ScanDecimalString(w, n, rest);
    ParseScannedDecimal(n, rest);
  }

  /** Steps 11 to 16 on the printed digits of n followed by `rest`. */
  lemma ParseScannedDecimal(n: int, rest: string)
    requires rest == [] || !IsRadixDigit(rest[0], 10)
    ensures ParseScanned(Scanned(if n < 0 then -1 else 1, 10, DecimalDigits(if n < 0 then -n else n) + rest))
         == Int(n)
  {
    var m := if n < 0 then -n else n;
    var digits := DecimalDigits(m);
    DigitRunStopsAtNonDigit(digits, rest, 10);
    assert (digits + rest)[..|digits|] == digits;
    DecimalDigitsValue(m);
  }

  /** `parseInt` is NaN exactly when, after white space, sign and any hexadecimal
      prefix, the text does not start with a digit of the radix. */
  lemma ParseIntNaNIff(input: string)
    ensures ParseInt(input) == NaN <==>
      var sc := Scan(input);
      sc.digits == [] || !IsRadixDigit(sc.digits[0], sc.radix)
  {
  }

  /** A negative result comes only from text whose first character after the
      white space is a minus sign. */
  lemma ParseIntSign(input: string)
    requires ParseInt(input).Int? && ParseInt(input).value < 0
    ensures TrimStart(input) != [] && TrimStart(input)[0] == '-'
  {
    assert Scan(input).sign == -1;
  }

  /** A digit string whose first digit is not zero has a positive value. */
  lemma {:induction false} DigitsValuePositive(z: string, radix: nat)
    requires radix >= 1 && z != [] && DigitValue(z[0]) >= 1
    ensures DigitsValue(z, radix) >= 1
    decreases |z|
  {
    if |z| > 1 {
      var p := z[..|z| - 1];
      assert p[0] == z[0];
      DigitsValuePositive(p, radix);
      AtLeastOneProduct(DigitsValue(p, radix), radix);
    }
  }

  /** Steps 2 to 10 on a minus sign and a non-zero decimal digit after white
      space: the sign is -1 and the radix 10. */
  lemma ScanAfterMinus(w: string, d: char, rest: string)
    requires AllWhiteSpace(w) && '1' <= d <= '9'
    ensures Scan(w + ['-', d] + rest) == Scanned(-1, 10, [d] + rest)
  {
    var text := ['-', d] + rest;
    assert w + ['-', d] + rest == w + text;
    TrimStartSkipsWhiteSpace(w, text);
    ScanTrimmedMinus(d, rest);
  }

  lemma ScanTrimmedMinus(d: char, rest: string)
    requires '1' <= d <= '9'
    ensures ScanTrimmed(['-', d] + rest) == Scanned(-1, 10, [d] + rest)
  {
    var text := ['-', d] + rest;
    assert text[0] == '-';
    assert text[1..] == [d] + rest;
    assert !HasHexPrefix([d] + rest);
  }

  lemma AtLeastOneProduct(x: int, y: int)
    requires x >= 1 && y >= 1
    ensures x * y >= 1
  {
  }

  /** Conversely, a minus sign after white space, followed by a non-zero
      decimal digit, gives a negative result whatever follows. */
  lemma ParseIntNegative(w: string, d: char, rest: string)
    requires AllWhiteSpace(w) && '1' <= d <= '9'
    ensures ParseInt(w + ['-', d] + rest).Int? && ParseInt(w + ['-', d] + rest).value < 0
  {
    ScanAfterMinus(w, d, rest);
    var u := [d] + rest;
    var end := DigitRunLength(u, 10);
    assert end >= 1;
    assert u[..end][0] == d;
    DigitsValuePositive(u[..end], 10);
  }

  // Examples from the request handler's point of view.

  lemma DecimalStringExamples()
    ensures DecimalString(20) == "20"
    ensures DecimalString(-7) == "-7"
  {
    assert DecimalDigits(2) == "2";
    assert DecimalDigits(20) == DecimalDigits(2) + "0";
  }

  /** Decimal text, with or without trailing text or leading white space. */
  lemma ParseIntTwenty()
    ensures ParseInt("20") == Int(20)
  {
    var s := "20";
    assert !IsStrWhiteSpace(s[0]);
    assert TrimStart(s) == s;
    assert !HasHexPrefix(s);
    assert Scan(s) == Scanned(1, 10, s);
    DigitRunStopsAtNonDigit(s, "", 10);
    assert s + "" == s;
    assert s[..2] == s;
    assert s[..1] == "2";
    assert DigitsValue(s, 10) == 20;
  }

  lemma ParseIntTwentyWithSuffix()
    ensures ParseInt("20x") == Int(20)
  {
    DecimalStringExamples();
    var t := DecimalString(20);
    assert "" + t + "x" == "20x";
    ParseIntDecimalString("", 20, "x");
  }

  lemma ParseIntNegativeAfterWhiteSpace()
    ensures ParseInt("  -7") == Int(-7)
  {
    DecimalStringExamples();
    assert AllWhiteSpace("  ");
    ParseIntDecimalString("  ", -7, "");
    assert "  " + "-7" + "" == "  -7";
  }

  lemma ParseIntSeven()
    ensures ParseInt("7") == Int(7)
  {
    assert DecimalString(7) == "7";
    ParseIntDecimalString("", 7, "");
    assert "" + "7" + "" == "7";
  }

  /** Text that starts with no digit, including the empty text, is NaN. */
  lemma ParseIntNaNExamples()
    ensures ParseInt("abc") == NaN
    ensures ParseInt("") == NaN
    ensures ParseInt("0x") == NaN
  {
    ParseIntLettersNaN();
    ParseIntEmptyNaN();
    ParseIntBareHexPrefixNaN();
  }

  lemma ParseIntLettersNaN()
    ensures ParseInt("abc") == NaN
  {
    assert TrimStart("abc") == "abc";
    assert Scan("abc") == Scanned(1, 10, "abc");
    assert DigitRunLength("abc", 10) == 0;
  }

  lemma ParseIntEmptyNaN()
    ensures ParseInt("") == NaN
  {
    assert TrimStart("") == "";
    assert ScanTrimmed("") == Scanned(1, 10, "");
    assert DigitRunLength("", 10) == 0;
  }

  lemma ParseIntBareHexPrefixNaN()
    ensures ParseInt("0x") == NaN
  {
    assert TrimStart("0x") == "0x";
    assert Scan("0x") == Scanned(1, 16, "");
  }

  /** The `0x` prefix switches to radix 16. */
  lemma ParseIntHexExample()
    ensures ParseInt("0x1A") == Int(26)
  {
    assert TrimStart("0x1A") == "0x1A";
    assert ScanTrimmed("0x1A") == Scanned(1, 16, "1A");
    assert DigitRunLength("1A", 16) == 2;
    assert "1A"[..2] == "1A";
    assert "1A"[..1] == "1";
    assert DigitsValue("1", 16) == 1;
  }
}
