/** The checkout form's card checks and display formatters: issuer
    detection, the Luhn check digit (Annex B of ISO/IEC 7812-1), expiry,
    CVV and holder-name checks, the aggregate validator and two formatters.
    The JavaScript built-ins they rely on (`replace` with a regular
    expression, `trim`, `parseInt`) are modelled explicitly. */
module CardValidations {
  import opened Common

  datatype CardType = Visa | Mastercard | Unknown

  // ---------------------------------------------------------------------
  // String built-ins
  // ---------------------------------------------------------------------

  /** `s.replace(/\s+/g, '')`: every whitespace character removed. */
  function RemoveWhitespace(s: string): (r: string)
    ensures |r| <= |s|
    ensures forall i | 0 <= i < |r| :: !IsWhitespace(r[i])
    decreases |s|
  {
    if s == [] then []
    else if IsWhitespace(s[0]) then RemoveWhitespace(s[1..])
    else [s[0]] + RemoveWhitespace(s[1..])
  }

  lemma {:induction false} RemoveWhitespaceConcat(a: string, b: string)
    ensures RemoveWhitespace(a + b) == RemoveWhitespace(a) + RemoveWhitespace(b)
    decreases |a|
  {
    if a != [] {
      assert (a + b)[0] == a[0];
      assert (a + b)[1..] == a[1..] + b;
      RemoveWhitespaceConcat(a[1..], b);
      if !IsWhitespace(a[0]) {
        calc {
          RemoveWhitespace(a + b);
          [a[0]] + RemoveWhitespace(a[1..] + b);
          [a[0]] + (RemoveWhitespace(a[1..]) + RemoveWhitespace(b));
          ([a[0]] + RemoveWhitespace(a[1..])) + RemoveWhitespace(b);
        }
      }
    } else {
      assert a + b == b;
    }
  }

  /** A string without whitespace is left as it is. */
  lemma {:induction false} RemoveWhitespaceNoop(s: string)
    requires forall i | 0 <= i < |s| :: !IsWhitespace(s[i])
    ensures RemoveWhitespace(s) == s
    decreases |s|
  {
    if s != [] {
      RemoveWhitespaceNoop(s[1..]);
    }
  }

  /** A string made only of whitespace disappears. */
  lemma {:induction false} RemoveWhitespaceAllSpace(s: string)
    requires forall i | 0 <= i < |s| :: IsWhitespace(s[i])
    ensures RemoveWhitespace(s) == []
    decreases |s|
  {
    if s != [] {
      RemoveWhitespaceAllSpace(s[1..]);
    }
  }

  lemma RemoveWhitespaceIdempotent(s: string)
    ensures RemoveWhitespace(RemoveWhitespace(s)) == RemoveWhitespace(s)
  {
    RemoveWhitespaceNoop(RemoveWhitespace(s));
  }

  /** The leading-whitespace half of `trim()`; `parseInt` skips the same prefix. */
  function TrimStart(s: string): string
    decreases |s|
  {
    if s != [] && IsWhitespace(s[0]) then TrimStart(s[1..]) else s
  }

  /** `TrimStart` drops a whitespace prefix, and only that: what is left is
      a suffix of the input that does not begin with whitespace. */
  lemma {:induction false} TrimStartShape(s: string)
    ensures var r := TrimStart(s);
      && |r| <= |s| && r == s[|s| - |r|..]
      && (forall i | 0 <= i < |s| - |r| :: IsWhitespace(s[i]))
      && (r == [] || !IsWhitespace(r[0]))
    decreases |s|
  {
    if s != [] && IsWhitespace(s[0]) {
      TrimStartShape(s[1..]);
      var r := TrimStart(s);
      assert r == TrimStart(s[1..]);
      forall i | 0 <= i < |s| - |r| ensures IsWhitespace(s[i]) {
        if i > 0 { assert s[i] == s[1..][i - 1]; }
      }
    }
  }

  /** The trailing-whitespace half of `trim()`. */
  function TrimEnd(s: string): string
    decreases |s|
  {
    if s != [] && IsWhitespace(s[|s| - 1]) then TrimEnd(s[..|s| - 1]) else s
  }

  /** `TrimEnd` drops a whitespace suffix, and only that. */
  lemma {:induction false} TrimEndShape(s: string)
    ensures var r := TrimEnd(s);
      && |r| <= |s| && r == s[..|r|]
      && (forall i | |r| <= i < |s| :: IsWhitespace(s[i]))
      && (r == [] || !IsWhitespace(r[|r| - 1]))
    decreases |s|
  {
    if s != [] && IsWhitespace(s[|s| - 1]) {
      TrimEndShape(s[..|s| - 1]);
      var r := TrimEnd(s);
      assert r == TrimEnd(s[..|s| - 1]);
      forall i | |r| <= i < |s| ensures IsWhitespace(s[i]) {
        if i < |s| - 1 { assert s[i] == s[..|s| - 1][i]; }
      }
    }
  }

  /** `s.trim()`. */
  function Trim(s: string): (r: string)
    ensures r == [] || (!IsWhitespace(r[0]) && !IsWhitespace(r[|r| - 1]))
  {
    TrimStartShape(s);
    TrimEndShape(TrimStart(s));
    var r := TrimEnd(TrimStart(s));
    assert r != [] ==> r[0] == TrimStart(s)[0];
    r
  }

  /** Trimming only ever removes whitespace. */
  lemma TrimKeepsNonWhitespace(s: string)
    ensures RemoveWhitespace(Trim(s)) == RemoveWhitespace(s)
  {
    TrimStartKeepsNonWhitespace(s);
    TrimEndKeepsNonWhitespace(TrimStart(s));
  }

  lemma {:induction false} TrimStartKeepsNonWhitespace(s: string)
    ensures RemoveWhitespace(TrimStart(s)) == RemoveWhitespace(s)
    decreases |s|
  {
    if s != [] && IsWhitespace(s[0]) {
      TrimStartKeepsNonWhitespace(s[1..]);
    }
  }

  lemma {:induction false} TrimEndKeepsNonWhitespace(s: string)
    ensures RemoveWhitespace(TrimEnd(s)) == RemoveWhitespace(s)
    decreases |s|
  {
    if s != [] && IsWhitespace(s[|s| - 1]) {
      var init, last := s[..|s| - 1], s[|s| - 1];
      TrimEndKeepsNonWhitespace(init);
      assert s == init + [last];
      RemoveWhitespaceConcat(init, [last]);
      assert RemoveWhitespace([last]) == [];
    }
  }

  // ---------------------------------------------------------------------
  // parseInt
  // ---------------------------------------------------------------------

  /** The value of `c` as a digit of the given radix (10 or 16), if it is one. */
  function RadixDigit(c: char, radix: nat): (d: Option<nat>)
    ensures d.Some? ==> d.value < radix || radix < 10
  {
    if '0' <= c <= '9' then Some((c as int) - ('0' as int))
    else if radix == 16 && 'a' <= c <= 'f' then Some((c as int) - ('a' as int) + 10)
    else if radix == 16 && 'A' <= c <= 'F' then Some((c as int) - ('A' as int) + 10)
    else None
  }

  predicate AllRadixDigits(s: string, radix: nat)
  {
    forall i | 0 <= i < |s| :: RadixDigit(s[i], radix).Some?
  }

  /** The length of the longest prefix of `s` made of digits of `radix`. */
  function RadixPrefixLength(s: string, radix: nat): (n: nat)
    ensures n <= |s| && AllRadixDigits(s[..n], radix)
    ensures n < |s| ==> RadixDigit(s[n], radix).None?
    decreases |s|
  {
    if s == [] || RadixDigit(s[0], radix).None? then 0
    else 1 + RadixPrefixLength(s[1..], radix)
  }

  /** The number that a string of digits of `radix` denotes. */
  function RadixValue(s: string, radix: nat): nat
    requires AllRadixDigits(s, radix)
    decreases |s|
  {
    if s == [] then 0
    else RadixValue(s[..|s| - 1], radix) * radix + RadixDigit(s[|s| - 1], radix).value
  }

  /** `parseInt(s)` with no radix argument, as ECMAScript defines it: skip
      leading whitespace, read one optional sign, switch to radix 16 after a
      `0x` or `0X` prefix, and read the longest run of digits that follows;
      anything after that run is ignored. `None` stands for NaN, returned
      when that run is empty. */
  function ParseInt(s: string): (r: Option<int>)
    ensures TrimStart(s) == [] ==> r.None?
    ensures var t := TrimStart(s);
      |t| > 0 && IsDigit(t[0]) && !(|t| >= 2 && t[0] == '0' && (t[1] == 'x' || t[1] == 'X')) ==>
        r.Some? && r.value >= 0
    ensures r.Some? ==> exists i | 0 <= i < |TrimStart(s)| :: IsDigit(TrimStart(s)[i])
  {
    var t := TrimStart(s);
    ParseMagnitudeNeedsDigit(t);
    if |t| > 0 && t[0] == '-' then
      match ParseMagnitude(t[1..])
      case None => None
      case Some(n) => Some(-n)
    else if |t| > 0 && t[0] == '+' then ParseMagnitude(t[1..])
    else ParseMagnitude(t)
  }

  /** The unsigned part of `parseInt`: the radix prefix, then the digits. */
  function ParseMagnitude(u: string): Option<int>
  {
    if |u| >= 2 && u[0] == '0' && (u[1] == 'x' || u[1] == 'X') then ParseRadix(u[2..], 16)
    else ParseRadix(u, 10)
  }

  /** A magnitude is read only from a string that starts with a decimal
      digit, after the sign if there is one, and is never negative. */
  lemma ParseMagnitudeNeedsDigit(t: string)
    ensures ParseMagnitude(t).Some? ==> |t| > 0 && IsDigit(t[0]) && ParseMagnitude(t).value >= 0
    ensures |t| > 0 && ParseMagnitude(t[1..]).Some? ==>
      |t| > 1 && IsDigit(t[1]) && ParseMagnitude(t[1..]).value >= 0
  {
  }

  /** The value of the longest run of `radix` digits at the start of `d`, if any. */
  function ParseRadix(d: string, radix: nat): Option<int>
  {
    var n := RadixPrefixLength(d, radix);
    if n == 0 then None else Some(RadixValue(d[..n], radix))
  }

  lemma {:induction false} RadixValueDecimal(s: string)
    requires AllDigits(s)
    ensures AllRadixDigits(s, 10) && RadixValue(s, 10) == DecimalValue(s)
    decreases |s|
  {
    if s != [] {
      RadixValueDecimal(s[..|s| - 1]);
    }
  }

  lemma {:induction false} RadixPrefixAllDigits(s: string)
    requires AllDigits(s)
    ensures RadixPrefixLength(s, 10) == |s|
    decreases |s|
  {
    if s != [] {
      RadixPrefixAllDigits(s[1..]);
    }
  }

  /** On a non-empty string of decimal digits, `parseInt` gives its decimal value. */
  lemma ParseIntDecimal(s: string)
    requires |s| > 0 && AllDigits(s)
    ensures ParseInt(s) == Some(DecimalValue(s))
  {
    ParseIntUnsigned(s);
    ParseMagnitudeDecimal(s);
  }

  /** Without leading whitespace or sign, `parseInt` reads the magnitude directly. */
  lemma ParseIntUnsigned(s: string)
    requires |s| > 0 && !IsWhitespace(s[0]) && s[0] != '-' && s[0] != '+'
    ensures ParseInt(s) == ParseMagnitude(s)
  {
    assert TrimStart(s) == s;
  }

  lemma ParseMagnitudeDecimal(s: string)
    requires |s| > 0 && AllDigits(s)
    ensures ParseMagnitude(s) == Some(DecimalValue(s))
  {
    assert !(|s| >= 2 && (s[1] == 'x' || s[1] == 'X'));
    RadixPrefixAllDigits(s);
    RadixValueDecimal(s);
    assert s[..|s|] == s;
  }

  lemma ParseIntSingleDigit(c: char)
    requires IsDigit(c)
    ensures ParseInt([c]) == Some(DigitValue(c))
  {
    ParseIntDecimal([c]);
    assert [c][..0] == [];
  }

  /** `parseInt` gives NaN when no digit follows the optional sign. */
  lemma ParseIntNaNExamples()
    ensures ParseInt("") == None && ParseInt("ab") == None && ParseInt("-") == None
  {
    assert TrimStart("") == "";
    ParseIntUnsigned("ab");
    assert RadixPrefixLength("ab", 10) == 0;
    assert TrimStart("-") == "-";
    assert "-"[1..] == "";
  }

  /** `parseInt` stops at the first character that is not a digit. */
  lemma ParseIntIgnoresTail()
    ensures ParseInt(" 12ab") == Some(12)
  {
    assert " 12ab"[1..] == "12ab";
    assert TrimStart(" 12ab") == "12ab";
    ParseIntUnsigned("12ab");
    assert RadixPrefixLength("12ab", 10) == 2;
    assert "12ab"[..2] == "12";
    RadixValueDecimal("12");
    assert "12"[..1] == "1";
  }

  /** A leading minus negates; a `0x` prefix selects radix 16. */
  lemma ParseIntSign()
    ensures ParseInt("-3") == Some(-3)
  {
    assert TrimStart("-3") == "-3";
    assert "-3"[1..] == "3";
    ParseMagnitudeDecimal("3");
  }

  /** After `0x` the digits are read in base 16. */
  lemma ParseIntHex()
    ensures ParseInt("0x0C") == Some(12)
  {
    ParseIntUnsigned("0x0C");
    assert "0x0C"[2..] == "0C";
    assert RadixPrefixLength("0C", 16) == 2;
    assert "0C"[..2] == "0C" && "0C"[..1] == "0" && "0"[..0] == "";
    assert RadixDigit('C', 16) == Some(12) && RadixDigit('0', 16) == Some(0);
    assert RadixValue("0", 16) == 0;
    assert RadixValue("0C", 16) == 12;
  }

  // ---------------------------------------------------------------------
  // Issuer detection
  // ---------------------------------------------------------------------

  /** `^[0-9]{min,max}$`: the whole of `s` is a run of `min` to `max` digits. */
  function DigitRun(s: string, min: nat, max: nat): bool
    decreases |s|
  {
    if s == [] then min == 0
    else max > 0 && IsDigit(s[0]) && DigitRun(s[1..], if min > 0 then min - 1 else 0, max - 1)
  }

  lemma {:induction false} DigitRunMeans(s: string, min: nat, max: nat)
    ensures DigitRun(s, min, max) <==> min <= |s| <= max && AllDigits(s)
    decreases |s|
  {
    if s != [] && max > 0 {
      DigitRunMeans(s[1..], if min > 0 then min - 1 else 0, max - 1);
      if AllDigits(s[1..]) && IsDigit(s[0]) {
        assert AllDigits(s) by {
          forall i | 0 <= i < |s| ensures IsDigit(s[i]) {
            if i > 0 { assert s[i] == s[1..][i - 1]; }
          }
        }
      }
    }
  }

  /** The Visa pattern `^4[0-9]{12}(?:[0-9]{3})?$`. */
  predicate MatchesVisa(s: string)
  {
    && |s| >= 13 && s[0] == '4' && DigitRun(s[1..13], 12, 12)
    && (DigitRun(s[13..], 0, 0) || DigitRun(s[13..], 3, 3))
  }

  /** The Mastercard pattern `^5[1-5][0-9]{14}$`. */
  predicate MatchesMastercard(s: string)
  {
    |s| >= 2 && s[0] == '5' && '1' <= s[1] <= '5' && DigitRun(s[2..], 14, 14)
  }

  /** `getCardType`: the issuer whose pattern the number, whitespace removed,
      matches. Visa is a 4 followed by 12 or 15 further digits, Mastercard a 5,
      then one of 1 to 5, then 14 digits; a number is never both, and every
      other number is Unknown. */
  function GetCardType(number: string): (t: CardType)
    ensures var c := RemoveWhitespace(number);
      && (t == Visa <==> (|c| == 13 || |c| == 16) && c[0] == '4' && AllDigits(c))
      && (t == Mastercard <==> |c| == 16 && c[0] == '5' && '1' <= c[1] <= '5' && AllDigits(c))
      && (t == Unknown <==>
            !((|c| == 13 || |c| == 16) && c[0] == '4' && AllDigits(c)) &&
            !(|c| == 16 && c[0] == '5' && '1' <= c[1] <= '5' && AllDigits(c)))
  {
    var clean := RemoveWhitespace(number);
    VisaPatternMeans(clean);
    MastercardPatternMeans(clean);
    if MatchesVisa(clean) then Visa
    else if MatchesMastercard(clean) then Mastercard
    else Unknown
  }

  lemma VisaPatternMeans(c: string)
    ensures MatchesVisa(c) <==> (|c| == 13 || |c| == 16) && c[0] == '4' && AllDigits(c)
  {
    if |c| >= 13 {
      DigitRunMeans(c[1..13], 12, 12);
      DigitRunMeans(c[13..], 0, 0);
      DigitRunMeans(c[13..], 3, 3);
      AllDigitsSplit(c, 13);
      AllDigitsSplit(c[..13], 1);
      assert c[..13][1..] == c[1..13];
    }
  }

  lemma MastercardPatternMeans(c: string)
    ensures MatchesMastercard(c) <==> |c| == 16 && c[0] == '5' && '1' <= c[1] <= '5' && AllDigits(c)
  {
    if |c| >= 2 {
      DigitRunMeans(c[2..], 14, 14);
      AllDigitsSplit(c, 2);
    }
  }

  lemma AllDigitsSplit(s: string, k: nat)
    requires k <= |s|
    ensures AllDigits(s) <==> AllDigits(s[..k]) && AllDigits(s[k..])
  {
    if AllDigits(s[..k]) && AllDigits(s[k..]) {
      forall i | 0 <= i < |s| ensures IsDigit(s[i]) {
        if i < k { assert s[i] == s[..k][i]; } else { assert s[i] == s[k..][i - k]; }
      }
    }
  }

  /** Whitespace anywhere in the input never changes the detected issuer. */
  lemma CardTypeIgnoresWhitespace(number: string)
    ensures GetCardType(number) == GetCardType(RemoveWhitespace(number))
  {
    RemoveWhitespaceIdempotent(number);
  }

  // ---------------------------------------------------------------------
  // Luhn check (ISO/IEC 7812-1, Annex B)
  // ---------------------------------------------------------------------

  /** One digit's contribution: doubled digits above 9 lose 9. */
  function LuhnTerm(d: nat, doubled: bool): (t: nat)
    requires d <= 9
    ensures t <= 9
  {
    if doubled then (if 2 * d > 9 then 2 * d - 9 else 2 * d) else d
  }

  /** The sum of the Luhn terms of the first `n` digits of `s`, read from
      the `n`-th leftwards; that digit is doubled when `doubled` holds, and
      the doubling alternates from there. */
  function LuhnSum(s: string, n: nat, doubled: bool): (sum: nat)
    requires n <= |s| && AllDigits(s)
    ensures sum <= 9 * n
    decreases n
  {
    if n == 0 then 0
    else LuhnTerm(DigitValue(s[n - 1]), doubled) + LuhnSum(s, n - 1, !doubled)
  }

  /** Luhn: the sum, with the rightmost digit not doubled, is a multiple of 10. */
  predicate PassesLuhn(s: string)
    requires AllDigits(s)
  {
    LuhnSum(s, |s|, false) % 10 == 0
  }

  /** What `validateCardNumber` accepts: a non-empty run of digits once the
      whitespace is removed, whose Luhn sum is a multiple of 10. Equivalently,
      its last digit is the check digit of the digits before it. */
  function IsValidCardNumber(number: string): (valid: bool)
    ensures var c := RemoveWhitespace(number);
      valid <==> |c| > 0 && AllDigits(c) && c[|c| - 1] == CheckDigit(c[..|c| - 1])
  {
    var clean := RemoveWhitespace(number);
    if |clean| > 0 && AllDigits(clean) then
      var payload := clean[..|clean| - 1];
      assert clean == payload + [clean[|clean| - 1]];
      CheckDigitUnique(payload, clean[|clean| - 1]);
      PassesLuhn(clean)
    else false
  }

  /** `validateCardNumber`: the loop from the rightmost digit, doubling
      every second one. */
  method ValidateCardNumber(number: string) returns (valid: bool)
    ensures valid == IsValidCardNumber(number)
  {
    var clean := RemoveWhitespace(number);
    if !(|clean| > 0 && AllDigits(clean)) {
      return false;
    }
    var sum := 0;
    var isEven := false;
    var i := |clean| - 1;
    while i >= 0
      invariant -1 <= i < |clean|
      invariant sum + LuhnSum(clean, i + 1, isEven) == LuhnSum(clean, |clean|, false)
    {
      ParseIntSingleDigit(clean[i]);
      var digit := ParseInt([clean[i]]).value;
      if isEven {
        digit := digit * 2;
        if digit > 9 {
          digit := digit - 9;
        }
      }
      sum := sum + digit;
      isEven := !isEven;
      i := i - 1;
    }
    return sum % 10 == 0;
  }

  /** An empty number, or one with anything but digits and whitespace, is rejected. */
  lemma RejectsNonDigits(number: string)
    requires RemoveWhitespace(number) == [] || exists i | 0 <= i < |RemoveWhitespace(number)| :: !IsDigit(RemoveWhitespace(number)[i])
    ensures !IsValidCardNumber(number)
  {
  }

  /** Whitespace anywhere in the input never changes the verdict. */
  lemma CardNumberIgnoresWhitespace(number: string)
    ensures IsValidCardNumber(number) == IsValidCardNumber(RemoveWhitespace(number))
  {
    RemoveWhitespaceIdempotent(number);
  }

  /** The Visa test number: a 4 followed by fifteen 1s passes (Luhn sum 30). */
  lemma LuhnAcceptsVisaTestPattern(s: string)
    requires |s| == 16 && s[0] == '4' && forall i | 1 <= i < 16 :: s[i] == '1'
    ensures IsValidCardNumber(s)
  {
    assert AllDigits(s);
    RemoveWhitespaceNoop(s);
    assert LuhnSum(s, 1, true) == 8;
    assert LuhnSum(s, 2, false) == 9;
    assert LuhnSum(s, 4, false) == 12;
    assert LuhnSum(s, 6, false) == 15;
    assert LuhnSum(s, 8, false) == 18;
    assert LuhnSum(s, 10, false) == 21;
    assert LuhnSum(s, 12, false) == 24;
    assert LuhnSum(s, 14, false) == 27;
    assert LuhnSum(s, 16, false) == 30;
    assert PassesLuhn(s);
  }

  lemma LuhnExampleVisa()
    ensures IsValidCardNumber("4111111111111111")
  {
    LuhnAcceptsVisaTestPattern("4111111111111111");
  }

  lemma LuhnExampleRejected()
    ensures !IsValidCardNumber("1234")
  {
    RemoveWhitespaceNoop("1234");
    assert LuhnSum("1234", 4, false) == 14;
  }

  /** The Luhn sum of a prefix only depends on that prefix. */
  lemma {:induction false} LuhnSumPrefix(s: string, t: string, n: nat, doubled: bool)
    requires n <= |s| && n <= |t| && AllDigits(s) && AllDigits(t)
    requires forall i | 0 <= i < n :: s[i] == t[i]
    ensures LuhnSum(s, n, doubled) == LuhnSum(t, n, doubled)
    decreases n
  {
    if n > 0 {
      LuhnSumPrefix(s, t, n - 1, !doubled);
    }
  }

  /** The check digit that Annex B of ISO/IEC 7812-1 appends to a digit string. */
  function CheckDigit(s: string): (c: char)
    requires AllDigits(s)
    ensures IsDigit(c)
  {
    DigitChar((10 - LuhnSum(s, |s|, true) % 10) % 10)
  }

  /** Appending a digit gives a Luhn-valid string exactly when that digit is
      the check digit: one and only one digit completes any payload. */
  lemma CheckDigitUnique(s: string, c: char)
    requires AllDigits(s) && IsDigit(c)
    ensures AllDigits(s + [c])
    ensures PassesLuhn(s + [c]) <==> c == CheckDigit(s)
  {
    var t := s + [c];
    assert AllDigits(t) by {
      assert forall i | 0 <= i < |s| :: t[i] == s[i];
    }
    LuhnSumPrefix(s, t, |s|, true);
    var x := LuhnSum(s, |s|, true);
    assert LuhnSum(t, |t|, false) == DigitValue(c) + x;
    assert DigitChar(DigitValue(c)) == c;
    CompletesToTen(DigitValue(c), x);
  }

  /** Adding a digit to x gives a multiple of 10 for exactly one digit. */
  lemma CompletesToTen(d: nat, x: nat)
    requires d <= 9
    ensures (d + x) % 10 == 0 <==> d == (10 - x % 10) % 10
  {
    var k := x % 10;
    assert x == x / 10 * 10 + k;
    assert (d + x) % 10 == (d + k) % 10;
  }

  /** Where two equally long strings differ in exactly one position `k`, the
      difference of their Luhn sums is the difference of that position's terms. */
  lemma {:induction false} LuhnSumOneDifference(s: string, t: string, k: nat, n: nat, doubled: bool)
    requires AllDigits(s) && AllDigits(t) && |s| == |t| && k < n <= |s|
    requires forall i | 0 <= i < |s| && i != k :: s[i] == t[i]
    ensures LuhnSum(s, n, doubled) - LuhnSum(t, n, doubled) ==
            LuhnTerm(DigitValue(s[k]), doubled != ((n - 1 - k) % 2 == 1)) -
            LuhnTerm(DigitValue(t[k]), doubled != ((n - 1 - k) % 2 == 1))
    decreases n
  {
    if k == n - 1 {
      LuhnSumPrefix(s, t, n - 1, !doubled);
    } else {
      LuhnSumOneDifference(s, t, k, n - 1, !doubled);
    }
  }

  /** Each Luhn term is a different residue for a different digit. */
  lemma LuhnTermInjective(d: nat, e: nat, doubled: bool)
    requires d <= 9 && e <= 9 && d != e
    ensures (LuhnTerm(d, doubled) - LuhnTerm(e, doubled)) % 10 != 0
  {
  }

  /** The Luhn check detects every single mistyped digit. */
  lemma SingleDigitErrorDetected(s: string, t: string, k: nat)
    requires AllDigits(s) && AllDigits(t) && |s| == |t| && k < |s|
    requires forall i | 0 <= i < |s| && i != k :: s[i] == t[i]
    requires s[k] != t[k]
    requires PassesLuhn(s)
    ensures !PassesLuhn(t)
  {
    var p := false != ((|s| - 1 - k) % 2 == 1);
    LuhnSumOneDifference(s, t, k, |s|, false);
    var d := LuhnTerm(DigitValue(s[k]), p) - LuhnTerm(DigitValue(t[k]), p);
    LuhnTermInjective(DigitValue(s[k]), DigitValue(t[k]), p);
    DifferenceKeepsResidue(LuhnSum(s, |s|, false), LuhnSum(t, |t|, false), d);
  }

  /** Two numbers whose difference is not a multiple of 10 are not both multiples of 10. */
  lemma DifferenceKeepsResidue(x: int, y: int, d: int)
    requires x % 10 == 0 && x - y == d && d % 10 != 0
    ensures y % 10 != 0
  {
  }

  // ---------------------------------------------------------------------
  // Expiry, CVV and holder
  // ---------------------------------------------------------------------

  /** The quotient of `a` by `b` rounded towards zero. */
  function TruncatedQuotient(a: int, b: int): int
    requires b > 0
  {
    if a >= 0 then a / b else -((-a) / b)
  }

  /** `a % b` on JavaScript numbers, which truncates towards zero: what is
      left of `a` after taking away whole `b`s towards zero, with the sign
      of `a`. */
  function JsRemainder(a: int, b: int): (r: int)
    requires b > 0
    ensures -b < r < b && (a >= 0 ==> r >= 0) && (a < 0 ==> r <= 0)
    ensures a == TruncatedQuotient(a, b) * b + r
  {
    if a >= 0 then a % b else -((-a) % b)
  }

  /** JavaScript's `<`, `>` and `===` between a `parseInt` result and a
      number: every comparison with NaN is false. */
  predicate NumLess(a: Option<int>, b: int) { a.Some? && a.value < b }
  predicate NumGreater(a: Option<int>, b: int) { a.Some? && a.value > b }
  predicate NumEquals(a: Option<int>, b: int) { a.Some? && a.value == b }

  /** `validateExpiry`, with the clock's `getFullYear()` and `getMonth()`
      (0 to 11) passed in. */
  function ValidateExpiry(month: string, year: string, fullYear: int, monthIndex: int): (ok: bool)
    ensures var m, y, cy := ParseInt(month), ParseInt(year), JsRemainder(fullYear, 100);
      ok <==>
        && (m.None? || 1 <= m.value <= 12)
        && (y.None? || y.value >= cy)
        && (y == Some(cy) && m.Some? ==> m.value >= monthIndex + 1)
  {
    var currentYear := JsRemainder(fullYear, 100);
    var currentMonth := monthIndex + 1;
    var expMonth := ParseInt(month);
    var expYear := ParseInt(year);
    if NumLess(expYear, currentYear) then false
    else if NumEquals(expYear, currentYear) && NumLess(expMonth, currentMonth) then false
    else if NumLess(expMonth, 1) || NumGreater(expMonth, 12) then false
    else true
  }

  /** For numeric input the expiry is accepted exactly when the month is a
      real month and the expiry month is not before the current month of
      the current two-digit year. */
  lemma ExpiryOfNumericInput(month: string, year: string, fullYear: int, monthIndex: int)
    requires |month| > 0 && AllDigits(month) && |year| > 0 && AllDigits(year)
    requires 0 <= monthIndex <= 11
    ensures var m, y, cy := DecimalValue(month), DecimalValue(year), JsRemainder(fullYear, 100);
      ValidateExpiry(month, year, fullYear, monthIndex) <==>
        1 <= m <= 12 && y * 12 + m >= cy * 12 + monthIndex + 1
  {
    ParseIntDecimal(month);
    ParseIntDecimal(year);
  }

  /** A month that does not parse (NaN) fails none of the comparisons, so
      it is accepted whenever the year is not in the past. */
  lemma NonNumericMonthAccepted(month: string, year: string, fullYear: int, monthIndex: int)
    requires ParseInt(month).None?
    ensures ValidateExpiry(month, year, fullYear, monthIndex) <==>
            !NumLess(ParseInt(year), JsRemainder(fullYear, 100))
  {
  }

  /** A year that does not parse (NaN, as an empty year does) fails both
      year comparisons, so only the month range can reject. */
  lemma NonNumericYearAccepted(month: string, year: string, fullYear: int, monthIndex: int)
    requires ParseInt(year).None?
    ensures ValidateExpiry(month, year, fullYear, monthIndex) <==>
            ParseInt(month).None? || 1 <= ParseInt(month).value <= 12
  {
  }

  /** An empty year is accepted with a real month, and still rejected with
      month 13. */
  lemma ExpiryExamplesEmptyYear()
    ensures ValidateExpiry("05", "", 2026, 9)
    ensures !ValidateExpiry("13", "", 2026, 9)
  {
    ParseIntNaNExamples();
    ParseIntDecimal("05");
    ParseIntDecimal("13");
    NonNumericYearAccepted("05", "", 2026, 9);
    NonNumericYearAccepted("13", "", 2026, 9);
  }

  lemma ExpiryExamplesPast()
    ensures !ValidateExpiry("05", "25", 2026, 9)
    ensures !ValidateExpiry("09", "26", 2026, 9)
  {
    ExpiryOfNumericInput("05", "25", 2026, 9);
    ExpiryOfNumericInput("09", "26", 2026, 9);
  }

  lemma ExpiryExamplesCurrentAndBadMonth()
    ensures ValidateExpiry("10", "26", 2026, 9)
    ensures !ValidateExpiry("13", "30", 2026, 9)
  {
    ExpiryOfNumericInput("10", "26", 2026, 9);
    ExpiryOfNumericInput("13", "30", 2026, 9);
  }

  /** An empty month is NaN, and passes. */
  lemma ExpiryExampleEmptyMonth()
    ensures ValidateExpiry("", "30", 2026, 9)
  {
    ParseIntNaNExamples();
    ParseIntDecimal("30");
  }

  /** `validateCVV`: the pattern `^[0-9]{3,4}$`. */
  function ValidateCVV(cvv: string): (ok: bool)
    ensures ok <==> (|cvv| == 3 || |cvv| == 4) && AllDigits(cvv)
  {
    DigitRunMeans(cvv, 3, 4);
    DigitRun(cvv, 3, 4)
  }

  predicate IsLetter(c: char)
  {
    ('a' <= c <= 'z') || ('A' <= c <= 'Z')
  }

  /** The class `[a-zA-Z\s]`. */
  predicate IsLetterOrWhitespace(c: char)
  {
    IsLetter(c) || IsWhitespace(c)
  }

  /** `validateCardHolder`: at least three characters once trimmed, and the
      untrimmed name matches `^[a-zA-Z\s]+$`. An accepted name is at least
      three characters long and holds a letter, so blanks never pass. */
  function ValidateCardHolder(name: string): (ok: bool)
    ensures ok ==> |name| >= 3 && exists i | 0 <= i < |name| :: IsLetter(name[i])
  {
    TrimShape(name);
    var p := |name| - |TrimStart(name)|;
    assert |Trim(name)| > 0 ==> p < |name| && !IsWhitespace(name[p]);
    |Trim(name)| >= 3 && |name| >= 1 && forall i | 0 <= i < |name| :: IsLetterOrWhitespace(name[i])
  }

  /** `trim()` keeps one contiguous block of the input: everything before and
      after it is whitespace, and it starts and ends with a non-whitespace
      character unless it is empty. */
  lemma TrimShape(s: string)
    ensures |TrimStart(s)| <= |s|
    ensures var p, r := |s| - |TrimStart(s)|, Trim(s);
      && p + |r| <= |s| && r == s[p..p + |r|]
      && (forall i | 0 <= i < p :: IsWhitespace(s[i]))
      && (forall i | p + |r| <= i < |s| :: IsWhitespace(s[i]))
      && (r != [] ==> !IsWhitespace(s[p]) && !IsWhitespace(s[p + |r| - 1]))
  {
    TrimStartShape(s);
    var u := TrimStart(s);
    TrimEndShape(u);
    var p, r := |s| - |u|, Trim(s);
    assert r == u[..|r|];
    forall i | p + |r| <= i < |s|
      ensures IsWhitespace(s[i])
    {
      assert s[i] == u[i - p];
    }
  }

  /** A holder name is accepted exactly when it is made of letters and
      whitespace and has two non-whitespace characters at least two positions
      apart (so "A B" passes and "AB" does not). */
  lemma CardHolderMeans(name: string)
    ensures ValidateCardHolder(name) <==>
      && (forall i | 0 <= i < |name| :: IsLetterOrWhitespace(name[i]))
      && (exists i, j | 0 <= i && i + 2 <= j < |name| :: !IsWhitespace(name[i]) && !IsWhitespace(name[j]))
  {
    TrimShape(name);
    var p, r := |name| - |TrimStart(name)|, Trim(name);
    if |r| >= 3 {
      assert !IsWhitespace(name[p]) && !IsWhitespace(name[p + |r| - 1]);
    }
    if exists i, j | 0 <= i && i + 2 <= j < |name| :: !IsWhitespace(name[i]) && !IsWhitespace(name[j]) {
      var i, j :| 0 <= i && i + 2 <= j < |name| && !IsWhitespace(name[i]) && !IsWhitespace(name[j]);
      assert p <= i && j < p + |r|;
    }
  }

  lemma {:induction false} TrimStartPadded(p: string, s: string)
    requires forall i | 0 <= i < |p| :: IsWhitespace(p[i])
    ensures TrimStart(p + s) == TrimStart(s)
    decreases |p|
  {
    if p != [] {
      assert (p + s)[0] == p[0];
      assert (p + s)[1..] == p[1..] + s;
      assert forall i | 0 <= i < |p[1..]| :: p[1..][i] == p[i + 1];
      TrimStartPadded(p[1..], s);
    } else {
      assert p + s == s;
    }
  }

  lemma {:induction false} TrimEndPadded(s: string, p: string)
    requires forall i | 0 <= i < |p| :: IsWhitespace(p[i])
    ensures TrimEnd(s + p) == TrimEnd(s)
    decreases |p|
  {
    if p != [] {
      assert (s + p)[|s + p| - 1] == p[|p| - 1];
      assert (s + p)[..|s + p| - 1] == s + p[..|p| - 1];
      assert forall i | 0 <= i < |p| - 1 :: p[..|p| - 1][i] == p[i];
      TrimEndPadded(s, p[..|p| - 1]);
    } else {
      assert s + p == s;
    }
  }

  /** Surrounding the name with whitespace changes neither its trimmed
      length nor its character class, so the verdict stays the same. */
  lemma CardHolderIgnoresPadding(left: string, name: string, right: string)
    requires forall i | 0 <= i < |left| :: IsWhitespace(left[i])
    requires forall i | 0 <= i < |right| :: IsWhitespace(right[i])
    ensures ValidateCardHolder(left + name + right) == ValidateCardHolder(name)
  {
    var whole := left + name + right;
    assert whole == left + (name + right);
    TrimStartPadded(left, name + right);
    var t := TrimStart(name);
    TrimStartShape(name);
    if t == [] {
      assert forall i | 0 <= i < |name| :: IsWhitespace(name[i]);
      assert TrimStart(name + right) == [] by {
        TrimStartPadded(name + right, []);
        assert name + right + [] == name + right;
      }
    } else {
      var k := |name| - |t|;
      assert name == name[..k] + t;
      assert name + right == name[..k] + (t + right);
      TrimStartPadded(name[..k], t + right);
      assert TrimStart(t + right) == t + right;
      TrimEndPadded(t, right);
    }
    assert Trim(whole) == Trim(name);
    if (forall i | 0 <= i < |name| :: IsLetterOrWhitespace(name[i])) {
      forall i | 0 <= i < |whole| ensures IsLetterOrWhitespace(whole[i]) {
        if i < |left| { assert whole[i] == left[i]; }
        else if i < |left| + |name| { assert whole[i] == name[i - |left|]; }
        else { assert whole[i] == right[i - |left| - |name|]; }
      }
    }
    if (forall i | 0 <= i < |whole| :: IsLetterOrWhitespace(whole[i])) {
      forall i | 0 <= i < |name| ensures IsLetterOrWhitespace(name[i]) {
        assert name[i] == whole[|left| + i];
      }
    }
  }

  lemma CardHolderExamples()
    ensures ValidateCardHolder("JOHN DOE")
    ensures !ValidateCardHolder("Jo")
    ensures !ValidateCardHolder("   ")
    ensures !ValidateCardHolder("Ana3")
  {
    assert TrimStart("JOHN DOE") == "JOHN DOE";
    assert TrimEnd("JOHN DOE") == "JOHN DOE";
    assert "   "[1..] == "  " && "  "[1..] == " " && " "[1..] == [];
    assert "Ana3"[3] == '3';
  }

  // ---------------------------------------------------------------------
  // The aggregate validator
  // ---------------------------------------------------------------------

  datatype CardData = CardData(number: string, expMonth: string, expYear: string, cvc: string, cardHolder: string)

  datatype ValidationResult = ValidationResult(isValid: bool, errors: map<string, string>)

  const InvalidNumberMessage := "Número de tarjeta inválido"
  const UnsupportedIssuerMessage := "Solo se aceptan tarjetas Visa o Mastercard"
  const InvalidExpiryMessage := "Fecha de expiración inválida"
  const InvalidCvvMessage := "CVV inválido"
  const InvalidHolderMessage := "Nombre del titular inválido"

  /** `validateCardData`: one error entry per failing field, and valid when
      there are none. The clock's year and month index are passed in. */
  method ValidateCardData(card: CardData, fullYear: int, monthIndex: int) returns (result: ValidationResult)
    ensures result.errors.Keys <= {"number", "expiry", "cvv", "cardHolder"}
    ensures result.isValid <==> result.errors == map[]
    ensures "number" in result.errors <==>
              !IsValidCardNumber(card.number) || GetCardType(card.number) == Unknown
    ensures "number" in result.errors ==>
              result.errors["number"] ==
                (if IsValidCardNumber(card.number) then UnsupportedIssuerMessage else InvalidNumberMessage)
    ensures "expiry" in result.errors <==> !ValidateExpiry(card.expMonth, card.expYear, fullYear, monthIndex)
    ensures "expiry" in result.errors ==> result.errors["expiry"] == InvalidExpiryMessage
    ensures "cvv" in result.errors <==> !ValidateCVV(card.cvc)
    ensures "cvv" in result.errors ==> result.errors["cvv"] == InvalidCvvMessage
    ensures "cardHolder" in result.errors <==> !ValidateCardHolder(card.cardHolder)
    ensures "cardHolder" in result.errors ==> result.errors["cardHolder"] == InvalidHolderMessage
    ensures result.isValid <==>
              && IsValidCardNumber(card.number) && GetCardType(card.number) != Unknown
              && ValidateExpiry(card.expMonth, card.expYear, fullYear, monthIndex)
              && ValidateCVV(card.cvc) && ValidateCardHolder(card.cardHolder)
  {
    var errors: map<string, string> := map[];
    var numberOk := ValidateCardNumber(card.number);
    if !numberOk {
      errors := errors["number" := InvalidNumberMessage];
    } else if GetCardType(card.number) == Unknown {
      errors := errors["number" := UnsupportedIssuerMessage];
    }
    if !ValidateExpiry(card.expMonth, card.expYear, fullYear, monthIndex) {
      errors := errors["expiry" := InvalidExpiryMessage];
    }
    if !ValidateCVV(card.cvc) {
      errors := errors["cvv" := InvalidCvvMessage];
    }
    if !ValidateCardHolder(card.cardHolder) {
      errors := errors["cardHolder" := InvalidHolderMessage];
    }
    result := ValidationResult(|errors| == 0, errors);
  }

  // ---------------------------------------------------------------------
  // Formatters
  // ---------------------------------------------------------------------

  /** `s.replace(/(\d{4})/g, '$1 ')`: scanning left to right, a space after
      every run of four digits the scan matches. */
  function GroupFours(s: string): (r: string)
    ensures |s| <= |r| <= |s| + |s| / 4
    decreases |s|
  {
    if |s| >= 4 && AllDigits(s[..4]) then s[..4] + " " + GroupFours(s[4..])
    else if s == [] then []
    else [s[0]] + GroupFours(s[1..])
  }

  /** `formatCardNumber`. */
  function FormatCardNumber(number: string): (r: string)
    ensures r == [] || (!IsWhitespace(r[0]) && !IsWhitespace(r[|r| - 1]))
  {
    Trim(GroupFours(RemoveWhitespace(number)))
  }

  /** Fewer than four digits are left as they are. */
  lemma {:induction false} GroupFoursShortDigits(s: string)
    requires AllDigits(s) && |s| < 4
    ensures GroupFours(s) == s
    decreases |s|
  {
    if s != [] {
      GroupFoursShortDigits(s[1..]);
    }
  }

  /** On a string of digits the replace puts a space after every complete
      group of four: output position `i` is the space closing group `i / 5`
      when `i % 5 == 4`, and otherwise the input digit `i - i / 5`. */
  lemma {:induction false} GroupFoursOfDigits(s: string)
    requires AllDigits(s)
    ensures var r := GroupFours(s);
      && |r| == |s| + |s| / 4
      && (forall i | 0 <= i < |r| :: i % 5 == 4 ==> r[i] == ' ')
      && (forall i | 0 <= i < |r| :: i % 5 != 4 ==> r[i] == s[i - i / 5])
    decreases |s|
  {
    var r := GroupFours(s);
    if |s| < 4 {
      GroupFoursShortDigits(s);
      forall i | 0 <= i < |r|
        ensures i % 5 == i && i / 5 == 0
      {
        Block(0, i);
      }
    } else {
      assert AllDigits(s[..4]);
      var rest := GroupFours(s[4..]);
      GroupFoursOfDigits(s[4..]);
      assert r == s[..4] + " " + rest;
      assert |r| == |s| + |s| / 4;
      forall i | 0 <= i < |r|
        ensures i % 5 == 4 ==> r[i] == ' '
        ensures i % 5 != 4 ==> r[i] == s[i - i / 5]
      {
        var q, j := i / 5, i % 5;
        assert i == 5 * q + j;
        if q == 0 {
          assert r[i] == (s[..4] + " ")[i];
        } else {
          Block(q - 1, j);
          assert r[i] == rest[i - 5];
        }
      }
    }
  }

  /** `trim()` leaves a string with no whitespace at either end as it is. */
  lemma TrimNoEdges(t: string)
    requires t == [] || (!IsWhitespace(t[0]) && !IsWhitespace(t[|t| - 1]))
    ensures Trim(t) == t
  {
  }

  /** `trim()` drops one trailing space after a string with no whitespace at
      either end. */
  lemma TrimDropsTrailingSpace(x: string)
    requires x != [] && !IsWhitespace(x[0]) && !IsWhitespace(x[|x| - 1])
    ensures Trim(x + " ") == x
  {
    var t := x + " ";
    assert TrimStart(t) == t;
    assert t[..|t| - 1] == x;
    assert TrimEnd(t) == TrimEnd(x) == x;
  }

  /** For a card number typed as digits only, the formatted number is the
      digits in groups of four separated by single spaces: the grouping above,
      without the space after a last complete group. */
  lemma FormatCardNumberOfDigits(s: string)
    requires AllDigits(s)
    ensures var g := GroupFours(s);
      FormatCardNumber(s) == if |s| > 0 && |s| % 4 == 0 then g[..|g| - 1] else g
  {
    FormatCardNumberOfClean(s);
    var g := GroupFours(s);
    if s == [] {
      TrimNoEdges(g);
    } else {
      GroupFoursTrimmed(s);
    }
  }

  /** A number without whitespace is formatted by grouping and trimming alone. */
  lemma FormatCardNumberOfClean(s: string)
    requires AllDigits(s)
    ensures FormatCardNumber(s) == Trim(GroupFours(s))
  {
    RemoveWhitespaceNoop(s);
  }

  lemma GroupFoursTrimmed(s: string)
    requires AllDigits(s) && s != []
    ensures var g := GroupFours(s);
      Trim(g) == if |s| % 4 == 0 then g[..|g| - 1] else g
  {
    var g := GroupFours(s);
    GroupFoursEdges(s);
    DigitNotWhitespace(s[0]);
    DigitNotWhitespace(s[|s| - 1]);
    if |s| % 4 == 0 {
      var x := g[..|g| - 1];
      assert g == x + " ";
      assert x[0] == s[0] && x[|x| - 1] == s[|s| - 1];
      TrimDropsTrailingSpace(x);
    } else {
      TrimNoEdges(g);
    }
  }

  /** One position of the grouping of a digit string: position `j` of group
      `q` is the space closing the group when `j == 4`, and otherwise input
      digit `4 * q + j`. */
  lemma GroupFoursAt(s: string, q: nat, j: nat)
    requires AllDigits(s) && j < 5 && 5 * q + j < |s| + |s| / 4
    ensures |GroupFours(s)| == |s| + |s| / 4
    ensures j == 4 ==> GroupFours(s)[5 * q + j] == ' '
    ensures j < 4 ==> 4 * q + j < |s| && GroupFours(s)[5 * q + j] == s[4 * q + j]
  {
    GroupFoursOfDigits(s);
    Block(q, j);
    var i := 5 * q + j;
    assert i / 5 == q && i % 5 == j;
  }

  /** The edges of the grouping of a digit string: it starts with the first
      digit, and it ends with the last digit, or with a space right after it
      when the last group is complete. */
  lemma GroupFoursEdges(s: string)
    requires AllDigits(s) && s != []
    ensures var g := GroupFours(s);
      && |g| == |s| + |s| / 4
      && g[0] == s[0]
      && (|s| % 4 == 0 ==> |g| >= 2 && g[|g| - 1] == ' ' && g[|g| - 2] == s[|s| - 1])
      && (|s| % 4 != 0 ==> g[|g| - 1] == s[|s| - 1])
  {
    var q, m := |s| / 4, |s| % 4;
    assert |s| == 4 * q + m;
    GroupFoursAt(s, 0, 0);
    if m == 0 {
      GroupFoursAt(s, q - 1, 4);
      GroupFoursAt(s, q - 1, 3);
    } else {
      GroupFoursAt(s, q, m - 1);
    }
  }

  lemma DigitNotWhitespace(c: char)
    requires IsDigit(c)
    ensures !IsWhitespace(c)
  {
  }

  /** Position `j` of block `q` of five. */
  lemma Block(q: int, j: int)
    requires 0 <= j < 5
    ensures (5 * q + j) / 5 == q && (5 * q + j) % 5 == j
  {
  }

  /** A sixteen-digit number comes out as four groups of four. */
  lemma FormatCardNumberSixteen(s: string)
    requires |s| == 16 && AllDigits(s)
    ensures FormatCardNumber(s) == s[..4] + " " + s[4..8] + " " + s[8..12] + " " + s[12..]
  {
    assert s[4..][4..] == s[8..] && s[8..][4..] == s[12..] && s[12..][4..] == [];
    assert AllDigits(s[..4]) && AllDigits(s[4..][..4]) && AllDigits(s[8..][..4]) && AllDigits(s[12..][..4]);
    var g := GroupFours(s);
    assert GroupFours(s[12..]) == s[12..] + " ";
    assert GroupFours(s[8..]) == s[8..12] + " " + s[12..] + " ";
    assert GroupFours(s[4..]) == s[4..8] + " " + s[8..12] + " " + s[12..] + " ";
    assert g == s[..4] + " " + s[4..8] + " " + s[8..12] + " " + s[12..] + " ";
    FormatCardNumberOfDigits(s);
    GroupFoursEdges(s);
  }

  /** The Visa test pattern, a 4 followed by fifteen 1s, comes out as
      "4111 1111 1111 1111". */
  lemma FormatCardNumberVisaTestPattern(s: string)
    requires |s| == 16 && s[0] == '4' && forall i | 1 <= i < 16 :: s[i] == '1'
    ensures FormatCardNumber(s) == "4111 1111 1111 1111"
  {
    assert AllDigits(s);
    FormatCardNumberSixteen(s);
    assert s[..4] == "4111";
    FourOnes(s, 4);
    FourOnes(s, 8);
    FourOnes(s, 12);
    assert s[12..] == s[12..16];
  }

  lemma FourOnes(s: string, k: nat)
    requires k + 4 <= |s| && forall i | k <= i < k + 4 :: s[i] == '1'
    ensures s[k..k + 4] == "1111"
  {
  }

  lemma FormatCardNumberExample()
    ensures FormatCardNumber("4111111111111111") == "4111 1111 1111 1111"
  {
    FormatCardNumberVisaTestPattern("4111111111111111");
  }

  lemma {:induction false} GroupFoursAddsOnlySpaces(s: string)
    ensures RemoveWhitespace(GroupFours(s)) == RemoveWhitespace(s)
    decreases |s|
  {
    if |s| >= 4 && AllDigits(s[..4]) {
      GroupFoursAddsOnlySpaces(s[4..]);
      RemoveWhitespaceConcat(s[..4] + " ", GroupFours(s[4..]));
      RemoveWhitespaceConcat(s[..4], " ");
      assert RemoveWhitespace(" ") == [];
      assert s == s[..4] + s[4..];
      RemoveWhitespaceConcat(s[..4], s[4..]);
    } else if s != [] {
      GroupFoursAddsOnlySpaces(s[1..]);
      RemoveWhitespaceConcat([s[0]], GroupFours(s[1..]));
      assert s == [s[0]] + s[1..];
      RemoveWhitespaceConcat([s[0]], s[1..]);
    }
  }

  /** Removing the spaces from the formatted number gives back the number
      without its whitespace. */
  lemma FormatCardNumberKeepsCharacters(number: string)
    ensures RemoveWhitespace(FormatCardNumber(number)) == RemoveWhitespace(number)
  {
    var clean := RemoveWhitespace(number);
    TrimKeepsNonWhitespace(GroupFours(clean));
    GroupFoursAddsOnlySpaces(clean);
    RemoveWhitespaceIdempotent(number);
  }

  /** Formatting an already formatted number changes nothing. */
  lemma FormatCardNumberIdempotent(number: string)
    ensures FormatCardNumber(FormatCardNumber(number)) == FormatCardNumber(number)
  {
    FormatCardNumberKeepsCharacters(number);
  }

  /** `value.replace(/\D+/g, '')`: every character but `0`-`9` removed. */
  function KeepDigits(s: string): (r: string)
    ensures |r| <= |s| && AllDigits(r)
    decreases |s|
  {
    if s == [] then []
    else if IsDigit(s[0]) then [s[0]] + KeepDigits(s[1..])
    else KeepDigits(s[1..])
  }

  lemma {:induction false} KeepDigitsConcat(a: string, b: string)
    ensures KeepDigits(a + b) == KeepDigits(a) + KeepDigits(b)
    decreases |a|
  {
    if a != [] {
      assert (a + b)[0] == a[0];
      assert (a + b)[1..] == a[1..] + b;
      KeepDigitsConcat(a[1..], b);
      if IsDigit(a[0]) {
        calc {
          KeepDigits(a + b);
          [a[0]] + KeepDigits(a[1..] + b);
          [a[0]] + (KeepDigits(a[1..]) + KeepDigits(b));
          ([a[0]] + KeepDigits(a[1..])) + KeepDigits(b);
        }
      }
    } else {
      assert a + b == b;
    }
  }

  lemma {:induction false} KeepDigitsNoop(s: string)
    requires AllDigits(s)
    ensures KeepDigits(s) == s
    decreases |s|
  {
    if s != [] {
      KeepDigitsNoop(s[1..]);
    }
  }

  /** A string without any digit disappears. */
  lemma {:induction false} KeepDigitsAllNonDigits(s: string)
    requires forall i | 0 <= i < |s| :: !IsDigit(s[i])
    ensures KeepDigits(s) == []
    decreases |s|
  {
    if s != [] {
      KeepDigitsAllNonDigits(s[1..]);
    }
  }

  function Min(a: int, b: int): int { if a < b then a else b }

  /** `formatExpiry`: the digits, with a `/` after the first two and at most
      two digits after it. */
  function FormatExpiry(value: string): (r: string)
    ensures var c := KeepDigits(value);
      || (|c| < 2 && r == c)
      || (|c| >= 2 && 3 <= |r| <= 5 && r[2] == '/' && AllDigits(r[..2]) && AllDigits(r[3..]))
  {
    var clean := KeepDigits(value);
    if |clean| >= 2 then clean[..2] + "/" + clean[2..Min(4, |clean|)] else clean
  }

  /** The digits of the formatted expiry are the first four digits typed. */
  lemma FormatExpiryKeepsDigits(value: string)
    ensures var c := KeepDigits(value); KeepDigits(FormatExpiry(value)) == c[..Min(4, |c|)]
  {
    var c := KeepDigits(value);
    if |c| >= 2 {
      var k := Min(4, |c|);
      KeepDigitsConcat(c[..2] + "/", c[2..k]);
      KeepDigitsConcat(c[..2], "/");
      KeepDigitsNoop(c[..2]);
      KeepDigitsNoop(c[2..k]);
      assert c[..2] + c[2..k] == c[..k];
    } else {
      KeepDigitsNoop(c);
    }
  }

  /** Formatting an already formatted expiry changes nothing. */
  lemma FormatExpiryIdempotent(value: string)
    ensures FormatExpiry(FormatExpiry(value)) == FormatExpiry(value)
  {
    FormatExpiryKeepsDigits(value);
    var c := KeepDigits(value);
    if |c| >= 2 {
      var d := c[..Min(4, |c|)];
      assert d[..2] == c[..2];
      assert d[2..Min(4, |d|)] == c[2..Min(4, |c|)];
    }
  }
}
