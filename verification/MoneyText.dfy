/** Amounts as text: two printers that must agree, and the parser that reads their output back. */
module MoneyText {
  import opened Base
  import opened Money

  /** Decimal places of a currency's minor unit. */
  function Exponent(c: Currency): nat { 2 }

  function Pow10(n: nat): (p: nat)
    ensures p >= 1
  {
    if n == 0 then 1 else 10 * Pow10(n - 1)
  }

  // ---------- digits ----------

  function DigitChar(d: nat): char
    requires d < 10
  {
    "0123456789"[d]
  }

  predicate IsDigit(c: char) { '0' <= c <= '9' }

  function DigitOf(c: char): nat
    requires IsDigit(c)
  {
    c as int - '0' as int
  }

  /** A natural number in decimal, without leading zeros. */
  function Digits(n: nat): (s: string)
    ensures |s| >= 1
  {
    if n < 10 then [DigitChar(n)] else Digits(n / 10) + [DigitChar(n % 10)]
  }

  function Zeros(n: nat): (s: string)
    ensures |s| == n && forall i :: 0 <= i < n ==> s[i] == '0'
  {
    if n == 0 then "" else Zeros(n - 1) + "0"
  }

  /** Zeros in front up to a width; longer texts are left as they are. */
  function WithZeros(digits: string, width: nat): string
  {
    if |digits| < width then Zeros(width - |digits|) + digits else digits
  }

  /** A number padded with zeros to a width. */
  function Padded(n: nat, width: nat): string { WithZeros(Digits(n), width) }

  /** A wider field grows on the left, one digit at a time. */
  lemma PaddedStep(n: nat, width: nat)
    requires width >= 2
    ensures Padded(n, width) == Padded(n / 10, width - 1) + [DigitChar(n % 10)]
  {
    if n < 10 {
      assert Digits(n / 10) == "0";
      assert Zeros(width - 1) == Zeros(width - 2) + "0";
    } else {
      OneMoreDigit(Digits(n / 10), width, DigitChar(n % 10));
    }
  }

  lemma OneMoreDigit(digits: string, width: nat, digit: char)
    requires width >= 1
    ensures WithZeros(digits + [digit], width) == WithZeros(digits, width - 1) + [digit]
  {
    if |digits| < width - 1 {
      var zeros := Zeros(width - 1 - |digits|);
      assert (zeros + digits) + [digit] == zeros + (digits + [digit]);
    }
  }

  lemma {:induction false} PaddedLength(n: nat, width: nat)
    requires width >= 1 && n < Pow10(width)
    ensures |Padded(n, width)| == width
    decreases width
  {
    if width >= 2 {
      PaddedStep(n, width);
      PaddedLength(n / 10, width - 1);
    }
  }

  // ---------- the two printers ----------

  /** Pad the digits to one more than the places, and cut them there. */
  function Receipt(minor: I64, places: nat): string
  {
    var padded := Padded(Abs(minor), places + 1);
    var cut := if |padded| >= places then |padded| - places else 0;
    var sign := if minor < 0 then "-" else "";
    if places == 0 then sign + padded[..cut] else sign + padded[..cut] + "." + padded[cut..]
  }

  function Quotient(n: nat, d: nat): nat
    requires d >= 1
  {
    n / d
  }

  function Remainder(n: nat, d: nat): nat
    requires d >= 1
  {
    n % d
  }

  /** Divide by the minor units of a major one, and pad the remainder. */
  function Fiscal(minor: I64, places: nat): string
  {
    var sign := if minor < 0 then "-" else "";
    var major := Quotient(Abs(minor), Pow10(places));
    var rest := Remainder(Abs(minor), Pow10(places));
    if places == 0 then sign + Digits(major) else sign + Digits(major) + "." + Padded(rest, places)
  }

  /** The digits of a number before its last few, and those last few, taken off one at a time. */
  function Front(n: nat, places: nat): nat { if places == 0 then n else Front(n / 10, places - 1) }

  function Back(n: nat, places: nat): nat { if places == 0 then 0 else 10 * Back(n / 10, places - 1) + n % 10 }

  lemma {:induction false} FrontAndBack(n: nat, places: nat)
    ensures n == Front(n, places) * Pow10(places) + Back(n, places)
    ensures Back(n, places) < Pow10(places)
    decreases places
  {
    if places > 0 {
      FrontAndBack(n / 10, places - 1);
      Tenfold(Front(n, places), Pow10(places - 1));
    }
  }

  lemma Tenfold(a: nat, b: nat)
    ensures 10 * (a * b) == a * (10 * b)
  {
  }

  lemma UniqueDivision(n: nat, d: nat, q: nat, r: nat)
    requires d >= 1 && n == q * d + r && r < d
    ensures Quotient(n, d) == q && Remainder(n, d) == r
  {
    var p := n / d;
    assert n == p * d + n % d;
    if p < q {
      Gap(p, q, d);
    } else if p > q {
      Gap(q, p, d);
    }
  }

  lemma Gap(p: nat, q: nat, d: nat)
    requires p < q
    ensures p * d + d <= q * d
  {
    Nonneg(q - p - 1, d);
    assert q * d == p * d + (q - p - 1) * d + d;
  }

  lemma DivisionIsFrontAndBack(n: nat, places: nat)
    ensures Quotient(n, Pow10(places)) == Front(n, places) && Remainder(n, Pow10(places)) == Back(n, places)
  {
    FrontAndBack(n, places);
    UniqueDivision(n, Pow10(places), Front(n, places), Back(n, places));
  }

  predicate CutsTo(text: string, places: nat, whole: string, fraction: string)
  {
    |text| > places && text[..|text| - places] == whole && text[|text| - places..] == fraction
  }

  lemma OneMorePlace(text: string, places: nat, whole: string, fraction: string, c: char)
    requires CutsTo(text, places, whole, fraction)
    ensures CutsTo(text + [c], places + 1, whole, fraction + [c])
  {
    var longer := text + [c];
    assert longer[..|longer| - (places + 1)] == text[..|text| - places];
    assert longer[|longer| - (places + 1)..] == text[|text| - places..] + [c];
  }

  /** Cutting the padded digits is dividing by the power of ten. */
  lemma {:induction false} CutIsDivision(n: nat, places: nat)
    requires places >= 1
    ensures CutsTo(Padded(n, places + 1), places, Digits(Front(n, places)), Padded(Back(n, places), places))
    decreases places
  {
    PaddedStep(n, places + 1);
    var c := DigitChar(n % 10);
    if places == 1 {
      OneDigit(n / 10);
      OneDigit(n % 10);
      OnePlace(n);
      OneMorePlace(Digits(n / 10), 0, Digits(n / 10), "", c);
      assert "" + [c] == [c] == Digits(n % 10);
    } else {
      CutIsDivision(n / 10, places - 1);
      OneMorePlace(Padded(n / 10, places), places - 1, Digits(Front(n / 10, places - 1)),
                   Padded(Back(n / 10, places - 1), places - 1), c);
      NextPlace(n, places);
    }
  }

  lemma OnePlace(n: nat)
    ensures Front(n, 1) == n / 10 && Back(n, 1) == n % 10
  {
    assert Front(n / 10, 0) == n / 10 && Back(n / 10, 0) == 0;
  }

  lemma OneDigit(n: nat)
    ensures Padded(n, 1) == Digits(n) && CutsTo(Digits(n), 0, Digits(n), "")
  {
  }

  lemma NextPlace(n: nat, places: nat)
    requires places >= 2
    ensures Front(n, places) == Front(n / 10, places - 1)
    ensures Padded(Back(n, places), places) == Padded(Back(n / 10, places - 1), places - 1) + [DigitChar(n % 10)]
  {
    TenTimes(Back(n / 10, places - 1), n % 10);
    PaddedStep(Back(n, places), places);
  }

  lemma TenTimes(b: nat, r: nat)
    requires r < 10
    ensures (10 * b + r) / 10 == b && (10 * b + r) % 10 == r
  {
  }

  /** The receipt and the fiscal document show the same text for every amount. */
  lemma PrintersAgree(minor: I64, places: nat)
    ensures Receipt(minor, places) == Fiscal(minor, places)
  {
    var n := Abs(minor);
    if places == 0 {
      assert Padded(n, 1) == Digits(n);
      assert Digits(n)[..|Digits(n)|] == Digits(n);
    } else {
      CutIsDivision(n, places);
      ReceiptAtTheCut(minor, places, Digits(Front(n, places)), Padded(Back(n, places), places));
      DivisionIsFrontAndBack(n, places);
    }
  }

  lemma ReceiptAtTheCut(minor: I64, places: nat, whole: string, fraction: string)
    requires places >= 1 && CutsTo(Padded(Abs(minor), places + 1), places, whole, fraction)
    ensures Receipt(minor, places) == (if minor < 0 then "-" else "") + whole + "." + fraction
  {
  }

  // ---------- parsing ----------

  datatype PriceError = PriceRequired | TooManyPlaces | NotANumber | Negative | TooLarge

  predicate IsPriceChar(c: char) { IsDigit(c) || c == '.' || c == '-' }

  /** Keep what can be part of a price; separators and symbols go. */
  function Cleaned(raw: string): string
  {
    if raw == "" then ""
    else
      var last := raw[|raw| - 1];
      Cleaned(raw[..|raw| - 1]) + if IsPriceChar(last) then [last] else ""
  }

  /** Before and after the first point; all of it and nothing where there is none. */
  function SplitOnce(s: string): (string, string)
  {
    if s == "" then ("", "")
    else if s[0] == '.' then ("", s[1..])
    else
      var (whole, fraction) := SplitOnce(s[1..]);
      ([s[0]] + whole, fraction)
  }

  predicate AllDigits(s: string) { forall i :: 0 <= i < |s| ==> IsDigit(s[i]) }

  function Value(s: string): nat
    requires AllDigits(s)
  {
    if s == "" then 0 else Value(s[..|s| - 1]) * 10 + DigitOf(s[|s| - 1])
  }

  /** `str::parse::<i64>`: an optional sign, then at least one digit, in range. */
  function ParseI64(s: string): Option<I64>
  {
    var signed := s != "" && (s[0] == '-' || s[0] == '+');
    var body := if signed then s[1..] else s;
    if body == "" || !AllDigits(body) then None
    else
      var value := if signed && s[0] == '-' then 0 - Value(body) else Value(body);
      if FitsI64(value) then Some(value) else None
  }

  function ParseMoney(raw: string, places: nat): Result<I64, PriceError>
  {
    var cleaned := Cleaned(raw);
    if cleaned == "" then Err(PriceRequired)
    else
      var (whole, fraction) := SplitOnce(cleaned);
      ParseParts(whole, fraction, cleaned[0] == '-', places)
  }

  function ParseParts(whole: string, fraction: string, minus: bool, places: nat): Result<I64, PriceError>
  {
    if |fraction| > places then Err(TooManyPlaces)
    else
      var major := ParseI64(whole);
      var minor := if fraction == "" then Some(0) else ParseI64(fraction + Zeros(places - |fraction|));
      if major.None? || minor.None? then Err(NotANumber)
      else if major.value < 0 || minus then Err(Negative)
      else Total(major.value, minor.value, places)
  }

  /** Both steps of the total are checked. */
  function Total(major: I64, minor: I64, places: nat): Result<I64, PriceError>
  {
    var scaled := major * Pow10(places);
    if !FitsI64(scaled) || !FitsI64(scaled + minor) then Err(TooLarge) else Ok(scaled + minor)
  }

  // ---------- reading back what was printed ----------

  lemma {:induction false} CleanedKeeps(s: string)
    requires forall i :: 0 <= i < |s| ==> IsPriceChar(s[i])
    ensures Cleaned(s) == s
  {
    if s != "" {
      CleanedKeeps(s[..|s| - 1]);
    }
  }

  lemma {:induction false} SplitAtThePoint(whole: string, fraction: string)
    requires AllDigits(whole)
    ensures SplitOnce(whole + "." + fraction) == (whole, fraction)
  {
    var s := whole + "." + fraction;
    if whole == "" {
      assert s[1..] == fraction;
    } else {
      assert s[1..] == whole[1..] + "." + fraction;
      SplitAtThePoint(whole[1..], fraction);
      assert [whole[0]] + whole[1..] == whole;
    }
  }

  lemma {:induction false} NoPoint(whole: string)
    requires AllDigits(whole)
    ensures SplitOnce(whole) == (whole, "")
  {
    if whole != "" {
      NoPoint(whole[1..]);
      assert [whole[0]] + whole[1..] == whole;
    }
  }

  lemma {:induction false} DigitsHaveTheirValue(n: nat)
    ensures AllDigits(Digits(n)) && Value(Digits(n)) == n
  {
    if n >= 10 {
      DigitsHaveTheirValue(n / 10);
      var s := Digits(n);
      assert s[..|s| - 1] == Digits(n / 10);
    } else {
      assert Digits(n)[..0] == "";
    }
  }

  lemma {:induction false} ZerosInFront(k: nat, s: string)
    requires AllDigits(s)
    ensures AllDigits(Zeros(k) + s) && Value(Zeros(k) + s) == Value(s)
  {
    var t := Zeros(k) + s;
    if s == "" {
      if k > 0 {
        ZerosInFront(k - 1, "");
        assert t[..|t| - 1] == Zeros(k - 1) + "";
      } else {
        assert t == "";
      }
    } else {
      ZerosInFront(k, s[..|s| - 1]);
      assert t[..|t| - 1] == Zeros(k) + s[..|s| - 1];
    }
  }

  lemma ZerosKeepTheValue(digits: string, width: nat)
    requires AllDigits(digits)
    ensures AllDigits(WithZeros(digits, width)) && Value(WithZeros(digits, width)) == Value(digits)
  {
    if |digits| < width {
      ZerosInFront(width - |digits|, digits);
    }
  }

  lemma PaddedHasItsValue(n: nat, width: nat)
    ensures AllDigits(Padded(n, width)) && Value(Padded(n, width)) == n
  {
    DigitsHaveTheirValue(n);
    ZerosKeepTheValue(Digits(n), width);
  }

  lemma ParsesTo(s: string, value: nat)
    requires AllDigits(s) && s != "" && Value(s) == value <= I64_MAX
    ensures ParseI64(s) == Some(value)
  {
    assert IsDigit(s[0]);
  }

  lemma PartsReadBack(whole: string, fraction: string, places: nat, major: nat, minor: nat)
    requires AllDigits(whole) && whole != "" && Value(whole) == major
    requires AllDigits(fraction) && |fraction| == places && Value(fraction) == minor && places >= 1
    requires 0 <= major <= major * Pow10(places) && major * Pow10(places) + minor <= I64_MAX
    ensures ParseParts(whole, fraction, false, places) == Ok(major * Pow10(places) + minor)
  {
    ParsesTo(whole, major);
    assert fraction + Zeros(0) == fraction;
    ParsesTo(fraction, minor);
  }

  /** A text of digits, or of digits, a point and as many digits as there are places. */
  lemma WellFormedReadsBack(whole: string, fraction: string, places: nat, major: nat, minor: nat)
    requires AllDigits(whole) && whole != "" && Value(whole) == major
    requires AllDigits(fraction) && |fraction| == places && Value(fraction) == minor && places >= 1
    requires 0 <= major <= major * Pow10(places) && major * Pow10(places) + minor <= I64_MAX
    ensures ParseMoney(whole + "." + fraction, places) == Ok(major * Pow10(places) + minor)
  {
    PartsReadBack(whole, fraction, places, major, minor);
    SplitAtThePoint(whole, fraction);
    CleanedKeeps(whole + "." + fraction);
    assert IsDigit((whole + "." + fraction)[0]);
  }

  lemma WholeReadsBack(whole: string, major: nat)
    requires AllDigits(whole) && whole != "" && Value(whole) == major <= I64_MAX
    ensures ParseMoney(whole, 0) == Ok(major)
  {
    NoPoint(whole);
    CleanedKeeps(whole);
    ParsesTo(whole, major);
    assert major * Pow10(0) == major;
  }

  lemma AtLeastItself(a: nat, b: nat)
    requires b >= 1
    ensures a <= a * b
  {
    Nonneg(a, b - 1);
    assert a * b == a * (b - 1) + a;
  }

  /** The fiscal text by the digits in front of the point and behind it. */
  function ByDigits(minor: I64, places: nat): string
  {
    var sign := if minor < 0 then "-" else "";
    var front, back := Front(Abs(minor), places), Back(Abs(minor), places);
    if places == 0 then sign + Digits(front) else sign + Digits(front) + "." + Padded(back, places)
  }

  lemma FiscalByDigits(minor: I64, places: nat)
    ensures Fiscal(minor, places) == ByDigits(minor, places)
  {
    DivisionIsFrontAndBack(Abs(minor), places);
  }

  lemma DigitsReadBack(minor: I64, places: nat)
    requires minor >= 0
    ensures ParseMoney(ByDigits(minor, places), places) == Ok(minor)
  {
    if places == 0 {
      DigitsHaveTheirValue(minor);
      WholeText(minor);
      WholeReadsBack(Digits(minor), minor);
    } else {
      FrontAndBack(minor, places);
      PointText(minor, places);
      PointReadsBack(minor, places, Front(minor, places), Back(minor, places), ByDigits(minor, places));
    }
  }

  lemma WholeText(minor: I64)
    requires minor >= 0
    ensures ByDigits(minor, 0) == Digits(minor)
  {
    assert Abs(minor) == minor;
    assert "" + Digits(minor) == Digits(minor);
  }

  lemma PointText(minor: I64, places: nat)
    requires minor >= 0 && places >= 1
    ensures ByDigits(minor, places) == Digits(Front(minor, places)) + "." + Padded(Back(minor, places), places)
  {
    assert Abs(minor) == minor;
    assert "" + Digits(Front(minor, places)) == Digits(Front(minor, places));
  }

  lemma PointReadsBack(minor: I64, places: nat, front: nat, back: nat, text: string)
    requires places >= 1 && back < Pow10(places) && minor == front * Pow10(places) + back
    requires text == Digits(front) + "." + Padded(back, places)
    ensures ParseMoney(text, places) == Ok(minor)
  {
    DigitsHaveTheirValue(front);
    PaddedHasItsValue(back, places);
    PaddedLength(back, places);
    AtLeastItself(front, Pow10(places));
    WellFormedReadsBack(Digits(front), Padded(back, places), places, front, back);
  }

  /** A printed amount that is not negative reads back as exactly itself. */
  lemma PrintedReadsBack(minor: I64, places: nat)
    requires minor >= 0
    ensures ParseMoney(Fiscal(minor, places), places) == Ok(minor)
  {
    FiscalByDigits(minor, places);
    DigitsReadBack(minor, places);
  }

  lemma SignInFront(front: string, back: string)
    ensures "-" + front == "-" + ("" + front)
    ensures "-" + front + "." + back == "-" + ("" + front + "." + back)
  {
  }

  lemma ByDigitsNegated(minor: I64, places: nat)
    requires I64_MIN < minor < 0
    ensures ByDigits(minor, places) == "-" + ByDigits(0 - minor, places)
  {
    var n := 0 - minor;
    assert Abs(minor) == n == Abs(n);
    SignInFront(Digits(Front(n, places)), Padded(Back(n, places), places));
  }

  /** One text of an amount, whichever printer made it. */
  predicate Prints(text: string, minor: I64, places: nat)
  {
    text == Fiscal(minor, places) && text == Receipt(minor, places)
  }

  lemma BothPrintByDigits(minor: I64, places: nat)
    ensures Prints(ByDigits(minor, places), minor, places)
  {
    PrintersAgree(minor, places);
    FiscalByDigits(minor, places);
  }

  /** A negative amount is printed as a minus and then the amount without it. */
  lemma NegativeIsAMinusInFront(minor: I64, places: nat, text: string)
    requires I64_MIN < minor < 0 && Prints(text, 0 - minor, places)
    ensures Prints("-" + text, minor, places)
  {
    BothPrintByDigits(minor, places);
    BothPrintByDigits(0 - minor, places);
    ByDigitsNegated(minor, places);
  }

  /** Two decimals in every currency: the hundreds in front of the point, and the last two digits behind it. */
  lemma TwoDecimals(minor: I64, c: Currency)
    requires minor >= 0
    ensures Receipt(minor, Exponent(c))
         == Digits(minor / 10 / 10) + "." + ([DigitChar(minor / 10 % 10)] + [DigitChar(minor % 10)])
  {
    PrintersAgree(minor, 2);
    FiscalByDigits(minor, 2);
    PointText(minor, 2);
    TwoPlaces(minor);
  }

  lemma TwoPlaces(n: nat)
    ensures Front(n, 2) == n / 10 / 10
    ensures Padded(Back(n, 2), 2) == [DigitChar(n / 10 % 10)] + [DigitChar(n % 10)]
  {
    OnePlace(n / 10);
    LastTwo(n / 10 % 10, n % 10);
  }

  lemma LastTwo(tens: nat, ones: nat)
    requires tens < 10 && ones < 10
    ensures Padded(10 * tens + ones, 2) == [DigitChar(tens)] + [DigitChar(ones)]
  {
    TenTimes(tens, ones);
    PaddedStep(10 * tens + ones, 2);
  }

  lemma LeadingMinusIsRefused(text: string, places: nat)
    requires text != "" && text[0] == '-' && forall i :: 0 <= i < |text| ==> IsPriceChar(text[i])
    ensures ParseMoney(text, places).Err?
  {
    CleanedKeeps(text);
  }

  /** A printed negative amount is refused. */
  lemma PrintedNegativeIsRefused(minor: I64, places: nat)
    requires minor < 0
    ensures ParseMoney(Fiscal(minor, places), places).Err?
  {
    FiscalByDigits(minor, places);
    DigitsHaveTheirValue(Front(Abs(minor), places));
    PaddedHasItsValue(Back(Abs(minor), places), places);
    LeadingMinusIsRefused(ByDigits(minor, places), places);
  }

  /** The three texts of the program agree on every amount of every currency. */
  lemma ThreeTextsAgree(a: Amount)
    ensures Receipt(a.minor, Exponent(a.currency)) == Fiscal(a.minor, Exponent(a.currency))
    ensures ParseMoney(Receipt(a.minor, Exponent(a.currency)), Exponent(a.currency)) == Ok(a.minor) <==> a.minor >= 0
  {
    PrintersAgree(a.minor, Exponent(a.currency));
    if a.minor >= 0 {
      PrintedReadsBack(a.minor, Exponent(a.currency));
    } else {
      PrintedNegativeIsRefused(a.minor, Exponent(a.currency));
    }
  }

  /** Two amounts of one currency never share a text. */
  lemma TextIdentifiesTheAmount(x: I64, y: I64, places: nat)
    requires x >= 0 && y >= 0 && Receipt(x, places) == Receipt(y, places)
    ensures x == y
  {
    PrintersAgree(x, places);
    PrintersAgree(y, places);
    PrintedReadsBack(x, places);
    PrintedReadsBack(y, places);
  }

  // ---------- what is read ----------

  lemma {:induction false} CleanedAppends(a: string, b: string)
    ensures Cleaned(a + b) == Cleaned(a) + Cleaned(b)
  {
    if b == "" {
      assert a + b == a;
    } else {
      var n := |b| - 1;
      CleanedAppends(a, b[..n]);
      assert (a + b)[..|a| + n] == a + b[..n];
    }
  }

  /** Whatever is not a digit, a point or a minus is read over: spaces, symbols, separators. */
  lemma SymbolsAreReadOver(a: string, c: char, b: string, places: nat)
    requires !('0' <= c <= '9') && c != '.' && c != '-'
    ensures ParseMoney(a + [c] + b, places) == ParseMoney(a + b, places)
  {
    CleanedAppends(a + [c], b);
    CleanedAppends(a, [c]);
    CleanedAppends(a, b);
    assert [c][..0] == "" && Cleaned([c]) == "";
    assert Cleaned(a) + "" == Cleaned(a);
    CleanedDecides(a + [c] + b, a + b, places);
  }

  lemma CleanedDecides(x: string, y: string, places: nat)
    requires Cleaned(x) == Cleaned(y)
    ensures ParseMoney(x, places) == ParseMoney(y, places)
  {
  }

  /** What stands before the first point, and what behind it. */
  lemma {:induction false} SplitOnceMeans(s: string)
    ensures var (whole, fraction) := SplitOnce(s);
            && (forall i :: 0 <= i < |whole| ==> whole[i] != '.')
            && (s == whole + "." + fraction || (s == whole && fraction == ""))
  {
    if s != "" && s[0] != '.' {
      SplitOnceMeans(s[1..]);
    }
  }

  lemma {:induction false} ZerosBehind(s: string, k: nat)
    requires AllDigits(s)
    ensures AllDigits(s + Zeros(k)) && Value(s + Zeros(k)) == Value(s) * Pow10(k)
  {
    if k == 0 {
      assert s + Zeros(0) == s;
    } else {
      ZerosBehind(s, k - 1);
      var t := s + Zeros(k);
      assert t[..|t| - 1] == s + Zeros(k - 1) && t[|t| - 1] == '0';
      TenOfEach(Value(s), Pow10(k - 1));
    }
  }

  lemma TenOfEach(a: nat, p: nat)
    ensures a * p * 10 == a * (10 * p)
  {
  }

  /** The fraction in minor units: its digits moved up to the places, or that below zero after a minus. */
  function FractionValue(fraction: string, places: nat): Option<int>
    requires |fraction| <= places
  {
    var pad := Pow10(places - |fraction|);
    if AllDigits(fraction) then Some(Value(fraction) * pad)
    else if fraction[0] == '-' && AllDigits(fraction[1..]) && places > 1 then Some(0 - Value(fraction[1..]) * pad)
    else None
  }

  lemma FractionIsRead(fraction: string, places: nat)
    requires |fraction| <= places && fraction != "" && fraction[0] != '+'
    ensures var padded, v := ParseI64(fraction + Zeros(places - |fraction|)), FractionValue(fraction, places);
            padded == if v.Some? && FitsI64(v.value) then Some(v.value) else None
  {
    var k := places - |fraction|;
    var padded := fraction + Zeros(k);
    assert padded[0] == fraction[0];
    if fraction[0] == '-' {
      assert !AllDigits(fraction);
      assert padded[1..] == fraction[1..] + Zeros(k);
      DigitsOfPadded(fraction[1..], k);
    } else {
      DigitsOfPadded(fraction, k);
    }
  }

  lemma DigitsOfPadded(s: string, k: nat)
    ensures AllDigits(s + Zeros(k)) <==> AllDigits(s)
    ensures AllDigits(s) ==> Value(s + Zeros(k)) == Value(s) * Pow10(k)
  {
    if AllDigits(s) {
      ZerosBehind(s, k);
    } else {
      var i :| 0 <= i < |s| && !IsDigit(s[i]);
      assert (s + Zeros(k))[i] == s[i];
    }
  }

  /** What is accepted of the two parts: digits before the point, and a fraction that reads, all in range. */
  predicate Reads(whole: string, fraction: string, places: nat)
  {
    && whole != "" && AllDigits(whole) && |fraction| <= places && FractionValue(fraction, places).Some?
    && FitsI64(FractionValue(fraction, places).value)
    && FitsI64(Value(whole)) && FitsI64(Value(whole) * Pow10(places))
    && FitsI64(Value(whole) * Pow10(places) + FractionValue(fraction, places).value)
  }

  lemma {:induction false} CleanedIsPriceChars(raw: string)
    ensures forall i :: 0 <= i < |Cleaned(raw)| ==> IsPriceChar(Cleaned(raw)[i])
  {
    if raw != "" {
      CleanedIsPriceChars(raw[..|raw| - 1]);
    }
  }

  /** A text is read exactly when its parts are, as its whole units and its fraction of one. */
  lemma ParsesExactly(raw: string, places: nat)
    ensures var (whole, fraction) := SplitOnce(Cleaned(raw));
            && (ParseMoney(raw, places).Ok? <==> Reads(whole, fraction, places))
            && (ParseMoney(raw, places).Ok? ==>
                  ParseMoney(raw, places).value
                  == Value(whole) * Pow10(places) + FractionValue(fraction, places).value)
  {
    var cleaned := Cleaned(raw);
    var (whole, fraction) := SplitOnce(cleaned);
    SplitOnceMeans(cleaned);
    CleanedIsPriceChars(raw);
    assert whole != "" ==> cleaned[0] == whole[0] && IsPriceChar(whole[0]);
    assert fraction != "" ==> cleaned[|whole| + 1] == fraction[0] && IsPriceChar(fraction[0]);
    if |fraction| <= places {
      if fraction != "" {
        FractionIsRead(fraction, places);
      } else {
        assert AllDigits(fraction) && Value(fraction) == 0;
      }
      PartsAreRead(whole, fraction, cleaned != "" && cleaned[0] == '-', places);
    }
  }

  lemma PartsAreRead(whole: string, fraction: string, minus: bool, places: nat)
    requires |fraction| <= places && (whole != "" ==> whole[0] != '+' && (minus <==> whole[0] == '-'))
    requires var v := FractionValue(fraction, places);
             (if fraction == "" then Some(0) else ParseI64(fraction + Zeros(places - |fraction|)))
             == if v.Some? && FitsI64(v.value) then Some(v.value) else None
    ensures ParseParts(whole, fraction, minus, places).Ok? <==> Reads(whole, fraction, places)
    ensures ParseParts(whole, fraction, minus, places).Ok? ==>
              ParseParts(whole, fraction, minus, places).value
              == Value(whole) * Pow10(places) + FractionValue(fraction, places).value
  {
    if whole != "" && whole[0] == '-' {
      assert !AllDigits(whole);
    }
  }

  /** Why a text is refused. */
  lemma RefusedByName(raw: string, places: nat)
    requires ParseMoney(raw, places).Err?
    ensures var cleaned := Cleaned(raw);
            var (whole, fraction) := SplitOnce(cleaned);
            match ParseMoney(raw, places).error
            case PriceRequired => cleaned == ""
            case TooManyPlaces => cleaned != "" && |fraction| > places
            case NotANumber =>
              |fraction| <= places
              && (ParseI64(whole).None? || (fraction != "" && ParseI64(fraction + Zeros(places - |fraction|)).None?))
            case Negative => cleaned != "" && |fraction| <= places && cleaned[0] == '-'
            case TooLarge => |fraction| <= places && whole != "" && AllDigits(whole)
  {
    var cleaned := Cleaned(raw);
    var (whole, fraction) := SplitOnce(cleaned);
    SplitOnceMeans(cleaned);
    CleanedIsPriceChars(raw);
    if ParseI64(whole).Some? {
      assert cleaned[0] == whole[0];
    }
  }

  // ---------- a minus in the wrong place ----------

  predicate HasNonZero(s: string) { exists i :: 0 <= i < |s| && '1' <= s[i] <= '9' }

  /** A minus right after the point, nothing but zeros before it, and something else behind it. */
  predicate MinusBehindZeros(whole: string, fraction: string)
  {
    fraction != "" && fraction[0] == '-' && !HasNonZero(whole) && HasNonZero(fraction)
  }

  lemma {:induction false} ValueIsSmall(s: string)
    requires AllDigits(s)
    ensures Value(s) < Pow10(|s|)
    ensures Value(s) == 0 <==> !HasNonZero(s)
  {
    if s != "" {
      var n := |s| - 1;
      ValueIsSmall(s[..n]);
      assert HasNonZero(s) <==> HasNonZero(s[..n]) || '1' <= s[n] <= '9' by {
        assert forall i :: 0 <= i < n ==> s[..n][i] == s[i];
      }
    }
  }

  /** A parsed number is as small as its digits, signed as it says, and zero when they are. */
  lemma ParsedMeans(s: string)
    requires ParseI64(s).Some?
    ensures var v := ParseI64(s).value;
            && (v == 0 <==> !HasNonZero(s))
            && (if s[0] == '-' then v <= 0 && 0 - v < Pow10(|s| - 1) else v >= 0)
  {
    if s[0] == '-' || s[0] == '+' {
      ValueIsSmall(s[1..]);
      assert forall i :: 0 < i < |s| ==> s[i] == s[1..][i - 1];
      assert HasNonZero(s) <==> HasNonZero(s[1..]);
    } else {
      ValueIsSmall(s);
    }
  }

  lemma PaddingAddsNothing(s: string, k: nat)
    ensures HasNonZero(s + Zeros(k)) <==> HasNonZero(s)
  {
    var t := s + Zeros(k);
    assert forall i :: 0 <= i < |t| ==> t[i] == if i < |s| then s[i] else Zeros(k)[i - |s|];
    if HasNonZero(s) {
      var i :| 0 <= i < |s| && '1' <= s[i] <= '9';
      assert '1' <= t[i] <= '9';
    }
  }

  /**
   The check for negative prices looks at the front of the text only. An accepted text is read as a negative
   price exactly when it has a minus right after the point, nothing but zeros before it, and a digit other
   than zero behind it.
   */
  lemma NegativeExactlyWhen(raw: string, places: nat)
    requires ParseMoney(raw, places).Ok?
    ensures ParseMoney(raw, places).value < 0
       <==> MinusBehindZeros(SplitOnce(Cleaned(raw)).0, SplitOnce(Cleaned(raw)).1)
  {
    var cleaned := Cleaned(raw);
    var (whole, fraction) := SplitOnce(cleaned);
    PartsAreNegativeExactlyWhen(whole, fraction, cleaned[0] == '-', places);
  }

  lemma PartsAreNegativeExactlyWhen(whole: string, fraction: string, minus: bool, places: nat)
    requires ParseParts(whole, fraction, minus, places).Ok?
    ensures ParseParts(whole, fraction, minus, places).value < 0 <==> MinusBehindZeros(whole, fraction)
  {
    var major := ParseI64(whole).value;
    ParsedMeans(whole);
    if fraction == "" {
      Nonneg(major, Pow10(places));
    } else {
      var padded := fraction + Zeros(places - |fraction|);
      assert padded[0] == fraction[0];
      ParsedMeans(padded);
      PaddingAddsNothing(fraction, places - |fraction|);
      SignOfTotal(major, ParseI64(padded).value, Pow10(places));
    }
  }

  /** A part smaller than the unit decides the sign only where there are no whole units. */
  lemma SignOfTotal(major: nat, minor: int, unit: nat)
    requires minor >= 0 || -minor < unit
    ensures major * unit + minor < 0 <==> major == 0 && minor < 0
  {
    if major > 0 {
      Nonneg(major - 1, unit);
      assert major * unit == (major - 1) * unit + unit;
    }
  }

  /** Of two texts with a minus after the point, the first is read as a negative price and the second is not. */
  lemma MinusAfterThePoint()
    ensures ParseMoney("0.-5", 2) == Ok(-5)
    ensures ParseMoney("1.-5", 2) == Ok(95)
  {
    Spelled();
    MinusFive();
    WithMinusFive("0", "0.-5", 0);
    WithMinusFive("1", "1.-5", 1);
  }

  lemma Spelled()
    ensures "0" + "." + "-5" == "0.-5" && "1" + "." + "-5" == "1.-5"
  {
  }

  lemma MinusFive()
    ensures ParseI64("0") == Some(0) && ParseI64("1") == Some(1) && ParseI64("-5" + Zeros(0)) == Some(-5)
  {
    assert "-5" + Zeros(0) == "-5" && "-5"[1..] == "5" && "5"[..0] == "" && "0"[..0] == "" && "1"[..0] == "";
    assert Value("") == 0 && Value("5") == 5 && Value("0") == 0 && Value("1") == 1;
  }

  lemma WithMinusFive(whole: string, text: string, major: nat)
    requires |whole| == 1 && IsDigit(whole[0]) && ParseI64(whole) == Some(major) && major <= 9
    requires ParseI64("-5" + Zeros(0)) == Some(-5) && text == whole + "." + "-5"
    ensures ParseMoney(text, 2) == Ok(100 * major - 5)
  {
    CleanedKeeps(text);
    SplitAtThePoint(whole, "-5");
    assert text[0] == whole[0];
    assert Pow10(2) == 10 * Pow10(1) && Pow10(1) == 10 * Pow10(0);
  }
}
