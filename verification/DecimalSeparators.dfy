/** Separators that say which convention a number follows without any hint: decimal
    commas, repeated thousands points, and decimal marks misread as thousands marks. */
module DecimalSeparators {
  import opened Options
  import opened Text
  import opened Decimals
  import opened DecimalText
  import opened DecimalRoundTrip

  // ---- one comma, one or two digits ------------------------------------------------------------ //

  lemma {:induction false} NoneCounted(s: string, c: char, n: nat)
    requires n <= |s| && forall i | 0 <= i < n :: s[i] != c
    ensures CountTo(s, c, n) == 0
  {
    if n > 0 {
      NoneCounted(s, c, n - 1);
    }
  }

  lemma {:induction false} OneCounted(s: string, c: char, k: nat, n: nat)
    requires k < n <= |s| && s[k] == c && forall i | 0 <= i < n && i != k :: s[i] != c
    ensures CountTo(s, c, n) == 1
  {
    if n - 1 == k {
      NoneCounted(s, c, k);
    } else {
      OneCounted(s, c, k, n - 1);
    }
  }

  lemma CommaSeen(neg: bool, head: string, frac: string)
    requires head != [] && IsDigit(head[|head| - 1]) && forall i | 0 <= i < |head| :: IsDigit(head[i]) || head[i] == '.'
    requires 1 <= |frac| <= 2 && AllDigits(frac)
    ensures var s := SignText(neg) + (head + "," + frac);
      CommaDecimal(s) && Count(s, ',') == 1 && RFind(s, '.') < RFind(s, ',')
  {
    var s := SignText(neg) + (head + "," + frac);
    var k := |SignText(neg)| + |head|;
    assert s[k] == ',' && s[k - 1] == head[|head| - 1] && s[k + 1] == frac[0];
    assert forall i | 0 <= i < |s| && i != k :: s[i] != ',';
    assert forall i | k < i < |s| :: IsDigit(s[i]);
    assert CommaDecimalAt(s, k - 1);
    OneCounted(s, ',', k, |s|);
    assert RFind(s, ',') == k;
  }

  lemma DigitsOnly(s: string)
    requires s != [] && AllDigits(s)
    ensures IsDigit(s[|s| - 1]) && forall i | 0 <= i < |s| :: IsDigit(s[i]) || s[i] == '.'
  {
  }

  lemma PointsGo(neg: bool, head: string, frac: string)
    requires Grouped(head, '.') && AllDigits(frac)
    ensures Without(SignText(neg) + (head + "," + frac), '.') == SignText(neg) + (Without(head, '.') + "," + frac)
  {
    var sign := SignText(neg);
    WithoutConcat(sign, head + "," + frac, '.');
    WithoutConcat(head + ",", frac, '.');
    WithoutConcat(head, ",", '.');
    WithoutAbsent(sign, '.', |sign|);
    WithoutAbsent(frac, '.', |frac|);
    WithoutAbsent(",", '.', 1);
    assert sign[..|sign|] == sign && frac[..|frac|] == frac && ","[..1] == ",";
  }

  lemma CommaBecomesPoint(neg: bool, digits: string, frac: string)
    requires digits != [] && AllDigits(digits) && AllDigits(frac) && frac != []
    ensures Replace(SignText(neg) + (digits + "," + frac), ',', '.') == Written(neg, digits, frac)
  {
  }

  /** "1.234,56" has a decimal comma, whatever the hint. */
  lemma DecimalComma(neg: bool, head: string, frac: string, locale: Locale)
    requires Grouped(head, '.') && 1 <= |frac| <= 2 && AllDigits(frac)
    ensures ParseDecimal(Token(SignText(neg) + (head + "," + frac)), locale)
         == Some(Dec(neg, NatOf(Without(head, '.') + frac), 0 - |frac|))
  {
    if locale == EU {
      EuropeanDecimal(neg, head, frac);
    } else {
      var s, digits := SignText(neg) + (head + "," + frac), Without(head, '.');
      NoLocaleRule(s, locale);
      hide *;
      EuropeanNumeral(neg, head, frac);
      GroupedChars(head, '.');
      CommaSeen(neg, head, frac);
      PointsGo(neg, head, frac);
      CommaBecomesPoint(neg, digits, frac);
      BareNumeral(s, locale);
      NumeralStages(s, locale, s);
      FinishWritten(neg, digits, frac);
    }
  }

  lemma NoPointGoes(neg: bool, head: string, frac: string)
    requires AllDigits(head) && AllDigits(frac)
    ensures var s := SignText(neg) + (head + "," + frac); Without(s, '.') == s
  {
    var s := SignText(neg) + (head + "," + frac);
    WithoutAbsent(s, '.', |s|);
    assert s[..|s|] == s;
  }

  lemma PlainCommaNumeral(neg: bool, head: string, frac: string)
    requires AllDigits(head) && head != [] && frac != [] && AllDigits(frac)
    ensures Numeral(SignText(neg) + (head + "," + frac))
  {
  }

  /** More than three digits in front of the comma are no European group. */
  lemma LongHeadKept(neg: bool, head: string, frac: string, locale: Locale)
    requires |head| > 3 && AllDigits(head) && AllDigits(frac)
    ensures var s := SignText(neg) + (head + "," + frac); ApplyLocale(s, locale) == s
  {
    var body := head + "," + frac;
    Separators(neg, body);
    var comma := Find(body, ',', 0);
    assert body[|head|] == ',';
    assert comma == |head| && body[..comma] == head;
    assert !Grouped(head, '.');
    if GroupedAtLeast(body, '.', 1) {
      GroupedChars(body, '.');
    }
  }

  /** "7023,17": so has a number without thousands separators. */
  lemma PlainComma(neg: bool, head: string, frac: string, locale: Locale)
    requires head != [] && AllDigits(head) && 1 <= |frac| <= 2 && AllDigits(frac)
    ensures ParseDecimal(Token(SignText(neg) + (head + "," + frac)), locale)
         == Some(Dec(neg, NatOf(head + frac), 0 - |frac|))
  {
    if |head| <= 3 {
      DecimalComma(neg, head, frac, locale);
      DigitsWithout(head, '.');
      hide *;
    } else {
      var s := SignText(neg) + (head + "," + frac);
      hide *;
      DigitsOnly(head);
      CommaSeen(neg, head, frac);
      PlainCommaNumeral(neg, head, frac);
      NoPointGoes(neg, head, frac);
      LongHeadKept(neg, head, frac, locale);
      CommaBecomesPoint(neg, head, frac);
      BareNumeral(s, locale);
      NumeralStages(s, locale, s);
      FinishWritten(neg, head, frac);
    }
  }

  /** A plain decimal is converted as it stands. */
  lemma FinishWritten(neg: bool, digits: string, frac: string)
    requires digits != [] && AllDigits(digits) && AllDigits(frac)
    ensures Convert(Cleaned(Written(neg, digits, frac))) == Some(Dec(neg, NatOf(digits + frac), 0 - |frac|))
  {
    WholeDigits(neg, digits, frac);
    DigitsWithout(digits, ',');
    DecimalOfWritten(neg, digits, frac);
    MagnitudeOf(neg, digits, frac);
    ConvertDigits(Written(neg, digits, frac), |SignText(neg)|);
    hide *;
  }

  // ---- repeated thousands points -------------------------------------------------------------------- //

  lemma PointThousandsSeparators(neg: bool, head: string)
    requires GroupedAtLeast(head, '.', 2)
    ensures Numeral(SignText(neg) + head)
    ensures ApplySeparators(SignText(neg) + head) == Written(neg, Without(head, '.'), [])
    ensures Without(head, '.') != [] && AllDigits(Without(head, '.'))
  {
    var s := SignText(neg) + head;
    GroupedChars(head, '.');
    Separators(neg, head);
    SignKept(neg, head);
    DigitStays(head, '.', |head|);
    assert !Corrupted(head, '.', '.') by {
      assert IsDigit(head[|head| - 3]) by {
        assert head[|head| - 3] == head[|head| - 3..][0];
      }
    }
    hide Grouped;
    hide CommaDecimal;
  }

  lemma NoLocaleRule(s: string, locale: Locale)
    requires locale != EU
    ensures ApplyLocale(s, locale) == s
  {
    hide European;
  }

  lemma FewerGroups(head: string)
    requires GroupedAtLeast(head, '.', 2)
    ensures GroupedAtLeast(head, '.', 1)
  {
    hide Grouped;
  }

  lemma NoDigits()
    ensures AllDigits([])
  {
  }

  lemma PlainlyConverted(neg: bool, s: string, digits: string, locale: Locale)
    requires Numeral(s) && locale != EU && ApplySeparators(s) == Written(neg, digits, [])
    requires digits != [] && AllDigits(digits)
    ensures ParseDecimal(Token(s), locale) == Some(Dec(neg, NatOf(digits), 0))
  {
    hide *;
    NoDigits();
    NoLocaleRule(s, locale);
    BareNumeral(s, locale);
    NumeralStages(s, locale, s);
    FinishWritten(neg, digits, []);
    assert digits + [] == digits;
  }

  /** "1.600.000" is a whole number, whatever the hint; with one point only, and no
      hint, the same digits are decimals. */
  lemma PointThousands(neg: bool, head: string, locale: Locale)
    requires GroupedAtLeast(head, '.', 2)
    ensures ParseDecimal(Token(SignText(neg) + head), locale) == Some(Dec(neg, NatOf(Without(head, '.')), 0))
  {
    hide *;
    if locale == EU {
      FewerGroups(head);
      EuropeanWhole(neg, head);
    } else {
      PointThousandsSeparators(neg, head);
      PlainlyConverted(neg, SignText(neg) + head, Without(head, '.'), locale);
    }
  }

  // ---- a decimal mark misread as a thousands mark ------------------------------------------------------ //

  lemma MisreadParts(head: string, sep: char, frac: string)
    requires (sep == '.' || sep == ',') && GroupedAtLeast(head, sep, 1) && |frac| == 2 && AllDigits(frac)
    ensures var body := head + [sep] + frac;
      && body[..|body| - 3] == head && body[|body| - 2..] == frac && body[|body| - 3] == sep
      && Corrupted(body, sep, sep) && IsDigit(body[|body| - 4]) && IsDigit(head[0])
      && (forall i | 0 <= i < |body| :: IsDigit(body[i]) || body[i] == sep)
  {
    GroupedChars(head, sep);
    var body := head + [sep] + frac;
    assert body[..|body| - 3] == head && body[|body| - 2..] == frac;
  }

  /** Two separators at least: the first comma is not followed by digits alone. */
  lemma NotEuropean(head: string, sep: char, frac: string)
    requires (sep == '.' || sep == ',') && GroupedAtLeast(head, sep, 1) && |frac| == 2 && AllDigits(frac)
    ensures European(head + [sep] + frac).None?
  {
    var body := head + [sep] + frac;
    MisreadParts(head, sep, frac);
    assert head[|head| - 4] == sep;
    assert !GroupedAtLeast(body, '.', 1);
    var comma := Find(body, ',', 0);
    if comma < |body| {
      assert comma <= |head| - 4;
      assert body[comma + 1..][|head| - comma - 1] == body[|head|] == sep;
    }
  }

  lemma {:induction false} TwoCounted(s: string, c: char, j: nat, k: nat, n: nat)
    requires j < k < n <= |s| && s[j] == c && s[k] == c
    ensures CountTo(s, c, n) >= 2
  {
    if n - 1 == k {
      SomeCounted(s, c, j, k);
    } else {
      TwoCounted(s, c, j, k, n - 1);
    }
  }

  lemma {:induction false} SomeCounted(s: string, c: char, j: nat, n: nat)
    requires j < n <= |s| && s[j] == c
    ensures CountTo(s, c, n) >= 1
  {
    if j < n - 1 {
      SomeCounted(s, c, j, n - 1);
    }
  }

  /** Which separator rule a misread mark meets. */
  lemma MisreadRule(s: string, body: string, sep: char)
    requires DigitsAndSeparators(s) == body && (!CommaDecimal(s) || Count(s, ',') != 1)
    requires (sep == '.' || sep == ',') && Corrupted(body, sep, sep)
    requires sep == ',' ==> !Corrupted(body, '.', '.') && !GroupedAtLeast(body, '.', 2)
    ensures ApplySeparators(s) == Minus(s) + Without(body[..|body| - 3], sep) + "." + body[|body| - 2..]
  {
    hide CommaDecimal;
    hide Grouped;
    hide CountTo;
    hide DigitsAndSeparators;
  }

  lemma MisreadCommas(neg: bool, head: string, frac: string)
    requires GroupedAtLeast(head, ',', 1) && |frac| == 2 && AllDigits(frac)
    ensures var body := head + [','] + frac;
      && Count(SignText(neg) + body, ',') != 1
      && !Corrupted(body, '.', '.') && !GroupedAtLeast(body, '.', 2)
  {
    var body := head + [','] + frac;
    var s, k := SignText(neg) + body, |SignText(neg)|;
    MisreadParts(head, ',', frac);
    assert s[k + |head| - 4] == ',' && s[k + |head|] == ',';
    TwoCounted(s, ',', k + |head| - 4, k + |head|, |s|);
    assert body[|body| - 4] != '.';
  }

  lemma MisreadSeparators(neg: bool, head: string, sep: char, frac: string)
    requires (sep == '.' || sep == ',') && GroupedAtLeast(head, sep, 1) && |frac| == 2 && AllDigits(frac)
    ensures ApplySeparators(SignText(neg) + (head + [sep] + frac)) == Written(neg, Without(head, sep), frac)
  {
    var body := head + [sep] + frac;
    var s := SignText(neg) + body;
    MisreadParts(head, sep, frac);
    Separators(neg, body);
    SignKept(neg, body);
    if sep == ',' {
      MisreadCommas(neg, head, frac);
    } else {
    }
    hide ApplySeparators;
    hide Grouped;
    hide CommaDecimal;
    hide CountTo;
    hide WithoutTo;
    MisreadRule(s, body, sep);
  }

  /** "1.600.00" and "1,600,00": the last mark is the decimal one, whatever the hint. */
  lemma MisreadDecimalMark(neg: bool, head: string, sep: char, frac: string, locale: Locale)
    requires (sep == '.' || sep == ',') && GroupedAtLeast(head, sep, 1) && |frac| == 2 && AllDigits(frac)
    ensures ParseDecimal(Token(SignText(neg) + (head + [sep] + frac)), locale)
         == Some(Dec(neg, NatOf(Without(head, sep) + frac), -2))
  {
    var body := head + [sep] + frac;
    var s, digits := SignText(neg) + body, Without(head, sep);
    GroupedChars(head, sep);
    DigitStays(head, sep, |head|);
    assert Numeral(s);
    Separators(neg, body);
    NotEuropean(head, sep, frac);
    assert ApplyLocale(s, locale) == s;
    MisreadSeparators(neg, head, sep, frac);
    hide *;
    BareNumeral(s, locale);
    NumeralStages(s, locale, s);
    FinishWritten(neg, digits, frac);
  }
}
