/** The parser undoes the printers. */
module DecimalRoundTrip {
  import opened Options
  import opened Text
  import opened Decimals
  import opened DecimalText

  // ---- digit strings -------------------------------------------------------------------- //

  lemma {:induction false} NatToPrefix(s: string, t: string, n: nat)
    requires n <= |s| && n <= |t| && forall i | 0 <= i < n :: s[i] == t[i]
    ensures NatTo(s, n) == NatTo(t, n)
  {
    if n > 0 {
      NatToPrefix(s, t, n - 1);
    }
  }

  lemma NatOfAppend(s: string, c: char)
    ensures NatOf(s + [c]) == 10 * NatOf(s) + DigitValue(c)
  {
    NatToPrefix(s + [c], s, |s|);
  }

  lemma {:induction false} DigitsOf(n: nat, width: nat)
    ensures AllDigits(Digits(n, width)) && |Digits(n, width)| >= 1 && |Digits(n, width)| >= width
    ensures NatOf(Digits(n, width)) == n
    decreases n, width
  {
    if n < 10 && width <= 1 {
      NatOfAppend([], DigitChar(n));
      assert [] + [DigitChar(n)] == [DigitChar(n)];
    } else {
      var w := if width > 0 then width - 1 else 0;
      DigitsOf(n / 10, w);
      NatOfAppend(Digits(n / 10, w), DigitChar(n % 10));
    }
  }

  lemma {:induction false} DigitsWidth(n: nat, width: nat)
    requires width >= 1 && n < Pow10(width)
    ensures |Digits(n, width)| == width
  {
    if width > 1 {
      DigitsWidth(n / 10, width - 1);
    }
  }

  lemma {:induction false} NatOfConcat(a: string, b: string)
    ensures NatOf(a + b) == Times(NatOf(a), Pow10(|b|)) + NatOf(b)
    decreases |b|
  {
    if b == [] {
      assert a + b == a;
    } else {
      var front, c := b[..|b| - 1], b[|b| - 1];
      NatOfConcat(a, front);
      NatOfAppend(a + front, c);
      NatOfAppend(front, c);
      assert front + [c] == b && a + front + [c] == a + b;
      TimesTen(NatOf(a), Pow10(|front|));
    }
  }

  lemma TimesTen(a: nat, p: nat)
    ensures Times(a, 10 * p) == 10 * Times(a, p)
  {
  }

  lemma DivMod(n: nat, unit: nat)
    requires unit >= 1
    ensures Times(Quotient(n, unit), unit) + Remainder(n, unit) == n
  {
  }

  /** Whole part and decimals, printed apart, carry the coefficient. */
  lemma PartsOf(n: nat, k: nat)
    requires k >= 1
    ensures WholeText(n, k) != [] && AllDigits(WholeText(n, k))
    ensures |FracText(n, k)| == k && AllDigits(FracText(n, k))
    ensures NatOf(WholeText(n, k) + FracText(n, k)) == n
  {
    var unit := Pow10(k);
    DigitsOf(Quotient(n, unit), 1);
    DigitsOf(Remainder(n, unit), k);
    DigitsWidth(Remainder(n, unit), k);
    NatOfConcat(WholeText(n, k), FracText(n, k));
    DivMod(n, unit);
  }

  // ---- filters ------------------------------------------------------------------------------ //

  lemma {:induction false} FilterTail(p: char -> bool, a: string, b: string, n: nat)
    requires n <= |b|
    ensures FilterTo(p, a + b, |a| + n) == Filter(p, a) + FilterTo(p, b, n)
  {
    if n == 0 {
      FilterPrefix(p, a + b, a, |a|);
    } else {
      FilterTail(p, a, b, n - 1);
    }
  }

  lemma {:induction false} FilterPrefix(p: char -> bool, s: string, t: string, n: nat)
    requires n <= |s| && n <= |t| && forall i | 0 <= i < n :: s[i] == t[i]
    ensures FilterTo(p, s, n) == FilterTo(p, t, n)
  {
    if n > 0 {
      FilterPrefix(p, s, t, n - 1);
    }
  }

  lemma FilterConcat(p: char -> bool, a: string, b: string)
    ensures Filter(p, a + b) == Filter(p, a) + Filter(p, b)
  {
    FilterTail(p, a, b, |b|);
  }

  lemma {:induction false} FilterAll(p: char -> bool, s: string, n: nat)
    requires n <= |s| && forall i | 0 <= i < n :: p(s[i])
    ensures FilterTo(p, s, n) == s[..n]
  {
    if n > 0 {
      FilterAll(p, s, n - 1);
      assert s[..n] == s[..n - 1] + [s[n - 1]];
    }
  }

  lemma {:induction false} WithoutPrefix(s: string, t: string, c: char, n: nat)
    requires n <= |s| && n <= |t| && forall i | 0 <= i < n :: s[i] == t[i]
    ensures WithoutTo(s, c, n) == WithoutTo(t, c, n)
  {
    if n > 0 {
      WithoutPrefix(s, t, c, n - 1);
    }
  }

  lemma {:induction false} WithoutTail(a: string, b: string, c: char, n: nat)
    requires n <= |b|
    ensures WithoutTo(a + b, c, |a| + n) == Without(a, c) + WithoutTo(b, c, n)
  {
    if n == 0 {
      WithoutPrefix(a + b, a, c, |a|);
    } else {
      WithoutTail(a, b, c, n - 1);
    }
  }

  lemma WithoutConcat(a: string, b: string, c: char)
    ensures Without(a + b, c) == Without(a, c) + Without(b, c)
  {
    WithoutTail(a, b, c, |b|);
  }

  lemma {:induction false} WithoutAbsent(s: string, c: char, n: nat)
    requires n <= |s| && forall i | 0 <= i < n :: s[i] != c
    ensures WithoutTo(s, c, n) == s[..n]
  {
    if n > 0 {
      WithoutAbsent(s, c, n - 1);
      assert s[..n] == s[..n - 1] + [s[n - 1]];
    }
  }

  // ---- numerals ----------------------------------------------------------------------------- //

  function SignText(neg: bool): string { if neg then "-" else "" }

  /** A whole part: digits and `sep`, a digit first and last. */
  predicate Whole(w: string, sep: char) {
    && w != [] && IsDigit(w[0]) && IsDigit(w[|w| - 1])
    && forall i | 0 <= i < |w| :: IsDigit(w[i]) || w[i] == sep
  }

  /** A sign, digits, points and commas, a digit last. */
  predicate Numeral(s: string) {
    && s != [] && IsDigit(s[|s| - 1])
    && (DigitOrSeparator(s[0]) || s[0] == '-')
    && forall i | 1 <= i < |s| :: DigitOrSeparator(s[i])
  }

  lemma {:induction false} NoCurrency(s: string, words: seq<string>)
    requires Numeral(s)
    requires forall i | 0 <= i < |words| :: words[i] != [] && 'a' <= words[i][0] <= 'z'
    ensures CurrencyLen(s, 0, words) == 0
  {
    if words != [] {
      NoCurrency(s, words[1..]);
      var w := words[0];
      if |w| <= |s| {
        assert LowerAll(s[0..|w|])[0] == Lower(s[0]);
      }
    }
  }

  lemma CurrencyKeeps(s: string)
    requires Numeral(s)
    ensures DropCurrency(s) == s
  {
    NoCurrency(s, CURRENCIES);
  }

  lemma SymbolsKeep(s: string)
    requires Numeral(s)
    ensures DropSymbols(s) == s
  {
    FilterAll(NotSymbol, s, |s|);
    assert s[..|s|] == s;
  }

  lemma DrCrKeeps(s: string)
    requires Numeral(s)
    ensures DropDrCr(s) == s
  {
    var n := |s|;
    if n >= 2 {
      var last := LowerAll(s[n - 2..n]);
      assert last[1] == Lower(s[n - 1]);
      assert last != "dr" && last != "cr";
    }
  }

  lemma SpacingKeeps(s: string)
    requires Numeral(s)
    ensures DropRupeesOnly(s) == s && JoinSpaces(s) == Some(s)
  {
  }

  /** None of the decoration rules touches a bare numeral. */
  lemma DecorationKeepsNumerals(s: string)
    requires Numeral(s)
    ensures DropDecoration(s) == s
  {
    CurrencyKeeps(s);
    SymbolsKeep(s);
    SpacingKeeps(s);
    DrCrKeeps(s);
    StripOfVisible(s);
  }

  lemma InnerNumeral(s: string, locale: Locale)
    requires Numeral(s)
    ensures ParseInner(s, locale) == ParseNumeral(s, locale)
  {
    DecorationKeepsNumerals(s);
    SpacingKeeps(s);
  }

  lemma BareNumeral(s: string, locale: Locale)
    requires Numeral(s)
    ensures ParseDecimal(Token(s), locale) == ParseNumeral(s, locale)
  {
    hide ParseInner;
    hide ParseNumeral;
    StripOfVisible(s);
    InnerNumeral(s, locale);
    assert !Accounting(s);
  }

  // ---- from the separators on ------------------------------------------------------------------ //

  /** A sign, a whole part, and decimals behind a point if there are any. */
  function Written(neg: bool, whole: string, frac: string): string {
    SignText(neg) + Unsigned(whole, frac)
  }

  function Unsigned(whole: string, frac: string): string {
    if frac == [] then whole else whole + "." + frac
  }

  lemma Separators(neg: bool, body: string)
    requires forall i | 0 <= i < |body| :: DigitOrSeparator(body[i])
    ensures DigitsAndSeparators(SignText(neg) + body) == body
  {
    FilterConcat(DigitOrSeparator, SignText(neg), body);
    FilterAll(DigitOrSeparator, body, |body|);
    NoSign(neg);
  }

  lemma NoSign(neg: bool)
    ensures Filter(DigitOrSeparator, SignText(neg)) == []
  {
    assert FilterTo(DigitOrSeparator, SignText(neg), 0) == [];
  }

  lemma SignKept(neg: bool, body: string)
    requires body != [] && DigitOrSeparator(body[0])
    ensures Minus(SignText(neg) + body) == SignText(neg)
  {
    var s := SignText(neg) + body;
    assert s[0] == if neg then '-' else body[0];
    assert SkipSpace(s, 0) == 0;
  }

  lemma {:induction false} GroupedChars(s: string, sep: char)
    requires Grouped(s, sep)
    ensures forall i | 0 <= i < |s| :: IsDigit(s[i]) || s[i] == sep
    ensures IsDigit(s[0]) && IsDigit(s[|s| - 1])
  {
    if |s| > 3 {
      GroupedChars(s[..|s| - 4], sep);
      forall i | 0 <= i < |s|
        ensures IsDigit(s[i]) || s[i] == sep
      {
        if i < |s| - 4 {
          assert s[i] == s[..|s| - 4][i];
        } else if i > |s| - 4 {
          assert s[i] == s[|s| - 3..][i - (|s| - 3)];
        }
      }
    }
  }

  /** The separator rules leave a numeral with at most one point, behind every
      comma, as it is. */
  lemma SeparatorsKeepWritten(neg: bool, whole: string, frac: string)
    requires Whole(whole, ',') && AllDigits(frac) && (frac == [] ==> AllDigits(whole))
    ensures ApplySeparators(Written(neg, whole, frac)) == Written(neg, whole, frac)
  {
    var s, body := Written(neg, whole, frac), Unsigned(whole, frac);
    var sign := |SignText(neg)|;
    Separators(neg, body);
    SignKept(neg, body);
    var point := sign + |whole|;
    assert frac != [] ==> s[point] == '.';
    assert forall i | point < i < |s| :: IsDigit(s[i]);
    NotCorrupted(whole, frac);
    if frac != [] {
      assert RFind(s, ',') < point <= RFind(s, '.');
    } else {
      assert RFind(s, ',') == -1;
    }
  }

  /** What reads as one point-grouped number: three decimals behind one to three
      digits. */
  predicate Ambiguous(whole: string, frac: string) {
    |frac| == 3 && |whole| <= 3 && AllDigits(whole)
  }

  lemma PointGrouped(whole: string, frac: string)
    requires Whole(whole, ',') && AllDigits(frac) && (frac == [] ==> AllDigits(whole))
    ensures GroupedAtLeast(Unsigned(whole, frac), '.', 1) <==> Ambiguous(whole, frac)
  {
    var body := Unsigned(whole, frac);
    if |frac| == 3 {
      assert body[..|body| - 4] == whole && body[|body| - 3..] == frac && body[|body| - 4] == '.';
      assert |whole| > 3 ==> whole[|whole| - 4] != '.';
      assert Grouped(body, '.') == Grouped(whole, '.');
    } else if |body| > 4 {
      assert body[|body| - 4] != '.';
    }
  }

  lemma NotCorrupted(whole: string, frac: string)
    requires Whole(whole, ',') && AllDigits(frac) && (frac == [] ==> AllDigits(whole))
    ensures var body := Unsigned(whole, frac);
      !Corrupted(body, '.', '.') && !GroupedAtLeast(body, '.', 2) && !Corrupted(body, ',', ',')
  {
    PointGrouped(whole, frac);
  }

  lemma WholeDigits(neg: bool, whole: string, frac: string)
    requires Whole(whole, ',') && AllDigits(frac)
    ensures Cleaned(Written(neg, whole, frac)) == Written(neg, Without(whole, ','), frac)
  {
    hide FilterTo;
    hide WithoutTo;
    FilterConcat(InDecimal, SignText(neg), Unsigned(whole, frac));
    FilterAll(InDecimal, SignText(neg), |SignText(neg)|);
    UnsignedDigits(whole, frac);
    DigitStays(whole, ',', |whole|);
  }

  lemma UnsignedDigits(whole: string, frac: string)
    requires Whole(whole, ',') && AllDigits(frac)
    ensures Filter(InDecimal, Unsigned(whole, frac)) == Unsigned(Without(whole, ','), frac)
  {
    CommasGo(whole, |whole|);
    if frac != [] {
      var tail := "." + frac;
      assert Unsigned(whole, frac) == whole + tail;
      FilterConcat(InDecimal, whole, tail);
      FilterAll(InDecimal, tail, |tail|);
    }
  }

  lemma {:induction false} CommasGo(whole: string, n: nat)
    requires n <= |whole| && forall i | 0 <= i < n :: IsDigit(whole[i]) || whole[i] == ','
    ensures FilterTo(InDecimal, whole, n) == WithoutTo(whole, ',', n)
  {
    if n > 0 {
      CommasGo(whole, n - 1);
    }
  }

  lemma {:induction false} DigitStays(whole: string, sep: char, n: nat)
    requires !IsDigit(sep)
    requires n <= |whole| && forall i | 0 <= i < n :: IsDigit(whole[i]) || whole[i] == sep
    ensures AllDigits(WithoutTo(whole, sep, n))
    ensures n > 0 && IsDigit(whole[n - 1]) ==> WithoutTo(whole, sep, n) != []
    ensures n > 0 && IsDigit(whole[0]) ==>
      WithoutTo(whole, sep, n) != [] && WithoutTo(whole, sep, n)[0] == whole[0]
  {
    if n > 0 {
      DigitStays(whole, sep, n - 1);
    }
  }

  lemma FindIs(s: string, c: char, k: nat)
    requires k <= |s| && (k < |s| ==> s[k] == c) && forall i | 0 <= i < k :: s[i] != c
    ensures Find(s, c, 0) == k
  {
    var f := Find(s, c, 0);
    if f < k {
      assert false;
    }
  }

  lemma MagnitudeOf(neg: bool, whole: string, frac: string)
    requires whole != [] && AllDigits(whole) && AllDigits(frac)
    ensures Magnitude(neg, Unsigned(whole, frac)) == Some(Dec(neg, NatOf(whole + frac), 0 - |frac|))
  {
    var body := Unsigned(whole, frac);
    FindIs(body, '.', |whole|);
    assert body[..|whole|] == whole;
    if frac != [] {
      assert body[|whole| + 1..] == frac;
    }
  }

  lemma DecimalOfWritten(neg: bool, whole: string, frac: string)
    requires whole != [] && AllDigits(whole) && AllDigits(frac)
    ensures DecimalOf(Written(neg, whole, frac)) == Magnitude(neg, Unsigned(whole, frac))
  {
    var s, body := Written(neg, whole, frac), Unsigned(whole, frac);
    assert body[0] == whole[0];
    if neg {
      assert s[1..] == body;
    } else {
      assert s == body;
    }
  }

  lemma ConvertDigits(t: string, i: nat)
    requires i < |t| && IsDigit(t[i])
    ensures Convert(t) == DecimalOf(t)
  {
  }

  /** Everything behind the locale rules, on a numeral as printed. */
  lemma WrittenParses(neg: bool, whole: string, frac: string)
    requires Whole(whole, ',') && AllDigits(frac) && (frac == [] ==> AllDigits(whole))
    ensures Convert(Cleaned(ApplySeparators(Written(neg, whole, frac))))
         == Some(Dec(neg, NatOf(Without(whole, ',') + frac), 0 - |frac|))
  {
    SeparatorsKeepWritten(neg, whole, frac);
    WholeDigits(neg, whole, frac);
    DigitStays(whole, ',', |whole|);
    var digits := Without(whole, ',');
    DecimalOfWritten(neg, digits, frac);
    MagnitudeOf(neg, digits, frac);
    ConvertDigits(Written(neg, digits, frac), |SignText(neg)|);
  }

  // ---- locale hints ----------------------------------------------------------------------------- //

  lemma LocaleKeeps(neg: bool, whole: string, frac: string, locale: Locale)
    requires Whole(whole, ',') && AllDigits(frac) && (frac == [] ==> AllDigits(whole))
    requires locale == EU ==> !Ambiguous(whole, frac)
    ensures ApplyLocale(Written(neg, whole, frac), locale) == Written(neg, whole, frac)
  {
    if locale == EU {
      var body := Unsigned(whole, frac);
      Separators(neg, body);
      PointGrouped(whole, frac);
      var comma := Find(body, ',', 0);
      if comma < |body| {
        assert comma < |whole|;
        assert body[comma + 1..][|whole| - comma - 1] == '.';
      }
    }
  }

  /** Under EU, three decimals behind at most three digits are read as thousands. */
  lemma LocaleMisreads(neg: bool, whole: string, frac: string)
    requires Whole(whole, ',') && AllDigits(frac) && Ambiguous(whole, frac)
    ensures ApplyLocale(Written(neg, whole, frac), EU) == Written(neg, whole + frac, [])
  {
    var body := Unsigned(whole, frac);
    Separators(neg, body);
    SignKept(neg, body);
    PointGrouped(whole, frac);
    PointGoes(whole, frac);
    assert body == whole + "." + frac;
  }

  lemma PointGoes(whole: string, frac: string)
    requires AllDigits(whole) && AllDigits(frac)
    ensures Without(whole + "." + frac, '.') == whole + frac
  {
    WithoutConcat(whole + ".", frac, '.');
    WithoutConcat(whole, ".", '.');
    WithoutAbsent(whole, '.', |whole|);
    WithoutAbsent(frac, '.', |frac|);
    assert whole[..|whole|] == whole && frac[..|frac|] == frac;
    assert Without(".", '.') == [] by {
      assert WithoutTo(".", '.', 0) == [];
    }
  }

  lemma Stages(s: string, locale: Locale, t: string)
    requires Numeral(s) && ApplyLocale(s, locale) == t
    ensures ParseDecimal(Token(s), locale) == Convert(Cleaned(ApplySeparators(t)))
  {
    BareNumeral(s, locale);
    NumeralStages(s, locale, t);
  }

  lemma NumeralStages(s: string, locale: Locale, t: string)
    requires ApplyLocale(s, locale) == t
    ensures ParseNumeral(s, locale) == Convert(Cleaned(ApplySeparators(t)))
  {
  }

  lemma WrittenNumeral(neg: bool, whole: string, frac: string)
    requires Whole(whole, ',') && AllDigits(frac)
    ensures Numeral(Written(neg, whole, frac))
  {
  }

  lemma DigitsParse(neg: bool, digits: string)
    requires digits != [] && AllDigits(digits)
    ensures Convert(Cleaned(ApplySeparators(Written(neg, digits, [])))) == Some(Dec(neg, NatOf(digits), 0))
  {
    WrittenParses(neg, digits, []);
    DigitsWithout(digits, ',');
    assert digits + [] == digits;
  }

  /** What a numeral with a decimal point parses to, for every hint. */
  lemma PointForm(neg: bool, whole: string, frac: string, locale: Locale)
    requires Whole(whole, ',') && AllDigits(frac) && (frac == [] ==> AllDigits(whole))
    ensures ParseDecimal(Token(Written(neg, whole, frac)), locale)
         == if locale == EU && Ambiguous(whole, frac) then Some(Dec(neg, NatOf(whole + frac), 0))
            else Some(Dec(neg, NatOf(Without(whole, ',') + frac), 0 - |frac|))
  {
    var s := Written(neg, whole, frac);
    WrittenNumeral(neg, whole, frac);
    if locale == EU && Ambiguous(whole, frac) {
      LocaleMisreads(neg, whole, frac);
      DigitsParse(neg, whole + frac);
      Stages(s, locale, Written(neg, whole + frac, []));
    } else {
      LocaleKeeps(neg, whole, frac, locale);
      WrittenParses(neg, whole, frac);
      Stages(s, locale, s);
    }
  }

  lemma DigitsWithout(s: string, sep: char)
    requires AllDigits(s) && !IsDigit(sep)
    ensures Without(s, sep) == s
  {
    WithoutAbsent(s, sep, |s|);
    assert s[..|s|] == s;
  }

  // ---- printed money ------------------------------------------------------------------------------ //

  lemma {:induction false} GroupOf(s: string)
    requires s != [] && AllDigits(s)
    ensures Whole(Group(s), ',') && Grouped(Group(s), ',') && Without(Group(s), ',') == s
  {
    if |s| <= 3 {
      DigitsWithout(s, ',');
    } else {
      var front, last := s[..|s| - 3], s[|s| - 3..];
      GroupOf(front);
      CommaGoes(Group(front), last);
      assert s == front + last;
      GroupMore(Group(front), last);
    }
  }

  lemma CommaGoes(g: string, last: string)
    requires AllDigits(last)
    ensures Without(g + "," + last, ',') == Without(g, ',') + last
  {
    WithoutConcat(g + ",", last, ',');
    WithoutConcat(g, ",", ',');
    DigitsWithout(last, ',');
    assert Without(",", ',') == [] by {
      assert WithoutTo(",", ',', 0) == [];
    }
  }

  lemma GroupMore(g: string, last: string)
    requires Whole(g, ',') && Grouped(g, ',') && |last| == 3 && AllDigits(last)
    ensures Whole(g + "," + last, ',') && Grouped(g + "," + last, ',')
  {
    var s := g + "," + last;
    assert s[..|s| - 4] == g && s[|s| - 3..] == last;
  }

  lemma MoneyText(v: Dec)
    requires |FracText(Q2(v).coef, 2)| == 2
    ensures FmtThousands2(v) == Written(Q2(v).neg, Group(WholeText(Q2(v).coef, 2)), FracText(Q2(v).coef, 2))
  {
  }

  /** `parse_decimal(fmt_thousands2(v)) == q2(v)`, whatever the hint. */
  lemma ThousandsRoundTrip(v: Dec, locale: Locale)
    ensures ParseDecimal(Token(FmtThousands2(v)), locale) == Some(Q2(v))
  {
    var q := Q2(v);
    PartsOf(q.coef, 2);
    GroupOf(WholeText(q.coef, 2));
    PointForm(q.neg, Group(WholeText(q.coef, 2)), FracText(q.coef, 2), locale);
    MoneyText(v);
  }

  // ---- European numerals ---------------------------------------------------------------------------- //

  lemma EuropeanWholeLocale(neg: bool, head: string)
    requires GroupedAtLeast(head, '.', 1)
    ensures Numeral(SignText(neg) + head)
    ensures ApplyLocale(SignText(neg) + head, EU) == Written(neg, Without(head, '.'), [])
    ensures Without(head, '.') != [] && AllDigits(Without(head, '.'))
  {
    GroupedChars(head, '.');
    Separators(neg, head);
    SignKept(neg, head);
    DigitStays(head, '.', |head|);
  }

  /** Point-grouped thousands with no decimals, under EU. */
  lemma EuropeanWhole(neg: bool, head: string)
    requires GroupedAtLeast(head, '.', 1)
    ensures ParseDecimal(Token(SignText(neg) + head), EU) == Some(Dec(neg, NatOf(Without(head, '.')), 0))
  {
    var digits := Without(head, '.');
    EuropeanWholeLocale(neg, head);
    Stages(SignText(neg) + head, EU, Written(neg, digits, []));
    DigitsParse(neg, digits);
  }

  lemma EuropeanComma(head: string, frac: string)
    requires Grouped(head, '.') && 1 <= |frac| <= 6 && AllDigits(frac)
    ensures European(head + "," + frac) == Some(Without(head, '.') + "." + frac)
  {
    var body := head + "," + frac;
    GroupedChars(head, '.');
    FindIs(body, ',', |head|);
    assert body[..|head|] == head && body[|head| + 1..] == frac;
  }

  lemma EuropeanDecimalLocale(neg: bool, head: string, frac: string)
    requires Grouped(head, '.') && 1 <= |frac| <= 6 && AllDigits(frac)
    ensures ApplyLocale(SignText(neg) + (head + "," + frac), EU) == Written(neg, Without(head, '.'), frac)
  {
    GroupedChars(head, '.');
    Separators(neg, head + "," + frac);
    SignKept(neg, head + "," + frac);
    EuropeanComma(head, frac);
  }

  lemma EuropeanNumeral(neg: bool, head: string, frac: string)
    requires Grouped(head, '.') && frac != [] && AllDigits(frac)
    ensures Numeral(SignText(neg) + (head + "," + frac))
    ensures Without(head, '.') != [] && AllDigits(Without(head, '.'))
  {
    GroupedChars(head, '.');
    DigitStays(head, '.', |head|);
  }

  /** Point-grouped thousands, a comma and one to six decimals, under EU. */
  lemma EuropeanDecimal(neg: bool, head: string, frac: string)
    requires Grouped(head, '.') && 1 <= |frac| <= 6 && AllDigits(frac)
    ensures ParseDecimal(Token(SignText(neg) + (head + "," + frac)), EU)
         == Some(Dec(neg, NatOf(Without(head, '.') + frac), 0 - |frac|))
  {
    var digits := Without(head, '.');
    EuropeanNumeral(neg, head, frac);
    EuropeanDecimalLocale(neg, head, frac);
    Stages(SignText(neg) + (head + "," + frac), EU, Written(neg, digits, frac));
    WrittenParses(neg, digits, frac);
    DigitsWithout(digits, ',');
  }

  // ---- trimmed numerals ------------------------------------------------------------------------------ //

  /** The whole part and the decimals `trim` leaves. */
  function TrimmedWhole(v: Dec): string {
    if v.exp >= 0 then Digits(Times(v.coef, Pow10(v.exp)), 1) else WholeText(v.coef, 0 - v.exp)
  }

  function TrimmedFrac(v: Dec): string {
    if v.exp >= 0 then [] else RStrip(FracText(v.coef, 0 - v.exp), '0')
  }

  lemma {:induction false} RStripBehind(front: string, mark: char, tail: string, c: char)
    requires mark != c
    ensures RStrip(front + [mark] + tail, c) == front + [mark] + RStrip(tail, c)
  {
    var s := front + [mark] + tail;
    if tail != [] && tail[|tail| - 1] == c {
      RStripBehind(front, mark, tail[..|tail| - 1], c);
      assert s[..|s| - 1] == front + [mark] + tail[..|tail| - 1];
    }
  }

  lemma TrimmedDigits(v: Dec)
    ensures TrimmedWhole(v) != [] && AllDigits(TrimmedWhole(v)) && AllDigits(TrimmedFrac(v))
  {
    if v.exp >= 0 {
      DigitsOf(Times(v.coef, Pow10(v.exp)), 1);
    } else {
      PartsOf(v.coef, 0 - v.exp);
    }
  }

  lemma TrimIs(v: Dec)
    ensures Trim(v) == Written(v.neg, TrimmedWhole(v), TrimmedFrac(v))
  {
    TrimmedDigits(v);
    if v.exp >= 0 {
      ZerosOfWhole(Sign(v) + TrimmedWhole(v));
    } else {
      TrimsPoint(v);
    }
  }

  lemma TrimsPoint(v: Dec)
    requires v.exp < 0
    ensures Trim(v) == Written(v.neg, TrimmedWhole(v), TrimmedFrac(v))
  {
    PartsOf(v.coef, 0 - v.exp);
    TrimsText(FmtFixed(v), v.neg, TrimmedWhole(v), FracText(v.coef, 0 - v.exp));
  }

  lemma TrimsText(s: string, neg: bool, whole: string, full: string)
    requires s == (SignText(neg) + whole) + ['.'] + full
    requires whole != [] && AllDigits(whole) && AllDigits(full)
    ensures TrimZeros(s) == Written(neg, whole, RStrip(full, '0'))
  {
    ZerosOfPoint(SignText(neg) + whole, full);
    WrittenIs(neg, whole, RStrip(full, '0'));
  }

  lemma WrittenIs(neg: bool, whole: string, frac: string)
    ensures var front := SignText(neg) + whole;
      Written(neg, whole, frac) == if frac == [] then front else front + ['.'] + frac
  {
  }

  lemma ZerosOfWhole(s: string)
    requires s != [] && '.' !in s
    ensures TrimZeros(s) == s
  {
  }

  lemma ZerosOfPoint(front: string, full: string)
    requires front != [] && IsDigit(front[|front| - 1]) && AllDigits(full)
    ensures var f := RStrip(full, '0');
      TrimZeros(front + ['.'] + full) == if f == [] then front else front + ['.'] + f
  {
    var s, f := front + ['.'] + full, RStrip(full, '0');
    assert s[|front|] == '.';
    RStripBehind(front, '.', full, '0');
    if f == [] {
      assert front + ['.'] + f == front + ['.'] && (front + ['.'])[..|front|] == front;
    }
  }

  // ---- the value of trimmed text --------------------------------------------------------------------- //

  lemma {:induction false} StrippedZeros(a: string, s: string)
    ensures var f := RStrip(s, '0');
      |f| <= |s| && NatOf(a + s) == Shift(NatOf(a + f), |s| - |f|)
  {
    if s != [] && s[|s| - 1] == '0' {
      var front := s[..|s| - 1];
      StrippedZeros(a, front);
      NatOfAppend(a + front, '0');
      assert a + front + ['0'] == a + s;
      TimesTen(1, 1);
    }
  }

  lemma SameScaled(neg: bool, n: nat, j: nat, exp: int)
    ensures Value(Dec(neg, Shift(n, j), exp - j)) == Value(Dec(neg, n, exp))
  {
    var m := Signed(Dec(neg, n, exp));
    assert Shift(m, j) == if neg then -Shift(n, j) else Shift(n, j);
    ScaledShift(m, exp, j);
  }

  /** Whole part and decimals that `trim` keeps still carry the value. */
  lemma TrimmedValue(v: Dec)
    ensures Value(Dec(v.neg, NatOf(TrimmedWhole(v) + TrimmedFrac(v)), 0 - |TrimmedFrac(v)|)) == Value(v)
  {
    var w, f := TrimmedWhole(v), TrimmedFrac(v);
    var n := NatOf(w + f);
    if v.exp >= 0 {
      DigitsOf(Times(v.coef, Pow10(v.exp)), 1);
      assert w + f == w;
      SameScaled(v.neg, v.coef, v.exp, v.exp);
    } else {
      var k := 0 - v.exp;
      PartsOf(v.coef, k);
      StrippedZeros(w, FracText(v.coef, k));
      SameScaled(v.neg, n, k - |f|, 0 - |f|);
    }
  }

  /** Parsing `text` gives the sign and the value of `v` back. */
  predicate ParsesBack(text: string, locale: Locale, v: Dec) {
    var r := ParseDecimal(Token(text), locale);
    r.Some? && r.value.neg == v.neg && SameValue(r.value, v)
  }

  predicate SameValue(a: Dec, b: Dec) { Value(a) == Value(b) }

  lemma LastDecimalCounts(w: string, f: string)
    requires f != [] && IsDigit(f[|f| - 1]) && f[|f| - 1] != '0'
    ensures NatOf(w + f) > 0
  {
    NatOfAppend(w + f[..|f| - 1], f[|f| - 1]);
    assert w + f[..|f| - 1] + [f[|f| - 1]] == w + f;
  }

  lemma ThousandTimes(neg: bool, n: nat)
    requires n > 0
    ensures Value(Dec(neg, n, 0)) != Value(Dec(neg, n, 0 - 3))
  {
    var x := Signed(Dec(neg, n, 0)) as real;
    assert Scale(x, -1) == x / 10.0 && Scale(x, -2) == x / 10.0 / 10.0;
  }

  lemma WrittenParsesBack(w: string, f: string, locale: Locale, v: Dec)
    requires w != [] && AllDigits(w) && AllDigits(f)
    requires SameValue(Dec(v.neg, NatOf(w + f), 0 - |f|), v)
    requires f != [] ==> f[|f| - 1] != '0' || |f| == 1
    ensures ParsesBack(Written(v.neg, w, f), locale, v) <==> !(locale == EU && Ambiguous(w, f))
  {
    DigitsWithout(w, ',');
    PointForm(v.neg, w, f, locale);
    if Ambiguous(w, f) {
      LastDecimalCounts(w, f);
      ThousandTimes(v.neg, NatOf(w + f));
    }
  }

  /** `parse_decimal(trim(v)) == v` under every hint but EU, and under EU exactly
      when `trim` leaves no three decimals behind at most three digits. */
  lemma TrimRoundTripExactly(v: Dec, locale: Locale)
    ensures ParsesBack(Trim(v), locale, v)
       <==> !(locale == EU && Ambiguous(TrimmedWhole(v), TrimmedFrac(v)))
  {
    TrimmedDigits(v);
    TrimmedValue(v);
    WrittenParsesBack(TrimmedWhole(v), TrimmedFrac(v), locale, v);
    TrimIs(v);
  }

  function AtLeastOne(f: string): string { if f == [] then "0" else f }

  lemma TrimMin1Is(v: Dec)
    ensures TrimMin1(v) == Written(v.neg, TrimmedWhole(v), AtLeastOne(TrimmedFrac(v)))
  {
    TrimIs(v);
    TrimmedDigits(v);
    OneDecimal(v.neg, TrimmedWhole(v), TrimmedFrac(v));
  }

  lemma OneDecimal(neg: bool, w: string, f: string)
    requires AllDigits(w) && AllDigits(f)
    ensures var s := Written(neg, w, f);
      (if '.' in s then s else s + ".0") == Written(neg, w, AtLeastOne(f))
  {
    if f != [] {
      assert Written(neg, w, f)[|SignText(neg)| + |w|] == '.';
    }
  }

  /** Likewise with at least one decimal. */
  lemma TrimMin1RoundTripExactly(v: Dec, locale: Locale)
    ensures ParsesBack(TrimMin1(v), locale, v)
       <==> !(locale == EU && Ambiguous(TrimmedWhole(v), TrimmedFrac(v)))
  {
    var w, f := TrimmedWhole(v), TrimmedFrac(v);
    TrimmedDigits(v);
    TrimmedValue(v);
    if f == [] {
      NatOfAppend(w, '0');
      assert w + f == w;
      assert Value(Dec(v.neg, 10 * NatOf(w), 0 - 1)) == Value(Dec(v.neg, NatOf(w), 0));
    }
    WrittenParsesBack(w, AtLeastOne(f), locale, v);
    TrimMin1Is(v);
  }

  /** A weight of 1.064 printed by `trim` and read back on a European page. */
  lemma TrimMisread()
    ensures !ParsesBack(Trim(Dec(false, 1064, 0 - 3)), EU, Dec(false, 1064, 0 - 3))
  {
    var v := Dec(false, 1064, 0 - 3);
    assert Pow10(3) == 1000 by {
      assert Pow10(0) == 1 && Pow10(1) == 10 && Pow10(2) == 100;
    }
    assert WholeText(1064, 3) == "1";
    assert FracText(1064, 3) == "064" by {
      assert Digits(0, 1) == "0" && Digits(6, 2) == "06";
    }
    assert RStrip("064", '0') == "064";
    assert Ambiguous(TrimmedWhole(v), TrimmedFrac(v));
    hide *;
    TrimRoundTripExactly(v, EU);
  }
}