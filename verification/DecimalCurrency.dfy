/** What becomes of a number behind a currency word that is not recognised. */
module DecimalCurrency {
  import opened Options
  import opened Text
  import opened Decimals
  import opened DecimalText
  import opened DecimalRoundTrip
  import opened DecimalSeparators
  import opened DecimalDecoration

  /** The decimal comma of the plain rule. */
  predicate CommaForm(s: string) { CommaDecimal(s) && Count(s, ',') == 1 && RFind(s, '.') < RFind(s, ',') }

  /** The rules that rewrite digits and separators, and with them the sign in front. */
  function DigitRule(digits: string): Option<string> {
    if Corrupted(digits, '.', '.') then Some(Without(digits[..|digits| - 3], '.') + "." + digits[|digits| - 2..])
    else if GroupedAtLeast(digits, '.', 2) then Some(Without(digits, '.'))
    else if Corrupted(digits, ',', ',') then Some(Without(digits[..|digits| - 3], ',') + "." + digits[|digits| - 2..])
    else None
  }

  lemma SeparatorsAs(s: string)
    ensures var rule := DigitRule(DigitsAndSeparators(s));
      ApplySeparators(s)
      == if CommaForm(s) then Replace(Without(s, '.'), ',', '.')
         else if rule.Some? then Minus(s) + rule.value else s
  {
    hide CommaDecimal;
    hide Grouped;
    hide DigitsAndSeparators;
    hide Minus;
    hide Without;
    hide Replace;
    hide CountTo;
    hide RFind;
    var digits := DigitsAndSeparators(s);
    if Corrupted(digits, '.', '.') {
      assert Minus(s) + Without(digits[..|digits| - 3], '.') + "." + digits[|digits| - 2..]
          == Minus(s) + (Without(digits[..|digits| - 3], '.') + "." + digits[|digits| - 2..]);
    } else if Corrupted(digits, ',', ',') {
      assert Minus(s) + Without(digits[..|digits| - 3], ',') + "." + digits[|digits| - 2..]
          == Minus(s) + (Without(digits[..|digits| - 3], ',') + "." + digits[|digits| - 2..]);
    }
  }

  /** No digit and no comma: nothing the comma rules see. */
  predicate Mute(p: string) { forall i | 0 <= i < |p| :: !IsDigit(p[i]) && p[i] != ',' }

  lemma {:induction false} CountBehind(p: string, s: string, n: nat)
    requires n <= |s| && forall i | 0 <= i < |p| :: p[i] != ','
    ensures CountTo(p + s, ',', |p| + n) == CountTo(s, ',', n)
  {
    if n == 0 {
      NoneCounted(p + s, ',', |p|);
    } else {
      CountBehind(p, s, n - 1);
    }
  }

  lemma CommaDecimalBehind(p: string, s: string)
    requires Mute(p)
    ensures CommaDecimal(p + s) <==> CommaDecimal(s)
  {
    var t := p + s;
    if CommaDecimal(s) {
      var i :| 0 <= i < |s| && CommaDecimalAt(s, i);
      assert CommaDecimalAt(t, |p| + i);
    }
    if CommaDecimal(t) {
      var i :| 0 <= i < |t| && CommaDecimalAt(t, i);
      assert IsDigit(t[i]);
      assert CommaDecimalAt(s, i - |p|);
    }
  }

  lemma LastBehind(p: string, s: string, c: char)
    ensures RFind(s, c) >= 0 ==> RFind(p + s, c) == |p| + RFind(s, c)
    ensures RFind(s, c) < 0 ==> RFind(p + s, c) < |p|
  {
    var t, k, l := p + s, RFind(s, c), RFind(p + s, c);
    assert forall i | |p| <= i < |t| :: t[i] == s[i - |p|];
    assert k >= 0 ==> t[|p| + k] == c;
    assert l >= |p| ==> s[l - |p|] == c;
  }

  lemma CommaFormBehind(p: string, s: string)
    requires Mute(p)
    ensures CommaForm(p + s) <==> CommaForm(s)
  {
    hide CommaDecimal;
    CommaDecimalBehind(p, s);
    CountBehind(p, s, |s|);
    LastBehind(p, s, '.');
    LastBehind(p, s, ',');
    if Count(s, ',') == 1 {
      CommaFound(s, |s|);
    }
    hide CountTo;
  }

  lemma {:induction false} CommaFound(s: string, n: nat)
    requires n <= |s| && CountTo(s, ',', n) > 0
    ensures RFind(s, ',') >= 0
  {
    if s[n - 1] != ',' {
      CommaFound(s, n - 1);
    }
  }

  // ---- a prefix that prints no number ------------------------------------------------------------------ //

  lemma MuteFilter(p: string)
    requires Mute(p)
    ensures (forall i | 0 <= i < |p| :: p[i] != '.') ==> DigitsAndSeparators(p) == []
  {
    if forall i | 0 <= i < |p| :: p[i] != '.' {
      NothingKept(DigitOrSeparator, p, |p|);
    }
  }

  lemma {:induction false} NothingKept(keeps: char -> bool, s: string, n: nat)
    requires n <= |s| && forall i | 0 <= i < n :: !keeps(s[i])
    ensures FilterTo(keeps, s, n) == []
  {
    if n > 0 {
      NothingKept(keeps, s, n - 1);
    }
  }

  /** A prefix of letters and a blank, or a minus sign. */
  predicate Quiet(p: string) { Mute(p) && forall i | 0 <= i < |p| :: p[i] != '.' }

  lemma QuietDigits(p: string, s: string)
    requires Quiet(p)
    ensures DigitsAndSeparators(p + s) == DigitsAndSeparators(s)
  {
    hide Mute;
    MuteFilter(p);
    FilterConcat(DigitOrSeparator, p, s);
  }

  lemma {:induction false} QuietWithout(p: string, n: nat)
    requires n <= |p| && forall i | 0 <= i < n :: p[i] != '.'
    ensures WithoutTo(p, '.', n) == p[..n]
  {
    if n > 0 {
      QuietWithout(p, n - 1);
      assert p[..n] == p[..n - 1] + [p[n - 1]];
    }
  }

  lemma ReplaceConcat(a: string, b: string)
    requires forall i | 0 <= i < |a| :: a[i] != ','
    ensures Replace(a + b, ',', '.') == a + Replace(b, ',', '.')
  {
  }

  /** The comma form of a prefixed text is the prefixed comma form. */
  lemma QuietCommaForm(p: string, s: string)
    requires Quiet(p)
    ensures Replace(Without(p + s, '.'), ',', '.') == p + Replace(Without(s, '.'), ',', '.')
  {
    hide Replace;
    WithoutConcat(p, s, '.');
    QuietWithout(p, |p|);
    assert p[..|p|] == p;
    ReplaceConcat(p, Without(s, '.'));
  }

  lemma CleanedBehind(p: string, s: string)
    requires forall i | 0 <= i < |p| :: !InDecimal(p[i])
    ensures Cleaned(p + s) == Cleaned(s)
  {
    NothingKept(InDecimal, p, |p|);
    FilterConcat(InDecimal, p, s);
    assert [] + Filter(InDecimal, s) == Filter(InDecimal, s);
  }

  lemma MinusOf(s: string)
    requires s != [] && !IsSpace(s[0])
    ensures Minus(s) == if s[0] == '-' then "-" else ""
  {
  }

  /** A rule rewrites the digits of the numeral, and with them the sign in front. */
  predicate Regrouped(s: string, locale: Locale) {
    || (locale == EU && European(DigitsAndSeparators(s)).Some?)
    || (!CommaForm(s) && DigitRule(DigitsAndSeparators(s)).Some?)
  }

  lemma LocaleAs(s: string, locale: Locale)
    ensures var e := European(DigitsAndSeparators(s));
      ApplyLocale(s, locale) == if locale == EU && e.Some? then Minus(s) + e.value else s
  {
    hide European;
    hide DigitsAndSeparators;
    hide Minus;
  }

  /** A numeral without its sign. */
  lemma Unsigned(s: string)
    requires Numeral(s) && s[0] == '-'
    ensures |s| > 1 && Minus(s[1..]) == "" && Minus(s) == "-"
    ensures DigitsAndSeparators(s[1..]) == DigitsAndSeparators(s) && (CommaForm(s[1..]) <==> CommaForm(s))
  {
    var x := s[1..];
    assert s == "-" + x;
    QuietDigits("-", x);
    CommaFormBehind("-", x);
    MinusOf(s);
    MinusOf(x);
  }

  lemma NumeralMinus(s: string)
    requires Numeral(s) && s[0] != '-'
    ensures Minus(s) == ""
  {
    MinusOf(s);
  }

  /** Behind letters and a blank a numeral reads as it is, unless a rule rewrites it: then
      its sign is lost. */
  lemma BehindQuiet(p: string, s: string, locale: Locale)
    requires Quiet(p) && p != [] && !IsSpace(p[0]) && (forall i | 0 <= i < |p| :: !InDecimal(p[i])) && Numeral(s)
    ensures ParseNumeral(p + s, locale)
      == if s[0] == '-' && Regrouped(s, locale) then ParseNumeral(s[1..], locale) else ParseNumeral(s, locale)
  {
    hide CommaForm;
    hide DigitRule;
    hide European;
    hide DigitsAndSeparators;
    hide ApplySeparators;
    hide ApplyLocale;
    hide Minus;
    hide Convert;
    hide Cleaned;
    hide Replace;
    QuietDigits(p, s);
    CommaFormBehind(p, s);
    QuietCommaForm(p, s);
    MinusOf(p + s);
    LocaleAs(p + s, locale);
    LocaleAs(s, locale);
    SeparatorsAs(p + s);
    SeparatorsAs(s);
    CleanedBehind(p, s);
    CleanedBehind(p, Replace(Without(s, '.'), ',', '.'));
    if s[0] == '-' {
      Unsigned(s);
      LocaleAs(s[1..], locale);
      SeparatorsAs(s[1..]);
    } else {
      NumeralMinus(s);
    }
    Unprefixed(European(DigitsAndSeparators(s)));
    Unprefixed(DigitRule(DigitsAndSeparators(s)));
  }

  lemma Unprefixed(rule: Option<string>)
    ensures rule.Some? ==> "" + rule.value == rule.value
  {
  }

  // Dots in front.

  /** No rule reads digits behind a leading dot. */
  lemma DottedUnruled(d: string)
    requires d != [] && d[0] == '.'
    ensures DigitRule(d) == None && European(d) == None
  {
    forall s: string, sep: char | s != [] && s[0] == '.' ensures !Grouped(s, sep) {
      if Grouped(s, sep) {
        GroupedChars(s, sep);
      }
    }
    hide Grouped;
    hide Without;
    assert |d| > 3 ==> d[..|d| - 3][0] == '.';
    var comma := Find(d, ',', 0);
    assert comma > 0 ==> d[..comma][0] == '.';
  }

  /** Behind a prefix with dots only the comma form is read. */
  lemma BehindDots(p: string, q: string, s: string, locale: Locale)
    requires Mute(p) && p != [] && !IsSpace(p[0]) && Without(p, '.') == q && Numeral(s)
    requires (forall i | 0 <= i < |q| :: !InDecimal(q[i]) && q[i] != ',')
    requires DigitsAndSeparators(p) == ".." && Filter(InDecimal, p) == ".."
    ensures ParseNumeral(p + s, locale) == if CommaForm(s) then ParseNumeral(s, NoHint) else None
  {
    hide CommaForm;
    hide DigitRule;
    hide European;
    hide ApplySeparators;
    hide ApplyLocale;
    hide Minus;
    hide Convert;
    hide Cleaned;
    hide Replace;
    hide FilterTo;
    hide WithoutTo;
    FilterConcat(DigitOrSeparator, p, s);
    DottedUnruled(DigitsAndSeparators(p + s));
    CommaFormBehind(p, s);
    LocaleAs(p + s, locale);
    LocaleAs(s, NoHint);
    SeparatorsAs(p + s);
    SeparatorsAs(s);
    WithoutConcat(p, s, '.');
    ReplaceConcat(q, Without(s, '.'));
    CleanedBehind(q, Replace(Without(s, '.'), ',', '.'));
    DotsUnread(p, s);
  }

  lemma DotsUnread(p: string, s: string)
    requires Filter(InDecimal, p) == ".." && Numeral(s)
    ensures Convert(Cleaned(p + s)) == None
  {
    FilterConcat(InDecimal, p, s);
    LastKept(s);
    var f := Filter(InDecimal, s);
    var x := ".." + f;
    assert Filter(InDecimal, p + s) == x && x[|x| - 1] != '-';
    hide FilterTo;
    assert Cleaned(p + s) == x;
    assert Find(x, '.', 0) == 0;
    assert x[1..][0] == '.';
  }

  lemma LastKept(s: string)
    requires Numeral(s)
    ensures var f := Filter(InDecimal, s); f != [] && IsDigit(f[|f| - 1])
  {
  }

  // ---- the two words -------------------------------------------------------------------------------------- //

  lemma DigitEndKeeps(t: string)
    requires |t| >= 2 && IsDigit(t[|t| - 1])
    ensures DropRupeesOnly(t) == t && DropDrCr(t) == t
  {
    NoRupeesSign(t);
    var n := |t|;
    assert TrimEnd(t, 0, n) == n;
    var last := LowerAll(t[n - 2..n]);
    assert last[1] == Lower(t[n - 1]);
  }

  lemma NoSplit(p: string, s: string)
    requires (forall i | 0 <= i < |p| :: !IsDigit(p[i])) && Numeral(s)
    ensures !SplitDigits(p + s)
  {
    var t := p + s;
    forall i | 0 <= i < |t| ensures !SplitDigitsAt(t, i) {
      assert i >= |p| ==> t[i] == s[i - |p|];
      assert i + 1 < |t| && i >= |p| ==> t[i + 1] == s[i + 1 - |p|] && !IsSpace(t[i + 1]);
    }
  }

  /** A text that the currency rule leaves alone, after the symbols are gone. */
  lemma ReadBehind(t: string, p: string, s: string, locale: Locale)
    requires DropCurrency(t) == t && DropSymbols(t) == p + s && Numeral(s)
    requires p != [] && !IsSpace(p[0]) && forall i | 0 <= i < |p| :: !IsDigit(p[i])
    requires t != [] && !IsSpace(t[0]) && t[0] != '(' && !IsSpace(t[|t| - 1])
    ensures ParseDecimal(Token(t), locale) == ParseNumeral(p + s, locale)
  {
    hide DropCurrency;
    hide DropSymbols;
    hide DropRupeesOnly;
    hide DropDrCr;
    hide ParseNumeral;
    hide SplitDigits;
    hide Strip;
    hide SpaceThousands;
    var u := p + s;
    DigitEndKeeps(u);
    NoSplit(p, s);
    StripOfVisible(u);
    TokenInner(t, locale);
  }

  lemma DollarPrefix(w: string, s: string)
    requires LowerAll(w) == "us$"
    ensures |w| == 3 && IsLetter(w[0]) && IsLetter(w[1]) && w[2] == '$'
  {
    assert LowerAll(w)[0] == Lower(w[0]) && LowerAll(w)[1] == Lower(w[1]) && LowerAll(w)[2] == Lower(w[2]);
  }

  lemma DollarDropped(w: string, s: string)
    requires LowerAll(w) == "us$" && Numeral(s)
    ensures DropSymbols(w + " " + s) == w[..2] + " " + s
  {
    DollarPrefix(w, s);
    FilterAll(NotSymbol, w[..2], 2);
    FilterAll(NotSymbol, " " + s, |s| + 1);
    FilterConcat(NotSymbol, w[..2], "$");
    FilterConcat(NotSymbol, w[..2] + "$", " " + s);
    assert FilterTo(NotSymbol, "$", 1) == [] by {
      assert FilterTo(NotSymbol, "$", 0) == [];
    }
    hide FilterTo;
    assert w[..2][..2] == w[..2] && (" " + s)[..|s| + 1] == " " + s;
    assert w == w[..2] + "$";
    assert w + " " + s == w[..2] + "$" + (" " + s);
    assert w[..2] + " " + s == w[..2] + [] + (" " + s);
  }

  lemma UnknownWord(w: string, s: string, i: nat)
    requires LETTERED <= i < |CURRENCIES| && LowerAll(w) == CURRENCIES[i] && Numeral(s)
    ensures DropCurrency(w + " " + s) == w + " " + s && w != [] && IsLetter(w[0]) && w[0] != '('
  {
    hide CurrencyLen;
    assert LowerAll(w)[0] == Lower(w[0]) == 'u';
    MarkedNotFound(w, s, i);
    assert SkipSpace(w + " " + s, 0) == 0;
  }

  /** With "us$" left in the text, the symbol rule takes the "$" away and the letters do no
      harm but one: where a rule rewrites the number, its sign is lost. */
  lemma DollarUsRead(w: string, s: string, locale: Locale)
    requires LowerAll(w) == "us$" && Numeral(s)
    ensures ParseDecimal(Token(w + " " + s), locale)
      == if s[0] == '-' && Regrouped(s, locale) then ParseNumeral(s[1..], locale) else ParseNumeral(s, locale)
  {
    hide *;
    DollarReady(w, s);
    ReadBehind(w + " " + s, w[..2] + " ", s, locale);
    BehindQuiet(w[..2] + " ", s, locale);
  }

  lemma DollarReady(w: string, s: string)
    requires LowerAll(w) == "us$" && Numeral(s)
    ensures |w| == 3
    ensures var t, p := w + " " + s, w[..2] + " ";
      && DropCurrency(t) == t && DropSymbols(t) == p + s
      && t != [] && !IsSpace(t[0]) && t[0] != '(' && !IsSpace(t[|t| - 1])
      && Quiet(p) && p != [] && !IsSpace(p[0]) && (forall i | 0 <= i < |p| :: !InDecimal(p[i]) && !IsDigit(p[i]))
  {
    hide DropCurrency;
    hide DropSymbols;
    hide LowerAll;
    UnknownWord(w, s, 8);
    DollarPrefix(w, s);
    DollarDropped(w, s);
    assert (w + " " + s)[|w| + |s|] == s[|s| - 1];
  }

  lemma DottedPrefix(w: string)
    requires LowerAll(w) == "u.s."
    ensures |w| == 4 && IsLetter(w[0]) && w[1] == '.' && IsLetter(w[2]) && w[3] == '.'
  {
    assert LowerAll(w)[0] == Lower(w[0]) && LowerAll(w)[1] == Lower(w[1]);
    assert LowerAll(w)[2] == Lower(w[2]) && LowerAll(w)[3] == Lower(w[3]);
  }

  lemma DottedKept(p: string)
    requires |p| == 5 && IsLetter(p[0]) && p[1] == '.' && IsLetter(p[2]) && p[3] == '.' && p[4] == ' '
    ensures DigitsAndSeparators(p) == ".." && Filter(InDecimal, p) == ".." && Without(p, '.') == [p[0], p[2], ' ']
  {
    assert FilterTo(DigitOrSeparator, p, 1) == [] && FilterTo(InDecimal, p, 1) == [] && WithoutTo(p, '.', 1) == [p[0]];
    assert FilterTo(DigitOrSeparator, p, 2) == "." && FilterTo(InDecimal, p, 2) == "." && WithoutTo(p, '.', 2) == [p[0]];
    assert FilterTo(DigitOrSeparator, p, 3) == "." && FilterTo(InDecimal, p, 3) == ".";
    assert WithoutTo(p, '.', 3) == [p[0], p[2]];
    assert FilterTo(DigitOrSeparator, p, 4) == ".." && FilterTo(InDecimal, p, 4) == "..";
    assert WithoutTo(p, '.', 4) == [p[0], p[2]];
  }

  /** With "u.s." left in the text, only a decimal comma gets past its dots. */
  lemma DottedUsRead(w: string, s: string, locale: Locale)
    requires LowerAll(w) == "u.s." && Numeral(s)
    ensures ParseDecimal(Token(w + " " + s), locale) == if CommaForm(s) then ParseNumeral(s, NoHint) else None
  {
    hide *;
    DottedReady(w, s);
    ReadBehind(w + " " + s, w + " ", s, locale);
    BehindDots(w + " ", Without(w + " ", '.'), s, locale);
  }

  lemma DottedReady(w: string, s: string)
    requires LowerAll(w) == "u.s." && Numeral(s)
    ensures var t, p := w + " " + s, w + " ";
      var q := Without(p, '.');
      && DropCurrency(t) == t && DropSymbols(t) == p + s
      && t != [] && !IsSpace(t[0]) && t[0] != '(' && !IsSpace(t[|t| - 1])
      && Mute(p) && p != [] && !IsSpace(p[0]) && (forall i | 0 <= i < |p| :: !IsDigit(p[i]))
      && (forall i | 0 <= i < |q| :: !InDecimal(q[i]) && q[i] != ',')
      && DigitsAndSeparators(p) == ".." && Filter(InDecimal, p) == ".."
  {
    hide DropCurrency;
    hide LowerAll;
    hide FilterTo;
    hide WithoutTo;
    UnknownWord(w, s, 9);
    DottedPrefix(w);
    var t := w + " " + s;
    FilterAll(NotSymbol, t, |t|);
    assert t[..|t|] == t;
    DottedKept(w + " ");
    assert t[|w| + |s|] == s[|s| - 1];
  }

  /** "us$ -1.600" on a European page is read as 1600. */
  lemma DollarLosesSign(w: string, head: string)
    requires LowerAll(w) == "us$" && GroupedAtLeast(head, '.', 1)
    ensures ParseDecimal(Token(w + " " + ("-" + head)), EU) == Some(Dec(false, NatOf(Without(head, '.')), 0))
    ensures ParseDecimal(Token("-" + head), EU) == Some(Dec(true, NatOf(Without(head, '.')), 0))
  {
    hide ParseDecimal;
    hide ParseNumeral;
    hide Grouped;
    hide LowerAll;
    hide Without;
    EuropeanWhole(true, head);
    EuropeanWhole(false, head);
    EuropeanWholeLocale(true, head);
    EuropeanWholeLocale(false, head);
    assert SignText(true) == "-" && SignText(false) + head == head;
    GroupedChars(head, '.');
    Separators(true, head);
    BareNumeral(head, EU);
    DollarUsRead(w, "-" + head, EU);
    assert ("-" + head)[1..] == head;
  }
}
