/** Marks around a number: currency words and symbols, and the hashes of SWIFT fields. */
module DecimalMarks {
  import opened Options
  import opened Text
  import opened Decimals
  import opened DecimalText
  import opened DecimalRoundTrip
  import opened DecimalSeparators
  import opened DecimalDecoration

  // ---- currency words and symbols ---------------------------------------------------------------- //

  /** Eight words are dropped with the dot or the blanks behind them, in any case. */
  lemma WordsDropped(w: string, dot: string, blanks: string, s: string, locale: Locale)
    requires LowerAll(w) in ["rs", "inr", "npr", "usd", "aed", "eur", "gbp", "sgd"]
    requires (dot == "" || dot == ".") && AllSpace(blanks) && dot + blanks != []
    requires Numeral(s)
    ensures ParseDecimal(Token(w + (dot + blanks) + s), locale) == ParseNumeral(s, locale)
  {
    var words := ["rs", "inr", "npr", "usd", "aed", "eur", "gbp", "sgd"];
    var i: nat :| i < |words| && words[i] == LowerAll(w);
    assert CURRENCIES[i] == words[i];
    hide *;
    CurrencyDropped(w, dot, blanks, s, i, locale);
  }

  predicate Symbol(c: char) { c in "$\U{A3}\U{20AC}\U{20B9}" }

  lemma SymbolGoes(c: char, s: string)
    requires Symbol(c) && Numeral(s)
    ensures DropSymbols([c] + s) == s && DropSymbols(s + [c]) == s
  {
    SymbolsKeep(s);
    FilterConcat(NotSymbol, [c], s);
    FilterConcat(NotSymbol, s, [c]);
    assert FilterTo(NotSymbol, [c], 0) == [];
    assert Filter(NotSymbol, [c]) == [];
  }

  lemma SymbolIsNoSpace(c: char)
    requires Symbol(c)
    ensures !IsSpace(c) && !IsLetter(c) && c != '(' && c != ')'
  {
  }

  lemma SymbolDecoration(c: char, s: string)
    requires Symbol(c) && Numeral(s)
    ensures DropDecoration([c] + s) == s && DropDecoration(s + [c]) == s
  {
    SymbolIsNoSpace(c);
    NumeralStarts(s);
    NumeralInitial(s);
    NoCurrencyWord([c] + s);
    NoCurrencyWord(s + [c]);
    SymbolGoes(c, s);
    SpacingKeeps(s);
    DrCrKeeps(s);
    hide *;
    Stages4([c] + s, [c] + s, s, s, s);
    Stages4(s + [c], s + [c], s, s, s);
  }

  lemma NumeralInitial(s: string)
    requires Numeral(s)
    ensures s != [] && !IsLetter(s[0]) && !IsSpace(s[|s| - 1]) && s[|s| - 1] != ')'
  {
  }

  lemma SymbolEnds(c: char, s: string)
    requires Symbol(c) && s != [] && s[0] != '(' && !IsSpace(s[0]) && !IsSpace(s[|s| - 1])
    ensures forall t | t == [c] + s || t == s + [c] :: t != [] && !IsSpace(t[0]) && !IsSpace(t[|t| - 1]) && !Accounting(t)
  {
    SymbolIsNoSpace(c);
    hide IsSpace, Symbol;
  }

  /** A currency symbol on either side is dropped. */
  lemma SymbolDropped(c: char, s: string, locale: Locale)
    requires Symbol(c) && Numeral(s)
    ensures ParseDecimal(Token([c] + s), locale) == ParseNumeral(s, locale)
    ensures ParseDecimal(Token(s + [c]), locale) == ParseNumeral(s, locale)
  {
    SymbolIsNoSpace(c);
    NumeralStarts(s);
    NumeralInitial(s);
    SymbolDecoration(c, s);
    SymbolEnds(c, s);
    hide *;
    TokenInner([c] + s, locale);
    InnerIs([c] + s, s, locale);
    TokenInner(s + [c], locale);
    InnerIs(s + [c], s, locale);
  }

  // ---- SWIFT fields --------------------------------------------------------------------------------- //

  function Hashed(body: string): string { "#" + body + "#" }

  lemma HashesDecoration(body: string)
    requires forall i | 0 <= i < |body| :: DigitOrSeparator(body[i])
    ensures DropDecoration(Hashed(body)) == Hashed(body)
  {
    var t := Hashed(body);
    NoCurrencyWord(t);
    NoSymbols(t);
    NoRupeesSign(t);
    HashNoDrCr(t);
    StripOfVisible(t);
    hide *;
    assert DropDecoration(t) == Strip(DropDrCr(DropRupeesOnly(DropSymbols(DropCurrency(t)))));
  }

  lemma HashNoDrCr(t: string)
    requires |t| >= 2 && t[|t| - 1] == '#'
    ensures DropDrCr(t) == t
  {
    var n := |t|;
    var last := LowerAll(t[n - 2..n]);
    assert last[1] == Lower(t[n - 1]);
    assert last != "dr" && last != "cr";
  }

  lemma HashesInner(body: string, locale: Locale)
    requires forall i | 0 <= i < |body| :: DigitOrSeparator(body[i])
    ensures ParseDecimal(Token(Hashed(body)), locale) == ParseNumeral(Hashed(body), locale)
  {
    var t := Hashed(body);
    HashesDecoration(body);
    assert !SplitDigits(t);
    assert JoinSpaces(t) == Some(t);
    assert t[0] == '#' && t[|t| - 1] == '#' && !Accounting(t);
    hide DropDecoration, JoinSpaces, ParseNumeral;
    TokenInner(t, locale);
  }

  lemma HashesFiltered(p: char -> bool, body: string)
    requires !p('#') && forall i | 0 <= i < |body| :: p(body[i])
    ensures Filter(p, Hashed(body)) == body
  {
    FilterConcat(p, "#" + body, "#");
    FilterConcat(p, "#", body);
    FilterAll(p, body, |body|);
    assert FilterTo(p, "#", 0) == [];
    assert Filter(p, "#") == [] && body[..|body|] == body;
  }

  lemma LongHead(head: string, frac: string)
    requires |head| > 3 && AllDigits(head) && AllDigits(frac)
    ensures European(head + "," + frac).None?
  {
    var body := head + "," + frac;
    var comma := Find(body, ',', 0);
    assert body[|head|] == ',';
    assert comma == |head| && body[..comma] == head;
    assert !Grouped(head, '.');
    if GroupedAtLeast(body, '.', 1) {
      GroupedChars(body, '.');
    }
  }

  lemma HashesLocale(head: string, frac: string, locale: Locale)
    requires head != [] && AllDigits(head) && 1 <= |frac| <= 2 && AllDigits(frac)
    ensures var t := Hashed(head + "," + frac);
      ApplyLocale(t, locale) == t || ApplyLocale(t, locale) == Written(false, head, frac)
  {
    var body := head + "," + frac;
    var t := Hashed(body);
    HashesFiltered(DigitOrSeparator, body);
    assert SkipSpace(t, 0) == 0;
    assert Minus(t) == "";
    if |head| <= 3 {
      EuropeanComma(head, frac);
      DigitsWithout(head, '.');
      assert "" + (head + "." + frac) == Written(false, head, frac);
    } else {
      LongHead(head, frac);
    }
    hide European, Filter, Without;
  }

  lemma HashedChars(t: string, head: string, frac: string)
    requires head != [] && AllDigits(head) && 1 <= |frac| <= 2 && AllDigits(frac) && t == Hashed(head + "," + frac)
    ensures var k := 1 + |head|;
      && k + |frac| + 2 == |t| && t[k] == ',' && IsDigit(t[k - 1]) && t[|t| - 1] == '#'
      && (forall i | k < i <= k + |frac| :: IsDigit(t[i]))
      && (forall i | 0 <= i < |t| && i != k :: t[i] != ',')
      && (forall i | 0 <= i < |t| :: t[i] != '.')
  {
    var k := 1 + |head|;
    assert t[k - 1] == head[|head| - 1];
    assert forall i | k < i <= k + |frac| :: t[i] == frac[i - k - 1];
  }

  lemma HashedCommaSeen(t: string, k: nat, n: nat)
    requires 1 <= n <= 2 && 0 < k && k + n + 2 == |t| && t[k] == ',' && IsDigit(t[k - 1]) && t[|t| - 1] == '#'
    requires forall i | k < i <= k + n :: IsDigit(t[i])
    requires forall i | 0 <= i < |t| && i != k :: t[i] != ','
    requires forall i | 0 <= i < |t| :: t[i] != '.'
    ensures CommaDecimal(t) && Count(t, ',') == 1 && RFind(t, '.') < RFind(t, ',') && Without(t, '.') == t
  {
    assert CommaDecimalAt(t, k - 1);
    OneCounted(t, ',', k, |t|);
    assert RFind(t, ',') == k;
    WithoutAbsent(t, '.', |t|);
    assert t[..|t|] == t;
    hide CountTo, WithoutTo;
  }

  lemma HashedComma(head: string, frac: string)
    requires head != [] && AllDigits(head) && 1 <= |frac| <= 2 && AllDigits(frac)
    ensures ApplySeparators(Hashed(head + "," + frac)) == Hashed(head + "." + frac)
  {
    var t := Hashed(head + "," + frac);
    HashedChars(t, head, frac);
    HashedCommaSeen(t, 1 + |head|, |frac|);
    PointFor(t, head, frac);
    hide CommaDecimal, RFind, Replace, Count, Without, Hashed, AllDigits;
  }

  lemma PointFor(t: string, head: string, frac: string)
    requires AllDigits(head) && AllDigits(frac) && t == Hashed(head + "," + frac)
    ensures Replace(t, ',', '.') == Hashed(head + "." + frac)
  {
  }

  lemma HashesCleaned(head: string, frac: string)
    requires head != [] && AllDigits(head) && frac != [] && AllDigits(frac)
    ensures Cleaned(Hashed(head + "." + frac)) == Cleaned(Written(false, head, frac))
  {
    var body := head + "." + frac;
    HashesFiltered(InDecimal, body);
    FilterAll(InDecimal, body, |body|);
    assert body[..|body|] == body == Written(false, head, frac);
    hide FilterTo;
  }

  /** "#7023,17#": the hashes of a SWIFT field are no part of the number. */
  lemma HashesDropped(head: string, frac: string, locale: Locale)
    requires head != [] && AllDigits(head) && 1 <= |frac| <= 2 && AllDigits(frac)
    ensures ParseDecimal(Token("#" + (head + "," + frac) + "#"), locale)
         == Some(Dec(false, NatOf(head + frac), 0 - |frac|))
  {
    var body := head + "," + frac;
    var t := Hashed(body);
    assert forall i | 0 <= i < |body| :: DigitOrSeparator(body[i]);
    HashesInner(body, locale);
    HashesLocale(head, frac, locale);
    DigitsWithout(head, ',');
    hide *;
    NumeralStages(t, locale, ApplyLocale(t, locale));
    FinishWritten(false, head, frac);
    if ApplyLocale(t, locale) == t {
      HashedComma(head, frac);
      HashesCleaned(head, frac);
    } else {
      WholeIsDigits(head, frac);
      SeparatorsKeepWritten(false, head, frac);
    }
    HashedIs(body);
  }

  lemma HashedIs(body: string)
    ensures Hashed(body) == "#" + body + "#"
  {
  }

  lemma WholeIsDigits(head: string, frac: string)
    requires head != [] && AllDigits(head) && frac != []
    ensures Whole(head, ',')
  {
  }
}
