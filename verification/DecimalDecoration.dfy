/** What may stand around a number: brackets, currency words, "/-", Dr and Cr. */
module DecimalDecoration {
  import opened Options
  import opened Text
  import opened Decimals
  import opened DecimalText
  import opened DecimalRoundTrip

  // ---- the stages, one at a time ------------------------------------------------------------- //

  lemma TokenInner(t: string, locale: Locale)
    requires t != [] && !IsSpace(t[0]) && !IsSpace(t[|t| - 1]) && !Accounting(t)
    ensures ParseDecimal(Token(t), locale) == ParseInner(t, locale)
  {
    hide ParseInner;
    hide IsSpace;
    StripOfVisible(t);
  }

  lemma InnerIs(t: string, s: string, locale: Locale)
    requires Numeral(s) && DropDecoration(t) == s
    ensures ParseInner(t, locale) == ParseNumeral(s, locale)
  {
    hide ParseNumeral;
    hide DropDecoration;
    SpacingKeeps(s);
    hide JoinSpaces;
  }

  lemma Stages4(t: string, a: string, b: string, c: string, s: string)
    requires DropCurrency(t) == a && DropSymbols(a) == b && DropRupeesOnly(b) == c && DropDrCr(c) == s && Numeral(s)
    ensures DropDecoration(t) == s
  {
    StripOfVisible(s);
    hide DropCurrency;
    hide DropSymbols;
    hide DropRupeesOnly;
    hide DropDrCr;
    hide Strip;
  }

  lemma {:induction false} NoWordAt(s: string, words: seq<string>)
    requires s != [] && !IsLetter(s[0])
    requires forall i | 0 <= i < |words| :: words[i] != [] && 'a' <= words[i][0] <= 'z'
    ensures CurrencyLen(s, 0, words) == 0
  {
    if words != [] {
      NoWordAt(s, words[1..]);
      if |words[0]| <= |s| {
        assert LowerAll(s[0..|words[0]|])[0] == Lower(s[0]);
      }
    }
  }

  lemma NoCurrencyWord(t: string)
    requires t != [] && !IsLetter(t[0]) && !IsSpace(t[0])
    ensures DropCurrency(t) == t
  {
    NoWordAt(t, CURRENCIES);
  }

  lemma NoSymbols(t: string)
    requires forall i | 0 <= i < |t| :: NotSymbol(t[i])
    ensures DropSymbols(t) == t
  {
    FilterAll(NotSymbol, t, |t|);
    assert t[..|t|] == t;
  }

  lemma NoRupeesSign(t: string)
    requires t != [] && !IsSpace(t[|t| - 1]) && t[|t| - 1] != '-' && t[|t| - 1] != '='
    ensures DropRupeesOnly(t) == t
  {
    hide IsSpace;
  }

  lemma NoDrCr(t: string)
    requires t != [] && IsDigit(t[|t| - 1])
    ensures DropDrCr(t) == t
  {
    var n := |t|;
    if n >= 2 {
      var last := LowerAll(t[n - 2..n]);
      assert last[1] == Lower(t[n - 1]);
      assert last != "dr" && last != "cr";
    }
  }

  // ---- what is recognised --------------------------------------------------------------------- //

  /** "(1,200)" is the negative of "1,200". */
  lemma BracketsNegate(s: string, locale: Locale)
    requires Numeral(s)
    ensures ParseDecimal(Token("(" + s + ")"), locale)
         == match ParseNumeral(s, locale) case None => None case Some(d) => Some(Negate(d))
  {
    hide ParseInner;
    hide ParseNumeral;
    var t := "(" + s + ")";
    StripOfVisible(t);
    assert t[1..|t| - 1] == s;
    InnerNumeral(s, locale);
  }

  lemma NumeralStarts(s: string)
    requires Numeral(s)
    ensures s != [] && s[0] != '(' && !IsSpace(s[0])
  {
  }

  lemma PlainEnds(t: string)
    requires t != [] && t[0] != '('
    requires t[|t| - 1] == '-' || t[|t| - 1] == '=' || IsLetter(t[|t| - 1])
    ensures !IsSpace(t[|t| - 1]) && !Accounting(t)
  {
  }

  /** "1,234/-" and "1,234/=" are "1,234". */
  lemma RupeesOnlyDropped(s: string, mark: char, locale: Locale)
    requires Numeral(s) && (mark == '-' || mark == '=')
    ensures ParseDecimal(Token(s + ['/', mark]), locale) == ParseNumeral(s, locale)
  {
    hide *;
    var t := s + ['/', mark];
    NumeralStarts(s);
    RupeesDecoration(s, mark);
    PlainEnds(t);
    TokenInner(t, locale);
    InnerIs(t, s, locale);
  }

  lemma RupeesDecoration(s: string, mark: char)
    requires Numeral(s) && (mark == '-' || mark == '=')
    ensures DropDecoration(s + ['/', mark]) == s
  {
    var t := s + ['/', mark];
    NoCurrencyWord(t);
    NoSymbols(t);
    RupeesCut(s, mark);
    DrCrKeeps(s);
    hide DropCurrency;
    hide DropSymbols;
    hide DropRupeesOnly;
    hide DropDrCr;
    Stages4(t, t, t, s, s);
    hide *;
  }

  lemma RupeesCut(s: string, mark: char)
    requires Numeral(s) && (mark == '-' || mark == '=')
    ensures DropRupeesOnly(s + ['/', mark]) == s
  {
    var t, n := s + ['/', mark], |s|;
    assert TrimEnd(t, 0, n + 2) == n + 2;
    assert TrimEnd(t, 0, n + 1) == n + 1;
    assert TrimEnd(t, 0, n) == n;
    assert t[..n] == s;
  }

  /** "1,234 Dr" and "1,234 CR" are "1,234". */
  lemma DrCrDropped(s: string, word: string, locale: Locale)
    requires Numeral(s) && DrOrCr(LowerAll(word))
    ensures ParseDecimal(Token(s + " " + word), locale) == ParseNumeral(s, locale)
  {
    hide *;
    var t := s + " " + word;
    NumeralStarts(s);
    DrCrWord(word);
    DrCrDecoration(s, word);
    PlainEnds(t);
    TokenInner(t, locale);
    InnerIs(t, s, locale);
  }

  lemma DrCrDecoration(s: string, word: string)
    requires Numeral(s) && DrOrCr(LowerAll(word))
    ensures DropDecoration(s + " " + word) == s
  {
    var t := s + " " + word;
    DrCrWord(word);
    NoCurrencyWord(t);
    NoSymbols(t);
    NoRupeesSign(t);
    DrCrCut(s, word);
    hide DropCurrency;
    hide DropSymbols;
    hide DropRupeesOnly;
    hide DropDrCr;
    Stages4(t, t, t, t, s);
    hide *;
  }

  lemma DrCrWord(word: string)
    requires DrOrCr(LowerAll(word))
    ensures |word| == 2 && IsLetter(word[0]) && IsLetter(word[1])
  {
    assert LowerAll(word)[0] == Lower(word[0]) && LowerAll(word)[1] == Lower(word[1]);
  }

  lemma NotSpace(c: char)
    requires IsDigit(c) || IsLetter(c)
    ensures !IsSpace(c)
  {
  }

  lemma DrCrCut(s: string, word: string)
    requires Numeral(s) && |word| == 2 && IsLetter(word[1]) && DrOrCr(LowerAll(word))
    ensures DropDrCr(s + " " + word) == s
  {
    hide IsSpace;
    hide DrOrCr;
    hide LowerAll;
    var t, n := s + " " + word, |s|;
    NotSpace(word[1]);
    NotSpace(s[n - 1]);
    BlankIsSpace();
    assert t[n] == ' ' && t[n - 1] == s[n - 1] && t[n + 2] == word[1];
    assert TrimEnd(t, 0, n + 3) == n + 3;
    assert t[n + 1..n + 3] == word;
    assert TrimEnd(t, 0, n + 1) == TrimEnd(t, 0, n) == n;
    assert t[..n] == s;
  }

  lemma BlankIsSpace()
    ensures IsSpace(' ')
  {
  }

  // ---- currency words ------------------------------------------------------------------------------ //

  lemma {:induction false} FirstWordIs(s: string, words: seq<string>, i: nat)
    requires i < |words| && CurrencyAt(s, 0, words[i]) && words[i] != []
    requires forall j | 0 <= j < i :: !CurrencyAt(s, 0, words[j])
    ensures CurrencyLen(s, 0, words) == |words[i]|
  {
    if i > 0 {
      FirstWordIs(s, words[1..], i - 1);
    }
  }

  lemma OtherInitial(s: string, word: string)
    requires s != [] && word != [] && Lower(s[0]) != word[0]
    ensures !CurrencyAt(s, 0, word)
  {
    if |word| <= |s| {
      assert LowerAll(s[0..|word|])[0] == Lower(s[0]);
    }
  }

  /** Words of letters: every currency word but "us$" and "u.s.". */
  const LETTERED := 8

  lemma WordFound(w: string, sep: string, s: string, i: nat)
    requires i < LETTERED && LowerAll(w) == CURRENCIES[i] && sep != [] && !IsWord(sep[0])
    ensures CurrencyLen(w + sep + s, 0, CURRENCIES) == |w|
  {
    var t := w + sep + s;
    assert w != [] && LowerAll(w)[0] == Lower(w[0]) == CURRENCIES[i][0];
    forall j | 0 <= j < i
      ensures !CurrencyAt(t, 0, CURRENCIES[j])
    {
      OtherInitial(t, CURRENCIES[j]);
    }
    assert t[0..|w|] == w;
    var last := |w| - 1;
    assert LowerAll(w)[last] == Lower(w[last]) == CURRENCIES[i][last];
    assert WordAt(t, last) && !WordAt(t, |w|);
    FirstWordIs(t, CURRENCIES, i);
  }

  /** A currency word, perhaps a dot, and blanks: gone. */
  lemma CurrencyCut(w: string, dot: string, blanks: string, s: string, i: nat)
    requires i < LETTERED && LowerAll(w) == CURRENCIES[i]
    requires (dot == "" || dot == ".") && AllSpace(blanks) && dot + blanks != []
    requires s != [] && !IsSpace(s[0])
    ensures DropCurrency(w + (dot + blanks) + s) == s
  {
    hide IsSpace;
    hide IsWord;
    hide CurrencyLen;
    hide LowerAll;
    var sep := dot + blanks;
    var t := w + sep + s;
    NoWordFollows(blanks);
    WordFound(w, sep, s, i);
    LetteredStarts(w, i);
    NotSpace(w[0]);
    assert SkipSpace(t, 0) == 0;
    var k := |w| + |dot|;
    assert dot == "" ==> t[|w|] == blanks[0];
    assert t[k + |blanks|..] == s;
  }

  lemma NoWordFollows(blanks: string)
    requires AllSpace(blanks)
    ensures !IsWord('.') && !IsSpace('.')
    ensures blanks != [] ==> !IsWord(blanks[0]) && blanks[0] != '.'
  {
  }

  lemma LetteredStarts(w: string, i: nat)
    requires i < LETTERED && LowerAll(w) == CURRENCIES[i]
    ensures w != [] && IsLetter(w[0])
  {
    assert LowerAll(w)[0] == Lower(w[0]) == CURRENCIES[i][0];
  }

  /** "Rs. 1,234", "INR 1,234" and the like are "1,234". */
  lemma CurrencyDropped(w: string, dot: string, blanks: string, s: string, i: nat, locale: Locale)
    requires i < LETTERED && LowerAll(w) == CURRENCIES[i]
    requires (dot == "" || dot == ".") && AllSpace(blanks) && dot + blanks != []
    requires Numeral(s)
    ensures ParseDecimal(Token(w + (dot + blanks) + s), locale) == ParseNumeral(s, locale)
  {
    var t := w + (dot + blanks) + s;
    NumeralStarts(s);
    CurrencyCut(w, dot, blanks, s, i);
    LetteredStarts(w, i);
    SymbolsKeep(s);
    SpacingKeeps(s);
    DrCrKeeps(s);
    assert !Accounting(t) && t != [] && !IsSpace(t[0]) && !IsSpace(t[|t| - 1]);
    hide *;
    Stages4(t, s, s, s, s);
    TokenInner(t, locale);
    InnerIs(t, s, locale);
  }

  /** The currency rule wants a word boundary behind the word, so "us$" and "u.s." are
      not recognised in front of a blank, and every other currency word is. */
  lemma CurrencyRecognisedExactly(w: string, s: string, i: nat)
    requires i < |CURRENCIES| && LowerAll(w) == CURRENCIES[i] && Numeral(s)
    ensures DropCurrency(w + " " + s) == s <==> i < LETTERED
  {
    var t := w + " " + s;
    if i < LETTERED {
      CurrencyCut(w, "", " ", s, i);
      assert "" + " " == " ";
    } else {
      assert LowerAll(w)[0] == Lower(w[0]) == 'u';
      MarkedNotFound(w, s, i);
      assert SkipSpace(t, 0) == 0;
      assert |t| > |s|;
    }
  }

  lemma MarkedNotFound(w: string, s: string, i: nat)
    requires LETTERED <= i < |CURRENCIES| && LowerAll(w) == CURRENCIES[i] && Numeral(s)
    ensures CurrencyLen(w + " " + s, 0, CURRENCIES) == 0
  {
    var t := w + " " + s;
    assert |w| == |CURRENCIES[i]| && forall k | 0 <= k < |w| :: Lower(w[k]) == CURRENCIES[i][k];
    forall j | 0 <= j < |CURRENCIES|
      ensures !CurrencyAt(t, 0, CURRENCIES[j])
    {
      MarkedAt(t, w, i, j);
    }
    NoneFound(t, CURRENCIES);
  }

  lemma {:induction false} NoneFound(t: string, words: seq<string>)
    requires forall j | 0 <= j < |words| :: !CurrencyAt(t, 0, words[j])
    ensures CurrencyLen(t, 0, words) == 0
  {
    if words != [] {
      NoneFound(t, words[1..]);
    }
  }

  lemma MarkedAt(t: string, w: string, i: nat, j: nat)
    requires LETTERED <= i < |CURRENCIES| && j < |CURRENCIES| && LowerAll(w) == CURRENCIES[i]
    requires |t| > |w| && t[..|w|] == w && t[|w|] == ' '
    ensures !CurrencyAt(t, 0, CURRENCIES[j])
  {
    var v := CURRENCIES[j];
    assert LowerAll(w)[0] == Lower(w[0]) && LowerAll(w)[1] == Lower(w[1]) && LowerAll(w)[2] == Lower(w[2]);
    assert forall k | 0 <= k < |w| :: t[k] == w[k] && Lower(w[k]) == CURRENCIES[i][k];
    if |v| <= |t| {
      assert forall k | 0 <= k < |v| :: LowerAll(t[0..|v|])[k] == Lower(t[k]);
    }
  }
}
