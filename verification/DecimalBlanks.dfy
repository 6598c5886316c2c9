/** Blanks inside a token: thousands separators, or numbers jammed together. */
module DecimalBlanks {
  import opened Options
  import opened Text
  import opened Decimals
  import opened DecimalText
  import opened DecimalRoundTrip
  import opened DecimalSeparators
  import opened DecimalDecoration

  // ---- what a thousands grouping is ------------------------------------------------------------ //

  predicate ShortDigits(s: string) { 1 <= |s| <= 3 && AllDigits(s) }

  predicate ThreeDigits(s: string) { |s| == 3 && AllDigits(s) }

  /** Three digits, alone or followed by a point or comma and one or two more. */
  predicate LastGroup(s: string) {
    && |s| >= 3 && AllDigits(s[..3])
    && (|s| == 3 || (5 <= |s| <= 6 && (s[3] == '.' || s[3] == ',') && AllDigits(s[4..])))
  }

  function FractionOf(s: string): string { if |s| <= 4 then [] else s[4..] }

  /** The words with a blank between any two. */
  function Spaced(words: seq<string>): string
    requires words != []
  {
    var last := |words| - 1;
    if last == 0 then words[0] else Spaced(words[..last]) + " " + words[last]
  }

  /** The words with white space between any two: `gaps[i]` in front of word i. */
  function Gapped(words: seq<string>, gaps: seq<string>): string
    requires words != [] && |gaps| == |words|
  {
    var last := |words| - 1;
    if last == 0 then words[0] else Gapped(words[..last], gaps[..last]) + gaps[last] + words[last]
  }

  predicate Gaps(words: seq<string>, gaps: seq<string>) {
    |gaps| == |words| && forall i | 0 < i < |gaps| :: gaps[i] != [] && AllSpace(gaps[i])
  }

  function Joined(words: seq<string>): string {
    if words == [] then [] else Joined(words[..|words| - 1]) + words[|words| - 1]
  }

  /** Three digits from the second word on. */
  predicate Groups(words: seq<string>)
    requires words != []
  {
    ShortDigits(words[0]) && forall i | 0 < i < |words| :: ThreeDigits(words[i])
  }

  predicate FrontGroups(words: seq<string>)
    requires words != []
  {
    ShortDigits(words[0]) && forall i | 0 < i < |words| - 1 :: ThreeDigits(words[i])
  }

  /** Numerals one behind the other, of which only the first may begin with a sign or a
      separator. */
  predicate Jammed(words: seq<string>) {
    && words != [] && (forall i | 0 <= i < |words| :: Numeral(words[i]))
    && forall i | 0 < i < |words| :: IsDigit(words[i][0])
  }

  // ---- the characters of the token -------------------------------------------------------------- //

  predicate InToken(c: char) { DigitOrSeparator(c) || c == '-' || IsSpace(c) }

  /** A token of these characters, a digit last and no blank in front. */
  predicate Shaped(t: string, first: char) {
    && t != [] && t[0] == first && !IsSpace(first) && InToken(first) && IsDigit(t[|t| - 1])
    && forall i | 0 <= i < |t| :: InToken(t[i])
  }

  lemma NumeralShaped(s: string)
    requires Numeral(s)
    ensures s != [] && Shaped(s, s[0]) && forall i | 0 <= i < |s| :: !IsSpace(s[i])
  {
  }

  lemma {:induction false} GappedShaped(words: seq<string>, gaps: seq<string>)
    requires Jammed(words) && Gaps(words, gaps)
    ensures Shaped(Gapped(words, gaps), words[0][0])
  {
    var last := |words| - 1;
    NumeralShaped(words[last]);
    if last > 0 {
      GappedShaped(words[..last], gaps[..last]);
      ShapedMore(Gapped(words[..last], gaps[..last]), gaps[last], words[last], words[0][0]);
    }
  }

  lemma ShapedMore(a: string, gap: string, b: string, first: char)
    requires Shaped(a, first) && AllSpace(gap) && b != [] && Shaped(b, b[0])
    ensures Shaped(a + gap + b, first)
  {
    hide DigitOrSeparator, IsSpace;
    var t := a + gap + b;
    assert t[|t| - 1] == b[|b| - 1] && t[0] == a[0];
  }

  // ---- the stages in front of the blank rule ------------------------------------------------------ //

  lemma TokenUndecorated(t: string, first: char)
    requires Shaped(t, first)
    ensures DropDecoration(t) == t
  {
    NoCurrencyWord(t);
    NoSymbols(t);
    NoRupeesSign(t);
    NoDrCr(t);
    StripOfVisible(t);
    hide *;
    assert DropDecoration(t) == Strip(DropDrCr(DropRupeesOnly(DropSymbols(DropCurrency(t)))));
  }

  /** The front, then the last word with `b` in its place. */
  lemma SpacedLast(words: seq<string>, b: string)
    requires |words| >= 2
    ensures var last := |words| - 1;
      Spaced(words[last := b]) == Spaced(words[..last]) + " " + b
  {
    var last := |words| - 1;
    assert words[last := b][..last] == words[..last];
  }

  lemma FrontJammed(words: seq<string>)
    requires Jammed(words) && |words| >= 2
    ensures Jammed(words[..|words| - 1])
    ensures words[|words| - 1] != [] && IsDigit(words[|words| - 1][0])
  {
    hide IsDigit, DigitOrSeparator;
  }

  lemma BlankSplits(words: seq<string>, gaps: seq<string>)
    requires Jammed(words) && Gaps(words, gaps) && |words| >= 2
    ensures SplitDigits(Gapped(words, gaps))
  {
    var last := |words| - 1;
    FrontJammed(words);
    GappedShaped(words[..last], gaps[..last]);
    hide Jammed, Numeral, SplitDigits, InToken, IsDigit, AllSpace;
    SplitBetween(Gapped(words[..last], gaps[..last]), gaps[last], words[last]);
  }

  lemma SplitBetween(a: string, gap: string, b: string)
    requires a != [] && IsDigit(a[|a| - 1]) && gap != [] && AllSpace(gap) && b != [] && IsDigit(b[0])
    ensures SplitDigits(a + gap + b)
  {
    var t, k := a + gap + b, |a| + |gap|;
    assert t[|a| - 1] == a[|a| - 1] && t[k] == b[0] && forall i | |a| <= i < k :: t[i] == gap[i - |a|];
    assert SkipSpace(t, |a|) == k;
    assert SplitDigitsAt(t, |a| - 1);
  }

  lemma {:induction false} CollapsePrefix(a: string, b: string, n: nat)
    requires n <= |a| && n <= |b| && forall i | 0 <= i < n :: a[i] == b[i]
    ensures CollapseBlanks(a, n) == CollapseBlanks(b, n)
  {
    hide IsSpace;
    if n > 0 {
      CollapsePrefix(a, b, n - 1);
    }
  }

  function Collapsed(s: string): string { CollapseBlanks(s, |s|) }

  lemma CollapseOne(t: string, c: char)
    ensures Collapsed(t + [c])
         == if !IsSpace(c) then Collapsed(t) + [c]
            else if t != [] && IsSpace(t[|t| - 1]) then Collapsed(t) else Collapsed(t) + " "
  {
    hide IsSpace;
    CollapsePrefix(t + [c], t, |t|);
  }

  lemma {:induction false} CollapseWord(t: string, b: string)
    requires forall i | 0 <= i < |b| :: !IsSpace(b[i])
    ensures Collapsed(t + b) == Collapsed(t) + b
  {
    hide IsSpace;
    if b == [] {
      assert t + b == t;
    } else {
      var front := b[..|b| - 1];
      CollapseWord(t, front);
      CollapseOne(t + front, b[|b| - 1]);
      assert t + front + [b[|b| - 1]] == t + b && Collapsed(t) + front + [b[|b| - 1]] == Collapsed(t) + b;
    }
  }

  lemma {:induction false} CollapseGap(t: string, gap: string)
    requires t != [] && !IsSpace(t[|t| - 1]) && gap != [] && AllSpace(gap)
    ensures Collapsed(t + gap) == Collapsed(t) + " "
  {
    hide IsSpace;
    var front, c := gap[..|gap| - 1], gap[|gap| - 1];
    CollapseOne(t + front, c);
    assert t + front + [c] == t + gap;
    if front != [] {
      CollapseGap(t, front);
    } else {
      assert t + front == t;
    }
  }

  lemma {:induction false} CollapseGapped(words: seq<string>, gaps: seq<string>)
    requires Jammed(words) && Gaps(words, gaps)
    ensures Collapsed(Gapped(words, gaps)) == Spaced(words)
  {
    var last := |words| - 1;
    NumeralShaped(words[last]);
    if last > 0 {
      var front := Gapped(words[..last], gaps[..last]);
      FrontJammed(words);
      GappedShaped(words[..last], gaps[..last]);
      CollapseGapped(words[..last], gaps[..last]);
      hide Jammed, Numeral, InToken, IsDigit, AllSpace, Collapsed;
      ShapedEnds(front, words[0][0]);
      CollapseGap(front, gaps[last]);
      CollapseWord(front + gaps[last], words[last]);
    } else {
      CollapseWord("", words[0]);
      assert "" + words[0] == words[0] && Collapsed("") == "";
    }
  }

  lemma ShapedEnds(t: string, first: char)
    requires Shaped(t, first)
    ensures t != [] && !IsSpace(t[0]) && !IsSpace(t[|t| - 1]) && !IsLetter(t[0]) && !Accounting(t)
  {
  }

  lemma {:induction false} SpacedEnds(words: seq<string>)
    requires Jammed(words)
    ensures var t := Spaced(words); t != [] && !IsSpace(t[0]) && !IsSpace(t[|t| - 1])
  {
    var last := |words| - 1;
    NumeralShaped(words[last]);
    if last > 0 {
      SpacedEnds(words[..last]);
    }
  }

  lemma CoreIsToken(words: seq<string>, gaps: seq<string>)
    requires Jammed(words) && Gaps(words, gaps)
    ensures var core := Filter(InNumbers, Gapped(words, gaps));
      Strip(CollapseBlanks(core, |core|)) == Spaced(words)
  {
    var t := Gapped(words, gaps);
    GappedShaped(words, gaps);
    FilterAll(InNumbers, t, |t|);
    assert t[..|t|] == t;
    CollapseGapped(words, gaps);
    SpacedEnds(words);
    StripOfVisible(Spaced(words));
    hide CollapseBlanks;
    hide FilterTo;
  }

  lemma {:induction false} AllVisible(s: string, n: nat)
    requires n <= |s| && forall i | 0 <= i < n :: !IsSpace(s[i])
    ensures VisibleTo(s, n) == s[..n]
  {
    hide IsSpace;
    if n > 0 {
      AllVisible(s, n - 1);
      assert s[..n] == s[..n - 1] + [s[n - 1]];
    }
  }

  lemma NumeralVisible(s: string)
    requires Numeral(s)
    ensures Squeeze(s) == s
  {
    AllVisible(s, |s|);
    assert s[..|s|] == s;
  }

  lemma {:induction false} BlanksSqueezed(words: seq<string>, gaps: seq<string>)
    requires Jammed(words) && Gaps(words, gaps)
    ensures Squeeze(Gapped(words, gaps)) == Joined(words)
  {
    hide Squeeze, Numeral, AllSpace;
    var last := |words| - 1;
    NumeralVisible(words[last]);
    if last > 0 {
      var front := Gapped(words[..last], gaps[..last]);
      BlanksSqueezed(words[..last], gaps[..last]);
      SqueezeSpace(gaps[last]);
      SqueezeConcat(front + gaps[last], words[last]);
      SqueezeConcat(front, gaps[last]);
    } else {
      assert Joined(words[..0]) == [];
      assert words == [words[0]];
    }
  }

  // ---- the blank rule ---------------------------------------------------------------------------------- //

  predicate Blankless(s: string) { ' ' !in s }

  lemma GroupedMore(a: string, b: string)
    requires a != [] && Blankless(b)
    ensures Grouped(a + " " + b, ' ') <==> Grouped(a, ' ') && ThreeDigits(b)
  {
    var t := a + " " + b;
    assert t[|a|] == ' ';
    if |b| == 3 {
      assert t[..|t| - 4] == a && t[|t| - 3..] == b;
    } else if |b| > 3 {
      assert t[|t| - 4] == b[|b| - 4];
    } else if |t| > 3 {
      assert t[|t| - 3..][2 - |b|] == ' ';
    }
  }

  /** Read from the right: the blanks cut off groups of three digits. */
  lemma {:induction false} GroupedExactly(words: seq<string>)
    requires words != [] && forall i | 0 <= i < |words| :: words[i] != [] && Blankless(words[i])
    ensures Spaced(words) != [] && (Grouped(Spaced(words), ' ') <==> Groups(words))
  {
    hide Blankless;
    var last := |words| - 1;
    if last == 0 {
      FirstGroup(words[0]);
    } else {
      var front := words[..last];
      hide Grouped;
      GroupedExactly(front);
      GroupedMore(Spaced(front), words[last]);
      assert forall i | 0 <= i < last :: front[i] == words[i];
    }
  }

  lemma FirstGroup(s: string)
    requires Blankless(s) && s != []
    ensures Grouped(s, ' ') <==> ShortDigits(s)
  {
  }

  lemma {:induction false} LongEnough(words: seq<string>)
    requires |words| >= 2 && Groups(words)
    ensures |Spaced(words)| > 4
  {
    var last := |words| - 1;
    if last > 1 {
      LongEnough(words[..last]);
    } else {
      assert Spaced(words[..last]) == words[0];
    }
  }

  predicate DecimalTail(s: string, k: nat) {
    && |s| > k + 1 && (s[|s| - k - 1] == '.' || s[|s| - k - 1] == ',') && AllDigits(s[|s| - k..])
  }

  /** Where decimals are cut off, they come off the last word. */
  lemma WithTail(a: string, b: string, k: nat)
    requires b != [] && IsDigit(b[0]) && Blankless(b) && a != []
    ensures var t := a + " " + b;
      SpaceThousandsWith(t, k) <==> DecimalTail(b, k) && GroupedAtLeast(a + " " + b[..|b| - k - 1], ' ', 1)
  {
    var t := a + " " + b;
    var point := |t| - k - 1;
    hide Grouped;
    if |b| > k {
      assert t[point] == b[|b| - k - 1] && t[point + 1..] == b[|b| - k..];
      if |b| > k + 1 {
        assert t[..point] == a + " " + b[..|b| - k - 1];
      }
    } else if point >= 0 {
      TailHasBlank(a, b, k);
    }
  }

  lemma TailHasBlank(a: string, b: string, k: nat)
    requires |b| <= k < |a| + 1 + |b|
    ensures var t := a + " " + b; var point := |t| - k - 1;
      t[point] == ' ' || !AllDigits(t[point + 1..])
  {
    var t := a + " " + b;
    var point := |t| - k - 1;
    assert t[|a|] == ' ';
    if point < |a| {
      assert t[point + 1..][|a| - point - 1] == ' ';
    }
  }

  lemma CutBlankless(b: string, n: nat)
    requires Blankless(b) && 0 < n <= |b|
    ensures Blankless(b[..n]) && b[..n] != []
  {
  }

  lemma WithTailExactly(words: seq<string>, k: nat)
    requires Jammed(words) && |words| >= 2
    ensures var last := |words| - 1;
      SpaceThousandsWith(Spaced(words), k)
      <==> && FrontGroups(words) && DecimalTail(words[last], k)
           && ThreeDigits(words[last][..|words[last]| - k - 1])
  {
    hide SpaceThousandsWith, Grouped, Numeral, Groups, FrontGroups, ThreeDigits, Spaced, Blankless;
    var last := |words| - 1;
    var b := words[last];
    WordsBlankless(words);
    SpacedNonempty(words[..last]);
    WithTail(Spaced(words[..last]), b, k);
    SpacedLast(words, b);
    assert words[last := b] == words;
    if DecimalTail(b, k) {
      var cut := words[last := b[..|b| - k - 1]];
      CutBlankless(b, |b| - k - 1);
      GroupedExactly(cut);
      SpacedLast(words, b[..|b| - k - 1]);
      GroupsLast(words, b[..|b| - k - 1]);
      if Groups(cut) {
        LongEnough(cut);
      }
    }
  }

  lemma SpacedNonempty(words: seq<string>)
    requires words != [] && forall i | 0 <= i < |words| :: words[i] != []
    ensures Spaced(words) != []
  {
  }

  lemma WordsBlankless(words: seq<string>)
    requires Jammed(words)
    ensures forall i | 0 <= i < |words| :: words[i] != [] && Blankless(words[i])
  {
  }

  /** The words are one number: groups of three digits, and perhaps decimals. */
  predicate Thousands(words: seq<string>) {
    |words| >= 2 && FrontGroups(words) && LastGroup(words[|words| - 1])
  }

  lemma TailGroup(s: string)
    requires Numeral(s)
    ensures LastGroup(s)
       <==> || ThreeDigits(s)
            || (DecimalTail(s, 1) && ThreeDigits(s[..|s| - 2]))
            || (DecimalTail(s, 2) && ThreeDigits(s[..|s| - 3]))
  {
    if |s| == 5 {
      assert s[..|s| - 2] == s[..3] && s[|s| - 1..] == s[4..];
    }
    if |s| == 6 {
      assert s[..|s| - 3] == s[..3] && s[|s| - 2..] == s[4..];
    }
  }

  lemma GroupsLast(words: seq<string>, b: string)
    requires |words| >= 2
    ensures var last := |words| - 1;
      Groups(words[last := b]) <==> FrontGroups(words) && ThreeDigits(b)
  {
    var last := |words| - 1;
    var other := words[last := b];
    assert other[last] == b && forall i | 0 <= i < last :: other[i] == words[i];
  }

  lemma WholeGroups(words: seq<string>)
    requires Jammed(words) && |words| >= 2
    ensures GroupedAtLeast(Spaced(words), ' ', 1) <==> FrontGroups(words) && ThreeDigits(words[|words| - 1])
  {
    hide Groups, FrontGroups, ThreeDigits, Grouped, Spaced, Blankless, Numeral;
    var last := |words| - 1;
    WordsBlankless(words);
    GroupedExactly(words);
    if Groups(words) {
      LongEnough(words);
    }
    assert words[last := words[last]] == words;
    GroupsLast(words, words[last]);
  }

  lemma BlankRule(words: seq<string>)
    requires Jammed(words) && |words| >= 2
    ensures SpaceThousands(Spaced(words)) <==> Thousands(words)
  {
    hide FrontGroups, ThreeDigits, GroupedAtLeast, SpaceThousandsWith, DecimalTail, LastGroup, Spaced, Numeral;
    WholeGroups(words);
    WithTailExactly(words, 1);
    WithTailExactly(words, 2);
    TailGroup(words[|words| - 1]);
  }

  // ---- the number ------------------------------------------------------------------------------------------ //

  lemma {:induction false} JoinedDigits(words: seq<string>)
    requires forall i | 0 <= i < |words| :: AllDigits(words[i])
    ensures AllDigits(Joined(words))
    ensures words != [] ==> |Joined(words)| >= |words[0]|
  {
    if |words| > 1 {
      JoinedDigits(words[..|words| - 1]);
    }
  }

  /** The digits of a grouping without its decimals. */
  function WholeOf(words: seq<string>): string
    requires words != [] && |words[|words| - 1]| >= 3
  {
    Joined(words[..|words| - 1]) + words[|words| - 1][..3]
  }

  /** The number a grouping stands for. */
  function NumberOf(words: seq<string>): Dec
    requires words != [] && |words[|words| - 1]| >= 3
  {
    var decimals := FractionOf(words[|words| - 1]);
    Dec(false, NatOf(WholeOf(words) + decimals), 0 - |decimals|)
  }

  lemma ReadsWhole(whole: string, rest: string, locale: Locale)
    requires |whole| >= 4 && AllDigits(whole)
    requires Ending(rest)
    ensures var frac := if rest == [] then [] else rest[1..];
      ParseDecimal(Token(whole + rest), locale) == Some(Dec(false, NatOf(whole + frac), 0 - |frac|))
  {
    hide ParseDecimal, NatOf;
    var frac := if rest == [] then [] else rest[1..];
    assert AllDigits([]);
    DigitsWithout(whole, ',');
    if rest != [] && rest[0] == ',' {
      PlainComma(false, whole, frac, locale);
      assert SignText(false) + (whole + "," + frac) == whole + rest;
    } else {
      PointForm(false, whole, frac, locale);
      assert Written(false, whole, frac) == whole + rest;
    }
  }

  /** What follows the whole number: nothing, or a mark and one or two digits. */
  predicate Ending(rest: string) {
    rest == [] || (2 <= |rest| <= 3 && (rest[0] == '.' || rest[0] == ',') && AllDigits(rest[1..]))
  }

  lemma LastParts(b: string)
    requires LastGroup(b)
    ensures b == b[..3] + b[3..] && Ending(b[3..])
    ensures FractionOf(b) == if b[3..] == [] then [] else b[3..][1..]
  {
    assert |b| > 3 ==> b[3..][1..] == b[4..];
  }

  lemma WholeDigitsOf(words: seq<string>)
    requires Thousands(words)
    ensures |WholeOf(words)| >= 4 && AllDigits(WholeOf(words))
    ensures Joined(words) == WholeOf(words) + words[|words| - 1][3..]
  {
    var last := |words| - 1;
    JoinedDigits(words[..last]);
    LastParts(words[last]);
  }

  lemma NumberIs(words: seq<string>)
    requires Thousands(words)
    ensures var fraction := FractionOf(words[|words| - 1]);
      NumberOf(words) == Dec(false, NatOf(WholeOf(words) + fraction), 0 - |fraction|)
  {
  }

  lemma JoinedReads(words: seq<string>, locale: Locale)
    requires Thousands(words)
    ensures ParseNumeral(Joined(words), locale) == Some(NumberOf(words))
  {
    var last := |words| - 1;
    var whole, rest := WholeOf(words), words[last][3..];
    WholeDigitsOf(words);
    LastParts(words[last]);
    ReadsWhole(whole, rest, locale);
    NumeralMade(whole, rest);
    BareNumeral(whole + rest, locale);
    NumberIs(words);
    hide *;
  }

  lemma NumeralMade(whole: string, rest: string)
    requires |whole| >= 4 && AllDigits(whole)
    requires Ending(rest)
    ensures Numeral(whole + rest)
  {
    var s := whole + rest;
    forall i | 0 <= i < |s|
      ensures DigitOrSeparator(s[i])
    {
      if i > |whole| {
        assert s[i] == rest[1..][i - |whole| - 1];
      }
    }
    if rest != [] {
      assert s[|s| - 1] == rest[1..][|rest| - 2];
    }
  }

  lemma JoinSpacesExactly(words: seq<string>, gaps: seq<string>)
    requires Jammed(words) && Gaps(words, gaps) && |words| >= 2
    ensures JoinSpaces(Gapped(words, gaps)) == if Thousands(words) then Some(Joined(words)) else None
  {
    hide SplitDigits, Jammed, CollapseBlanks, Filter, Strip, SpaceThousands, Squeeze, Thousands, Spaced, Gaps, Gapped;
    BlankSplits(words, gaps);
    CoreIsToken(words, gaps);
    BlanksSqueezed(words, gaps);
    BlankRule(words);
  }

  /** Numerals jammed into one token with white space between them are refused, unless it
      separates thousands: up to three digits, then groups of three, the last of them
      perhaps with a point or comma and one or two decimals.  That is one number, under
      every hint. */
  lemma BlanksExactly(words: seq<string>, gaps: seq<string>, locale: Locale)
    requires Jammed(words) && Gaps(words, gaps) && |words| >= 2
    ensures ParseDecimal(Token(Gapped(words, gaps)), locale)
         == if Thousands(words) then Some(NumberOf(words)) else None
  {
    var t := Gapped(words, gaps);
    GappedShaped(words, gaps);
    hide *;
    ShapedEnds(t, words[0][0]);
    TokenUndecorated(t, words[0][0]);
    TokenInner(t, locale);
    JoinSpacesExactly(words, gaps);
    if Thousands(words) {
      JoinedReads(words, locale);
    }
    InnerOf(t, locale);
  }

  lemma InnerOf(t: string, locale: Locale)
    requires DropDecoration(t) == t && t != []
    ensures JoinSpaces(t).None? ==> ParseInner(t, locale) == None
    ensures JoinSpaces(t).Some? ==> ParseInner(t, locale) == ParseNumeral(JoinSpaces(t).value, locale)
  {
    hide DropDecoration, JoinSpaces, ParseNumeral;
  }

  /** So for two numerals: "1 234,56" is one number, "35,00 700,00" is none. */
  lemma JammedExactly(a: string, gap: string, b: string, locale: Locale)
    requires Numeral(a) && Numeral(b) && IsDigit(b[0]) && gap != [] && AllSpace(gap)
    ensures ParseDecimal(Token(a + gap + b), locale)
         == if ShortDigits(a) && LastGroup(b) then
              Some(Dec(false, NatOf(a + b[..3] + FractionOf(b)), 0 - |FractionOf(b)|))
            else None
  {
    var words, gaps := [a, b], ["", gap];
    TwoWords(a, gap, b);
    BlanksExactly(words, gaps, locale);
    hide ParseDecimal, NatOf, ShortDigits, LastGroup, FractionOf;
  }

  lemma TwoWords(a: string, gap: string, b: string)
    ensures Gapped([a, b], ["", gap]) == a + gap + b && Joined([a, b][..1]) == a
  {
    assert [a, b][..1] == [a] && ["", gap][..1] == [""] && [a][..0] == [];
    assert Gapped([a], [""]) == a;
    assert Joined([]) == [] && Joined([a]) == [] + a == a;
  }

  /** "USD 1 234,56": a currency word in front changes nothing. */
  lemma CurrencyInFront(w: string, words: seq<string>, gaps: seq<string>, i: nat, locale: Locale)
    requires i < LETTERED && LowerAll(w) == CURRENCIES[i] && Jammed(words) && Gaps(words, gaps)
    ensures ParseDecimal(Token(w + " " + Gapped(words, gaps)), locale) == ParseDecimal(Token(Gapped(words, gaps)), locale)
  {
    var t := Gapped(words, gaps);
    var u := w + " " + t;
    GappedShaped(words, gaps);
    ShapedEnds(t, words[0][0]);
    LetteredStarts(w, i);
    CurrencyCut(w, "", " ", t, i);
    assert "" + " " == " ";
    NoCurrencyWord(t);
    FrontVisible(w, t);
    hide *;
    TokenInner(t, locale);
    TokenInner(u, locale);
    InnerAlike(u, t, locale);
  }

  lemma FrontVisible(w: string, t: string)
    requires w != [] && IsLetter(w[0]) && t != [] && !IsSpace(t[|t| - 1])
    ensures var u := w + " " + t; u != [] && !IsSpace(u[0]) && !IsSpace(u[|u| - 1]) && !Accounting(u)
  {
  }

  lemma InnerAlike(u: string, t: string, locale: Locale)
    requires DropCurrency(u) == t && DropCurrency(t) == t
    ensures ParseInner(u, locale) == ParseInner(t, locale)
  {
    hide DropCurrency, DropSymbols, DropRupeesOnly, DropDrCr, Strip, JoinSpaces, ParseNumeral;
  }

  lemma SpacedThousandsRead(locale: Locale)
    ensures ParseDecimal(Token("1 234,56"), locale) == Some(Dec(false, 123456, -2))
  {
    hide *;
    OneGroup();
    Pieces();
    SixDigits();
    JammedExactly("1", " ", "234,56", locale);
  }

  lemma OneGroup()
    ensures ShortDigits("1") && LastGroup("234,56") && Numeral("1") && Numeral("234,56")
    ensures AllSpace(" ") && IsDigit("234,56"[0])
  {
  }

  lemma Pieces()
    ensures "1" + " " + "234,56" == "1 234,56"
    ensures FractionOf("234,56") == "56" && "1" + "234,56"[..3] + "56" == "123456"
  {
  }

  lemma SixDigits()
    ensures NatOf("123456") == 123456
  {
    var s := "123456";
    assert NatTo(s, 2) == 12;
    assert NatTo(s, 4) == 1234;
    assert NatTo(s, 6) == 123456;
  }

  lemma JammedRefused(locale: Locale)
    ensures ParseDecimal(Token("35,00 700,00"), locale) == None
  {
    var a, b := "35,00", "700,00";
    assert !ShortDigits(a) && Numeral(a) && Numeral(b) && IsDigit(b[0]);
    assert a + " " + b == "35,00 700,00";
    assert AllSpace(" ");
    hide *;
    JammedExactly(a, " ", b, locale);
  }
}
