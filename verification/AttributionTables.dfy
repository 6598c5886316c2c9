/** Tables: three on which the attribution does not do what its notes say, and one whose
    name crosses a page. */
module AttributionTables {
  import opened Options
  import opened Text
  import opened Attribution
  import opened AttributionRollback
  import S = Segmentation

  // ---- a reading of the vocabulary -------------------------------------------------------------------- //

  predicate LabelAt(text: string, i: nat) {
    i + 4 <= |text| && text[i..i + 4] == "LOT:" && (i == 0 || !IsWord(text[i - 1]))
  }

  predicate HasDigit(s: string) { exists i | 0 <= i < |s| :: IsDigit(s[i]) }

  predicate HasLetter(s: string) { exists i | 0 <= i < |s| :: IsLetter(s[i]) }

  predicate AllAlnum(s: string) { forall i | 0 <= i < |s| :: IsDigit(s[i]) || IsLetter(s[i]) }

  /** A number, or a code: two characters or more, a digit and a letter among them. */
  predicate Coded(token: string) {
    AllAlnum(token) && HasDigit(token) && (HasLetter(token) ==> |token| >= 2)
  }

  /** One label word; numbers and codes are values.  Nothing is welded. */
  const VOCABULARY: S.Matchers := S.Matchers(
    (text: string, i: nat) => if LabelAt(text, i) then Some(i + 4) else None,
    (text: string, i: nat) => false, (text: string, i: nat) => false, (rest: string) => None,
    (token: string) => Coded(token), (token: string) => token == "LOT:",
    None, (text: string, i: nat) => false, (text: string, i: nat) => false, (text: string, i: nat) => false,
    (text: string) => true)

  lemma VocabularyBounded()
    ensures S.Bounded(VOCABULARY)
  {
  }

  /** Five letters and digits or more, one of each at least. */
  predicate PartShaped(code: string) { |code| >= 5 && HasDigit(code) && HasLetter(code) }

  /** `part_codes`, for words that stand between blanks. */
  function PartCodes(words: seq<string>): seq<string> {
    if words == [] then []
    else (if PartShaped(Normal(words[0])) then [Normal(words[0])] else []) + PartCodes(words[1..])
  }

  /** `model_matches`: the code itself, or the code and a barcode. */
  predicate Identifies(code: string, model: string) {
    var m := Normal(model);
    && code != [] && code <= m
    && (m == code || (12 <= |m| - |code| <= 14 && AllDigits(m[|code|..])))
  }

  /** `is_code_only`, but for units and label words. */
  predicate CodesOnly(words: seq<string>) { forall i | 0 <= i < |words| :: HasDigit(words[i]) || |words[i]| < 2 }

  const ORACLE: Oracle := Oracle(
    (text: string) => PartCodes(S.Words(text, 0)),
    (code: string, model: string) => Identifies(code, model),
    (name: string, model: string) => Identifies(Normal(name), model) || Normal(name) == Normal(model),
    (text: string) => CodesOnly(S.Words(text, 0)))

  // ---- three cells, cut --------------------------------------------------------------------------------- //

  /** Two names with a label between them. */
  const NAMES := "PIN AB123 LOT: PIN CD456"

  /** Two codes and no name; the asterisk keeps the second from being the label's value. */
  const CODES := "EF789 LOT: GH012*"

  const NAMED: Cell := Cell(NAMES, NAMES, [
    S.Segment(S.PROSE, 0, 10, "PIN AB123"), S.Segment(S.ANN, 10, 14, "LOT:"), S.Segment(S.PROSE, 14, 24, "PIN CD456")])

  const CODED: Cell := Cell(CODES, CODES, [
    S.Segment(S.PROSE, 0, 6, "EF789"), S.Segment(S.ANN, 6, 10, "LOT:"), S.Segment(S.PROSE, 10, 17, "GH012*")])

  const BLANK: Cell := Cell("", "", [])

  lemma {:induction false} NoInserts(s: string, at: (string, nat) -> bool, n: nat)
    requires n <= |s| && forall i: nat :: !at(s, i)
    ensures S.InsertSpaces(s, at, n) == s[..n]
  {
    if n > 0 {
      NoInserts(s, at, n - 1);
      assert s[..n] == s[..n - 1] + [s[n - 1]];
    }
  }

  lemma {:induction false} NoCollapse(s: string, n: nat)
    requires n <= |s| && forall i | 0 <= i < |s| && IsSpace(s[i]) :: s[i] == ' ' && (i == 0 || !IsSpace(s[i - 1]))
    ensures S.Collapse(s, n) == s[..n]
  {
    hide IsSpace;
    if n > 0 {
      NoCollapse(s, n - 1);
      assert s[..n] == s[..n - 1] + [s[n - 1]];
    }
  }

  /** A text with single blanks between visible ends is scanned as it is. */
  lemma CleanIs(s: string)
    requires forall i | 0 <= i < |s| && IsSpace(s[i]) :: s[i] == ' ' && (i == 0 || !IsSpace(s[i - 1]))
    requires s == [] || (!IsSpace(s[0]) && !IsSpace(s[|s| - 1]))
    ensures S.Clean(VOCABULARY, s) == s
  {
    hide IsSpace;
    NoInserts(s, VOCABULARY.weldedLabel, |s|);
    NoInserts(s, VOCABULARY.weldedColon, |s|);
    NoInserts(s, VOCABULARY.weldedDigits, |s|);
    NoCollapse(s, |s|);
    StripOfVisible(s);
    assert s[..|s|] == s;
  }

  lemma NoRunAt(text: string, i: nat)
    requires S.Bounded(VOCABULARY) && i < |text| && !LabelAt(text, i)
    ensures S.RunAt(VOCABULARY, text, i) == i
  {
  }

  /** Where no label stands the scan moves on. */
  lemma {:induction false} ScansOver(text: string, cursor: nat, i: nat, j: nat)
    requires S.Bounded(VOCABULARY) && cursor <= i <= j <= |text| && forall k | i <= k < j :: !LabelAt(text, k)
    ensures S.SegmentsFrom(VOCABULARY, text, cursor, i) == S.SegmentsFrom(VOCABULARY, text, cursor, j)
    decreases j - i
  {
    hide S.Bounded;
    if i < j {
      NoRunAt(text, i);
      S.SegmentsNext(VOCABULARY, text, cursor, i);
      hide S.RunAt;
      ScansOver(text, cursor, i + 1, j);
    }
  }

  /** A label with no value behind it is a run of its own. */
  lemma LabelRun(text: string, i: nat, token: string)
    requires S.Bounded(VOCABULARY) && LabelAt(text, i) && i + 4 < |text| && text[i + 4] == ' '
    requires token != [] && token <= text[i + 5..] && (forall k | 0 <= k < |token| :: !IsSpace(token[k]))
    requires i + 5 + |token| < |text| ==> text[i + 5 + |token|] == ' '
    requires !Coded(token) && token != "LOT:"
    ensures S.RunAt(VOCABULARY, text, i) == i + 4
  {
    hide IsSpace;
    hide Coded;
    LabelRead(text, i);
    NextRead(text, i, token);
    assert S.RunEndFrom(VOCABULARY, text, i + 4, i + 4) == i + 4;
  }

  lemma LabelRead(text: string, i: nat)
    requires S.Bounded(VOCABULARY) && LabelAt(text, i) && i + 4 < |text| && text[i + 4] == ' '
    ensures !IsSpace(text[i]) && S.Read(VOCABULARY, text, i) == S.Filler(i + 4) && SkipSpace(text, i) == i
  {
    assert text[i..i + 4][0] == text[i];
    S.TokenIs(text[i..], "LOT:");
    assert !AllAlnum("LOT:") by {
      assert "LOT:"[3] == ':';
    }
  }

  lemma NextRead(text: string, i: nat, token: string)
    requires S.Bounded(VOCABULARY) && i + 5 <= |text| && text[i + 4] == ' '
    requires token != [] && token <= text[i + 5..] && (forall k | 0 <= k < |token| :: !IsSpace(token[k]))
    requires i + 5 + |token| < |text| ==> text[i + 5 + |token|] == ' '
    requires !Coded(token) && token != "LOT:"
    ensures SkipSpace(text, i + 4) == i + 5 < |text| && S.Read(VOCABULARY, text, i + 5).Stop?
  {
    assert text[i + 5..][0] == token[0] && text[i + 5] == token[0];
    assert SkipSpace(text, i + 5) == i + 5;
    S.TokenIs(text[i + 5..], token);
  }

  lemma StripIs(s: string, a: nat, b: nat)
    requires a < b <= |s| && !IsSpace(s[a]) && !IsSpace(s[b - 1])
    requires (forall i | 0 <= i < a :: IsSpace(s[i])) && (forall i | b <= i < |s| :: IsSpace(s[i]))
    ensures Strip(s) == s[a..b]
  {
    hide IsSpace;
    assert SkipSpace(s, 0) == a;
    assert TrimEnd(s, a, |s|) == b;
  }

  /** Two texts with a label between them are cut into three. */
  lemma CutInThree(text: string, i: nat, token: string)
    requires S.Bounded(VOCABULARY) && 0 < i && i + 5 < |text| && S.Clean(VOCABULARY, text) == text
    requires LabelAt(text, i) && forall k | 0 <= k < |text| && k != i :: !LabelAt(text, k)
    requires text[i - 1] == ' ' && text[i + 4] == ' '
    requires token != [] && token <= text[i + 5..] && (forall k | 0 <= k < |token| :: !IsSpace(token[k]))
    requires i + 5 + |token| < |text| ==> text[i + 5 + |token|] == ' '
    requires !Coded(token) && token != "LOT:"
    requires Strip(text[0..i]) != [] && Strip(text[i + 4..|text|]) != [] && Strip(text[i..i + 4]) == "LOT:"
    ensures Cut(VOCABULARY, text).segments == [
      S.Segment(S.PROSE, 0, i, Strip(text[0..i])), S.Segment(S.ANN, i, i + 4, "LOT:"),
      S.Segment(S.PROSE, i + 4, |text|, Strip(text[i + 4..|text|]))]
  {
    hide Strip;
    hide S.Clean;
    hide LabelAt;
    hide S.Bounded;
    hide Coded;
    ScansOver(text, 0, 0, i);
    LabelRun(text, i, token);
    hide S.RunAt;
    S.SegmentsNext(VOCABULARY, text, 0, i);
    ScansOver(text, i + 4, i + 4, |text|);
    hide S.SegmentsFrom;
    LastSegments(text, i + 4);
  }

  lemma LastSegments(text: string, cursor: nat)
    requires S.Bounded(VOCABULARY) && cursor <= |text|
    ensures S.SegmentsFrom(VOCABULARY, text, cursor, |text|) == S.AppendProse(text, [], cursor, |text|)
  {
  }

  lemma CutIsWell(original: string)
    requires S.Bounded(VOCABULARY)
    ensures WellCut(Cut(VOCABULARY, original))
  {
    hide S.Clean;
    hide S.SegmentsFrom;
    hide S.TilesTo;
    var text := S.Clean(VOCABULARY, original);
    S.CleanKeeps(VOCABULARY, original);
    S.ScanStarts(VOCABULARY, text);
    S.SegmentsTile(VOCABULARY, text, [], 0, 0);
  }

  lemma Padded(word: string)
    requires word != [] && !IsSpace(word[0]) && !IsSpace(word[|word| - 1])
    ensures Strip(word + " ") == word && Strip(" " + word) == word
  {
    var n := |word|;
    StripIs(word + " ", 0, n);
    StripIs(" " + word, 1, n + 1);
    assert (word + " ")[0..n] == word && (" " + word)[1..n + 1] == word;
  }

  lemma NamedStrips()
    ensures Strip(NAMES[0..10]) == "PIN AB123" && Strip(NAMES[10..14]) == "LOT:" && Strip(NAMES[14..24]) == "PIN CD456"
  {
    hide Strip;
    Padded("PIN AB123");
    Padded("PIN CD456");
    StripOfVisible("LOT:");
    hide IsSpace;
    assert NAMES[0..10] == "PIN AB123" + " " && NAMES[10..14] == "LOT:" && NAMES[14..24] == " " + "PIN CD456";
  }

  lemma CodedStrips()
    ensures Strip(CODES[0..6]) == "EF789" && Strip(CODES[6..10]) == "LOT:" && Strip(CODES[10..17]) == "GH012*"
  {
    hide Strip;
    Padded("EF789");
    Padded("GH012*");
    StripOfVisible("LOT:");
    hide IsSpace;
    assert CODES[0..6] == "EF789" + " " && CODES[6..10] == "LOT:" && CODES[10..17] == " " + "GH012*";
  }

  lemma NotCodedWords()
    ensures !Coded("PIN") && !Coded("GH012*")
  {
    assert !HasDigit("PIN");
    assert !AllAlnum("GH012*") by {
      assert "GH012*"[5] == '*';
    }
  }

  lemma CodesFacts()
    ensures S.Clean(VOCABULARY, CODES) == CODES && LabelAt(CODES, 6)
    ensures forall k | 0 <= k < |CODES| && k != 6 :: !LabelAt(CODES, k)
  {
    hide Strip;
    CleanIs(CODES);
    hide S.Clean;
    assert CODES[6..10] == "LOT:";
    LabelOnlyAt(CODES, 6);
  }

  lemma CodedCut()
    ensures S.Bounded(VOCABULARY) && Cut(VOCABULARY, CODES) == CODED && WellCut(CODED)
  {
    hide Strip;
    hide S.Clean;
    hide S.SegmentsFrom;
    hide LabelAt;
    hide Coded;
    hide WellCut;
    VocabularyBounded();
    CodesFacts();
    CodedStrips();
    NotCodedWords();
    CutInThree(CODES, 6, "GH012*");
    CutIsWell(CODES);
  }

  lemma NamesFacts()
    ensures S.Clean(VOCABULARY, NAMES) == NAMES && LabelAt(NAMES, 10)
    ensures forall k | 0 <= k < |NAMES| && k != 10 :: !LabelAt(NAMES, k)
  {
    hide Strip;
    CleanIs(NAMES);
    hide S.Clean;
    assert NAMES[10..14] == "LOT:";
    LabelOnlyAt(NAMES, 10);
  }

  lemma NamedCut()
    ensures S.Bounded(VOCABULARY) && Cut(VOCABULARY, NAMES) == NAMED && WellCut(NAMED)
  {
    hide Strip;
    hide S.Clean;
    hide S.SegmentsFrom;
    hide LabelAt;
    hide Coded;
    hide WellCut;
    VocabularyBounded();
    NamesFacts();
    NamedStrips();
    NotCodedWords();
    CutInThree(NAMES, 10, "PIN");
    CutIsWell(NAMES);
  }

  lemma LabelOnlyAt(s: string, i: nat)
    requires forall k | 0 <= k < |s| && k != i :: s[k] != 'L'
    ensures forall k | 0 <= k < |s| && k != i :: !LabelAt(s, k)
  {
    forall k | 0 <= k < |s| && k != i ensures !LabelAt(s, k) {
      if k + 4 <= |s| {
        assert s[k..k + 4][0] == s[k];
      }
    }
  }

  // ---- what the cells say ----------------------------------------------------------------------------------- //

  lemma SkipsTo(s: string, pos: nat, end: nat)
    requires pos < end <= |s| && (forall i | pos <= i < end :: !IsSpace(s[i])) && (end < |s| ==> IsSpace(s[end]))
    ensures SkipSpace(s, pos) == pos && SkipVisible(s, pos) == end
  {
    hide IsSpace;
  }

  lemma WordsAt(s: string, pos: nat, start: nat, end: nat)
    requires pos <= start < end <= |s| && SkipSpace(s, pos) == start && SkipVisible(s, start) == end
    ensures S.Words(s, pos) == [s[start..end]] + S.Words(s, end)
  {
    hide SkipSpace;
    hide SkipVisible;
    hide IsSpace;
  }

  lemma NoWords(s: string)
    ensures S.Words(s, |s|) == []
  {
  }

  lemma OneWord(a: string)
    requires a != [] && forall i | 0 <= i < |a| :: !IsSpace(a[i])
    ensures S.Words(a, 0) == [a]
  {
    hide S.Words;
    hide SkipSpace;
    hide SkipVisible;
    hide IsSpace;
    SkipsTo(a, 0, |a|);
    WordsAt(a, 0, 0, |a|);
    NoWords(a);
    assert a[0..|a|] == a;
  }

  lemma TwoWords(a: string, b: string)
    requires a != [] && forall i | 0 <= i < |a| :: !IsSpace(a[i])
    requires b != [] && forall i | 0 <= i < |b| :: !IsSpace(b[i])
    ensures S.Words(a + " " + b, 0) == [a, b]
  {
    var s, n := a + " " + b, |a|;
    BlankSkipped(s, n);
    hide S.Words;
    hide SkipSpace;
    hide SkipVisible;
    hide IsSpace;
    assert s[0..n] == a && s[n + 1..|s|] == b;
    assert forall i | n + 1 <= i < |s| :: s[i] == b[i - n - 1];
    SkipsTo(s, 0, n);
    SkipsTo(s, n + 1, |s|);
    WordsAt(s, 0, 0, n);
    WordsAt(s, n, n + 1, |s|);
    NoWords(s);
  }

  lemma BlankSkipped(s: string, n: nat)
    requires n + 1 < |s| && s[n] == ' ' && !IsSpace(s[n + 1])
    ensures IsSpace(s[n]) && SkipSpace(s, n) == n + 1
  {
  }

  lemma {:induction false} NormalWrittenTo(s: string, n: nat)
    requires n <= |s| && forall i | 0 <= i < |s| :: 'A' <= s[i] <= 'Z' || '0' <= s[i] <= '9'
    ensures NormalTo(s, n) == s[..n]
  {
    if n > 0 {
      NormalWrittenTo(s, n - 1);
      assert s[..n] == s[..n - 1] + [s[n - 1]];
    }
  }

  lemma NormalWritten(s: string)
    requires forall i | 0 <= i < |s| :: 'A' <= s[i] <= 'Z' || '0' <= s[i] <= '9'
    ensures Normal(s) == s
  {
    NormalWrittenTo(s, |s|);
    assert s[..|s|] == s;
  }

  lemma NormalMarked(s: string)
    requires forall i | 0 <= i < |s| :: 'A' <= s[i] <= 'Z' || '0' <= s[i] <= '9'
    ensures Normal(s + "*") == s
  {
    NormalWritten(s);
    NormalTail(s, "*", 1);
    assert NormalTo("*", 1) == [];
  }

  /** Two capitals and three digits. */
  predicate Part(code: string) {
    |code| == 5 && (forall i | 0 <= i < 2 :: 'A' <= code[i] <= 'Z') && (forall i | 2 <= i < 5 :: '0' <= code[i] <= '9')
  }

  lemma PartIs(code: string)
    requires Part(code)
    ensures Normal(code) == code && Normal(code + "*") == code && PartShaped(code) && HasDigit(code + "*")
  {
    NormalWritten(code);
    NormalMarked(code);
    assert IsDigit(code[2]) && IsLetter(code[0]) && (code + "*")[2] == code[2];
  }

  lemma CodesOfTwo(a: string, b: string)
    requires !PartShaped(Normal(a)) && PartShaped(Normal(b))
    ensures PartCodes([a, b]) == [Normal(b)]
  {
    hide Normal;
    hide PartShaped;
    assert [a, b][1..] == [b] && [b][1..] == [];
    assert PartCodes([]) == [] && PartCodes([b]) == [Normal(b)];
  }

  lemma PinIs()
    ensures Normal("PIN") == "PIN" && !HasDigit("PIN") && forall i | 0 <= i < 3 :: !IsSpace("PIN"[i])
  {
    NormalWritten("PIN");
  }

  lemma NameReads(code: string)
    requires Part(code)
    ensures ORACLE.codes("PIN" + " " + code) == [code] && !ORACLE.codeOnly("PIN" + " " + code)
  {
    PinIs();
    PartIs(code);
    TwoWords("PIN", code);
    CodesOfTwo("PIN", code);
    hide Normal;
    hide S.Words;
    hide PartCodes;
    hide HasDigit;
    assert ["PIN", code][0] == "PIN";
  }

  lemma CodeReads(code: string, mark: string)
    requires Part(code) && (mark == "" || mark == "*")
    ensures ORACLE.codes(code + mark) == [code] && ORACLE.codeOnly(code + mark)
  {
    PartIs(code);
    OneWord(code + mark);
    hide Normal;
    hide S.Words;
    assert code + "" == code;
    assert PartCodes([code + mark]) == [code];
  }

  lemma EchoIs(text: string, code: string, model: string)
    requires ORACLE.codes(text) == [code] && Normal(model) == model && |model| < |code| + 12 && code != []
    ensures Echoes(ORACLE, text, model) <==> code == model
  {
    hide Normal;
    hide PartCodes;
    hide S.Words;
    assert ORACLE.codes(text)[0] == code;
    assert ORACLE.matches(code, model) <==> code == model;
  }

  /** What a run says: its one code, and whether it is more than that. */
  ghost predicate Says(text: string, code: string, named: bool) {
    && ORACLE.codes(text) == [code] && (ORACLE.codeOnly(text) <==> !named)
    && forall model: string | model == "M" || Part(model) :: Echoes(ORACLE, text, model) <==> code == model
  }

  lemma SaysSo(text: string, code: string, named: bool)
    requires Part(code) && ORACLE.codes(text) == [code] && (ORACLE.codeOnly(text) <==> !named)
    ensures Says(text, code, named)
  {
    hide Echoes;
    hide PartCodes;
    hide S.Words;
    hide CodesOnly;
    forall model: string | model == "M" || Part(model) ensures Echoes(ORACLE, text, model) <==> code == model {
      NormalWritten(model);
      EchoIs(text, code, model);
    }
  }

  lemma NameSays(code: string)
    requires Part(code)
    ensures Says("PIN" + " " + code, code, true)
  {
    NameReads(code);
    hide PartCodes;
    hide S.Words;
    hide CodesOnly;
    hide Says;
    SaysSo("PIN" + " " + code, code, true);
  }

  lemma CodeSays(code: string, mark: string)
    requires Part(code) && (mark == "" || mark == "*")
    ensures Says(code + mark, code, false)
  {
    CodeReads(code, mark);
    hide PartCodes;
    hide S.Words;
    hide CodesOnly;
    hide Says;
    SaysSo(code + mark, code, false);
  }

  lemma NamesSay()
    ensures Says("PIN AB123", "AB123", true) && Says("PIN CD456", "CD456", true)
  {
    hide Says;
    NameSays("AB123");
    NameSays("CD456");
    assert "PIN" + " " + "AB123" == "PIN AB123" && "PIN" + " " + "CD456" == "PIN CD456";
  }

  lemma CodesSay()
    ensures Says("EF789", "EF789", false) && Says("GH012*", "GH012", false)
  {
    hide Says;
    CodeSays("EF789", "");
    CodeSays("GH012", "*");
    assert "EF789" + "" == "EF789" && "GH012" + "*" == "GH012*";
  }

  lemma {:induction false} ProseOfThree(a: S.Segment, b: S.Segment, c: S.Segment)
    requires a.kind == S.PROSE && b.kind == S.ANN && c.kind == S.PROSE
    ensures ProseTo([a, b, c], 3) == [a, c]
  {
    assert ProseTo([a, b, c], 0) == [] && ProseTo([a, b, c], 1) == [a] && ProseTo([a, b, c], 2) == [a];
  }

  lemma RunsAre()
    ensures |Prose(NAMED)| == 2 && Prose(NAMED)[0].text == "PIN AB123" && Prose(NAMED)[1].text == "PIN CD456"
    ensures |Prose(CODED)| == 2 && Prose(CODED)[0].text == "EF789" && Prose(CODED)[1].text == "GH012*"
  {
    hide ProseTo;
    ProseOfThree(NAMED.segments[0], NAMED.segments[1], NAMED.segments[2]);
    ProseOfThree(CODED.segments[0], CODED.segments[1], CODED.segments[2]);
  }

  /** A cell with two runs that say a code each. */
  lemma TwoRuns(c: Cell, a: string, b: string, named: bool, model: string)
    requires |Prose(c)| == 2 && Says(Prose(c)[0].text, a, named) && Says(Prose(c)[1].text, b, named)
    requires (model == "M" || Part(model)) && model != [] && a != b && b != model
    ensures Own(ORACLE, c, model) == if a == model then Some(0) else None
    ensures Movable(ORACLE, c, model) && (HasName(ORACLE, c) <==> named)
  {
    hide Echoes;
    hide Prose;
    hide Part;
    hide PartCodes;
    hide CodesOnly;
    hide S.Words;
    var prose := Prose(c);
    assert FirstEcho(ORACLE, prose, model, 2) == 2;
    assert FirstEcho(ORACLE, prose, model, 1) == 2;
    assert FirstEcho(ORACLE, prose, model, 0) == if a == model then 0 else 2;
    assert ORACLE.codes(prose[1].text) != [] && !Echoes(ORACLE, prose[1].text, model);
    assert ORACLE.codeOnly(prose[0].text) <==> !named;
  }

  lemma NoLead(c: Cell)
    requires WellCut(c) && (c.segments == [] || c.segments[0].kind == S.PROSE)
    ensures LeadPlan(c).None?
  {
    hide WellCut;
  }

  lemma NamedOwn(model: string)
    requires model == "M" || model == "AB123"
    ensures Own(ORACLE, NAMED, model) == if model == "AB123" then Some(0) else None
    ensures Movable(ORACLE, NAMED, model) && HasName(ORACLE, NAMED)
  {
    hide Says;
    hide Own;
    hide Movable;
    hide HasName;
    hide Prose;
    RunsAre();
    NamesSay();
    TwoRuns(NAMED, "AB123", "CD456", true, model);
  }

  lemma CodedOwn()
    ensures Own(ORACLE, CODED, "CD456") == None && Movable(ORACLE, CODED, "CD456") && !HasName(ORACLE, CODED)
  {
    hide Says;
    hide Own;
    hide Movable;
    hide HasName;
    hide Prose;
    RunsAre();
    CodesSay();
    TwoRuns(CODED, "EF789", "GH012", false, "CD456");
  }

  lemma BlankOwn(model: string)
    ensures !HasName(ORACLE, BLANK) && !Movable(ORACLE, BLANK, model)
  {
    hide Echoes;
    hide S.Words;
    hide PartCodes;
    assert Prose(BLANK) == [];
  }

  lemma BlankCut()
    ensures WellCut(BLANK)
  {
    assert S.Concat([]) == [];
  }

  // ---- a row of two names, and one that has none ------------------------------------------------------------------- //

  /** The first row stands on page 16. */
  function Pair(a: Cell, m: string, c: Cell, n: string, preset: bool, page: int): Table {
    Table([a, c], [m, n], [16, page], [preset, false], [])
  }

  predicate Beside(page: int) { 15 <= page <= 17 }

  /** A cell of two runs, of which the first may be proven its row's own. */
  ghost predicate Giver(o: Oracle, a: Cell, m: string, own: bool) {
    && WellCut(a) && LeadPlan(a).None? && |Prose(a)| == 2 && HasName(o, a) && Movable(o, a, m)
    && Own(o, a, m) == if own then Some(0) else None
  }

  /** A nameless cell, for the model that the second of those runs names. */
  ghost predicate Taker(o: Oracle, a: Cell, c: Cell, n: string) {
    && WellCut(c) && LeadPlan(c).None? && !HasName(o, c) && |Prose(a)| == 2
    && !Echoes(o, Prose(a)[0].text, n) && Echoes(o, Prose(a)[1].text, n)
  }

  function Second(a: Cell): Donation
    requires |Prose(a)| == 2
  {
    Donation(Prose(a)[1].text, Neighbour(0, 1))
  }

  lemma PairTargets(o: Oracle, a: Cell, m: string, c: Cell, n: string, preset: bool, page: int, own: bool)
    requires Beside(page) && Giver(o, a, m, own) && Taker(o, a, c, n)
    ensures var t := Pair(a, m, c, n, preset, page);
      t.Valid() && StrayTarget(t, o, 0, 0) == None && StrayTarget(t, o, 0, 1) == Some(1)
  {
    hide Echoes;
    hide Prose;
    hide WellCut;
    hide HasName;
    hide Movable;
    hide Own;
    hide LeadPlan;
    var t := Pair(a, m, c, n, preset, page);
    assert !Candidate(t, o, 0, Prose(a)[0].text, 1) && Candidate(t, o, 0, Prose(a)[1].text, 1);
    assert TakesStray(t, o, 0, 1, 1);
  }

  lemma PairStrays(o: Oracle, a: Cell, m: string, c: Cell, n: string, preset: bool, page: int, own: bool)
    requires Beside(page) && Giver(o, a, m, own) && Taker(o, a, c, n)
    ensures var t := Pair(a, m, c, n, preset, page);
      && t.Valid() && Strays(t, o, 0, 2, map[]) == map[1 := Second(a)]
      && (AllPlaced(t, o, 0, 2) <==> own)
  {
    hide Echoes;
    hide Prose;
    hide WellCut;
    hide HasName;
    hide Movable;
    hide Own;
    hide LeadPlan;
    hide StrayTarget;
    PairTargets(o, a, m, c, n, preset, page, own);
    var t := Pair(a, m, c, n, preset, page);
    assert IsStray(t, o, 0, 1) && (IsStray(t, o, 0, 0) <==> !own);
    assert Strays(t, o, 0, 0, map[]) == map[] && Strays(t, o, 0, 1, map[]) == map[];
  }

  function FirstPlans(a: Cell, own: bool): Plans
    requires |Prose(a)| == 2
  {
    Plans(if own then map[0 := Prose(a)[0].text] else map[], map[1 := Second(a)], {}, if own then [] else [0])
  }

  lemma PairFirst(o: Oracle, a: Cell, m: string, c: Cell, n: string, preset: bool, page: int, own: bool)
    requires Beside(page) && Giver(o, a, m, own) && Taker(o, a, c, n)
    ensures var t := Pair(a, m, c, n, preset, page); t.Valid() && RowsTo(t, o, 1) == FirstPlans(a, own)
  {
    hide Echoes;
    hide Prose;
    hide WellCut;
    hide HasName;
    hide Movable;
    hide Own;
    hide LeadPlan;
    hide Strays;
    hide AllPlaced;
    hide NameStep;
    PairStrays(o, a, m, c, n, preset, page, own);
    assert RowsTo(Pair(a, m, c, n, preset, page), o, 0) == NO_PLANS;
  }

  /** A second row of which no run names another is passed over. */
  lemma PairBlank(o: Oracle, a: Cell, m: string, c: Cell, n: string, preset: bool, page: int, own: bool)
    requires Beside(page) && Giver(o, a, m, own) && Taker(o, a, c, n) && !Movable(o, c, n)
    ensures var t := Pair(a, m, c, n, preset, page); t.Valid() && RowsTo(t, o, 2) == FirstPlans(a, own)
  {
    hide Echoes;
    hide Prose;
    hide WellCut;
    hide HasName;
    hide Movable;
    hide Own;
    hide LeadPlan;
    hide NameStep;
    hide StrayStep;
    PairFirst(o, a, m, c, n, preset, page, own);
    assert 1 in FirstPlans(a, own).donated;
  }

  /** A second row of codes that nobody answers to is reported. */
  lemma PairCodes(o: Oracle, a: Cell, m: string, c: Cell, n: string, preset: bool, page: int)
    requires Beside(page) && Giver(o, a, m, true) && Taker(o, a, c, n) && Movable(o, c, n) && Own(o, c, n).None? && |Prose(c)| == 2
    requires !Echoes(o, Prose(c)[0].text, m) && !Echoes(o, Prose(c)[1].text, m)
    ensures var t := Pair(a, m, c, n, preset, page);
      t.Valid() && RowsTo(t, o, 2) == Plans(map[0 := Prose(a)[0].text], map[1 := Second(a)], {}, [1])
  {
    hide Echoes;
    hide Prose;
    hide WellCut;
    hide HasName;
    hide Movable;
    hide Own;
    hide LeadPlan;
    hide NameStep;
    hide StrayTarget;
    hide Strays;
    PairFirst(o, a, m, c, n, preset, page, true);
    CodesStay(o, a, m, c, n, preset, page);
    assert 1 in FirstPlans(a, true).donated;
  }

  lemma CodesStay(o: Oracle, a: Cell, m: string, c: Cell, n: string, preset: bool, page: int)
    requires Beside(page) && WellCut(a) && WellCut(c) && Own(o, c, n).None? && |Prose(c)| == 2
    requires !Echoes(o, Prose(c)[0].text, m) && !Echoes(o, Prose(c)[1].text, m)
    ensures var t := Pair(a, m, c, n, preset, page);
      && t.Valid() && !AllPlaced(t, o, 1, 2) && (forall d :: Strays(t, o, 1, 2, d) == d)
      && forall s | 0 <= s < 2 :: StrayTarget(t, o, 1, s).None?
  {
    hide Echoes;
    hide Prose;
    hide WellCut;
    hide HasName;
    hide Movable;
    hide Own;
    hide LeadPlan;
    var t := Pair(a, m, c, n, preset, page);
    forall s | 0 <= s < 2 ensures StrayTarget(t, o, 1, s).None? {
      assert !Candidate(t, o, 1, Prose(c)[s].text, 0) && !Candidate(t, o, 1, Prose(c)[s].text, 1);
    }
    hide StrayTarget;
    assert IsStray(t, o, 1, 0);
    forall d ensures Strays(t, o, 1, 2, d) == d {
      assert Strays(t, o, 1, 0, d) == d && Strays(t, o, 1, 1, d) == d;
    }
  }

  /** One row alone that keeps its own run and finds nobody for the other. */
  lemma LonePlans(o: Oracle, a: Cell, m: string)
    requires Giver(o, a, m, true)
    ensures var t := Table([a], [m], [1], [false], []);
      t.Valid() && RowsTo(t, o, 1) == Plans(map[0 := Prose(a)[0].text], map[], {}, [0])
  {
    hide Echoes;
    hide Prose;
    hide WellCut;
    hide HasName;
    hide Movable;
    hide Own;
    hide LeadPlan;
    hide NameStep;
    var t := Table([a], [m], [1], [false], []);
    assert StrayTarget(t, o, 0, 1).None?;
    hide StrayTarget;
    assert !IsStray(t, o, 0, 0) && IsStray(t, o, 0, 1);
    assert Strays(t, o, 0, 0, map[]) == map[] && Strays(t, o, 0, 1, map[]) == map[] && Strays(t, o, 0, 2, map[]) == map[];
    assert !AllPlaced(t, o, 0, 2);
    assert RowsTo(t, o, 0) == NO_PLANS;
  }

  // ---- how such tables end -------------------------------------------------------------------------------------------- //

  lemma PairRollsBack(o: Oracle, a: Cell, m: string, c: Cell, n: string, preset: bool, page: int, ch: char)
    requires Beside(page) && Giver(o, a, m, false) && Taker(o, a, c, n) && !Movable(o, c, n)
    requires Chars(Prose(a)[1].text)[ch] > 0 && Chars(c.original)[ch] == 0
    ensures var t := Pair(a, m, c, n, preset, page);
      t.Valid() && Outcomes(t, o, None, [Some(a.original), Some(c.original)]) == RolledBack
  {
    hide Echoes;
    hide Prose;
    hide WellCut;
    hide HasName;
    hide Movable;
    hide Own;
    hide LeadPlan;
    hide RowsTo;
    hide RollsBack;
    hide Chars;
    var t := Pair(a, m, c, n, preset, page);
    PairBlank(o, a, m, c, n, preset, page, false);
    var p, before := RowsTo(t, o, 2), [Some(a.original), Some(c.original)];
    assert 1 in p.donated && p.donated[1] == Second(a);
    EmptyChars();
    GiverRollsBack(t, o, before, 1, 0, 1, ch);
  }

  lemma PairKeeps(o: Oracle, a: Cell, m: string, c: Cell, n: string, preset: bool, page: int)
    requires Beside(page) && Giver(o, a, m, true) && Taker(o, a, c, n) && Movable(o, c, n) && Own(o, c, n).None? && |Prose(c)| == 2
    requires !Echoes(o, Prose(c)[0].text, m) && !Echoes(o, Prose(c)[1].text, m)
    ensures var t, before := Pair(a, m, c, n, preset, page), [Some(a.original), Some(c.original)];
      && t.Valid() && Asked(t, o) == [1] && Outcomes(t, o, None, before) == Applied
      && var p := PlansFor(t, o, None);
         p.unresolved == [1] && Finals(p.planned, p.donated, before) == [Some(Prose(a)[0].text), Some(Prose(a)[1].text)]
  {
    hide Echoes;
    hide Prose;
    hide WellCut;
    hide HasName;
    hide Movable;
    hide Own;
    hide LeadPlan;
    hide RowsTo;
    hide RollsBack;
    hide Looked;
    var t, before := Pair(a, m, c, n, preset, page), [Some(a.original), Some(c.original)];
    PairCodes(o, a, m, c, n, preset, page);
    CodesStay(o, a, m, c, n, preset, page);
    ProseSliced(a, 0);
    ProseSliced(a, 1);
    assert 1 in RowsTo(t, o, 2).donated;
    assert GiversOwn(t, o);
    OwnersNeverRollBack(t, o, None, before);
  }

  lemma LoneKeeps(o: Oracle, a: Cell, m: string)
    requires Giver(o, a, m, true)
    ensures var t, before := Table([a], [m], [1], [false], []), [Some(a.original)];
      && t.Valid() && Asked(t, o) == [0] && Outcomes(t, o, None, before) == Applied
      && var p := PlansFor(t, o, None);
         p.unresolved == [0] && Finals(p.planned, p.donated, before) == [Some(Prose(a)[0].text)]
  {
    hide Echoes;
    hide Prose;
    hide WellCut;
    hide HasName;
    hide Movable;
    hide Own;
    hide LeadPlan;
    hide RowsTo;
    hide RollsBack;
    hide Looked;
    var t, before := Table([a], [m], [1], [false], []), [Some(a.original)];
    LonePlans(o, a, m);
    ProseSliced(a, 0);
    assert 0 in RowsTo(t, o, 1).planned;
    OwnersNeverRollBack(t, o, None, before);
  }

  /** A nameless row on the page of the first or beside it ends with the name. */
  lemma PairMoves(o: Oracle, a: Cell, m: string, c: Cell, n: string, preset: bool, page: int)
    requires Beside(page) && Giver(o, a, m, true) && Taker(o, a, c, n) && !Movable(o, c, n)
    ensures var t, before := Pair(a, m, c, n, preset, page), [Some(a.original), Some(c.original)];
      && t.Valid() && Asked(t, o) == [] && Outcomes(t, o, None, before) == Applied
      && var p := PlansFor(t, o, None);
         p.unresolved == [] && Finals(p.planned, p.donated, before) == [Some(Prose(a)[0].text), Some(Prose(a)[1].text)]
  {
    hide Echoes;
    hide Prose;
    hide WellCut;
    hide HasName;
    hide Movable;
    hide Own;
    hide LeadPlan;
    hide RowsTo;
    hide RollsBack;
    hide Looked;
    var t, before := Pair(a, m, c, n, preset, page), [Some(a.original), Some(c.original)];
    PairBlank(o, a, m, c, n, preset, page, true);
    ProseSliced(a, 0);
    ProseSliced(a, 1);
    assert 1 in RowsTo(t, o, 2).donated;
    assert GiversOwn(t, o);
    OwnersNeverRollBack(t, o, None, before);
  }

  // ---- the tables ------------------------------------------------------------------------------------------------------- //

  lemma NamedGives(own: bool)
    ensures Giver(ORACLE, NAMED, if own then "AB123" else "M", own)
  {
    hide Own;
    hide Movable;
    hide HasName;
    hide WellCut;
    hide LeadPlan;
    hide Prose;
    NamedCut();
    NoLead(NAMED);
    RunsAre();
    NamedOwn(if own then "AB123" else "M");
  }

  lemma SaysEcho(text: string, code: string, named: bool, model: string)
    requires Says(text, code, named) && (model == "M" || Part(model))
    ensures Echoes(ORACLE, text, model) <==> code == model
  {
    hide Echoes;
    hide Part;
  }

  lemma NamedEchoes()
    ensures |Prose(NAMED)| == 2 && Prose(NAMED)[0].text == "PIN AB123" && Prose(NAMED)[1].text == "PIN CD456"
    ensures !Echoes(ORACLE, Prose(NAMED)[0].text, "CD456") && Echoes(ORACLE, Prose(NAMED)[1].text, "CD456")
  {
    hide Prose;
    hide Echoes;
    hide Says;
    RunsAre();
    NamesSay();
    SaysEcho("PIN AB123", "AB123", true, "CD456");
    SaysEcho("PIN CD456", "CD456", true, "CD456");
  }

  lemma CodedEchoes()
    ensures |Prose(CODED)| == 2
    ensures !Echoes(ORACLE, Prose(CODED)[0].text, "AB123") && !Echoes(ORACLE, Prose(CODED)[1].text, "AB123")
  {
    hide Prose;
    hide Echoes;
    hide Says;
    RunsAre();
    CodesSay();
    SaysEcho("EF789", "EF789", false, "AB123");
    SaysEcho("GH012*", "GH012", false, "AB123");
  }

  /** No run is proven the first row's own, and it gives its second away. */
  const GIVING: Table := Pair(NAMED, "M", BLANK, "CD456", true, 16)

  lemma Shows(a: string, b: string, ch: char)
    requires ch in Normal(b)
    ensures Chars(a + b)[ch] > 0
  {
    CharsConcat(a, b);
    hide Normal;
  }

  lemma CodeChars()
    ensures Chars("PIN CD456")['C'] > 0 && Chars("")['C'] == 0
  {
    NormalWritten("CD456");
    assert "CD456"[0] == 'C';
    Shows("PIN ", "CD456", 'C');
    EmptyChars();
    hide Chars;
    assert "PIN " + "CD456" == "PIN CD456";
  }

  /** The name stays in its cell as well, and the whole document is rolled back. */
  lemma GivenAwayTwice()
    ensures GIVING.Valid() && Outcomes(GIVING, ORACLE, None, [Some(NAMES), Some("")]) == RolledBack
  {
    hide Own;
    hide Movable;
    hide HasName;
    hide WellCut;
    hide LeadPlan;
    hide Prose;
    hide Echoes;
    hide Chars;
    hide Outcomes;
    NamedGives(false);
    NamedEchoes();
    BlankOwn("CD456");
    BlankCut();
    NoLead(BLANK);
    CodeChars();
    PairRollsBack(ORACLE, NAMED, "M", BLANK, "CD456", true, 16, 'C');
  }

  method RunRolledBack(t: Table, o: Oracle, ds: seq<Option<string>>, before: seq<Option<string>>)
    returns (after: seq<Option<string>>)
    requires t.Valid() && |before| == |ds| == |t.cells| && Originates(t, ds) && Outcomes(t, o, None, ds) == RolledBack
    requires forall k | 0 <= k < |t.cells| :: t.preset[k] == before[k].Some?
    ensures |after| == |before| && forall k | 0 <= k < |after| :: after[k] == None
  {
    hide *;
    var n := |t.cells|;
    var descriptions := new Option<string>[n](i requires 0 <= i < n => ds[i]);
    var printed := new Option<string>[n](i requires 0 <= i < n => before[i]);
    assert descriptions[..] == ds;
    var outcome, _ := AttributeRows(t, o, descriptions, printed, None);
    after := printed[..];
  }

  /** The rollback also discards the printed original that the first row already carried. */
  method RollbackClearsPrinted() returns (before: seq<Option<string>>, after: seq<Option<string>>)
    ensures before == [Some("Z"), None] && after == [None, None]
  {
    hide *;
    before := [Some("Z"), None];
    GivingReady(before);
    after := RunRolledBack(GIVING, ORACLE, [Some(NAMES), Some("")], before);
  }

  lemma GivingReady(kept: seq<Option<string>>)
    requires kept == [Some("Z"), None]
    ensures GIVING.Valid() && |GIVING.cells| == 2 && Originates(GIVING, [Some(NAMES), Some("")])
    ensures Outcomes(GIVING, ORACLE, None, [Some(NAMES), Some("")]) == RolledBack
    ensures forall k | 0 <= k < |GIVING.cells| :: GIVING.preset[k] == kept[k].Some?
  {
    hide Originates;
    hide Outcomes;
    hide WellCut;
    GivenAwayTwice();
    PairReady(NAMED, "M", BLANK, "CD456", kept);
  }

  lemma PairReady(a: Cell, m: string, c: Cell, n: string, kept: seq<Option<string>>)
    requires |kept| == 2 && kept[0].Some? && kept[1].None?
    ensures var t := Pair(a, m, c, n, true, 16);
      && |t.cells| == 2 && Originates(t, [Some(a.original), Some(c.original)])
      && |t.preset| == 2 && forall k | 0 <= k < 2 :: t.preset[k] == kept[k].Some?
  {
  }

  /** One row is reported as left exactly as printed, and keeps one of its two names. */
  const LOSING: Table := Table([NAMED], ["AB123"], [1], [false], [])

  lemma ReportedRowLoses()
    ensures LOSING.Valid() && Asked(LOSING, ORACLE) == [0]
    ensures Outcomes(LOSING, ORACLE, None, [Some(NAMES)]) == Applied
    ensures var p := PlansFor(LOSING, ORACLE, None);
      p.unresolved == [0] && Finals(p.planned, p.donated, [Some(NAMES)]) == [Some("PIN AB123")]
  {
    hide Own;
    hide Movable;
    hide HasName;
    hide WellCut;
    hide LeadPlan;
    hide Prose;
    hide Echoes;
    hide Outcomes;
    hide PlansFor;
    hide Asked;
    NamedGives(true);
    NamedEchoes();
    LoneKeeps(ORACLE, NAMED, "AB123");
  }

  /** The first row keeps its own name and gives its second to the other row, which has
      two codes and nobody for them: reported as left exactly as printed. */
  const RECEIVING: Table := Pair(NAMED, "AB123", CODED, "CD456", false, 16)

  lemma CodedTakes()
    ensures Taker(ORACLE, NAMED, CODED, "CD456") && Movable(ORACLE, CODED, "CD456") && Own(ORACLE, CODED, "CD456").None?
  {
    hide Own;
    hide Movable;
    hide HasName;
    hide WellCut;
    hide LeadPlan;
    hide Prose;
    hide Echoes;
    NamedEchoes();
    CodedOwn();
    CodedCut();
    NoLead(CODED);
  }

  /** Nothing of the second row is proven its own, no lead is cut off and no resolver was
      asked; its text is replaced all the same. */
  lemma ReportedRowReplaced()
    ensures RECEIVING.Valid() && Asked(RECEIVING, ORACLE) == [1]
    ensures Outcomes(RECEIVING, ORACLE, None, [Some(NAMES), Some(CODES)]) == Applied
    ensures var p := PlansFor(RECEIVING, ORACLE, None);
      p.unresolved == [1]
      && Finals(p.planned, p.donated, [Some(NAMES), Some(CODES)]) == [Some("PIN AB123"), Some("PIN CD456")]
    ensures StaysWhole(ORACLE, CODED, "CD456")
  {
    hide Own;
    hide Movable;
    hide HasName;
    hide WellCut;
    hide Prose;
    hide Echoes;
    hide Outcomes;
    hide PlansFor;
    hide Asked;
    NamedGives(true);
    NamedEchoes();
    CodedTakes();
    CodedEchoes();
    PairKeeps(ORACLE, NAMED, "AB123", CODED, "CD456", false, 16);
  }

  /** The last name of the first row's cell belongs to a row on the same page, or on the
      page before or behind it. */
  lemma MovesAcrossPages(page: int)
    requires 15 <= page <= 17
    ensures var t, before := Pair(NAMED, "AB123", BLANK, "CD456", false, page), [Some(NAMES), Some("")];
      && t.Valid() && t.pages == [16, page] && Outcomes(t, ORACLE, None, before) == Applied
      && var p := PlansFor(t, ORACLE, None);
         p.unresolved == [] && Finals(p.planned, p.donated, before) == [Some("PIN AB123"), Some("PIN CD456")]
  {
    hide Own;
    hide Movable;
    hide HasName;
    hide WellCut;
    hide LeadPlan;
    hide Prose;
    hide Echoes;
    hide Outcomes;
    hide PlansFor;
    hide Asked;
    NamedGives(true);
    NamedEchoes();
    BlankOwn("CD456");
    BlankCut();
    NoLead(BLANK);
    PairMoves(ORACLE, NAMED, "AB123", BLANK, "CD456", false, page);
  }
}
