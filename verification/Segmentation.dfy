/** Splitting a description cell into typed runs.

    The regular expressions are abstract matchers: nothing below depends on the
    annotation vocabulary, only on a match ending inside the text. */
module Segmentation {
  import opened Options
  import opened Text

  datatype Matchers = Matchers(
    labelEnd: (string, nat) -> Option<nat>,     // _LABEL_ANCHOR.match(text, i): its end
    cooAnchor: (string, nat) -> bool,        // _COO_ANCHOR.match(text, i)
    codeQty: (string, nat) -> bool,          // _CODE_QTY.match(text, i)
    cooClause: string -> Option<nat>,        // _COO_CLAUSE.match(rest): its end
    isValue: string -> bool,                 // separator, unit, number or code token
    isFiller: string -> bool,                // token made of annotation vocabulary
    country: Option<seq<string> -> bool>,    // normalize_country over the first words
    weldedLabel: (string, nat) -> bool,      // _U1: a space goes before this index
    weldedColon: (string, nat) -> bool,      // _U2
    weldedDigits: (string, nat) -> bool,     // _U3
    annotated: string -> bool)               // either anchor matches somewhere

  ghost predicate Bounded(m: Matchers) {
    && (forall text: string, i: nat | i < |text| :: m.labelEnd(text, i).Some? ==> i <= m.labelEnd(text, i).value <= |text|)
    && (forall rest: string :: m.cooClause(rest).Some? ==> m.cooClause(rest).value <= |rest|)
  }

  // ---- unglue ---------------------------------------------------------------------- //

  /** A substitution that only puts single spaces before some characters of `s`,
      over the first `n` of them. */
  function InsertSpaces(s: string, at: (string, nat) -> bool, n: nat): string
    requires n <= |s|
  {
    if n == 0 then []
    else InsertSpaces(s, at, n - 1) + (if at(s, n - 1) then " " else "") + [s[n - 1]]
  }

  function Unglue(m: Matchers, raw: string): string {
    var out1 := InsertSpaces(raw, m.weldedLabel, |raw|);
    var out2 := InsertSpaces(out1, m.weldedColon, |out1|);
    if m.annotated(out2) then InsertSpaces(out2, m.weldedDigits, |out2|) else out2
  }

  /** The matches among the first `n` indices. */
  function Cuts(s: string, at: (string, nat) -> bool, n: nat): set<nat> {
    set j | 0 <= j < n && at(s, j)
  }

  /** Character k of `s`, behind the spaces that go before it and all before it. */
  ghost predicate PlacedAt(s: string, at: (string, nat) -> bool, out: string, k: nat)
    requires k < |s|
  {
    var there := k + |Cuts(s, at, k + 1)|;
    there < |out| && out[there] == s[k] && (at(s, k) ==> there > 0 && out[there - 1] == ' ')
  }

  /** `out` is `s` with one space more before every index that matches, and nothing else. */
  ghost predicate SpacedAt(s: string, at: (string, nat) -> bool, out: string) {
    |out| == |s| + |Cuts(s, at, |s|)| && forall k: nat | k < |s| :: PlacedAt(s, at, out, k)
  }

  lemma CutsNext(s: string, at: (string, nat) -> bool, n: nat)
    ensures |Cuts(s, at, n + 1)| == |Cuts(s, at, n)| + if at(s, n) then 1 else 0
  {
    assert Cuts(s, at, n + 1) == Cuts(s, at, n) + if at(s, n) then {n} else {};
  }

  lemma {:induction false} InsertsExactly(s: string, at: (string, nat) -> bool, n: nat)
    requires n <= |s|
    ensures var out := InsertSpaces(s, at, n);
      |out| == n + |Cuts(s, at, n)| && forall k: nat | k < n :: PlacedAt(s, at, out, k)
  {
    hide Cuts;
    if n == 0 {
      NoCuts(s, at);
    } else {
      InsertsExactly(s, at, n - 1);
      CutsNext(s, at, n - 1);
      var before, out := InsertSpaces(s, at, n - 1), InsertSpaces(s, at, n);
      forall k: nat | k < n ensures PlacedAt(s, at, out, k) {
        assert k < n - 1 ==> PlacedAt(s, at, before, k);
      }
    }
  }

  lemma NoCuts(s: string, at: (string, nat) -> bool)
    ensures Cuts(s, at, 0) == {}
  {
  }

  lemma InsertsSpaced(s: string, at: (string, nat) -> bool)
    ensures SpacedAt(s, at, InsertSpaces(s, at, |s|))
  {
    InsertsExactly(s, at, |s|);
  }

  /** A space goes before a welded label, behind a welded colon and, in a text that is
      annotated by then, before welded digits; nothing else changes. */
  lemma UnglueExactly(m: Matchers, raw: string)
    ensures exists labels: string, colons: string :: (
      && SpacedAt(raw, m.weldedLabel, labels) && SpacedAt(labels, m.weldedColon, colons)
      && if m.annotated(colons) then SpacedAt(colons, m.weldedDigits, Unglue(m, raw)) else Unglue(m, raw) == colons)
  {
    hide SpacedAt, InsertSpaces;
    var labels := InsertSpaces(raw, m.weldedLabel, |raw|);
    var colons := InsertSpaces(labels, m.weldedColon, |labels|);
    InsertsSpaced(raw, m.weldedLabel);
    InsertsSpaced(labels, m.weldedColon);
    InsertsSpaced(colons, m.weldedDigits);
  }

  lemma SqueezeChar(s: string, c: char)
    ensures Squeeze(s + [c]) == Squeeze(s) + Keep(c)
  {
    SqueezeConcat(s, [c]);
    assert VisibleTo([c], 1) == VisibleTo([c], 0) + Keep(c);
  }

  lemma {:induction false} InsertSpacesKeeps(s: string, at: (string, nat) -> bool, n: nat)
    requires n <= |s|
    ensures Squeeze(InsertSpaces(s, at, n)) == VisibleTo(s, n)
  {
    if n > 0 {
      var head := InsertSpaces(s, at, n - 1);
      InsertSpacesKeeps(s, at, n - 1);
      SqueezeChar(head, ' ');
      SqueezeChar(head, s[n - 1]);
      SqueezeChar(head + " ", s[n - 1]);
      assert head + "" == head;
    }
  }

  /** The runtime assertion of `unglue` never fails: only spaces are added. */
  lemma UnglueOnlyAddsSpaces(m: Matchers, raw: string)
    ensures Squeeze(Unglue(m, raw)) == Squeeze(raw)
  {
    var out1 := InsertSpaces(raw, m.weldedLabel, |raw|);
    var out2 := InsertSpaces(out1, m.weldedColon, |out1|);
    InsertSpacesKeeps(raw, m.weldedLabel, |raw|);
    InsertSpacesKeeps(out1, m.weldedColon, |out1|);
    InsertSpacesKeeps(out2, m.weldedDigits, |out2|);
  }

  /** `re.sub(r"\s+", " ", s)` over the first `n` characters. */
  function Collapse(s: string, n: nat): string
    requires n <= |s|
  {
    if n == 0 then []
    else if !IsSpace(s[n - 1]) then Collapse(s, n - 1) + [s[n - 1]]
    else if n > 1 && IsSpace(s[n - 2]) then Collapse(s, n - 1)
    else Collapse(s, n - 1) + " "
  }

  lemma {:induction false} CollapseKeeps(s: string, n: nat)
    requires n <= |s|
    ensures Squeeze(Collapse(s, n)) == VisibleTo(s, n)
  {
    if n > 0 {
      CollapseKeeps(s, n - 1);
      SqueezeChar(Collapse(s, n - 1), s[n - 1]);
      SqueezeChar(Collapse(s, n - 1), ' ');
    }
  }

  /** The text that is scanned: unglued, with single blanks, stripped. */
  function Clean(m: Matchers, raw: string): string {
    var out := Unglue(m, raw);
    Strip(Collapse(out, |out|))
  }

  /** Single blanks between visible characters, and none at the ends. */
  predicate SingleSpaced(s: string) {
    && (s != [] ==> !IsSpace(s[0]) && !IsSpace(s[|s| - 1]))
    && forall i | 0 <= i < |s| && IsSpace(s[i]) :: s[i] == ' ' && (i > 0 ==> !IsSpace(s[i - 1]))
  }

  /** Which of the visible characters among the first `n` begin a word, by their rank. */
  function StartsTo(s: string, n: nat): set<nat>
    requires n <= |s|
  {
    if n == 0 then {}
    else
      StartsTo(s, n - 1)
      + if !IsSpace(s[n - 1]) && (n == 1 || IsSpace(s[n - 2])) then {|VisibleTo(s, n - 1)|} else {}
  }

  function WordStarts(s: string): set<nat> { StartsTo(s, |s|) }

  lemma {:induction false} StartsPrefix(a: string, b: string, n: nat)
    requires n <= |a| && n <= |b| && forall i | 0 <= i < n :: a[i] == b[i]
    ensures StartsTo(a, n) == StartsTo(b, n) && VisibleTo(a, n) == VisibleTo(b, n)
  {
    hide IsSpace;
    if n > 0 {
      StartsPrefix(a, b, n - 1);
    }
  }

  lemma StartsAppend(t: string, c: char)
    ensures WordStarts(t + [c])
         == WordStarts(t) + if !IsSpace(c) && (t == [] || IsSpace(t[|t| - 1])) then {|Squeeze(t)|} else {}
  {
    hide IsSpace;
    StartsPrefix(t + [c], t, |t|);
  }

  lemma {:induction false} CollapseStarts(s: string, n: nat)
    requires n <= |s|
    ensures WordStarts(Collapse(s, n)) == StartsTo(s, n)
  {
    hide IsSpace, VisibleTo;
    if n > 0 {
      CollapseStarts(s, n - 1);
      CollapseKeeps(s, n - 1);
      CollapseSpaces(s, n - 1);
      var t := Collapse(s, n - 1);
      StartsAppend(t, s[n - 1]);
      StartsAppend(t, ' ');
      hide StartsTo;
      BlankSpace();
      StartsNext(s, n);
    }
  }

  lemma BlankSpace()
    ensures IsSpace(' ')
  {
  }

  lemma StartsNext(s: string, n: nat)
    requires 0 < n <= |s|
    ensures StartsTo(s, n)
         == StartsTo(s, n - 1) + if !IsSpace(s[n - 1]) && (n == 1 || IsSpace(s[n - 2])) then {|VisibleTo(s, n - 1)|} else {}
  {
  }

  lemma {:induction false} SpaceStarts(s: string, n: nat)
    requires n <= |s| && forall i | 0 <= i < n :: IsSpace(s[i])
    ensures StartsTo(s, n) == {} && VisibleTo(s, n) == []
  {
    hide IsSpace;
    if n > 0 {
      SpaceStarts(s, n - 1);
    }
  }

  lemma {:induction false} TailStarts(s: string, n: nat, m: nat)
    requires n <= m <= |s| && forall i | n <= i < m :: IsSpace(s[i])
    ensures StartsTo(s, m) == StartsTo(s, n)
    decreases m
  {
    hide IsSpace;
    if n < m {
      TailStarts(s, n, m - 1);
    }
  }

  lemma {:induction false} SliceStarts(s: string, from: nat, n: nat)
    requires from <= n <= |s| && forall i | 0 <= i < from :: IsSpace(s[i])
    ensures WordStarts(s[from..n]) == StartsTo(s, n) && Squeeze(s[from..n]) == VisibleTo(s, n)
    decreases n
  {
    hide IsSpace;
    if from == n {
      SpaceStarts(s, n);
    } else {
      SliceStarts(s, from, n - 1);
      assert s[from..n] == s[from..n - 1] + [s[n - 1]];
      StartsAppend(s[from..n - 1], s[n - 1]);
      SqueezeChar(s[from..n - 1], s[n - 1]);
    }
  }

  lemma StripStarts(t: string)
    ensures WordStarts(Strip(t)) == WordStarts(t)
  {
    var from := SkipSpace(t, 0);
    var end := TrimEnd(t, from, |t|);
    SliceStarts(t, from, end);
    TailStarts(t, end, |t|);
  }

  /** Words stay apart and whole: the same visible characters begin one. */
  lemma CleanStarts(m: Matchers, raw: string)
    ensures WordStarts(Clean(m, raw)) == WordStarts(Unglue(m, raw))
  {
    var out := Unglue(m, raw);
    CollapseStarts(out, |out|);
    StripStarts(Collapse(out, |out|));
    hide *;
  }

  lemma {:induction false} CollapseSpaces(s: string, n: nat)
    requires n <= |s|
    ensures var t := Collapse(s, n);
      && (forall i | 0 <= i < |t| && IsSpace(t[i]) :: t[i] == ' ' && (i > 0 ==> !IsSpace(t[i - 1])))
      && (t == [] <==> n == 0) && (n > 0 ==> (IsSpace(t[|t| - 1]) <==> IsSpace(s[n - 1])))
  {
    if n > 0 {
      CollapseSpaces(s, n - 1);
    }
  }

  lemma CleanSpaced(m: Matchers, raw: string)
    ensures SingleSpaced(Clean(m, raw))
  {
    var out := Unglue(m, raw);
    CollapseSpaces(out, |out|);
    StripSpaced(Collapse(out, |out|));
  }

  lemma StripSpaced(t: string)
    requires forall i | 0 <= i < |t| && IsSpace(t[i]) :: t[i] == ' ' && (i > 0 ==> !IsSpace(t[i - 1]))
    ensures SingleSpaced(Strip(t))
  {
    hide IsSpace;
    var from := SkipSpace(t, 0);
    var end := TrimEnd(t, from, |t|);
    assert forall i | 0 <= i < |Strip(t)| :: Strip(t)[i] == t[from + i];
  }

  lemma CleanKeeps(m: Matchers, raw: string)
    ensures Squeeze(Clean(m, raw)) == Squeeze(raw)
  {
    var out := Unglue(m, raw);
    UnglueOnlyAddsSpaces(m, raw);
    CollapseKeeps(out, |out|);
    SqueezeStrip(Collapse(out, |out|));
  }

  // ---- words of a country clause ----------------------------------------------------- //

  /** `s[pos..].split()`. */
  function Words(s: string, pos: nat): seq<string>
    requires pos <= |s|
    decreases |s| - pos
  {
    var start := SkipSpace(s, pos);
    if start == |s| then []
    else
      var end := SkipVisible(s, start);
      [s[start..end]] + Words(s, end)
  }

  /** Where the n-th word of `s` ends. */
  function EndOfWords(s: string, n: nat): (end: nat)
    ensures end <= |s|
  {
    if n == 0 then 0 else SkipVisible(s, SkipSpace(s, EndOfWords(s, n - 1)))
  }

  lemma {:induction false} EndOfWordsLeaves(s: string, n: nat)
    requires n <= |Words(s, 0)|
    ensures Words(s, EndOfWords(s, n)) == Words(s, 0)[n..]
  {
    hide Words;
    if n > 0 {
      EndOfWordsLeaves(s, n - 1);
      WordsNext(s, EndOfWords(s, n - 1));
      assert Words(s, 0)[n - 1..][1..] == Words(s, 0)[n..];
    }
  }

  lemma WordsNext(s: string, pos: nat)
    requires pos <= |s| && Words(s, pos) != []
    ensures Words(s, pos)[1..] == Words(s, SkipVisible(s, SkipSpace(s, pos)))
  {
  }

  predicate OccursAt(s: string, w: string, k: nat) {
    k + |w| <= |s| && s[k..k + |w|] == w
  }

  /** `s.index(w, from)`, where an occurrence is known to exist at `known`. */
  method Index(s: string, w: string, from: nat, ghost known: nat) returns (k: nat)
    requires from <= known && OccursAt(s, w, known)
    ensures from <= k <= known && OccursAt(s, w, k)
    ensures forall j | from <= j < k :: !OccursAt(s, w, j)
  {
    k := from;
    while !OccursAt(s, w, k)
      invariant from <= k <= known
      invariant forall j | from <= j < k :: !OccursAt(s, w, j)
      decreases known - k
    {
      k := k + 1;
    }
  }

  /** The end of a word as the code finds it: a word never occurs in the white
      space before it. */
  method NextWordEnd(s: string, n: nat, idx: nat) returns (end: nat)
    requires n < |Words(s, 0)| && idx == EndOfWords(s, n)
    ensures end == EndOfWords(s, n + 1)
  {
    EndOfWordsLeaves(s, n);
    var word := Words(s, 0)[n];
    assert word == Words(s, idx)[0];
    ghost var start := SkipSpace(s, idx);
    assert OccursAt(s, word, start);
    var at := Index(s, word, idx, start);
    assert s[at] == s[at..at + |word|][0] == word[0];
    end := at + |word|;
  }

  method WordsEnd(s: string, k: nat) returns (idx: nat)
    requires k <= |Words(s, 0)|
    ensures idx == EndOfWords(s, k)
  {
    var seen := 0;
    idx := 0;
    while seen < k
      invariant 0 <= seen <= k
      invariant idx == EndOfWords(s, seen)
    {
      idx := NextWordEnd(s, seen, idx);
      seen := seen + 1;
    }
  }

  // ---- annotation runs ----------------------------------------------------------------- //

  /** The longest prefix of at most `n` words that names a country. */
  function CountryWords(names: seq<string> -> bool, words: seq<string>, n: nat): (k: nat)
    requires n <= |words|
    ensures k <= n && (k > 0 ==> names(words[..k]))
    ensures forall j | k < j <= n :: !names(words[..j])
  {
    if n == 0 || names(words[..n]) then n else CountryWords(names, words, n - 1)
  }

  /** Characters of `rest` that a country-of-origin clause at its front covers. */
  function ClauseLen(m: Matchers, rest: string): (n: nat)
    requires Bounded(m)
    ensures n <= |rest|
  {
    if m.cooClause(rest).None? then 0
    else
      var head := m.cooClause(rest).value;
      var after := rest[head..];
      var words := Words(after, 0);
      if words == [] then 0
      else match m.country
        case None => if |words| == 1 then |rest| else 0
        case Some(names) =>
          var k := CountryWords(names, words, if |words| < 3 then |words| else 3);
          if k == 0 then 0 else head + EndOfWords(after, k)
  }

  method CooClauseLen(m: Matchers, rest: string) returns (n: nat)
    requires Bounded(m)
    ensures n == ClauseLen(m, rest)
    ensures n > 0 <==> OriginNamed(m, rest)
    ensures n > 0 ==> CountryEnds(m, rest, n)
  {
    ClauseNamesCountry(m, rest);
    ClauseEnds(m, rest);
    hide NamesCountry, CountryEnds;
    if m.cooClause(rest).None? {
      return 0;
    }
    var head := m.cooClause(rest).value;
    var after := rest[head..];
    var words := Words(after, 0);
    if words == [] {
      return 0;
    }
    if m.country.None? {
      return if |words| == 1 then head + |after| else 0;
    }
    var names := m.country.value;
    var top := if |words| < 3 then |words| else 3;
    var k := top;
    while k > 0
      invariant 0 <= k <= top
      invariant CountryWords(names, words, top) == CountryWords(names, words, k)
    {
      if names(words[..k]) {
        var idx := WordsEnd(after, k);
        return head + idx;
      }
      k := k - 1;
    }
    return 0;
  }

  /** The token at the front of `rest`: everything before the next blank. */
  function Token(rest: string): (tok: string)
    ensures tok <= rest
    ensures rest != [] && rest[0] != ' ' ==> tok != []
  {
    if rest == [] || rest[0] == ' ' then [] else [rest[0]] + Token(rest[1..])
  }

  /** What a run does with the text from a visible character on. */
  datatype Reading = Value(end: nat) | Filler(end: nat) | Stop

  function Read(m: Matchers, text: string, at: nat): (r: Reading)
    requires Bounded(m) && at < |text| && !IsSpace(text[at])
    ensures !r.Stop? ==> at < r.end <= |text|
  {
    var rest := text[at..];
    var take := ClauseLen(m, rest);
    var tok := Token(rest);
    assert tok <= rest && tok != [];
    if take > 0 then Value(at + take)
    else if m.isValue(tok) then Value(at + |tok|)
    else if m.isFiller(tok) then Filler(at + |tok|)
    else Stop
  }

  /** Where a run that has reached `pos` ends, given where its last value ended.
      The label that opened the run counts as a value until the first one. */
  function RunEndFrom(m: Matchers, text: string, pos: nat, last: nat): (end: nat)
    requires Bounded(m) && pos <= |text| && last <= |text|
    ensures end <= |text| && (end == last || end > pos)
    decreases |text| - pos
  {
    var at := SkipSpace(text, pos);
    if at == |text| then last
    else match Read(m, text, at)
      case Value(end) => RunEndFrom(m, text, end, end)
      case Filler(end) => RunEndFrom(m, text, end, last)
      case Stop => last
  }

  method ReadAt(m: Matchers, text: string, at: nat) returns (r: Reading)
    requires Bounded(m) && at < |text| && !IsSpace(text[at])
    ensures r == Read(m, text, at)
    ensures ReadsAs(m, text[at..], at, r)
  {
    var rest := text[at..];
    ReadExactly(m, text, at);
    hide CountryEnds, OriginNamed;
    var take := CooClauseLen(m, rest);
    if take > 0 {
      return Value(at + take);
    }
    var tok := Token(rest);
    assert tok <= rest;
    if m.isValue(tok) {
      return Value(at + |tok|);
    }
    return if m.isFiller(tok) then Filler(at + |tok|) else Stop;
  }

  method RunEnd(m: Matchers, text: string, i: nat, labelEnd: nat) returns (pos: nat, last: nat)
    requires Bounded(m) && i < |text| && labelEnd <= |text|
    ensures pos <= |text| && last == RunEndFrom(m, text, i, Max(i, labelEnd))
  {
    pos := i;
    last := Max(i, labelEnd);
    ghost var spec := RunEndFrom(m, text, i, last);
    while pos < |text|
      invariant pos <= |text| && last <= |text|
      invariant RunEndFrom(m, text, pos, last) == spec
    {
      pos := SkipSpace(text, pos);
      if pos == |text| {
        break;
      }
      var r := ReadAt(m, text, pos);
      if r.Stop? {
        break;
      }
      pos := r.end;
      if r.Value? {
        last := pos;
      }
    }
  }

  function Max(a: nat, b: nat): nat { if a < b then b else a }

  // ---- the scan ------------------------------------------------------------------------- //

  datatype Kind = PROSE | ANN

  datatype Segment = Segment(kind: Kind, start: nat, end: nat, text: string)

  /** An annotation run that opens at `i` ends here; `i` itself if none does. */
  function RunAt(m: Matchers, text: string, i: nat): (end: nat)
    requires Bounded(m) && i < |text|
    ensures i <= end <= |text|
  {
    var found := m.labelEnd(text, i);
    if found.Some? then
      Max(RunEndFrom(m, text, i, Max(i, found.value)), i)
    else if (m.cooAnchor(text, i) && ClauseLen(m, text[i..]) > 0) || m.codeQty(text, i) then
      Max(RunEndFrom(m, text, i, i), i)
    else i
  }

  /** The annotation runs of `text` from `i` on: greedy, left to right. */
  function Runs(m: Matchers, text: string, i: nat): seq<(nat, nat)>
    requires Bounded(m) && i <= |text|
    decreases |text| - i
  {
    if i == |text| then []
    else if RunAt(m, text, i) == i then Runs(m, text, i + 1)
    else [(i, RunAt(m, text, i))] + Runs(m, text, RunAt(m, text, i))
  }

  /** The run that opens at `i`, found as the code finds it. */
  method AnnotationAt(m: Matchers, text: string, i: nat) returns (end: nat)
    requires Bounded(m) && i < |text|
    ensures end == RunAt(m, text, i)
  {
    var labelEnd := 0;
    var found := m.labelEnd(text, i);
    if found.Some? {
      labelEnd := found.value;
    } else {
      var clause := 0;
      if m.cooAnchor(text, i) {
        clause := CooClauseLen(m, text[i..]);
      }
      if clause == 0 && !m.codeQty(text, i) {
        return i;
      }
    }
    var _, last := RunEnd(m, text, i, labelEnd);
    end := Max(last, i);
  }

  function Annotations(segments: seq<Segment>): seq<(nat, nat)> {
    if segments == [] then []
    else
      var last := segments[|segments| - 1];
      Annotations(segments[..|segments| - 1]) + (if last.kind == ANN then [(last.start, last.end)] else [])
  }

  function Concat(segments: seq<Segment>): string {
    if segments == [] then []
    else Concat(segments[..|segments| - 1]) + segments[|segments| - 1].text
  }

  /** Every segment is an exact stripped slice of the text. */
  ghost predicate Slices(text: string, segments: seq<Segment>) {
    forall k | 0 <= k < |segments| ::
      && segments[k].start < segments[k].end <= |text|
      && segments[k].text == Strip(text[segments[k].start..segments[k].end])
      && (segments[k].kind == PROSE ==> segments[k].text != [])
  }

  function EndBefore(segments: seq<Segment>, k: nat): nat
    requires k <= |segments|
  {
    if k == 0 then 0 else segments[k - 1].end
  }

  ghost predicate BlankBetween(text: string, from: nat, upto: nat) {
    from <= upto <= |text| && forall i | from <= i < upto :: IsSpace(text[i])
  }

  /** The segments are in order, do not overlap, and leave out only white space. */
  ghost predicate Contiguous(text: string, segments: seq<Segment>, cursor: nat) {
    && (forall k | 0 <= k < |segments| :: BlankBetween(text, EndBefore(segments, k), segments[k].start))
    && BlankBetween(text, EndBefore(segments, |segments|), cursor)
  }

  /** The segments tile the text up to `cursor`. */
  ghost predicate TilesTo(text: string, segments: seq<Segment>, cursor: nat) {
    && Slices(text, segments)
    && Contiguous(text, segments, cursor)
    && Squeeze(Concat(segments)) == VisibleTo(text, cursor)
  }

  /** Two goods names are never adjacent: an annotation run separates them. */
  ghost predicate ProseSeparated(segments: seq<Segment>) {
    forall k | 0 < k < |segments| :: segments[k - 1].kind == ANN || segments[k].kind == ANN
  }

  ghost predicate EndsInAnnotation(segments: seq<Segment>) {
    segments != [] ==> segments[|segments| - 1].kind == ANN
  }

  lemma TextExtends(text: string, head: string, cursor: nat, end: nat)
    requires cursor <= end <= |text| && Squeeze(head) == VisibleTo(text, cursor)
    ensures Squeeze(head + Strip(text[cursor..end])) == VisibleTo(text, end)
  {
    hide IsSpace;
    hide Strip;
    hide VisibleTo;
    var slice := text[cursor..end];
    SqueezeConcat(head, Strip(slice));
    SqueezeStrip(slice);
    VisibleOfSlice(text, cursor, slice, |slice|);
  }

  function Append(text: string, segments: seq<Segment>, kind: Kind, start: nat, end: nat): seq<Segment>
    requires start <= end <= |text|
  {
    segments + [Segment(kind, start, end, Strip(text[start..end]))]
  }

  lemma AppendContiguous(text: string, segments: seq<Segment>, kind: Kind, cursor: nat, end: nat)
    requires Contiguous(text, segments, cursor) && cursor < end <= |text|
    ensures Contiguous(text, Append(text, segments, kind, cursor, end), end)
  {
    var out := Append(text, segments, kind, cursor, end);
    forall k | 0 <= k < |out| ensures BlankBetween(text, EndBefore(out, k), out[k].start) {
      assert EndBefore(out, k) == EndBefore(segments, k);
      if k < |segments| {
        assert BlankBetween(text, EndBefore(segments, k), segments[k].start);
      }
    }
  }

  lemma AppendSlices(text: string, segments: seq<Segment>, kind: Kind, cursor: nat, end: nat)
    requires Slices(text, segments) && cursor < end <= |text|
    requires kind == PROSE ==> Strip(text[cursor..end]) != []
    ensures Slices(text, Append(text, segments, kind, cursor, end))
  {
  }

  lemma AppendTiles(text: string, segments: seq<Segment>, kind: Kind, cursor: nat, end: nat)
    requires TilesTo(text, segments, cursor) && cursor < end <= |text|
    requires kind == PROSE ==> Strip(text[cursor..end]) != []
    ensures TilesTo(text, Append(text, segments, kind, cursor, end), end)
    ensures Annotations(Append(text, segments, kind, cursor, end))
      == Annotations(segments) + if kind == ANN then [(cursor, end)] else []
  {
    AppendSlices(text, segments, kind, cursor, end);
    AppendContiguous(text, segments, kind, cursor, end);
    TextExtends(text, Concat(segments), cursor, end);
    AppendAdds(text, segments, kind, cursor, end);
  }

  lemma AppendAdds(text: string, segments: seq<Segment>, kind: Kind, start: nat, end: nat)
    requires start <= end <= |text|
    ensures Concat(Append(text, segments, kind, start, end)) == Concat(segments) + Strip(text[start..end])
    ensures Annotations(Append(text, segments, kind, start, end))
      == Annotations(segments) + if kind == ANN then [(start, end)] else []
  {
    var out := Append(text, segments, kind, start, end);
    assert out[..|out| - 1] == segments;
  }

  /** The goods name between the cursor and the next run, if anything is printed
      there. */
  function AppendProse(text: string, segments: seq<Segment>, cursor: nat, end: nat): seq<Segment>
    requires cursor <= end <= |text|
  {
    if Strip(text[cursor..end]) != [] then Append(text, segments, PROSE, cursor, end) else segments
  }

  lemma AppendProseTiles(text: string, segments: seq<Segment>, cursor: nat, end: nat)
    requires TilesTo(text, segments, cursor) && cursor <= end <= |text|
    ensures TilesTo(text, AppendProse(text, segments, cursor, end), end)
    ensures Annotations(AppendProse(text, segments, cursor, end)) == Annotations(segments)
  {
    if Strip(text[cursor..end]) != [] {
      AppendTiles(text, segments, PROSE, cursor, end);
    } else {
      TextExtends(text, Concat(segments), cursor, end);
      assert Concat(segments) + [] == Concat(segments);
      BlankGap(text, segments, cursor, end);
    }
  }

  lemma BlankGap(text: string, segments: seq<Segment>, cursor: nat, end: nat)
    requires Contiguous(text, segments, cursor) && cursor <= end <= |text|
    requires Strip(text[cursor..end]) == []
    ensures Contiguous(text, segments, end)
  {
    var before, after := StripIsSlice(text[cursor..end]);
    assert forall i | cursor <= i < end :: text[i] == text[cursor..end][i - cursor];
  }

  /** One annotation run, with the goods name before it. */
  function AppendRun(text: string, segments: seq<Segment>, cursor: nat, i: nat, end: nat): seq<Segment>
    requires cursor <= i < end <= |text|
  {
    Append(text, AppendProse(text, segments, cursor, i), ANN, i, end)
  }

  lemma AppendRunTiles(text: string, segments: seq<Segment>, cursor: nat, i: nat, end: nat)
    requires cursor <= i < end <= |text| && TilesTo(text, segments, cursor)
    ensures TilesTo(text, AppendRun(text, segments, cursor, i, end), end)
    ensures Annotations(AppendRun(text, segments, cursor, i, end)) == Annotations(segments) + [(i, end)]
  {
    var named := AppendProse(text, segments, cursor, i);
    AppendProseTiles(text, segments, cursor, i);
    AppendTiles(text, named, ANN, i, end);
  }

  lemma AppendKeepsKinds(text: string, segments: seq<Segment>, cursor: nat, i: nat)
    requires cursor <= i <= |text| && ProseSeparated(segments) && EndsInAnnotation(segments)
    ensures ProseSeparated(AppendProse(text, segments, cursor, i))
    ensures forall end | i < end <= |text| ::
      ProseSeparated(AppendRun(text, segments, cursor, i, end))
      && EndsInAnnotation(AppendRun(text, segments, cursor, i, end))
  {
  }

  lemma RunsStep(m: Matchers, text: string, i: nat)
    requires Bounded(m) && i < |text|
    ensures RunAt(m, text, i) == i ==> Runs(m, text, i) == Runs(m, text, i + 1)
    ensures RunAt(m, text, i) > i ==> Runs(m, text, i) == [(i, RunAt(m, text, i))] + Runs(m, text, RunAt(m, text, i))
  {
  }

  /** The segments from index i on, of a text cut up to `cursor`. */
  function SegmentsFrom(m: Matchers, text: string, cursor: nat, i: nat): seq<Segment>
    requires Bounded(m) && cursor <= i <= |text|
    decreases |text| - i
  {
    if i == |text| then AppendProse(text, [], cursor, |text|)
    else
      var end := RunAt(m, text, i);
      if end == i then SegmentsFrom(m, text, cursor, i + 1)
      else AppendRun(text, [], cursor, i, end) + SegmentsFrom(m, text, end, end)
  }

  /** `segment_description`: the segments of a cell, and the text they slice. */
  method SegmentDescription(m: Matchers, raw: string) returns (segments: seq<Segment>, text: string)
    requires Bounded(m)
    ensures text == Clean(m, raw) && SingleSpaced(text) && WordStarts(text) == WordStarts(Unglue(m, raw))
    ensures TilesTo(text, segments, |text|) && ProseSeparated(segments)
    ensures Annotations(segments) == Runs(m, text, 0)
    ensures segments == SegmentsFrom(m, text, 0, 0)
    ensures AnnotatesExactly(m, text, segments)
    ensures Squeeze(Concat(segments)) == Squeeze(raw)
  {
    text := Clean(m, raw);
    CleanKeeps(m, raw);
    CleanSpaced(m, raw);
    CleanStarts(m, raw);
    hide WordStarts;
    segments := Scan(m, text);
    RunsAnnotate(m, text, segments);
  }

  /** What the scan has found by the time it looks at index `i`. */
  ghost predicate ScannedTo(m: Matchers, text: string, segments: seq<Segment>, cursor: nat, i: nat)
    requires Bounded(m)
  {
    && cursor <= i <= |text|
    && TilesTo(text, segments, cursor)
    && ProseSeparated(segments) && EndsInAnnotation(segments)
    && Annotations(segments) + Runs(m, text, i) == Runs(m, text, 0)
    && segments + SegmentsFrom(m, text, cursor, i) == SegmentsFrom(m, text, 0, 0)
  }

  lemma ScanSkips(m: Matchers, text: string, segments: seq<Segment>, cursor: nat, i: nat)
    requires Bounded(m) && ScannedTo(m, text, segments, cursor, i) && i < |text| && RunAt(m, text, i) == i
    ensures ScannedTo(m, text, segments, cursor, i + 1)
  {
    RunsStep(m, text, i);
  }

  lemma ScanTakes(m: Matchers, text: string, segments: seq<Segment>, cursor: nat, i: nat, end: nat)
    requires Bounded(m) && ScannedTo(m, text, segments, cursor, i) && i < |text| && i < end == RunAt(m, text, i)
    ensures ScannedTo(m, text, AppendRun(text, segments, cursor, i, end), end, end)
  {
    AppendRunTiles(text, segments, cursor, i, end);
    AppendKeepsKinds(text, segments, cursor, i);
    RunTaken(m, text, Annotations(segments), i, end);
    SegmentsTaken(m, text, segments, cursor, i, end);
  }

  lemma SegmentsTaken(m: Matchers, text: string, segments: seq<Segment>, cursor: nat, i: nat, end: nat)
    requires Bounded(m) && cursor <= i < |text| && i < end == RunAt(m, text, i)
    ensures AppendRun(text, segments, cursor, i, end) + SegmentsFrom(m, text, end, end)
         == segments + SegmentsFrom(m, text, cursor, i)
  {
    hide *;
    SegmentsNext(m, text, cursor, i);
    RunAppended(text, segments, cursor, i, end);
    var run, rest := AppendRun(text, [], cursor, i, end), SegmentsFrom(m, text, end, end);
    assert segments + run + rest == segments + (run + rest);
  }

  lemma SegmentsNext(m: Matchers, text: string, cursor: nat, i: nat)
    requires Bounded(m) && cursor <= i < |text|
    ensures var end := RunAt(m, text, i);
      SegmentsFrom(m, text, cursor, i)
      == if end == i then SegmentsFrom(m, text, cursor, i + 1)
         else AppendRun(text, [], cursor, i, end) + SegmentsFrom(m, text, end, end)
  {
    hide RunAt;
    hide AppendRun;
  }

  lemma ProseAppended(text: string, segments: seq<Segment>, cursor: nat, end: nat)
    requires cursor <= end <= |text|
    ensures AppendProse(text, segments, cursor, end) == segments + AppendProse(text, [], cursor, end)
  {
    hide Strip;
  }

  lemma RunAppended(text: string, segments: seq<Segment>, cursor: nat, i: nat, end: nat)
    requires cursor <= i < end <= |text|
    ensures AppendRun(text, segments, cursor, i, end) == segments + AppendRun(text, [], cursor, i, end)
  {
    hide Strip;
    hide AppendProse;
    ProseAppended(text, segments, cursor, i);
  }

  lemma RunTaken(m: Matchers, text: string, found: seq<(nat, nat)>, i: nat, end: nat)
    requires Bounded(m) && i < |text| && i < end == RunAt(m, text, i)
    ensures found + [(i, end)] + Runs(m, text, end) == found + Runs(m, text, i)
  {
    RunsStep(m, text, i);
    assert found + [(i, end)] + Runs(m, text, end) == found + ([(i, end)] + Runs(m, text, end));
  }

  lemma ScanStarts(m: Matchers, text: string)
    requires Bounded(m)
    ensures ScannedTo(m, text, [], 0, 0)
  {
  }

  lemma ScanEnds(m: Matchers, text: string, segments: seq<Segment>, cursor: nat)
    requires Bounded(m) && ScannedTo(m, text, segments, cursor, |text|)
    ensures
      var all := AppendProse(text, segments, cursor, |text|);
      && TilesTo(text, all, |text|) && ProseSeparated(all) && Annotations(all) == Runs(m, text, 0)
      && all == SegmentsFrom(m, text, 0, 0)
  {
    hide Strip;
    hide Runs;
    hide AppendProse;
    hide TilesTo;
    hide ProseSeparated;
    AppendProseTiles(text, segments, cursor, |text|);
    AppendKeepsKinds(text, segments, cursor, |text|);
    ProseAppended(text, segments, cursor, |text|);
    NoRuns(m, text);
  }

  lemma NoRuns(m: Matchers, text: string)
    requires Bounded(m)
    ensures Runs(m, text, |text|) == []
  {
  }

  lemma {:induction false} SegmentsTile(m: Matchers, text: string, segments: seq<Segment>, cursor: nat, i: nat)
    requires Bounded(m) && ScannedTo(m, text, segments, cursor, i)
    ensures TilesTo(text, SegmentsFrom(m, text, 0, 0), |text|)
    decreases |text| - i
  {
    hide TilesTo;
    hide SegmentsFrom;
    hide RunAt;
    if i == |text| {
      ScanEnds(m, text, segments, cursor);
    } else if RunAt(m, text, i) == i {
      ScanSkips(m, text, segments, cursor, i);
      SegmentsTile(m, text, segments, cursor, i + 1);
    } else {
      var end := RunAt(m, text, i);
      ScanTakes(m, text, segments, cursor, i, end);
      SegmentsTile(m, text, AppendRun(text, segments, cursor, i, end), end, end);
    }
  }

  method Scan(m: Matchers, text: string) returns (segments: seq<Segment>)
    requires Bounded(m)
    ensures TilesTo(text, segments, |text|) && ProseSeparated(segments)
    ensures Annotations(segments) == Runs(m, text, 0)
    ensures segments == SegmentsFrom(m, text, 0, 0)
  {
    segments := [];
    var i, cursor := 0, 0;
    ScanStarts(m, text);
    while i < |text|
      invariant i <= |text|
      invariant ScannedTo(m, text, segments, cursor, i)
      decreases |text| - i
    {
      var runEnd := AnnotationAt(m, text, i);
      assert i <= runEnd <= |text|;
      if runEnd <= i {
        ScanSkips(m, text, segments, cursor, i);
        i := i + 1;
      } else {
        ScanTakes(m, text, segments, cursor, i, runEnd);
        segments := AppendRun(text, segments, cursor, i, runEnd);
        i := runEnd;
        cursor := runEnd;
      }
    }
    ScanEnds(m, text, segments, cursor);
    segments := AppendProse(text, segments, cursor, |text|);
  }

  // ---- a label that opens a run ----------------------------------------------------------- //

  /** The n-th token that a run started at `pos` looks at, up to the first that stops it. */
  function Nth(m: Matchers, text: string, pos: nat, n: nat): Option<nat>
    requires Bounded(m) && pos <= |text|
    decreases n
  {
    var at := SkipSpace(text, pos);
    if at == |text| then None
    else if n == 0 then Some(at)
    else if Read(m, text, at).Stop? then None
    else Nth(m, text, Read(m, text, at).end, n - 1)
  }

  ghost predicate Looked(m: Matchers, text: string, pos: nat, at: nat)
    requires Bounded(m) && pos <= |text|
  {
    exists n: nat :: Nth(m, text, pos, n) == Some(at)
  }

  /** A value that a run started at `pos` reads ends at `end`. */
  ghost predicate ValueEnds(m: Matchers, text: string, pos: nat, end: nat)
    requires Bounded(m) && pos <= |text|
  {
    exists at: nat :: at < |text| && !IsSpace(text[at]) && Looked(m, text, pos, at) && Read(m, text, at) == Value(end)
  }

  lemma LookedNext(m: Matchers, text: string, pos: nat, at: nat)
    requires Bounded(m) && pos <= |text|
    ensures var first := SkipSpace(text, pos);
      Looked(m, text, pos, at) <==>
        first < |text| && (at == first || (!Read(m, text, first).Stop? && Looked(m, text, Read(m, text, first).end, at)))
  {
    hide Read;
    var first := SkipSpace(text, pos);
    if first < |text| {
      assert Nth(m, text, pos, 0) == Some(first);
      if !Read(m, text, first).Stop? {
        var end := Read(m, text, first).end;
        if n: nat :| Nth(m, text, end, n) == Some(at) {
          assert Nth(m, text, pos, n + 1) == Some(at);
        }
        if n: nat :| Nth(m, text, pos, n) == Some(at) && n > 0 {
          assert Nth(m, text, end, n - 1) == Some(at);
        }
      }
    }
  }

  lemma ValueEndsNext(m: Matchers, text: string, pos: nat, end: nat)
    requires Bounded(m) && pos <= |text|
    ensures var first := SkipSpace(text, pos);
      ValueEnds(m, text, pos, end) <==>
        first < |text| && (Read(m, text, first) == Value(end)
          || (!Read(m, text, first).Stop? && ValueEnds(m, text, Read(m, text, first).end, end)))
  {
    hide Read;
    hide Looked;
    forall at: nat ensures var first := SkipSpace(text, pos);
      Looked(m, text, pos, at) <==>
        first < |text| && (at == first || (!Read(m, text, first).Stop? && Looked(m, text, Read(m, text, first).end, at)))
    {
      LookedNext(m, text, pos, at);
    }
  }

  /** A run ends with the last of the values it reads. */
  lemma {:induction false} RunEndIsLastValue(m: Matchers, text: string, pos: nat, last: nat)
    requires Bounded(m) && pos <= |text| && last <= |text|
    ensures var e := RunEndFrom(m, text, pos, last);
      && (forall end: nat | ValueEnds(m, text, pos, end) :: pos < end <= e)
      && (ValueEnds(m, text, pos, e) || (e == last && forall end: nat :: !ValueEnds(m, text, pos, end)))
    decreases |text| - pos
  {
    hide Read;
    hide ValueEnds;
    var at, e := SkipSpace(text, pos), RunEndFrom(m, text, pos, last);
    forall end: nat ensures ValueEnds(m, text, pos, end) <==>
      at < |text| && (Read(m, text, at) == Value(end)
        || (!Read(m, text, at).Stop? && ValueEnds(m, text, Read(m, text, at).end, end)))
    {
      ValueEndsNext(m, text, pos, end);
    }
    if at < |text| {
      match Read(m, text, at)
      case Value(end) => RunEndIsLastValue(m, text, end, end);
      case Filler(end) => RunEndIsLastValue(m, text, end, last);
      case Stop =>
    }
  }

  // ---- where a run opens and closes ---------------------------------------------------------- //

  /** `after` begins with the name of a country; without a country list only a single word
      counts. */
  ghost predicate NamesCountry(m: Matchers, after: string) {
    var words := Words(after, 0);
    if m.country.None? then |words| == 1
    else exists n: nat :: 1 <= n <= 3 && n <= |words| && m.country.value(words[..n])
  }

  /** A clause: a label for the origin, and the name of a country behind it. */
  ghost predicate OriginNamed(m: Matchers, rest: string)
    requires Bounded(m)
  {
    m.cooClause(rest).Some? && NamesCountry(m, rest[m.cooClause(rest).value..])
  }

  lemma ClauseNamesCountry(m: Matchers, rest: string)
    requires Bounded(m)
    ensures ClauseLen(m, rest) > 0 <==> OriginNamed(m, rest)
  {
    if m.cooClause(rest).Some? {
      var after := rest[m.cooClause(rest).value..];
      ClauseCountry(m, rest, after);
    }
  }

  lemma ClauseCountry(m: Matchers, rest: string, after: string)
    requires Bounded(m) && m.cooClause(rest).Some? && after == rest[m.cooClause(rest).value..]
    ensures ClauseLen(m, rest) > 0 <==> NamesCountry(m, after)
  {
    hide Words;
    var words := Words(after, 0);
    WordsVisible(after, 0);
    if words != [] && m.country.Some? {
      var top := if |words| < 3 then |words| else 3;
      var k := CountryWords(m.country.value, words, top);
      if k > 0 {
        WordEnds(after, k);
      }
    }
  }

  /** The first `k` words name a country, and no longer group of up to three does. */
  ghost predicate LongestCountry(names: seq<string> -> bool, words: seq<string>, k: nat) {
    && 1 <= k <= 3 && k <= |words| && names(words[..k])
    && forall n: nat | k < n <= 3 && n <= |words| :: !names(words[..n])
  }

  /** The clause ends with the last word of its country. */
  ghost predicate CountryEnds(m: Matchers, rest: string, end: nat)
    requires Bounded(m)
  {
    && m.cooClause(rest).Some?
    && var head := m.cooClause(rest).value;
    && var after := rest[head..];
    if m.country.None? then end == |rest|
    else
      head < end <= |rest|
      && exists k: nat :: LongestCountry(m.country.value, Words(after, 0), k) && WordsEndAt(after, k, end - head)
  }

  /** The first `k` words of `s` end at `end`: the others are what follows. */
  ghost predicate WordsEndAt(s: string, k: nat, end: nat) {
    && end <= |s| && k <= |Words(s, 0)| && Words(s, end) == Words(s, 0)[k..]
    && end > 0 && !IsSpace(s[end - 1]) && (end < |s| ==> IsSpace(s[end]))
  }

  lemma ClauseEnds(m: Matchers, rest: string)
    requires Bounded(m)
    ensures ClauseLen(m, rest) > 0 ==> CountryEnds(m, rest, ClauseLen(m, rest))
  {
    hide Words, EndOfWords;
    if ClauseLen(m, rest) > 0 && m.country.Some? {
      var after := rest[m.cooClause(rest).value..];
      var words := Words(after, 0);
      var k := CountryWords(m.country.value, words, if |words| < 3 then |words| else 3);
      LastWordEnds(after, k);
      assert LongestCountry(m.country.value, words, k);
    }
  }

  lemma LastWordEnds(s: string, k: nat)
    requires 0 < k <= |Words(s, 0)|
    ensures WordsEndAt(s, k, EndOfWords(s, k))
  {
    EndOfWordsLeaves(s, k);
    EndOfWordsLeaves(s, k - 1);
    WordsVisible(s, EndOfWords(s, k - 1));
    var start := SkipSpace(s, EndOfWords(s, k - 1));
    assert Words(s, 0)[k - 1..] != [];
    assert start < |s| && !IsSpace(s[start]);
    assert SkipVisible(s, start) > start;
  }

  /** The token is what stands before the next blank. */
  predicate UpToBlank(rest: string, token: string) {
    token <= rest && ' ' !in token && (|token| < |rest| ==> rest[|token|] == ' ')
  }

  lemma {:induction false} TokenUpToBlank(rest: string)
    ensures UpToBlank(rest, Token(rest))
  {
    if rest != [] && rest[0] != ' ' {
      TokenUpToBlank(rest[1..]);
    }
  }

  /** What a run makes of `rest`, at `at`: an origin clause is a value up to the end of its
      country; of any other text one token counts. */
  ghost predicate ReadsAs(m: Matchers, rest: string, at: nat, r: Reading)
    requires Bounded(m)
  {
    if OriginNamed(m, rest) then r.Value? && at < r.end && CountryEnds(m, rest, r.end - at)
    else
      exists token: string :: (
        && UpToBlank(rest, token)
        && (r.Value? <==> m.isValue(token))
        && (r.Filler? <==> m.isFiller(token) && !m.isValue(token))
        && (!r.Stop? ==> r.end == at + |token|))
  }

  lemma ReadExactly(m: Matchers, text: string, at: nat)
    requires Bounded(m) && at < |text| && !IsSpace(text[at])
    ensures ReadsAs(m, text[at..], at, Read(m, text, at))
  {
    hide ClauseLen, OriginNamed, CountryEnds, UpToBlank;
    var rest := text[at..];
    ClauseNamesCountry(m, rest);
    ClauseEnds(m, rest);
    TokenUpToBlank(rest);
  }

  /** There is a word exactly if anything visible is left. */
  lemma WordsVisible(s: string, pos: nat)
    requires pos <= |s|
    ensures Words(s, pos) == [] <==> SkipSpace(s, pos) == |s|
    ensures Words(s, pos) != [] ==> pos < |s|
  {
  }

  lemma WordEnds(s: string, n: nat)
    requires 0 < n <= |Words(s, 0)|
    ensures EndOfWords(s, n) > 0
  {
    EndOfWordsLeaves(s, n - 1);
    assert Words(s, 0)[n - 1..] != [];
    WordsVisible(s, EndOfWords(s, n - 1));
  }

  /** An annotation may open here: a label, an origin with its country, or a code with
      its quantity. */
  ghost predicate Anchored(m: Matchers, text: string, i: nat)
    requires Bounded(m) && i < |text|
  {
    || m.labelEnd(text, i).Some?
    || (m.cooAnchor(text, i) && OriginNamed(m, text[i..]))
    || m.codeQty(text, i)
  }

  /** Read from `i`, the annotation ends at `end`: with the last value, or with the label
      itself when no value follows. */
  ghost predicate ClosesAt(m: Matchers, text: string, i: nat, end: nat)
    requires Bounded(m) && i < |text|
  {
    if exists e: nat :: ValueEnds(m, text, i, e) then
      ValueEnds(m, text, i, end) && forall e: nat | ValueEnds(m, text, i, e) :: e <= end
    else LabelBehind(m, text, i, end)
  }

  ghost predicate LabelBehind(m: Matchers, text: string, i: nat, end: nat)
    requires Bounded(m) && i < |text|
  {
    m.labelEnd(text, i).Some? && i < m.labelEnd(text, i).value == end
  }

  lemma RunExactly(m: Matchers, text: string, i: nat, end: nat)
    requires Bounded(m) && i < |text|
    ensures i < end == RunAt(m, text, i) <==> Anchored(m, text, i) && ClosesAt(m, text, i, end)
  {
    hide ValueEnds, RunEndFrom, ClauseLen, OriginNamed;
    ClauseNamesCountry(m, text[i..]);
    var found := m.labelEnd(text, i);
    RunEndIsLastValue(m, text, i, if found.Some? then Max(i, found.value) else i);
  }

  function SetOf(runs: seq<(nat, nat)>): set<(nat, nat)> { set k | 0 <= k < |runs| :: runs[k] }

  /** No annotation that opens before `i` reaches beyond it. */
  ghost predicate Uncovered(runs: set<(nat, nat)>, i: nat) {
    forall r | r in runs :: !(r.0 < i < r.1)
  }

  lemma CoveredBy(run: (nat, nat), later: seq<(nat, nat)>, i: nat, end: nat)
    requires run.0 < run.1 && forall r | r in later :: run.1 <= r.0
    ensures var runs := [run] + later;
      && ((i, end) in runs <==> (i, end) == run || (i, end) in later)
      && (Uncovered(SetOf(runs), i) <==> !(run.0 < i < run.1) && Uncovered(SetOf(later), i))
      && (i < run.1 ==> Uncovered(SetOf(later), i))
  {
    var runs := [run] + later;
    assert forall r :: r in SetOf(later) <==> r in later;
    assert runs[0] == run && forall k | 0 <= k < |later| :: runs[k + 1] == later[k];
    assert SetOf(runs) == {run} + SetOf(later);
  }

  /** Of the runs from `from` on, exactly those that open where no other covers them. */
  lemma {:induction false} RunsExactly(m: Matchers, text: string, from: nat, i: nat, end: nat)
    requires Bounded(m) && from <= |text|
    ensures (i, end) in Runs(m, text, from)
       <==> from <= i < |text| && i < end == RunAt(m, text, i) && Uncovered(SetOf(Runs(m, text, from)), i)
    decreases |text| - from
  {
    hide RunAt;
    if from < |text| {
      var e := RunAt(m, text, from);
      var next := if e == from then from + 1 else e;
      RunsStep(m, text, from);
      RunsExactly(m, text, next, i, end);
      RunsFrom(m, text, next);
      if e > from {
        CoveredBy((from, e), Runs(m, text, next), i, end);
      }
    }
  }

  lemma {:induction false} RunsFrom(m: Matchers, text: string, from: nat)
    requires Bounded(m) && from <= |text|
    ensures forall r | r in Runs(m, text, from) :: from <= r.0 < r.1
    decreases |text| - from
  {
    hide RunAt;
    if from < |text| {
      var e := RunAt(m, text, from);
      RunsStep(m, text, from);
      RunsFrom(m, text, if e == from then from + 1 else e);
    }
  }

  /** Where the annotations among these segments begin and end. */
  ghost function Annotated(segments: seq<Segment>): set<(nat, nat)> {
    set k | 0 <= k < |segments| && segments[k].kind == ANN :: (segments[k].start, segments[k].end)
  }

  lemma {:induction false} AnnotatedIs(segments: seq<Segment>)
    ensures forall r :: r in Annotated(segments) <==> r in Annotations(segments)
  {
    if segments != [] {
      var n := |segments| - 1;
      AnnotatedIs(segments[..n]);
      assert segments == segments[..n] + [segments[n]];
    }
  }

  /** The annotations of a text: they open at the anchors that no annotation before them
      covers and that have something to close with, and end where that ends. */
  ghost predicate AnnotatesExactly(m: Matchers, text: string, segments: seq<Segment>)
    requires Bounded(m)
  {
    forall i: nat, end: nat ::
      (i, end) in Annotated(segments)
      <==> i < |text| && Anchored(m, text, i) && ClosesAt(m, text, i, end) && Uncovered(Annotated(segments), i)
  }

  lemma RunsAnnotate(m: Matchers, text: string, segments: seq<Segment>)
    requires Bounded(m) && Annotations(segments) == Runs(m, text, 0)
    ensures AnnotatesExactly(m, text, segments)
  {
    hide Anchored, ClosesAt, RunAt;
    AnnotatedIs(segments);
    assert Annotated(segments) == SetOf(Runs(m, text, 0));
    forall i: nat, end: nat
      ensures (i, end) in Annotated(segments)
         <==> i < |text| && Anchored(m, text, i) && ClosesAt(m, text, i, end) && Uncovered(Annotated(segments), i)
    {
      RunsExactly(m, text, 0, i, end);
      if i < |text| {
        RunExactly(m, text, i, end);
      }
    }
  }

  /** A run that a label opens covers the label exactly when it reads no value at all, or
      one that ends at or behind the label's end before its first stop. */
  lemma LabelCoveredExactly(m: Matchers, text: string, i: nat)
    requires Bounded(m) && i < |text|
    requires m.labelEnd(text, i).Some? && m.labelEnd(text, i).value > i
    ensures
      var cover := m.labelEnd(text, i).value;
      cover <= RunAt(m, text, i) <==>
        || (forall end: nat :: !ValueEnds(m, text, i, end))
        || (exists end: nat :: ValueEnds(m, text, i, end) && cover <= end)
  {
    hide ValueEnds;
    hide RunEndFrom;
    RunEndIsLastValue(m, text, i, m.labelEnd(text, i).value);
  }

  // A label's own tokens.

  /** From `pos` on the text spells `tokens`, the last of which ends at `end`. */
  predicate Spelled(text: string, pos: nat, tokens: seq<string>, end: nat)
    requires pos <= |text|
    decreases |tokens|
  {
    if tokens == [] then pos == end
    else
      var at, token := SkipSpace(text, pos), tokens[0];
      && token != [] && (forall k | 0 <= k < |token| :: !IsSpace(token[k]))
      && token <= text[at..]
      && (at + |token| < |text| ==> text[at + |token|] == ' ')
      && Spelled(text, at + |token|, tokens[1..], end)
  }

  predicate Readable(m: Matchers, token: string) { m.isValue(token) || m.isFiller(token) }

  /** The tokens before the first that stops a run. */
  function Leading(m: Matchers, tokens: seq<string>): seq<string> {
    if tokens == [] || !Readable(m, tokens[0]) then [] else [tokens[0]] + Leading(m, tokens[1..])
  }

  predicate NoValue(m: Matchers, tokens: seq<string>) { forall k | 0 <= k < |tokens| :: !m.isValue(tokens[k]) }

  /** Nothing behind `end` is read by a run that gets there. */
  ghost predicate Closed(m: Matchers, text: string, end: nat)
    requires Bounded(m) && end <= |text|
  {
    var at := SkipSpace(text, end);
    at == |text| || Read(m, text, at).Stop?
  }

  ghost predicate NoClause(m: Matchers, text: string, from: nat, upto: nat)
    requires Bounded(m)
  {
    forall at: nat | from <= at < upto && at < |text| && !IsSpace(text[at]) :: ClauseLen(m, text[at..]) == 0
  }

  lemma {:induction false} SpelledForward(text: string, pos: nat, tokens: seq<string>, end: nat)
    requires pos <= |text| && Spelled(text, pos, tokens, end)
    ensures pos <= end <= |text| && (tokens != [] ==> SkipSpace(text, pos) < end)
    decreases |tokens|
  {
    if tokens != [] {
      SpelledForward(text, SkipSpace(text, pos) + |tokens[0]|, tokens[1..], end);
    }
  }

  lemma ReadsSpelled(m: Matchers, text: string, pos: nat, tokens: seq<string>, end: nat)
    requires Bounded(m) && pos <= |text| && NoClause(m, text, pos, end)
    requires tokens != [] && Spelled(text, pos, tokens, end)
    ensures var at := SkipSpace(text, pos);
      && at < |text|
      && Read(m, text, at) == if m.isValue(tokens[0]) then Value(at + |tokens[0]|)
                              else if m.isFiller(tokens[0]) then Filler(at + |tokens[0]|) else Stop
  {
    var at := SkipSpace(text, pos);
    SpelledForward(text, pos, tokens, end);
    TokenIs(text[at..], tokens[0]);
  }

  /** Where a run over these tokens ends, seen from the tokens: where it stood if no value
      is read, at the last one's end if it is a value and read, and before it otherwise. */
  predicate EndsAs(m: Matchers, tokens: seq<string>, end: nat, last: nat, e: nat) {
    if NoValue(m, Leading(m, tokens)) then e == last
    else if Leading(m, tokens) == tokens && m.isValue(tokens[|tokens| - 1]) then e == end
    else e < end
  }

  lemma EndsAsNext(m: Matchers, tokens: seq<string>, end: nat, last: nat, mid: nat, e: nat)
    requires tokens != [] && Readable(m, tokens[0])
    requires if tokens[1..] == [] then mid == end else mid < end
    requires EndsAs(m, tokens[1..], end, if m.isValue(tokens[0]) then mid else last, e)
    ensures EndsAs(m, tokens, end, last, e)
  {
    var lead, rest := Leading(m, tokens), Leading(m, tokens[1..]);
    assert lead == [tokens[0]] + rest;
    assert forall k | 0 <= k < |rest| :: rest[k] == lead[k + 1];
    assert NoValue(m, lead) ==> !m.isValue(lead[0]) && NoValue(m, rest);
    assert lead == tokens <==> rest == tokens[1..];
    assert tokens[1..] != [] ==> tokens[1..][|tokens| - 2] == tokens[|tokens| - 1];
  }

  lemma SpelledStep(m: Matchers, text: string, pos: nat, tokens: seq<string>, end: nat, last: nat) returns (mid: nat)
    requires Bounded(m) && pos <= |text| && NoClause(m, text, pos, end) && last <= |text|
    requires tokens != [] && Spelled(text, pos, tokens, end)
    ensures mid <= |text| && Spelled(text, mid, tokens[1..], end) && NoClause(m, text, mid, end)
    ensures if tokens[1..] == [] then mid == end else mid < end
    ensures RunEndFrom(m, text, pos, last)
      == if m.isValue(tokens[0]) then RunEndFrom(m, text, mid, mid)
         else if m.isFiller(tokens[0]) then RunEndFrom(m, text, mid, last) else last
  {
    hide Read;
    hide NoClause;
    hide RunEndFrom;
    hide SkipSpace;
    mid := SkipSpace(text, pos) + |tokens[0]|;
    ReadsSpelled(m, text, pos, tokens, end);
    SpelledForward(text, mid, tokens[1..], end);
    RunEndNext(m, text, pos, last);
    NoClauseLater(m, text, pos, mid, end);
  }

  lemma RunEndNext(m: Matchers, text: string, pos: nat, last: nat)
    requires Bounded(m) && pos <= |text| && last <= |text| && SkipSpace(text, pos) < |text|
    ensures var r := Read(m, text, SkipSpace(text, pos));
      RunEndFrom(m, text, pos, last)
      == if r.Value? then RunEndFrom(m, text, r.end, r.end)
         else if r.Filler? then RunEndFrom(m, text, r.end, last) else last
  {
    hide Read;
  }

  lemma NoClauseLater(m: Matchers, text: string, from: nat, later: nat, upto: nat)
    requires Bounded(m) && NoClause(m, text, from, upto) && from <= later
    ensures NoClause(m, text, later, upto)
  {
    hide ClauseLen;
  }

  lemma {:induction false} SpelledRunEnd(m: Matchers, text: string, pos: nat, tokens: seq<string>, end: nat, last: nat)
    requires Bounded(m) && pos <= |text| && NoClause(m, text, pos, end) && last <= |text|
    requires Spelled(text, pos, tokens, end) && end <= |text| && Closed(m, text, end)
    ensures EndsAs(m, tokens, end, last, RunEndFrom(m, text, pos, last))
    decreases |tokens|
  {
    if tokens == [] {
      NothingSpelled(m, text, end, last);
    } else {
      var mid := SpelledStep(m, text, pos, tokens, end, last);
      hide Spelled;
      hide NoClause;
      hide EndsAs;
      hide RunEndFrom;
      hide Closed;
      if Readable(m, tokens[0]) {
        var next := if m.isValue(tokens[0]) then mid else last;
        SpelledRunEnd(m, text, mid, tokens[1..], end, next);
        EndsAsNext(m, tokens, end, last, mid, RunEndFrom(m, text, mid, next));
      } else {
        Stopped(m, tokens, end, last);
      }
    }
  }

  lemma Stopped(m: Matchers, tokens: seq<string>, end: nat, last: nat)
    requires tokens != [] && !m.isValue(tokens[0]) && !m.isFiller(tokens[0])
    ensures EndsAs(m, tokens, end, last, last)
  {
  }

  lemma NothingSpelled(m: Matchers, text: string, end: nat, last: nat)
    requires Bounded(m) && end <= |text| && last <= |text| && Closed(m, text, end)
    ensures RunEndFrom(m, text, end, last) == last && EndsAs(m, [], end, last, last)
  {
  }

  /** A bare label, with nothing readable behind it, is covered exactly when none of its
      tokens before the first unreadable one is a value, or all are readable and the last
      one is a value. */
  lemma BareLabelCoveredExactly(m: Matchers, text: string, i: nat, tokens: seq<string>)
    requires Bounded(m) && i < |text|
    requires m.labelEnd(text, i).Some? && m.labelEnd(text, i).value > i && Closed(m, text, m.labelEnd(text, i).value)
    requires NoClause(m, text, i, m.labelEnd(text, i).value)
    requires Spelled(text, i, tokens, m.labelEnd(text, i).value)
    ensures m.labelEnd(text, i).value <= RunAt(m, text, i) <==>
      || NoValue(m, Leading(m, tokens))
      || (Leading(m, tokens) == tokens && m.isValue(tokens[|tokens| - 1]))
  {
    SpelledRunEnd(m, text, i, tokens, m.labelEnd(text, i).value, m.labelEnd(text, i).value);
    hide Spelled;
    hide Closed;
    hide NoClause;
    hide RunEndFrom;
  }

  lemma {:induction false} TokenIs(rest: string, tok: string)
    requires tok <= rest && (forall i | 0 <= i < |tok| :: tok[i] != ' ')
    requires |tok| < |rest| ==> rest[|tok|] == ' '
    ensures Token(rest) == tok
  {
    if tok != [] {
      TokenIs(rest[1..], tok[1..]);
    }
  }

  const SPLIT_LABEL := "LOT / EXP:"

  /** How the vocabulary reads this label: one match over all of it, two words of
      annotation vocabulary, and a separator that is a value of its own. */
  ghost predicate ReadsSplitLabel(m: Matchers) {
    && Bounded(m)
    && m.labelEnd(SPLIT_LABEL, 0) == Some(|SPLIT_LABEL|)
    && (forall rest :: m.cooClause(rest).None?)
    && m.isValue("/") && !m.isValue("LOT") && !m.isValue("EXP:")
    && m.isFiller("LOT") && m.isFiller("EXP:")
  }

  lemma ReadsToken(m: Matchers, text: string, at: nat, tok: string)
    requires ReadsSplitLabel(m) && at < |text| && !IsSpace(text[at])
    requires tok <= text[at..] && tok != [] && (forall i | 0 <= i < |tok| :: tok[i] != ' ')
    requires at + |tok| < |text| ==> text[at + |tok|] == ' '
    ensures m.isValue(tok) ==> Read(m, text, at) == Value(at + |tok|)
    ensures !m.isValue(tok) && m.isFiller(tok) ==> Read(m, text, at) == Filler(at + |tok|)
  {
    TokenIs(text[at..], tok);
  }

  lemma SplitLabelTail(m: Matchers)
    requires ReadsSplitLabel(m)
    ensures RunEndFrom(m, SPLIT_LABEL, 5, 5) == 5
  {
    assert SkipSpace(SPLIT_LABEL, 5) == 6;
    ReadsToken(m, SPLIT_LABEL, 6, "EXP:");
  }

  lemma SplitLabelMiddle(m: Matchers)
    requires ReadsSplitLabel(m)
    ensures RunEndFrom(m, SPLIT_LABEL, 3, 10) == 5
  {
    assert SkipSpace(SPLIT_LABEL, 3) == 4;
    ReadsToken(m, SPLIT_LABEL, 4, "/");
    SplitLabelTail(m);
  }

  /** The bare label is cut in two: its second half stays in the goods description,
      although a label is meant to close its run by itself. */
  lemma LabelLeftInDescription(m: Matchers)
    requires ReadsSplitLabel(m)
    ensures RunAt(m, SPLIT_LABEL, 0) == 5 && SPLIT_LABEL[5..] == " EXP:"
  {
    ReadsToken(m, SPLIT_LABEL, 0, "LOT");
    SplitLabelMiddle(m);
  }
}
