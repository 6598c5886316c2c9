/** When a finished attribution is rolled back.

    The pass moves printed text, so its result can only fail the final check by keeping
    a text in two places: in the row it was given to and in the row it came from. */
module AttributionRollback {
  import opened Options
  import opened Text
  import opened Attribution
  import S = Segmentation

  /** The letters and digits of a text. */
  function Chars(s: string): multiset<char> { multiset(Normal(s)) }

  lemma CharsConcat(a: string, b: string)
    ensures Chars(a + b) == Chars(a) + Chars(b)
  {
    NormalTail(a, b, |b|);
    hide NormalTo;
  }

  lemma NormalKeep(c: char)
    ensures Normal(Keep(c)) == NormalChar(c)
  {
    assert Normal([]) == [];
    assert NormalTo([c], 1) == NormalTo([c], 0) + NormalChar(c) == NormalChar(c);
  }

  lemma {:induction false} NormalVisible(s: string, n: nat)
    requires n <= |s|
    ensures NormalTo(s, n) == Normal(VisibleTo(s, n))
  {
    if n == 0 {
      assert Normal([]) == [];
    } else {
      NormalVisible(s, n - 1);
      NormalNext(s, n);
    }
  }

  lemma NormalJoin(a: string, b: string)
    ensures Normal(a + b) == Normal(a) + Normal(b)
  {
    hide NormalTo;
    NormalTail(a, b, |b|);
  }

  lemma NormalNext(s: string, n: nat)
    requires 0 < n <= |s| && NormalTo(s, n - 1) == Normal(VisibleTo(s, n - 1))
    ensures NormalTo(s, n) == Normal(VisibleTo(s, n))
  {
    hide Normal;
    hide NormalChar;
    hide Keep;
    NormalKeep(s[n - 1]);
    NormalJoin(VisibleTo(s, n - 1), Keep(s[n - 1]));
  }

  lemma CharsVisible(s: string)
    ensures Chars(s) == Chars(Squeeze(s))
  {
    NormalVisible(s, |s|);
  }

  lemma CharsStrip(s: string)
    ensures Chars(Strip(s)) == Chars(s)
  {
    hide *;
    CharsVisible(s);
    CharsVisible(Strip(s));
    SqueezeStrip(s);
  }

  // ---- the changed rows decide ---------------------------------------------------------------------- //

  /** The texts that the first n rows receive in place of their own. */
  function ReceivedTo(final: seq<Option<string>>, before: seq<Option<string>>, n: nat): string
    requires n <= |final| == |before|
  {
    if n == 0 then []
    else ReceivedTo(final, before, n - 1) + (if final[n - 1] != before[n - 1] then OrEmpty(final[n - 1]) else "")
  }

  /** The cells that those rows give up. */
  function GivenUpTo(final: seq<Option<string>>, before: seq<Option<string>>, n: nat): string
    requires n <= |final| == |before|
  {
    if n == 0 then []
    else GivenUpTo(final, before, n - 1) + (if final[n - 1] != before[n - 1] then OrEmpty(before[n - 1]) else "")
  }

  lemma Exchange(a: multiset<char>, g: multiset<char>, b: multiset<char>, r: multiset<char>,
                 x: multiset<char>, y: multiset<char>)
    requires a + g == b + r
    ensures (a + x) + (g + y) == (b + y) + (r + x)
    ensures (a + x) + (g + multiset{}) == (b + x) + (r + multiset{})
  {
    assert (a + x) + (g + y) == (a + g) + x + y;
    assert (b + y) + (r + x) == (b + r) + x + y;
    assert (a + x) + (g + multiset{}) == (a + g) + x;
    assert (b + x) + (r + multiset{}) == (b + r) + x;
  }

  lemma {:induction false} Balance(final: seq<Option<string>>, before: seq<Option<string>>, n: nat)
    requires n <= |final| == |before|
    ensures Chars(JoinTo(final, n)) + Chars(GivenUpTo(final, before, n))
         == Chars(JoinTo(before, n)) + Chars(ReceivedTo(final, before, n))
  {
    hide Chars;
    if n > 0 {
      Balance(final, before, n - 1);
      var changed := final[n - 1] != before[n - 1];
      CharsConcat(JoinTo(final, n - 1), OrEmpty(final[n - 1]));
      CharsConcat(JoinTo(before, n - 1), OrEmpty(before[n - 1]));
      CharsConcat(GivenUpTo(final, before, n - 1), if changed then OrEmpty(before[n - 1]) else "");
      CharsConcat(ReceivedTo(final, before, n - 1), if changed then OrEmpty(final[n - 1]) else "");
      EmptyChars();
      Exchange(Chars(JoinTo(final, n - 1)), Chars(GivenUpTo(final, before, n - 1)),
               Chars(JoinTo(before, n - 1)), Chars(ReceivedTo(final, before, n - 1)),
               Chars(OrEmpty(final[n - 1])), Chars(OrEmpty(before[n - 1])));
    }
  }

  /** A pass is rolled back exactly when some letter or digit occurs more often in the
      texts that rows receive than in the cells those rows give up and the value-less
      lines. */
  lemma RollsBackExactly(t: Table, p: Plans, before: seq<Option<string>>)
    requires Originates(t, before)
    ensures var final := Finals(p.planned, p.donated, before);
      RollsBack(t, p, before) <==>
        exists c :: Chars(ReceivedTo(final, before, |before|))[c]
                  > Chars(GivenUpTo(final, before, |before|))[c] + Chars(FragmentsTo(t.fragments, |t.fragments|))[c]
  {
    var final := Finals(p.planned, p.donated, before);
    var n := |before|;
    Balance(final, before, n);
    SameJoin(before, Originals(t), n);
    CharsConcat(JoinTo(Originals(t), n), FragmentsTo(t.fragments, |t.fragments|));
    hide Normal;
    hide JoinTo;
    hide Finals;
    hide ReceivedTo;
    hide GivenUpTo;
    hide FragmentsTo;
    hide Originals;
    var a, g := Chars(JoinTo(final, n)), Chars(GivenUpTo(final, before, n));
    var b, r := Chars(JoinTo(before, n)), Chars(ReceivedTo(final, before, n));
    var f := Chars(FragmentsTo(t.fragments, |t.fragments|));
    assert a + g == b + r && multiset(Universe(t)) == b + f;
    assert RollsBack(t, p, before) <==> !(a <= b + f);
    Excess(a, g, b, r, f);
  }

  lemma Excess(a: multiset<char>, g: multiset<char>, b: multiset<char>, r: multiset<char>, f: multiset<char>)
    requires a + g == b + r
    ensures a <= b + f <==> forall c :: r[c] <= g[c] + f[c]
  {
    forall c ensures a[c] <= (b + f)[c] <==> r[c] <= g[c] + f[c] {
      assert (a + g)[c] == (b + r)[c];
    }
    if forall c :: r[c] <= g[c] + f[c] {
      assert forall c :: a[c] <= (b + f)[c];
    }
  }

  // ---- texts taken from different places fit into what was printed -------------------------------------- //

  /** A holder of printed text: a cell, or behind the cells a value-less line.  A row takes
      all of it or one run of it. */
  datatype Source = Source(holder: nat, run: Option<nat>)

  predicate IsSource(t: Table, x: Source) {
    && x.holder < |t.cells| + |t.fragments|
    && (x.run.Some? ==> x.holder < |t.cells| && x.run.value < |Prose(t.cells[x.holder])|)
  }

  function TextOf(t: Table, x: Source): string
    requires IsSource(t, x)
  {
    if x.run.Some? then Prose(t.cells[x.holder])[x.run.value].text
    else if x.holder < |t.cells| then t.cells[x.holder].original
    else t.fragments[x.holder - |t.cells|].text
  }

  predicate AreSources(t: Table, sources: seq<Source>) {
    forall k | 0 <= k < |sources| :: IsSource(t, sources[k])
  }

  /** No two rows take the same text, or parts of which one contains the other. */
  predicate Apart(sources: seq<Source>) {
    forall a, b | 0 <= a < b < |sources| && sources[a].holder == sources[b].holder ::
      sources[a].run.Some? && sources[b].run.Some? && sources[a].run != sources[b].run
  }

  /** What the first n rows take from holder h. */
  function Share(t: Table, sources: seq<Source>, h: nat, n: nat): multiset<char>
    requires AreSources(t, sources) && n <= |sources|
  {
    if n == 0 then multiset{}
    else
      Share(t, sources, h, n - 1)
      + (if sources[n - 1].holder == h then Chars(TextOf(t, sources[n - 1])) else multiset{})
  }

  function SharesTo(t: Table, sources: seq<Source>, top: nat, n: nat): multiset<char>
    requires AreSources(t, sources) && n <= |sources|
  {
    if top == 0 then multiset{} else SharesTo(t, sources, top - 1, n) + Share(t, sources, top - 1, n)
  }

  function TakenTo(t: Table, sources: seq<Source>, n: nat): multiset<char>
    requires AreSources(t, sources) && n <= |sources|
  {
    if n == 0 then multiset{} else TakenTo(t, sources, n - 1) + Chars(TextOf(t, sources[n - 1]))
  }

  lemma {:induction false} SharesGrow(t: Table, sources: seq<Source>, top: nat, n: nat)
    requires AreSources(t, sources) && 0 < n <= |sources|
    ensures SharesTo(t, sources, top, n)
      == SharesTo(t, sources, top, n - 1)
         + (if sources[n - 1].holder < top then Chars(TextOf(t, sources[n - 1])) else multiset{})
  {
    hide Chars;
    hide TextOf;
    if top > 0 {
      SharesGrow(t, sources, top - 1, n);
    }
  }

  lemma {:induction false} NoShares(t: Table, sources: seq<Source>, top: nat)
    requires AreSources(t, sources)
    ensures SharesTo(t, sources, top, 0) == multiset{}
  {
    if top > 0 {
      NoShares(t, sources, top - 1);
    }
  }

  lemma {:induction false} TakenIsShared(t: Table, sources: seq<Source>, n: nat)
    requires AreSources(t, sources) && n <= |sources|
    ensures TakenTo(t, sources, n) == SharesTo(t, sources, |t.cells| + |t.fragments|, n)
  {
    hide Chars;
    hide TextOf;
    hide Share;
    if n == 0 {
      NoShares(t, sources, |t.cells| + |t.fragments|);
    } else {
      TakenIsShared(t, sources, n - 1);
      SharesGrow(t, sources, |t.cells| + |t.fragments|, n);
    }
  }

  // One holder.

  /** The characters of the runs named by `taken`, among the first n. */
  function RunsIn(prose: seq<S.Segment>, taken: set<nat>, n: nat): multiset<char>
    requires n <= |prose|
  {
    if n == 0 then multiset{}
    else RunsIn(prose, taken, n - 1) + (if n - 1 in taken then Chars(prose[n - 1].text) else multiset{})
  }

  lemma {:induction false} RunsAdd(prose: seq<S.Segment>, taken: set<nat>, n: nat, s: nat)
    requires n <= |prose| && s < |prose| && s !in taken
    ensures RunsIn(prose, taken + {s}, n) == RunsIn(prose, taken, n) + (if s < n then Chars(prose[s].text) else multiset{})
  {
    hide Chars;
    if n > 0 {
      RunsAdd(prose, taken, n - 1, s);
    }
  }

  lemma {:induction false} RunsPrefix(prose: seq<S.Segment>, more: seq<S.Segment>, taken: set<nat>, n: nat)
    requires n <= |prose|
    ensures RunsIn(prose + more, taken, n) == RunsIn(prose, taken, n)
  {
    hide Chars;
    if n > 0 {
      RunsPrefix(prose, more, taken, n - 1);
    }
  }

  lemma {:induction false} RunsFit(segments: seq<S.Segment>, taken: set<nat>, m: nat)
    requires m <= |segments|
    ensures var prose := ProseTo(segments, m);
      RunsIn(prose, taken, |prose|) <= Chars(S.Concat(segments[..m]))
  {
    hide Chars;
    if m == 0 {
      assert segments[..0] == [];
    } else {
      RunsFit(segments, taken, m - 1);
      var seg := segments[m - 1];
      var head := ProseTo(segments, m - 1);
      assert segments[..m][..m - 1] == segments[..m - 1];
      CharsConcat(S.Concat(segments[..m - 1]), seg.text);
      RunsNext(head, seg, taken);
      hide RunsIn;
      hide S.Concat;
      if seg.kind == S.PROSE {
        assert ProseTo(segments, m) == head + [seg];
      } else {
        assert ProseTo(segments, m) == head;
      }
    }
  }

  lemma RunsNext(head: seq<S.Segment>, seg: S.Segment, taken: set<nat>)
    ensures RunsIn(head + [seg], taken, |head| + 1) <= RunsIn(head, taken, |head|) + Chars(seg.text)
  {
    hide Chars;
    RunsPrefix(head, [seg], taken, |head|);
  }

  lemma CellChars(c: Cell)
    requires WellCut(c)
    ensures Chars(S.Concat(c.segments)) == Chars(c.original) == Chars(c.text)
  {
    hide Chars;
    hide S.Slices;
    hide S.Contiguous;
    CharsVisible(S.Concat(c.segments));
    CharsVisible(c.original);
    CharsVisible(c.text);
  }

  /** The runs that the first n rows take from cell h. */
  function RunsTaken(sources: seq<Source>, h: nat, n: nat): set<nat>
    requires n <= |sources|
  {
    if n == 0 then {}
    else
      RunsTaken(sources, h, n - 1)
      + (if sources[n - 1].holder == h && sources[n - 1].run.Some? then {sources[n - 1].run.value} else {})
  }

  lemma {:induction false} RunsTakenBy(sources: seq<Source>, h: nat, n: nat, s: nat)
    requires n <= |sources| && s in RunsTaken(sources, h, n)
    ensures exists k | 0 <= k < n :: sources[k] == Source(h, Some(s))
  {
    if sources[n - 1] != Source(h, Some(s)) {
      RunsTakenBy(sources, h, n - 1, s);
    }
  }

  /** A cell of which rows take runs only. */
  lemma {:induction false} ShareOfRuns(t: Table, sources: seq<Source>, h: nat, n: nat)
    requires AreSources(t, sources) && Apart(sources) && n <= |sources| && h < |t.cells|
    requires forall k | 0 <= k < n && sources[k].holder == h :: sources[k].run.Some?
    ensures var prose := Prose(t.cells[h]);
      Share(t, sources, h, n) == RunsIn(prose, RunsTaken(sources, h, n), |prose|)
  {
    hide Chars;
    hide Prose;
    var prose := Prose(t.cells[h]);
    if n == 0 {
      NoRuns(prose, |prose|);
    } else {
      ShareOfRuns(t, sources, h, n - 1);
      if sources[n - 1].holder == h {
        var s := sources[n - 1].run.value;
        if s in RunsTaken(sources, h, n - 1) {
          RunsTakenBy(sources, h, n - 1, s);
          assert false;
        }
        RunsAdd(prose, RunsTaken(sources, h, n - 1), |prose|, s);
      } else {
        assert RunsTaken(sources, h, n) == RunsTaken(sources, h, n - 1);
      }
    }
  }

  lemma {:induction false} NoRuns(prose: seq<S.Segment>, n: nat)
    requires n <= |prose|
    ensures RunsIn(prose, {}, n) == multiset{}
  {
    if n > 0 {
      NoRuns(prose, n - 1);
    }
  }

  /** A holder that row k takes whole. */
  lemma {:induction false} ShareOfWhole(t: Table, sources: seq<Source>, h: nat, k: nat, n: nat)
    requires AreSources(t, sources) && Apart(sources) && n <= |sources|
    requires k < |sources| && sources[k] == Source(h, None)
    ensures Share(t, sources, h, n) == if k < n then Chars(TextOf(t, sources[k])) else multiset{}
  {
    hide Chars;
    hide TextOf;
    if n > 0 {
      ShareOfWhole(t, sources, h, k, n - 1);
      assert n - 1 != k ==> sources[n - 1].holder != h;
    }
  }

  lemma ShareFits(t: Table, sources: seq<Source>, h: nat)
    requires t.Valid() && AreSources(t, sources) && Apart(sources) && h < |t.cells| + |t.fragments|
    ensures Share(t, sources, h, |sources|) <= Chars(TextOf(t, Source(h, None)))
  {
    hide Chars;
    hide Prose;
    hide Share;
    if k :| 0 <= k < |sources| && sources[k] == Source(h, None) {
      ShareOfWhole(t, sources, h, k, |sources|);
    } else if h < |t.cells| {
      var c := t.cells[h];
      ShareOfRuns(t, sources, h, |sources|);
      CellRuns(c, RunsTaken(sources, h, |sources|));
    } else {
      NoShare(t, sources, h, |sources|);
    }
  }

  lemma CellRuns(c: Cell, taken: set<nat>)
    requires WellCut(c)
    ensures RunsIn(Prose(c), taken, |Prose(c)|) <= Chars(c.original)
  {
    RunsFit(c.segments, taken, |c.segments|);
    CellChars(c);
    hide WellCut;
    hide Chars;
    hide RunsIn;
    assert c.segments[..|c.segments|] == c.segments;
  }

  lemma {:induction false} NoShare(t: Table, sources: seq<Source>, h: nat, n: nat)
    requires AreSources(t, sources) && n <= |sources| && forall k | 0 <= k < n :: sources[k].holder != h
    ensures Share(t, sources, h, n) == multiset{}
  {
    if n > 0 {
      NoShare(t, sources, h, n - 1);
    }
  }

  // All holders.

  function PrintedTo(t: Table, top: nat): multiset<char>
    requires top <= |t.cells| + |t.fragments|
  {
    if top == 0 then multiset{} else PrintedTo(t, top - 1) + Chars(TextOf(t, Source(top - 1, None)))
  }

  lemma {:induction false} SharesFit(t: Table, sources: seq<Source>, top: nat)
    requires t.Valid() && AreSources(t, sources) && Apart(sources) && top <= |t.cells| + |t.fragments|
    ensures SharesTo(t, sources, top, |sources|) <= PrintedTo(t, top)
  {
    hide Chars;
    hide TextOf;
    hide Share;
    hide Apart;
    hide WellCut;
    if top > 0 {
      SharesFit(t, sources, top - 1);
      ShareFits(t, sources, top - 1);
    }
  }

  lemma {:induction false} CellsPrinted(t: Table, top: nat)
    requires top <= |t.cells|
    ensures PrintedTo(t, top) == Chars(JoinTo(Originals(t), top))
  {
    hide Chars;
    if top == 0 {
      assert Chars("") == multiset{} by {
        EmptyChars();
      }
    } else {
      CellsPrinted(t, top - 1);
      CharsConcat(JoinTo(Originals(t), top - 1), t.cells[top - 1].original);
    }
  }

  lemma EmptyChars()
    ensures Chars("") == multiset{}
  {
  }

  lemma {:induction false} AllPrinted(t: Table, i: nat)
    requires i <= |t.fragments|
    ensures PrintedTo(t, |t.cells| + i) == Chars(JoinTo(Originals(t), |t.cells|) + FragmentsTo(t.fragments, i))
  {
    hide Chars;
    var head := JoinTo(Originals(t), |t.cells|);
    if i == 0 {
      CellsPrinted(t, |t.cells|);
      assert head + [] == head;
    } else {
      AllPrinted(t, i - 1);
      CharsConcat(head + FragmentsTo(t.fragments, i - 1), t.fragments[i - 1].text);
      assert head + FragmentsTo(t.fragments, i) == head + FragmentsTo(t.fragments, i - 1) + t.fragments[i - 1].text;
    }
  }

  predicate Fits(t: Table, x: Source, text: Option<string>)
    requires IsSource(t, x)
  {
    Chars(OrEmpty(text)) <= Chars(TextOf(t, x))
  }

  lemma {:induction false} FinalsTaken(t: Table, sources: seq<Source>, final: seq<Option<string>>, n: nat)
    requires AreSources(t, sources) && n <= |sources| == |final|
    requires forall k | 0 <= k < |final| :: Fits(t, sources[k], final[k])
    ensures Chars(JoinTo(final, n)) <= TakenTo(t, sources, n)
  {
    hide Chars;
    hide TextOf;
    EmptyChars();
    if n > 0 {
      FinalsTaken(t, sources, final, n - 1);
      CharsConcat(JoinTo(final, n - 1), OrEmpty(final[n - 1]));
      assert Fits(t, sources[n - 1], final[n - 1]);
    }
  }

  lemma ApartChars(t: Table, sources: seq<Source>, final: seq<Option<string>>)
    requires t.Valid() && AreSources(t, sources) && Apart(sources) && |sources| == |final| == |t.cells|
    requires forall k | 0 <= k < |final| :: Fits(t, sources[k], final[k])
    ensures Chars(JoinTo(final, |final|))
         <= Chars(JoinTo(Originals(t), |t.cells|) + FragmentsTo(t.fragments, |t.fragments|))
  {
    hide *;
    FinalsTaken(t, sources, final, |final|);
    TakenIsShared(t, sources, |sources|);
    SharesFit(t, sources, |t.cells| + |t.fragments|);
    AllPrinted(t, |t.fragments|);
  }

  /** Rows that draw on texts apart from one another keep no more than was printed. */
  lemma ApartFits(t: Table, sources: seq<Source>, final: seq<Option<string>>)
    requires t.Valid() && AreSources(t, sources) && Apart(sources) && |sources| == |final| == |t.cells|
    requires forall k | 0 <= k < |final| :: Fits(t, sources[k], final[k])
    ensures SubMultiset(Normal(JoinTo(final, |final|)), Universe(t))
  {
    hide AreSources;
    hide Apart;
    hide Fits;
    hide WellCut;
    hide JoinTo;
    hide Normal;
    hide Originals;
    hide FragmentsTo;
    ApartChars(t, sources, final);
  }

  // ---- where the first pass takes its texts from ------------------------------------------------------------ //

  /** Row k keeps its own run. */
  ghost predicate KeepsOwn(t: Table, o: Oracle, p: Plans, k: nat)
    requires t.Valid() && k < |t.cells|
  {
    var own := Own(o, t.cells[k], t.models[k]);
    own.Some? && k in p.planned && p.planned[k] == Prose(t.cells[k])[own.value].text
  }

  ghost predicate KeepsTail(t: Table, p: Plans, k: nat)
    requires t.Valid() && k < |t.cells|
  {
    k in p.planned && LeadPlan(t.cells[k]) == Some(p.planned[k])
  }

  /** Row k was given run s of row j, which keeps its own run if it has one. */
  ghost predicate GivenBy(t: Table, o: Oracle, p: Plans, k: nat, text: string, j: nat, s: nat)
    requires t.Valid()
  {
    && j < |t.cells| && s < |Prose(t.cells[j])| && IsStray(t, o, j, s) && StrayTarget(t, o, j, s) == Some(k)
    && text == Prose(t.cells[j])[s].text && Movable(o, t.cells[j], t.models[j])
    && (Own(o, t.cells[j], t.models[j]).Some? ==> KeepsOwn(t, o, p, j))
  }

  ghost predicate DonationTraced(t: Table, o: Oracle, p: Plans, n: nat, k: nat, d: Donation)
    requires t.Valid()
  {
    && k < |t.cells|
    && match d.origin
       case Neighbour(j, s) => j < n && GivenBy(t, o, p, k, d.text, j, s)
       case ValueLess(i) => i < |t.fragments| && d.text == t.fragments[i].text && i in p.used
       case Resolved(_, _) => false
  }

  ghost predicate Traced(t: Table, o: Oracle, p: Plans, n: nat)
    requires t.Valid()
  {
    && (forall k <- p.planned :: k < n && k < |t.cells| && (KeepsOwn(t, o, p, k) || KeepsTail(t, p, k)))
    && (forall k <- p.donated :: DonationTraced(t, o, p, n, k, p.donated[k]))
    && forall k, l | k in p.donated && l in p.donated && p.donated[k].origin.ValueLess?
         && p.donated[k].origin == p.donated[l].origin :: k == l
  }

  lemma {:induction false} StraysTraced(t: Table, o: Oracle, j: nat, n: nat, donated: map<nat, Donation>, k: nat)
    requires t.Valid() && j < |t.cells| && n <= |Prose(t.cells[j])| && k in Strays(t, o, j, n, donated)
    ensures var d := Strays(t, o, j, n, donated)[k];
      || (k in donated && donated[k] == d)
      || (exists s | 0 <= s < n :: IsStray(t, o, j, s) && StrayTarget(t, o, j, s) == Some(k)
            && d == Donation(Prose(t.cells[j])[s].text, Neighbour(j, s)))
  {
    hide WellCut;
    hide Prose;
    hide IsStray;
    hide TakesStray;
    if n > 0 && k in Strays(t, o, j, n - 1, donated) {
      StraysTraced(t, o, j, n - 1, donated, k);
    }
  }

  /** Later rows leave the plans of earlier ones alone. */
  lemma StillGiven(t: Table, o: Oracle, p: Plans, q: Plans, n: nat, k: nat, d: Donation)
    requires t.Valid() && n <= |t.cells| && DonationTraced(t, o, p, n, k, d)
    requires p.used <= q.used && forall j | 0 <= j < n && j in p.planned :: j in q.planned && q.planned[j] == p.planned[j]
    ensures DonationTraced(t, o, q, n + 1, k, d)
  {
    hide WellCut;
    hide Prose;
    hide Own;
    hide Movable;
    hide TakesStray;
  }

  /** The plans of a row that is dealt with: its own run, or what is left behind a lead. */
  lemma PlansTraced(t: Table, o: Oracle, p: Plans, n: nat)
    requires t.Valid() && n < |t.cells| && Traced(t, o, p, n)
    ensures var q := RowStep(t, o, p, n);
      && p.used <= q.used
      && (forall j | 0 <= j < n && j in p.planned :: j in q.planned && q.planned[j] == p.planned[j])
      && forall k <- q.planned :: k < n + 1 && (KeepsOwn(t, o, q, k) || KeepsTail(t, q, k))
  {
    hide WellCut;
    hide Prose;
    hide Own;
    hide GivenBy;
    hide LeadPlan;
    hide Movable;
    hide HasName;
    hide Strays;
    hide AllPlaced;
    var q := RowStep(t, o, p, n);
    forall k | k in q.planned ensures k < n + 1 && (KeepsOwn(t, o, q, k) || KeepsTail(t, q, k)) {
      assert k != n ==> k in p.planned && q.planned[k] == p.planned[k];
    }
  }

  lemma DonationsTraced(t: Table, o: Oracle, p: Plans, n: nat, k: nat)
    requires t.Valid() && n < |t.cells| && Traced(t, o, p, n) && k in RowStep(t, o, p, n).donated
    ensures var q := RowStep(t, o, p, n); DonationTraced(t, o, q, n + 1, k, q.donated[k])
  {
    hide WellCut;
    hide Prose;
    hide Own;
    hide LeadPlan;
    hide Movable;
    hide HasName;
    hide Strays;
    hide AllPlaced;
    hide TakesStray;
    hide IsStray;
    hide GivenBy;
    var q := RowStep(t, o, p, n);
    PlansTraced(t, o, p, n);
    if k in p.donated && q.donated[k] == p.donated[k] {
      StillGiven(t, o, p, q, n, k, p.donated[k]);
    } else if HasName(o, t.cells[n]) || n in p.donated {
      assert Movable(o, t.cells[n], t.models[n]);
      StraysTraced(t, o, n, |Prose(t.cells[n])|, p.donated, k);
      NewlyGiven(t, o, p, n, k);
    }
  }

  lemma NewlyGiven(t: Table, o: Oracle, p: Plans, n: nat, k: nat)
    requires t.Valid() && n < |t.cells| && Movable(o, t.cells[n], t.models[n])
    requires HasName(o, t.cells[n]) || n in p.donated
    requires k in RowStep(t, o, p, n).donated
    requires exists s | 0 <= s < |Prose(t.cells[n])| ::
      && IsStray(t, o, n, s) && StrayTarget(t, o, n, s) == Some(k)
      && RowStep(t, o, p, n).donated[k] == Donation(Prose(t.cells[n])[s].text, Neighbour(n, s))
    ensures var q := RowStep(t, o, p, n); DonationTraced(t, o, q, n + 1, k, q.donated[k])
  {
    hide WellCut;
    hide Prose;
    hide Own;
    hide LeadPlan;
    hide Movable;
    hide HasName;
    hide Strays;
    hide AllPlaced;
    hide TakesStray;
    hide IsStray;
  }

  /** A value-less line is used for one row only. */
  lemma FragmentsTraced(t: Table, o: Oracle, p: Plans, n: nat, k: nat, l: nat)
    requires t.Valid() && n < |t.cells| && Traced(t, o, p, n)
    requires var q := RowStep(t, o, p, n);
      k in q.donated && l in q.donated && q.donated[k].origin.ValueLess? && q.donated[k].origin == q.donated[l].origin
    ensures k == l
  {
    hide WellCut;
    hide Prose;
    hide Own;
    hide LeadPlan;
    hide Movable;
    hide HasName;
    hide Strays;
    hide AllPlaced;
    hide TakesStray;
    hide IsStray;
    hide GivenBy;
    var q := RowStep(t, o, p, n);
    forall m | m in q.donated && q.donated[m].origin.ValueLess?
      ensures (m in p.donated && q.donated[m] == p.donated[m])
        || (m == n && q.donated[m].origin.index !in p.used && Harvested(t, o, p.used, n).Some?)
    {
      if HasName(o, t.cells[n]) || n in p.donated {
        if Movable(o, t.cells[n], t.models[n]) {
          StraysTraced(t, o, n, |Prose(t.cells[n])|, p.donated, m);
        }
      }
    }
  }

  lemma {:induction false} RowsTraced(t: Table, o: Oracle, n: nat)
    requires t.Valid() && n <= |t.cells|
    ensures Traced(t, o, RowsTo(t, o, n), n)
  {
    hide WellCut;
    hide KeepsOwn;
    hide KeepsTail;
    hide DonationTraced;
    hide RowStep;
    if n > 0 {
      RowsTraced(t, o, n - 1);
      var p, q := RowsTo(t, o, n - 1), RowsTo(t, o, n);
      PlansTraced(t, o, p, n - 1);
      forall k | k in q.donated ensures DonationTraced(t, o, q, n, k, q.donated[k]) {
        DonationsTraced(t, o, p, n - 1, k);
      }
      forall k, l | k in q.donated && l in q.donated && q.donated[k].origin.ValueLess?
        && q.donated[k].origin == q.donated[l].origin
        ensures k == l
      {
        FragmentsTraced(t, o, p, n - 1, k, l);
      }
    }
  }

  // ---- owners never cause a rollback ------------------------------------------------------------------------------ //

  /** Every row from which a run can be moved has a run proven its own. */
  ghost predicate GiversOwn(t: Table, o: Oracle)
    requires t.Valid()
  {
    forall j, s, k | 0 <= j < |t.cells| && 0 <= s < |Prose(t.cells[j])| && RowGives(t, o, j, s, k) ::
      Own(o, t.cells[j], t.models[j]).Some?
  }

  /** Entry i was applied to row k. */
  predicate AppliedTo(t: Table, o: Oracle, asked: seq<nat>, entries: seq<Entry>, i: nat, k: nat)
    requires |t.models| == |t.cells| && forall i | 0 <= i < |asked| :: asked[i] < |t.cells|
  {
    i < |entries| && Accepts(t, o, asked, entries[i]) && asked[entries[i].cell.value] == k < |t.cells|
  }

  /** The resolver's answer deals with a row once, and only with rows that the pass has
      taken no run from. */
  ghost predicate AnswersApart(t: Table, o: Oracle, asked: seq<nat>, entries: seq<Entry>)
    requires t.Valid() && forall i | 0 <= i < |asked| :: asked[i] < |t.cells|
  {
    && (forall i: nat, j: nat, k: nat | AppliedTo(t, o, asked, entries, i, k) && AppliedTo(t, o, asked, entries, j, k) :: i == j)
    && (forall i: nat, k: nat, s: nat, l: nat | AppliedTo(t, o, asked, entries, i, k) && s < |Prose(t.cells[k])| ::
          !RowGives(t, o, k, s, l))
  }

  // Where row k's final text is printed.

  ghost predicate FromAnswer(t: Table, o: Oracle, asked: seq<nat>, entries: seq<Entry>, k: nat, x: Source)
    requires t.Valid() && forall i | 0 <= i < |asked| :: asked[i] < |t.cells|
  {
    exists i: nat, a: nat :: EntryGives(t, o, asked, entries, i, a, k)
      && x == Source(asked[entries[i].cell.value], Some(entries[i].assignments[a].segment))
  }

  ghost predicate FromStray(t: Table, o: Oracle, k: nat, x: Source)
    requires t.Valid()
  {
    x.run.Some? && x.holder < |t.cells| && x.run.value < |Prose(t.cells[x.holder])|
    && RowGives(t, o, x.holder, x.run.value, k)
  }

  ghost predicate FromLine(t: Table, p: Plans, k: nat, x: Source) {
    && k in p.donated && p.donated[k].origin.ValueLess? && p.donated[k].origin.index < |t.fragments|
    && x == Source(|t.cells| + p.donated[k].origin.index, None)
  }

  ghost predicate FromOwnAnswer(t: Table, o: Oracle, asked: seq<nat>, entries: seq<Entry>, k: nat, x: Source)
    requires t.Valid() && forall i | 0 <= i < |asked| :: asked[i] < |t.cells|
  {
    exists i: nat :: AppliedTo(t, o, asked, entries, i, k) && x == Source(k, Some(Mine(t, k, entries[i])))
  }

  ghost predicate FromOwnCell(t: Table, o: Oracle, p: Plans, k: nat, x: Source)
    requires t.Valid() && k < |t.cells|
  {
    x == Source(k, if KeepsOwn(t, o, p, k) then Own(o, t.cells[k], t.models[k]) else None)
  }

  /** `p` is what the rows decided, before the answer. */
  ghost predicate TakenFrom(t: Table, o: Oracle, asked: seq<nat>, entries: seq<Entry>, p: Plans, k: nat, x: Source)
    requires t.Valid() && k < |t.cells| && forall i | 0 <= i < |asked| :: asked[i] < |t.cells|
  {
    || FromAnswer(t, o, asked, entries, k, x)
    || FromStray(t, o, k, x)
    || FromLine(t, p, k, x)
    || FromOwnAnswer(t, o, asked, entries, k, x)
    || (FromOwnCell(t, o, p, k, x) && !SettledBy(t, o, asked, entries, |entries|, k))
  }

  lemma {:induction false} EntriesMine(t: Table, o: Oracle, asked: seq<nat>, entries: seq<Entry>, n: nat, p: Plans, k: nat)
    requires t.Valid() && k < |t.cells| && n <= |entries| && forall i | 0 <= i < |asked| :: asked[i] < |t.cells|
    requires SettledBy(t, o, asked, entries, n, k)
    ensures var q := EntriesTo(t, o, asked, entries, n, p);
      && k in q.planned
      && exists i: nat ::
           && i < n && AppliedTo(t, o, asked, entries, i, k)
           && q.planned[k] == Prose(t.cells[k])[Mine(t, k, entries[i])].text
  {
    hide WellCut;
    hide Prose;
    hide MoveOk;
    hide MovesTo;
    hide Moved;
    hide CoversRuns;
    var e := entries[n - 1];
    if AppliedTo(t, o, asked, entries, n - 1, k) {
      assert EntriesTo(t, o, asked, entries, n, p).planned[k] == Prose(t.cells[k])[Mine(t, k, e)].text;
    } else {
      EntriesMine(t, o, asked, entries, n - 1, p, k);
      EntryPlans(t, o, asked, e, EntriesTo(t, o, asked, entries, n - 1, p), k);
      hide EntryStep;
    }
  }

  /** A row whose runs are looked at keeps its own run, if one is proven. */
  lemma {:induction false} LookedKeeps(t: Table, o: Oracle, n: nat, j: nat)
    requires t.Valid() && j < n <= |t.cells| && Looked(t, o, j) && Own(o, t.cells[j], t.models[j]).Some?
    ensures KeepsOwn(t, o, RowsTo(t, o, n), j)
  {
    hide WellCut;
    hide Looked;
    hide Prose;
    hide Own;
    hide RowStep;
    hide Traced;
    var p := RowsTo(t, o, n - 1);
    if j < n - 1 {
      LookedKeeps(t, o, n - 1, j);
      RowsTraced(t, o, n - 1);
      PlansTraced(t, o, p, n - 1);
    } else {
      LookedWhen(t, o, j);
      LookedPlans(t, o, p, j);
    }
  }

  lemma LookedPlans(t: Table, o: Oracle, p: Plans, j: nat)
    requires t.Valid() && j < |t.cells| && Own(o, t.cells[j], t.models[j]).Some?
    requires Movable(o, t.cells[j], t.models[j]) && (HasName(o, t.cells[j]) || j in p.donated)
    ensures KeepsOwn(t, o, RowStep(t, o, p, j), j)
  {
    hide WellCut;
    hide Prose;
    hide Own;
    hide LeadPlan;
    hide Movable;
    hide HasName;
    hide Strays;
    hide AllPlaced;
  }

  lemma TailFits(c: Cell)
    requires WellCut(c) && LeadPlan(c).Some?
    ensures Chars(LeadPlan(c).value) <= Chars(c.original)
  {
    hide Chars;
    hide Strip;
    hide Squeeze;
    hide S.Contiguous;
    var a := Lead(c).value.end;
    CharsStrip(c.text[a..]);
    assert c.text == c.text[..a] + c.text[a..];
    CharsConcat(c.text[..a], c.text[a..]);
    CellChars(c);
  }

  /** What a row keeps of its own cell, before any answer. */
  lemma OwnCellFits(t: Table, o: Oracle, p: Plans, n: nat, k: nat, before: Option<string>) returns (x: Source)
    requires t.Valid() && k < |t.cells| && n <= |t.cells| && Traced(t, o, p, n) && OrEmpty(before) == t.cells[k].original
    ensures FromOwnCell(t, o, p, k, x) && IsSource(t, x)
    ensures Fits(t, x, if k in p.planned && p.planned[k] != [] then Some(p.planned[k]) else before)
  {
    hide WellCut;
    hide Chars;
    hide Prose;
    hide Own;
    hide Movable;
    hide LeadPlan;
    hide TakesStray;
    hide IsStray;
    x := Source(k, if KeepsOwn(t, o, p, k) then Own(o, t.cells[k], t.models[k]) else None);
    if k in p.planned && KeepsTail(t, p, k) {
      TailFits(t.cells[k]);
    }
    if KeepsOwn(t, o, p, k) {
      ProseSliced(t.cells[k], Own(o, t.cells[k], t.models[k]).value);
    }
  }

  /** Where a row's own plan comes from, in the end. */
  lemma PlanFits(t: Table, o: Oracle, asked: seq<nat>, entries: seq<Entry>, p: Plans, n: nat, k: nat, before: Option<string>)
    returns (x: Source)
    requires t.Valid() && k < |t.cells| && n <= |t.cells| && Traced(t, o, p, n) && OrEmpty(before) == t.cells[k].original
    requires forall i | 0 <= i < |asked| :: asked[i] < |t.cells|
    ensures TakenFrom(t, o, asked, entries, p, k, x) && IsSource(t, x)
    ensures var q := EntriesTo(t, o, asked, entries, |entries|, p);
      Fits(t, x, if k in q.planned && q.planned[k] != [] then Some(q.planned[k]) else before)
  {
    hide WellCut;
    hide Chars;
    hide Prose;
    hide MoveOk;
    hide EntriesTo;
    hide Traced;
    hide CoversRuns;
    if SettledBy(t, o, asked, entries, |entries|, k) {
      EntriesMine(t, o, asked, entries, |entries|, p, k);
      var q := EntriesTo(t, o, asked, entries, |entries|, p);
      var i: nat :| i < |entries| && AppliedTo(t, o, asked, entries, i, k)
        && q.planned[k] == Prose(t.cells[k])[Mine(t, k, entries[i])].text;
      x := Source(k, Some(Mine(t, k, entries[i])));
      ProseSliced(t.cells[k], x.run.value);
      assert FromOwnAnswer(t, o, asked, entries, k, x);
    } else {
      EntriesPlans(t, o, asked, entries, |entries|, p, k);
      x := OwnCellFits(t, o, p, n, k, before);
    }
  }

  lemma RowFits(t: Table, o: Oracle, asked: seq<nat>, entries: seq<Entry>, k: nat, before: Option<string>)
    returns (x: Source)
    requires t.Valid() && k < |t.cells| && OrEmpty(before) == t.cells[k].original
    requires forall i | 0 <= i < |asked| :: asked[i] < |t.cells|
    ensures TakenFrom(t, o, asked, entries, RowsTo(t, o, |t.cells|), k, x) && IsSource(t, x)
    ensures var q := EntriesTo(t, o, asked, entries, |entries|, RowsTo(t, o, |t.cells|));
      Fits(t, x, Final(q.planned, q.donated, k, before))
  {
    hide WellCut;
    hide Chars;
    hide Prose;
    hide Accepts;
    hide EntriesTo;
    hide RowsTo;
    hide RowGives;
    hide CoversRuns;
    var n := |t.cells|;
    var p := RowsTo(t, o, n);
    RowsTraced(t, o, n);
    var entry := EntriesGive(t, o, asked, entries, |entries|, p, k);
    if entry.Some? {
      var d := EntryGift(t, o, asked, entries[entry.value.0], entry.value.1);
      x := Source(d.origin.row, Some(d.origin.segment));
      ProseSliced(t.cells[x.holder], x.run.value);
      AnswerSource(t, o, asked, entries, entry.value.0, entry.value.1, k);
      return;
    }
    var row := RowsGive(t, o, n, k);
    if row.Some? {
      x := Source(row.value.0, Some(row.value.1));
      ProseSliced(t.cells[x.holder], x.run.value);
      return;
    }
    if k in p.donated && p.donated[k].text != [] {
      x := Source(|t.cells| + p.donated[k].origin.index, None);
      assert DonationTraced(t, o, p, n, k, p.donated[k]);
    } else {
      x := PlanFits(t, o, asked, entries, p, n, k, before);
    }
  }

  lemma AnswerSource(t: Table, o: Oracle, asked: seq<nat>, entries: seq<Entry>, i: nat, a: nat, k: nat)
    requires t.Valid() && (forall i | 0 <= i < |asked| :: asked[i] < |t.cells|) && EntryGives(t, o, asked, entries, i, a, k)
    ensures var d := EntryGift(t, o, asked, entries[i], a);
      FromAnswer(t, o, asked, entries, k, Source(d.origin.row, Some(d.origin.segment)))
  {
    hide WellCut;
    hide MoveOk;
    hide CoversRuns;
    hide Prose;
  }

  // Distinct assignments of an accepted entry speak of distinct runs.

  function Named(assignments: seq<Assignment>): set<nat> { set i | 0 <= i < |assignments| :: assignments[i].segment }

  lemma {:induction false} NamedCount(assignments: seq<Assignment>)
    ensures |Named(assignments)| <= |assignments|
  {
    if assignments == [] {
      assert Named(assignments) == {};
    } else {
      var front := assignments[..|assignments| - 1];
      NamedCount(front);
      assert Named(assignments) == Named(front) + {assignments[|assignments| - 1].segment};
    }
  }

  function Below(n: nat): set<nat> { if n == 0 then {} else Below(n - 1) + {n - 1} }

  lemma {:induction false} BelowCount(n: nat)
    ensures |Below(n)| == n && forall s: nat :: s in Below(n) <==> s < n
  {
    if n > 0 {
      BelowCount(n - 1);
    }
  }

  lemma RunsDiffer(assignments: seq<Assignment>, n: nat, a: nat, b: nat)
    requires CoversRuns(assignments, n) && a < b < |assignments|
    ensures assignments[a].segment != assignments[b].segment
  {
    if assignments[a].segment == assignments[b].segment {
      var rest := assignments[..b] + assignments[b + 1..];
      NamedCount(rest);
      BelowCount(n);
      forall s | s in Below(n) ensures s in Named(rest) {
        assert Assigned(assignments, s);
        var i :| 0 <= i < n && assignments[i].segment == s;
        var j := if i < b then i else if i == b then a else i - 1;
        assert rest[j].segment == s;
      }
      Subset(Below(n), Named(rest));
      assert false;
    }
  }

  lemma Subset(a: set<nat>, b: set<nat>)
    requires a <= b
    ensures |a| <= |b|
  {
    assert b == a + (b - a);
  }

  // No two rows draw on the same text.

  ghost predicate Differ(x: Source, y: Source) {
    x.holder == y.holder ==> x.run.Some? && y.run.Some? && x.run != y.run
  }

  lemma AnswerFrom(t: Table, o: Oracle, asked: seq<nat>, entries: seq<Entry>, k: nat, x: Source) returns (i: nat, a: nat)
    requires t.Valid() && (forall i | 0 <= i < |asked| :: asked[i] < |t.cells|) && FromAnswer(t, o, asked, entries, k, x)
    ensures AppliedTo(t, o, asked, entries, i, x.holder) && a < |entries[i].assignments|
    ensures MovesRun(t, o, entries[i].assignments[a], k) && x.run == Some(entries[i].assignments[a].segment)
    ensures CoversRuns(entries[i].assignments, |Prose(t.cells[x.holder])|)
  {
    hide WellCut;
    hide MoveOk;
    hide Prose;
    hide CoversRuns;
    i, a :| EntryGives(t, o, asked, entries, i, a, k)
      && x == Source(asked[entries[i].cell.value], Some(entries[i].assignments[a].segment));
  }

  lemma AnswersDiffer(t: Table, o: Oracle, asked: seq<nat>, entries: seq<Entry>, k: nat, l: nat, x: Source, y: Source)
    requires t.Valid() && (forall i | 0 <= i < |asked| :: asked[i] < |t.cells|) && AnswersApart(t, o, asked, entries)
    requires k != l && FromAnswer(t, o, asked, entries, k, x) && FromAnswer(t, o, asked, entries, l, y)
    ensures Differ(x, y)
  {
    hide WellCut;
    hide Prose;
    hide CoversRuns;
    hide Accepts;
    var i, a := AnswerFrom(t, o, asked, entries, k, x);
    var j, b := AnswerFrom(t, o, asked, entries, l, y);
    if x.holder == y.holder {
      assert i == j && a != b;
      RunsDiffer(entries[i].assignments, |Prose(t.cells[x.holder])|, if a < b then a else b, if a < b then b else a);
    }
  }

  lemma AnswerNotMine(t: Table, o: Oracle, asked: seq<nat>, entries: seq<Entry>, k: nat, l: nat, x: Source, y: Source)
    requires t.Valid() && (forall i | 0 <= i < |asked| :: asked[i] < |t.cells|) && AnswersApart(t, o, asked, entries)
    requires FromAnswer(t, o, asked, entries, k, x) && FromOwnAnswer(t, o, asked, entries, l, y)
    ensures Differ(x, y)
  {
    hide WellCut;
    hide Prose;
    hide CoversRuns;
    hide MoveOk;
    var i, a := AnswerFrom(t, o, asked, entries, k, x);
    var j: nat :| AppliedTo(t, o, asked, entries, j, l) && y == Source(l, Some(Mine(t, l, entries[j])));
    if x.holder == l {
      assert i == j;
      var mine := ThisFrom(entries[i].assignments, 0);
      RunsDiffer(entries[i].assignments, |Prose(t.cells[l])|, if a < mine then a else mine, if a < mine then mine else a);
    }
  }

  lemma StraysDiffer(t: Table, o: Oracle, k: nat, l: nat, x: Source, y: Source)
    requires t.Valid() && k != l && FromStray(t, o, k, x) && FromStray(t, o, l, y)
    ensures Differ(x, y)
  {
    hide WellCut;
    hide Prose;
    hide Looked;
    hide IsStray;
    hide TakesStray;
  }

  lemma StrayNotOwn(t: Table, o: Oracle, k: nat, l: nat, x: Source, y: Source)
    requires t.Valid() && l < |t.cells| && GiversOwn(t, o) && FromStray(t, o, k, x)
    requires FromOwnCell(t, o, RowsTo(t, o, |t.cells|), l, y)
    ensures Differ(x, y)
  {
    hide WellCut;
    hide Prose;
    hide Looked;
    hide TakesStray;
    hide RowsTo;
    hide Own;
    if x.holder == l {
      LookedKeeps(t, o, |t.cells|, l);
    }
  }

  lemma LinesDiffer(t: Table, o: Oracle, k: nat, l: nat, x: Source, y: Source)
    requires t.Valid() && k != l
    requires var p := RowsTo(t, o, |t.cells|); FromLine(t, p, k, x) && FromLine(t, p, l, y)
    ensures Differ(x, y)
  {
    hide WellCut;
    hide RowsTo;
    hide DonationTraced;
    hide KeepsOwn;
    hide KeepsTail;
    RowsTraced(t, o, |t.cells|);
  }

  /** An answer or a stray against what another row keeps of its own cell. */
  lemma GivenDiffer(t: Table, o: Oracle, asked: seq<nat>, entries: seq<Entry>, k: nat, l: nat, x: Source, y: Source)
    requires t.Valid() && k != l && l < |t.cells| && (forall i | 0 <= i < |asked| :: asked[i] < |t.cells|)
    requires AnswersApart(t, o, asked, entries) && GiversOwn(t, o)
    requires FromAnswer(t, o, asked, entries, k, x) || FromStray(t, o, k, x)
    requires TakenFrom(t, o, asked, entries, RowsTo(t, o, |t.cells|), l, y)
    ensures Differ(x, y)
  {
    hide WellCut;
    hide Prose;
    hide Looked;
    hide RowsTo;
    hide Accepts;
    hide GiversOwn;
    hide KeepsOwn;
    hide CoversRuns;
    if FromAnswer(t, o, asked, entries, k, x) {
      var i, a := AnswerFrom(t, o, asked, entries, k, x);
      if FromAnswer(t, o, asked, entries, l, y) {
        AnswersDiffer(t, o, asked, entries, k, l, x, y);
      } else if FromOwnAnswer(t, o, asked, entries, l, y) {
        AnswerNotMine(t, o, asked, entries, k, l, x, y);
      }
    } else if FromAnswer(t, o, asked, entries, l, y) {
      var i, a := AnswerFrom(t, o, asked, entries, l, y);
    } else if FromStray(t, o, l, y) {
      StraysDiffer(t, o, k, l, x, y);
    } else if FromOwnCell(t, o, RowsTo(t, o, |t.cells|), l, y) {
      StrayNotOwn(t, o, k, l, x, y);
    }
  }

  lemma SourcesDiffer(t: Table, o: Oracle, asked: seq<nat>, entries: seq<Entry>, k: nat, l: nat, x: Source, y: Source)
    requires t.Valid() && k != l && k < |t.cells| && l < |t.cells| && (forall i | 0 <= i < |asked| :: asked[i] < |t.cells|)
    requires AnswersApart(t, o, asked, entries) && GiversOwn(t, o)
    requires TakenFrom(t, o, asked, entries, RowsTo(t, o, |t.cells|), k, x)
    requires TakenFrom(t, o, asked, entries, RowsTo(t, o, |t.cells|), l, y)
    ensures Differ(x, y)
  {
    hide WellCut;
    hide Prose;
    hide Looked;
    hide RowsTo;
    hide Accepts;
    hide GiversOwn;
    hide AnswersApart;
    hide KeepsOwn;
    hide FromStray;
    hide FromAnswer;
    if FromAnswer(t, o, asked, entries, k, x) || FromStray(t, o, k, x) {
      GivenDiffer(t, o, asked, entries, k, l, x, y);
    } else if FromAnswer(t, o, asked, entries, l, y) || FromStray(t, o, l, y) {
      GivenDiffer(t, o, asked, entries, l, k, y, x);
    } else if FromLine(t, RowsTo(t, o, |t.cells|), k, x) && FromLine(t, RowsTo(t, o, |t.cells|), l, y) {
      LinesDiffer(t, o, k, l, x, y);
    }
  }

  /** If every row that gives a run away has a run of its own, and the resolver's answer
      deals with a row once and only with rows that gave nothing away, the pass is never
      rolled back. */
  lemma OwnersNeverRollBack(t: Table, o: Oracle, resolve: Option<Answer>, before: seq<Option<string>>)
    requires t.Valid() && Originates(t, before) && !CutShort(t, o, resolve)
    requires GiversOwn(t, o) && AnswersApart(t, o, Asked(t, o), Heard(resolve))
    ensures !RollsBack(t, PlansFor(t, o, resolve), before)
  {
    hide WellCut;
    hide GiversOwn;
    hide AnswersApart;
    hide TakenFrom;
    hide IsSource;
    hide Fits;
    hide Final;
    hide RowsTo;
    hide Normal;
    hide JoinTo;
    hide SubMultiset;
    var p, asked, heard, n := PlansFor(t, o, resolve), Asked(t, o), Heard(resolve), |t.cells|;
    var q := EntriesTo(t, o, asked, heard, |heard|, RowsTo(t, o, n));
    PlansAre(t, o, resolve);
    hide EntriesTo;
    hide PlansFor;
    var sources: seq<Source> := [];
    for k := 0 to n
      invariant |sources| == k
      invariant forall j | 0 <= j < k ::
        IsSource(t, sources[j]) && TakenFrom(t, o, asked, heard, RowsTo(t, o, n), j, sources[j])
        && Fits(t, sources[j], Final(p.planned, p.donated, j, before[j]))
    {
      var x := RowFits(t, o, asked, heard, k, before[k]);
      sources := sources + [x];
    }
    forall k, l | 0 <= k < l < n && sources[k].holder == sources[l].holder
      ensures sources[k].run.Some? && sources[l].run.Some? && sources[k].run != sources[l].run
    {
      SourcesDiffer(t, o, asked, heard, k, l, sources[k], sources[l]);
    }
    ApartFits(t, sources, Finals(p.planned, p.donated, before));
  }

  lemma PlansAre(t: Table, o: Oracle, resolve: Option<Answer>)
    requires t.Valid() && !CutShort(t, o, resolve)
    ensures var p, asked, heard := PlansFor(t, o, resolve), Asked(t, o), Heard(resolve);
      var q := EntriesTo(t, o, asked, heard, |heard|, RowsTo(t, o, |t.cells|));
      p.planned == q.planned && p.donated == q.donated
  {
    hide WellCut;
    hide RowsTo;
    NobodyApplied(t, o, Asked(t, o), Heard(resolve), |Heard(resolve)|, RowsTo(t, o, |t.cells|));
  }

  lemma {:induction false} NobodyApplied(t: Table, o: Oracle, asked: seq<nat>, entries: seq<Entry>, n: nat, p: Plans)
    requires |t.models| == |t.cells| && n <= |entries| && forall i | 0 <= i < |asked| :: asked[i] < |t.cells|
    ensures asked == [] ==> EntriesTo(t, o, asked, entries, n, p) == p
  {
    if n > 0 {
      NobodyApplied(t, o, asked, entries, n - 1, p);
    }
  }

  // ---- givers that own nothing -------------------------------------------------------------------------------------- //

  lemma {:induction false} JoinCounts(final: seq<Option<string>>, before: seq<Option<string>>, n: nat, k: nat, c: char)
    requires n <= |final| == |before| && k < |final|
    requires forall j | 0 <= j < |final| :: Chars(OrEmpty(final[j]))[c] >= Chars(OrEmpty(before[j]))[c]
    requires Chars(OrEmpty(final[k]))[c] > Chars(OrEmpty(before[k]))[c]
    ensures Chars(JoinTo(final, n))[c] >= Chars(JoinTo(before, n))[c]
    ensures k < n ==> Chars(JoinTo(final, n))[c] > Chars(JoinTo(before, n))[c]
  {
    hide Chars;
    if n > 0 {
      JoinCounts(final, before, n - 1, k, c);
      CharsConcat(JoinTo(final, n - 1), OrEmpty(final[n - 1]));
      CharsConcat(JoinTo(before, n - 1), OrEmpty(before[n - 1]));
    }
  }

  /** If some row ends with more of a character than it printed, and no row and no
      value-less line frees one, the pass is rolled back: for any plans. */
  lemma UnfreedRollsBack(t: Table, p: Plans, before: seq<Option<string>>, k: nat, c: char)
    requires Originates(t, before) && k < |t.cells|
    requires forall j | 0 <= j < |before| ::
      Chars(OrEmpty(Final(p.planned, p.donated, j, before[j])))[c] >= Chars(OrEmpty(before[j]))[c]
    requires Chars(OrEmpty(Final(p.planned, p.donated, k, before[k])))[c] > Chars(OrEmpty(before[k]))[c]
    requires Chars(FragmentsTo(t.fragments, |t.fragments|))[c] == 0
    ensures RollsBack(t, p, before)
  {
    hide Normal;
    hide JoinTo;
    hide Final;
    hide FragmentsTo;
    var final, n := Finals(p.planned, p.donated, before), |before|;
    JoinCounts(final, before, n, k, c);
    SameJoin(before, Originals(t), n);
    CharsConcat(JoinTo(Originals(t), n), FragmentsTo(t.fragments, |t.fragments|));
  }

  /** A lead that prints none of a character takes none away. */
  lemma TailKeeps(c: Cell, ch: char)
    requires WellCut(c) && LeadPlan(c).Some? && Chars(Lead(c).value.text)[ch] == 0
    ensures Chars(LeadPlan(c).value)[ch] == Chars(c.original)[ch]
  {
    hide Chars;
    hide Strip;
    hide Squeeze;
    hide IsSpace;
    var lead := c.segments[0];
    var a := lead.end;
    assert S.Slices(c.text, c.segments) && S.BlankBetween(c.text, S.EndBefore(c.segments, 0), lead.start);
    LeadChars(c.text, lead);
    CharsStrip(c.text[a..]);
    assert c.text == c.text[..a] + c.text[a..];
    CharsConcat(c.text[..a], c.text[a..]);
    CellChars(c);
  }

  lemma LeadChars(text: string, lead: S.Segment)
    requires S.BlankBetween(text, 0, lead.start) && lead.start < lead.end <= |text|
    requires lead.text == Strip(text[lead.start..lead.end])
    ensures Chars(text[..lead.end]) == Chars(lead.text)
  {
    hide Chars;
    hide Strip;
    hide VisibleTo;
    LeadHead(text, lead);
    VisibleOfPrefix(text, text[..lead.end], lead.end);
    CharsVisible(text[..lead.end]);
    CharsVisible(lead.text);
  }

  /** A row without a run of its own gives a run away: if the run shows a letter or digit
      that is printed nowhere else, the pass over the rows is rolled back. */
  lemma GiverRollsBack(t: Table, o: Oracle, before: seq<Option<string>>, k: nat, j: nat, s: nat, c: char)
    requires t.Valid() && Originates(t, before) && j < |t.cells| && s < |Prose(t.cells[j])|
    requires var p := RowsTo(t, o, |t.cells|);
      k in p.donated && p.donated[k].origin == Neighbour(j, s) && j !in p.donated
    requires Own(o, t.cells[j], t.models[j]).None?
    requires Chars(Prose(t.cells[j])[s].text)[c] > 0
    requires forall i | 0 <= i < |t.cells| && i != j :: Chars(t.cells[i].original)[c] == 0
    requires Chars(FragmentsTo(t.fragments, |t.fragments|))[c] == 0
    requires LeadPlan(t.cells[j]).Some? ==> Chars(Lead(t.cells[j]).value.text)[c] == 0
    ensures RollsBack(t, RowsTo(t, o, |t.cells|), before)
  {
    hide WellCut;
    hide Chars;
    hide Prose;
    hide Own;
    hide RowsTo;
    hide RollsBack;
    hide LeadPlan;
    hide FragmentsTo;
    hide Movable;
    hide HasName;
    hide Echoes;
    var n := |t.cells|;
    var p := RowsTo(t, o, n);
    RowsTraced(t, o, n);
    assert DonationTraced(t, o, p, n, k, p.donated[k]);
    assert TakesStray(t, o, j, s, k);
    ProseSliced(t.cells[j], s);
    if j in p.planned {
      assert KeepsTail(t, p, j);
      TailKeeps(t.cells[j], c);
    }
    UnfreedRollsBack(t, p, before, k, c);
  }
}
