/** What one row and one entry of the resolver's answer change, told from the cells, the
    pages and the codes alone. */
module AttributionSteps {
  import opened Options
  import opened Text
  import opened Attribution
  import S = Segmentation

  // ---- what is read of a row ------------------------------------------------------------------------- //

  /** Some part code of the text identifies the model. */
  ghost predicate CodeOf(o: Oracle, text: string, model: string) {
    exists c: string :: c in o.codes(text) && o.matches(c, model)
  }

  ghost predicate FirstCoded(o: Oracle, c: Cell, model: string, s: nat) {
    && |model| > 0 && s < |Prose(c)| && CodeOf(o, Prose(c)[s].text, model)
    && forall r: nat | r < s :: !CodeOf(o, Prose(c)[r].text, model)
  }

  /** The run proven the row's own: the first that a code of its model stands in, or, when
      there is none, the only one of its cell. */
  ghost predicate Proven(o: Oracle, c: Cell, model: string, s: nat) {
    || FirstCoded(o, c, model, s)
    || ((forall r: nat :: !FirstCoded(o, c, model, r)) && s == 0 && |Prose(c)| == 1)
  }

  /** Several names, and one of them shows codes of which none is the row's. */
  ghost predicate Foreign(o: Oracle, c: Cell, model: string) {
    && |Prose(c)| >= 2
    && exists s: nat :: s < |Prose(c)| && |o.codes(Prose(c)[s].text)| > 0 && !CodeOf(o, Prose(c)[s].text, model)
  }

  /** Run s of row k leaves for the target. */
  ghost predicate LeavesFor(t: Table, o: Oracle, k: nat, s: nat, target: nat)
    requires t.Valid() && k < |t.cells|
  {
    && s < |Prose(t.cells[k])| && !Proven(o, t.cells[k], t.models[k], s)
    && OnlyAnswer(t, o, k, Prose(t.cells[k])[s].text, target)
    && Nameless(o, t.cells[target]) && InOrder(t.cells[k], s, k, target)
  }

  lemma CodeIsEcho(o: Oracle)
    ensures forall text: string, model: string :: Echoes(o, text, model) <==> CodeOf(o, text, model)
  {
    hide Echoes;
    forall text: string, model: string
      ensures Echoes(o, text, model) <==> CodeOf(o, text, model)
    {
      EchoIsCode(o, text, model);
    }
  }

  lemma OwnIsProven(o: Oracle, c: Cell, model: string)
    ensures forall s: nat :: Own(o, c, model) == Some(s) <==> Proven(o, c, model, s)
  {
    CodeIsEcho(o);
    hide Echoes, CodeOf, Prose;
    var k := FirstEcho(o, Prose(c), model, 0);
    assert model != [] && k < |Prose(c)| ==> FirstCoded(o, c, model, k);
  }

  lemma ForeignIsMovable(o: Oracle, c: Cell, model: string)
    ensures Movable(o, c, model) <==> Foreign(o, c, model)
  {
    CodeIsEcho(o);
    hide Echoes, CodeOf, Prose;
  }

  lemma TakesIfOnly(t: Table, o: Oracle, k: nat, s: nat, target: nat)
    requires t.Valid() && k < |t.cells| && s < |Prose(t.cells[k])| && target < |t.cells|
    ensures TakesStray(t, o, k, s, target)
       <==> && OnlyAnswer(t, o, k, Prose(t.cells[k])[s].text, target)
            && Nameless(o, t.cells[target]) && InOrder(t.cells[k], s, k, target)
  {
    hide Candidate, Answers, HasName, Nameless, Prose, WellCut, KeepsOrder, InOrder;
    CandidateAnswers(t, o, k, Prose(t.cells[k])[s].text);
    NoNameIs(o, t.cells[target]);
    OrderIs(t.cells[k], s, k, target);
  }

  lemma OrderIs(c: Cell, s: nat, from: nat, k: nat)
    requires s < |Prose(c)|
    ensures KeepsOrder(c, s, from, k) <==> InOrder(c, s, from, k)
  {
  }

  lemma TargetsLeave(t: Table, o: Oracle, k: nat, s: nat)
    requires t.Valid() && k < |t.cells| && s < |Prose(t.cells[k])|
    ensures forall target: nat ::
      IsStray(t, o, k, s) && StrayTarget(t, o, k, s) == Some(target) <==> LeavesFor(t, o, k, s, target)
  {
    OwnIsProven(o, t.cells[k], t.models[k]);
    hide Proven, Own, Prose, WellCut, Nameless, InOrder;
    forall target: nat
      ensures IsStray(t, o, k, s) && StrayTarget(t, o, k, s) == Some(target) <==> LeavesFor(t, o, k, s, target)
    {
      if target < |t.cells| {
        TakesIfOnly(t, o, k, s, target);
      }
      if StrayTarget(t, o, k, s).Some? {
        TakesIfOnly(t, o, k, s, StrayTarget(t, o, k, s).value);
      }
      hide TakesStray;
    }
  }

  // ---- a row ----------------------------------------------------------------------------------------------- //

  /** The last of the first `n` runs that leaves for the target is what it is given; a
      target no run leaves for keeps what it had. */
  ghost predicate Left(t: Table, o: Oracle, k: nat, n: nat, before: map<nat, Donation>, after: map<nat, Donation>, target: nat)
    requires t.Valid() && k < |t.cells| && n <= |Prose(t.cells[k])|
  {
    && (forall s: nat | s < n && LeavesFor(t, o, k, s, target)
            && (forall r: nat | s < r < n :: !LeavesFor(t, o, k, r, target)) ::
          target in after && after[target] == Donation(Prose(t.cells[k])[s].text, Neighbour(k, s)))
    && ((forall s: nat | s < n :: !LeavesFor(t, o, k, s, target)) ==>
          (target in after <==> target in before) && (target in after ==> after[target] == before[target]))
  }

  lemma {:induction false} StraysLeave(t: Table, o: Oracle, k: nat, n: nat, before: map<nat, Donation>)
    requires t.Valid() && k < |t.cells| && n <= |Prose(t.cells[k])|
    ensures forall target: nat :: Left(t, o, k, n, before, Strays(t, o, k, n, before), target)
  {
    hide WellCut, Prose, LeavesFor, IsStray, StrayTarget;
    if n > 0 {
      StraysLeave(t, o, k, n - 1, before);
      TargetsLeave(t, o, k, n - 1);
      forall target: nat
        ensures Left(t, o, k, n, before, Strays(t, o, k, n, before), target)
      {
        assert Left(t, o, k, n - 1, before, Strays(t, o, k, n - 1, before), target);
      }
    }
  }

  lemma PlacedLeave(t: Table, o: Oracle, k: nat)
    requires t.Valid() && k < |t.cells|
    ensures AllPlaced(t, o, k, |Prose(t.cells[k])|)
       <==> forall s: nat | s < |Prose(t.cells[k])| && !Proven(o, t.cells[k], t.models[k], s) ::
              exists target: nat :: LeavesFor(t, o, k, s, target)
  {
    hide WellCut, Prose, StrayTarget, Own, Proven;
    OwnIsProven(o, t.cells[k], t.models[k]);
    forall s: nat | s < |Prose(t.cells[k])|
      ensures IsStray(t, o, k, s) <==> !Proven(o, t.cells[k], t.models[k], s)
      ensures IsStray(t, o, k, s) ==>
        (StrayTarget(t, o, k, s).Some? <==> exists target: nat :: LeavesFor(t, o, k, s, target))
    {
      TargetsLeave(t, o, k, s);
      hide LeavesFor;
      if IsStray(t, o, k, s) && StrayTarget(t, o, k, s).Some? {
        assert LeavesFor(t, o, k, s, StrayTarget(t, o, k, s).value);
      }
    }
  }

  /** A cell that opens with an annotation and holds a name is cut behind it; nothing else
      happens to a row at that point. */
  ghost predicate Led(t: Table, k: nat, p: Plans, planned: map<nat, string>)
    requires t.Valid() && k < |t.cells|
  {
    planned == if OpensWithRest(t.cells[k]) then p.planned[k := AfterRest(t.cells[k])] else p.planned
  }

  /** A nameless row takes the one value-less line that answers for it, which is used up. */
  ghost predicate TakesLine(t: Table, o: Oracle, k: nat, p: Plans, q: Plans)
    requires t.Valid() && k < |t.cells|
  {
    && q.unresolved == p.unresolved
    && (forall i: nat | |t.models[k]| > 0 && OnlyLine(t, o, p.used, k, i) ::
          && q.used == p.used + {i}
          && q.donated == if t.preset[k] then p.donated
                          else p.donated[k := Donation(t.fragments[i].text, ValueLess(i))])
    && (t.models[k] == [] || (forall i: nat :: !OnlyLine(t, o, p.used, k, i)) ==>
          q.used == p.used && q.donated == p.donated)
  }

  /** A row of several names gives those away that are not its own, keeps its own, and is
      reported if one of the others stays. */
  ghost predicate GivesAway(t: Table, o: Oracle, k: nat, led: map<nat, string>, p: Plans, q: Plans)
    requires t.Valid() && k < |t.cells|
  {
    var c, model := t.cells[k], t.models[k];
    && q.used == p.used
    && (forall s: nat | Proven(o, c, model, s) :: s < |Prose(c)| && q.planned == led[k := Prose(c)[s].text])
    && ((forall s: nat :: !Proven(o, c, model, s)) ==> q.planned == led)
    && (forall target: nat :: Left(t, o, k, |Prose(c)|, p.donated, q.donated, target))
    && q.unresolved ==
         p.unresolved
         + if forall s: nat | s < |Prose(c)| && !Proven(o, c, model, s) :: exists target: nat :: LeavesFor(t, o, k, s, target)
           then [] else [k]
  }

  /** One row of the pass. */
  ghost predicate RowDone(t: Table, o: Oracle, k: nat, p: Plans, q: Plans)
    requires t.Valid() && k < |t.cells|
  {
    exists led: map<nat, string> ::
      && Led(t, k, p, led)
      && (if Nameless(o, t.cells[k]) && k !in p.donated then q.planned == led && TakesLine(t, o, k, p, q)
          else if Foreign(o, t.cells[k], t.models[k]) then GivesAway(t, o, k, led, p, q)
          else q == p.(planned := led))
  }

  lemma NameStepDoes(t: Table, o: Oracle, p: Plans, k: nat)
    requires t.Valid() && k < |t.cells|
    ensures NameStep(t, o, p, k).planned == p.planned && TakesLine(t, o, k, p, NameStep(t, o, p, k))
  {
    HarvestedAnswers(t, o, p.used, k);
    hide WellCut, OnlyHit, OnlyLine, Harvested;
  }

  lemma HarvestedAnswers(t: Table, o: Oracle, used: set<nat>, k: nat)
    requires t.Valid() && k < |t.cells|
    ensures forall i: nat :: Harvested(t, o, used, k) == Some(i) <==> |t.models[k]| > 0 && OnlyLine(t, o, used, k, i)
  {
    HitAnswers(t, o, k);
    hide WellCut, Hit, LineAnswers;
    forall i: nat
      ensures OnlyHit(t, o, used, k, i) <==> |t.models[k]| > 0 && OnlyLine(t, o, used, k, i)
    {
    }
  }

  lemma StrayStepDoes(t: Table, o: Oracle, p: Plans, k: nat)
    requires t.Valid() && k < |t.cells|
    ensures GivesAway(t, o, k, p.planned, p, StrayStep(t, o, p, k))
  {
    hide WellCut, Prose, Own, Proven, Strays, AllPlaced, Left, LeavesFor;
    OwnIsProven(o, t.cells[k], t.models[k]);
    StraysLeave(t, o, k, |Prose(t.cells[k])|, p.donated);
    PlacedLeave(t, o, k);
    OwnPlanned(t, o, p, k);
  }

  lemma OwnPlanned(t: Table, o: Oracle, p: Plans, k: nat)
    requires t.Valid() && k < |t.cells|
    ensures var q, c, model := StrayStep(t, o, p, k), t.cells[k], t.models[k];
      && (forall s: nat | Proven(o, c, model, s) :: s < |Prose(c)| && q.planned == p.planned[k := Prose(c)[s].text])
      && ((forall s: nat :: !Proven(o, c, model, s)) ==> q.planned == p.planned)
  {
    hide WellCut, Prose, Own, Proven, Strays, AllPlaced;
    var own := Own(o, t.cells[k], t.models[k]);
    OwnIsProven(o, t.cells[k], t.models[k]);
    if own.Some? {
      assert Proven(o, t.cells[k], t.models[k], own.value);
    }
  }

  lemma RowStepDoes(t: Table, o: Oracle, p: Plans, k: nat)
    requires t.Valid() && k < |t.cells|
    ensures RowDone(t, o, k, p, RowStep(t, o, p, k))
  {
    RestIsLead(t.cells[k]);
    NoNameIs(o, t.cells[k]);
    ForeignIsMovable(o, t.cells[k], t.models[k]);
    hide WellCut, HasName, Nameless, Movable, Foreign, LeadPlan, OpensWithRest, AfterRest, GivesAway, TakesLine;
    hide NameStep, StrayStep;
    var led := LeadStep(t, p, k);
    assert Led(t, k, p, led.planned);
    NameStepDoes(t, o, led, k);
    StrayStepDoes(t, o, led, k);
    StartsAlike(t, o, k, p, led);
  }

  /** Neither rule looks at the plans made so far. */
  lemma StartsAlike(t: Table, o: Oracle, k: nat, p: Plans, led: Plans)
    requires t.Valid() && k < |t.cells| && led == p.(planned := led.planned)
    ensures forall q :: TakesLine(t, o, k, led, q) == TakesLine(t, o, k, p, q)
    ensures forall q :: GivesAway(t, o, k, led.planned, led, q) == GivesAway(t, o, k, led.planned, p, q)
  {
    hide WellCut, OnlyLine, Prose, Left, LeavesFor, Proven;
  }

  /** The pass treats the rows one after the other. */
  lemma RowsDone(t: Table, o: Oracle, n: nat)
    requires t.Valid() && n < |t.cells|
    ensures RowsTo(t, o, 0) == Plans(map[], map[], {}, [])
    ensures RowDone(t, o, n, RowsTo(t, o, n), RowsTo(t, o, n + 1))
  {
    RowStepDoes(t, o, RowsTo(t, o, n), n);
    hide RowStep, RowDone, WellCut;
  }

  // ---- an entry of the resolver's answer ---------------------------------------------------------------------- //

  /** As many assignments as the cell has runs, and no run twice. */
  ghost predicate EachOnce(a: seq<Assignment>, n: nat) {
    && |a| == n && (forall i | 0 <= i < |a| :: a[i].segment < n)
    && forall i, j | 0 <= i < j < |a| :: a[i].segment != a[j].segment
  }

  /** The one assignment that leaves a run in its row. */
  ghost predicate Keeps(a: seq<Assignment>, i: nat) {
    && i < |a| && a[i].owner.ThisRow?
    && forall j | 0 <= j < |a| && a[j].owner.ThisRow? :: j == i
  }

  /** The first row whose model the name names. */
  ghost predicate NamedRow(t: Table, o: Oracle, name: string, target: nat) {
    && target < |t.models| && o.names(name, t.models[target])
    && forall j: nat | j < target :: !o.names(name, t.models[j])
  }

  /** Assignment `i` moves its run to the target. */
  ghost predicate MovesAt(t: Table, o: Oracle, a: seq<Assignment>, i: nat, target: nat) {
    i < |a| && a[i].owner.Model? && NamedRow(t, o, a[i].owner.name, target)
  }

  ghost predicate MayMove(t: Table, o: Oracle, k: nat, a: seq<Assignment>, i: nat)
    requires k < |t.cells| == |t.models| && i < |a|
  {
    a[i].owner.Model? ==>
      exists target: nat ::
        MovesAt(t, o, a, i, target) && Nameless(o, t.cells[target]) && InOrder(t.cells[k], a[i].segment, k, target)
  }

  /** Nothing is held against what stays in the row. */
  ghost predicate Tolerable(o: Oracle, text: string, model: string) {
    |model| == 0 || |o.codes(text)| == 0 || CodeOf(o, text, model)
  }

  /** An entry that is applied: about a row asked about, every run assigned once, one of
      them to the row itself, which it may name, the others to nameless rows in order. */
  ghost predicate Fits(t: Table, o: Oracle, asked: seq<nat>, e: Entry)
    requires |t.models| == |t.cells| && forall i | 0 <= i < |asked| :: asked[i] < |t.cells|
  {
    && e.cell.Some? && e.cell.value < |asked|
    && var k := asked[e.cell.value];
       var a, prose := e.assignments, Prose(t.cells[k]);
       && EachOnce(a, |prose|)
       && (exists mine: nat :: Keeps(a, mine) && Tolerable(o, prose[a[mine].segment].text, t.models[k]))
       && forall i | 0 <= i < |a| :: MayMove(t, o, k, a, i)
  }

  lemma {:induction false} Image(a: seq<Assignment>, n: nat)
    requires n <= |a|
    ensures |set i | 0 <= i < n :: a[i].segment| <= n
    ensures |set i | 0 <= i < n :: a[i].segment| == n ==> forall i, j | 0 <= i < j < n :: a[i].segment != a[j].segment
    ensures (forall i, j | 0 <= i < j < n :: a[i].segment != a[j].segment) ==> |set i | 0 <= i < n :: a[i].segment| == n
  {
    var all := set i | 0 <= i < n :: a[i].segment;
    if n == 0 {
      assert all == {};
    } else {
      Image(a, n - 1);
      var front := set i | 0 <= i < n - 1 :: a[i].segment;
      assert all == front + {a[n - 1].segment};
    }
  }

  function Below(n: nat): set<nat> { if n == 0 then {} else Below(n - 1) + {n - 1} }

  lemma {:induction false} BelowIs(n: nat)
    ensures |Below(n)| == n && forall s: nat :: s in Below(n) <==> s < n
  {
    if n > 0 {
      BelowIs(n - 1);
    }
  }

  lemma CoveredOnce(a: seq<Assignment>, n: nat)
    ensures CoversRuns(a, n) <==> EachOnce(a, n)
  {
    Image(a, |a|);
    BelowIs(n);
    var image := set i | 0 <= i < |a| :: a[i].segment;
    if CoversRuns(a, n) {
      forall s | s in Below(n) ensures s in image {
        assert Assigned(a, s);
      }
      assert image == Below(n);
    } else if EachOnce(a, n) {
      assert image <= Below(n);
      SameSize(image, Below(n));
      forall s: nat | s < n ensures Assigned(a, s) {
        assert s in image;
      }
    }
  }

  lemma SameSize(a: set<nat>, b: set<nat>)
    requires a <= b && |a| == |b|
    ensures a == b
  {
    assert |b - a| == 0;
  }

  lemma KeepsIs(a: seq<Assignment>)
    ensures forall i: nat ::
      i == ThisFrom(a, 0) < |a| && ThisFrom(a, i + 1) == |a| <==> Keeps(a, i)
  {
    var first := ThisFrom(a, 0);
    NoneBefore(a, 0);
    if first < |a| {
      NoneBefore(a, first + 1);
    }
    forall i: nat | Keeps(a, i) ensures i == first && ThisFrom(a, i + 1) == |a| {
    }
  }

  lemma {:induction false} NoneBefore(a: seq<Assignment>, from: nat)
    requires from <= |a|
    ensures forall j | from <= j < ThisFrom(a, from) :: a[j].owner.Model?
    decreases |a| - from
  {
    if from < |a| && a[from].owner != ThisRow {
      NoneBefore(a, from + 1);
    }
  }

  lemma FirstNamedIs(t: Table, o: Oracle, name: string)
    ensures forall target: nat :: target == FirstNamed(t, o, name, 0) && target < |t.models| <==> NamedRow(t, o, name, target)
  {
    NotNamedBefore(t, o, name, 0);
  }

  lemma {:induction false} NotNamedBefore(t: Table, o: Oracle, name: string, from: nat)
    requires from <= |t.models|
    ensures forall j | from <= j < FirstNamed(t, o, name, from) :: !o.names(name, t.models[j])
    decreases |t.models| - from
  {
    if from < |t.models| && !o.names(name, t.models[from]) {
      NotNamedBefore(t, o, name, from + 1);
    }
  }

  lemma MoveMay(t: Table, o: Oracle, k: nat, a: seq<Assignment>, i: nat)
    requires k < |t.cells| == |t.models| && i < |a| && a[i].segment < |Prose(t.cells[k])|
    ensures MoveOk(t, o, k, a[i]) <==> MayMove(t, o, k, a, i)
  {
    hide HasName, Nameless, Prose, KeepsOrder, InOrder, FirstNamed, NamedRow;
    if a[i].owner.Model? {
      FirstNamedIs(t, o, a[i].owner.name);
      var target := FirstNamed(t, o, a[i].owner.name, 0);
      if target < |t.models| {
        assert MovesAt(t, o, a, i, target);
        NoNameIs(o, t.cells[target]);
        OrderIs(t.cells[k], a[i].segment, k, target);
      }
    }
  }

  lemma ToleratedIs(o: Oracle, text: string, model: string)
    ensures Contradicts(o, text, model) <==> !Tolerable(o, text, model)
  {
    EchoIsCode(o, text, model);
    hide Echoes;
  }

  lemma FitsExactly(t: Table, o: Oracle, asked: seq<nat>, e: Entry)
    requires |t.models| == |t.cells| && forall i | 0 <= i < |asked| :: asked[i] < |t.cells|
    ensures Accepts(t, o, asked, e) <==> Fits(t, o, asked, e)
  {
    if e.cell.Some? && e.cell.value < |asked| {
      var k, a := asked[e.cell.value], e.assignments;
      var prose := Prose(t.cells[k]);
      hide Prose, MoveOk, MayMove, Contradicts, Tolerable;
      CoveredOnce(a, |prose|);
      hide CoversRuns, EachOnce;
      KeepsIs(a);
      if CoversRuns(a, |prose|) {
        SegmentsFit(a, |prose|);
        var mine := ThisFrom(a, 0);
        if mine < |a| {
          ToleratedIs(o, prose[a[mine].segment].text, t.models[k]);
        }
        forall i | 0 <= i < |a| ensures MoveOk(t, o, k, a[i]) <==> MayMove(t, o, k, a, i) {
          MoveMay(t, o, k, a, i);
        }
      }
      hide ThisFrom, Keeps;
    }
  }

  lemma SegmentsFit(a: seq<Assignment>, n: nat)
    requires CoversRuns(a, n)
    ensures forall i | 0 <= i < |a| :: a[i].segment < n
  {
  }

  /** The last of the first `n` assignments that moves its run to the target. */
  ghost function LastMove(t: Table, o: Oracle, a: seq<Assignment>, n: nat, target: nat): (i: Option<nat>)
    requires n <= |a|
    ensures i.Some? ==> i.value < n && MovesAt(t, o, a, i.value, target)
    ensures forall j: nat | (if i.Some? then i.value < j else true) && j < n :: !MovesAt(t, o, a, j, target)
  {
    if n == 0 then None else if MovesAt(t, o, a, n - 1, target) then Some(n - 1) else LastMove(t, o, a, n - 1, target)
  }

  /** The target is given that run; without such an assignment it keeps what it had. */
  ghost predicate EntryGives(t: Table, o: Oracle, k: nat, a: seq<Assignment>, n: nat,
                             before: map<nat, Donation>, after: map<nat, Donation>, target: nat)
    requires k < |t.cells| && n <= |a| && forall i | 0 <= i < |a| :: a[i].segment < |Prose(t.cells[k])|
  {
    var last := LastMove(t, o, a, n, target);
    if last.Some? then
      var s := a[last.value].segment;
      target in after && after[target] == Donation(Prose(t.cells[k])[s].text, Resolved(k, s))
    else (target in after <==> target in before) && (target in after ==> after[target] == before[target])
  }

  lemma MovedSame(before: map<nat, Donation>, a: seq<Move>, b: seq<Move>, n: nat)
    requires n <= |a| && n <= |b| && forall i | 0 <= i < n :: a[i] == b[i]
    ensures Moved(before, a, n) == Moved(before, b, n)
  {
    if n > 0 {
      MovedSame(before, a, b, n - 1);
    }
  }

  lemma {:induction false} MovesGive(t: Table, o: Oracle, k: nat, a: seq<Assignment>, n: nat, before: map<nat, Donation>,
                                     target: nat)
    requires k < |t.cells| == |t.models| && n <= |a| && forall i | 0 <= i < |a| :: a[i].segment < |Prose(t.cells[k])|
    requires forall i | 0 <= i < |a| :: MayMove(t, o, k, a, i)
    ensures var moves := MovesTo(t, o, k, a, n);
      EntryGives(t, o, k, a, n, before, Moved(before, moves, |moves|), target)
  {
    hide Prose, MovesAt, FirstNamed, MayMove;
    if n > 0 {
      MovesGive(t, o, k, a, n - 1, before, target);
      MovesNext(t, o, k, a, n - 1, before);
      if a[n - 1].owner.Model? {
        MovesOne(t, o, k, a, n - 1);
        assert MovesAt(t, o, a, n - 1, target) <==> target == FirstNamed(t, o, a[n - 1].owner.name, 0);
      } else {
        StaysPut(t, o, a, n - 1);
      }
      hide MovesTo, Moved;
    }
  }

  lemma MovesNext(t: Table, o: Oracle, k: nat, a: seq<Assignment>, i: nat, before: map<nat, Donation>)
    requires k < |t.cells| && i < |a| && forall j | 0 <= j < |a| :: a[j].segment < |Prose(t.cells[k])|
    ensures var moves, all := MovesTo(t, o, k, a, i), MovesTo(t, o, k, a, i + 1);
      Moved(before, all, |all|)
      == if a[i].owner.ThisRow? then Moved(before, moves, |moves|)
         else Moved(before, moves, |moves|)[FirstNamed(t, o, a[i].owner.name, 0) :=
                Donation(Prose(t.cells[k])[a[i].segment].text, Resolved(k, a[i].segment))]
  {
    hide Prose, FirstNamed;
    var moves, all := MovesTo(t, o, k, a, i), MovesTo(t, o, k, a, i + 1);
    if a[i].owner.Model? {
      assert all == moves + [all[|moves|]];
      MovedSame(before, all, moves, |moves|);
    }
  }

  lemma StaysPut(t: Table, o: Oracle, a: seq<Assignment>, i: nat)
    requires i < |a| && a[i].owner.ThisRow?
    ensures forall target: nat :: !MovesAt(t, o, a, i, target)
  {
  }

  lemma MovesOne(t: Table, o: Oracle, k: nat, a: seq<Assignment>, i: nat)
    requires k < |t.cells| == |t.models| && i < |a| && a[i].owner.Model? && MayMove(t, o, k, a, i)
    ensures forall target: nat :: MovesAt(t, o, a, i, target) <==> target == FirstNamed(t, o, a[i].owner.name, 0)
  {
    FirstNamedIs(t, o, a[i].owner.name);
    hide Nameless, InOrder, NamedRow, FirstNamed;
  }

  /** One entry of the answer. */
  ghost predicate EntryDone(t: Table, o: Oracle, asked: seq<nat>, e: Entry, p: Plans, q: Plans)
    requires |t.models| == |t.cells| && forall i | 0 <= i < |asked| :: asked[i] < |t.cells|
  {
    if !Fits(t, o, asked, e) then q == p
    else
      var k := asked[e.cell.value];
      && q.used == p.used && q.unresolved == p.unresolved
      && (forall mine: nat | Keeps(e.assignments, mine) ::
            q.planned == p.planned[k := Prose(t.cells[k])[e.assignments[mine].segment].text])
      && forall target: nat :: EntryGives(t, o, k, e.assignments, |e.assignments|, p.donated, q.donated, target)
  }

  lemma EntryStepDoes(t: Table, o: Oracle, asked: seq<nat>, e: Entry, p: Plans)
    requires |t.models| == |t.cells| && forall i | 0 <= i < |asked| :: asked[i] < |t.cells|
    ensures EntryDone(t, o, asked, e, p, EntryStep(t, o, asked, e, p))
  {
    FitsExactly(t, o, asked, e);
    if Accepts(t, o, asked, e) {
      var k, a := asked[e.cell.value], e.assignments;
      CoveredOnce(a, |Prose(t.cells[k])|);
      SegmentsFit(a, |Prose(t.cells[k])|);
      KeepsIs(a);
      hide Prose, EntryGives, EachOnce, CoversRuns, Tolerable, MayMove;
      forall target: nat
        ensures EntryGives(t, o, k, a, |a|, p.donated, EntryStep(t, o, asked, e, p).donated, target)
      {
        MovesGive(t, o, k, a, |a|, p.donated, target);
      }
      hide Keeps, ThisFrom;
    }
  }

  /** The whole answer: entry by entry; the rows asked about are reported no more, unless
      the resolver failed on the way. */
  lemma EscalatedDoes(t: Table, o: Oracle, p: Plans, answer: Answer, n: nat)
    requires |t.models| == |t.cells| && forall i | 0 <= i < |p.unresolved| :: p.unresolved[i] < |t.cells|
    requires answer.Answered? && n < |answer.entries|
    ensures EntriesTo(t, o, p.unresolved, answer.entries, 0, p) == p
    ensures EntryDone(t, o, p.unresolved, answer.entries[n],
                      EntriesTo(t, o, p.unresolved, answer.entries, n, p),
                      EntriesTo(t, o, p.unresolved, answer.entries, n + 1, p))
    ensures var q, all := Escalated(t, o, p, answer), EntriesTo(t, o, p.unresolved, answer.entries, |answer.entries|, p);
      && q.planned == all.planned && q.donated == all.donated && q.used == all.used
      && q.unresolved == if answer.fails then all.unresolved else []
  {
    EntryStepDoes(t, o, p.unresolved, answer.entries[n], EntriesTo(t, o, p.unresolved, answer.entries, n, p));
    hide EntryDone, EntryStep;
  }

  // ---- what is written --------------------------------------------------------------------------------------------- //

  /** A row gets the text it was given, or else the text it is planned to keep, or else
      nothing changes; a row that is given a text keeps what was printed in its cell. */
  lemma WritesExactly(t: Table, planned: map<nat, string>, donated: map<nat, Donation>, k: nat,
                      before: Option<string>, printed: Option<string>)
    requires k < |t.cells|
    ensures k in donated && |donated[k].text| > 0 ==>
      && Final(planned, donated, k, before) == Some(donated[k].text)
      && FinalPrinted(t, donated, k, printed) == Some(if printed.Some? then printed.value else t.cells[k].original)
    ensures !(k in donated && |donated[k].text| > 0) ==>
      && Final(planned, donated, k, before) == (if k in planned && |planned[k]| > 0 then Some(planned[k]) else before)
      && FinalPrinted(t, donated, k, printed) == printed
  {
  }

  // ---- how the pass ends --------------------------------------------------------------------------------------------- //

  /** The places of a capital or digit in a text, in either case. */
  function Places(s: string, c: char): set<nat> {
    set i | 0 <= i < |s| && (s[i] == c || ('a' <= s[i] <= 'z' && s[i] as int - 32 == c as int))
  }

  predicate Compared(c: char) { 'A' <= c <= 'Z' || '0' <= c <= '9' }

  /** What is compared of a text is how often it shows every letter and digit. */
  lemma {:induction false} NormalCounts(s: string, n: nat, c: char)
    requires n <= |s|
    ensures multiset(NormalTo(s, n))[c] == if Compared(c) then |Places(s[..n], c)| else 0
  {
    hide Places, NormalTo, NormalChar, Compared;
    if n == 0 {
      NoPlaces(s, c);
    } else {
      NormalCounts(s, n - 1, c);
      CharPlaces(s, n - 1, c);
      NormalNext(s, n);
      assert multiset(NormalTo(s, n - 1) + NormalChar(s[n - 1])) == multiset(NormalTo(s, n - 1)) + multiset(NormalChar(s[n - 1]));
    }
  }

  lemma NoPlaces(s: string, c: char)
    ensures Places(s[..0], c) == {} && NormalTo(s, 0) == []
  {
  }

  lemma NormalNext(s: string, n: nat)
    requires 0 < n <= |s|
    ensures NormalTo(s, n) == NormalTo(s, n - 1) + NormalChar(s[n - 1])
  {
  }

  lemma CharPlaces(s: string, n: nat, c: char)
    requires n < |s|
    ensures Compared(c) ==> |Places(s[..n + 1], c)| == |Places(s[..n], c)| + multiset(NormalChar(s[n]))[c]
    ensures !Compared(c) ==> multiset(NormalChar(s[n]))[c] == 0
  {
    var here := s[n] == c || ('a' <= s[n] <= 'z' && s[n] as int - 32 == c as int);
    assert Places(s[..n + 1], c) == Places(s[..n], c) + if here then {n} else {};
    assert Compared(c) ==> (NormalChar(s[n]) == if here then [c] else NormalChar(s[n]));
    assert Compared(c) && !here ==> c !in NormalChar(s[n]);
  }

  /** All that the rows show, and all that the document printed for them. */
  ghost function Shown(ds: seq<Option<string>>): string { JoinTo(ds, |ds|) }

  ghost function PrintedFor(t: Table): string {
    JoinTo(Originals(t), |t.cells|) + FragmentsTo(t.fragments, |t.fragments|)
  }

  /** Some letter or digit is shown more often than it was printed. */
  ghost predicate Invents(shown: string, printed: string) {
    exists c: char :: Compared(c) && |Places(shown, c)| > |Places(printed, c)|
  }

  lemma InventsExactly(shown: string, printed: string)
    ensures SubMultiset(Normal(shown), Normal(printed)) <==> !Invents(shown, printed)
  {
    hide Places, NormalTo;
    forall c: char
      ensures multiset(Normal(shown))[c] <= multiset(Normal(printed))[c]
         <==> !(Compared(c) && |Places(shown, c)| > |Places(printed, c)|)
    {
      NormalCounts(shown, |shown|, c);
      NormalCounts(printed, |printed|, c);
      assert shown[..|shown|] == shown && printed[..|printed|] == printed;
    }
  }

  /** Cut short exactly by a deadline while somebody has to be asked; else untouched if
      nothing was decided, rolled back if the result shows more than was printed, and
      applied otherwise. */
  lemma EndsExactly(t: Table, o: Oracle, resolve: Option<Answer>, before: seq<Option<string>>)
    requires t.Valid()
    ensures var rows := RowsTo(t, o, |t.cells|);
      var outcome := Outcomes(t, o, resolve, before);
      && (outcome == Aborted <==> resolve == Some(Deadline) && |rows.unresolved| > 0)
      && (outcome != Aborted ==>
            && !CutShort(t, o, resolve)
            && var p := PlansFor(t, o, resolve);
               var nothing := |p.planned| == 0 && |p.donated| == 0;
               var shown := Shown(Finals(p.planned, p.donated, before));
               && (outcome == Untouched <==> nothing)
               && (outcome == RolledBack <==> !nothing && Invents(shown, PrintedFor(t)))
               && (outcome == Applied <==> !nothing && !Invents(shown, PrintedFor(t))))
  {
    hide RowsTo, PlansFor, Finals, Invents, SubMultiset, Normal, WellCut;
    if !CutShort(t, o, resolve) {
      var p := PlansFor(t, o, resolve);
      InventsExactly(Shown(Finals(p.planned, p.donated, before)), PrintedFor(t));
    }
  }

  /** What is decided: the rows alone, or the answer on top if somebody was asked. */
  lemma DecidedExactly(t: Table, o: Oracle, resolve: Option<Answer>)
    requires t.Valid() && !CutShort(t, o, resolve)
    ensures var rows := RowsTo(t, o, |t.cells|);
      if resolve.None? || |rows.unresolved| == 0 then PlansFor(t, o, resolve) == rows
      else
        && resolve.value.Answered? && (forall i | 0 <= i < |rows.unresolved| :: rows.unresolved[i] < |t.cells|)
        && PlansFor(t, o, resolve) == Escalated(t, o, rows, resolve.value)
  {
    hide RowsTo, Escalated, WellCut;
    assert Asked(t, o) == RowsTo(t, o, |t.cells|).unresolved;
  }
}
