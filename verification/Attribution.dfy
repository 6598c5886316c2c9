/** Moving misplaced goods names between the rows of one extracted table. */
module Attribution {
  import opened Options
  import opened Text
  import S = Segmentation

  /** One row's description cell, segmented once. */
  datatype Cell = Cell(original: string, text: string, segments: seq<S.Segment>)

  /** A name printed on a line that carries no values. */
  datatype Fragment = Fragment(page: int, text: string)

  /** What the pass reads: cells, MODEL and page columns, which rows already carry a
      printed original, and the names on value-less lines. */
  datatype Table = Table(
    cells: seq<Cell>, models: seq<string>, pages: seq<int>, preset: seq<bool>, fragments: seq<Fragment>)
  {
    ghost predicate Valid() {
      |models| == |pages| == |preset| == |cells| && forall i | 0 <= i < |cells| :: WellCut(cells[i])
    }
  }

  /** The vocabulary-dependent judgements, arbitrary here. */
  datatype Oracle = Oracle(
    codes: string -> seq<string>,                // part_codes
    matches: (string, string) -> bool,           // model_matches
    names: (string, string) -> bool,             // a resolver's owner names a MODEL cell
    codeOnly: string -> bool)                    // is_code_only

  /** As `segment_description` leaves it. */
  ghost predicate WellCut(c: Cell) {
    S.TilesTo(c.text, c.segments, |c.text|) && Squeeze(c.text) == Squeeze(c.original)
  }

  function ProseTo(segments: seq<S.Segment>, n: nat): (prose: seq<S.Segment>)
    requires n <= |segments|
    ensures |prose| <= n
    ensures forall k | 0 <= k < |prose| :: prose[k].kind == S.PROSE && prose[k] in segments
  {
    if n == 0 then []
    else ProseTo(segments, n - 1) + (if segments[n - 1].kind == S.PROSE then [segments[n - 1]] else [])
  }

  function Prose(c: Cell): seq<S.Segment> { ProseTo(c.segments, |c.segments|) }

  /** The annotation run the cell opens with. */
  function Lead(c: Cell): Option<S.Segment> {
    if c.segments != [] && c.segments[0].kind == S.ANN then Some(c.segments[0]) else None
  }

  predicate HasName(o: Oracle, c: Cell) {
    exists s | 0 <= s < |Prose(c)| :: !o.codeOnly(Prose(c)[s].text)
  }

  /** Some part code of the text identifies the model. */
  predicate Echoes(o: Oracle, text: string, model: string) {
    exists k | 0 <= k < |o.codes(text)| :: o.matches(o.codes(text)[k], model)
  }

  function FirstEcho(o: Oracle, prose: seq<S.Segment>, model: string, from: nat): (k: nat)
    requires from <= |prose|
    ensures from <= k <= |prose| && (k < |prose| ==> Echoes(o, prose[k].text, model))
    ensures forall i | from <= i < k :: !Echoes(o, prose[i].text, model)
    decreases |prose| - from
  {
    if from == |prose| || Echoes(o, prose[from].text, model) then from else FirstEcho(o, prose, model, from + 1)
  }

  /** `_own_prose`, as an index: the run that echoes the row's model, or the only one. */
  function Own(o: Oracle, c: Cell, model: string): (own: Option<nat>)
    ensures own.Some? ==> own.value < |Prose(c)|
  {
    var k := FirstEcho(o, Prose(c), model, 0);
    if model != [] && k < |Prose(c)| then Some(k)
    else if |Prose(c)| == 1 then Some(0)
    else None
  }

  /** G1 and G2: more than one run, one of them naming another model. */
  predicate Movable(o: Oracle, c: Cell, model: string) {
    && |Prose(c)| > 1
    && exists s | 0 <= s < |Prose(c)| ::
         o.codes(Prose(c)[s].text) != [] && !Echoes(o, Prose(c)[s].text, model)
  }

  // ---- proofs of ownership ----------------------------------------------------------------------- //

  predicate Near(a: int, b: int) { -1 <= a - b <= 1 }

  /** Row `k` could own the segment of row `j`: another row, on the same page or the
      next, whose model the segment echoes. */
  predicate Candidate(t: Table, o: Oracle, j: nat, text: string, k: nat)
    requires j < |t.cells| && k < |t.cells| && |t.models| == |t.pages| == |t.cells|
  {
    k != j && Near(t.pages[k], t.pages[j]) && Echoes(o, text, t.models[k])
  }

  /** A run moves forward only from the end of its cell, backward only from elsewhere. */
  predicate KeepsOrder(c: Cell, s: nat, from: nat, k: nat) {
    if s + 1 == |Prose(c)| then k >= from else k <= from
  }

  /** Where a donated text comes from. */
  datatype Origin =
    | Neighbour(row: nat, segment: nat)       // proven by a unique model echo
    | ValueLess(index: nat)                   // a value-less line's name, by a unique echo
    | Resolved(row: nat, segment: nat)        // chosen by the resolver, and validated

  datatype Donation = Donation(text: string, origin: Origin)

  ghost predicate IsRun(t: Table, j: nat, s: nat, text: string) {
    j < |t.cells| && s < |Prose(t.cells[j])| && Prose(t.cells[j])[s].text == text
  }

  /** The fragment could name row `k`. */
  predicate Hit(t: Table, o: Oracle, k: nat, i: nat)
    requires k < |t.models| && k < |t.pages|
  {
    i < |t.fragments| && Near(t.fragments[i].page, t.pages[k]) && Echoes(o, t.fragments[i].text, t.models[k])
  }

  // What the moves promise, spelled out: pages, codes and order.

  /** Row `k` stands on the page of row `j` or the one before or behind it, and a part code
      of the text identifies its model. */
  ghost predicate Answers(t: Table, o: Oracle, j: nat, text: string, k: nat) {
    && j < |t.pages| && k < |t.pages| && k < |t.models| && k != j
    && (t.pages[k] == t.pages[j] || t.pages[k] == t.pages[j] + 1 || t.pages[k] + 1 == t.pages[j])
    && exists c: string :: c in o.codes(text) && o.matches(c, t.models[k])
  }

  ghost predicate OnlyAnswer(t: Table, o: Oracle, j: nat, text: string, k: nat) {
    && k < |t.cells| && Answers(t, o, j, text, k)
    && forall other: nat | other < |t.cells| && Answers(t, o, j, text, other) :: other == k
  }

  /** All that the row shows is codes. */
  ghost predicate Nameless(o: Oracle, c: Cell) {
    forall seg | seg in c.segments && seg.kind == S.PROSE :: o.codeOnly(seg.text)
  }

  /** The last run of a cell goes to a row behind it, any other to a row before it. */
  ghost predicate InOrder(c: Cell, s: nat, from: nat, k: nat) {
    && (s + 1 == |Prose(c)| ==> from <= k)
    && (s + 1 < |Prose(c)| ==> k <= from)
  }

  /** The cell opens with an annotation, and a name follows somewhere. */
  ghost predicate OpensWithRest(c: Cell) {
    && |c.segments| > 0 && c.segments[0].kind == S.ANN
    && exists seg :: seg in c.segments && seg.kind == S.PROSE
  }

  /** The text behind that annotation. */
  ghost function AfterRest(c: Cell): string
    requires WellCut(c) && |c.segments| > 0
  {
    Strip(c.text[c.segments[0].end..])
  }

  lemma HasProse(c: Cell)
    ensures Prose(c) != [] <==> exists seg :: seg in c.segments && seg.kind == S.PROSE
  {
    ProseOf(c.segments, |c.segments|);
    assert c.segments[..|c.segments|] == c.segments;
    hide ProseTo;
    if Prose(c) != [] {
      assert Prose(c)[0] in Prose(c);
    }
  }

  lemma RestIsLead(c: Cell)
    requires WellCut(c)
    ensures LeadPlan(c) == if OpensWithRest(c) then Some(AfterRest(c)) else None
  {
    HasProse(c);
    hide Prose, Strip;
  }

  /** So for a name on a value-less line: its page, its codes, not used yet. */
  ghost predicate LineAnswers(t: Table, o: Oracle, used: set<nat>, k: nat, i: nat) {
    && i < |t.fragments| && k < |t.pages| && k < |t.models| && i !in used
    && var f := t.fragments[i];
    && (f.page == t.pages[k] || f.page == t.pages[k] + 1 || f.page + 1 == t.pages[k])
    && exists c: string :: c in o.codes(f.text) && o.matches(c, t.models[k])
  }

  ghost predicate OnlyLine(t: Table, o: Oracle, used: set<nat>, k: nat, i: nat) {
    && LineAnswers(t, o, used, k, i)
    && forall other: nat | LineAnswers(t, o, used, k, other) :: other == i
  }

  lemma EchoIsCode(o: Oracle, text: string, model: string)
    ensures Echoes(o, text, model) <==> exists c: string :: c in o.codes(text) && o.matches(c, model)
  {
    if c: string :| c in o.codes(text) && o.matches(c, model) {
      var k :| 0 <= k < |o.codes(text)| && o.codes(text)[k] == c;
    }
    if k :| 0 <= k < |o.codes(text)| && o.matches(o.codes(text)[k], model) {
      assert o.codes(text)[k] in o.codes(text);
    }
  }

  lemma CandidateAnswers(t: Table, o: Oracle, j: nat, text: string)
    requires j < |t.cells| && |t.models| == |t.pages| == |t.cells|
    ensures forall k: nat | k < |t.cells| :: Candidate(t, o, j, text, k) <==> Answers(t, o, j, text, k)
  {
    hide Echoes;
    forall k: nat | k < |t.cells|
      ensures Candidate(t, o, j, text, k) <==> Answers(t, o, j, text, k)
    {
      EchoIsCode(o, text, t.models[k]);
    }
  }

  lemma HitAnswers(t: Table, o: Oracle, k: nat)
    requires k < |t.models| && k < |t.pages|
    ensures forall used: set<nat>, i: nat :: i !in used && Hit(t, o, k, i) <==> LineAnswers(t, o, used, k, i)
  {
    hide Echoes;
    forall used: set<nat>, i: nat
      ensures i !in used && Hit(t, o, k, i) <==> LineAnswers(t, o, used, k, i)
    {
      if i < |t.fragments| {
        EchoIsCode(o, t.fragments[i].text, t.models[k]);
      }
    }
  }

  lemma {:induction false} ProseOf(segments: seq<S.Segment>, n: nat)
    requires n <= |segments|
    ensures forall seg :: seg in ProseTo(segments, n) <==> seg in segments[..n] && seg.kind == S.PROSE
  {
    if n > 0 {
      ProseOf(segments, n - 1);
      assert segments[..n] == segments[..n - 1] + [segments[n - 1]];
    }
  }

  lemma NoNameIs(o: Oracle, c: Cell)
    ensures HasName(o, c) <==> !Nameless(o, c)
  {
    ProseOf(c.segments, |c.segments|);
    assert c.segments[..|c.segments|] == c.segments;
    var prose := Prose(c);
    assert forall seg :: seg in prose <==> seg in c.segments && seg.kind == S.PROSE;
    hide ProseTo;
    if !Nameless(o, c) {
      var seg :| seg in c.segments && seg.kind == S.PROSE && !o.codeOnly(seg.text);
      var s :| 0 <= s < |prose| && prose[s] == seg;
      assert !o.codeOnly(Prose(c)[s].text);
    }
  }

  /** What justifies giving a text to row `k`. */
  ghost predicate Justified(t: Table, o: Oracle, k: nat, d: Donation)
    requires t.Valid()
  {
    && k < |t.cells| && !HasName(o, t.cells[k])
    && match d.origin
       case Neighbour(j, s) =>
         && IsRun(t, j, s, d.text) && Candidate(t, o, j, d.text, k) && KeepsOrder(t.cells[j], s, j, k)
         && Own(o, t.cells[j], t.models[j]) != Some(s)
         && (forall k' | 0 <= k' < |t.cells| && Candidate(t, o, j, d.text, k') :: k' == k)
       case ValueLess(i) =>
         Hit(t, o, k, i) && t.fragments[i].text == d.text && t.models[k] != [] && !t.preset[k]
       case Resolved(j, s) =>
         IsRun(t, j, s, d.text) && KeepsOrder(t.cells[j], s, j, k)
  }

  /** A stripped slice of the cell. */
  ghost predicate SliceOf(c: Cell, text: string) {
    exists a, b | 0 <= a <= b <= |c.text| :: text == Strip(c.text[a..b])
  }

  ghost predicate PlansSliced(t: Table, planned: map<nat, string>) {
    forall k <- planned :: k < |t.cells| && SliceOf(t.cells[k], planned[k])
  }

  ghost predicate AllJustified(t: Table, o: Oracle, donated: map<nat, Donation>)
    requires t.Valid()
  {
    forall k <- donated :: Justified(t, o, k, donated[k])
  }

  lemma ProseSliced(c: Cell, s: nat)
    requires WellCut(c) && s < |Prose(c)|
    ensures SliceOf(c, Prose(c)[s].text) && Prose(c)[s].text != []
  {
    hide Strip;
    hide ProseTo;
    hide S.Contiguous;
    hide Squeeze;
    var seg := Prose(c)[s];
    var i :| 0 <= i < |c.segments| && c.segments[i] == seg;
    assert S.Slices(c.text, c.segments);
    assert seg.text == Strip(c.text[seg.start..seg.end]);
  }

  /** The description a named row is planned to keep. */
  ghost function PlanFor(o: Oracle, c: Cell, model: string): Option<string>
    requires WellCut(c)
  {
    var own, lead := Own(o, c, model), LeadPlan(c);
    if Movable(o, c, model) && own.Some? then Some(Prose(c)[own.value].text) else lead
  }

  /** What is left of a cell that opens with the previous row's continuation. */
  function LeadPlan(c: Cell): Option<string>
    requires S.Slices(c.text, c.segments)
  {
    var lead := Lead(c);
    if lead.Some? && Prose(c) != [] then Some(Strip(c.text[lead.value.end..])) else None
  }

  lemma LeadSliced(c: Cell)
    requires WellCut(c) && LeadPlan(c).Some?
    ensures SliceOf(c, LeadPlan(c).value)
  {
    hide Strip;
    hide Squeeze;
    hide ProseTo;
    hide S.Contiguous;
    var a := Lead(c).value.end;
    assert c.text[a..] == c.text[a..|c.text|];
  }

  // ---- the pass ------------------------------------------------------------------------------------ //

  /** Keys of the first `n` rows only, and the plans of named rows as they should be. */
  ghost predicate PlannedTo(t: Table, o: Oracle, planned: map<nat, string>, n: nat)
    requires t.Valid() && n <= |t.cells|
  {
    && (forall k <- planned :: k < n)
    && forall k | 0 <= k < n && HasName(o, t.cells[k]) ::
         (k in planned <==> PlanFor(o, t.cells[k], t.models[k]).Some?)
         && (k in planned ==> planned[k] == PlanFor(o, t.cells[k], t.models[k]).value)
  }

  ghost predicate SamePlans(a: map<nat, string>, b: map<nat, string>, except: seq<nat>) {
    forall k: nat :: k !in except ==> (k in a <==> k in b) && (k in a ==> a[k] == b[k])
  }

  // ---- what the pass leaves on the rows ------------------------------------------------------------- //

  function OrEmpty(d: Option<string>): string { if d.Some? then d.value else "" }

  function JoinTo(ds: seq<Option<string>>, n: nat): string
    requires n <= |ds|
  {
    if n == 0 then [] else JoinTo(ds, n - 1) + OrEmpty(ds[n - 1])
  }

  function FragmentsTo(fs: seq<Fragment>, n: nat): string
    requires n <= |fs|
  {
    if n == 0 then [] else FragmentsTo(fs, n - 1) + fs[n - 1].text
  }

  function Originals(t: Table): seq<Option<string>> {
    seq(|t.cells|, i requires 0 <= i < |t.cells| => Some(t.cells[i].original))
  }

  function NormalChar(c: char): string {
    if 'A' <= Upper(c) <= 'Z' || '0' <= Upper(c) <= '9' then [Upper(c)] else []
  }

  /** `normalize_token`: upper-cased letters and digits. */
  function NormalTo(s: string, n: nat): string
    requires n <= |s|
  {
    if n == 0 then [] else NormalTo(s, n - 1) + NormalChar(s[n - 1])
  }

  function Normal(s: string): string { NormalTo(s, |s|) }

  /** Everything the document printed that the pass may draw from. */
  function Universe(t: Table): string {
    Normal(JoinTo(Originals(t), |t.cells|) + FragmentsTo(t.fragments, |t.fragments|))
  }

  /** `_is_submultiset`. */
  predicate SubMultiset(kept: string, before: string) { multiset(kept) <= multiset(before) }

  /** The description a row gets. */
  function Final(planned: map<nat, string>, donated: map<nat, Donation>, k: nat, before: Option<string>): Option<string> {
    if k in donated && donated[k].text != [] then Some(donated[k].text)
    else if k in planned && planned[k] != [] then Some(planned[k])
    else before
  }

  function Finals(planned: map<nat, string>, donated: map<nat, Donation>, before: seq<Option<string>>): seq<Option<string>> {
    seq(|before|, k requires 0 <= k < |before| => Final(planned, donated, k, before[k]))
  }

  /** A row that receives another text keeps what was printed in its own cell. */
  function FinalPrinted(t: Table, donated: map<nat, Donation>, k: nat, before: Option<string>): Option<string>
    requires k < |t.cells|
  {
    if k in donated && donated[k].text != [] && before.None? then Some(t.cells[k].original) else before
  }

  // ---- the resolver's answer: indices and model codes, never text ---------------------------------------- //

  datatype Owner = ThisRow | Model(name: string)

  datatype Assignment = Assignment(segment: nat, owner: Owner)

  /** `cell` indexes the cells asked about; None is an identifier nobody asked for. */
  datatype Entry = Entry(cell: Option<nat>, assignments: seq<Assignment>)

  /** `fails`: an exception after these entries, anything but a deadline. */
  datatype Answer = Deadline | Answered(entries: seq<Entry>, fails: bool)

  predicate Assigned(assignments: seq<Assignment>, s: nat) {
    exists i | 0 <= i < |assignments| :: assignments[i].segment == s
  }

  /** Every run of the cell assigned exactly once. */
  predicate CoversRuns(assignments: seq<Assignment>, n: nat) {
    && |assignments| == n && (forall i | 0 <= i < n :: assignments[i].segment < n)
    && forall s | 0 <= s < n :: Assigned(assignments, s)
  }

  function ThisFrom(assignments: seq<Assignment>, from: nat): (i: nat)
    requires from <= |assignments|
    ensures from <= i <= |assignments| && (i < |assignments| ==> assignments[i].owner == ThisRow)
    decreases |assignments| - from
  {
    if from == |assignments| || assignments[from].owner == ThisRow then from else ThisFrom(assignments, from + 1)
  }

  function FirstNamed(t: Table, o: Oracle, name: string, from: nat): (k: nat)
    requires from <= |t.models|
    ensures from <= k <= |t.models| && (k < |t.models| ==> o.names(name, t.models[k]))
    decreases |t.models| - from
  {
    if from == |t.models| || o.names(name, t.models[from]) then from else FirstNamed(t, o, name, from + 1)
  }

  // ---- what the pass decides, row by row --------------------------------------------------------------- //

  datatype Plans = Plans(planned: map<nat, string>, donated: map<nat, Donation>, used: set<nat>, unresolved: seq<nat>)

  /** Run s of row j can only belong to row k, which has no name, and would not jump over
      text on its way there. */
  ghost predicate TakesStray(t: Table, o: Oracle, j: nat, s: nat, k: nat)
    requires t.Valid() && j < |t.cells| && s < |Prose(t.cells[j])| && k < |t.cells|
  {
    var text := Prose(t.cells[j])[s].text;
    && Candidate(t, o, j, text, k) && (forall k' | 0 <= k' < |t.cells| && Candidate(t, o, j, text, k') :: k' == k)
    && !HasName(o, t.cells[k]) && KeepsOrder(t.cells[j], s, j, k)
  }

  ghost function StrayTarget(t: Table, o: Oracle, j: nat, s: nat): (k: Option<nat>)
    requires t.Valid() && j < |t.cells| && s < |Prose(t.cells[j])|
    ensures k.Some? ==> k.value < |t.cells| && TakesStray(t, o, j, s, k.value)
    ensures k.None? ==> forall k' | 0 <= k' < |t.cells| :: !TakesStray(t, o, j, s, k')
  {
    if exists k' | 0 <= k' < |t.cells| :: TakesStray(t, o, j, s, k') then
      var k' :| 0 <= k' < |t.cells| && TakesStray(t, o, j, s, k');
      Some(k')
    else None
  }

  ghost predicate IsStray(t: Table, o: Oracle, j: nat, s: nat)
    requires t.Valid() && j < |t.cells| && s < |Prose(t.cells[j])|
  {
    Own(o, t.cells[j], t.models[j]) != Some(s)
  }

  /** The donations after the first n runs of row j have been looked at. */
  ghost function Strays(t: Table, o: Oracle, j: nat, n: nat, donated: map<nat, Donation>): map<nat, Donation>
    requires t.Valid() && j < |t.cells| && n <= |Prose(t.cells[j])|
  {
    if n == 0 then donated
    else
      var d := Strays(t, o, j, n - 1, donated);
      if IsStray(t, o, j, n - 1) && StrayTarget(t, o, j, n - 1).Some? then
        d[StrayTarget(t, o, j, n - 1).value := Donation(Prose(t.cells[j])[n - 1].text, Neighbour(j, n - 1))]
      else d
  }

  ghost predicate AllPlaced(t: Table, o: Oracle, j: nat, n: nat)
    requires t.Valid() && j < |t.cells| && n <= |Prose(t.cells[j])|
  {
    forall s | 0 <= s < n && IsStray(t, o, j, s) :: StrayTarget(t, o, j, s).Some?
  }

  /** Fragment i is the only unused one that names row k. */
  ghost predicate OnlyHit(t: Table, o: Oracle, used: set<nat>, k: nat, i: nat)
    requires t.Valid() && k < |t.cells|
  {
    && t.models[k] != [] && i !in used && Hit(t, o, k, i)
    && forall i' | 0 <= i' < |t.fragments| && Hit(t, o, k, i') && i' !in used :: i' == i
  }

  ghost function Harvested(t: Table, o: Oracle, used: set<nat>, k: nat): (found: Option<nat>)
    requires t.Valid() && k < |t.cells|
    ensures found.Some? ==> OnlyHit(t, o, used, k, found.value)
    ensures found.None? ==> forall i: nat :: !OnlyHit(t, o, used, k, i)
  {
    if exists i: nat :: OnlyHit(t, o, used, k, i) then
      var i: nat :| OnlyHit(t, o, used, k, i);
      Some(i)
    else None
  }

  /** M1: the cell opens with the previous row's continuation. */
  ghost function LeadStep(t: Table, p: Plans, k: nat): Plans
    requires t.Valid() && k < |t.cells|
  {
    if LeadPlan(t.cells[k]).Some? then p.(planned := p.planned[k := LeadPlan(t.cells[k]).value]) else p
  }

  /** M5: the row has no name of its own. */
  ghost function NameStep(t: Table, o: Oracle, p: Plans, k: nat): Plans
    requires t.Valid() && k < |t.cells|
  {
    var found := Harvested(t, o, p.used, k);
    if found.None? then p
    else
      var used := p.(used := p.used + {found.value});
      if t.preset[k] then used
      else used.(donated := p.donated[k := Donation(t.fragments[found.value].text, ValueLess(found.value))])
  }

  /** M3: runs that name other rows leave; the run that names this one stays. */
  ghost function StrayStep(t: Table, o: Oracle, p: Plans, k: nat): Plans
    requires t.Valid() && k < |t.cells|
  {
    var own, prose := Own(o, t.cells[k], t.models[k]), Prose(t.cells[k]);
    p.(planned := if own.Some? then p.planned[k := prose[own.value].text] else p.planned,
       donated := Strays(t, o, k, |prose|, p.donated),
       unresolved := if AllPlaced(t, o, k, |prose|) then p.unresolved else p.unresolved + [k])
  }

  ghost function RowStep(t: Table, o: Oracle, p: Plans, k: nat): Plans
    requires t.Valid() && k < |t.cells|
  {
    var led := LeadStep(t, p, k);
    if !HasName(o, t.cells[k]) && k !in p.donated then NameStep(t, o, led, k)
    else if Movable(o, t.cells[k], t.models[k]) then StrayStep(t, o, led, k)
    else led
  }

  const NO_PLANS := Plans(map[], map[], {}, [])

  /** The plans after the first n rows. */
  ghost function RowsTo(t: Table, o: Oracle, n: nat): Plans
    requires t.Valid() && n <= |t.cells|
  {
    if n == 0 then NO_PLANS else RowStep(t, o, RowsTo(t, o, n - 1), n - 1)
  }

  // The resolver's answer, validated.

  /** V3, V5 and V6 for one assignment. */
  predicate MoveOk(t: Table, o: Oracle, k: nat, a: Assignment)
    requires k < |t.cells| == |t.models| && a.segment < |Prose(t.cells[k])|
  {
    a.owner == ThisRow ||
    var target := FirstNamed(t, o, a.owner.name, 0);
    target < |t.models| && !HasName(o, t.cells[target]) && KeepsOrder(t.cells[k], a.segment, k, target)
  }

  datatype Move = Move(target: nat, donation: Donation)

  function MovesTo(t: Table, o: Oracle, k: nat, assignments: seq<Assignment>, n: nat): seq<Move>
    requires k < |t.cells| && n <= |assignments|
    requires forall i | 0 <= i < |assignments| :: assignments[i].segment < |Prose(t.cells[k])|
  {
    if n == 0 then []
    else
      var moves, a := MovesTo(t, o, k, assignments, n - 1), assignments[n - 1];
      if a.owner == ThisRow then moves
      else
        var d := Donation(Prose(t.cells[k])[a.segment].text, Resolved(k, a.segment));
        moves + [Move(FirstNamed(t, o, a.owner.name, 0), d)]
  }

  function Moved(donated: map<nat, Donation>, moves: seq<Move>, n: nat): map<nat, Donation>
    requires n <= |moves|
  {
    if n == 0 then donated else Moved(donated, moves, n - 1)[moves[n - 1].target := moves[n - 1].donation]
  }

  /** The run that an entry leaves in its row. */
  function Mine(t: Table, k: nat, e: Entry): (s: nat)
    requires k < |t.cells| && CoversRuns(e.assignments, |Prose(t.cells[k])|) && ThisFrom(e.assignments, 0) < |e.assignments|
    ensures s < |Prose(t.cells[k])|
  {
    e.assignments[ThisFrom(e.assignments, 0)].segment
  }

  /** V1 to V6. */
  predicate Accepts(t: Table, o: Oracle, asked: seq<nat>, e: Entry)
    requires |t.models| == |t.cells| && forall i | 0 <= i < |asked| :: asked[i] < |t.cells|
  {
    && e.cell.Some? && e.cell.value < |asked|
    && var k := asked[e.cell.value];
       var mine := ThisFrom(e.assignments, 0);
       && CoversRuns(e.assignments, |Prose(t.cells[k])|)
       && mine < |e.assignments| && ThisFrom(e.assignments, mine + 1) == |e.assignments|
       && !Contradicts(o, Prose(t.cells[k])[Mine(t, k, e)].text, t.models[k])
       && forall i | 0 <= i < |e.assignments| :: MoveOk(t, o, k, e.assignments[i])
  }

  predicate Contradicts(o: Oracle, text: string, model: string) {
    model != [] && o.codes(text) != [] && !Echoes(o, text, model)
  }

  /** One entry: applied whole, or discarded whole. */
  function EntryStep(t: Table, o: Oracle, asked: seq<nat>, e: Entry, p: Plans): Plans
    requires |t.models| == |t.cells| && forall i | 0 <= i < |asked| :: asked[i] < |t.cells|
  {
    if !Accepts(t, o, asked, e) then p
    else
      var k := asked[e.cell.value];
      var moves := MovesTo(t, o, k, e.assignments, |e.assignments|);
      p.(planned := p.planned[k := Prose(t.cells[k])[Mine(t, k, e)].text],
         donated := Moved(p.donated, moves, |moves|))
  }

  /** The plans after the first n entries. */
  function EntriesTo(t: Table, o: Oracle, asked: seq<nat>, entries: seq<Entry>, n: nat, p: Plans): Plans
    requires |t.models| == |t.cells| && n <= |entries| && forall i | 0 <= i < |asked| :: asked[i] < |t.cells|
  {
    if n == 0 then p else EntryStep(t, o, asked, entries[n - 1], EntriesTo(t, o, asked, entries, n - 1, p))
  }

  /** S5.  What was applied before an exception stays applied, and the rows asked about
      stay reported. */
  function Escalated(t: Table, o: Oracle, p: Plans, answer: Answer): Plans
    requires |t.models| == |t.cells| && forall i | 0 <= i < |p.unresolved| :: p.unresolved[i] < |t.cells|
    requires answer.Answered?
  {
    var q := EntriesTo(t, o, p.unresolved, answer.entries, |answer.entries|, p);
    if answer.fails then q else q.(unresolved := [])
  }

  lemma RowReports(t: Table, o: Oracle, p: Plans, k: nat)
    requires t.Valid() && k < |t.cells|
    ensures var q := RowStep(t, o, p, k);
      || q.unresolved == p.unresolved
      || (q.unresolved == p.unresolved + [k]
          && Movable(o, t.cells[k], t.models[k]) && (HasName(o, t.cells[k]) || k in p.donated))
  {
    hide LeadPlan;
    hide Movable;
    hide AllPlaced;
    hide Strays;
    hide Harvested;
    hide HasName;
    hide WellCut;
  }

  lemma {:induction false} UnresolvedRows(t: Table, o: Oracle, n: nat)
    requires t.Valid() && n <= |t.cells|
    ensures forall i | 0 <= i < |RowsTo(t, o, n).unresolved| :: RowsTo(t, o, n).unresolved[i] < n
  {
    hide RowStep;
    hide Movable;
    hide HasName;
    hide WellCut;
    if n > 0 {
      UnresolvedRows(t, o, n - 1);
      RowReports(t, o, RowsTo(t, o, n - 1), n - 1);
    }
  }

  /** The rows the resolver is asked about. */
  ghost function Asked(t: Table, o: Oracle): (asked: seq<nat>)
    requires t.Valid()
    ensures forall i | 0 <= i < |asked| :: asked[i] < |t.cells|
  {
    UnresolvedRows(t, o, |t.cells|);
    RowsTo(t, o, |t.cells|).unresolved
  }

  /** Only a deadline cuts the pass short, and only if somebody had to be asked. */
  ghost predicate CutShort(t: Table, o: Oracle, resolve: Option<Answer>)
    requires t.Valid()
  {
    resolve == Some(Deadline) && Asked(t, o) != []
  }

  /** Everything the pass decides. */
  ghost function PlansFor(t: Table, o: Oracle, resolve: Option<Answer>): Plans
    requires t.Valid() && !CutShort(t, o, resolve)
  {
    var p := RowsTo(t, o, |t.cells|);
    if Asked(t, o) == [] || resolve.None? then p else Escalated(t, o, p, resolve.value)
  }

  /** The final texts would not be a sub-multiset of what was printed. */
  ghost predicate RollsBack(t: Table, p: Plans, before: seq<Option<string>>) {
    var final := Finals(p.planned, p.donated, before);
    !SubMultiset(Normal(JoinTo(final, |final|)), Universe(t))
  }

  class Pass {
    const t: Table
    const o: Oracle
    var planned: map<nat, string>
    var donated: map<nat, Donation>
    var used: set<nat>
    var unresolved: seq<nat>

    ghost predicate Valid()
      reads this
    {
      && t.Valid() && PlansSliced(t, planned) && AllJustified(t, o, donated)
      && forall u | 0 <= u < |unresolved| :: unresolved[u] < |t.cells| && Movable(o, t.cells[unresolved[u]], t.models[unresolved[u]])
    }

    ghost function Decided(): Plans
      reads this
    {
      Plans(planned, donated, used, unresolved)
    }

    constructor (t: Table, o: Oracle)
      requires t.Valid()
      ensures Valid() && this.t == t && this.o == o && Decided() == NO_PLANS
    {
      this.t, this.o := t, o;
      planned, donated, used, unresolved := map[], map[], {}, [];
    }

    /** `_harvest_name`: the one unused fragment that names the row, if it is one. */
    method HarvestName(k: nat) returns (found: Option<nat>)
      requires Valid() && k < |t.cells|
      modifies `used
      ensures found == Harvested(t, o, old(used), k)
      ensures used == if found.Some? then old(used) + {found.value} else old(used)
      ensures forall i: nat ::
        found == Some(i) <==> t.models[k] != [] && OnlyLine(t, o, old(used), k, i)
    {
      hide WellCut;
      hide Echoes;
      LineExactly(k);
      hide OnlyLine;
      if t.models[k] == [] {
        return None;
      }
      var hits: seq<nat> := [];
      for i := 0 to |t.fragments|
        invariant forall h | 0 <= h < |hits| :: hits[h] < i && Hit(t, o, k, hits[h]) && hits[h] !in used
        invariant forall j | 0 <= j < i && Hit(t, o, k, j) && j !in used :: j in hits
        invariant forall h, h' | 0 <= h < h' < |hits| :: hits[h] < hits[h']
      {
        if i !in used && Hit(t, o, k, i) {
          hits := hits + [i];
          assert i in hits;
        }
      }
      if |hits| != 1 {
        Rivals(hits, k);
        return None;
      }
      assert OnlyHit(t, o, used, k, hits[0]);
      used := used + {hits[0]};
      return Some(hits[0]);
    }

    lemma LineExactly(k: nat)
      requires t.Valid() && k < |t.cells|
      ensures forall i: nat :: OnlyHit(t, o, used, k, i) <==> t.models[k] != [] && OnlyLine(t, o, used, k, i)
    {
      HitAnswers(t, o, k);
      hide Hit, LineAnswers;
    }

    lemma Rivals(hits: seq<nat>, k: nat)
      requires Valid() && k < |t.cells| && |hits| != 1
      requires forall h | 0 <= h < |hits| :: hits[h] < |t.fragments| && Hit(t, o, k, hits[h]) && hits[h] !in used
      requires forall j | 0 <= j < |t.fragments| && Hit(t, o, k, j) && j !in used :: j in hits
      requires forall h, h' | 0 <= h < h' < |hits| :: hits[h] < hits[h']
      ensures forall i: nat :: !OnlyHit(t, o, used, k, i)
    {
      if |hits| >= 2 {
        assert hits[0] < hits[1] && Hit(t, o, k, hits[0]) && Hit(t, o, k, hits[1]);
      }
    }

    /** The only row a stray run can belong to. */
    method UniqueCandidate(j: nat, text: string) returns (target: Option<nat>)
      requires Valid() && j < |t.cells|
      ensures target.Some? ==>
        && target.value < |t.cells| && Candidate(t, o, j, text, target.value)
        && (forall k | 0 <= k < |t.cells| && Candidate(t, o, j, text, k) :: k == target.value)
      ensures target.None? ==> forall k | 0 <= k < |t.cells| && Candidate(t, o, j, text, k) ::
        exists k' | 0 <= k' < |t.cells| :: k' != k && Candidate(t, o, j, text, k')
      ensures forall k: nat :: target == Some(k) <==> OnlyAnswer(t, o, j, text, k)
    {
      CandidateAnswers(t, o, j, text);
      hide Candidate, Answers;
      target := None;
      var many := false;
      for k := 0 to |t.cells|
        invariant target.Some? ==> target.value < k && Candidate(t, o, j, text, target.value)
        invariant !many ==> forall k' | 0 <= k' < k && Candidate(t, o, j, text, k') :: target == Some(k')
        invariant many ==> target.Some? && exists k' | 0 <= k' < k :: k' != target.value && Candidate(t, o, j, text, k')
      {
        if Candidate(t, o, j, text, k) {
          if target.None? {
            target := Some(k);
          } else {
            assert k != target.value && Candidate(t, o, j, text, k);
            many := true;
          }
        }
      }
      if many {
        var first := target.value;
        ghost var other :| 0 <= other < |t.cells| && other != first && Candidate(t, o, j, text, other);
        target := None;
        forall k | 0 <= k < |t.cells| && Candidate(t, o, j, text, k)
          ensures exists k' | 0 <= k' < |t.cells| :: k' != k && Candidate(t, o, j, text, k')
        {
          assert if k == first then other != k else first != k;
        }
      }
    }

    method PlanLead(k: nat)
      requires Valid() && k < |t.cells|
      modifies `planned
      ensures Valid() && Decided() == LeadStep(t, old(Decided()), k)
      ensures planned == if OpensWithRest(t.cells[k]) then old(planned)[k := AfterRest(t.cells[k])] else old(planned)
    {
      hide AfterRest;
      hide SliceOf;
      hide Strip;
      hide Squeeze;
      hide Justified;
      hide Movable;
      hide Prose;
      hide S.Contiguous;
      var c := t.cells[k];
      var lead := Lead(c);
      if lead.Some? && Prose(c) != [] {
        LeadSliced(c);
        planned := planned[k := Strip(c.text[lead.value.end..])];
      }
      RestIsLead(c);
    }

    method NameFromFragment(k: nat)
      requires Valid() && k < |t.cells| && !HasName(o, t.cells[k])
      modifies `used, `donated
      ensures Valid() && Decided() == NameStep(t, o, old(Decided()), k)
      ensures planned == old(planned) && unresolved == old(unresolved)
      ensures forall i: nat | t.models[k] != [] && OnlyLine(t, o, old(used), k, i) ::
        && used == old(used) + {i}
        && donated == if t.preset[k] then old(donated) else old(donated)[k := Donation(t.fragments[i].text, ValueLess(i))]
      ensures t.models[k] == [] || (forall i: nat :: !OnlyLine(t, o, old(used), k, i)) ==>
        used == old(used) && donated == old(donated)
    {
      hide OnlyLine;
      hide WellCut;
      hide SliceOf;
      hide HasName;
      hide Movable;
      hide Echoes;
      var found := HarvestName(k);
      if found.Some? && !t.preset[k] {
        donated := donated[k := Donation(t.fragments[found.value].text, ValueLess(found.value))];
      }
    }

    /** M3, one run: give it to the one row it names, unless that row has a name or the
        order of the page would be broken. */
    method PlaceStray(k: nat, s: nat) returns (placed: bool)
      requires Valid() && k < |t.cells| && s < |Prose(t.cells[k])| && IsStray(t, o, k, s)
      modifies `donated
      ensures Valid() && placed == StrayTarget(t, o, k, s).Some?
      ensures donated ==
        if placed then old(donated)[StrayTarget(t, o, k, s).value := Donation(Prose(t.cells[k])[s].text, Neighbour(k, s))]
        else old(donated)
      ensures forall target: nat | OnlyAnswer(t, o, k, Prose(t.cells[k])[s].text, target) ::
        && (placed <==> Nameless(o, t.cells[target]) && InOrder(t.cells[k], s, k, target))
        && (placed ==> donated == old(donated)[target := Donation(Prose(t.cells[k])[s].text, Neighbour(k, s))])
      ensures (forall target: nat :: !OnlyAnswer(t, o, k, Prose(t.cells[k])[s].text, target)) ==> !placed
    {
      hide OnlyAnswer, Nameless;
      hide WellCut;
      hide SliceOf;
      hide HasName;
      hide Movable;
      hide Echoes;
      var stray := Prose(t.cells[k])[s];
      var target := UniqueCandidate(k, stray.text);
      if target.Some? {
        NoNameIs(o, t.cells[target.value]);
      }
      if target.None? || HasName(o, t.cells[target.value]) || !KeepsOrder(t.cells[k], s, k, target.value) {
        return false;
      }
      assert TakesStray(t, o, k, s, target.value);
      var d := Donation(stray.text, Neighbour(k, s));
      assert Justified(t, o, target.value, d);
      donated := donated[target.value := d];
      return true;
    }

    method PlanStrays(k: nat)
      requires Valid() && k < |t.cells| && Movable(o, t.cells[k], t.models[k])
      modifies `planned, `donated, `unresolved
      ensures Valid() && Decided() == StrayStep(t, o, old(Decided()), k)
    {
      hide WellCut;
      hide SliceOf;
      hide Justified;
      hide HasName;
      hide Movable;
      hide Own;
      hide Prose;
      hide TakesStray;
      var c := t.cells[k];
      var own := Own(o, c, t.models[k]);
      var resolvedAll := true;
      for s := 0 to |Prose(c)|
        invariant Valid() && unresolved == old(unresolved) && planned == old(planned) && used == old(used)
        invariant donated == Strays(t, o, k, s, old(donated)) && resolvedAll == AllPlaced(t, o, k, s)
      {
        if own != Some(s) {
          var placed := PlaceStray(k, s);
          resolvedAll := resolvedAll && placed;
        }
      }
      if own.Some? {
        ProseSliced(c, own.value);
        planned := planned[k := Prose(c)[own.value].text];
      }
      if !resolvedAll {
        unresolved := unresolved + [k];
      }
    }

    /** One row: M1, then M5 or M3. */
    method PlanRow(k: nat)
      requires Valid() && k < |t.cells|
      modifies this
      ensures Valid() && Decided() == RowStep(t, o, old(Decided()), k)
    {
      hide WellCut;
      hide SliceOf;
      hide Justified;
      hide HasName;
      hide Movable;
      hide Own;
      hide LeadPlan;
      hide Prose;
      hide StrayStep;
      hide NameStep;
      var c := t.cells[k];
      PlanLead(k);
      if !HasName(o, c) && k !in donated {
        NameFromFragment(k);
      } else if Movable(o, c, t.models[k]) {
        PlanStrays(k);
      }
    }

    /** The first pass over the rows. */
    method PlanRows()
      requires Valid() && Decided() == NO_PLANS
      modifies this
      ensures Valid() && Decided() == RowsTo(t, o, |t.cells|)
    {
      hide RowStep;
      for k := 0 to |t.cells|
        invariant Valid() && Decided() == RowsTo(t, o, k)
      {
        PlanRow(k);
      }
    }

    // ---- the resolver's answer, validated --------------------------------------------------------- //

    /** V3, V5 and V6 for the runs given to other rows. */
    method MovesOf(k: nat, assignments: seq<Assignment>) returns (ok: bool, moves: seq<Move>)
      requires Valid() && k < |t.cells|
      requires forall i | 0 <= i < |assignments| :: assignments[i].segment < |Prose(t.cells[k])|
      ensures ok <==> forall i | 0 <= i < |assignments| :: MoveOk(t, o, k, assignments[i])
      ensures ok ==> moves == MovesTo(t, o, k, assignments, |assignments|)
      ensures ok ==> forall i | 0 <= i < |moves| :: Justified(t, o, moves[i].target, moves[i].donation)
    {
      hide WellCut;
      hide SliceOf;
      hide HasName;
      hide Movable;
      hide Prose;
      ok, moves := true, [];
      for i := 0 to |assignments|
        invariant ok <==> forall j | 0 <= j < i :: MoveOk(t, o, k, assignments[j])
        invariant ok ==> moves == MovesTo(t, o, k, assignments, i)
        invariant ok ==> forall j | 0 <= j < |moves| :: Justified(t, o, moves[j].target, moves[j].donation)
      {
        var a := assignments[i];
        if ok && a.owner != ThisRow {
          var target := FirstNamed(t, o, a.owner.name, 0);
          if target == |t.models| || HasName(o, t.cells[target]) || !KeepsOrder(t.cells[k], a.segment, k, target) {
            ok := false;
          } else {
            moves := moves + [Move(target, Donation(Prose(t.cells[k])[a.segment].text, Resolved(k, a.segment)))];
          }
        }
      }
    }

    method Donate(moves: seq<Move>)
      requires Valid()
      requires forall i | 0 <= i < |moves| :: Justified(t, o, moves[i].target, moves[i].donation)
      modifies `donated
      ensures Valid() && donated == Moved(old(donated), moves, |moves|)
    {
      hide Justified;
      for i := 0 to |moves|
        invariant Valid() && donated == Moved(old(donated), moves, i)
      {
        donated := donated[moves[i].target := moves[i].donation];
      }
    }

    /** One entry: applied whole, or discarded whole. */
    method ApplyEntry(asked: seq<nat>, entry: Entry)
      requires Valid() && forall i | 0 <= i < |asked| :: asked[i] < |t.cells|
      modifies `planned, `donated
      ensures Valid() && Decided() == EntryStep(t, o, asked, entry, old(Decided()))
    {
      hide WellCut;
      hide SliceOf;
      hide Justified;
      hide HasName;
      hide Prose;
      hide Echoes;
      hide MoveOk;
      if entry.cell.None? || entry.cell.value >= |asked| {
        return;
      }
      var row := asked[entry.cell.value];
      var c, a := t.cells[row], entry.assignments;
      if !CoversRuns(a, |Prose(c)|) {
        return;
      }
      var mine := ThisFrom(a, 0);
      if mine == |a| || ThisFrom(a, mine + 1) < |a| {
        return;
      }
      var own := Prose(c)[a[mine].segment].text;
      if Contradicts(o, own, t.models[row]) {
        return;
      }
      var ok, moves := MovesOf(row, a);
      if !ok {
        return;
      }
      ProseSliced(c, a[mine].segment);
      planned := planned[row := own];
      Donate(moves);
    }

    method Escalate(answer: Answer) returns (aborted: bool)
      requires Valid()
      modifies `planned, `donated, `unresolved
      ensures Valid()
      ensures aborted <==> answer == Deadline
      ensures Decided() == if answer == Deadline then old(Decided()) else Escalated(t, o, old(Decided()), answer)
    {
      hide WellCut;
      hide SliceOf;
      hide Justified;
      hide Movable;
      hide Prose;
      hide Accepts;
      if answer == Deadline {
        return true;
      }
      aborted := false;
      for i := 0 to |answer.entries|
        invariant Valid() && unresolved == old(unresolved)
        invariant Decided() == EntriesTo(t, o, unresolved, answer.entries, i, old(Decided()))
      {
        ApplyEntry(unresolved, answer.entries[i]);
      }
      if !answer.fails {
        unresolved := [];
      }
    }

    method WriteRows(descriptions: array<Option<string>>, printed: array<Option<string>>)
      requires Valid() && descriptions != printed
      requires descriptions.Length == printed.Length == |t.cells|
      modifies descriptions, printed
      ensures descriptions[..] == Finals(planned, donated, old(descriptions[..]))
      ensures forall k | 0 <= k < |t.cells| :: printed[k] == FinalPrinted(t, donated, k, old(printed[k]))
    {
      hide WellCut;
      hide SliceOf;
      hide Justified;
      hide Movable;
      var n := |t.cells|;
      for k := 0 to n
        invariant forall j | k <= j < n :: descriptions[j] == old(descriptions[j])
        invariant forall j | 0 <= j < n :: printed[j] == old(printed[j])
        invariant forall j | 0 <= j < k :: descriptions[j] == Final(planned, map[], j, old(descriptions[j]))
      {
        if k in planned && planned[k] != [] {
          descriptions[k] := Some(planned[k]);
        }
      }
      for k := 0 to n
        invariant forall j | 0 <= j < k :: descriptions[j] == Final(planned, donated, j, old(descriptions[j]))
        invariant forall j | k <= j < n :: descriptions[j] == Final(planned, map[], j, old(descriptions[j]))
        invariant forall j | k <= j < n :: printed[j] == old(printed[j])
        invariant forall j | 0 <= j < k :: printed[j] == FinalPrinted(t, donated, j, old(printed[j]))
      {
        if k in donated && donated[k].text != [] {
          if printed[k].None? {
            printed[k] := Some(t.cells[k].original);
          }
          descriptions[k] := Some(donated[k].text);
        }
      }
    }

    method RollBack(descriptions: array<Option<string>>, printed: array<Option<string>>)
      requires descriptions != printed && descriptions.Length == printed.Length == |t.cells|
      modifies descriptions, printed
      ensures descriptions[..] == Originals(t)
      ensures forall k | 0 <= k < |t.cells| :: printed[k] == None
    {
      for k := 0 to |t.cells|
        invariant forall j | 0 <= j < k :: descriptions[j] == Some(t.cells[j].original) && printed[j] == None
      {
        descriptions[k] := Some(t.cells[k].original);
        printed[k] := None;
      }
    }

    /** Apply the plans and donations to the rows, then check that nothing was invented;
        if the check fails, put every row back. */
    method Apply(descriptions: array<Option<string>>, printed: array<Option<string>>) returns (rolledBack: bool)
      requires Valid() && descriptions != printed
      requires descriptions.Length == printed.Length == |t.cells|
      modifies descriptions, printed
      ensures var final := Finals(planned, donated, old(descriptions[..]));
        && (rolledBack <==> !SubMultiset(Normal(JoinTo(final, |final|)), Universe(t)))
        && descriptions[..] == (if rolledBack then Originals(t) else final)
      ensures forall k | 0 <= k < |t.cells| ::
        printed[k] == (if rolledBack then None else FinalPrinted(t, donated, k, old(printed[k])))
    {
      hide Valid;
      hide Final;
      hide JoinTo;
      hide Normal;
      hide SubMultiset;
      WriteRows(descriptions, printed);
      rolledBack := !SubMultiset(Normal(JoinTo(descriptions[..], |t.cells|)), Universe(t));
      if rolledBack {
        RollBack(descriptions, printed);
      }
    }
  }

  // ---- nothing is invented ------------------------------------------------------------------------------- //

  lemma {:induction false} SameJoin(a: seq<Option<string>>, b: seq<Option<string>>, n: nat)
    requires n <= |a| && n <= |b| && forall k | 0 <= k < n :: OrEmpty(a[k]) == OrEmpty(b[k])
    ensures JoinTo(a, n) == JoinTo(b, n)
  {
    if n > 0 {
      SameJoin(a, b, n - 1);
    }
  }

  lemma {:induction false} NormalPrefix(s: string, u: string, n: nat)
    requires n <= |s| && n <= |u| && forall i | 0 <= i < n :: s[i] == u[i]
    ensures NormalTo(s, n) == NormalTo(u, n)
  {
    if n > 0 {
      NormalPrefix(s, u, n - 1);
    }
  }

  lemma {:induction false} NormalTail(a: string, b: string, n: nat)
    requires n <= |b|
    ensures NormalTo(a + b, |a| + n) == Normal(a) + NormalTo(b, n)
  {
    if n == 0 {
      NormalPrefix(a + b, a, |a|);
    } else {
      NormalTail(a, b, n - 1);
    }
  }

  lemma NormalConcat(a: string, b: string)
    ensures SubMultiset(Normal(a), Normal(a + b))
  {
    NormalTail(a, b, |b|);
    hide NormalTo;
    var x, y := Normal(a), NormalTo(b, |b|);
    assert multiset(x + y) == multiset(x) + multiset(y);
  }

  /** The originals are among what was printed. */
  lemma OriginalsPrinted(t: Table, ds: seq<Option<string>>)
    requires |ds| == |t.cells| && forall k | 0 <= k < |ds| :: OrEmpty(ds[k]) == t.cells[k].original
    ensures SubMultiset(Normal(JoinTo(ds, |ds|)), Universe(t))
  {
    hide SubMultiset;
    hide Normal;
    SameJoin(ds, Originals(t), |ds|);
    NormalConcat(JoinTo(ds, |ds|), FragmentsTo(t.fragments, |t.fragments|));
  }

  // ---- every changed description is a slice ------------------------------------------------------------------ //

  /** The text is a stripped slice of some cell, or a fragment. */
  ghost predicate PrintedSomewhere(t: Table, text: string) {
    || (exists j | 0 <= j < |t.cells| :: SliceOf(t.cells[j], text))
    || (exists i | 0 <= i < |t.fragments| :: t.fragments[i].text == text)
  }

  lemma DonationPrinted(t: Table, o: Oracle, k: nat, d: Donation)
    requires t.Valid() && Justified(t, o, k, d)
    ensures PrintedSomewhere(t, d.text)
  {
    hide SliceOf;
    hide HasName;
    hide Prose;
    match d.origin {
      case Neighbour(j, s) => ProseSliced(t.cells[j], s);
      case ValueLess(i) =>
      case Resolved(j, s) => ProseSliced(t.cells[j], s);
    }
  }

  /** What a row may end up with, before any rollback. */
  ghost predicate RowSound(t: Table, o: Oracle, k: nat, before: Option<string>, after: Option<string>)
    requires k < |t.cells|
  {
    && (after != before ==> after.Some? && PrintedSomewhere(t, after.value))
    && (after != before && HasName(o, t.cells[k]) ==> SliceOf(t.cells[k], after.value))
  }

  lemma FinalSound(t: Table, o: Oracle, planned: map<nat, string>, donated: map<nat, Donation>, k: nat, before: Option<string>)
    requires t.Valid() && k < |t.cells| && PlansSliced(t, planned) && AllJustified(t, o, donated)
    ensures RowSound(t, o, k, before, Final(planned, donated, k, before))
  {
    hide SliceOf;
    hide HasName;
    hide WellCut;
    if k in donated {
      DonationPrinted(t, o, k, donated[k]);
      ToNameless(t, o, k, donated[k]);
    }
    hide Justified;
    if k in planned {
      assert SliceOf(t.cells[k], planned[k]);
    }
    hide PrintedSomewhere;
  }

  lemma ToNameless(t: Table, o: Oracle, k: nat, d: Donation)
    requires t.Valid() && Justified(t, o, k, d)
    ensures k < |t.cells| && !HasName(o, t.cells[k])
  {
  }

  // ---- what a reported row loses ----------------------------------------------------------------------------- //

  lemma {:induction false} VisibleGrows(s: string, a: nat, b: nat)
    requires a <= b <= |s|
    ensures |VisibleTo(s, a)| <= |VisibleTo(s, b)|
    decreases b
  {
    if a < b {
      VisibleGrows(s, a, b - 1);
    }
  }

  lemma VisibleSplit(s: string, a: nat, b: nat)
    requires a <= b <= |s|
    ensures VisibleTo(s, b) == VisibleTo(s, a) + Squeeze(s[a..b])
  {
    hide VisibleTo;
    hide IsSpace;
    var slice := s[a..b];
    assert a + |slice| == b;
    VisibleOfSlice(s, a, slice, |slice|);
  }

  lemma SliceVisible(s: string, a: nat, b: nat)
    requires a <= b <= |s|
    ensures |Squeeze(s[a..b])| == |VisibleTo(s, b)| - |VisibleTo(s, a)|
  {
    VisibleSplit(s, a, b);
    hide *;
  }

  lemma {:induction false} VisibleShows(s: string, i: nat, n: nat)
    requires i < n <= |s| && !IsSpace(s[i])
    ensures VisibleTo(s, n) != []
  {
    if i < n - 1 {
      VisibleShows(s, i, n - 1);
    }
  }

  /** A segment with a text holds visible characters. */
  lemma SegmentVisible(text: string, seg: S.Segment)
    requires seg.start < seg.end <= |text| && seg.text == Strip(text[seg.start..seg.end]) && seg.text != []
    ensures |VisibleTo(text, seg.start)| < |VisibleTo(text, seg.end)|
  {
    SliceVisible(text, seg.start, seg.end);
    SqueezeStrip(text[seg.start..seg.end]);
    VisibleShows(seg.text, 0, |seg.text|);
  }

  ghost predicate Ordered(segments: seq<S.Segment>) {
    forall k | 0 <= k < |segments| ::
      segments[k].start < segments[k].end && (k > 0 ==> segments[k - 1].end <= segments[k].start)
  }

  lemma TilesOrdered(text: string, segments: seq<S.Segment>)
    requires S.Slices(text, segments) && S.Contiguous(text, segments, |text|)
    ensures Ordered(segments)
  {
    hide Strip;
    hide IsSpace;
    forall k | 0 < k < |segments|
      ensures segments[k - 1].end <= segments[k].start
    {
      assert S.BlankBetween(text, S.EndBefore(segments, k), segments[k].start);
    }
  }

  lemma {:induction false} SegmentsOrdered(segments: seq<S.Segment>, i: nat, j: nat)
    requires Ordered(segments) && i < j < |segments|
    ensures segments[i].end <= segments[j].start
    decreases j
  {
    if i < j - 1 {
      SegmentsOrdered(segments, i, j - 1);
    }
  }

  /** Where a prose run stands among the segments. */
  lemma {:induction false} ProsePlace(segments: seq<S.Segment>, n: nat, a: nat) returns (i: nat)
    requires n <= |segments| && a < |ProseTo(segments, n)|
    ensures i < n && segments[i] == ProseTo(segments, n)[a] && segments[i].kind == S.PROSE
  {
    if segments[n - 1].kind == S.PROSE && a == |ProseTo(segments, n)| - 1 {
      return n - 1;
    }
    i := ProsePlace(segments, n - 1, a);
  }

  /** Two prose runs are two segments, in order. */
  lemma {:induction false} ProsePlaces(segments: seq<S.Segment>, n: nat, a: nat, b: nat) returns (i: nat, j: nat)
    requires n <= |segments| && a < b < |ProseTo(segments, n)|
    ensures i < j < n && segments[i] == ProseTo(segments, n)[a] && segments[j] == ProseTo(segments, n)[b]
  {
    if segments[n - 1].kind == S.PROSE && b == |ProseTo(segments, n)| - 1 {
      i := ProsePlace(segments, n - 1, a);
      return i, n - 1;
    }
    i, j := ProsePlaces(segments, n - 1, a, b);
  }

  /** Of two disjoint segments with texts, neither holds all that is visible. */
  lemma NeitherWhole(c: Cell, i: nat, j: nat)
    requires WellCut(c) && i < j < |c.segments|
    requires c.segments[i].text != [] && c.segments[j].text != []
    ensures |Squeeze(c.segments[i].text)| < |Squeeze(c.original)| && |Squeeze(c.segments[j].text)| < |Squeeze(c.original)|
  {
    var p, q := c.segments[i], c.segments[j];
    TilesOrdered(c.text, c.segments);
    SegmentsOrdered(c.segments, i, j);
    assert S.Slices(c.text, c.segments);
    assert p.start < p.end <= q.start < q.end <= |c.text|;
    SegmentVisible(c.text, p);
    SegmentVisible(c.text, q);
    SqueezeStrip(c.text[p.start..p.end]);
    SqueezeStrip(c.text[q.start..q.end]);
    SliceVisible(c.text, p.start, p.end);
    SliceVisible(c.text, q.start, q.end);
    VisibleGrows(c.text, p.end, q.start);
    VisibleGrows(c.text, q.end, |c.text|);
    hide *;
  }

  /** The run that stays is not all the cell printed. */
  lemma OwnLoses(c: Cell, s: nat)
    requires WellCut(c) && s < |Prose(c)| && |Prose(c)| > 1
    ensures |Squeeze(Prose(c)[s].text)| < |Squeeze(c.original)|
  {
    hide Squeeze;
    hide Strip;
    var other := if s == 0 then 1 else 0;
    ProseSliced(c, s);
    ProseSliced(c, other);
    var i, j := ProsePlaces(c.segments, |c.segments|, if s < other then s else other, if s < other then other else s);
    NeitherWhole(c, i, j);
  }

  /** What comes before the end of a leading run is its text. */
  lemma LeadHead(text: string, lead: S.Segment)
    requires S.BlankBetween(text, 0, lead.start) && lead.start < lead.end <= |text|
    requires lead.text == Strip(text[lead.start..lead.end])
    ensures VisibleTo(text, lead.end) == Squeeze(lead.text)
  {
    hide IsSpace;
    hide VisibleTo;
    hide Strip;
    var slice := text[lead.start..lead.end];
    SpaceInvisible(text, lead.start);
    SqueezeStrip(slice);
    VisibleSplit(text, lead.start, lead.end);
  }

  lemma SplitVisible(text: string, k: nat)
    requires k <= |text|
    ensures Squeeze(text) == VisibleTo(text, k) + Squeeze(text[k..])
  {
    hide VisibleTo;
    VisibleSplit(text, k, |text|);
    assert text[k..] == text[k..|text|];
  }

  lemma BlankText(s: string)
    requires s == [] || !IsSpace(s[0])
    ensures Squeeze(s) == [] <==> s == []
  {
    if s != [] {
      VisibleShows(s, 0, |s|);
    }
  }

  /** A leading run takes its visible characters with it, and only those. */
  lemma LeadLoses(c: Cell)
    requires WellCut(c) && LeadPlan(c).Some?
    ensures Squeeze(LeadPlan(c).value) == Squeeze(c.original) <==> Lead(c).value.text == []
  {
    hide VisibleTo;
    hide Strip;
    hide IsSpace;
    var lead := c.segments[0];
    assert S.Slices(c.text, c.segments) && S.BlankBetween(c.text, S.EndBefore(c.segments, 0), lead.start);
    hide S.Contiguous;
    hide ProseTo;
    LeadHead(c.text, lead);
    SplitVisible(c.text, lead.end);
    SqueezeStrip(c.text[lead.end..]);
    BlankText(lead.text);
  }

  /** What follows a place before a segment with a text is not blank. */
  lemma RestVisible(text: string, k: nat, seg: S.Segment)
    requires k <= seg.start < seg.end <= |text|
    requires seg.text == Strip(text[seg.start..seg.end]) && seg.text != []
    ensures Strip(text[k..]) != []
  {
    SegmentVisible(text, seg);
    VisibleGrows(text, k, seg.start);
    VisibleGrows(text, seg.end, |text|);
    SplitVisible(text, k);
    SqueezeStrip(text[k..]);
    assert Squeeze([]) == [];
    hide *;
  }

  /** Behind a leading run there is still a name. */
  lemma LeadKeepsProse(c: Cell)
    requires WellCut(c) && LeadPlan(c).Some?
    ensures LeadPlan(c).value != []
  {
    hide Strip;
    hide Squeeze;
    var i := ProsePlace(c.segments, |c.segments|, 0);
    TilesOrdered(c.text, c.segments);
    SegmentsOrdered(c.segments, 0, i);
    assert S.Slices(c.text, c.segments);
    hide S.Contiguous;
    RestVisible(c.text, c.segments[0].end, c.segments[i]);
  }

  // ---- the gate ------------------------------------------------------------------------------------------------ //

  /** Nothing visible of a reported row is lost exactly when no run of it is proven its
      own and it does not open with another row's. */
  ghost predicate StaysWhole(o: Oracle, c: Cell, model: string) {
    Own(o, c, model).None? && (Lead(c).None? || Lead(c).value.text == [])
  }

  lemma ReportedKeeps(o: Oracle, c: Cell, model: string)
    requires WellCut(c) && Movable(o, c, model)
    ensures var plan := PlanFor(o, c, model);
      && (plan.Some? ==> plan.value != [])
      && ((plan.Some? ==> Squeeze(plan.value) == Squeeze(c.original)) <==> StaysWhole(o, c, model))
  {
    hide Squeeze;
    hide Strip;
    hide S.TilesTo;
    var own := Own(o, c, model);
    if own.Some? {
      OwnLoses(c, own.value);
      ProseSliced(c, own.value);
    } else if Lead(c).Some? {
      LeadLoses(c);
      LeadKeepsProse(c);
    }
  }

  // ---- reported rows ---------------------------------------------------------------------------------------------- //

  /** What a row adds to the plans: for a named row, what it is planned to keep. */
  lemma RowAdds(t: Table, o: Oracle, p: Plans, k: nat)
    requires t.Valid() && k < |t.cells| && k !in p.planned
    ensures var q, plan := RowStep(t, o, p, k).planned, PlanFor(o, t.cells[k], t.models[k]);
      && SamePlans(q, p.planned, [k])
      && (HasName(o, t.cells[k]) ==> q == if plan.Some? then p.planned[k := plan.value] else p.planned)
  {
    hide LeadPlan;
    hide Movable;
    hide AllPlaced;
    hide Strays;
    hide Harvested;
    hide HasName;
    hide WellCut;
    hide Own;
    hide Prose;
    var led := LeadStep(t, p, k);
    assert StrayStep(t, o, led, k).planned == led.planned || Own(o, t.cells[k], t.models[k]).Some?;
  }

  lemma RowPlans(t: Table, o: Oracle, p: Plans, k: nat)
    requires t.Valid() && k < |t.cells| && PlannedTo(t, o, p.planned, k)
    ensures PlannedTo(t, o, RowStep(t, o, p, k).planned, k + 1)
  {
    hide PlanFor;
    hide RowStep;
    hide HasName;
    hide WellCut;
    RowAdds(t, o, p, k);
  }

  lemma {:induction false} RowsPlanned(t: Table, o: Oracle, n: nat)
    requires t.Valid() && n <= |t.cells|
    ensures PlannedTo(t, o, RowsTo(t, o, n).planned, n)
  {
    hide RowStep;
    hide PlanFor;
    if n > 0 {
      RowsPlanned(t, o, n - 1);
      RowPlans(t, o, RowsTo(t, o, n - 1), n - 1);
    }
  }

  /** One of the first n entries was applied to row k. */
  predicate SettledBy(t: Table, o: Oracle, asked: seq<nat>, entries: seq<Entry>, n: nat, k: nat)
    requires |t.models| == |t.cells| && n <= |entries| && forall i | 0 <= i < |asked| :: asked[i] < |t.cells|
  {
    exists i | 0 <= i < n :: Accepts(t, o, asked, entries[i]) && asked[entries[i].cell.value] == k
  }

  lemma EntryPlans(t: Table, o: Oracle, asked: seq<nat>, e: Entry, p: Plans, k: nat)
    requires t.Valid() && k < |t.cells| && forall i | 0 <= i < |asked| :: asked[i] < |t.cells|
    ensures var q := EntryStep(t, o, asked, e, p);
      if Accepts(t, o, asked, e) && asked[e.cell.value] == k then
        k in q.planned && exists s | 0 <= s < |Prose(t.cells[k])| :: q.planned[k] == Prose(t.cells[k])[s].text
      else (k in q.planned <==> k in p.planned) && (k in p.planned ==> q.planned[k] == p.planned[k])
  {
    hide WellCut;
    hide MoveOk;
    hide Prose;
    hide MovesTo;
    hide Moved;
    if Accepts(t, o, asked, e) && asked[e.cell.value] == k {
      assert Mine(t, k, e) < |Prose(t.cells[k])|;
    }
  }

  lemma {:induction false} EntriesPlans(t: Table, o: Oracle, asked: seq<nat>, entries: seq<Entry>, n: nat, p: Plans, k: nat)
    requires t.Valid() && k < |t.cells| && n <= |entries| && forall i | 0 <= i < |asked| :: asked[i] < |t.cells|
    ensures var q := EntriesTo(t, o, asked, entries, n, p);
      if SettledBy(t, o, asked, entries, n, k) then
        k in q.planned && exists s | 0 <= s < |Prose(t.cells[k])| :: q.planned[k] == Prose(t.cells[k])[s].text
      else (k in q.planned <==> k in p.planned) && (k in p.planned ==> q.planned[k] == p.planned[k])
  {
    hide WellCut;
    hide Prose;
    hide EntryStep;
    hide Accepts;
    if n > 0 {
      EntriesPlans(t, o, asked, entries, n - 1, p, k);
      EntryPlans(t, o, asked, entries[n - 1], EntriesTo(t, o, asked, entries, n - 1, p), k);
    }
  }

  /** What the resolver had been heard to say before it failed. */
  function Heard(resolve: Option<Answer>): seq<Entry> {
    if resolve.Some? && resolve.value.Answered? then resolve.value.entries else []
  }

  // Texts given to a row.

  /** The pass looks for rows that own the runs of row j: one of its runs names another
      row, and it has a name of its own or an earlier row has given it a text. */
  ghost predicate Looked(t: Table, o: Oracle, j: nat)
    requires t.Valid() && j < |t.cells|
    decreases j, 0
  {
    && Movable(o, t.cells[j], t.models[j])
    && (HasName(o, t.cells[j])
        || exists i, s | 0 <= i < j && 0 <= s < |Prose(t.cells[i])| :: RowGives(t, o, i, s, j))
  }

  ghost predicate StrayTo(t: Table, o: Oracle, i: nat, s: nat, k: nat)
    requires t.Valid() && i < |t.cells| && s < |Prose(t.cells[i])|
  {
    IsStray(t, o, i, s) && StrayTarget(t, o, i, s) == Some(k)
  }

  ghost predicate RowGives(t: Table, o: Oracle, i: nat, s: nat, k: nat)
    requires t.Valid() && i < |t.cells| && s < |Prose(t.cells[i])|
    decreases i, 1
  {
    Looked(t, o, i) && StrayTo(t, o, i, s, k)
  }

  ghost predicate EntryGives(t: Table, o: Oracle, asked: seq<nat>, entries: seq<Entry>, i: nat, a: nat, k: nat)
    requires |t.models| == |t.cells| && forall i | 0 <= i < |asked| :: asked[i] < |t.cells|
  {
    && i < |entries| && a < |entries[i].assignments| && Accepts(t, o, asked, entries[i])
    && MovesRun(t, o, entries[i].assignments[a], k)
  }

  predicate MovesRun(t: Table, o: Oracle, a: Assignment, k: nat) {
    a.owner != ThisRow && FirstNamed(t, o, a.owner.name, 0) == k
  }

  /** What an accepted entry gives: a run of the row it speaks of. */
  ghost function EntryGift(t: Table, o: Oracle, asked: seq<nat>, e: Entry, a: nat): (d: Donation)
    requires |t.models| == |t.cells| && forall i | 0 <= i < |asked| :: asked[i] < |t.cells|
    requires Accepts(t, o, asked, e) && a < |e.assignments|
    ensures d.origin.Resolved? && d.origin.row == asked[e.cell.value] < |t.cells| && d.origin.segment < |Prose(t.cells[d.origin.row])|
    ensures d.text == Prose(t.cells[d.origin.row])[d.origin.segment].text
  {
    var row, s := asked[e.cell.value], e.assignments[a].segment;
    Donation(Prose(t.cells[row])[s].text, Resolved(row, s))
  }

  /** What gives a row a text: a run of another row, or an assignment in a resolver's
      entry. */
  datatype Gift = FromRow(row: nat, run: nat) | FromEntry(entry: nat, assignment: nat)

  predicate Earlier(g: Gift, h: Gift) {
    match g
    case FromRow(i, s) => h.FromEntry? || i < h.row || (i == h.row && s < h.run)
    case FromEntry(i, a) => h.FromEntry? && (i < h.entry || (i == h.entry && a < h.assignment))
  }

  ghost predicate Gives(t: Table, o: Oracle, resolve: Option<Answer>, g: Gift, k: nat)
    requires t.Valid()
  {
    match g
    case FromRow(i, s) => i < |t.cells| && s < |Prose(t.cells[i])| && RowGives(t, o, i, s, k)
    case FromEntry(i, a) => EntryGives(t, o, Asked(t, o), Heard(resolve), i, a, k)
  }

  ghost function GiftText(t: Table, o: Oracle, resolve: Option<Answer>, g: Gift, k: nat): string
    requires t.Valid() && Gives(t, o, resolve, g, k)
  {
    match g
    case FromRow(i, s) => Prose(t.cells[i])[s].text
    case FromEntry(i, a) => EntryGift(t, o, Asked(t, o), Heard(resolve)[i], a).text
  }

  ghost predicate Given(t: Table, o: Oracle, resolve: Option<Answer>, k: nat)
    requires t.Valid()
  {
    exists g :: Gives(t, o, resolve, g, k)
  }

  ghost predicate LastGift(t: Table, o: Oracle, resolve: Option<Answer>, g: Gift, k: nat)
    requires t.Valid()
  {
    Gives(t, o, resolve, g, k) && forall h | Gives(t, o, resolve, h, k) :: h == g || Earlier(h, g)
  }

  /** A reported row keeps everything visible of its cell exactly when the text it was
      given last is all that, or it was given none, no run of it is proven its own, it
      does not open with another row's, and no entry was applied to it before the
      resolver failed. */
  ghost predicate ReportedRow(t: Table, o: Oracle, resolve: Option<Answer>, k: nat, after: Option<string>)
    requires t.Valid() && k < |t.cells|
  {
    var whole := Squeeze(t.cells[k].original);
    Squeeze(OrEmpty(after)) == whole <==>
      if Given(t, o, resolve, k) then
        exists g :: LastGift(t, o, resolve, g, k) && Squeeze(GiftText(t, o, resolve, g, k)) == whole
      else
        && StaysWhole(o, t.cells[k], t.models[k])
        && !SettledBy(t, o, Asked(t, o), Heard(resolve), |Heard(resolve)|, k)
  }

  lemma {:induction false} StraysGive(t: Table, o: Oracle, j: nat, n: nat, donated: map<nat, Donation>, k: nat)
    returns (last: Option<nat>)
    requires t.Valid() && j < |t.cells| && n <= |Prose(t.cells[j])|
    ensures var d := Strays(t, o, j, n, donated);
      if last.Some? then
        && last.value < n && StrayTo(t, o, j, last.value, k)
        && (forall s | 0 <= s < n && StrayTo(t, o, j, s, k) :: s <= last.value)
        && k in d && d[k] == Donation(Prose(t.cells[j])[last.value].text, Neighbour(j, last.value))
      else
        && (forall s | 0 <= s < n :: !StrayTo(t, o, j, s, k))
        && (k in d <==> k in donated) && (k in d ==> d[k] == donated[k])
  {
    hide WellCut;
    hide Prose;
    hide IsStray;
    hide TakesStray;
    if n == 0 {
      return None;
    }
    last := StraysGive(t, o, j, n - 1, donated, k);
    if StrayTo(t, o, j, n - 1, k) {
      last := Some(n - 1);
    }
  }

  /** The last run that the first n rows give to row k. */
  ghost predicate LastOfRows(t: Table, o: Oracle, n: nat, i: nat, s: nat, k: nat)
    requires t.Valid() && n <= |t.cells|
  {
    && i < n && s < |Prose(t.cells[i])| && RowGives(t, o, i, s, k)
    && forall i', s' | 0 <= i' < n && 0 <= s' < |Prose(t.cells[i'])| && RowGives(t, o, i', s', k) ::
         i' < i || (i' == i && s' <= s)
  }

  ghost predicate NoRowGives(t: Table, o: Oracle, n: nat, k: nat)
    requires t.Valid() && n <= |t.cells|
  {
    forall i, s | 0 <= i < n && 0 <= s < |Prose(t.cells[i])| :: !RowGives(t, o, i, s, k)
  }

  /** What the donations after n rows say of row k: the last run given to it, or none. */
  ghost predicate RowGiftIs(t: Table, o: Oracle, n: nat, k: nat, last: Option<(nat, nat)>)
    requires t.Valid() && n <= |t.cells|
  {
    var donated := RowsTo(t, o, n).donated;
    if last.Some? then
      && LastOfRows(t, o, n, last.value.0, last.value.1, k)
      && k in donated
      && donated[k] == Donation(Prose(t.cells[last.value.0])[last.value.1].text, Neighbour(last.value.0, last.value.1))
    else NoRowGives(t, o, n, k) && (k in donated ==> donated[k].origin.ValueLess? && k < n)
  }

  lemma {:induction false} RowsGive(t: Table, o: Oracle, n: nat, k: nat) returns (last: Option<(nat, nat)>)
    requires t.Valid() && n <= |t.cells|
    ensures RowGiftIs(t, o, n, k, last)
    decreases n, 1
  {
    hide RowGiftIs;
    hide Looked;
    if n == 0 {
      last := None;
      NoRows(t, o, k);
    } else {
      var before := RowsGive(t, o, n - 1, k);
      LookedWhen(t, o, n - 1);
      if Looked(t, o, n - 1) {
        last := LookedRowGives(t, o, n, k, before);
      } else {
        last := before;
        OtherRowGives(t, o, n, k, before);
      }
    }
  }

  lemma NoRows(t: Table, o: Oracle, k: nat)
    requires t.Valid()
    ensures RowGiftIs(t, o, 0, k, None)
  {
  }

  /** Which rows the pass looks at, seen from its state. */
  lemma {:induction false} LookedWhen(t: Table, o: Oracle, j: nat)
    requires t.Valid() && j < |t.cells|
    ensures Looked(t, o, j) <==>
      Movable(o, t.cells[j], t.models[j]) && (HasName(o, t.cells[j]) || j in RowsTo(t, o, j).donated)
    decreases j, 2
  {
    var last := RowsGive(t, o, j, j);
    hide WellCut;
    hide Movable;
    hide HasName;
    hide RowGives;
    hide RowsTo;
    hide Prose;
    if last.Some? {
      var i, s := last.value.0, last.value.1;
      assert i < j && s < |Prose(t.cells[i])| && RowGives(t, o, i, s, j);
    }
  }

  lemma RowDonated(t: Table, o: Oracle, p: Plans, j: nat, k: nat)
    requires t.Valid() && j < |t.cells|
    ensures var q := RowStep(t, o, p, j);
      if !HasName(o, t.cells[j]) && j !in p.donated then
        if k == j then k in q.donated ==> q.donated[k].origin.ValueLess?
        else (k in q.donated <==> k in p.donated) && (k in p.donated ==> q.donated[k] == p.donated[k])
      else if Movable(o, t.cells[j], t.models[j]) then q.donated == Strays(t, o, j, |Prose(t.cells[j])|, p.donated)
      else q.donated == p.donated
  {
    hide WellCut;
    hide LeadPlan;
    hide Movable;
    hide HasName;
    hide Strays;
    hide AllPlaced;
    hide Prose;
    hide Own;
  }

  lemma LookedRowGives(t: Table, o: Oracle, n: nat, k: nat, before: Option<(nat, nat)>)
    returns (last: Option<(nat, nat)>)
    requires t.Valid() && 0 < n <= |t.cells| && RowGiftIs(t, o, n - 1, k, before) && Looked(t, o, n - 1)
    requires HasName(o, t.cells[n - 1]) || n - 1 in RowsTo(t, o, n - 1).donated
    ensures RowGiftIs(t, o, n, k, last)
  {
    hide WellCut;
    hide Movable;
    hide HasName;
    hide RowStep;
    hide Prose;
    hide IsStray;
    hide Strays;
    var j, p := n - 1, RowsTo(t, o, n - 1);
    RowDonated(t, o, p, j, k);
    var stray := StraysGive(t, o, j, |Prose(t.cells[j])|, p.donated, k);
    last := if stray.Some? then Some((j, stray.value)) else before;
  }

  lemma OtherRowGives(t: Table, o: Oracle, n: nat, k: nat, before: Option<(nat, nat)>)
    requires t.Valid() && 0 < n <= |t.cells| && RowGiftIs(t, o, n - 1, k, before) && !Looked(t, o, n - 1)
    requires !(Movable(o, t.cells[n - 1], t.models[n - 1])
               && (HasName(o, t.cells[n - 1]) || n - 1 in RowsTo(t, o, n - 1).donated))
    ensures RowGiftIs(t, o, n, k, before)
  {
    hide WellCut;
    hide Movable;
    hide HasName;
    hide RowStep;
    hide Prose;
    hide Strays;
    RowDonated(t, o, RowsTo(t, o, n - 1), n - 1, k);
  }

  lemma {:induction false} MovedPrefix(donated: map<nat, Donation>, moves: seq<Move>, more: seq<Move>, n: nat)
    requires n <= |moves|
    ensures Moved(donated, moves + more, n) == Moved(donated, moves, n)
  {
    if n > 0 {
      MovedPrefix(donated, moves, more, n - 1);
    }
  }

  lemma {:induction false} AssignmentsGive(t: Table, o: Oracle, row: nat, assignments: seq<Assignment>, n: nat,
                                           donated: map<nat, Donation>, k: nat)
    returns (last: Option<nat>)
    requires row < |t.cells| && n <= |assignments|
    requires forall i | 0 <= i < |assignments| :: assignments[i].segment < |Prose(t.cells[row])|
    ensures var moves := MovesTo(t, o, row, assignments, n);
      var d := Moved(donated, moves, |moves|);
      if last.Some? then
        && last.value < n && MovesRun(t, o, assignments[last.value], k)
        && (forall i | 0 <= i < n && MovesRun(t, o, assignments[i], k) :: i <= last.value)
        && k in d && d[k].text == Prose(t.cells[row])[assignments[last.value].segment].text
        && d[k].origin == Resolved(row, assignments[last.value].segment)
      else
        && (forall i | 0 <= i < n :: !MovesRun(t, o, assignments[i], k))
        && (k in d <==> k in donated) && (k in d ==> d[k] == donated[k])
  {
    hide Prose;
    if n == 0 {
      return None;
    }
    last := AssignmentsGive(t, o, row, assignments, n - 1, donated, k);
    var a, moves := assignments[n - 1], MovesTo(t, o, row, assignments, n - 1);
    if a.owner != ThisRow {
      var m := Move(FirstNamed(t, o, a.owner.name, 0), Donation(Prose(t.cells[row])[a.segment].text, Resolved(row, a.segment)));
      assert MovesTo(t, o, row, assignments, n) == moves + [m];
      MovedPrefix(donated, moves, [m], |moves|);
      if MovesRun(t, o, a, k) {
        last := Some(n - 1);
      }
    }
  }

  /** The last assignment of the first n entries that gives row k a text. */
  ghost predicate LastOfEntries(t: Table, o: Oracle, asked: seq<nat>, entries: seq<Entry>, n: nat, i: nat, a: nat, k: nat)
    requires |t.models| == |t.cells| && forall i | 0 <= i < |asked| :: asked[i] < |t.cells|
  {
    && i < n && EntryGives(t, o, asked, entries, i, a, k)
    && forall i': nat, a': nat | i' < n && EntryGives(t, o, asked, entries, i', a', k) :: i' < i || (i' == i && a' <= a)
  }

  ghost predicate NoEntryGives(t: Table, o: Oracle, asked: seq<nat>, entries: seq<Entry>, n: nat, k: nat)
    requires |t.models| == |t.cells| && forall i | 0 <= i < |asked| :: asked[i] < |t.cells|
  {
    forall i: nat, a: nat | i < n :: !EntryGives(t, o, asked, entries, i, a, k)
  }

  /** What the donations after n entries say of row k. */
  ghost predicate EntryGiftIs(t: Table, o: Oracle, asked: seq<nat>, entries: seq<Entry>, n: nat, p: Plans, k: nat,
                              last: Option<(nat, nat)>)
    requires |t.models| == |t.cells| && n <= |entries| && forall i | 0 <= i < |asked| :: asked[i] < |t.cells|
  {
    var d := EntriesTo(t, o, asked, entries, n, p).donated;
    if last.Some? then
      && LastOfEntries(t, o, asked, entries, n, last.value.0, last.value.1, k)
      && k in d && d[k] == EntryGift(t, o, asked, entries[last.value.0], last.value.1)
    else
      && NoEntryGives(t, o, asked, entries, n, k)
      && (k in d <==> k in p.donated) && (k in d ==> d[k] == p.donated[k])
  }

  lemma {:induction false} EntriesGive(t: Table, o: Oracle, asked: seq<nat>, entries: seq<Entry>, n: nat, p: Plans, k: nat)
    returns (last: Option<(nat, nat)>)
    requires t.Valid() && n <= |entries| && forall i | 0 <= i < |asked| :: asked[i] < |t.cells|
    ensures EntryGiftIs(t, o, asked, entries, n, p, k, last)
  {
    hide EntryGiftIs;
    hide Accepts;
    hide WellCut;
    hide EntriesTo;
    if n == 0 {
      last := None;
      NoEntries(t, o, asked, entries, p, k);
    } else {
      var before := EntriesGive(t, o, asked, entries, n - 1, p, k);
      if Accepts(t, o, asked, entries[n - 1]) {
        last := AcceptedGives(t, o, asked, entries, n, p, k, before);
      } else {
        last := before;
        RefusedGives(t, o, asked, entries, n, p, k, before);
      }
    }
  }

  lemma NoEntries(t: Table, o: Oracle, asked: seq<nat>, entries: seq<Entry>, p: Plans, k: nat)
    requires t.Valid() && forall i | 0 <= i < |asked| :: asked[i] < |t.cells|
    ensures EntryGiftIs(t, o, asked, entries, 0, p, k, None)
  {
  }

  lemma AcceptedGives(t: Table, o: Oracle, asked: seq<nat>, entries: seq<Entry>, n: nat, p: Plans, k: nat,
                      before: Option<(nat, nat)>)
    returns (last: Option<(nat, nat)>)
    requires t.Valid() && 0 < n <= |entries| && forall i | 0 <= i < |asked| :: asked[i] < |t.cells|
    requires EntryGiftIs(t, o, asked, entries, n - 1, p, k, before) && Accepts(t, o, asked, entries[n - 1])
    ensures EntryGiftIs(t, o, asked, entries, n, p, k, last)
  {
    hide WellCut;
    hide Accepts;
    hide EntryStep;
    var q := EntriesTo(t, o, asked, entries, n - 1, p);
    var given := EntryGivesOne(t, o, asked, entries[n - 1], q, k);
    last := if given.Some? then Some((n - 1, given.value)) else before;
  }

  lemma EntryGivesOne(t: Table, o: Oracle, asked: seq<nat>, e: Entry, p: Plans, k: nat) returns (last: Option<nat>)
    requires t.Valid() && (forall i | 0 <= i < |asked| :: asked[i] < |t.cells|) && Accepts(t, o, asked, e)
    ensures var d := EntryStep(t, o, asked, e, p).donated;
      if last.Some? then
        && last.value < |e.assignments| && MovesRun(t, o, e.assignments[last.value], k)
        && (forall i | 0 <= i < |e.assignments| && MovesRun(t, o, e.assignments[i], k) :: i <= last.value)
        && k in d && d[k] == EntryGift(t, o, asked, e, last.value)
      else
        && (forall i | 0 <= i < |e.assignments| :: !MovesRun(t, o, e.assignments[i], k))
        && (k in d <==> k in p.donated) && (k in d ==> d[k] == p.donated[k])
  {
    hide WellCut;
    hide Prose;
    hide MoveOk;
    hide MovesTo;
    hide Moved;
    last := AssignmentsGive(t, o, asked[e.cell.value], e.assignments, |e.assignments|, p.donated, k);
  }

  lemma RefusedGives(t: Table, o: Oracle, asked: seq<nat>, entries: seq<Entry>, n: nat, p: Plans, k: nat,
                     before: Option<(nat, nat)>)
    requires t.Valid() && 0 < n <= |entries| && forall i | 0 <= i < |asked| :: asked[i] < |t.cells|
    requires EntryGiftIs(t, o, asked, entries, n - 1, p, k, before) && !Accepts(t, o, asked, entries[n - 1])
    ensures EntryGiftIs(t, o, asked, entries, n, p, k, before)
  {
    hide WellCut;
    hide Prose;
    hide Accepts;
  }

  /** The last text that the whole pass gives to row k. */
  lemma FinalGift(t: Table, o: Oracle, resolve: Option<Answer>, k: nat) returns (g: Option<Gift>)
    requires t.Valid() && !CutShort(t, o, resolve)
    ensures var donated := PlansFor(t, o, resolve).donated;
      if g.Some? then
        LastGift(t, o, resolve, g.value, k) && k in donated && donated[k].text == GiftText(t, o, resolve, g.value, k)
      else !Given(t, o, resolve, k) && (k in donated ==> donated[k].origin.ValueLess?)
  {
    hide WellCut;
    hide RowsTo;
    hide RowGives;
    hide EntryGives;
    hide Accepts;
    hide Prose;
    var asked, heard, n := Asked(t, o), Heard(resolve), |t.cells|;
    var row := RowsGive(t, o, n, k);
    var entry := EntriesGive(t, o, asked, heard, |heard|, RowsTo(t, o, n), k);
    NobodyAsked(t, o, asked, heard, k);
    hide EntriesTo;
    g := if entry.Some? then Some(FromEntry(entry.value.0, entry.value.1))
         else if row.Some? then Some(FromRow(row.value.0, row.value.1)) else None;
    if g.Some? {
      forall h | Gives(t, o, resolve, h, k) ensures h == g.value || Earlier(h, g.value) {
        assert h.FromEntry? ==> EntryGives(t, o, asked, heard, h.entry, h.assignment, k);
      }
    }
  }

  lemma NobodyAsked(t: Table, o: Oracle, asked: seq<nat>, entries: seq<Entry>, k: nat)
    requires t.Valid() && forall i | 0 <= i < |asked| :: asked[i] < |t.cells|
    ensures asked == [] ==> NoEntryGives(t, o, asked, entries, |entries|, k)
    ensures forall i: nat, a: nat | EntryGives(t, o, asked, entries, i, a, k) :: i < |entries|
  {
    hide WellCut;
    hide Prose;
  }

  lemma {:induction false} ReportedLooked(t: Table, o: Oracle, n: nat)
    requires t.Valid() && n <= |t.cells|
    ensures forall k <- RowsTo(t, o, n).unresolved :: k < n && Looked(t, o, k)
  {
    hide RowStep;
    hide Looked;
    hide WellCut;
    if n > 0 {
      ReportedLooked(t, o, n - 1);
      RowReports(t, o, RowsTo(t, o, n - 1), n - 1);
      LookedWhen(t, o, n - 1);
    }
  }

  lemma RunLoses(t: Table, o: Oracle, k: nat, text: string)
    requires t.Valid() && k < |t.cells| && Movable(o, t.cells[k], t.models[k])
    requires exists s | 0 <= s < |Prose(t.cells[k])| :: text == Prose(t.cells[k])[s].text
    ensures text != [] && Squeeze(text) != Squeeze(t.cells[k].original)
  {
    hide Squeeze;
    hide Strip;
    hide S.TilesTo;
    var s :| 0 <= s < |Prose(t.cells[k])| && text == Prose(t.cells[k])[s].text;
    OwnLoses(t.cells[k], s);
    ProseSliced(t.cells[k], s);
  }

  /** The texts that are given are names, so not empty. */
  lemma GiftShows(t: Table, o: Oracle, resolve: Option<Answer>, g: Gift, k: nat)
    requires t.Valid() && Gives(t, o, resolve, g, k)
    ensures GiftText(t, o, resolve, g, k) != []
  {
    hide WellCut;
    hide Prose;
    hide Looked;
    hide Accepts;
    match g
    case FromRow(i, s) => ProseSliced(t.cells[i], s);
    case FromEntry(i, a) =>
      var d := EntryGift(t, o, Asked(t, o), Heard(resolve)[i], a);
      ProseSliced(t.cells[d.origin.row], d.origin.segment);
  }

  lemma GivenFinal(t: Table, o: Oracle, resolve: Option<Answer>, k: nat, before: Option<string>, g: Gift)
    requires t.Valid() && k < |t.cells| && !CutShort(t, o, resolve) && LastGift(t, o, resolve, g, k)
    requires var donated := PlansFor(t, o, resolve).donated;
      k in donated && donated[k].text == GiftText(t, o, resolve, g, k)
    ensures var p := PlansFor(t, o, resolve);
      ReportedRow(t, o, resolve, k, Final(p.planned, p.donated, k, before))
  {
    hide WellCut;
    hide Squeeze;
    hide PlansFor;
    hide Gives;
    hide GiftText;
    GiftShows(t, o, resolve, g, k);
    forall h | LastGift(t, o, resolve, h, k) ensures h == g {
      assert h != g ==> Earlier(h, g) && Earlier(g, h);
    }
  }

  lemma ReportedFinal(t: Table, o: Oracle, resolve: Option<Answer>, k: nat, before: Option<string>)
    requires t.Valid() && k < |t.cells| && OrEmpty(before) == t.cells[k].original && !CutShort(t, o, resolve)
    requires resolve.Some? && Asked(t, o) != [] ==> resolve.value.fails
    requires AllJustified(t, o, PlansFor(t, o, resolve).donated) && Movable(o, t.cells[k], t.models[k]) && k in Asked(t, o)
    ensures var p := PlansFor(t, o, resolve);
      ReportedRow(t, o, resolve, k, Final(p.planned, p.donated, k, before))
  {
    hide WellCut;
    hide PlansFor;
    hide ReportedRow;
    hide Final;
    hide Movable;
    hide AllJustified;
    var g := FinalGift(t, o, resolve, k);
    if g.Some? {
      GivenFinal(t, o, resolve, k, before, g.value);
    } else {
      ReportedNamed(t, o, resolve, k);
      NamedFinal(t, o, resolve, k, before);
    }
  }

  /** A reported row that was given no text has a name. */
  lemma ReportedNamed(t: Table, o: Oracle, resolve: Option<Answer>, k: nat)
    requires t.Valid() && k < |t.cells| && k in Asked(t, o) && !Given(t, o, resolve, k)
    ensures HasName(o, t.cells[k])
  {
    hide WellCut;
    hide RowsTo;
    hide RowGives;
    hide Prose;
    hide HasName;
    hide Movable;
    ReportedLooked(t, o, |t.cells|);
    assert Looked(t, o, k);
    forall i, s | 0 <= i < k && 0 <= s < |Prose(t.cells[i])| ensures !RowGives(t, o, i, s, k) {
      assert Gives(t, o, resolve, FromRow(i, s), k) <==> RowGives(t, o, i, s, k);
    }
  }

  lemma NamedFinal(t: Table, o: Oracle, resolve: Option<Answer>, k: nat, before: Option<string>)
    requires t.Valid() && k < |t.cells| && OrEmpty(before) == t.cells[k].original && !CutShort(t, o, resolve)
    requires resolve.Some? && Asked(t, o) != [] ==> resolve.value.fails
    requires AllJustified(t, o, PlansFor(t, o, resolve).donated) && Movable(o, t.cells[k], t.models[k])
    requires HasName(o, t.cells[k]) && !Given(t, o, resolve, k) && k in Asked(t, o)
    ensures var p := PlansFor(t, o, resolve);
      ReportedRow(t, o, resolve, k, Final(p.planned, p.donated, k, before))
  {
    hide WellCut;
    hide SliceOf;
    hide HasName;
    hide StaysWhole;
    hide Movable;
    hide Squeeze;
    hide PlanFor;
    hide RowsTo;
    hide EntriesTo;
    hide Accepts;
    hide Prose;
    hide Given;
    var p := PlansFor(t, o, resolve);
    var asked, heard := Asked(t, o), Heard(resolve);
    assert k in p.donated ==> Justified(t, o, k, p.donated[k]);
    RowsPlanned(t, o, |t.cells|);
    EntriesPlans(t, o, asked, heard, |heard|, RowsTo(t, o, |t.cells|), k);
    if SettledBy(t, o, asked, heard, |heard|, k) {
      RunLoses(t, o, k, p.planned[k]);
    } else {
      ReportedKeeps(o, t.cells[k], t.models[k]);
    }
  }

  datatype Outcome = Aborted | Untouched | RolledBack | Applied

  /** A cell as the segmenter leaves it. */
  function Cut(m: S.Matchers, original: string): Cell
    requires S.Bounded(m)
  {
    Cell(original, S.Clean(m, original), S.SegmentsFrom(m, S.Clean(m, original), 0, 0))
  }

  method CutCell(m: S.Matchers, original: string) returns (c: Cell)
    requires S.Bounded(m)
    ensures WellCut(c) && c == Cut(m, original)
  {
    hide S.Clean;
    hide S.Slices;
    hide S.Contiguous;
    var segments, text := S.SegmentDescription(m, original);
    S.CleanKeeps(m, original);
    c := Cell(original, text, segments);
  }

  method CutCells(m: S.Matchers, descriptions: seq<Option<string>>) returns (cells: seq<Cell>)
    requires S.Bounded(m)
    ensures |cells| == |descriptions|
    ensures forall i | 0 <= i < |cells| :: WellCut(cells[i]) && cells[i] == Cut(m, OrEmpty(descriptions[i]))
  {
    hide WellCut;
    hide S.Bounded;
    hide Cut;
    cells := [];
    for i := 0 to |descriptions|
      invariant |cells| == i
      invariant forall j | 0 <= j < i :: WellCut(cells[j]) && cells[j] == Cut(m, OrEmpty(descriptions[j]))
    {
      var c := CutCell(m, OrEmpty(descriptions[i]));
      cells := cells + [c];
    }
  }

  /** What the rows hold after the gate, whatever the resolver answered. */
  ghost predicate GateSound(t: Table, o: Oracle, outcome: Outcome, before: seq<Option<string>>, after: seq<Option<string>>)
    requires |before| == |after| == |t.cells|
  {
    && SubMultiset(Normal(JoinTo(after, |after|)), Universe(t))
    && (outcome == Aborted || outcome == Untouched ==> after == before)
    && (outcome == RolledBack ==> after == Originals(t))
    && (outcome == Applied ==> forall k | 0 <= k < |t.cells| :: RowSound(t, o, k, before[k], after[k]))
  }

  ghost predicate Originates(t: Table, ds: seq<Option<string>>) {
    |ds| == |t.cells| && forall k | 0 <= k < |ds| :: OrEmpty(ds[k]) == t.cells[k].original
  }

  lemma FinalsSound(t: Table, o: Oracle, planned: map<nat, string>, donated: map<nat, Donation>, before: seq<Option<string>>)
    requires t.Valid() && |before| == |t.cells| && PlansSliced(t, planned) && AllJustified(t, o, donated)
    ensures forall k | 0 <= k < |t.cells| :: RowSound(t, o, k, before[k], Finals(planned, donated, before)[k])
  {
    hide RowSound;
    hide Final;
    forall k | 0 <= k < |t.cells|
      ensures RowSound(t, o, k, before[k], Finals(planned, donated, before)[k])
    {
      FinalSound(t, o, planned, donated, k, before[k]);
    }
  }

  /** Apply and check. */
  method Commit(pass: Pass, descriptions: array<Option<string>>, printed: array<Option<string>>) returns (outcome: Outcome)
    requires pass.Valid() && descriptions != printed
    requires descriptions.Length == printed.Length == |pass.t.cells| && Originates(pass.t, descriptions[..])
    modifies descriptions, printed
    ensures outcome == if RollsBack(pass.t, pass.Decided(), old(descriptions[..])) then RolledBack else Applied
    ensures GateSound(pass.t, pass.o, outcome, old(descriptions[..]), descriptions[..])
    ensures outcome == Applied ==> descriptions[..] == Finals(pass.planned, pass.donated, old(descriptions[..]))
    ensures forall k | 0 <= k < |pass.t.cells| ::
      printed[k] == (if outcome == RolledBack then None else FinalPrinted(pass.t, pass.donated, k, old(printed[k])))
  {
    hide WellCut;
    hide SliceOf;
    hide Justified;
    hide Movable;
    hide RowSound;
    hide Universe;
    hide Normal;
    hide SubMultiset;
    hide JoinTo;
    hide Final;
    FinalsSound(pass.t, pass.o, pass.planned, pass.donated, descriptions[..]);
    var rolledBack := pass.Apply(descriptions, printed);
    outcome := if rolledBack then RolledBack else Applied;
    if rolledBack {
      OriginalsPrinted(pass.t, Originals(pass.t));
    }
  }

  /** Plan, and escalate what could not be proven.  `None` when a deadline cut it short. */
  method Decide(t: Table, o: Oracle, resolve: Option<Answer>) returns (decided: Option<Pass>, reported: seq<nat>)
    requires t.Valid()
    ensures decided.None? <==> CutShort(t, o, resolve)
    ensures decided.None? ==> reported == Asked(t, o)
    ensures decided.Some? ==>
      && fresh(decided.value) && decided.value.Valid() && decided.value.t == t && decided.value.o == o
      && decided.value.Decided() == PlansFor(t, o, resolve) && reported == PlansFor(t, o, resolve).unresolved
  {
    hide WellCut;
    hide SliceOf;
    hide Justified;
    hide Movable;
    hide HasName;
    hide EntriesTo;
    hide RowStep;
    var pass := new Pass(t, o);
    pass.PlanRows();
    reported := pass.unresolved;
    if reported != [] && resolve.Some? {
      var aborted := pass.Escalate(resolve.value);
      if aborted {
        return None, reported;
      }
      reported := pass.unresolved;
    }
    decided := Some(pass);
  }

  /** `_attribute` over the rows' description columns. */
  method AttributeRows(t: Table, o: Oracle, descriptions: array<Option<string>>, printed: array<Option<string>>,
                       resolve: Option<Answer>)
    returns (outcome: Outcome, reported: seq<nat>)
    requires t.Valid() && descriptions != printed
    requires descriptions.Length == printed.Length == |t.cells| && Originates(t, descriptions[..])
    requires forall k | 0 <= k < |t.cells| :: t.preset[k] == printed[k].Some?
    modifies descriptions, printed
    ensures outcome == Outcomes(t, o, resolve, old(descriptions[..]))
    ensures reported == if outcome == Aborted then Asked(t, o) else PlansFor(t, o, resolve).unresolved
    ensures GateSound(t, o, outcome, old(descriptions[..]), descriptions[..])
    ensures outcome == Aborted || outcome == Untouched ==> printed[..] == old(printed[..])
    ensures outcome == Applied ==>
      var p := PlansFor(t, o, resolve);
      && descriptions[..] == Finals(p.planned, p.donated, old(descriptions[..]))
      && (forall k | 0 <= k < |t.cells| :: printed[k] == FinalPrinted(t, p.donated, k, old(printed[k])))
      && (forall k <- reported :: k < |t.cells| && ReportedRow(t, o, resolve, k, descriptions[k]))
    ensures outcome == RolledBack ==>
      && descriptions[..] == Originals(t)
      && (forall k | 0 <= k < |t.cells| :: printed[k] == None)
      && (descriptions[..] == old(descriptions[..]) && printed[..] == old(printed[..]) <==>
            forall k | 0 <= k < |t.cells| :: old(descriptions[k]).Some? && !t.preset[k])
  {
    hide WellCut;
    hide SliceOf;
    hide Justified;
    hide Movable;
    hide HasName;
    hide RowSound;
    hide Universe;
    hide Normal;
    hide SubMultiset;
    hide ReportedRow;
    hide PlansFor;
    hide Finals;
    ghost var before := descriptions[..];
    OriginalsPrinted(t, before);
    var decided;
    decided, reported := Decide(t, o, resolve);
    if decided.None? {
      return Aborted, reported;
    }
    var pass := decided.value;
    if pass.planned == map[] && pass.donated == map[] {
      return Untouched, reported;
    }
    ghost var kept := printed[..];
    outcome := Commit(pass, descriptions, printed);
    if outcome == Applied {
      ReportedFinals(t, o, resolve, pass, before);
    } else {
      Restored(t, before, kept, printed[..]);
    }
  }

  /** A rolled-back table is as it was, exactly when every row had a description and none
      carried a printed original already. */
  lemma Restored(t: Table, before: seq<Option<string>>, kept: seq<Option<string>>, cleared: seq<Option<string>>)
    requires Originates(t, before) && |kept| == |cleared| == |t.cells|
    requires forall k | 0 <= k < |cleared| :: cleared[k] == None
    ensures Originals(t) == before && cleared == kept
       <==> forall k | 0 <= k < |before| :: before[k].Some? && kept[k].None?
  {
    if forall k | 0 <= k < |before| :: before[k].Some? && kept[k].None? {
      assert forall k | 0 <= k < |before| :: Originals(t)[k] == before[k];
    } else {
      var k :| 0 <= k < |before| && (before[k].None? || kept[k].Some?);
      assert Originals(t)[k].Some? && cleared[k].None?;
    }
  }

  /** How the pass ends. */
  ghost function Outcomes(t: Table, o: Oracle, resolve: Option<Answer>, before: seq<Option<string>>): Outcome
    requires t.Valid()
  {
    if CutShort(t, o, resolve) then Aborted
    else
      var p := PlansFor(t, o, resolve);
      if p.planned == map[] && p.donated == map[] then Untouched
      else if RollsBack(t, p, before) then RolledBack
      else Applied
  }

  lemma ReportedFinals(t: Table, o: Oracle, resolve: Option<Answer>, pass: Pass, before: seq<Option<string>>)
    requires t.Valid() && Originates(t, before) && !CutShort(t, o, resolve)
    requires pass.Valid() && pass.t == t && pass.o == o && pass.Decided() == PlansFor(t, o, resolve)
    ensures forall k <- pass.unresolved ::
      k < |t.cells| && ReportedRow(t, o, resolve, k, Finals(pass.planned, pass.donated, before)[k])
  {
    hide WellCut;
    hide SliceOf;
    hide Justified;
    hide Movable;
    hide ReportedRow;
    hide EntriesTo;
    hide RowsTo;
    forall k | k in pass.unresolved
      ensures k < |t.cells| && ReportedRow(t, o, resolve, k, Finals(pass.planned, pass.donated, before)[k])
    {
      EntriesReport(t, o, resolve);
      ReportedFinal(t, o, resolve, k, before[k]);
    }
  }

  /** Rows are reported as asked about, or not at all. */
  lemma EntriesReport(t: Table, o: Oracle, resolve: Option<Answer>)
    requires t.Valid() && !CutShort(t, o, resolve)
    ensures var p := PlansFor(t, o, resolve);
      if resolve.Some? && Asked(t, o) != [] && !resolve.value.fails then p.unresolved == [] else p.unresolved == Asked(t, o)
  {
    hide EntryStep;
    if resolve.Some? && Asked(t, o) != [] {
      EntriesKeepReports(t, o, Asked(t, o), resolve.value.entries, |resolve.value.entries|, RowsTo(t, o, |t.cells|));
    }
  }

  lemma {:induction false} EntriesKeepReports(t: Table, o: Oracle, asked: seq<nat>, entries: seq<Entry>, n: nat, p: Plans)
    requires |t.models| == |t.cells| && n <= |entries| && forall i | 0 <= i < |asked| :: asked[i] < |t.cells|
    ensures EntriesTo(t, o, asked, entries, n, p).unresolved == p.unresolved
  {
    if n > 0 {
      EntriesKeepReports(t, o, asked, entries, n - 1, p);
    }
  }
}
