/** One job: its documents, the reviewer's entries, and what is derived from them.

    Every locked section of the services is one event here, its commit being the
    last thing it does; the readiness gate in front of `critical_review` and
    `finalize` is an event of its own, because it runs before the lock is taken.
    Which status writes may occur, and when, is decided by the extraction protocol:
    `JobRuns` puts the two together. */
module JobLifecycle {
  import opened Documents
  import opened Options
  import opened ReviewOverlay

  datatype Document = Document(role: Role, status: Status, extraction: Option<nat>)

  datatype JobStatus =
    | UPLOADING | EXTRACTION_RUNNING | EXTRACTION_COMPLETE
    | CRITICAL_REVIEW_REQUIRED | VALIDATION_BLOCKED | XML_READY

  /** Everything a declaration is computed from, but for the request itself. */
  datatype Inputs = Inputs(
    evidence: map<DocId, (Role, nat)>, items: map<nat, Entry>, pins: map<nat, Entry>,
    shipment: Option<Entry>, selections: seq<Selection>, history: map<string, string>, regime: nat)

  /** `number` tells finalizes apart. */
  datatype Declaration = Declaration(inputs: Inputs, ready: bool, rate: nat, number: nat, bms: map<nat, Entry>)

  datatype Xml = Xml(inputs: Inputs, rate: nat, number: nat)

  datatype Workbook = Workbook(number: nat, bms: map<nat, Entry>)

  /** What `_finalize_job_locked` comes to. */
  datatype Outcome =
    | Refused                                          // an error: nothing is committed
    | StaleReview
    | CountMismatch
    | Concluded(rate: nat, ready: bool, warnBuild: bool)

  /** The rules engine, as a function of the inputs, the stored rate and the request. */
  type Engine = (Inputs, nat, nat) -> Outcome

  datatype State = State(
    docs: map<DocId, Document>,
    status: JobStatus,
    review: Option<Inputs>,
    declaration: Option<Declaration>,
    overlay: Overlay,
    history: map<string, string>,
    regime: nat,
    rate: nat,
    xmls: seq<Xml>,
    workbooks: seq<Workbook>,
    gated: set<nat>,              // callers past the readiness gate
    finalizes: nat)

  const NEW_JOB := State(map[], UPLOADING, None, None, EMPTY, map[], 0, 0, [], [], {}, 0)

  /** A reviewer's change to the item list or the shipment totals. */
  datatype Mutation =
    | EditItem(item: nat, value: nat)
    | PinItem(item: nat, value: nat)
    | SetTotals(value: nat)
    | SelectHs(item: nat, key: string, code: string, explicit: bool)

  datatype Event =
    | Upload(d: DocId, role: Role)
    | WriteStatus(d: DocId, status: Status)         // a claimed, failed, released or re-attached document
    | FinishExtraction(d: DocId, extraction: nat, roleMatch: bool)
    | ResolveRole(d: DocId, accept: bool)
    | Remove(d: DocId)
    | Gate(caller: nat)
    | Review(caller: nat)
    | Finalize(caller: nat, body: nat)
    | Mutate(m: Mutation)
    | SelectRegime(regime: nat)
    | EditBms(item: nat, value: nat)

  // ---- what is derived from what ------------------------------------------------------------ //

  predicate Declarable(doc: Document) { doc.status != RoleRejected && doc.extraction.Some? }

  /** The extractions of the documents the declaration may read. */
  function EvidenceOf(docs: map<DocId, Document>): map<DocId, (Role, nat)> {
    map d | d in docs && Declarable(docs[d]) :: (docs[d].role, docs[d].extraction.value)
  }

  function InvoiceEvidence(docs: map<DocId, Document>): Evidence {
    map d | d in docs && Declarable(docs[d]) && FromItems(docs[d].role) :: docs[d].extraction.value
  }

  function ShipmentEvidence(docs: map<DocId, Document>): Evidence {
    map d | d in docs && Declarable(docs[d]) && FromShipment(docs[d].role) :: docs[d].extraction.value
  }

  /** Both, for what is reconciled against both. */
  function ItemAndShipmentEvidence(docs: map<DocId, Document>): Evidence {
    map d | d in docs && Declarable(docs[d]) && (FromItems(docs[d].role) || FromShipment(docs[d].role)) :: docs[d].extraction.value
  }

  function InputsOf(s: State): Inputs {
    Inputs(EvidenceOf(s.docs), s.overlay.items, s.overlay.pins, s.overlay.shipment, s.overlay.selections,
           s.history, s.regime)
  }

  /** `_require_extracted`: every document answered for. */
  predicate AllExtracted(docs: map<DocId, Document>) {
    forall d <- docs :: docs[d].status == Extracted || docs[d].status == RoleRejected
  }

  predicate ItemMutable(s: State) {
    && (s.status == CRITICAL_REVIEW_REQUIRED || s.status == VALIDATION_BLOCKED || s.status == XML_READY)
    && AllExtracted(s.docs)
  }

  // ---- steps ------------------------------------------------------------------------------------ //

  /** The statuses that the extraction protocol writes without touching the evidence. */
  const OPEN: set<Status> := {Uploaded, Extracting, Failed}

  predicate Enabled(s: State, e: Event) {
    match e
    case Upload(d, _) => d !in s.docs
    case WriteStatus(_, status) => status in OPEN
    case FinishExtraction(_, _, _) => true
    case ResolveRole(d, _) => d in s.docs && s.docs[d].status == RoleReview
    case Remove(_) => true
    case Gate(c) => AllExtracted(s.docs)
    case Review(c) => c in s.gated
    case Finalize(c, _) => c in s.gated
    case Mutate(_) => ItemMutable(s)
    case SelectRegime(_) => AllExtracted(s.docs)
    case EditBms(_, _) => AllExtracted(s.docs)
  }

  /** A status write finds a document that has not moved on. */
  predicate Fresh(s: State, e: Event) { e.WriteStatus? && e.d in s.docs ==> s.docs[e.d].status in OPEN }

  function DocsAfter(docs: map<DocId, Document>, e: Event): map<DocId, Document> {
    match e
    case Upload(d, role) => docs[d := Document(role, Uploaded, None)]
    case WriteStatus(d, status) => if d in docs then docs[d := docs[d].(status := status)] else docs
    case FinishExtraction(d, extraction, roleMatch) =>
      if d !in docs then docs
      else docs[d := docs[d].(extraction := Some(extraction), status := if roleMatch then Extracted else RoleReview)]
    case ResolveRole(d, accept) =>
      if d in docs then docs[d := docs[d].(status := if accept then Extracted else RoleRejected)] else docs
    case Remove(d) => docs - {d}
    case _ => docs
  }

  /** `_invalidate_derived`. */
  function Invalidated(s: State): State {
    s.(review := None, declaration := None, xmls := [], workbooks := [])
  }

  /** `_reset_extraction_derived_state`. */
  function ResetFor(s: State, role: Role): State {
    s.(overlay := Reset(s.overlay, role), history := s.history + Fold(s.overlay, role))
  }

  /** A structural change: everything derived goes, and what the role's evidence fed. */
  function Superseded(s: State, role: Role, status: JobStatus): State {
    ResetFor(Invalidated(s), role).(status := status)
  }

  function Reviewed(s: State): State {
    s.(review := Some(InputsOf(s)), status := CRITICAL_REVIEW_REQUIRED)
  }

  function Mutated(o: Overlay, m: Mutation, docs: map<DocId, Document>): Overlay {
    match m
    case EditItem(item, value) => o.(items := o.items[item := Entry(value, InvoiceEvidence(docs))])
    case PinItem(item, value) => o.(pins := o.pins[item := Entry(value, ItemAndShipmentEvidence(docs))])
    case SetTotals(value) => o.(shipment := Some(Entry(value, ShipmentEvidence(docs))))
    case SelectHs(item, key, code, explicit) =>
      o.(selections := Select(o.selections, Selection(item, key, code, explicit, InvoiceEvidence(docs))))
  }

  function Concluding(s: State, rate: nat, ready: bool, warnBuild: bool): State {
    var number := s.finalizes + 1;
    var t := s.(declaration := Some(Declaration(InputsOf(s), ready, rate, number, s.overlay.bms)),
                rate := rate, finalizes := number,
                status := if ready then XML_READY else VALIDATION_BLOCKED);
    if ready || warnBuild then
      t.(xmls := s.xmls + [Xml(InputsOf(s), rate, number)],
         workbooks := s.workbooks + [Workbook(number, s.overlay.bms)])
    else t
  }

  function Finalized(s: State, outcome: Outcome): State {
    match outcome
    case Refused => s
    case StaleReview => Reviewed(s)
    case CountMismatch => s.(status := EXTRACTION_RUNNING)
    case Concluded(rate, ready, warnBuild) => Concluding(s, rate, ready, warnBuild)
  }

  /** The review is refreshed, and an existing workbook rebuilt, with the stored
      declaration's export columns; nothing else. */
  function BmsEdited(s: State, item: nat, value: nat): State {
    var bms := s.overlay.bms[item := Entry(value, InvoiceEvidence(s.docs))];
    var t := s.(overlay := s.overlay.(bms := bms), review := Some(InputsOf(s)));
    if s.workbooks == [] then t
    else
      t.(workbooks := [Workbook(s.workbooks[|s.workbooks| - 1].number, bms)],
         declaration := if s.declaration.None? then None else Some(s.declaration.value.(bms := bms)))
  }

  function Apply(engine: Engine, s: State, e: Event): State {
    match e
    case Upload(_, _) => s.(docs := DocsAfter(s.docs, e))
    case WriteStatus(_, _) => s.(docs := DocsAfter(s.docs, e))
    case FinishExtraction(d, _, _) =>
      if d in s.docs then Superseded(s.(docs := DocsAfter(s.docs, e)), s.docs[d].role, EXTRACTION_COMPLETE) else s
    case ResolveRole(d, _) =>
      if d in s.docs then Superseded(s.(docs := DocsAfter(s.docs, e)), s.docs[d].role, EXTRACTION_COMPLETE) else s
    case Remove(d) =>
      if d !in s.docs then s
      else
        var left := DocsAfter(s.docs, e);
        var status := if exists c <- left :: left[c].status == Extracted then EXTRACTION_COMPLETE else UPLOADING;
        Superseded(s.(docs := left), s.docs[d].role, status)
    case Gate(c) => s.(gated := s.gated + {c})
    case Review(c) => Reviewed(s.(gated := s.gated - {c}))
    case Finalize(c, body) => Finalized(s.(gated := s.gated - {c}), engine(InputsOf(s), s.rate, body))
    case Mutate(m) => Reviewed(Invalidated(s.(overlay := Mutated(s.overlay, m, s.docs))))
    case SelectRegime(regime) => if regime == s.regime then s else Reviewed(Invalidated(s.(regime := regime)))
    case EditBms(item, value) => BmsEdited(s, item, value)
  }

  // ---- artefacts agree with the evidence ------------------------------------------------------------ //

  /** Review, declaration and every stored XML come from exactly the current inputs. */
  ghost predicate Agree(s: State) {
    && (s.review.Some? ==> s.review.value == InputsOf(s))
    && (s.declaration.Some? ==> s.declaration.value.inputs == InputsOf(s))
    && forall i | 0 <= i < |s.xmls| :: s.xmls[i].inputs == InputsOf(s)
  }

  /** XML_READY speaks of the latest finalize: its declaration has no blockers, its
      XML is the newest, at the stored rate. */
  ghost predicate ReadyMeansReady(s: State) {
    s.status == XML_READY ==>
      && s.declaration.Some? && s.declaration.value.ready && s.declaration.value.rate == s.rate
      && s.xmls != [] && s.xmls[|s.xmls| - 1].number == s.declaration.value.number == s.finalizes
      && s.xmls[|s.xmls| - 1].rate == s.rate && s.xmls[|s.xmls| - 1].inputs == s.declaration.value.inputs
  }

  /** No reviewer entry is applied to evidence it was not made against. */
  ghost predicate EntriesCurrent(s: State) {
    && (forall i <- s.overlay.items :: s.overlay.items[i].against == InvoiceEvidence(s.docs))
    && (forall i <- s.overlay.bms :: s.overlay.bms[i].against == InvoiceEvidence(s.docs))
    && (forall i <- s.overlay.pins :: s.overlay.pins[i].against == ItemAndShipmentEvidence(s.docs))
    && (forall i | 0 <= i < |s.overlay.selections| :: s.overlay.selections[i].against == InvoiceEvidence(s.docs))
    && (s.overlay.shipment.Some? ==> s.overlay.shipment.value.against == ShipmentEvidence(s.docs))
  }

  ghost predicate Consistent(s: State) { Agree(s) && ReadyMeansReady(s) && EntriesCurrent(s) }

  /** The documents other than `d`, and every document's role, are as before. */
  ghost predicate OnlyChanges(docs: map<DocId, Document>, docs': map<DocId, Document>, d: DocId, role: Role) {
    && (forall c: DocId :: c != d ==> (c in docs <==> c in docs') && (c in docs ==> docs[c] == docs'[c]))
    && (d in docs ==> docs[d].role == role)
    && (d in docs' ==> docs'[d].role == role)
  }

  /** Evidence is scoped by role. */
  lemma RoleScoped(docs: map<DocId, Document>, docs': map<DocId, Document>, d: DocId, role: Role)
    requires OnlyChanges(docs, docs', d, role)
    ensures !FromItems(role) ==> InvoiceEvidence(docs') == InvoiceEvidence(docs)
    ensures !FromShipment(role) ==> ShipmentEvidence(docs') == ShipmentEvidence(docs)
    ensures !FromItems(role) && !FromShipment(role) ==> ItemAndShipmentEvidence(docs') == ItemAndShipmentEvidence(docs)
  {
    forall c: DocId | c != d ensures c in docs <==> c in docs' {
    }
    if !FromItems(role) {
      assert InvoiceEvidence(docs') == InvoiceEvidence(docs);
    }
    if !FromShipment(role) {
      assert ShipmentEvidence(docs') == ShipmentEvidence(docs);
      if !FromItems(role) {
        assert ItemAndShipmentEvidence(docs') == ItemAndShipmentEvidence(docs);
      }
    }
  }

  /** A document changed without changing what may be read of it. */
  ghost predicate ReadsTheSame(docs: map<DocId, Document>, docs': map<DocId, Document>) {
    forall c: DocId ::
      && (c in docs && Declarable(docs[c]) <==> c in docs' && Declarable(docs'[c]))
      && (c in docs && Declarable(docs[c]) ==>
            docs[c].role == docs'[c].role && docs[c].extraction == docs'[c].extraction)
  }

  lemma SameEvidence(docs: map<DocId, Document>, docs': map<DocId, Document>)
    requires ReadsTheSame(docs, docs')
    ensures EvidenceOf(docs') == EvidenceOf(docs)
    ensures InvoiceEvidence(docs') == InvoiceEvidence(docs)
    ensures ShipmentEvidence(docs') == ShipmentEvidence(docs)
    ensures ItemAndShipmentEvidence(docs') == ItemAndShipmentEvidence(docs)
  {
  }

  // ---- one lemma for each kind of step --------------------------------------------------------------- //

  /** Uploads, claims and status writes that do not touch the evidence. */
  lemma QuietStep(s: State, d: DocId, doc: Document)
    requires Consistent(s)
    requires d in s.docs ==> doc.role == s.docs[d].role && doc.extraction == s.docs[d].extraction
    requires Declarable(doc) <==> d in s.docs && Declarable(s.docs[d])
    ensures Consistent(s.(docs := s.docs[d := doc]))
  {
    SameEvidence(s.docs, s.docs[d := doc]);
    hide EvidenceOf;
    hide InvoiceEvidence;
    hide ShipmentEvidence;
    hide ItemAndShipmentEvidence;
    assert InputsOf(s.(docs := s.docs[d := doc])) == InputsOf(s);
  }

  /** Structural changes of one document: everything derived goes. */
  lemma SupersedingStep(s: State, docs': map<DocId, Document>, d: DocId, role: Role, status: JobStatus)
    requires Consistent(s) && OnlyChanges(s.docs, docs', d, role) && status != XML_READY
    ensures Consistent(Superseded(s.(docs := docs'), role, status))
  {
    RoleScoped(s.docs, docs', d, role);
    hide InvoiceEvidence;
    hide ShipmentEvidence;
    hide ItemAndShipmentEvidence;
  }

  lemma MutationStep(s: State, m: Mutation)
    requires Consistent(s)
    ensures Consistent(Reviewed(Invalidated(s.(overlay := Mutated(s.overlay, m, s.docs)))))
  {
    hide InvoiceEvidence;
    hide ShipmentEvidence;
    hide ItemAndShipmentEvidence;
    hide EvidenceOf;
  }

  lemma ConcludingStep(s: State, rate: nat, ready: bool, warnBuild: bool)
    requires Consistent(s)
    ensures Consistent(Concluding(s, rate, ready, warnBuild))
  {
    hide InputsOf;
    hide EntriesCurrent;
    var t := Concluding(s, rate, ready, warnBuild);
    SameInputs(s, t);
  }

  /** Inputs and reviewer entries depend on nothing derived. */
  lemma SameInputs(s: State, t: State)
    requires t.docs == s.docs && t.overlay == s.overlay && t.history == s.history && t.regime == s.regime
    ensures InputsOf(t) == InputsOf(s)
    ensures EntriesCurrent(t) <==> EntriesCurrent(s)
  {
  }

  lemma FinalizeStep(s: State, outcome: Outcome)
    requires Consistent(s)
    ensures Consistent(Finalized(s, outcome))
  {
    hide InputsOf;
    hide EntriesCurrent;
    hide Concluding;
    match outcome {
      case Concluded(rate, ready, warnBuild) => ConcludingStep(s, rate, ready, warnBuild);
      case _ => SameInputs(s, Finalized(s, outcome));
    }
  }

  lemma BmsEntries(s: State, item: nat, value: nat)
    requires EntriesCurrent(s)
    ensures EntriesCurrent(BmsEdited(s, item, value))
    ensures InputsOf(BmsEdited(s, item, value)) == InputsOf(s)
  {
    hide InvoiceEvidence;
    hide ShipmentEvidence;
    hide ItemAndShipmentEvidence;
    hide EvidenceOf;
  }

  lemma BmsStep(s: State, item: nat, value: nat)
    requires Consistent(s)
    ensures Consistent(BmsEdited(s, item, value))
    ensures BmsEdited(s, item, value).status == s.status && BmsEdited(s, item, value).xmls == s.xmls
  {
    hide InputsOf;
    hide EntriesCurrent;
    BmsEntries(s, item, value);
  }

  lemma ReviewStep(s: State)
    requires Agree(s) && EntriesCurrent(s)
    ensures Consistent(Reviewed(s))
  {
    SameInputs(s, Reviewed(s));
    hide InputsOf;
    hide EntriesCurrent;
  }

  lemma RegimeStep(s: State, regime: nat)
    requires Consistent(s)
    ensures Consistent(Reviewed(Invalidated(s.(regime := regime))))
  {
    hide InputsOf;
    var t := Invalidated(s.(regime := regime));
    assert EntriesCurrent(t);
    ReviewStep(t);
  }

  /** Only the callers past the gate change. */
  lemma GateStep(s: State, gated: set<nat>)
    requires Consistent(s)
    ensures Consistent(s.(gated := gated))
  {
    SameInputs(s, s.(gated := gated));
    hide InputsOf;
    hide EntriesCurrent;
  }

  // ---- any step --------------------------------------------------------------------------------------- //

  lemma DocumentStep(engine: Engine, s: State, e: Event)
    requires Consistent(s) && Enabled(s, e) && Fresh(s, e)
    requires e.Upload? || e.WriteStatus? || e.FinishExtraction? || e.ResolveRole? || e.Remove?
    ensures Consistent(Apply(engine, s, e))
  {
    hide Consistent;
    hide Superseded;
    var docs' := DocsAfter(s.docs, e);
    match e {
      case Upload(d, role) =>
        QuietStep(s, d, docs'[d]);
      case WriteStatus(d, _) =>
        if d in s.docs {
          QuietStep(s, d, docs'[d]);
        }
      case FinishExtraction(d, _, _) =>
        if d in s.docs {
          SupersedingStep(s, docs', d, s.docs[d].role, EXTRACTION_COMPLETE);
        }
      case ResolveRole(d, _) =>
        SupersedingStep(s, docs', d, s.docs[d].role, EXTRACTION_COMPLETE);
      case Remove(d) =>
        if d in s.docs {
          SupersedingStep(s, docs', d, s.docs[d].role,
                          if exists c <- docs' :: docs'[c].status == Extracted then EXTRACTION_COMPLETE else UPLOADING);
        }
    }
  }

  /** Every step keeps review, declaration, XML and reviewer entries in agreement with
      the evidence, if its status writes are fresh. */
  lemma Step(engine: Engine, s: State, e: Event)
    requires Consistent(s) && Enabled(s, e) && Fresh(s, e)
    ensures Consistent(Apply(engine, s, e))
  {
    hide Consistent;
    match e {
      case Gate(c) =>
        GateStep(s, s.gated + {c});
      case Review(c) =>
        GateStep(s, s.gated - {c});
        Parts(s.(gated := s.gated - {c}));
        ReviewStep(s.(gated := s.gated - {c}));
      case Finalize(c, body) =>
        GateStep(s, s.gated - {c});
        FinalizeStep(s.(gated := s.gated - {c}), engine(InputsOf(s), s.rate, body));
      case Mutate(m) =>
        MutationStep(s, m);
      case SelectRegime(regime) =>
        RegimeStep(s, regime);
      case EditBms(item, value) =>
        BmsStep(s, item, value);
      case _ =>
        DocumentStep(engine, s, e);
    }
  }

  lemma DocsFollow(engine: Engine, s: State, e: Event)
    ensures Apply(engine, s, e).docs == DocsAfter(s.docs, e)
  {
    hide InvoiceEvidence;
    hide ShipmentEvidence;
    hide ItemAndShipmentEvidence;
    hide EvidenceOf;
    hide Reset;
    hide Fold;
    hide Mutated;
  }

  lemma Parts(s: State)
    ensures Consistent(s) <==> Agree(s) && ReadyMeansReady(s) && EntriesCurrent(s)
  {
  }

  lemma Start()
    ensures Consistent(NEW_JOB)
  {
  }

  /** The sanctioned survivors: an invoice change folds every explicit HS selection into
      the history, the last one for an item name; any other change keeps it in place. */
  lemma SelectionsSurvive(s: State, role: Role, status: JobStatus, i: nat)
    requires i < |s.overlay.selections| && Foldable(s.overlay.selections[i])
    requires forall j | i < j < |s.overlay.selections| ::
      Foldable(s.overlay.selections[j]) ==> s.overlay.selections[j].key != s.overlay.selections[i].key
    ensures var t := Superseded(s, role, status);
      var sel := s.overlay.selections[i];
      if FromItems(role) then sel.key in t.history && t.history[sel.key] == sel.code
      else t.overlay.selections == s.overlay.selections && t.history == s.history
  {
    FoldKeeps(s.overlay.selections, |s.overlay.selections|, i);
  }

  // ---- unconfirmed documents ------------------------------------------------------------------------ //

  /** The declaration would read the document although nobody stands behind its role. */
  predicate Unconfirmed(docs: map<DocId, Document>, d: DocId) {
    d in docs && Declarable(docs[d]) && docs[d].status != Extracted
  }

  /** A role mismatch, or a status write on a document that carries an extraction. */
  predicate Unsettles(docs: map<DocId, Document>, e: Option<Event>, d: DocId) {
    && e.Some?
    && ((e.value.FinishExtraction? && e.value.d == d && d in docs && !e.value.roleMatch)
        || (e.value.WriteStatus? && e.value.d == d && d in docs && docs[d].extraction.Some?))
  }

  /** An extraction in the declared role, a role decision, a removal. */
  predicate Settles(e: Option<Event>, d: DocId) {
    && e.Some?
    && ((e.value.FinishExtraction? && e.value.d == d && e.value.roleMatch)
        || (e.value.ResolveRole? && e.value.d == d)
        || (e.value.Remove? && e.value.d == d))
  }

  /** `docs` lists the documents before, between and after `events`. */
  predicate Follow(docs: seq<map<DocId, Document>>, events: seq<Option<Event>>) {
    && |docs| == |events| + 1
    && forall i | 0 <= i < |events| :: NextDocs(docs[i], events[i], docs[i + 1])
  }

  predicate NextDocs(docs: map<DocId, Document>, e: Option<Event>, docs': map<DocId, Document>) {
    if e.None? then docs' == docs
    else
      && docs' == DocsAfter(docs, e.value)
      && (e.value.Upload? ==> e.value.d !in docs)
      && (e.value.WriteStatus? ==> e.value.status in OPEN)
  }

  /** Between g and z something left document d unconfirmed, and nothing after it
      extracted d in its role, decided on it or removed it. */
  predicate LeftOpen(docs: seq<map<DocId, Document>>, events: seq<Option<Event>>, g: nat, z: nat, d: DocId)
    requires g <= z <= |events| < |docs|
  {
    exists i | g <= i < z :: Unsettles(docs[i], events[i], d) && forall j | i < j < z :: !Settles(events[j], d)
  }

  lemma UnconfirmedNext(docs: map<DocId, Document>, e: Option<Event>, docs': map<DocId, Document>, d: DocId)
    requires NextDocs(docs, e, docs')
    ensures Unconfirmed(docs', d) <==> Unsettles(docs, e, d) || (Unconfirmed(docs, d) && !Settles(e, d))
  {
  }

  lemma LeftOpenNext(docs: seq<map<DocId, Document>>, events: seq<Option<Event>>, g: nat, z: nat, d: DocId)
    requires g <= z < |events| < |docs|
    ensures LeftOpen(docs, events, g, z + 1, d)
       <==> Unsettles(docs[z], events[z], d) || (LeftOpen(docs, events, g, z, d) && !Settles(events[z], d))
  {
    hide Unsettles;
    hide Settles;
    if LeftOpen(docs, events, g, z, d) && !Settles(events[z], d) {
      var i :| g <= i < z && Unsettles(docs[i], events[i], d) && forall j | i < j < z :: !Settles(events[j], d);
      assert forall j | i < j < z + 1 :: !Settles(events[j], d);
    }
  }

  lemma {:induction false} UnconfirmedSince(docs: seq<map<DocId, Document>>, events: seq<Option<Event>>,
                                            g: nat, z: nat, d: DocId)
    requires Follow(docs, events) && g <= z <= |events| && !Unconfirmed(docs[g], d)
    ensures Unconfirmed(docs[z], d) <==> LeftOpen(docs, events, g, z, d)
    decreases z
  {
    hide NextDocs;
    hide Unconfirmed;
    hide Unsettles;
    hide Settles;
    if g < z {
      UnconfirmedSince(docs, events, g, z - 1, d);
      UnconfirmedNext(docs[z - 1], events[z - 1], docs[z], d);
      LeftOpenNext(docs, events, g, z - 1, d);
    }
  }

  /** What a review and an XML are stored with is the evidence they were built from. */
  lemma StoredEvidence(engine: Engine, s: State, e: Event)
    ensures e.Review? ==>
      var review := Apply(engine, s, e).review;
      review.Some? && review.value.evidence == EvidenceOf(s.docs)
    ensures e.Finalize? && Apply(engine, s, e).xmls != s.xmls ==>
      var xmls := Apply(engine, s, e).xmls;
      xmls != [] && xmls[|xmls| - 1].inputs.evidence == EvidenceOf(s.docs)
  {
    hide EvidenceOf;
  }

  // ---- the services ------------------------------------------------------------------------------------------ //

  datatype Error =
    | EXTRACTION_IN_PROGRESS | DOCUMENTS_NOT_EXTRACTED | DOCUMENT_ROLE_UNCONFIRMED | JOB_STATE_NOT_REVIEWABLE
    | DOCUMENT_ROLE_NOT_IN_REVIEW | DOCUMENT_EXTRACTION_RUNNING | FINALIZE_REFUSED

  datatype Result = Ok | Err(error: Error)

  predicate SomeDoc(docs: map<DocId, Document>, statuses: set<Status>) {
    exists d <- docs :: docs[d].status in statuses
  }

  /** What an evidence change of a role discards of the overlay, field by field. */
  ghost predicate Discards(before: Overlay, after: Overlay, role: Role) {
    match role
    case INVOICE =>
      && after.items == map[] && after.pins == map[] && after.bms == map[] && after.selections == []
      && after.shipment == before.shipment
    case PACKING_LIST => LosesShipment(before, after)
    case AIR_WAYBILL => LosesShipment(before, after)
    case BANKING => after == before
    case INSURANCE => after == before
    case CERTIFICATE_OF_ORIGIN => after == before
  }

  ghost predicate LosesShipment(before: Overlay, after: Overlay) {
    && after.shipment == None && after.pins == map[]
    && after.items == before.items && after.bms == before.bms && after.selections == before.selections
  }

  /** The history keeps what it has, and an invoice change adds for every item name the
      code of the last explicit selection made for it. */
  ghost predicate Remembers(o: Overlay, before: map<string, string>, after: map<string, string>, role: Role) {
    if role != INVOICE then after == before
    else
      && (forall i | 0 <= i < |o.selections| && LastFor(o.selections, i) ::
            o.selections[i].key in after && after[o.selections[i].key] == o.selections[i].code)
      && (forall key: string | !Selected(o.selections, key) ::
            (key in after <==> key in before) && (key in after ==> after[key] == before[key]))
  }

  ghost predicate Explicit(sel: Selection) { sel.explicit && sel.key != [] && sel.code != [] }

  ghost predicate Selected(sels: seq<Selection>, key: string) {
    exists i | 0 <= i < |sels| :: Explicit(sels[i]) && sels[i].key == key
  }

  ghost predicate LastFor(sels: seq<Selection>, i: nat) {
    i < |sels| && Explicit(sels[i]) && forall j | i < j < |sels| :: Explicit(sels[j]) ==> sels[j].key != sels[i].key
  }

  lemma ResetDiscards(o: Overlay, role: Role)
    ensures Discards(o, Reset(o, role), role)
  {
  }

  lemma FoldRemembers(o: Overlay, history: map<string, string>, role: Role)
    ensures Remembers(o, history, history + Fold(o, role), role)
  {
    var sels := o.selections;
    if role == INVOICE {
      forall i | 0 <= i < |sels| && LastFor(sels, i)
        ensures sels[i].key in Fold(o, role) && Fold(o, role)[sels[i].key] == sels[i].code
      {
        FoldKeeps(sels, |sels|, i);
      }
      forall key | key in Fold(o, role) ensures Selected(sels, key) {
        FoldInvents(sels, |sels|, key);
      }
    }
  }

  /** The extractions of the documents in these roles that are read and not rejected. */
  ghost predicate ReadFrom(against: Evidence, docs: map<DocId, Document>, roles: set<Role>) {
    && (forall d: DocId ::
          d in against <==> d in docs && docs[d].role in roles && docs[d].extraction.Some? && docs[d].status != RoleRejected)
    && forall d <- against :: d in docs && docs[d].extraction == Some(against[d])
  }

  /** What a reviewer's mutation enters, and against which evidence, channel by channel; all
      others keep theirs. */
  ghost predicate Enters(before: Overlay, after: Overlay, m: Mutation, docs: map<DocId, Document>) {
    match m
    case EditItem(item, value) =>
      && after.(items := map[]) == before.(items := map[]) && EntersAt(before.items, after.items, item, value)
      && ReadFrom(after.items[item].against, docs, {INVOICE})
    case PinItem(item, value) =>
      && after.(pins := map[]) == before.(pins := map[]) && EntersAt(before.pins, after.pins, item, value)
      && ReadFrom(after.pins[item].against, docs, {INVOICE, PACKING_LIST, AIR_WAYBILL})
    case SetTotals(value) =>
      && after.(shipment := None) == before.(shipment := None)
      && after.shipment.Some? && after.shipment.value.value == value
      && ReadFrom(after.shipment.value.against, docs, {PACKING_LIST, AIR_WAYBILL})
    case SelectHs(item, key, code, explicit) =>
      && after.(selections := []) == before.(selections := [])
      && SelectsAt(before.selections, after.selections, item, key, code, explicit)
      && forall sel | sel in after.selections && sel !in before.selections :: ReadFrom(sel.against, docs, {INVOICE})
  }

  ghost predicate EntersAt(before: map<nat, Entry>, after: map<nat, Entry>, item: nat, value: nat) {
    && item in after && after[item].value == value
    && forall i | i != item :: (i in after <==> i in before) && (i in after ==> after[i] == before[i])
  }

  lemma EvidenceReads(docs: map<DocId, Document>)
    ensures ReadFrom(InvoiceEvidence(docs), docs, {INVOICE})
    ensures ReadFrom(ShipmentEvidence(docs), docs, {PACKING_LIST, AIR_WAYBILL})
    ensures ReadFrom(ItemAndShipmentEvidence(docs), docs, {INVOICE, PACKING_LIST, AIR_WAYBILL})
  {
  }

  /** The first selection of the item is replaced in its place; a first one is appended. */
  ghost predicate SelectsAt(before: seq<Selection>, after: seq<Selection>, item: nat, key: string, code: string, explicit: bool) {
    exists k | 0 <= k <= |before| ::
      && (forall j | 0 <= j < k :: before[j].item != item) && (k < |before| ==> before[k].item == item)
      && |after| == (if k < |before| then |before| else |before| + 1)
      && after[k].item == item && after[k].key == key && after[k].code == code && after[k].explicit == explicit
      && forall j | 0 <= j < |before| && j != k :: after[j] == before[j]
  }

  lemma {:induction false} SelectionFirst(sels: seq<Selection>, item: nat, from: nat)
    requires from <= |sels|
    ensures forall j | from <= j < SelectionAt(sels, item, from) :: sels[j].item != item
    decreases |sels| - from
  {
    if from < |sels| && sels[from].item != item {
      SelectionFirst(sels, item, from + 1);
    }
  }

  lemma MutatedEnters(o: Overlay, m: Mutation, docs: map<DocId, Document>)
    ensures Enters(o, Mutated(o, m, docs), m, docs)
  {
    EvidenceReads(docs);
    hide ReadFrom;
    hide InvoiceEvidence;
    hide ShipmentEvidence;
    hide ItemAndShipmentEvidence;
    if m.SelectHs? {
      SelectDoes(o.selections, Selection(m.item, m.key, m.code, m.explicit, InvoiceEvidence(docs)));
      SelectAdds(o.selections, Selection(m.item, m.key, m.code, m.explicit, InvoiceEvidence(docs)));
    }
  }

  lemma SelectDoes(sels: seq<Selection>, sel: Selection)
    ensures SelectsAt(sels, Select(sels, sel), sel.item, sel.key, sel.code, sel.explicit)
  {
    SelectionFirst(sels, sel.item, 0);
    var k, after := SelectionAt(sels, sel.item, 0), Select(sels, sel);
    assert after[k] == sel && forall j | 0 <= j < |sels| && j != k :: after[j] == sels[j];
  }

  lemma SelectAdds(sels: seq<Selection>, sel: Selection)
    ensures forall other | other in Select(sels, sel) :: other == sel || other in sels
  {
  }

  class JobService {
    var docs: map<DocId, Document>
    var status: JobStatus
    var review: Option<Inputs>
    var declaration: Option<Declaration>
    var overlay: Overlay
    var history: map<string, string>
    var regime: nat
    var rate: nat
    var xmls: seq<Xml>
    var workbooks: seq<Workbook>
    var finalizes: nat

    /** The job as other transactions see it, with no caller between gate and lock. */
    function Snapshot(): State
      reads this
    {
      State(docs, status, review, declaration, overlay, history, regime, rate, xmls, workbooks, {}, finalizes)
    }

    constructor ()
      ensures Snapshot() == NEW_JOB
      ensures docs == map[] && status == UPLOADING && NothingDerived() && history == map[] && regime == 0 && rate == 0
      ensures finalizes == 0 && overlay == Overlay(map[], map[], None, [], map[])
    {
      docs, status, review, declaration := map[], UPLOADING, None, None;
      overlay, history, regime, rate := EMPTY, map[], 0, 0;
      xmls, workbooks, finalizes := [], [], 0;
    }

    /** The inputs, field by field, are what the job holds. */
    ghost predicate Describes(i: Inputs)
      reads this
    {
      && (forall d: DocId :: d in i.evidence <==> d in docs && docs[d].status != RoleRejected && docs[d].extraction.Some?)
      && (forall d <- i.evidence :: d in docs && docs[d].extraction.Some? && i.evidence[d] == (docs[d].role, docs[d].extraction.value))
      && i.items == overlay.items && i.pins == overlay.pins && i.shipment == overlay.shipment
      && i.selections == overlay.selections && i.history == history && i.regime == regime
    }

    ghost predicate NothingDerived()
      reads this
    {
      review.None? && declaration.None? && xmls == [] && workbooks == []
    }

    lemma InputsDescribe()
      ensures Describes(InputsOf(Snapshot()))
    {
    }

    method RequireExtracted() returns (r: Result)
      ensures r.Ok? <==> AllExtracted(docs)
      ensures r.Ok? <==> forall d <- docs :: docs[d].status == Extracted || docs[d].status == RoleRejected
      ensures r == Err(EXTRACTION_IN_PROGRESS) <==> exists d <- docs :: docs[d].status == Extracting
      ensures r == Err(DOCUMENT_ROLE_UNCONFIRMED) <==>
        && (exists d <- docs :: docs[d].status == RoleReview)
        && forall d <- docs :: docs[d].status == Extracted || docs[d].status == RoleRejected || docs[d].status == RoleReview
      ensures r == Err(EXTRACTION_IN_PROGRESS) <==> SomeDoc(docs, {Extracting})
      ensures r == Err(DOCUMENTS_NOT_EXTRACTED) <==> !SomeDoc(docs, {Extracting}) && SomeDoc(docs, {Uploaded, Failed})
    {
      if SomeDoc(docs, {Extracting}) {
        return Err(EXTRACTION_IN_PROGRESS);
      }
      if SomeDoc(docs, {Uploaded, Failed}) {
        return Err(DOCUMENTS_NOT_EXTRACTED);
      }
      if SomeDoc(docs, {RoleReview}) {
        return Err(DOCUMENT_ROLE_UNCONFIRMED);
      }
      return Ok;
    }

    method InvalidateDerived()
      modifies `review, `declaration, `xmls, `workbooks
      ensures Snapshot() == Invalidated(old(Snapshot())) && NothingDerived()
    {
      review, declaration := None, None;
      xmls, workbooks := [], [];
    }

    method ResetExtractionDerivedState(role: Role)
      modifies `overlay, `history
      ensures Snapshot() == ResetFor(old(Snapshot()), role)
      ensures Discards(old(overlay), overlay, role) && Remembers(old(overlay), old(history), history, role)
    {
      ResetDiscards(overlay, role);
      FoldRemembers(overlay, history, role);
      history := history + Fold(overlay, role);
      overlay := Reset(overlay, role);
    }

    /** The locked end of `run_extraction`. */
    method FinishRun(engine: Engine, d: DocId, extraction: nat, roleMatch: bool)
      requires d in docs && docs[d].status == Extracting
      modifies this
      ensures Snapshot() == Apply(engine, old(Snapshot()), FinishExtraction(d, extraction, roleMatch))
      ensures var doc := old(docs)[d];
        && docs == old(docs)[d := Document(doc.role, if roleMatch then Extracted else RoleReview, Some(extraction))]
        && status == EXTRACTION_COMPLETE && NothingDerived()
        && Discards(old(overlay), overlay, doc.role) && Remembers(old(overlay), old(history), history, doc.role)
    {
      var role := docs[d].role;
      docs := docs[d := Document(role, if roleMatch then Extracted else RoleReview, Some(extraction))];
      InvalidateDerived();
      ResetExtractionDerivedState(role);
      status := EXTRACTION_COMPLETE;
    }

    method ResolveDocumentRole(engine: Engine, d: DocId, accept: bool) returns (r: Result)
      requires d in docs
      modifies this
      ensures r.Ok? <==> Enabled(old(Snapshot()), ResolveRole(d, accept))
      ensures Snapshot() == if r.Ok? then Apply(engine, old(Snapshot()), ResolveRole(d, accept)) else old(Snapshot())
      ensures r.Ok? <==> old(docs)[d].status == RoleReview
      ensures r.Ok? ==>
        var doc := old(docs)[d];
        && docs == old(docs)[d := Document(doc.role, if accept then Extracted else RoleRejected, doc.extraction)]
        && status == EXTRACTION_COMPLETE && NothingDerived()
        && Discards(old(overlay), overlay, doc.role) && Remembers(old(overlay), old(history), history, doc.role)
    {
      if docs[d].status != RoleReview {
        return Err(DOCUMENT_ROLE_NOT_IN_REVIEW);
      }
      var role := docs[d].role;
      docs := docs[d := docs[d].(status := if accept then Extracted else RoleRejected)];
      InvalidateDerived();
      ResetExtractionDerivedState(role);
      status := EXTRACTION_COMPLETE;
      return Ok;
    }

    method RemoveDocument(engine: Engine, d: DocId) returns (r: Result)
      requires d in docs
      modifies this
      ensures r.Ok? <==> old(docs)[d].status != Extracting
      ensures Snapshot() == if r.Ok? then Apply(engine, old(Snapshot()), Remove(d)) else old(Snapshot())
      ensures r.Ok? ==>
        var role := old(docs)[d].role;
        && d !in docs && (forall c: DocId | c != d :: (c in docs <==> c in old(docs)) && (c in docs ==> docs[c] == old(docs)[c]))
        && (status == EXTRACTION_COMPLETE <==> exists c <- docs :: docs[c].status == Extracted)
        && (status != EXTRACTION_COMPLETE ==> status == UPLOADING) && NothingDerived()
        && Discards(old(overlay), overlay, role) && Remembers(old(overlay), old(history), history, role)
    {
      if docs[d].status == Extracting {
        return Err(DOCUMENT_EXTRACTION_RUNNING);
      }
      var role := docs[d].role;
      docs := docs - {d};
      InvalidateDerived();
      ResetExtractionDerivedState(role);
      status := if exists c <- docs :: docs[c].status == Extracted then EXTRACTION_COMPLETE else UPLOADING;
      return Ok;
    }

    method RecomputeAfterMutation()
      modifies `review, `status
      ensures Snapshot() == Reviewed(old(Snapshot()))
      ensures review.Some? && Describes(review.value) && status == CRITICAL_REVIEW_REQUIRED
    {
      InputsDescribe();
      review := Some(InputsOf(Snapshot()));
      status := CRITICAL_REVIEW_REQUIRED;
    }

    /** Gate, then lock. */
    method CriticalReview(engine: Engine) returns (r: Result)
      modifies this
      ensures r.Ok? <==> Enabled(old(Snapshot()), Gate(0))
      ensures Snapshot() == if r.Ok? then Apply(engine, Apply(engine, old(Snapshot()), Gate(0)), Review(0))
                            else old(Snapshot())
      ensures r.Ok? <==> forall d <- docs :: docs[d].status == Extracted || docs[d].status == RoleRejected
      ensures r.Ok? ==>
        review.Some? && Describes(review.value) && status == CRITICAL_REVIEW_REQUIRED
        && xmls == old(xmls) && workbooks == old(workbooks) && declaration == old(declaration)
    {
      r := RequireExtracted();
      if r.Ok? {
        RecomputeAfterMutation();
      }
    }

    /** Add, edit, delete, HS review, bulk COO, shipment totals. */
    method MutateItems(engine: Engine, m: Mutation) returns (r: Result)
      modifies this
      ensures r.Ok? <==> Enabled(old(Snapshot()), Mutate(m))
      ensures Snapshot() == if r.Ok? then Apply(engine, old(Snapshot()), Mutate(m)) else old(Snapshot())
      ensures r.Ok? <==>
        && old(status) in {CRITICAL_REVIEW_REQUIRED, VALIDATION_BLOCKED, XML_READY}
        && forall d <- docs :: docs[d].status == Extracted || docs[d].status == RoleRejected
      ensures r.Ok? ==>
        && Enters(old(overlay), overlay, m, docs) && docs == old(docs) && history == old(history) && regime == old(regime)
        && declaration.None? && xmls == [] && workbooks == []
        && review.Some? && Describes(review.value) && status == CRITICAL_REVIEW_REQUIRED
    {
      hide InvoiceEvidence;
      hide ShipmentEvidence;
      hide ItemAndShipmentEvidence;
      hide EvidenceOf;
      hide Enters;
      hide Mutated;
      if status != CRITICAL_REVIEW_REQUIRED && status != VALIDATION_BLOCKED && status != XML_READY {
        return Err(JOB_STATE_NOT_REVIEWABLE);
      }
      r := RequireExtracted();
      if r.Ok? {
        MutatedEnters(overlay, m, docs);
        overlay := Mutated(overlay, m, docs);
        InvalidateDerived();
        RecomputeAfterMutation();
      }
    }

    method ReviewRegimeSelections(engine: Engine, selected: nat) returns (r: Result)
      modifies this
      ensures r.Ok? <==> Enabled(old(Snapshot()), SelectRegime(selected))
      ensures Snapshot() == if r.Ok? then Apply(engine, old(Snapshot()), SelectRegime(selected)) else old(Snapshot())
      ensures r.Ok? <==> forall d <- docs :: docs[d].status == Extracted || docs[d].status == RoleRejected
      ensures r.Ok? ==> regime == selected && docs == old(docs) && overlay == old(overlay) && history == old(history)
      ensures selected == old(regime) ==> Snapshot() == old(Snapshot())
      ensures r.Ok? && selected != old(regime) ==>
        && declaration.None? && xmls == [] && workbooks == []
        && review.Some? && Describes(review.value) && status == CRITICAL_REVIEW_REQUIRED
    {
      r := RequireExtracted();
      if r.Err? || selected == regime {
        return;
      }
      regime := selected;
      InvalidateDerived();
      RecomputeAfterMutation();
    }

    /** Export-only columns: the status, the XML and the declared values survive. */
    method EditItemBms(engine: Engine, item: nat, value: nat) returns (r: Result)
      modifies this
      ensures r.Ok? <==> Enabled(old(Snapshot()), EditBms(item, value))
      ensures Snapshot() == if r.Ok? then Apply(engine, old(Snapshot()), EditBms(item, value)) else old(Snapshot())
      ensures r.Ok? <==> forall d <- docs :: docs[d].status == Extracted || docs[d].status == RoleRejected
      ensures status == old(status) && xmls == old(xmls) && docs == old(docs) && rate == old(rate)
      ensures r.Ok? ==>
        && item in overlay.bms && overlay.bms[item].value == value && overlay.(bms := map[]) == old(overlay).(bms := map[])
        && ReadFrom(overlay.bms[item].against, docs, {INVOICE})
        && (forall i | i != item :: i in overlay.bms <==> i in old(overlay).bms)
        && (forall i <- overlay.bms | i != item :: overlay.bms[i] == old(overlay).bms[i])
        && review.Some? && Describes(review.value)
        && (if old(workbooks) == [] then workbooks == [] && declaration == old(declaration)
            else
              && workbooks == [Workbook(old(workbooks)[|old(workbooks)| - 1].number, overlay.bms)]
              && (declaration.Some? <==> old(declaration).Some?)
              && (declaration.Some? ==> declaration.value == old(declaration).value.(bms := overlay.bms)))
    {
      hide InvoiceEvidence;
      hide ShipmentEvidence;
      hide ItemAndShipmentEvidence;
      hide EvidenceOf;
      hide Describes;
      EvidenceReads(docs);
      hide ReadFrom;
      r := RequireExtracted();
      if r.Err? {
        return;
      }
      overlay := overlay.(bms := overlay.bms[item := Entry(value, InvoiceEvidence(docs))]);
      review := Some(InputsOf(Snapshot()));
      if workbooks != [] {
        if declaration.Some? {
          declaration := Some(declaration.value.(bms := overlay.bms));
        }
        workbooks := [Workbook(workbooks[|workbooks| - 1].number, overlay.bms)];
      }
      InputsDescribe();
    }

    /** Gate, then `_finalize_job_locked`. */
    method FinalizeJob(engine: Engine, body: nat) returns (r: Result, ghost inputs: Inputs)
      modifies this
      ensures !Enabled(old(Snapshot()), Gate(0)) ==> r.Err? && Snapshot() == old(Snapshot())
      ensures Enabled(old(Snapshot()), Gate(0)) ==>
        Snapshot() == Apply(engine, Apply(engine, old(Snapshot()), Gate(0)), Finalize(0, body))
      ensures (exists d <- docs :: docs[d].status != Extracted && docs[d].status != RoleRejected) ==>
        r.Err? && Snapshot() == old(Snapshot())
      ensures docs == old(docs) && overlay == old(overlay) && history == old(history) && regime == old(regime)
      ensures old(Describes(inputs))
      ensures r.Err? <==>
        || (exists d <- docs :: docs[d].status != Extracted && docs[d].status != RoleRejected)
        || engine(inputs, old(rate), body).Refused?
      ensures r.Err? ==> Snapshot() == old(Snapshot())
      ensures r.Ok? && engine(inputs, old(rate), body).StaleReview? ==>
        && review == Some(inputs) && status == CRITICAL_REVIEW_REQUIRED
        && xmls == old(xmls) && workbooks == old(workbooks) && declaration == old(declaration) && rate == old(rate)
      ensures r.Ok? && engine(inputs, old(rate), body).CountMismatch? ==>
        && status == EXTRACTION_RUNNING && review == old(review)
        && xmls == old(xmls) && workbooks == old(workbooks) && declaration == old(declaration) && rate == old(rate)
      ensures r.Ok? && engine(inputs, old(rate), body).Concluded? ==>
        var c := engine(inputs, old(rate), body);
        && review == old(review) && rate == c.rate && finalizes == old(finalizes) + 1
        && declaration == Some(Declaration(inputs, c.ready, c.rate, finalizes, overlay.bms))
        && (status == XML_READY <==> c.ready) && (status == VALIDATION_BLOCKED <==> !c.ready)
        && xmls == old(xmls) + (if c.ready || c.warnBuild then [Xml(inputs, c.rate, finalizes)] else [])
        && workbooks == old(workbooks) + (if c.ready || c.warnBuild then [Workbook(finalizes, overlay.bms)] else [])
    {
      inputs := InputsOf(Snapshot());
      InputsDescribe();
      r := RequireExtracted();
      if r.Err? {
        return;
      }
      var outcome := engine(InputsOf(Snapshot()), rate, body);
      match outcome {
        case Refused =>
          r := Err(FINALIZE_REFUSED);
        case StaleReview =>
          RecomputeAfterMutation();
        case CountMismatch =>
          status := EXTRACTION_RUNNING;
        case Concluded(chosen, ready, warnBuild) =>
          Conclude(chosen, ready, warnBuild);
      }
    }

    method Conclude(chosen: nat, ready: bool, warnBuild: bool)
      modifies this
      ensures Snapshot() == Concluding(old(Snapshot()), chosen, ready, warnBuild)
      ensures rate == chosen && finalizes == old(finalizes) + 1
      ensures docs == old(docs) && overlay == old(overlay) && history == old(history) && regime == old(regime)
      ensures declaration == Some(Declaration(InputsOf(old(Snapshot())), ready, chosen, finalizes, overlay.bms))
      ensures status == if ready then XML_READY else VALIDATION_BLOCKED
      ensures review == old(review)
      ensures xmls == old(xmls) + if ready || warnBuild then [Xml(InputsOf(old(Snapshot())), chosen, finalizes)] else []
      ensures workbooks == old(workbooks) + if ready || warnBuild then [Workbook(finalizes, overlay.bms)] else []
    {
      var inputs := InputsOf(Snapshot());
      finalizes := finalizes + 1;
      declaration := Some(Declaration(inputs, ready, chosen, finalizes, overlay.bms));
      rate := chosen;
      if ready || warnBuild {
        xmls := xmls + [Xml(inputs, chosen, finalizes)];
        workbooks := workbooks + [Workbook(finalizes, overlay.bms)];
        status := if ready then XML_READY else VALIDATION_BLOCKED;
      } else {
        status := VALIDATION_BLOCKED;
      }
    }
  }
}
