/** The verdict on a declaration: the validator, the gates behind it, and whether an
    XML may be built. */
module Verdict {
  import opened Text
  import opened Decimals
  import opened Messages
  import opened Validator
  import V = Valuation

  /** What the late gates read of the reviewed values. */
  datatype Reviewed = Reviewed(
    weightUnitMissing: bool, authorityConfirmed: bool, gross: Dec, packages: Dec,
    mawb: string, hawb: string, billOfLading: string, field40Confirmed: bool)
  {
    predicate Referenced() { mawb != [] || hawb != [] || billOfLading != [] }
  }

  datatype WorkItem = WorkItem(
    sequence: nat, hsGuessed: bool, hsConfirmed: bool, manual: bool, description: string, quantity: Dec)
  {
    predicate Incomplete() { manual && (Blank(description) || Value(quantity) <= 0.0) }

    predicate Unconfirmed() { hsGuessed && !hsConfirmed }
  }

  predicate Hard(c: Code) {
    || c.GROSS_ALLOCATION_IMPOSSIBLE? || c.REVIEWED_GROSS_EXCEEDS_AUTHORITY? || c.REVIEWED_GROSS_TOTAL_MISMATCH?
    || c.WEIGHT_RECONCILIATION_IMPOSSIBLE? || c.INVOICE_DUPLICATE_DOCUMENT? || c.REVIEWED_CTN_EXCEEDS_AUTHORITY?
    || c.REVIEWED_CTN_TOTAL_MISMATCH? || c.CARTON_LATTICE_VIOLATION? || c.CARTON_RECONCILIATION_FAILED?
  }

  predicate ReviewedFails(r: Reviewed, c: Code) {
    || (c == WEIGHT_UNIT_UNCONFIRMED && r.weightUnitMissing && !r.authorityConfirmed)
    || (c == SHIPMENT_GROSS_REQUIRED && Value(r.gross) <= 0.0)
    || (c == SHIPMENT_PACKAGES_REQUIRED && Value(r.packages) <= 0.0)
    || (c == TRANSPORT_REFERENCE_REQUIRED && !r.Referenced())
    || (c == FIELD_40_UNCONFIRMED && r.Referenced() && !r.field40Confirmed)
  }

  predicate WorkFails(work: seq<WorkItem>, c: Code) {
    || (c == HS_GUESS_UNCONFIRMED && Guessed(work, |work|))
    || (c == MANUAL_ITEM_INCOMPLETE && Unfinished(work, |work|))
  }

  /** The blocking messages the weight allocation left. */
  predicate AllocationFails(ms: seq<Message>, n: nat, c: Code)
    requires n <= |ms|
  {
    exists j | 0 <= j < n :: ms[j].severity == BLOCKING && ms[j].code == c
  }

  predicate LateFails(allocation: seq<Message>, r: Reviewed, work: seq<WorkItem>, c: Code) {
    AllocationFails(allocation, |allocation|, c) || ReviewedFails(r, c) || WorkFails(work, c)
  }

  /** What a ready declaration guarantees. */
  ghost predicate Sound(h: Header, items: seq<Item>) {
    && items != []
    && (forall i | 0 <= i < |items| ::
          && |items[i].hs| == 11 && AllDigits(items[i].hs) && |items[i].coo| == 2
          && Value(items[i].supplementary) > 0.0
          && (Value(items[i].gross) > 0.0 ==> Value(items[i].net) < Value(items[i].gross)))
    && (Value(h.totalWeight) > 0.0 ==> Abs(V.Total(Grosses(items)) - Value(h.totalWeight)) <= TOLERANCE)
    && (Value(h.totalPackages) > 0.0 ==> Abs(V.Total(Packages(items)) - Value(h.totalPackages)) <= TOLERANCE)
  }

  lemma NothingFailsSound(h: Header, items: seq<Item>, warnings: seq<Message>, ref: Reference)
    requires forall c :: !Fails(h, items, warnings, ref, c)
    ensures Sound(h, items)
  {
    assert !TotalsFail(h, items, INVOICE_NO_VALID_SOURCE) by { assert !Fails(h, items, warnings, ref, INVOICE_NO_VALID_SOURCE); }
    assert !TotalsFail(h, items, WEIGHT_RECONCILIATION_IMPOSSIBLE) by {
      assert !Fails(h, items, warnings, ref, WEIGHT_RECONCILIATION_IMPOSSIBLE);
    }
    assert !TotalsFail(h, items, CARTON_RECONCILIATION_FAILED) by {
      assert !Fails(h, items, warnings, ref, CARTON_RECONCILIATION_FAILED);
    }
    forall i | 0 <= i < |items|
      ensures !HsInvalid(items[i]) && |items[i].coo| == 2 && !SupplementaryInvalid(items[i]) && !NetNotBelowGross(items[i])
    {
      assert !Fails(h, items, warnings, ref, HS_MANUAL_REVIEW);
      assert !Fails(h, items, warnings, ref, COO_UNRESOLVED);
      assert !Fails(h, items, warnings, ref, SUPPLEMENTARY_QTY_INVALID);
      assert !Fails(h, items, warnings, ref, WEIGHT_RECONCILIATION_IMPOSSIBLE);
      assert !ItemFails(items[i], HS_MANUAL_REVIEW) && !ItemFails(items[i], COO_UNRESOLVED);
    }
  }

  /** `_fmt_packages`: a whole count as it is, any other with two decimals. */
  function PackagesShown(d: Dec): Dec {
    if d.exp >= 0 || Remainder(d.coef, Pow10(-d.exp)) == 0 then d else Q2(d)
  }

  /** The header shows the reviewed totals, as the builder formats them. */
  predicate Shows(h: Header, r: Reviewed) {
    Value(h.totalWeight) == Value(Q4(r.gross)) && Value(h.totalPackages) == Value(PackagesShown(r.packages))
  }

  /** A whole number, however many zeros are written behind its point. */
  ghost predicate IsCount(d: Dec) { d.exp < 0 ==> d.coef % Pow10(-d.exp) == 0 }

  /** What a header made of the reviewed totals shows: the gross to four places, a count of
      packages as it is and any other number to two. */
  lemma HeaderShows(h: Header, r: Reviewed)
    ensures PackagesShown(r.packages) == if IsCount(r.packages) then r.packages else Q2(r.packages)
    ensures forall weight: Dec, packages: Dec |
      Value(weight) == Value(Q4(r.gross)) && Value(packages) == Value(PackagesShown(r.packages)) ::
      Shows(h.(totalWeight := weight, totalPackages := packages), r)
  {
    hide Value, Q4, Q2;
  }

  /** The items add up to the reviewed totals, unless a total rounds to 0. */
  ghost predicate Reconciled(items: seq<Item>, r: Reviewed) {
    && (Value(Q4(r.gross)) != 0.0 ==> Abs(V.Total(Grosses(items)) - Value(r.gross)) <= TOLERANCE + 0.00005)
    && (Value(PackagesShown(r.packages)) != 0.0 ==>
          Abs(V.Total(Packages(items)) - Value(r.packages)) <= TOLERANCE + 0.005)
  }

  lemma ShownPositive(d: Dec, places: nat)
    requires Value(d) > 0.0
    ensures Value(Quantize(d, places, ROUND_HALF_UP)) >= 0.0
  {
    hide Round;
    var q := Quantize(d, places, ROUND_HALF_UP);
    ScaleSign(d.coef as real, d.exp);
    assert d.neg && d.coef > 0 ==> Signed(d) as real == -(d.coef as real);
    ScaleSign(q.coef as real, q.exp);
  }

  lemma SoundReconciles(h: Header, items: seq<Item>, r: Reviewed)
    requires Sound(h, items) && Shows(h, r) && Value(r.gross) > 0.0 && Value(r.packages) > 0.0
    ensures Reconciled(items, r)
  {
    hide V.Total;
    hide Grosses;
    hide Packages;
    hide Quantize;
    assert Scaled(1, -4) == 0.0001 && Scaled(1, -2) == 0.01 by {
      assert Scale(1.0, -1) == 0.1 && Scale(1.0, -2) == 0.01 && Scale(1.0, -3) == 0.001;
    }
    QuantizeClose(r.gross, 4);
    QuantizeClose(r.packages, 2);
    ShownPositive(r.gross, 4);
    ShownPositive(r.packages, 2);
  }

  // ---- every code, with what calls for it ----------------------------------------------------- //

  predicate Letters(s: string) {
    forall ch | ch in s :: '0' <= ch <= '9' || 'a' <= ch <= 'z' || 'A' <= ch <= 'Z'
  }

  predicate AllWhite(s: string) { forall ch | ch in s :: IsSpace(ch) }

  /** The first bank with the code carries the name, but for case and blanks around it. */
  predicate BankKnown(banks: seq<Bank>, code: string, name: string) {
    exists k | 0 <= k < |banks| ::
      && banks[k].code == code && (forall i | 0 <= i < k :: banks[i].code != code)
      && LowerAll(Strip(banks[k].name)) == LowerAll(name)
  }

  /** What is wrong with the header when it draws the code. */
  predicate RegimeCalls(h: Header, ref: Reference, c: Code) {
    match c
    case IMPORTER_EXIM_INVALID => |h.consigneeCode| < 13 || |h.consigneeCode| > 15 || !Letters(h.consigneeCode)
    case PACKAGE_TYPE_UNSUPPORTED => !(h.packageType in ref.packageTypes)
    case DECLARATION_MODEL_INVALID => !((h.declarationType, h.procedureCode) in ref.modelPairs)
    case CUSTOMS_OFFICE_INVALID =>
      h.customsOffice !in ref.offices || (h.borderOffice != "" && h.borderOffice !in ref.offices)
    case PROCEDURE_INVALID =>
      h.extendedProcedure !in ref.extendedProcedures || h.nationalProcedure !in ref.nationalProcedures
    case PROCEDURE_TYPE_MISMATCH =>
      && h.extendedProcedure in ref.extendedProcedures && |h.procedureCode| > 0
      && (|h.extendedProcedure| > 0 ==> h.procedureCode != [h.extendedProcedure[0]])
    case _ => false
  }

  predicate PartiesCall(h: Header, ref: Reference, c: Code) {
    match c
    case TRANSPORT_MODE_REQUIRED => |h.borderMode| == 0 || |h.inlandMode| == 0
    case TRANSPORT_MODE_INVALID =>
      || (|h.borderMode| > 0 && h.borderMode !in ref.transportModes)
      || (|h.inlandMode| > 0 && h.inlandMode !in ref.transportModes)
    case FIELD_40_MISSING =>
      AllWhite(h.field40) && h.authorityType in ["HAWB", "TRUE_DO", "TRACKING", "SINGLE_AWB"]
    case IMPORTER_COUNTRY_INVALID => |h.consigneeCountry| > 0 && h.consigneeCountry !in ref.alpha2
    case EXPORTER_COUNTRY_INVALID => |h.exporterCountry| > 0 && h.exporterCountry !in ref.alpha2
    case BANK_PAIR_INCOMPLETE => AllWhite(h.bankCode) <==> !AllWhite(h.bankName)
    case BANK_PAIR_MISMATCH =>
      && !AllWhite(h.bankCode) && !AllWhite(h.bankName)
      && !BankKnown(ref.banks, Strip(h.bankCode), Strip(h.bankName))
    case PAYMENT_TERM_INVALID => |h.termsCode| > 0 && h.termsCode !in ref.terms
    case _ => false
  }

  ghost predicate ItemsCall(h: Header, items: seq<Item>, c: Code) {
    match c
    case INVOICE_NO_VALID_SOURCE => |items| == 0
    case HS_MANUAL_REVIEW => exists it | it in items :: |it.hs| != 11 || exists ch | ch in it.hs :: ch < '0' || '9' < ch
    case COO_UNRESOLVED => exists it | it in items :: |it.coo| != 2
    case SUPPLEMENTARY_QTY_INVALID => exists it | it in items :: Value(it.supplementary) <= 0.0
    case WEIGHT_RECONCILIATION_IMPOSSIBLE =>
      || (exists it | it in items :: 0.0 < Value(it.gross) <= Value(it.net))
      || (Value(h.totalWeight) > 0.0 && Abs(V.Total(Grosses(items)) - Value(h.totalWeight)) > 0.05)
    case CARTON_RECONCILIATION_FAILED =>
      Value(h.totalPackages) > 0.0 && Abs(V.Total(Packages(items)) - Value(h.totalPackages)) > 0.05
    case _ => false
  }

  ghost predicate ReviewCalls(r: Reviewed, work: seq<WorkItem>, c: Code) {
    match c
    case WEIGHT_UNIT_UNCONFIRMED => r.weightUnitMissing && !r.authorityConfirmed
    case SHIPMENT_GROSS_REQUIRED => !(Value(r.gross) > 0.0)
    case SHIPMENT_PACKAGES_REQUIRED => !(Value(r.packages) > 0.0)
    case TRANSPORT_REFERENCE_REQUIRED => |r.mawb| + |r.hawb| + |r.billOfLading| == 0
    case FIELD_40_UNCONFIRMED => |r.mawb| + |r.hawb| + |r.billOfLading| > 0 && !r.field40Confirmed
    case HS_GUESS_UNCONFIRMED => exists w | w in work :: w.hsGuessed && !w.hsConfirmed
    case MANUAL_ITEM_INCOMPLETE =>
      exists w | w in work :: w.manual && (AllWhite(w.description) || Value(w.quantity) <= 0.0)
    case _ => false
  }

  /** An engine said so: with a blocking message on an item or of the weight allocation,
      or with one of the two warnings that block all the same. */
  predicate EngineCalls(items: seq<Item>, warnings: seq<Message>, allocation: seq<Message>, c: Code) {
    || (exists it | it in items :: exists m | m in it.warnings :: m.severity == BLOCKING && m.code == c)
    || (exists m | m in allocation :: m.severity == BLOCKING && m.code == c)
    || (c in [MIXED_INVOICE_CURRENCIES, INVOICE_DUPLICATE_DOCUMENT] && exists m | m in warnings :: m.code == c)
  }

  /** What a declaration must be blocked for. */
  ghost predicate CalledFor(h: Header, items: seq<Item>, warnings: seq<Message>, ref: Reference,
                            allocation: seq<Message>, r: Reviewed, work: seq<WorkItem>, c: Code) {
    || RegimeCalls(h, ref, c) || PartiesCall(h, ref, c) || ItemsCall(h, items, c) || ReviewCalls(r, work, c)
    || EngineCalls(items, warnings, allocation, c)
  }

  lemma BlankIsWhite(s: string)
    ensures Blank(s) <==> AllWhite(s)
  {
    var before, after := StripIsSlice(s);
    if Blank(s) {
      assert s == before + after;
    } else {
      assert Strip(s)[0] in s;
    }
  }

  lemma BankPairKnown(banks: seq<Bank>, code: string, name: string)
    ensures BankPair(banks, code, name) <==> BankKnown(banks, code, name)
  {
    hide LowerAll, Strip;
    var k := FirstBank(banks, code, 0);
    assert forall i | 0 <= i < k :: banks[i].code != code;
  }

  lemma EximLetters(s: string)
    ensures EximValid(s) <==> 13 <= |s| <= 15 && Letters(s)
  {
    forall i | 0 <= i < |s| ensures s[i] in s {}
  }

  lemma Starts(procedure: string, code: string)
    requires |code| > 0
    ensures StartsWith(procedure, code) <==> |procedure| > 0 && code == [procedure[0]]
  {
  }

  lemma RegimeCalled(h: Header, ref: Reference, c: Code)
    ensures RegimeFails(h, ref, c) <==> RegimeCalls(h, ref, c)
  {
    EximLetters(h.consigneeCode);
    if |h.procedureCode| > 0 {
      Starts(h.extendedProcedure, h.procedureCode);
    }
    hide EximValid, Letters, StartsWith;
  }

  lemma PartiesCalled(h: Header, ref: Reference, c: Code)
    ensures PartiesFail(h, ref, c) <==> PartiesCall(h, ref, c)
  {
    BlankIsWhite(h.field40);
    BlankIsWhite(h.bankCode);
    BlankIsWhite(h.bankName);
    BankPairKnown(ref.banks, Strip(h.bankCode), Strip(h.bankName));
    hide Blank, AllWhite, BankPair, BankKnown, Strip;
  }

  lemma ItemFailsIn(items: seq<Item>, c: Code)
    ensures ItemsFail(items, |items|, c)
       <==> (exists it | it in items :: ItemFails(it, c)) || (exists it | it in items :: Bubbles(it, |it.warnings|, c))
  {
    hide ItemFails, Bubbles;
    if it :| it in items && (ItemFails(it, c) || Bubbles(it, |it.warnings|, c)) {
      var i :| 0 <= i < |items| && items[i] == it;
    }
    if i :| 0 <= i < |items| && (ItemFails(items[i], c) || Bubbles(items[i], |items[i].warnings|, c)) {
      assert items[i] in items;
    }
  }

  lemma BlocksIn(ms: seq<Message>, c: Code)
    ensures AllocationFails(ms, |ms|, c) <==> exists m | m in ms :: m.severity == BLOCKING && m.code == c
  {
  }

  lemma BubblesIn(it: Item, c: Code)
    ensures Bubbles(it, |it.warnings|, c) <==> exists m | m in it.warnings :: m.severity == BLOCKING && m.code == c
  {
  }

  lemma NotDigit(s: string)
    ensures AllDigits(s) <==> !(exists ch | ch in s :: ch < '0' || '9' < ch)
  {
    forall i | 0 <= i < |s| ensures s[i] in s {}
  }

  lemma ItemCalled(it: Item, c: Code)
    ensures ItemFails(it, c)
       <==> || (c == HS_MANUAL_REVIEW && (|it.hs| != 11 || exists ch | ch in it.hs :: ch < '0' || '9' < ch))
            || (c == COO_UNRESOLVED && |it.coo| != 2)
            || (c == SUPPLEMENTARY_QTY_INVALID && Value(it.supplementary) <= 0.0)
            || (c == WEIGHT_RECONCILIATION_IMPOSSIBLE && 0.0 < Value(it.gross) <= Value(it.net))
  {
    NotDigit(it.hs);
    hide AllDigits, Value;
  }

  lemma GatesCalled(h: Header, items: seq<Item>, c: Code)
    ensures (exists it | it in items :: ItemFails(it, c)) || TotalsFail(h, items, c) <==> ItemsCall(h, items, c)
  {
    forall it | it in items
      ensures ItemFails(it, c)
         <==> || (c == HS_MANUAL_REVIEW && (|it.hs| != 11 || exists ch | ch in it.hs :: ch < '0' || '9' < ch))
              || (c == COO_UNRESOLVED && |it.coo| != 2)
              || (c == SUPPLEMENTARY_QTY_INVALID && Value(it.supplementary) <= 0.0)
              || (c == WEIGHT_RECONCILIATION_IMPOSSIBLE && 0.0 < Value(it.gross) <= Value(it.net))
    {
      ItemCalled(it, c);
    }
    hide ItemFails, Value, V.Total, Grosses, Packages;
  }

  lemma ItemsCalled(h: Header, items: seq<Item>, c: Code)
    ensures ItemsFail(items, |items|, c) || TotalsFail(h, items, c)
       <==> || ItemsCall(h, items, c)
            || exists it | it in items :: exists m | m in it.warnings :: m.severity == BLOCKING && m.code == c
  {
    hide ItemFails, ItemsFail, TotalsFail, ItemsCall, Bubbles;
    ItemFailsIn(items, c);
    GatesCalled(h, items, c);
    forall it | it in items
      ensures Bubbles(it, |it.warnings|, c) <==> exists m | m in it.warnings :: m.severity == BLOCKING && m.code == c
    {
      BubblesIn(it, c);
    }
  }

  lemma WorkIn(work: seq<WorkItem>)
    ensures Guessed(work, |work|) <==> exists w | w in work :: w.hsGuessed && !w.hsConfirmed
    ensures Unfinished(work, |work|)
       <==> exists w | w in work :: w.manual && (AllWhite(w.description) || Value(w.quantity) <= 0.0)
  {
    hide AllWhite, Blank, Value;
    forall w | w in work
      ensures w.Incomplete() <==> w.manual && (AllWhite(w.description) || Value(w.quantity) <= 0.0)
    {
      BlankIsWhite(w.description);
    }
    forall i | 0 <= i < |work|
      ensures work[i] in work
    {
    }
  }

  lemma ReviewCalled(r: Reviewed, work: seq<WorkItem>, c: Code)
    ensures ReviewedFails(r, c) || WorkFails(work, c) <==> ReviewCalls(r, work, c)
  {
    WorkIn(work);
    hide Value, Guessed, Unfinished, AllWhite;
  }

  lemma WarnedIn(ms: seq<Message>, c: Code)
    ensures c in CodesOf(ms) <==> exists m | m in ms :: m.code == c
  {
  }

  /** The gates fail for what calls for them, code by code, and for nothing else. */
  lemma FailsForCause(h: Header, items: seq<Item>, warnings: seq<Message>, ref: Reference,
                      allocation: seq<Message>, r: Reviewed, work: seq<WorkItem>, c: Code)
    ensures Fails(h, items, warnings, ref, c) || LateFails(allocation, r, work, c)
       <==> CalledFor(h, items, warnings, ref, allocation, r, work, c)
  {
    RegimeCalled(h, ref, c);
    PartiesCalled(h, ref, c);
    ItemsCalled(h, items, c);
    ReviewCalled(r, work, c);
    BlocksIn(allocation, c);
    WarnedIn(warnings, c);
    hide RegimeCalls, PartiesCall, RegimeFails, PartiesFail, ItemsCall, ItemsFail, TotalsFail, ReviewedFails, WorkFails, ReviewCalls;
    hide AllocationFails, CodesOf;
  }

  lemma {:induction false} QuietIn(ms: seq<Message>, n: nat)
    requires n <= |ms|
    ensures forall m :: m in Quiet(ms, n) <==> m in ms[..n] && m.severity != BLOCKING
  {
    if n > 0 {
      QuietIn(ms, n - 1);
      assert ms[..n] == ms[..n - 1] + [ms[n - 1]];
    }
  }

  lemma QuietWarned(warnings: seq<Message>, allocation: seq<Message>, c: Code)
    ensures (exists m | m in warnings + allocation :: m.code == c)
       <==> || (exists m | m in warnings + Quiet(allocation, |allocation|) :: m.code == c)
            || (exists m | m in allocation :: m.severity == BLOCKING && m.code == c)
  {
    QuietIn(allocation, |allocation|);
    assert allocation[..|allocation|] == allocation;
    hide Quiet;
  }

  /** Of the messages of the allocation, those that do not block join the warnings. */
  lemma QuietCalls(h: Header, items: seq<Item>, warnings: seq<Message>, ref: Reference,
                   allocation: seq<Message>, r: Reviewed, work: seq<WorkItem>, c: Code)
    ensures CalledFor(h, items, warnings + Quiet(allocation, |allocation|), ref, allocation, r, work, c)
       <==> CalledFor(h, items, warnings + allocation, ref, allocation, r, work, c)
  {
    hide RegimeCalls, PartiesCall, ItemsCall, ReviewCalls, EngineCalls;
    QuietEngine(items, warnings, allocation, c);
  }

  lemma QuietEngine(items: seq<Item>, warnings: seq<Message>, allocation: seq<Message>, c: Code)
    ensures EngineCalls(items, warnings + Quiet(allocation, |allocation|), allocation, c)
       <==> EngineCalls(items, warnings + allocation, allocation, c)
  {
    hide Quiet;
    QuietWarned(warnings, allocation, c);
  }

  lemma {:induction false} KeptIn(ms: seq<Message>, n: nat)
    requires n <= |ms|
    ensures forall m :: m in Validator.Kept(ms, n) <==> m in ms[..n] && !Escalates(m.code)
  {
    if n > 0 {
      KeptIn(ms, n - 1);
      assert ms[..n] == ms[..n - 1] + [ms[n - 1]];
    }
  }

  lemma {:induction false} QuietItemsIn(items: seq<Item>, n: nat)
    requires n <= |items|
    ensures forall m :: (
      m in QuietItems(items, n) <==> exists i | 0 <= i < n :: m in items[i].warnings && m.severity != BLOCKING)
  {
    if n > 0 {
      QuietItemsIn(items, n - 1);
      var last := items[n - 1].warnings;
      QuietIn(last, |last|);
      assert last[..|last|] == last;
      hide Quiet;
    }
  }

  /** What stays a warning: all that was one but for the two codes that block, the header's
      notes, and what the engines left on an item without blocking. */
  predicate StaysWarning(items: seq<Item>, warnings: seq<Message>, notes: seq<Message>, m: Message) {
    || (m in warnings && m.code != MIXED_INVOICE_CURRENCIES && m.code != INVOICE_DUPLICATE_DOCUMENT)
    || m in notes
    || exists i | 0 <= i < |items| :: m in items[i].warnings && m.severity != BLOCKING
  }

  lemma RemainingStay(items: seq<Item>, warnings: seq<Message>, notes: seq<Message>)
    ensures forall m :: m in Validator.Kept(warnings, |warnings|) + (notes + QuietItems(items, |items|))
                   <==> StaysWarning(items, warnings, notes, m)
  {
    KeptIn(warnings, |warnings|);
    QuietItemsIn(items, |items|);
    assert warnings[..|warnings|] == warnings;
    hide Validator.Kept, QuietItems;
  }

  /** No message is there twice. */
  ghost predicate Distinct(ms: seq<Message>) {
    forall k, l | 0 <= k < l < |ms| :: KeyOf(ms[k]) != KeyOf(ms[l])
  }

  class Declaration {
    const header: Header
    const items: seq<Item>
    var blockingErrors: seq<Message>
    var warnings: seq<Message>
    var readyForXml: bool
    var xmlBuiltWithBlockers: bool

    constructor (header: Header, items: seq<Item>, warnings: seq<Message>)
      ensures this.header == header && this.items == items && this.warnings == warnings
    {
      this.header, this.items, this.warnings := header, items, warnings;
      blockingErrors, readyForXml, xmlBuiltWithBlockers := [], false, false;
    }

    /** `ready_for_xml` tells whether anything blocks. */
    ghost predicate Honest()
      reads this
    {
      readyForXml <==> blockingErrors == []
    }

    /** `validate_declaration`.  `notes` are the header's warnings. */
    method Validate(ref: Reference, notes: seq<Message>)
      modifies this
      ensures Honest() && Distinct(blockingErrors)
      ensures forall c :: c in CodesOf(blockingErrors) <==> Fails(header, items, old(warnings), ref, c)
      ensures forall m :: m in warnings ==> StaysWarning(items, old(warnings), notes, m)
      ensures forall m :: StaysWarning(items, old(warnings), notes, m) ==> Covers(warnings, m)
      ensures xmlBuiltWithBlockers == old(xmlBuiltWithBlockers)
    {
      hide Fails;
      hide CodesOf;
      var errors, remaining := CollectErrors(header, items, warnings, notes, ref);
      ghost var at, at';
      blockingErrors, at := Dedupe(errors);
      DedupeCodes(errors, blockingErrors, at);
      DedupeKeeps(errors, blockingErrors, at);
      warnings, at' := Dedupe(remaining);
      DedupeKeeps(remaining, warnings, at');
      RemainingStay(items, old(warnings), notes);
      hide StaysWarning;
      readyForXml := blockingErrors == [];
    }

    /** `blocking_errors.append(...)`; `ready_for_xml = False`. */
    method BlockWhen(bad: bool, m: Message)
      requires Honest()
      modifies `blockingErrors, `readyForXml
      ensures Honest()
      ensures CodesOf(blockingErrors) == CodesOf(old(blockingErrors)) + When(bad, m.code)
    {
      blockingErrors := Flag(blockingErrors, bad, m);
      if bad {
        readyForXml := false;
      }
      NoCodes(blockingErrors);
      NoCodes(old(blockingErrors));
    }

    method BlockAllocation(allocation: seq<Message>)
      requires Honest()
      modifies `blockingErrors, `readyForXml
      ensures Honest()
      ensures forall c :: c in CodesOf(blockingErrors)
                     <==> c in CodesOf(old(blockingErrors)) || AllocationFails(allocation, |allocation|, c)
    {
      hide CodesOf;
      hide When;
      for j := 0 to |allocation|
        invariant Honest()
        invariant forall c :: c in CodesOf(blockingErrors)
                         <==> c in CodesOf(old(blockingErrors)) || AllocationFails(allocation, j, c)
      {
        AllocationStep(allocation, j);
        BlockWhen(allocation[j].severity == BLOCKING, allocation[j]);
      }
    }

    method BlockReviewed(r: Reviewed)
      requires Honest()
      modifies `blockingErrors, `readyForXml
      ensures Honest()
      ensures forall c :: c in CodesOf(blockingErrors) <==> c in CodesOf(old(blockingErrors)) || ReviewedFails(r, c)
    {
      hide CodesOf;
      hide When;
      BlockWhen(r.weightUnitMissing && !r.authorityConfirmed, Blocking(WEIGHT_UNIT_UNCONFIRMED, 0, ""));
      BlockWhen(Value(r.gross) <= 0.0, Blocking(SHIPMENT_GROSS_REQUIRED, 0, ""));
      BlockWhen(Value(r.packages) <= 0.0, Blocking(SHIPMENT_PACKAGES_REQUIRED, 0, ""));
      BlockWhen(!r.Referenced(), Blocking(TRANSPORT_REFERENCE_REQUIRED, 0, ""));
      BlockWhen(r.Referenced() && !r.field40Confirmed, Blocking(FIELD_40_UNCONFIRMED, 0, ""));
    }

    /** Guessed HS codes: every message first, the verdict behind the loop. */
    method BlockGuesses(work: seq<WorkItem>)
      requires Honest()
      modifies `blockingErrors, `readyForXml
      ensures Honest()
      ensures CodesOf(blockingErrors) == CodesOf(old(blockingErrors)) + When(Guessed(work, |work|), HS_GUESS_UNCONFIRMED)
    {
      hide CodesOf;
      for i := 0 to |work|
        invariant readyForXml == old(readyForXml)
        invariant CodesOf(blockingErrors) == CodesOf(old(blockingErrors)) + When(Guessed(work, i), HS_GUESS_UNCONFIRMED)
      {
        blockingErrors := Flag(blockingErrors, work[i].Unconfirmed(), Blocking(HS_GUESS_UNCONFIRMED, work[i].sequence, ""));
      }
      if Guessed(work, |work|) {
        readyForXml := false;
      }
      NoCodes(blockingErrors);
      NoCodes(old(blockingErrors));
    }

    method BlockIncomplete(work: seq<WorkItem>)
      requires Honest()
      modifies `blockingErrors, `readyForXml
      ensures Honest()
      ensures CodesOf(blockingErrors) == CodesOf(old(blockingErrors)) + When(Unfinished(work, |work|), MANUAL_ITEM_INCOMPLETE)
    {
      hide CodesOf;
      for i := 0 to |work|
        invariant Honest()
        invariant CodesOf(blockingErrors) == CodesOf(old(blockingErrors)) + When(Unfinished(work, i), MANUAL_ITEM_INCOMPLETE)
      {
        BlockWhen(work[i].Incomplete(), Blocking(MANUAL_ITEM_INCOMPLETE, work[i].sequence, ""));
      }
    }

    /** The verdict at the end of `finalize`: ready exactly when nothing blocks, and
        every code blocks exactly when its gate fails. */
    method Conclude(ref: Reference, notes: seq<Message>, allocation: seq<Message>, r: Reviewed, work: seq<WorkItem>)
      modifies this
      ensures readyForXml <==> blockingErrors == []
      ensures forall c :: c in CodesOf(blockingErrors)
                     <==> Fails(header, items, old(warnings) + Quiet(allocation, |allocation|), ref, c)
                          || LateFails(allocation, r, work, c)
      ensures forall c :: c in CodesOf(blockingErrors)
                     <==> CalledFor(header, items, old(warnings) + allocation, ref, allocation, r, work, c)
      ensures readyForXml ==> Sound(header, items)
      ensures readyForXml && Shows(header, r) ==> Reconciled(items, r)
    {
      hide CodesOf;
      hide When;
      hide Fails;
      hide AllocationFails;
      hide Sound;
      hide Shows;
      hide Reconciled;
      warnings := warnings + Quiet(allocation, |allocation|);
      ghost var before := warnings;
      Validate(ref, notes);
      BlockAllocation(allocation);
      BlockReviewed(r);
      BlockGuesses(work);
      BlockIncomplete(work);
      forall c
        ensures Fails(header, items, before, ref, c) || LateFails(allocation, r, work, c)
           <==> CalledFor(header, items, old(warnings) + allocation, ref, allocation, r, work, c)
      {
        QuietCalls(header, items, old(warnings), ref, allocation, r, work, c);
        FailsForCause(header, items, before, ref, allocation, r, work, c);
      }
      hide CalledFor;
      if readyForXml {
        NoCodes(blockingErrors);
        assert forall c :: c in CodesOf(blockingErrors) <==> c in {};
        NothingFailsSound(header, items, before, ref);
        assert !ReviewedFails(r, SHIPMENT_GROSS_REQUIRED) && !ReviewedFails(r, SHIPMENT_PACKAGES_REQUIRED);
        if Shows(header, r) {
          SoundReconciles(header, items, r);
        }
      }
    }

    /** Whether an XML is built: when ready, or in warn mode when there are items and
        no blocker of the kind warn mode may not pass over. */
    method Decide(strict: bool) returns (build: bool)
      requires Honest()
      modifies `xmlBuiltWithBlockers
      ensures build <==> readyForXml || (!strict && items != [] && forall c <- CodesOf(blockingErrors) :: !Hard(c))
      ensures build ==> forall c <- CodesOf(blockingErrors) :: !Hard(c)
      ensures build <==>
        || readyForXml
        || (!strict && |items| > 0 && forall m | m in blockingErrors :: m.code !in [
              GROSS_ALLOCATION_IMPOSSIBLE, REVIEWED_GROSS_EXCEEDS_AUTHORITY, REVIEWED_GROSS_TOTAL_MISMATCH,
              WEIGHT_RECONCILIATION_IMPOSSIBLE, INVOICE_DUPLICATE_DOCUMENT, REVIEWED_CTN_EXCEEDS_AUTHORITY,
              REVIEWED_CTN_TOTAL_MISMATCH, CARTON_LATTICE_VIOLATION, CARTON_RECONCILIATION_FAILED])
      ensures xmlBuiltWithBlockers <==> build && blockingErrors != []
      ensures strict && build ==> blockingErrors == []
    {
      var hard := false;
      for i := 0 to |blockingErrors|
        invariant hard <==> exists j | 0 <= j < i :: Hard(blockingErrors[j].code)
      {
        hard := hard || Hard(blockingErrors[i].code);
      }
      build := readyForXml || (!strict && items != [] && !hard);
      xmlBuiltWithBlockers := build && !readyForXml;
    }
  }

  predicate Guessed(work: seq<WorkItem>, n: nat)
    requires n <= |work|
  {
    exists i | 0 <= i < n :: work[i].Unconfirmed()
  }

  predicate Unfinished(work: seq<WorkItem>, n: nat)
    requires n <= |work|
  {
    exists i | 0 <= i < n :: work[i].Incomplete()
  }

  lemma AllocationStep(ms: seq<Message>, n: nat)
    requires n < |ms|
    ensures forall c :: AllocationFails(ms, n + 1, c)
                   <==> AllocationFails(ms, n, c) || (ms[n].severity == BLOCKING && ms[n].code == c)
  {
    forall c
      ensures AllocationFails(ms, n + 1, c)
         <==> AllocationFails(ms, n, c) || (ms[n].severity == BLOCKING && ms[n].code == c)
    {
      if AllocationFails(ms, n + 1, c) {
        var j :| 0 <= j < n + 1 && ms[j].severity == BLOCKING && ms[j].code == c;
        assert j < n ==> AllocationFails(ms, n, c);
      }
    }
  }

  /** What can be said before the items are looked at. */
  predicate EarlyFails(h: Header, items: seq<Item>, warnings: seq<Message>, ref: Reference, c: Code) {
    || (c == INVOICE_NO_VALID_SOURCE && items == [])
    || (Escalates(c) && c in CodesOf(warnings))
    || RegimeFails(h, ref, c)
    || PartiesFail(h, ref, c)
  }

  method CollectEarly(h: Header, items: seq<Item>, warnings: seq<Message>, ref: Reference)
    returns (errors: seq<Message>, left: seq<Message>)
    ensures forall c :: c in CodesOf(errors) <==> EarlyFails(h, items, warnings, ref, c)
    ensures left == Kept(warnings, |warnings|)
  {
    errors := [];
    assert CodesOf(errors) == {};
    hide CodesOf;
    hide When;
    hide RegimeFails;
    hide PartiesFail;
    hide Escalates;
    hide Kept;
    errors := Flag(errors, items == [], Blocking(INVOICE_NO_VALID_SOURCE, 0, ""));
    errors, left := Escalate(warnings, errors);
    forall c {
      EscalatedCodes(warnings, |warnings|, c);
    }
    assert warnings[..|warnings|] == warnings;
    errors := ValidateRegime(h, ref, errors);
    errors := ValidateParties(h, ref, errors);
  }

  method CollectErrors(h: Header, items: seq<Item>, warnings: seq<Message>, notes: seq<Message>, ref: Reference)
    returns (errors: seq<Message>, remaining: seq<Message>)
    ensures forall c :: c in CodesOf(errors) <==> Fails(h, items, warnings, ref, c)
    ensures remaining == Kept(warnings, |warnings|) + (notes + QuietItems(items, |items|))
  {
    hide CodesOf;
    hide When;
    hide EarlyFails;
    hide ItemsFail;
    hide Misses;
    hide Fails;
    hide Kept;
    hide QuietItems;
    var left, found, gross, packages;
    errors, left := CollectEarly(h, items, warnings, ref);
    errors, found, gross, packages := ValidateItems(items, errors, notes);
    errors := ValidateTotals(h, items, errors, gross, packages);
    forall c
      ensures c in CodesOf(errors) <==> Fails(h, items, warnings, ref, c)
    {
      FailsIs(h, items, warnings, ref, c);
    }
    remaining := left + found;
  }

  lemma FailsIs(h: Header, items: seq<Item>, warnings: seq<Message>, ref: Reference, c: Code)
    ensures Fails(h, items, warnings, ref, c)
       <==> EarlyFails(h, items, warnings, ref, c) || ItemsFail(items, |items|, c)
            || (c == WEIGHT_RECONCILIATION_IMPOSSIBLE && Misses(h.totalWeight, V.Total(Grosses(items))))
            || (c == CARTON_RECONCILIATION_FAILED && Misses(h.totalPackages, V.Total(Packages(items))))
  {
    hide RegimeFails;
    hide PartiesFail;
    hide ItemsFail;
    hide Misses;
    hide CodesOf;
  }

  method ValidateTotals(h: Header, items: seq<Item>, before: seq<Message>, gross: Dec, packages: Dec)
    returns (errors: seq<Message>)
    requires gross == V.Sum(Grosses(items)) && packages == V.Sum(Packages(items))
    ensures CodesOf(errors) == CodesOf(before)
      + When(Misses(h.totalWeight, V.Total(Grosses(items))), WEIGHT_RECONCILIATION_IMPOSSIBLE)
      + When(Misses(h.totalPackages, V.Total(Packages(items))), CARTON_RECONCILIATION_FAILED)
  {
    hide CodesOf;
    hide When;
    V.SumValue(Grosses(items), |items|);
    V.SumValue(Packages(items), |items|);
    errors := Flag(before, Misses(h.totalWeight, Value(gross)), Blocking(WEIGHT_RECONCILIATION_IMPOSSIBLE, 0, ""));
    errors := Flag(errors, Misses(h.totalPackages, Value(packages)), Blocking(CARTON_RECONCILIATION_FAILED, 0, ""));
  }
}
