/** The blocking validation of a merged declaration. */
module Validator {
  import opened Text
  import opened Decimals
  import opened Messages
  import V = Valuation

  datatype Bank = Bank(code: string, name: string)

  /** The reference tables the gates look things up in. */
  datatype Reference = Reference(
    modelPairs: set<(string, string)>, packageTypes: set<string>, offices: set<string>,
    extendedProcedures: set<string>, nationalProcedures: set<string>, transportModes: set<string>,
    alpha2: set<string>, banks: seq<Bank>, terms: set<string>)

  datatype Header = Header(
    consigneeCode: string, packageType: string, declarationType: string, procedureCode: string,
    customsOffice: string, borderOffice: string, extendedProcedure: string, nationalProcedure: string,
    borderMode: string, inlandMode: string, field40: string, authorityType: string,
    consigneeCountry: string, exporterCountry: string, bankCode: string, bankName: string, termsCode: string,
    totalWeight: Dec, totalPackages: Dec)

  datatype Item = Item(
    sequence: nat, hs: string, coo: string, supplementary: Dec, gross: Dec, net: Dec, packages: Dec,
    warnings: seq<Message>)

  const TOLERANCE := 0.05

  // ---- the gates, one condition for each code -------------------------------------------------- //

  predicate EximValid(s: string) {
    13 <= |s| <= 15 && forall i | 0 <= i < |s| :: IsDigit(s[i]) || IsLetter(s[i])
  }

  predicate Blank(s: string) { Strip(s) == [] }

  function EffectiveBorderOffice(h: Header): string { if h.borderOffice != [] then h.borderOffice else h.customsOffice }

  predicate OfficeUnknown(office: string, ref: Reference) { office != [] && office !in ref.offices }

  predicate StartsWith(procedure: string, code: string) { (if procedure == [] then [] else procedure[..1]) == code }

  /** A known extended procedure that is not of the declared general procedure. */
  predicate ProcedureMismatch(h: Header, ref: Reference) {
    && h.extendedProcedure in ref.extendedProcedures
    && h.procedureCode != [] && !StartsWith(h.extendedProcedure, h.procedureCode)
  }

  predicate AirAuthority(t: string) { t == "HAWB" || t == "TRUE_DO" || t == "TRACKING" || t == "SINGLE_AWB" }

  /** The index of the first bank with that code; the number of banks if there is none. */
  function FirstBank(banks: seq<Bank>, code: string, from: nat): (k: nat)
    requires from <= |banks|
    ensures from <= k <= |banks| && (k < |banks| ==> banks[k].code == code)
    ensures forall i | from <= i < k :: banks[i].code != code
    decreases |banks| - from
  {
    if from == |banks| || banks[from].code == code then from else FirstBank(banks, code, from + 1)
  }

  predicate BankPair(banks: seq<Bank>, code: string, name: string) {
    var k := FirstBank(banks, code, 0);
    k < |banks| && LowerAll(Strip(banks[k].name)) == LowerAll(name)
  }

  predicate BankMismatch(h: Header, ref: Reference) {
    !Blank(h.bankCode) && !Blank(h.bankName) && !BankPair(ref.banks, Strip(h.bankCode), Strip(h.bankName))
  }

  predicate ModeUnknown(mode: string, ref: Reference) { mode != [] && mode !in ref.transportModes }

  predicate CountryUnknown(country: string, ref: Reference) { country != [] && country !in ref.alpha2 }

  predicate TermUnknown(h: Header, ref: Reference) { h.termsCode != [] && h.termsCode !in ref.terms }

  predicate ModeMissing(h: Header) { h.borderMode == [] || h.inlandMode == [] }

  predicate ModelUnknown(h: Header, ref: Reference) { (h.declarationType, h.procedureCode) !in ref.modelPairs }

  predicate Field40Missing(h: Header) { Blank(h.field40) && AirAuthority(h.authorityType) }

  predicate BankIncomplete(h: Header) { Blank(h.bankCode) != Blank(h.bankName) }

  predicate RegimeFails(h: Header, ref: Reference, c: Code) {
    || (c == IMPORTER_EXIM_INVALID && !EximValid(h.consigneeCode))
    || (c == PACKAGE_TYPE_UNSUPPORTED && h.packageType !in ref.packageTypes)
    || (c == DECLARATION_MODEL_INVALID && ModelUnknown(h, ref))
    || (c == CUSTOMS_OFFICE_INVALID && h.customsOffice !in ref.offices)
    || (c == CUSTOMS_OFFICE_INVALID && OfficeUnknown(EffectiveBorderOffice(h), ref))
    || (c == PROCEDURE_INVALID && h.extendedProcedure !in ref.extendedProcedures)
    || (c == PROCEDURE_TYPE_MISMATCH && ProcedureMismatch(h, ref))
    || (c == PROCEDURE_INVALID && h.nationalProcedure !in ref.nationalProcedures)
  }

  predicate PartiesFail(h: Header, ref: Reference, c: Code) {
    || (c == TRANSPORT_MODE_REQUIRED && ModeMissing(h))
    || (c == TRANSPORT_MODE_INVALID && ModeUnknown(h.borderMode, ref))
    || (c == TRANSPORT_MODE_INVALID && ModeUnknown(h.inlandMode, ref))
    || (c == FIELD_40_MISSING && Field40Missing(h))
    || (c == IMPORTER_COUNTRY_INVALID && CountryUnknown(h.consigneeCountry, ref))
    || (c == EXPORTER_COUNTRY_INVALID && CountryUnknown(h.exporterCountry, ref))
    || (c == BANK_PAIR_INCOMPLETE && BankIncomplete(h))
    || (c == BANK_PAIR_MISMATCH && BankMismatch(h, ref))
    || (c == PAYMENT_TERM_INVALID && TermUnknown(h, ref))
  }

  predicate HsInvalid(it: Item) { |it.hs| != 11 || !AllDigits(it.hs) }

  predicate SupplementaryInvalid(it: Item) { Value(it.supplementary) <= 0.0 }

  predicate NetNotBelowGross(it: Item) { Value(it.gross) > 0.0 && Value(it.net) >= Value(it.gross) }

  predicate ItemFails(it: Item, c: Code) {
    || (c == HS_MANUAL_REVIEW && HsInvalid(it))
    || (c == COO_UNRESOLVED && |it.coo| != 2)
    || (c == SUPPLEMENTARY_QTY_INVALID && SupplementaryInvalid(it))
    || (c == WEIGHT_RECONCILIATION_IMPOSSIBLE && NetNotBelowGross(it))
  }

  function Grosses(items: seq<Item>): seq<Dec> {
    seq(|items|, i requires 0 <= i < |items| => items[i].gross)
  }

  function Packages(items: seq<Item>): seq<Dec> {
    seq(|items|, i requires 0 <= i < |items| => items[i].packages)
  }

  /** An authorised total above zero that the items miss. */
  predicate Misses(total: Dec, sum: real) { Value(total) > 0.0 && Abs(sum - Value(total)) > TOLERANCE }

  predicate TotalsFail(h: Header, items: seq<Item>, c: Code) {
    || (c == INVOICE_NO_VALID_SOURCE && items == [])
    || (c == WEIGHT_RECONCILIATION_IMPOSSIBLE && Misses(h.totalWeight, V.Total(Grosses(items))))
    || (c == CARTON_RECONCILIATION_FAILED && Misses(h.totalPackages, V.Total(Packages(items))))
  }

  /** A blocking message an engine left among the first `n` on the item. */
  predicate Bubbles(it: Item, n: nat, c: Code)
    requires n <= |it.warnings|
  {
    exists j | 0 <= j < n :: it.warnings[j].severity == BLOCKING && it.warnings[j].code == c
  }

  predicate Escalates(c: Code) { c == MIXED_INVOICE_CURRENCIES || c == INVOICE_DUPLICATE_DOCUMENT }

  predicate ItemsFail(items: seq<Item>, n: nat, c: Code)
    requires n <= |items|
  {
    exists i | 0 <= i < n :: ItemFails(items[i], c) || Bubbles(items[i], |items[i].warnings|, c)
  }

  /** Everything that blocks a declaration with the code `c`. */
  predicate Fails(h: Header, items: seq<Item>, warnings: seq<Message>, ref: Reference, c: Code) {
    || RegimeFails(h, ref, c)
    || PartiesFail(h, ref, c)
    || ItemsFail(items, |items|, c)
    || TotalsFail(h, items, c)
    || (Escalates(c) && c in CodesOf(warnings))
  }

  // ---- the validator ------------------------------------------------------------------------------ //

  method ValidateRegime(h: Header, ref: Reference, before: seq<Message>) returns (errors: seq<Message>)
    ensures forall c :: c in CodesOf(errors) <==> c in CodesOf(before) || RegimeFails(h, ref, c)
  {
    hide CodesOf;
    hide When;
    hide EximValid;
    hide OfficeUnknown;
    hide EffectiveBorderOffice;
    hide ProcedureMismatch;
    hide ModelUnknown;
    errors := Flag(before, !EximValid(h.consigneeCode), Blocking(IMPORTER_EXIM_INVALID, 0, h.consigneeCode));
    errors := Flag(errors, h.packageType !in ref.packageTypes, Blocking(PACKAGE_TYPE_UNSUPPORTED, 0, h.packageType));
    errors := Flag(errors, ModelUnknown(h, ref), Blocking(DECLARATION_MODEL_INVALID, 0, h.declarationType));
    errors := Flag(errors, h.customsOffice !in ref.offices, Blocking(CUSTOMS_OFFICE_INVALID, 0, "clearance"));
    errors := Flag(errors, OfficeUnknown(EffectiveBorderOffice(h), ref), Blocking(CUSTOMS_OFFICE_INVALID, 0, "border"));
    errors := Flag(errors, h.extendedProcedure !in ref.extendedProcedures, Blocking(PROCEDURE_INVALID, 0, "extended"));
    errors := Flag(errors, ProcedureMismatch(h, ref), Blocking(PROCEDURE_TYPE_MISMATCH, 0, h.extendedProcedure));
    errors := Flag(errors, h.nationalProcedure !in ref.nationalProcedures, Blocking(PROCEDURE_INVALID, 0, "national"));
  }

  method ValidateParties(h: Header, ref: Reference, before: seq<Message>) returns (errors: seq<Message>)
    ensures forall c :: c in CodesOf(errors) <==> c in CodesOf(before) || PartiesFail(h, ref, c)
  {
    hide CodesOf;
    hide When;
    hide ModeMissing;
    hide ModeUnknown;
    hide Field40Missing;
    hide CountryUnknown;
    hide BankIncomplete;
    hide BankMismatch;
    hide TermUnknown;
    errors := Flag(before, ModeMissing(h), Blocking(TRANSPORT_MODE_REQUIRED, 0, ""));
    errors := Flag(errors, ModeUnknown(h.borderMode, ref), Blocking(TRANSPORT_MODE_INVALID, 0, "Border"));
    errors := Flag(errors, ModeUnknown(h.inlandMode, ref), Blocking(TRANSPORT_MODE_INVALID, 0, "Inland"));
    errors := Flag(errors, Field40Missing(h), Blocking(FIELD_40_MISSING, 0, ""));
    errors := Flag(errors, CountryUnknown(h.consigneeCountry, ref), Blocking(IMPORTER_COUNTRY_INVALID, 0, ""));
    errors := Flag(errors, CountryUnknown(h.exporterCountry, ref), Blocking(EXPORTER_COUNTRY_INVALID, 0, ""));
    errors := Flag(errors, BankIncomplete(h), Blocking(BANK_PAIR_INCOMPLETE, 0, ""));
    errors := Flag(errors, BankMismatch(h, ref), Blocking(BANK_PAIR_MISMATCH, 0, h.bankCode));
    errors := Flag(errors, TermUnknown(h, ref), Blocking(PAYMENT_TERM_INVALID, 0, h.termsCode));
  }

  method ValidateItem(it: Item, before: seq<Message>) returns (errors: seq<Message>)
    ensures forall c :: c in CodesOf(errors) <==> c in CodesOf(before) || ItemFails(it, c)
  {
    hide CodesOf;
    hide When;
    hide HsInvalid;
    hide SupplementaryInvalid;
    hide NetNotBelowGross;
    errors := Flag(before, HsInvalid(it), Blocking(HS_MANUAL_REVIEW, it.sequence, ""));
    errors := Flag(errors, |it.coo| != 2, Blocking(COO_UNRESOLVED, it.sequence, ""));
    errors := Flag(errors, SupplementaryInvalid(it), Blocking(SUPPLEMENTARY_QTY_INVALID, it.sequence, ""));
    errors := Flag(errors, NetNotBelowGross(it), Blocking(WEIGHT_RECONCILIATION_IMPOSSIBLE, it.sequence, ""));
  }

  /** The messages the engines left on an item go where their severity says. */
  method BubbleUp(it: Item, errors: seq<Message>, warnings: seq<Message>)
    returns (errors': seq<Message>, warnings': seq<Message>)
    ensures forall c :: c in CodesOf(errors') <==> c in CodesOf(errors) || Bubbles(it, |it.warnings|, c)
    ensures warnings' == warnings + Quiet(it.warnings, |it.warnings|)
  {
    hide CodesOf;
    hide When;
    errors', warnings' := errors, warnings;
    for j := 0 to |it.warnings|
      invariant warnings' == warnings + Quiet(it.warnings, j)
      invariant forall c :: c in CodesOf(errors') <==> c in CodesOf(errors) || Bubbles(it, j, c)
    {
      var w := it.warnings[j];
      BubblesStep(it, j);
      if w.severity == BLOCKING {
        errors' := Flag(errors', true, w);
      } else {
        warnings' := warnings' + [w];
      }
    }
  }

  lemma BubblesStep(it: Item, n: nat)
    requires n < |it.warnings|
    ensures forall c :: Bubbles(it, n + 1, c)
                   <==> Bubbles(it, n, c) || (it.warnings[n].severity == BLOCKING && it.warnings[n].code == c)
  {
    forall c
      ensures Bubbles(it, n + 1, c)
         <==> Bubbles(it, n, c) || (it.warnings[n].severity == BLOCKING && it.warnings[n].code == c)
    {
      if Bubbles(it, n + 1, c) {
        var j :| 0 <= j < n + 1 && it.warnings[j].severity == BLOCKING && it.warnings[j].code == c;
        assert j < n ==> Bubbles(it, n, c);
      }
    }
  }

  /** The messages among the first `n` that do not block. */
  function Quiet(ms: seq<Message>, n: nat): seq<Message>
    requires n <= |ms|
  {
    if n == 0 then []
    else Quiet(ms, n - 1) + (if ms[n - 1].severity == BLOCKING then [] else [ms[n - 1]])
  }

  /** The non-blocking messages on the first `n` items. */
  function QuietItems(items: seq<Item>, n: nat): seq<Message>
    requires n <= |items|
  {
    if n == 0 then []
    else QuietItems(items, n - 1) + Quiet(items[n - 1].warnings, |items[n - 1].warnings|)
  }

  /** The item loop: gates, sums, and messages bubbled up. */
  method ValidateItems(items: seq<Item>, before: seq<Message>, warnings: seq<Message>)
    returns (errors: seq<Message>, warnings': seq<Message>, gross: Dec, packages: Dec)
    ensures forall c :: c in CodesOf(errors) <==> c in CodesOf(before) || ItemsFail(items, |items|, c)
    ensures warnings' == warnings + QuietItems(items, |items|)
    ensures gross == V.Sum(Grosses(items)) && packages == V.Sum(Packages(items))
  {
    hide CodesOf;
    hide ItemFails;
    hide Bubbles;
    hide Quiet;
    hide Add;
    errors, warnings' := before, warnings;
    gross, packages := Dec(false, 0, 0), Dec(false, 0, 0);
    for n := 0 to |items|
      invariant forall c :: c in CodesOf(errors) <==> c in CodesOf(before) || ItemsFail(items, n, c)
      invariant warnings' == warnings + QuietItems(items, n)
      invariant gross == V.SumTo(Grosses(items), n) && packages == V.SumTo(Packages(items), n)
    {
      assert forall c :: ItemsFail(items, n + 1, c) <==> ItemsFail(items, n, c) || ItemFails(items[n], c) || Bubbles(items[n], |items[n].warnings|, c);
      errors := ValidateItem(items[n], errors);
      gross := Add(gross, items[n].gross);
      packages := Add(packages, items[n].packages);
      errors, warnings' := BubbleUp(items[n], errors, warnings');
    }
  }

  // ---- engine-level conditions -------------------------------------------------------------------- //

  /** The first `n` messages that are not escalated. */
  function Kept(ms: seq<Message>, n: nat): (kept: seq<Message>)
    requires n <= |ms|
    ensures forall i | 0 <= i < |kept| :: !Escalates(kept[i].code)
  {
    if n == 0 then []
    else Kept(ms, n - 1) + (if Escalates(ms[n - 1].code) then [] else [ms[n - 1]])
  }

  function Index(ms: seq<Message>, m: Message): (k: nat)
    requires m in ms
    ensures k < |ms| && ms[k] == m && forall i | 0 <= i < k :: ms[i] != m
  {
    if ms[0] == m then 0 else 1 + Index(ms[1..], m)
  }

  /** `list.remove`. */
  function Remove(ms: seq<Message>, m: Message): seq<Message>
    requires m in ms
  {
    ms[..Index(ms, m)] + ms[Index(ms, m) + 1..]
  }

  lemma RemoveNext(kept: seq<Message>, m: Message, rest: seq<Message>)
    requires Escalates(m.code) && forall i | 0 <= i < |kept| :: !Escalates(kept[i].code)
    ensures m in kept + [m] + rest
    ensures Remove(kept + [m] + rest, m) == kept + rest
  {
    var ms := kept + [m] + rest;
    assert ms[|kept|] == m;
    assert Index(ms, m) == |kept|;
  }

  method RemoveFrom(warnings: seq<Message>, n: nat, before: seq<Message>) returns (left: seq<Message>)
    requires n < |warnings| && Escalates(warnings[n].code)
    requires before == Kept(warnings, n) + warnings[n..]
    ensures left == Kept(warnings, n + 1) + warnings[n + 1..]
  {
    hide Index;
    hide Remove;
    RemoveNext(Kept(warnings, n), warnings[n], warnings[n + 1..]);
    assert before == Kept(warnings, n) + [warnings[n]] + warnings[n + 1..];
    left := Remove(before, warnings[n]);
  }

  /** What is left of the warnings after the first `n` have been looked at. */
  function LeftAfter(warnings: seq<Message>, n: nat): seq<Message>
    requires n <= |warnings|
  {
    Kept(warnings, n) + warnings[n..]
  }

  /** The escalated codes among the first `n`. */
  function EscalatedTo(warnings: seq<Message>, n: nat): set<Code>
    requires n <= |warnings|
  {
    if n == 0 then {} else EscalatedTo(warnings, n - 1) + When(Escalates(warnings[n - 1].code), warnings[n - 1].code)
  }

  lemma {:induction false} EscalatedCodes(warnings: seq<Message>, n: nat, c: Code)
    requires n <= |warnings|
    ensures c in EscalatedTo(warnings, n) <==> Escalates(c) && c in CodesOf(warnings[..n])
  {
    if n > 0 {
      EscalatedCodes(warnings, n - 1, c);
      CodesNext(warnings, n - 1);
    }
  }

  /** Mixed currencies and duplicate invoices turn from warnings into blockers. */
  method Escalate(warnings: seq<Message>, before: seq<Message>) returns (errors: seq<Message>, left: seq<Message>)
    ensures left == Kept(warnings, |warnings|)
    ensures CodesOf(errors) == CodesOf(before) + EscalatedTo(warnings, |warnings|)
  {
    hide CodesOf;
    hide When;
    errors, left := before, warnings;
    for n := 0 to |warnings|
      invariant left == LeftAfter(warnings, n)
      invariant CodesOf(errors) == CodesOf(before) + EscalatedTo(warnings, n)
    {
      errors, left := EscalateOne(warnings, n, errors, left);
    }
  }

  method EscalateOne(warnings: seq<Message>, n: nat, errors: seq<Message>, left: seq<Message>)
    returns (errors': seq<Message>, left': seq<Message>)
    requires n < |warnings| && left == LeftAfter(warnings, n)
    ensures left' == LeftAfter(warnings, n + 1)
    ensures CodesOf(errors') == CodesOf(errors) + When(Escalates(warnings[n].code), warnings[n].code)
  {
    hide CodesOf;
    var w := warnings[n];
    errors', left' := errors, left;
    if Escalates(w.code) {
      errors' := Flag(errors, true, Blocking(w.code, 0, w.text));
      left' := RemoveFrom(warnings, n, left);
    } else {
      assert Kept(warnings, n + 1) + warnings[n + 1..] == Kept(warnings, n) + warnings[n..];
    }
  }

  lemma CodesNext(ms: seq<Message>, n: nat)
    requires n < |ms|
    ensures CodesOf(ms[..n + 1]) == CodesOf(ms[..n]) + {ms[n].code}
  {
    assert ms[..n + 1] == ms[..n] + [ms[n]];
    CodesAppend(ms[..n], [ms[n]]);
    assert CodesOf([ms[n]]) == {ms[n].code} by {
      assert [ms[n]][0] == ms[n];
    }
  }
}
