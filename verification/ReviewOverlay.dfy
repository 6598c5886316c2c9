/** The reviewer's entries on a job, and what an evidence change discards of them. */
module ReviewOverlay {
  import opened Documents
  import opened Options

  datatype Role = INVOICE | PACKING_LIST | AIR_WAYBILL | BANKING | INSURANCE | CERTIFICATE_OF_ORIGIN

  /** The extractions of some documents. */
  type Evidence = map<DocId, nat>

  /** A reviewer's entry.  `against` is auxiliary: the evidence it was made against. */
  datatype Entry = Entry(value: nat, against: Evidence)

  /** An HS selection: its item, the normalised item name, the code. */
  datatype Selection = Selection(item: nat, key: string, code: string, explicit: bool, against: Evidence)

  /** `items` stands for every channel keyed by item but the four named beside it:
      field edits, bulk COO, tombstones, ordering, active manual rows. */
  datatype Overlay = Overlay(
    items: map<nat, Entry>,          // made against the invoices
    pins: map<nat, Entry>,           // weight and carton pins: invoices and shipment evidence
    shipment: Option<Entry>,         // reviewer-corrected shipment totals
    selections: seq<Selection>,      // in the order they were made
    bms: map<nat, Entry>)            // brand / model / size: export only

  const EMPTY := Overlay(map[], map[], None, [], map[])

  predicate FromItems(role: Role) { role == INVOICE }

  predicate FromShipment(role: Role) { role == AIR_WAYBILL || role == PACKING_LIST }

  predicate Foldable(sel: Selection) { sel.explicit && sel.key != [] && sel.code != [] }

  /** Where the item's selection stands; the length if it has none. */
  function SelectionAt(sels: seq<Selection>, item: nat, from: nat): (k: nat)
    requires from <= |sels|
    ensures from <= k <= |sels| && (k < |sels| ==> sels[k].item == item)
    decreases |sels| - from
  {
    if from == |sels| || sels[from].item == item then from else SelectionAt(sels, item, from + 1)
  }

  /** `selections[item_id] = record`. */
  function Select(sels: seq<Selection>, sel: Selection): seq<Selection> {
    var k := SelectionAt(sels, sel.item, 0);
    if k < |sels| then sels[k := sel] else sels + [sel]
  }

  /** The content-keyed history of the first `n` selections; a later one wins. */
  function FoldTo(sels: seq<Selection>, n: nat): map<string, string>
    requires n <= |sels|
  {
    if n == 0 then map[]
    else if Foldable(sels[n - 1]) then FoldTo(sels, n - 1)[sels[n - 1].key := sels[n - 1].code]
    else FoldTo(sels, n - 1)
  }

  /** `reset_for_evidence_change`: the overlay left, and what goes to the history. */
  function Reset(o: Overlay, role: Role): Overlay {
    if FromShipment(role) then o.(shipment := None, pins := map[])
    else if FromItems(role) then o.(items := map[], pins := map[], bms := map[], selections := [])
    else o
  }

  function Fold(o: Overlay, role: Role): map<string, string> {
    if FromItems(role) then FoldTo(o.selections, |o.selections|) else map[]
  }

  /** Explicit selections survive an invoice change by content. */
  lemma {:induction false} FoldKeeps(sels: seq<Selection>, n: nat, i: nat)
    requires i < n <= |sels| && Foldable(sels[i])
    requires forall j | i < j < n :: Foldable(sels[j]) ==> sels[j].key != sels[i].key
    ensures sels[i].key in FoldTo(sels, n) && FoldTo(sels, n)[sels[i].key] == sels[i].code
  {
    if i < n - 1 {
      FoldKeeps(sels, n - 1, i);
    }
  }

  lemma {:induction false} FoldInvents(sels: seq<Selection>, n: nat, key: string)
    requires n <= |sels| && key in FoldTo(sels, n)
    ensures exists i | 0 <= i < n :: Foldable(sels[i]) && sels[i].key == key && sels[i].code == FoldTo(sels, n)[key]
  {
    if !(Foldable(sels[n - 1]) && sels[n - 1].key == key) {
      FoldInvents(sels, n - 1, key);
    }
  }
}
