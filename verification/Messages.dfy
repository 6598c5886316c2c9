/** Validation messages and the lists they are gathered in. */
module Messages {

  datatype Severity = INFO | WARNING | BLOCKING

  /** The codes the gates use; `Engine` stands for any other. */
  datatype Code =
    | INVOICE_NO_VALID_SOURCE | MIXED_INVOICE_CURRENCIES | INVOICE_DUPLICATE_DOCUMENT
    | IMPORTER_EXIM_INVALID | PACKAGE_TYPE_UNSUPPORTED | DECLARATION_MODEL_INVALID | CUSTOMS_OFFICE_INVALID
    | PROCEDURE_INVALID | PROCEDURE_TYPE_MISMATCH | TRANSPORT_MODE_REQUIRED | TRANSPORT_MODE_INVALID
    | FIELD_40_MISSING | IMPORTER_COUNTRY_INVALID | EXPORTER_COUNTRY_INVALID
    | BANK_PAIR_INCOMPLETE | BANK_PAIR_MISMATCH | PAYMENT_TERM_INVALID
    | HS_MANUAL_REVIEW | COO_UNRESOLVED | SUPPLEMENTARY_QTY_INVALID
    | WEIGHT_RECONCILIATION_IMPOSSIBLE | CARTON_RECONCILIATION_FAILED
    | WEIGHT_UNIT_UNCONFIRMED | SHIPMENT_GROSS_REQUIRED | SHIPMENT_PACKAGES_REQUIRED
    | TRANSPORT_REFERENCE_REQUIRED | FIELD_40_UNCONFIRMED | HS_GUESS_UNCONFIRMED | MANUAL_ITEM_INCOMPLETE
    | GROSS_ALLOCATION_IMPOSSIBLE | REVIEWED_GROSS_EXCEEDS_AUTHORITY | REVIEWED_GROSS_TOTAL_MISMATCH
    | REVIEWED_CTN_EXCEEDS_AUTHORITY | REVIEWED_CTN_TOTAL_MISMATCH | CARTON_LATTICE_VIOLATION
    | Engine(name: string)

  /** `item` is 0 for a message about no item. */
  datatype Message = Message(code: Code, severity: Severity, item: nat, text: string)

  function Blocking(code: Code, item: nat, text: string): Message { Message(code, BLOCKING, item, text) }

  /** Some message carries the code. */
  predicate Has(ms: seq<Message>, c: Code) { exists i | 0 <= i < |ms| :: ms[i].code == c }

  lemma HasAppend(a: seq<Message>, b: seq<Message>)
    ensures forall c :: Has(a + b, c) <==> Has(a, c) || Has(b, c)
  {
    forall c
      ensures Has(a + b, c) <==> Has(a, c) || Has(b, c)
    {
      if Has(a, c) {
        var i :| 0 <= i < |a| && a[i].code == c;
        assert (a + b)[i].code == c;
      }
      if Has(b, c) {
        var i :| 0 <= i < |b| && b[i].code == c;
        assert (a + b)[|a| + i].code == c;
      }
    }
  }

  function CodesOf(ms: seq<Message>): set<Code> { set i | 0 <= i < |ms| :: ms[i].code }

  lemma CodesHave(ms: seq<Message>, c: Code)
    ensures c in CodesOf(ms) <==> Has(ms, c)
  {
  }

  lemma CodesAppend(a: seq<Message>, b: seq<Message>)
    ensures CodesOf(a + b) == CodesOf(a) + CodesOf(b)
  {
    HasAppend(a, b);
    forall c
      ensures c in CodesOf(a + b) <==> c in CodesOf(a) + CodesOf(b)
    {
      CodesHave(a + b, c);
      CodesHave(a, c);
      CodesHave(b, c);
    }
  }

  function When(bad: bool, c: Code): (codes: set<Code>)
    ensures forall d :: d in codes <==> bad && d == c
  {
    if bad then {c} else {}
  }

  /** `errors.append(...)` under a condition. */
  method Flag(errors: seq<Message>, bad: bool, m: Message) returns (out: seq<Message>)
    ensures CodesOf(out) == CodesOf(errors) + When(bad, m.code)
  {
    out := if bad then errors + [m] else errors;
    CodesAppend(errors, [m]);
    assert CodesOf([m]) == {m.code} by {
      assert [m][0] == m;
    }
  }

  // ---- de-duplication ------------------------------------------------------------------------ //

  datatype Key = Key(code: Code, item: nat, text: string)

  function KeyOf(m: Message): Key { Key(m.code, m.item, m.text) }

  /** `ms[i]` is the first with its key. */
  predicate First(ms: seq<Message>, i: nat)
    requires i < |ms|
  {
    forall j | 0 <= j < i :: KeyOf(ms[j]) != KeyOf(ms[i])
  }

  /** `out` lists, in order, exactly the first occurrences among `ms[..n]`; `at` says
      where they stood. */
  ghost predicate Deduped(ms: seq<Message>, n: nat, out: seq<Message>, at: seq<nat>)
    requires n <= |ms|
  {
    && |at| == |out|
    && (forall k | 0 <= k < |at| :: at[k] < n && out[k] == ms[at[k]] && First(ms, at[k]))
    && (forall k, l | 0 <= k < l < |at| :: at[k] < at[l])
    && (forall i | 0 <= i < n && First(ms, i) :: i in at)
  }

  method Dedupe(ms: seq<Message>) returns (out: seq<Message>, ghost at: seq<nat>)
    ensures Deduped(ms, |ms|, out, at)
  {
    var seen: set<Key> := {};
    out, at := [], [];
    for n := 0 to |ms|
      invariant Deduped(ms, n, out, at)
      invariant forall key :: key in seen <==> exists j | 0 <= j < n :: KeyOf(ms[j]) == key
    {
      var key := KeyOf(ms[n]);
      if key !in seen {
        assert First(ms, n);
        seen := seen + {key};
        out, at := out + [ms[n]], at + [n];
        assert n in at;
      } else {
        assert !First(ms, n);
      }
    }
  }

  lemma {:induction false} FirstOccurrence(ms: seq<Message>, i: nat) returns (j: nat)
    requires i < |ms|
    ensures j <= i && First(ms, j) && KeyOf(ms[j]) == KeyOf(ms[i])
    decreases i
  {
    if First(ms, i) {
      return i;
    }
    var k :| 0 <= k < i && KeyOf(ms[k]) == KeyOf(ms[i]);
    j := FirstOccurrence(ms, k);
  }

  lemma DedupeCovers(ms: seq<Message>, out: seq<Message>, at: seq<nat>, i: nat) returns (k: nat)
    requires Deduped(ms, |ms|, out, at) && i < |ms|
    ensures k < |out| && KeyOf(out[k]) == KeyOf(ms[i])
  {
    var j := FirstOccurrence(ms, i);
    assert j in at;
    k :| 0 <= k < |at| && at[k] == j;
  }

  /** Some message has the key of `m`. */
  predicate Covers(out: seq<Message>, m: Message) { exists k | 0 <= k < |out| :: KeyOf(out[k]) == KeyOf(m) }

  lemma DedupeCode(ms: seq<Message>, out: seq<Message>, at: seq<nat>, c: Code)
    requires Deduped(ms, |ms|, out, at)
    ensures Has(out, c) <==> Has(ms, c)
  {
    if Has(ms, c) {
      var i :| 0 <= i < |ms| && ms[i].code == c;
      var k := DedupeCovers(ms, out, at, i);
      assert out[k].code == KeyOf(out[k]).code == KeyOf(ms[i]).code;
    }
    if Has(out, c) {
      var k :| 0 <= k < |out| && out[k].code == c;
      assert ms[at[k]].code == c;
    }
  }

  /** No two kept messages share a key, and none is invented or lost but for that. */
  lemma DedupeKeeps(ms: seq<Message>, out: seq<Message>, at: seq<nat>)
    requires Deduped(ms, |ms|, out, at)
    ensures forall k, l | 0 <= k < l < |out| :: KeyOf(out[k]) != KeyOf(out[l])
    ensures forall m :: m in out ==> m in ms
    ensures forall m :: m in ms ==> Covers(out, m)
    ensures forall c :: Has(out, c) <==> Has(ms, c)
  {
    forall k, l | 0 <= k < l < |out|
      ensures KeyOf(out[k]) != KeyOf(out[l])
    {
    }
    forall m | m in ms
      ensures Covers(out, m)
    {
      var i :| 0 <= i < |ms| && ms[i] == m;
      var k := DedupeCovers(ms, out, at, i);
    }
    forall c
      ensures Has(out, c) <==> Has(ms, c)
    {
      DedupeCode(ms, out, at, c);
    }
  }

  /** Two messages are the same if code, item and text are. */
  lemma DedupeSpelled(ms: seq<Message>, out: seq<Message>, at: seq<nat>)
    requires Deduped(ms, |ms|, out, at)
    ensures forall k, l | 0 <= k < l < |out| ::
      out[k].code != out[l].code || out[k].item != out[l].item || out[k].text != out[l].text
    ensures forall m | m in ms :: exists m' | m' in out :: m'.code == m.code && m'.item == m.item && m'.text == m.text
  {
    DedupeKeeps(ms, out, at);
    forall m | m in ms
      ensures exists m' | m' in out :: m'.code == m.code && m'.item == m.item && m'.text == m.text
    {
      var k :| 0 <= k < |out| && KeyOf(out[k]) == KeyOf(m);
      assert out[k] in out;
    }
  }

  lemma DedupeCodes(ms: seq<Message>, out: seq<Message>, at: seq<nat>)
    requires Deduped(ms, |ms|, out, at)
    ensures CodesOf(out) == CodesOf(ms)
  {
    forall c
      ensures c in CodesOf(out) <==> c in CodesOf(ms)
    {
      DedupeCode(ms, out, at, c);
      CodesHave(ms, c);
      CodesHave(out, c);
    }
  }

  lemma NoCodes(ms: seq<Message>)
    ensures CodesOf(ms) == {} <==> ms == []
  {
    if ms != [] {
      assert ms[0].code in CodesOf(ms);
    }
  }
}
