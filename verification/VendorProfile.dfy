/** What the store remembers of a vendor's country of origin, as a function of the
    vendor's history. */
module VendorProfile {
  import opened Options

  type Code = string

  datatype Source = REVIEWER | OBSERVED

  datatype Entry = Entry(default_: Option<Code>, source: Option<Source>, docs: nat)

  const EMPTY := Entry(None, None, 0)

  const MIN_OBSERVED_DOCS := 2

  /** One finalized job's verdict on its vendor. */
  datatype Observation = Observation(top: Code, reviewer: bool)

  // ---- the state machine ------------------------------------------------------------------- //

  class Profile {
    var coo_default: Option<Code>
    var coo_source: Option<Source>
    var coo_docs: nat

    function Snapshot(): Entry
      reads this
    {
      Entry(coo_default, coo_source, coo_docs)
    }

    constructor ()
      ensures Snapshot() == EMPTY
    {
      coo_default, coo_source, coo_docs := None, None, 0;
    }

    /** `_apply_coo_observation`. */
    method ApplyCooObservation(o: Observation)
      modifies this
      ensures Snapshot() == After(old(Snapshot()), o)
      ensures o.reviewer ==>
        && coo_default == Some(o.top) && coo_source == Some(REVIEWER)
        && (old(coo_source) == Some(REVIEWER) && old(coo_default) == Some(o.top) ==> coo_docs == old(coo_docs) + 1)
        && (old(coo_source) != Some(REVIEWER) || old(coo_default) != Some(o.top) ==> coo_docs == 1)
      ensures !o.reviewer && old(coo_source) == Some(REVIEWER) ==>
        && coo_default == old(coo_default) && coo_source == Some(REVIEWER)
        && coo_docs == old(coo_docs) + if old(coo_default) == Some(o.top) then 1 else 0
      ensures !o.reviewer && old(coo_source) != Some(REVIEWER) && old(coo_default) == Some(o.top) ==>
        coo_default == Some(o.top) && coo_source == Some(OBSERVED) && coo_docs == old(coo_docs) + 1
      ensures !o.reviewer && old(coo_source) != Some(REVIEWER) && old(coo_default).Some? && old(coo_default) != Some(o.top) ==>
        coo_default.None? && coo_source.None? && coo_docs == 0
      ensures !o.reviewer && old(coo_source) != Some(REVIEWER) && old(coo_default).None? ==>
        coo_default == Some(o.top) && coo_source == Some(OBSERVED) && coo_docs == 1
    {
      if o.reviewer {
        if coo_default != Some(o.top) || coo_source != Some(REVIEWER) {
          coo_docs := 0;
        }
        coo_default, coo_source := Some(o.top), Some(REVIEWER);
        coo_docs := coo_docs + 1;
      } else if coo_source == Some(REVIEWER) {
        if coo_default == Some(o.top) {
          coo_docs := coo_docs + 1;
        }
      } else if coo_default == Some(o.top) {
        coo_docs := coo_docs + 1;
        if coo_source == None {
          coo_source := Some(OBSERVED);
        }
      } else if coo_default.Some? {
        coo_default, coo_source, coo_docs := None, None, 0;
      } else {
        coo_default, coo_source, coo_docs := Some(o.top), Some(OBSERVED), 1;
      }
    }

    /** `coo_default_for`. */
    method CooDefault() returns (code: Option<Code>)
      ensures code == Proposed(Snapshot())
      ensures forall c :: code == Some(c) <==> coo_default == Some(c) && (coo_source == Some(REVIEWER) || coo_docs >= 2)
    {
      if coo_default.None? {
        return None;
      }
      if coo_source == Some(REVIEWER) || coo_docs >= MIN_OBSERVED_DOCS {
        return coo_default;
      }
      return None;
    }

    /** The profile after a whole history. */
    method Replay(history: seq<Observation>)
      requires Snapshot() == EMPTY
      modifies this
      ensures Snapshot() == State(history, |history|)
    {
      for n := 0 to |history|
        invariant Snapshot() == State(history, n)
      {
        ApplyCooObservation(history[n]);
      }
    }
  }

  /** One observation on a stored entry. */
  function After(e: Entry, o: Observation): Entry {
    var same := e.default_ == Some(o.top);
    match (o.reviewer, e.source)
    case (true, _) => Entry(Some(o.top), Some(REVIEWER), if same && e.source == Some(REVIEWER) then e.docs + 1 else 1)
    case (false, Some(REVIEWER)) => if same then e.(docs := e.docs + 1) else e
    case (false, _) =>
      if same then Entry(e.default_, if e.source == None then Some(OBSERVED) else e.source, e.docs + 1)
      else if e.default_.Some? then EMPTY
      else Entry(Some(o.top), Some(OBSERVED), 1)
  }

  function Proposed(e: Entry): Option<Code> {
    if e.source == Some(REVIEWER) || e.docs >= MIN_OBSERVED_DOCS then e.default_ else None
  }

  function State(history: seq<Observation>, n: nat): Entry
    requires n <= |history|
  {
    if n == 0 then EMPTY else After(State(history, n - 1), history[n - 1])
  }

  // ---- the history ---------------------------------------------------------------------------------- //

  ghost predicate EverConfirmed(history: seq<Observation>, n: nat)
    requires n <= |history|
  {
    exists i | 0 <= i < n :: history[i].reviewer
  }

  /** The last reviewer observation among the first `n`. */
  ghost predicate LastConfirmed(history: seq<Observation>, n: nat, i: nat)
    requires n <= |history|
  {
    i < n && history[i].reviewer && forall j | i < j < n :: !history[j].reviewer
  }

  /** The last `k` of the first `n` observations all say `code`. */
  ghost predicate Agree(history: seq<Observation>, n: nat, k: nat, code: Code)
    requires n <= |history|
  {
    k <= n && forall i | n - k <= i < n :: history[i].top == code
  }

  /** What the entry looks like without any reviewer. */
  ghost predicate ObservedShape(history: seq<Observation>, n: nat, e: Entry)
    requires n <= |history|
  {
    if e.default_.None? then e == EMPTY
    else e.source == Some(OBSERVED) && e.docs >= 1 && Agree(history, n, e.docs, e.default_.value)
  }

  lemma {:induction false} Characterised(history: seq<Observation>, n: nat)
    requires n <= |history|
    ensures var e := State(history, n);
      if EverConfirmed(history, n)
      then e.source == Some(REVIEWER) && e.docs >= 1
           && exists i | 0 <= i < n :: LastConfirmed(history, n, i) && e.default_ == Some(history[i].top)
      else ObservedShape(history, n, e)
  {
    if n > 0 {
      Characterised(history, n - 1);
      if EverConfirmed(history, n - 1) {
        var i :| 0 <= i < n - 1 && LastConfirmed(history, n - 1, i)
                 && State(history, n - 1).default_ == Some(history[i].top);
        assert history[i].reviewer;
        assert LastConfirmed(history, n, if history[n - 1].reviewer then n - 1 else i);
      } else if history[n - 1].reviewer {
        assert LastConfirmed(history, n, n - 1);
      }
    }
  }

  /** Once a reviewer has spoken the source is REVIEWER for good, and the default is
      the latest reviewer's code. */
  lemma ReviewerForever(history: seq<Observation>, i: nat)
    requires LastConfirmed(history, |history|, i)
    ensures var e := State(history, |history|);
      e.source == Some(REVIEWER) && Proposed(e) == Some(history[i].top)
  {
    var n := |history|;
    Characterised(history, n);
    assert EverConfirmed(history, n);
    var j :| 0 <= j < n && LastConfirmed(history, n, j) && State(history, n).default_ == Some(history[j].top);
    assert i == j;
  }

  /** Since observation `i` the reviewer stands by one code: `i` confirmed it, the last
      confirmation before, if any, was of another one, and none after was. */
  ghost predicate StandsSince(history: seq<Observation>, n: nat, i: nat)
    requires n <= |history|
  {
    && i < n && history[i].reviewer
    && (forall j | 0 <= j < i && LastConfirmed(history, i, j) :: history[j].top != history[i].top)
    && (forall j | i < j < n && history[j].reviewer :: history[j].top == history[i].top)
  }

  /** The observations of a code among those from `i` on. */
  function Sayings(history: seq<Observation>, i: nat, n: nat, code: Code): set<nat>
    requires n <= |history|
  {
    set j | i <= j < n && history[j].top == code
  }

  lemma SayingsNext(history: seq<Observation>, i: nat, n: nat, code: Code)
    requires i <= n < |history|
    ensures |Sayings(history, i, n + 1, code)|
         == |Sayings(history, i, n, code)| + if history[n].top == code then 1 else 0
  {
    assert Sayings(history, i, n + 1, code)
        == Sayings(history, i, n, code) + if history[n].top == code then {n} else {};
  }

  lemma {:induction false} LastIs(history: seq<Observation>, n: nat) returns (j: nat)
    requires n <= |history| && EverConfirmed(history, n)
    ensures LastConfirmed(history, n, j)
  {
    if history[n - 1].reviewer {
      j := n - 1;
    } else {
      j := LastIs(history, n - 1);
    }
  }

  lemma LastUnique(history: seq<Observation>, n: nat, i: nat, j: nat)
    requires n <= |history| && LastConfirmed(history, n, i) && LastConfirmed(history, n, j)
    ensures i == j
  {
  }

  /** What the entry counts: the observations of its code since the reviewer stands by it. */
  ghost predicate CountsFrom(history: seq<Observation>, n: nat, i: nat)
    requires n <= |history|
  {
    && StandsSince(history, n, i)
    && State(history, n) == Entry(Some(history[i].top), Some(REVIEWER), |Sayings(history, i, n, history[i].top)|)
    && forall j: nat | LastConfirmed(history, n, j) :: i <= j && history[j].top == history[i].top
  }

  lemma FirstConfirmation(history: seq<Observation>, n: nat)
    requires n < |history| && !EverConfirmed(history, n) && history[n].reviewer
    ensures CountsFrom(history, n + 1, n)
  {
    Characterised(history, n);
    assert Sayings(history, n, n + 1, history[n].top) == {n};
  }

  lemma OtherConfirmation(history: seq<Observation>, n: nat, i: nat)
    requires n < |history| && CountsFrom(history, n, i) && history[n].reviewer && history[n].top != history[i].top
    ensures CountsFrom(history, n + 1, n)
  {
    assert Sayings(history, n, n + 1, history[n].top) == {n};
  }

  lemma SameConfirmation(history: seq<Observation>, n: nat, i: nat)
    requires n < |history| && CountsFrom(history, n, i) && (history[n].reviewer ==> history[n].top == history[i].top)
    ensures CountsFrom(history, n + 1, i)
  {
    SayingsNext(history, i, n, history[i].top);
    hide Sayings;
    forall j: nat | LastConfirmed(history, n + 1, j)
      ensures i <= j && history[j].top == history[i].top
    {
      assert j < n ==> LastConfirmed(history, n, j);
    }
  }

  /** A confirmed entry counts every observation of its code, the reviewer's and any
      other, since the reviewer has stood by it. */
  lemma {:induction false} ConfirmedCounts(history: seq<Observation>, n: nat) returns (i: nat)
    requires n <= |history| && EverConfirmed(history, n)
    ensures StandsSince(history, n, i)
    ensures State(history, n) == Entry(Some(history[i].top), Some(REVIEWER), |Sayings(history, i, n, history[i].top)|)
    ensures CountsFrom(history, n, i)
  {
    if EverConfirmed(history, n - 1) {
      i := ConfirmedCounts(history, n - 1);
      if history[n - 1].reviewer && history[n - 1].top != history[i].top {
        OtherConfirmation(history, n - 1, i);
        i := n - 1;
      } else {
        SameConfirmation(history, n - 1, i);
      }
    } else {
      i := n - 1;
      FirstConfirmation(history, n - 1);
    }
    hide State, Sayings;
  }

  /** A proposed default no reviewer stands behind is what at least two last jobs say,
      and as many as the counter counts. */
  lemma ObservedProposal(history: seq<Observation>)
    requires !EverConfirmed(history, |history|) && Proposed(State(history, |history|)).Some?
    ensures var e := State(history, |history|);
      && e.source == Some(OBSERVED) && e.docs >= MIN_OBSERVED_DOCS
      && Agree(history, |history|, e.docs, Proposed(e).value)
  {
    Characterised(history, |history|);
  }

  /** Whatever came before, three jobs in a row that agree are proposed; two are,
      exactly when the entry did not hold another code before them. */
  lemma ThreeAgreeing(history: seq<Observation>, code: Code)
    requires |history| >= 3 && !EverConfirmed(history, |history|) && Agree(history, |history|, 3, code)
    ensures Proposed(State(history, |history|)) == Some(code)
  {
    var n := |history|;
    Characterised(history, n - 3);
    Unconfirmed(history, n, n - 3);
    TwoSteps(history, n - 1);
    assert State(history, n) == After(State(history, n - 1), history[n - 1]);
  }

  lemma TwoAgreeingExactly(history: seq<Observation>, code: Code)
    requires |history| >= 2 && !EverConfirmed(history, |history|) && Agree(history, |history|, 2, code)
    ensures var before := State(history, |history| - 2);
      Proposed(State(history, |history|)) == Some(code) <==> before.default_.None? || before.default_ == Some(code)
  {
    var n := |history|;
    Characterised(history, n - 2);
    Unconfirmed(history, n, n - 2);
    TwoSteps(history, n);
  }

  lemma TwoSteps(history: seq<Observation>, n: nat)
    requires 2 <= n <= |history|
    ensures State(history, n) == After(After(State(history, n - 2), history[n - 2]), history[n - 1])
  {
    assert State(history, n - 1) == After(State(history, n - 2), history[n - 2]);
  }

  lemma Unconfirmed(history: seq<Observation>, n: nat, m: nat)
    requires m <= n <= |history| && !EverConfirmed(history, n)
    ensures !EverConfirmed(history, m)
  {
  }

  // ---- which code a job observes ------------------------------------------------------------------------ //

  /** One item's origin; `evidenced` when the item itself printed it. */
  datatype ItemCoo = ItemCoo(code: Code, evidenced: bool)

  predicate Counts(it: ItemCoo) { it.code != [] && it.evidenced }

  function EvidencedTo(items: seq<ItemCoo>, n: nat): seq<Code>
    requires n <= |items|
  {
    if n == 0 then [] else EvidencedTo(items, n - 1) + (if Counts(items[n - 1]) then [items[n - 1].code] else [])
  }

  function CountTo(codes: seq<Code>, n: nat, code: Code): nat
    requires n <= |codes|
  {
    if n == 0 then 0 else CountTo(codes, n - 1, code) + (if codes[n - 1] == code then 1 else 0)
  }

  function Count(codes: seq<Code>, code: Code): nat { CountTo(codes, |codes|, code) }

  /** At least four fifths of the items carry evidence, and of that four fifths agree. */
  predicate Recordable(items: seq<ItemCoo>, code: Code) {
    var evidenced := EvidencedTo(items, |items|);
    |evidenced| >= 1 && 5 * |evidenced| >= 4 * |items| && 5 * Count(evidenced, code) >= 4 * |evidenced|
  }

  lemma {:induction false} TwoCounts(codes: seq<Code>, n: nat, a: Code, b: Code)
    requires n <= |codes| && a != b
    ensures CountTo(codes, n, a) + CountTo(codes, n, b) <= n
  {
    if n > 0 {
      TwoCounts(codes, n - 1, a, b);
    }
  }

  /** A recordable code is the only one, a majority, and covers 64% of all items. */
  lemma RecordableUnique(items: seq<ItemCoo>, code: Code)
    requires Recordable(items, code)
    ensures 2 * Count(EvidencedTo(items, |items|), code) > |EvidencedTo(items, |items|)|
    ensures 25 * Count(EvidencedTo(items, |items|), code) >= 16 * |items|
    ensures forall other :: Recordable(items, other) ==> other == code
  {
    var evidenced := EvidencedTo(items, |items|);
    forall other | Recordable(items, other)
      ensures other == code
    {
      if other != code {
        TwoCounts(evidenced, |evidenced|, code, other);
      }
    }
  }

  /** The items that printed an origin themselves, and those that printed this one. */
  function Printed(items: seq<ItemCoo>): set<nat> {
    set i | 0 <= i < |items| && items[i].evidenced && |items[i].code| > 0
  }

  function Votes(items: seq<ItemCoo>, code: Code): set<nat> {
    set i | 0 <= i < |items| && items[i].evidenced && items[i].code == code
  }

  lemma {:induction false} PrintedCount(items: seq<ItemCoo>, n: nat)
    requires n <= |items|
    ensures |EvidencedTo(items, n)| == |Printed(items[..n])|
  {
    if n == 0 {
      assert Printed(items[..0]) == {};
    } else {
      PrintedCount(items, n - 1);
      var it := items[n - 1];
      assert Printed(items[..n]) == Printed(items[..n - 1]) + if it.evidenced && |it.code| > 0 then {n - 1} else {};
    }
  }

  lemma {:induction false} VotesCount(items: seq<ItemCoo>, n: nat, code: Code)
    requires n <= |items|
    ensures Count(EvidencedTo(items, n), code) == if code == [] then 0 else |Votes(items[..n], code)|
  {
    hide Count;
    if n == 0 {
      assert Votes(items[..0], code) == {};
      NoneCounted(code);
    } else {
      VotesCount(items, n - 1, code);
      var before, it := EvidencedTo(items, n - 1), items[n - 1];
      CountOne(before, it.code, code);
      assert before + [] == before;
      assert Votes(items[..n], code) == Votes(items[..n - 1], code) + if it.evidenced && it.code == code then {n - 1} else {};
    }
  }

  lemma NoneCounted(code: Code)
    ensures Count([], code) == 0
  {
  }

  lemma CountOne(codes: seq<Code>, last: Code, code: Code)
    ensures Count(codes + [last], code) == Count(codes, code) + if last == code then 1 else 0
  {
    CountPrefix(codes + [last], codes, |codes|, code);
  }

  lemma {:induction false} CountPrefix(a: seq<Code>, b: seq<Code>, n: nat, code: Code)
    requires n <= |a| && n <= |b| && forall i | 0 <= i < n :: a[i] == b[i]
    ensures CountTo(a, n, code) == CountTo(b, n, code)
  {
    if n > 0 {
      CountPrefix(a, b, n - 1, code);
    }
  }

  /** Four fifths of the items print an origin, and four fifths of those this one. */
  lemma RecordableExactly(items: seq<ItemCoo>, code: Code)
    ensures Recordable(items, code)
       <==> && code != "" && |Printed(items)| >= 1
            && 5 * |Printed(items)| >= 4 * |items| && 5 * |Votes(items, code)| >= 4 * |Printed(items)|
  {
    PrintedCount(items, |items|);
    VotesCount(items, |items|, code);
    assert items[..|items|] == items;
  }

  /** The code a job records: the recordable one, if there is one. */
  method Observed(items: seq<ItemCoo>) returns (top: Option<Code>)
    ensures top.Some? ==> Recordable(items, top.value)
    ensures top.None? ==> forall code :: !Recordable(items, code)
    ensures forall code ::
      top == Some(code)
      <==> && code != "" && |Printed(items)| >= 1
           && 5 * |Printed(items)| >= 4 * |items| && 5 * |Votes(items, code)| >= 4 * |Printed(items)|
  {
    top := MostPrinted(items);
    forall code
      ensures top == Some(code)
         <==> && code != "" && |Printed(items)| >= 1
              && 5 * |Printed(items)| >= 4 * |items| && 5 * |Votes(items, code)| >= 4 * |Printed(items)|
    {
      RecordableExactly(items, code);
      if top.Some? {
        RecordableUnique(items, top.value);
      }
    }
  }

  method MostPrinted(items: seq<ItemCoo>) returns (top: Option<Code>)
    ensures top.Some? ==> Recordable(items, top.value)
    ensures top.None? ==> forall code :: !Recordable(items, code)
  {
    var evidenced := EvidencedTo(items, |items|);
    if |evidenced| == 0 || 5 * |evidenced| < 4 * |items| {
      return None;
    }
    var best := evidenced[0];
    for n := 0 to |evidenced|
      invariant forall k | 0 <= k < n :: Count(evidenced, evidenced[k]) <= Count(evidenced, best)
    {
      if Count(evidenced, evidenced[n]) > Count(evidenced, best) {
        best := evidenced[n];
      }
    }
    if 5 * Count(evidenced, best) < 4 * |evidenced| {
      forall code
        ensures !Recordable(items, code)
      {
        CountedStands(evidenced, |evidenced|, code);
      }
      return None;
    }
    return Some(best);
  }

  lemma {:induction false} CountedStands(codes: seq<Code>, n: nat, code: Code)
    requires n <= |codes|
    ensures CountTo(codes, n, code) > 0 ==> exists k | 0 <= k < n :: codes[k] == code
  {
    if n > 0 {
      CountedStands(codes, n - 1, code);
    }
  }
}
