/** The two-attempt upsert behind the layout store and the vendor profiles, and the
    layout store itself. */
module VendorUpsert {
  import opened Options
  import P = VendorProfile

  // ---- one layout row ------------------------------------------------------------------------ //

  /** A proven layout; the hint may be empty. */
  datatype Evidence = Evidence(mapping: int, hint: string, confirmedRows: nat)

  datatype Layout = Layout(mapping: int, hint: string, confirmedRows: nat, docs: nat)

  function Max(a: nat, b: nat): nat { if a < b then b else a }

  function FirstHint(a: string, b: string): string { if a != [] then a else b }

  /** Insert, or update in place. */
  function Recorded(row: Option<Layout>, e: Evidence): Layout {
    match row
    case None => Layout(e.mapping, e.hint, e.confirmedRows, 1)
    case Some(l) => Layout(e.mapping, FirstHint(l.hint, e.hint), Max(l.confirmedRows, e.confirmedRows), l.docs + 1)
  }

  function RecordedTo(es: seq<Evidence>, n: nat): Option<Layout>
    requires n <= |es|
  {
    if n == 0 then None else Some(Recorded(RecordedTo(es, n - 1), es[n - 1]))
  }

  /** The most rows any of the evidence confirmed. */
  ghost predicate MostRows(es: seq<Evidence>, most: nat) {
    && (forall i | 0 <= i < |es| :: es[i].confirmedRows <= most)
    && exists i | 0 <= i < |es| :: es[i].confirmedRows == most
  }

  /** The row after any recordings: it counts them all, keeps their maximum, the last
      mapping, and the first hint that is not empty. */
  lemma {:induction false} RowIsSummary(es: seq<Evidence>, n: nat)
    requires 0 < n <= |es|
    ensures RecordedTo(es, n).Some?
    ensures var l := RecordedTo(es, n).value;
      && l.docs == n && l.mapping == es[n - 1].mapping && MostRows(es[..n], l.confirmedRows)
      && (l.hint == [] ==> forall i | 0 <= i < n :: es[i].hint == [])
      && (l.hint != [] ==> exists i | 0 <= i < n :: es[i].hint == l.hint && forall j | 0 <= j < i :: es[j].hint == [])
  {
    var last := es[n - 1];
    if n == 1 {
      assert es[..1][0] == last;
    } else {
      RowIsSummary(es, n - 1);
      var before := RecordedTo(es, n - 1).value;
      var most := Max(before.confirmedRows, last.confirmedRows);
      var i :| 0 <= i < n - 1 && es[..n - 1][i].confirmedRows == before.confirmedRows;
      assert es[..n][i] == es[..n - 1][i] && es[..n][n - 1] == last;
      assert forall j | 0 <= j < n - 1 :: es[..n][j] == es[..n - 1][j];
      assert MostRows(es[..n], most);
    }
  }

  /** Counter and maximum do not depend on the order of the recordings. */
  lemma OrderIndependent(a: seq<Evidence>, b: seq<Evidence>)
    requires multiset(a) == multiset(b) && a != []
    ensures |a| == |b|
    ensures RecordedTo(a, |a|).Some? && RecordedTo(b, |b|).Some?
    ensures RecordedTo(a, |a|).value.docs == RecordedTo(b, |b|).value.docs
    ensures RecordedTo(a, |a|).value.confirmedRows == RecordedTo(b, |b|).value.confirmedRows
  {
    assert |multiset(a)| == |a| && |multiset(b)| == |b|;
    RowIsSummary(a, |a|);
    RowIsSummary(b, |b|);
    assert a[..|a|] == a && b[..|b|] == b;
    AtMost(a, b, RecordedTo(a, |a|).value.confirmedRows, RecordedTo(b, |b|).value.confirmedRows);
    AtMost(b, a, RecordedTo(b, |b|).value.confirmedRows, RecordedTo(a, |a|).value.confirmedRows);
  }

  lemma AtMost(a: seq<Evidence>, b: seq<Evidence>, x: nat, y: nat)
    requires multiset(a) == multiset(b) && MostRows(a, x) && MostRows(b, y)
    ensures x <= y
  {
    var i :| 0 <= i < |a| && a[i].confirmedRows == x;
    assert a[i] in multiset(a);
    assert a[i] in b;
  }

  // ---- concurrent writers ------------------------------------------------------------------------ //

  /** Where a writer of one key stands. */
  datatype Phase<O> =
    | Looking(attempt: nat, o: O)       // before SELECT ... FOR UPDATE
    | Inserting(attempt: nat, o: O)     // found no row: about to insert and commit
    | Done(o: O)
    | Lost                              // refused twice: the evidence is dropped
    | Abandoned                         // any other failure of the store

  datatype State<R, O> = State(row: Option<R>, writers: map<nat, Phase<O>>, order: seq<O>)

  /** `Find` locks, updates and commits the row if it is there; the row lock makes that
      one step.  `Insert` is refused by the unique key if another writer was first. */
  datatype Event<O> = Arrive(w: nat, o: O) | Find(w: nat) | Insert(w: nat) | Fail(w: nat)

  predicate Enabled<R, O>(s: State<R, O>, e: Event<O>) {
    match e
    case Arrive(w, _) => w !in s.writers
    case Find(w) => w in s.writers && s.writers[w].Looking?
    case Insert(w) => w in s.writers && s.writers[w].Inserting?
    case Fail(w) => w in s.writers && (s.writers[w].Looking? || s.writers[w].Inserting?)
  }

  function Apply<R, O>(record: (Option<R>, O) -> R, s: State<R, O>, e: Event<O>): State<R, O>
    requires Enabled(s, e)
  {
    match e
    case Arrive(w, o) => s.(writers := s.writers[w := Looking(1, o)])
    case Find(w) =>
      var p := s.writers[w];
      if s.row.Some? then State(Some(record(s.row, p.o)), s.writers[w := Done(p.o)], s.order + [p.o])
      else s.(writers := s.writers[w := Inserting(p.attempt, p.o)])
    case Insert(w) =>
      var p := s.writers[w];
      if s.row.None? then State(Some(record(None, p.o)), s.writers[w := Done(p.o)], s.order + [p.o])
      else s.(writers := s.writers[w := if p.attempt == 1 then Looking(2, p.o) else Lost])
    case Fail(w) => s.(writers := s.writers[w := Abandoned])
  }

  function Start<R, O>(): State<R, O> { State(None, map[], []) }

  ghost predicate IsRun<R(!new), O(!new)>(record: (Option<R>, O) -> R, run: seq<Event<O>>, states: seq<State<R, O>>) {
    && |states| == |run| + 1 && states[0] == Start()
    && forall i | 0 <= i < |run| :: Enabled(states[i], run[i]) && states[i + 1] == Apply(record, states[i], run[i])
  }

  /** The row after the recordings of `order`, in that order. */
  function Folded<R, O>(record: (Option<R>, O) -> R, order: seq<O>, n: nat): Option<R>
    requires n <= |order|
  {
    if n == 0 then None else Some(record(Folded(record, order, n - 1), order[n - 1]))
  }

  function Finished<O>(writers: map<nat, Phase<O>>): set<nat> {
    set w | w in writers && writers[w].Done?
  }

  /** A second attempt finds the row; the row is what the completed recordings make it,
      and each of them counts once. */
  ghost predicate Kept<R, O>(record: (Option<R>, O) -> R, s: State<R, O>) {
    && s.row == Folded(record, s.order, |s.order|)
    && |s.order| == |Finished(s.writers)|
    && forall w <- s.writers :: SecondFinds(s, s.writers[w])
  }

  predicate SecondFinds<R, O>(s: State<R, O>, p: Phase<O>) {
    match p
    case Looking(attempt, _) => attempt == 1 || (attempt == 2 && s.row.Some?)
    case Inserting(attempt, _) => attempt == 1
    case Done(_) => s.row.Some?
    case Lost => false
    case Abandoned => true
  }

  lemma {:induction false} FoldedPrefix<R, O>(record: (Option<R>, O) -> R, a: seq<O>, b: seq<O>, n: nat)
    requires n <= |a| && n <= |b| && forall i | 0 <= i < n :: a[i] == b[i]
    ensures Folded(record, a, n) == Folded(record, b, n)
  {
    if n > 0 {
      FoldedPrefix(record, a, b, n - 1);
    }
  }

  lemma FinishedMore<O>(writers: map<nat, Phase<O>>, w: nat, p: Phase<O>)
    requires w in writers ==> !writers[w].Done?
    ensures |Finished(writers[w := p])| == |Finished(writers)| + (if p.Done? then 1 else 0)
  {
    assert Finished(writers[w := p]) == Finished(writers) + (if p.Done? then {w} else {});
  }

  lemma StepKeeps<R, O>(record: (Option<R>, O) -> R, s: State<R, O>, e: Event<O>)
    requires Kept(record, s) && Enabled(s, e)
    ensures Kept(record, Apply(record, s, e))
  {
    var t := Apply(record, s, e);
    FinishedMore(s.writers, e.w, t.writers[e.w]);
    FoldedPrefix(record, t.order, s.order, |s.order|);
    assert SecondFinds(t, t.writers[e.w]) by {
      assert e.Arrive? || SecondFinds(s, s.writers[e.w]);
    }
    forall w | w in t.writers
      ensures SecondFinds(t, t.writers[w])
    {
      assert w == e.w || SecondFinds(s, s.writers[w]);
    }
  }

  /** For any interleaving of writers: nobody loses twice, and the row is exactly what the
      completed recordings make it. */
  lemma NothingLost<R(!new), O(!new)>(record: (Option<R>, O) -> R, run: seq<Event<O>>, states: seq<State<R, O>>)
    requires IsRun(record, run, states)
    ensures var s := states[|run|];
      && (forall w <- s.writers :: s.writers[w] != Lost)
      && (forall w <- s.writers :: s.writers[w].Looking? && s.writers[w].attempt == 2 ==> s.row.Some?)
      && s.row == Folded(record, s.order, |s.order|) && |s.order| == |Finished(s.writers)|
  {
    hide Apply;
    hide Enabled;
    for i := 0 to |run|
      invariant Kept(record, states[i])
    {
      StepKeeps(record, states[i], run[i]);
    }
  }

  lemma Extend<R(!new), O(!new)>(record: (Option<R>, O) -> R, run: seq<Event<O>>, states: seq<State<R, O>>, e: Event<O>)
    returns (run': seq<Event<O>>, states': seq<State<R, O>>)
    requires IsRun(record, run, states) && Enabled(states[|run|], e)
    ensures IsRun(record, run', states') && states'[|run'|] == Apply(record, states[|run|], e)
  {
    hide Enabled, Apply;
    run', states' := run + [e], states + [Apply(record, states[|run|], e)];
  }

  /** Two writers have found no row; one has inserted, the other still means to. */
  function Rivals<R, O>(record: (Option<R>, O) -> R, a: O, b: O): State<R, O> {
    State(Some(record(None, a)), map[0 := Done(a), 1 := Inserting(1, b)], [a])
  }

  lemma RivalsMeet<R(!new), O(!new)>(record: (Option<R>, O) -> R, a: O, b: O)
    returns (run: seq<Event<O>>, states: seq<State<R, O>>)
    ensures IsRun(record, run, states) && states[|run|] == Rivals(record, a, b)
  {
    run, states := [], [Start()];
    run, states := Extend(record, run, states, Arrive(0, a));
    run, states := Extend(record, run, states, Arrive(1, b));
    run, states := Extend(record, run, states, Find(0));
    run, states := Extend(record, run, states, Find(1));
    run, states := Extend(record, run, states, Insert(0));
    assert states[|run|].writers == map[0 := Done(a), 1 := Inserting(1, b)];
  }

  /** Of two writers that find no row one inserts, and the other, refused, records on its
      second attempt; or it fails and leaves nothing. */
  lemma RivalsCount<R(!new), O(!new)>(record: (Option<R>, O) -> R, a: O, b: O, fails: bool)
    returns (run: seq<Event<O>>, states: seq<State<R, O>>)
    ensures IsRun(record, run, states)
    ensures !fails ==>
      states[|run|] == State(Some(record(Some(record(None, a)), b)), map[0 := Done(a), 1 := Done(b)], [a, b])
    ensures fails ==> states[|run|] == State(Some(record(None, a)), map[0 := Done(a), 1 := Abandoned], [a])
  {
    run, states := RivalsMeet(record, a, b);
    if fails {
      run, states := Extend(record, run, states, Fail(1));
      assert states[|run|].writers == map[0 := Done(a), 1 := Abandoned];
    } else {
      run, states := Extend(record, run, states, Insert(1));
      run, states := Extend(record, run, states, Find(1));
      assert states[|run|].writers == map[0 := Done(a), 1 := Done(b)];
    }
  }

  /** For layouts: `docs` is the number of completed recordings, `confirmed_rows` their
      maximum. */
  lemma LayoutCountsAll(run: seq<Event<Evidence>>, states: seq<State<Layout, Evidence>>)
    requires IsRun(Recorded, run, states) && Finished(states[|run|].writers) != {}
    ensures var s := states[|run|];
      && s.row.Some? && s.row.value.docs == |Finished(s.writers)|
      && MostRows(s.order, s.row.value.confirmedRows)
  {
    NothingLost(Recorded, run, states);
    var s := states[|run|];
    SameFold(s.order, |s.order|);
    RowIsSummary(s.order, |s.order|);
    assert s.order[..|s.order|] == s.order;
  }

  lemma {:induction false} SameFold(es: seq<Evidence>, n: nat)
    requires n <= |es|
    ensures Folded(Recorded, es, n) == RecordedTo(es, n)
  {
    if n > 0 {
      SameFold(es, n - 1);
    }
  }

  function RecordedCoo(row: Option<P.Entry>, o: P.Observation): P.Entry {
    P.After(if row.Some? then row.value else P.EMPTY, o)
  }

  /** For vendor profiles: the entry is the state machine's, over the completed
      observations in the order they were committed. */
  lemma ProfileFollowsHistory(run: seq<Event<P.Observation>>, states: seq<State<P.Entry, P.Observation>>)
    requires IsRun(RecordedCoo, run, states) && Finished(states[|run|].writers) != {}
    ensures var s := states[|run|];
      s.row == Some(P.State(s.order, |s.order|)) && |s.order| == |Finished(s.writers)|
  {
    NothingLost(RecordedCoo, run, states);
    var s := states[|run|];
    SameHistory(s.order, |s.order|);
  }

  lemma {:induction false} SameHistory(order: seq<P.Observation>, n: nat)
    requires n <= |order|
    ensures n > 0 ==> Folded(RecordedCoo, order, n) == Some(P.State(order, n))
  {
    if n > 0 {
      SameHistory(order, n - 1);
    }
  }

  // ---- the store ---------------------------------------------------------------------------------- //

  datatype Key = Key(role: string, signature: string)

  const MIN_ROWS_TO_RECORD := 3

  class LayoutStore {
    var rows: map<Key, Layout>

    constructor ()
      ensures rows == map[]
    {
      rows := map[];
    }

    /** `record_layout` without a rival: a parse without a mapping, a header of its own or
        enough rows leaves nothing; any other is upserted under its key alone. */
    method RecordLayout(role: string, mapping: Option<int>, signature: string, hint: string, confirmedRows: nat)
      modifies this
      ensures mapping.None? || signature == [] || confirmedRows < MIN_ROWS_TO_RECORD ==> rows == old(rows)
      ensures mapping.Some? && signature != [] && confirmedRows >= MIN_ROWS_TO_RECORD ==>
        var key := Key(role, signature);
        rows == old(rows)[key := Recorded(if key in old(rows) then Some(old(rows)[key]) else None,
                                          Evidence(mapping.value, hint, confirmedRows))]
      ensures rows != old(rows) ==> mapping.Some? && signature != [] && confirmedRows >= 3
      ensures mapping.Some? && signature != [] && confirmedRows >= 3 ==>
        var key := Key(role, signature);
        && (forall other | other != key :: (other in rows <==> other in old(rows)) && (other in rows ==> rows[other] == old(rows)[other]))
        && key in rows && rows[key].mapping == mapping.value
        && (key !in old(rows) ==> rows[key].docs == 1 && rows[key].confirmedRows == confirmedRows && rows[key].hint == hint)
        && (key in old(rows) ==>
              && rows[key].docs == old(rows)[key].docs + 1
              && rows[key].confirmedRows >= confirmedRows && rows[key].confirmedRows >= old(rows)[key].confirmedRows
              && rows[key].confirmedRows in {confirmedRows, old(rows)[key].confirmedRows}
              && rows[key].hint == if old(rows)[key].hint == [] then hint else old(rows)[key].hint)
    {
      if mapping.None? || signature == [] || confirmedRows < MIN_ROWS_TO_RECORD {
        return;
      }
      var key := Key(role, signature);
      if key !in rows {
        rows := rows[key := Layout(mapping.value, hint, confirmedRows, 1)];
      } else {
        var entry := rows[key];
        entry := entry.(mapping := mapping.value, confirmedRows := Max(entry.confirmedRows, confirmedRows), docs := entry.docs + 1);
        if hint != [] && entry.hint == [] {
          entry := entry.(hint := hint);
        }
        rows := rows[key := entry];
      }
    }
  }
}
