/** One attempt per claim: when at most one extraction runs per document. */
module ExtractionExclusion {
  import opened Documents
  import opened ExtractionQueue
  import opened Options

  /** No two live runs of `run_extraction` work on one document. */
  ghost predicate AtMostOneRun(s: State) {
    forall v, w | v in s.workers && w in s.workers
      && s.workers[v].msg < |s.msgs| && s.workers[w].msg < |s.msgs|
      && s.workers[v].phase == Running && s.workers[w].phase == Running
      && s.msgs[s.workers[v].msg].doc == s.msgs[s.workers[w].msg].doc ::
      v == w
  }

  /** The deployments in which it holds: a failed send enqueued nothing, no claim
      slips into a re-attach, and a message is either delivered once or
      redelivered only after its worker died before reaching a result. */
  predicate SingleAttempt(f: Faults) {
    && !f.phantomSend
    && !f.reattachRace
    && (f.maxReceives == 1 || (!f.lostBeat && !f.lateCrash && !f.deleteFails))
  }

  // ---- tickets ------------------------------------------------------------------ //

  /** What can still lead to a run: a producer about to send, or a message that is
      being worked on or may be delivered again. */
  datatype Ticket = ByProducer(p: nat) | ByMessage(m: nat)

  ghost predicate WorkedOn(s: State, m: nat) {
    exists w <- s.workers :: s.workers[w].msg == m && s.workers[w].phase != Disposing
  }

  ghost predicate Deliverable(f: Faults, s: State, m: nat) {
    m < |s.msgs| && Free(s, m) && s.msgs[m].place in {Visible, Hidden} && s.msgs[m].receives < f.maxReceives
  }

  ghost predicate Holds(f: Faults, s: State, t: Ticket, d: DocId, epoch: nat) {
    match t
    case ByProducer(p) => IsClaimed(s, p) && s.producers[p].doc == d && s.producers[p].epoch == epoch
    case ByMessage(m) =>
      m < |s.msgs| && s.msgs[m].doc == d && s.msgs[m].epoch == epoch
      && (WorkedOn(s, m) || Deliverable(f, s, m))
  }

  /** One worker per message, and its message is out of sight or used up. */
  ghost predicate OneHolder(f: Faults, s: State) {
    && (forall v, w | v in s.workers && w in s.workers && s.workers[v].msg == s.workers[w].msg :: v == w)
    && (forall w <- s.workers :: HolderOk(f, s, w))
  }

  ghost predicate HolderOk(f: Faults, s: State, w: nat)
    requires w in s.workers
  {
    && s.workers[w].msg < |s.msgs|
    && var m := s.msgs[s.workers[w].msg];
       m.receives >= 1 && (m.place != Visible || m.receives >= f.maxReceives)
  }

  /** Every ticket is for the document's standing claim... */
  ghost predicate TicketsCurrent(f: Faults, s: State) {
    forall t, d, epoch | Holds(f, s, t, d, epoch) ::
      d in s.docs && s.docs[d].status == Extracting && s.docs[d].epoch == epoch
  }

  /** ...and there is at most one per document. */
  ghost predicate TicketsUnique(f: Faults, s: State) {
    forall t, u, d, i, j | Holds(f, s, t, d, i) && Holds(f, s, u, d, j) :: t == u
  }

  ghost predicate ReattachingIdle(s: State) {
    forall h <- s.reattaching ::
      s.reattaching[h] in s.docs && s.docs[s.reattaching[h]].status in RETRIABLE
  }

  ghost predicate ExclusionInvariant(f: Faults, s: State) {
    WellFormed(s) && OneHolder(f, s) && TicketsCurrent(f, s) && TicketsUnique(f, s) && ReattachingIdle(s)
  }

  // ---- preservation --------------------------------------------------------------- //

  /** How a step can change who works on what. */
  lemma WorkerFrame(f: Faults, s: State, e: Event, w: nat)
    requires Enabled(f, s, e)
    ensures
      var t := Apply(f, s, e);
      && (w in s.workers && w in t.workers ==>
            && t.workers[w].msg == s.workers[w].msg
            && (s.workers[w].phase == Disposing ==> t.workers[w].phase == Disposing))
      && (w !in s.workers && w in t.workers ==> e == Receive(w, t.workers[w].msg))
      && (w in s.workers && w !in t.workers ==> e == Crash(w) || e == Delete(w) || e == DeleteLost(w))
  {
  }

  lemma OneHolderStep(f: Faults, s: State, e: Event)
    requires SingleAttempt(f) && WellFormed(s) && OneHolder(f, s) && Enabled(f, s, e)
    ensures OneHolder(f, Apply(f, s, e))
  {
    var t := Apply(f, s, e);
    forall v, w | v in t.workers && w in t.workers && t.workers[v].msg == t.workers[w].msg
      ensures v == w
    {
      WorkerFrame(f, s, e, v);
      WorkerFrame(f, s, e, w);
    }
    forall w | w in t.workers
      ensures HolderOk(f, t, w)
    {
      HolderOkStep(f, s, e, w);
    }
  }

  lemma HolderOkStep(f: Faults, s: State, e: Event, w: nat)
    requires SingleAttempt(f) && OneHolder(f, s) && Enabled(f, s, e) && w in Apply(f, s, e).workers
    ensures HolderOk(f, Apply(f, s, e), w)
  {
    WorkerFrame(f, s, e, w);
    assert w in s.workers ==> HolderOk(f, s, w);
  }

  /** Where a ticket of the next state comes from. */
  function Origin(s: State, e: Event, t: Ticket): Ticket {
    if e.Send? && t == ByMessage(|s.msgs|) then ByProducer(e.p) else t
  }

  /** A step creates no ticket for a document, except by claiming it anew. */
  lemma TicketBack(f: Faults, s: State, e: Event, t: Ticket, d: DocId, epoch: nat)
    requires SingleAttempt(f) && ExclusionInvariant(f, s) && Enabled(f, s, e)
    requires Holds(f, Apply(f, s, e), t, d, epoch)
    ensures
      || Holds(f, s, Origin(s, e, t), d, epoch)
      || (e.TakeClaim? && t == ByProducer(e.p) && Claimable(s.docs, d, RETRIABLE)
          && epoch == s.docs[d].epoch + 1 && s.producers[e.p].doc == d)
  {
    StepExtends(f, s, e);
    if t.ByMessage? {
      if t.m < |s.msgs| {
        MessageTicketBack(f, s, e, t.m);
      } else {
        assert e.Send?;
      }
    }
  }

  lemma MessageTicketBack(f: Faults, s: State, e: Event, m: nat)
    requires SingleAttempt(f) && OneHolder(f, s) && Enabled(f, s, e) && m < |s.msgs|
    requires WorkedOn(Apply(f, s, e), m) || Deliverable(f, Apply(f, s, e), m)
    ensures WorkedOn(s, m) || Deliverable(f, s, m)
  {
    var t := Apply(f, s, e);
    if w :| w in t.workers && t.workers[w].msg == m && t.workers[w].phase != Disposing {
      WorkerFrame(f, s, e, w);
    } else if w :| w in s.workers && s.workers[w].msg == m {
      WorkerFrame(f, s, e, w);
      assert HolderOk(f, s, w);
    } else {
      assert Free(s, m);
    }
  }

  /** Only the holder of the ticket writes the status of a claimed document, and
      writing it uses the ticket up. */
  lemma ClaimKept(f: Faults, s: State, e: Event, t: Ticket, d: DocId, epoch: nat)
    requires SingleAttempt(f) && ExclusionInvariant(f, s) && Enabled(f, s, e)
    requires Holds(f, s, Origin(s, e, t), d, epoch) && Holds(f, Apply(f, s, e), t, d, epoch)
    ensures
      var s' := Apply(f, s, e);
      d in s'.docs && s'.docs[d].status == Extracting && s'.docs[d].epoch == epoch
  {
    assert d in s.docs && s.docs[d].status == Extracting && s.docs[d].epoch == epoch;
    match e
    case SendFails(p) =>
      assert Holds(f, s, ByProducer(p), s.producers[p].doc, s.producers[p].epoch);
      assert s.producers[p].doc != d;
    case Finish(w, _) =>
      var m := s.workers[w].msg;
      if s.msgs[m].doc == d {
        assert WorkedOn(s, m);
        assert Holds(f, s, ByMessage(m), d, s.msgs[m].epoch);
        assert t == ByMessage(m);
        FinishUsesTicket(f, s, e);
      }
    case _ =>
  }

  lemma FinishUsesTicket(f: Faults, s: State, e: Event)
    requires OneHolder(f, s) && Enabled(f, s, e) && e.Finish?
    ensures
      var m := s.workers[e.w].msg;
      !WorkedOn(Apply(f, s, e), m) && !Deliverable(f, Apply(f, s, e), m)
  {
    var t := Apply(f, s, e);
    assert e.w in t.workers && t.workers[e.w] == Worker(s.workers[e.w].msg, Disposing);
    forall w | w in t.workers && t.workers[w].msg == s.workers[e.w].msg ensures w == e.w {
      assert w in s.workers && s.workers[w].msg == s.workers[e.w].msg;
    }
  }

  lemma TicketsCurrentStep(f: Faults, s: State, e: Event)
    requires SingleAttempt(f) && ExclusionInvariant(f, s) && Enabled(f, s, e)
    ensures TicketsCurrent(f, Apply(f, s, e))
  {
    var s' := Apply(f, s, e);
    forall t, d, epoch | Holds(f, s', t, d, epoch)
      ensures d in s'.docs && s'.docs[d].status == Extracting && s'.docs[d].epoch == epoch
    {
      TicketBack(f, s, e, t, d, epoch);
      if Holds(f, s, Origin(s, e, t), d, epoch) {
        ClaimKept(f, s, e, t, d, epoch);
      }
    }
  }

  lemma TicketsUniqueStep(f: Faults, s: State, e: Event)
    requires SingleAttempt(f) && ExclusionInvariant(f, s) && Enabled(f, s, e)
    ensures TicketsUnique(f, Apply(f, s, e))
  {
    var s' := Apply(f, s, e);
    forall t, u, d, i, j | Holds(f, s', t, d, i) && Holds(f, s', u, d, j) ensures t == u {
      TicketBack(f, s, e, t, d, i);
      TicketBack(f, s, e, u, d, j);
      assert e.Send? ==> e.p !in Apply(f, s, e).producers;
    }
  }

  /** While a re-attach is between its read and its write, nobody claims the document. */
  lemma ReattachingIdleStep(f: Faults, s: State, e: Event)
    requires SingleAttempt(f) && ExclusionInvariant(f, s) && Enabled(f, s, e)
    ensures ReattachingIdle(Apply(f, s, e))
  {
    var s' := Apply(f, s, e);
    WritesFound(f, s, e);
    hide TicketsCurrent;
    hide TicketsUnique;
    hide OneHolder;
    forall h | h in s'.reattaching
      ensures s'.reattaching[h] in s'.docs && s'.docs[s'.reattaching[h]].status in RETRIABLE
    {
      if h in s.reattaching {
        assert s.reattaching[h] == s'.reattaching[h] && s.docs[s.reattaching[h]].status in RETRIABLE;
      } else {
        assert e.ReattachRead?;
      }
    }
  }

  /** The document whose status a step writes without a guard. */
  ghost function Written(s: State, e: Event): Option<DocId> {
    match e
    case Finish(w, _) => if InPhase(s, w, Running) then Some(s.msgs[s.workers[w].msg].doc) else None
    case SendFails(p) => if p in s.producers then Some(s.producers[p].doc) else None
    case _ => None
  }

  /** The end of a run and the release after a failed send find the claim still standing,
      and a re-attach finds a document that nobody has claimed since. */
  lemma WritesFound(f: Faults, s: State, e: Event)
    requires SingleAttempt(f) && ExclusionInvariant(f, s) && Enabled(f, s, e)
    ensures Written(s, e).Some? ==>
      Written(s, e).value in s.docs && s.docs[Written(s, e).value].status == Extracting
    ensures e.ReattachWrite? ==>
      s.reattaching[e.h] in s.docs && s.docs[s.reattaching[e.h]].status in RETRIABLE
  {
    match e
    case Finish(w, _) =>
      var m := s.workers[w].msg;
      assert WorkedOn(s, m);
      assert Holds(f, s, ByMessage(m), s.msgs[m].doc, s.msgs[m].epoch);
    case SendFails(p) =>
      assert Holds(f, s, ByProducer(p), s.producers[p].doc, s.producers[p].epoch);
    case _ =>
  }

  lemma ExclusionInvariantStep(f: Faults, s: State, e: Event)
    requires SingleAttempt(f) && ExclusionInvariant(f, s) && Enabled(f, s, e)
    ensures ExclusionInvariant(f, Apply(f, s, e))
  {
    WellFormedStep(f, s, e);
    OneHolderStep(f, s, e);
    TicketsCurrentStep(f, s, e);
    TicketsUniqueStep(f, s, e);
    ReattachingIdleStep(f, s, e);
  }

  lemma EmptyHoldsNoTicket(f: Faults)
    ensures ExclusionInvariant(f, EMPTY)
  {
    forall t, d, epoch ensures !Holds(f, EMPTY, t, d, epoch) {
    }
  }

  lemma ExclusionInvariantHolds(f: Faults, run: seq<Event>, s: State)
    requires Leads(f, run, s) && SingleAttempt(f)
    ensures ExclusionInvariant(f, s)
  {
    var trace :| IsTrace(f, run, trace) && trace[|run|] == s;
    EmptyHoldsNoTicket(f);
    for i := 0 to |run|
      invariant ExclusionInvariant(f, trace[i])
    {
      ExclusionInvariantStep(f, trace[i], run[i]);
    }
  }

  /** Every message is of the standing claim or of an earlier one, and at most one
      message of a document may still start or continue an attempt: it carries the
      standing claim, and no producer is about to send another. */
  lemma OneAttemptPerClaim(f: Faults, run: seq<Event>, s: State, m: nat, n: nat)
    requires Leads(f, run, s) && SingleAttempt(f)
    requires m < |s.msgs| && n < |s.msgs| && s.msgs[m].doc == s.msgs[n].doc
    requires WorkedOn(s, m) || Deliverable(f, s, m)
    ensures s.msgs[m].doc in s.docs && s.msgs[n].epoch <= s.docs[s.msgs[m].doc].epoch
    ensures s.docs[s.msgs[m].doc].status == Extracting && s.msgs[m].epoch == s.docs[s.msgs[m].doc].epoch
    ensures WorkedOn(s, n) || Deliverable(f, s, n) ==> m == n
    ensures forall p <- s.producers :: IsClaimed(s, p) ==> s.producers[p].doc != s.msgs[m].doc
  {
    ExclusionInvariantHolds(f, run, s);
    var d := s.msgs[m].doc;
    assert Holds(f, s, ByMessage(m), d, s.msgs[m].epoch);
    if WorkedOn(s, n) || Deliverable(f, s, n) {
      assert Holds(f, s, ByMessage(n), d, s.msgs[n].epoch);
    }
    forall p | p in s.producers && IsClaimed(s, p) ensures s.producers[p].doc != d {
      assert Holds(f, s, ByProducer(p), s.producers[p].doc, s.producers[p].epoch);
    }
  }

  /** A message is delivered only when no worker has it: a redelivery means that the
      worker before has died. */
  lemma RedeliveredOnlyIfFree(f: Faults, run: seq<Event>, s: State, w: nat, m: nat)
    requires Leads(f, run, s) && SingleAttempt(f) && Enabled(f, s, Receive(w, m))
    ensures Free(s, m)
  {
    ExclusionInvariantHolds(f, run, s);
    forall v | v in s.workers ensures s.workers[v].msg != m {
      assert HolderOk(f, s, v);
    }
  }

  lemma AtMostOneRunAlways(f: Faults, run: seq<Event>, s: State)
    requires Leads(f, run, s) && SingleAttempt(f)
    ensures AtMostOneRun(s)
  {
    ExclusionInvariantHolds(f, run, s);
    forall v, w | v in s.workers && w in s.workers
      && s.workers[v].msg < |s.msgs| && s.workers[w].msg < |s.msgs|
      && s.workers[v].phase == Running && s.workers[w].phase == Running
      && s.msgs[s.workers[v].msg].doc == s.msgs[s.workers[w].msg].doc
      ensures v == w
    {
      var m, n := s.workers[v].msg, s.workers[w].msg;
      assert WorkedOn(s, m) && WorkedOn(s, n);
      assert Holds(f, s, ByMessage(m), s.msgs[m].doc, s.msgs[m].epoch);
      assert Holds(f, s, ByMessage(n), s.msgs[m].doc, s.msgs[n].epoch);
    }
  }

  // ---- the other deployments ------------------------------------------------------- //

  /** Workers 0 and 1 both run document 0, the only one. */
  ghost predicate Doubled(s: State) {
    && s.docs.Keys == {0} && s.docs[0].present && s.docs[0].status == Extracting
    && s.workers.Keys == {0, 1} && s.producers == map[] && s.reattaching == map[]
    && (forall w <- s.workers ::
          s.workers[w].phase == Running && s.workers[w].msg < |s.msgs| && s.msgs[s.workers[w].msg].doc == 0)
  }

  lemma DoubledRuns(s: State)
    requires Doubled(s)
    ensures !AtMostOneRun(s)
  {
    assert 0 in s.workers && 1 in s.workers;
  }

  /** Worker w picks message m up and starts running it. */
  lemma StartRun(f: Faults, run: seq<Event>, s: State, w: nat, m: nat) returns (run': seq<Event>, s': State)
    requires Leads(f, run, s) && w !in s.workers && m < |s.msgs|
    requires s.msgs[m].place == Visible && s.msgs[m].receives < f.maxReceives
    requires Claimable(s.docs, s.msgs[m].doc, WORKER_CLAIM_FROM)
    ensures Leads(f, run', s')
    ensures s'.docs == s.docs && s'.producers == s.producers && s'.reattaching == s.reattaching
    ensures s'.workers == s.workers[w := Worker(m, Running)]
    ensures s'.msgs == s.msgs[m := s.msgs[m].(place := Hidden, receives := s.msgs[m].receives + 1)]
  {
    hide Leads;
    run', s' := Then(f, run, s, Receive(w, m));
    run', s' := Then(f, run', s', Look(w));
    run', s' := Then(f, run', s', ClaimAgain(w));
  }

  /** Two visible messages of one claimed document become two runs. */
  lemma TwoMessagesTwoRuns(f: Faults, run: seq<Event>, s: State, m: nat, n: nat)
      returns (run': seq<Event>, s': State)
    requires Leads(f, run, s) && s.workers == map[]
    requires m < n < |s.msgs| && s.msgs[m].doc == s.msgs[n].doc
    requires forall i | i in [m, n] :: s.msgs[i].place == Visible && s.msgs[i].receives < f.maxReceives
    requires Claimable(s.docs, s.msgs[m].doc, WORKER_CLAIM_FROM)
    ensures Leads(f, run', s')
    ensures s'.docs == s.docs && s'.producers == s.producers && s'.reattaching == s.reattaching
    ensures s'.workers == map[0 := Worker(m, Running), 1 := Worker(n, Running)]
    ensures |s'.msgs| == |s.msgs| && s'.msgs[m].doc == s'.msgs[n].doc == s.msgs[m].doc
  {
    hide Leads;
    assert m in [m, n] && n in [m, n];
    run', s' := StartRun(f, run, s, 0, m);
    run', s' := StartRun(f, run', s', 1, n);
  }

  /** Producer 0 claims document 0 again and sends the message. */
  lemma ClaimAndSend(f: Faults, run: seq<Event>, s: State) returns (run': seq<Event>, s': State)
    requires Leads(f, run, s) && s.producers == map[] && Claimable(s.docs, 0, RETRIABLE)
    requires f.reattachRace || s.reattaching == map[]
    ensures Leads(f, run', s')
    ensures
      var epoch := s.docs[0].epoch + 1;
      s' == s.(docs := s.docs[0 := Doc(Extracting, epoch, true)], msgs := s.msgs + [Message(0, epoch, Visible, 0)])
  {
    hide Leads;
    run', s' := Then(f, run, s, ReadPrior(0, 0));
    run', s' := Then(f, run', s', TakeClaim(0));
    run', s' := Then(f, run', s', Send(0));
    assert s'.producers == map[];
  }

  lemma PhantomSendDuplicates(f: Faults) returns (run: seq<Event>, s: State)
    requires f.phantomSend
    ensures Leads(f, run, s) && Doubled(s)
  {
    hide Leads;
    run, s := FirstClaim(f);
    run, s := Then(f, run, s, SendPhantom(0));
    run, s := ClaimAndSend(f, run, s);
    run, s := TwoMessagesTwoRuns(f, run, s, 0, 1);
  }

  lemma LostBeatDuplicates(f: Faults) returns (run: seq<Event>, s: State)
    requires f.lostBeat && f.maxReceives > 1
    ensures Leads(f, run, s) && Doubled(s)
  {
    hide Leads;
    run, s := FirstRun(f);
    run, s := Then(f, run, s, Expire(0));
    run, s := StartRun(f, run, s, 1, 0);
  }

  /** Worker 0's run of document 0 has failed; its message is still there. */
  lemma FailedRun(f: Faults) returns (run: seq<Event>, s: State)
    ensures Leads(f, run, s)
    ensures s == State(map[0 := Doc(Failed, 1, true)], [Message(0, 1, Hidden, 1)],
                       map[0 := Worker(0, Disposing)], map[], map[])
  {
    hide Leads;
    run, s := FirstRun(f);
    run, s := Then(f, run, s, Finish(0, Failed));
  }

  /** The worker is gone, and its message has outlived it. */
  lemma AbandonedRun(f: Faults) returns (run: seq<Event>, s: State)
    requires f.lateCrash || f.deleteFails
    ensures Leads(f, run, s)
    ensures s == State(map[0 := Doc(Failed, 1, true)], [Message(0, 1, Hidden, 1)], map[], map[], map[])
  {
    hide Leads;
    run, s := FailedRun(f);
    run, s := Then(f, run, s, if f.lateCrash then Crash(0) else DeleteLost(0));
    assert s.workers == map[];
  }

  /** A failed run whose message outlives it meets the reviewer's next claim. */
  lemma UndeletedMessageDuplicates(f: Faults) returns (run: seq<Event>, s: State)
    requires (f.lateCrash || f.deleteFails) && f.maxReceives > 1
    ensures Leads(f, run, s) && Doubled(s)
  {
    hide Leads;
    run, s := AbandonedRun(f);
    run, s := Then(f, run, s, Expire(0));
    run, s := ClaimAndSend(f, run, s);
    run, s := TwoMessagesTwoRuns(f, run, s, 0, 1);
  }

  /** Re-attach 0 has read FAILED, and a producer has claimed the document since. */
  lemma ClaimDuringReattach(f: Faults) returns (run: seq<Event>, s: State)
    requires f.reattachRace
    ensures Leads(f, run, s)
    ensures s.docs == map[0 := Doc(Extracting, 2, true)] && s.workers == map[]
    ensures s.producers == map[] && s.reattaching == map[0 := 0]
    ensures |s.msgs| == 2 && s.msgs[1] == Message(0, 2, Visible, 0)
  {
    hide Leads;
    run, s := FailedRun(f);
    run, s := Then(f, run, s, Delete(0));
    run, s := Then(f, run, s, ReattachRead(0, 0));
    assert s.workers == map[];
    run, s := ClaimAndSend(f, run, s);
  }

  /** A re-attach that read FAILED resets the claim taken since. */
  lemma ReattachRaceDuplicates(f: Faults) returns (run: seq<Event>, s: State)
    requires f.reattachRace
    ensures Leads(f, run, s) && Doubled(s)
  {
    hide Leads;
    run, s := ClaimDuringReattach(f);
    run, s := Then(f, run, s, ReattachWrite(0));
    assert s.reattaching == map[];
    run, s := ClaimAndSend(f, run, s);
    run, s := TwoMessagesTwoRuns(f, run, s, 1, 2);
  }

  /** In any other deployment one document can be run twice at once. */
  lemma TwoRuns(f: Faults) returns (run: seq<Event>, s: State)
    requires !SingleAttempt(f)
    ensures Leads(f, run, s) && Doubled(s)
  {
    if f.phantomSend {
      run, s := PhantomSendDuplicates(f);
    } else if f.reattachRace {
      run, s := ReattachRaceDuplicates(f);
    } else if f.lostBeat {
      run, s := LostBeatDuplicates(f);
    } else {
      run, s := UndeletedMessageDuplicates(f);
    }
  }

  /** At most one extraction ever runs per document, exactly in the deployments
      that `SingleAttempt` describes. */
  lemma AtMostOneRunExactly(f: Faults)
    ensures (forall run, s :: Leads(f, run, s) ==> AtMostOneRun(s)) <==> SingleAttempt(f)
  {
    if SingleAttempt(f) {
      forall run, s | Leads(f, run, s) ensures AtMostOneRun(s) {
        AtMostOneRunAlways(f, run, s);
      }
    } else {
      var run, s := TwoRuns(f);
      DoubledRuns(s);
      assert !(Leads(f, run, s) ==> AtMostOneRun(s));
    }
  }
}
