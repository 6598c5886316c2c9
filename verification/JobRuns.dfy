/** One job together with the queue protocol that extracts its documents: whole runs.

    The protocol decides which status writes occur; each of its steps acts on the job's
    documents, and a finished extraction, a role decision and a removal also on the
    artefacts.  The deployment is a `Faults` of the protocol, so the theorems say in which
    deployments the artefacts agree with the evidence. */
module JobRuns {
  import opened Documents
  import opened Options
  import opened ReviewOverlay
  import Q = ExtractionQueue
  import X = ExtractionExclusion
  import J = JobLifecycle

  /** The queue carries the documents of this job. */
  datatype System = System(queue: Q.State, job: J.State)

  /** What the protocol does not look at: an uploaded document's role, a run's payload. */
  datatype Content = Content(role: Role, extraction: nat)

  datatype Act = Protocol(e: Q.Event, content: Content) | Request(r: J.Event)

  predicate IsRequest(e: J.Event) {
    e.Gate? || e.Review? || e.Finalize? || e.Mutate? || e.SelectRegime? || e.EditBms?
  }

  ghost predicate Possible(f: Q.Faults, s: System, a: Act) {
    match a
    case Protocol(e, _) => Q.Enabled(f, s.queue, e)
    case Request(r) => IsRequest(r) && J.Enabled(s.job, r)
  }

  /** What a protocol step is to the job. */
  ghost function Effect(f: Q.Faults, q: Q.State, e: Q.Event, c: Content): Option<J.Event>
    requires Q.Enabled(f, q, e)
  {
    match e
    case Upload(d) => Some(J.Upload(d, c.role))
    case Remove(d) => Some(J.Remove(d))
    case DecideRole(d, accept) => Some(J.ResolveRole(d, accept))
    case ReattachWrite(h) => Some(J.WriteStatus(q.reattaching[h], Uploaded))
    case TakeClaim(p) =>
      if Q.Claimable(q.docs, q.producers[p].doc, Q.RETRIABLE) then
        Some(J.WriteStatus(q.producers[p].doc, Extracting))
      else None
    case SendFails(p) => Some(J.WriteStatus(q.producers[p].doc, q.producers[p].prior))
    case SendPhantom(p) => Some(J.WriteStatus(q.producers[p].doc, q.producers[p].prior))
    case Finish(w, outcome) =>
      var d := q.msgs[q.workers[w].msg].doc;
      if outcome == Failed then Some(J.WriteStatus(d, Failed))
      else Some(J.FinishExtraction(d, c.extraction, outcome == Extracted))
    case _ => None
  }

  ghost function EffectOf(f: Q.Faults, s: System, a: Act): Option<J.Event>
    requires Possible(f, s, a)
  {
    match a
    case Protocol(e, c) => Effect(f, s.queue, e, c)
    case Request(r) => Some(r)
  }

  ghost function QueueAfter(f: Q.Faults, s: System, a: Act): Q.State
    requires Possible(f, s, a)
  {
    match a
    case Protocol(e, _) => Q.Apply(f, s.queue, e)
    case Request(_) => s.queue
  }

  function JobAfter(engine: J.Engine, job: J.State, effect: Option<J.Event>): J.State {
    if effect.None? then job else J.Apply(engine, job, effect.value)
  }

  ghost function After(f: Q.Faults, engine: J.Engine, s: System, a: Act): System
    requires Possible(f, s, a)
  {
    System(QueueAfter(f, s, a), JobAfter(engine, s.job, EffectOf(f, s, a)))
  }

  const STARTED: System := System(Q.EMPTY, J.NEW_JOB)

  ghost predicate IsRun(f: Q.Faults, engine: J.Engine, acts: seq<Act>, states: seq<System>) {
    && |states| == |acts| + 1 && states[0] == STARTED
    && forall i | 0 <= i < |acts| ::
         Possible(f, states[i], acts[i]) && states[i + 1] == After(f, engine, states[i], acts[i])
  }

  ghost predicate Reaches(f: Q.Faults, engine: J.Engine, acts: seq<Act>, s: System) {
    exists states :: IsRun(f, engine, acts, states) && states[|acts|] == s
  }

  /** Whatever is no step of the protocol may follow any run, if the job allows it. */
  lemma RequestFollows(f: Q.Faults, engine: J.Engine, acts: seq<Act>, s: System, r: J.Event)
    requires Reaches(f, engine, acts, s) && J.Enabled(s.job, r)
    requires !r.Upload? && !r.WriteStatus? && !r.FinishExtraction? && !r.ResolveRole? && !r.Remove?
    ensures Reaches(f, engine, acts + [Request(r)], System(s.queue, J.Apply(engine, s.job, r)))
  {
    hide J.Apply, J.Enabled;
    var states :| IsRun(f, engine, acts, states) && states[|acts|] == s;
    var t := System(s.queue, J.Apply(engine, s.job, r));
    assert After(f, engine, s, Request(r)) == t;
    assert IsRun(f, engine, acts + [Request(r)], states + [t]) && (states + [t])[|acts| + 1] == t;
  }

  // ---- gate and lock ------------------------------------------------------------------------------- //

  predicate UsesGate(a: Act, c: nat) {
    a.Request? && ((a.r.Review? && a.r.caller == c) || (a.r.Finalize? && a.r.caller == c))
  }

  /** The caller has passed the readiness gate and not come to its lock yet. */
  predicate Passed(acts: seq<Act>, n: nat, c: nat)
    requires n <= |acts|
  {
    exists j | 0 <= j < n :: acts[j] == Request(J.Gate(c)) && forall k | j < k < n :: !UsesGate(acts[k], c)
  }

  lemma PassedNext(acts: seq<Act>, n: nat, c: nat)
    requires n < |acts|
    ensures Passed(acts, n + 1, c) <==> acts[n] == Request(J.Gate(c)) || (Passed(acts, n, c) && !UsesGate(acts[n], c))
  {
    if Passed(acts, n, c) && !UsesGate(acts[n], c) {
      var j :| 0 <= j < n && acts[j] == Request(J.Gate(c)) && forall k | j < k < n :: !UsesGate(acts[k], c);
      assert forall k | j < k < n + 1 :: !UsesGate(acts[k], c);
    }
  }

  lemma GatedAfter(engine: J.Engine, s: J.State, e: J.Event)
    ensures J.Apply(engine, s, e).gated
         == if e.Gate? then s.gated + {e.caller}
            else if e.Review? || e.Finalize? then s.gated - {e.caller} else s.gated
  {
    hide J.DocsAfter, J.InputsOf, J.Mutated;
  }

  lemma {:induction false} GatedExactly(f: Q.Faults, engine: J.Engine, acts: seq<Act>, states: seq<System>, n: nat, c: nat)
    requires IsRun(f, engine, acts, states) && n <= |acts|
    ensures c in states[n].job.gated <==> Passed(acts, n, c)
  {
    hide J.Apply, Passed, Possible, Effect;
    if n > 0 {
      GatedExactly(f, engine, acts, states, n - 1, c);
      PassedNext(acts, n - 1, c);
      GatedStep(f, engine, states[n - 1], acts[n - 1], c);
    } else {
      NobodyPassed(acts, c);
    }
  }

  lemma NobodyPassed(acts: seq<Act>, c: nat)
    ensures !Passed(acts, 0, c)
  {
  }

  lemma GatedStep(f: Q.Faults, engine: J.Engine, s: System, a: Act, c: nat)
    requires Possible(f, s, a)
    ensures c in After(f, engine, s, a).job.gated
       <==> a == Request(J.Gate(c)) || (c in s.job.gated && !UsesGate(a, c))
  {
    hide J.Apply;
    var effect := EffectOf(f, s, a);
    if effect.Some? {
      GatedAfter(engine, s.job, effect.value);
    }
  }

  /** A review, and a finalize, may take the lock exactly after its caller has passed the
      gate, once for each time it has. */
  lemma LockNeedsGate(f: Q.Faults, engine: J.Engine, acts: seq<Act>, states: seq<System>, c: nat, body: nat)
    requires IsRun(f, engine, acts, states)
    ensures Possible(f, states[|acts|], Request(J.Review(c))) <==> Passed(acts, |acts|, c)
    ensures Possible(f, states[|acts|], Request(J.Finalize(c, body))) <==> Passed(acts, |acts|, c)
  {
    GatedExactly(f, engine, acts, states, |acts|, c);
    hide Passed;
  }

  // ---- the two halves tell the same story ------------------------------------------------------- //

  ghost predicate CoupledAt(s: System, d: DocId) {
    && (d in s.job.docs <==> d in s.queue.docs && s.queue.docs[d].present)
    && (d in s.job.docs ==> s.job.docs[d].status == s.queue.docs[d].status)
  }

  /** The job's documents are the protocol's present ones, with the same statuses. */
  ghost predicate Coupled(s: System) {
    && (forall d: DocId :: CoupledAt(s, d))
    && Q.ProducersOk(s.queue)
  }

  lemma DocsFollow(engine: J.Engine, job: J.State, effect: Option<J.Event>)
    ensures JobAfter(engine, job, effect).docs
      == if effect.None? then job.docs else J.DocsAfter(job.docs, effect.value)
  {
    hide J.Apply;
    hide J.DocsAfter;
    if effect.Some? {
      J.DocsFollow(engine, job, effect.value);
    }
  }

  lemma EffectEnabled(f: Q.Faults, s: System, a: Act)
    requires Coupled(s) && Possible(f, s, a) && EffectOf(f, s, a).Some?
    ensures J.Enabled(s.job, EffectOf(f, s, a).value)
  {
    if a.Protocol? && (a.e.Upload? || a.e.DecideRole?) {
      assert CoupledAt(s, a.e.d);
    }
  }

  lemma CoupledStep(f: Q.Faults, engine: J.Engine, s: System, a: Act)
    requires Coupled(s) && Possible(f, s, a)
    ensures Coupled(After(f, engine, s, a))
  {
    var t := After(f, engine, s, a);
    DocsFollow(engine, s.job, EffectOf(f, s, a));
    if a.Protocol? {
      Q.ProducersOkStep(f, s.queue, a.e);
      forall d: DocId ensures CoupledAt(t, d) {
        CoupledAtStep(f, s, a.e, a.content, d, t);
      }
    } else {
      forall d: DocId ensures CoupledAt(t, d) {
        assert CoupledAt(s, d);
      }
    }
  }

  lemma CoupledAtStep(f: Q.Faults, s: System, e: Q.Event, c: Content, d: DocId, t: System)
    requires CoupledAt(s, d) && Q.Enabled(f, s.queue, e)
    requires t.queue == Q.Apply(f, s.queue, e)
    requires var effect := Effect(f, s.queue, e, c);
      t.job.docs == if effect.None? then s.job.docs else J.DocsAfter(s.job.docs, effect.value)
    ensures CoupledAt(t, d)
  {
    if Effect(f, s.queue, e, c).None? {
      QuietDocs(f, s.queue, e, c);
    } else {
      LoudDocs(f, s.queue, e, c);
    }
  }

  lemma QuietDocs(f: Q.Faults, q: Q.State, e: Q.Event, c: Content)
    requires Q.Enabled(f, q, e) && Effect(f, q, e, c).None?
    ensures Q.Apply(f, q, e).docs == q.docs
  {
  }

  /** What an effect says of a document is what the protocol step does to it. */
  lemma LoudDocs(f: Q.Faults, q: Q.State, e: Q.Event, c: Content)
    requires Q.Enabled(f, q, e) && Effect(f, q, e, c).Some?
    ensures var effect, docs' := Effect(f, q, e, c).value, Q.Apply(f, q, e).docs;
      match effect
      case Upload(d', _) => docs' == q.docs[d' := Q.Doc(Uploaded, 0, true)]
      case WriteStatus(d', status) => WrittenTo(q.docs, docs', d', status)
      case FinishExtraction(d', _, roleMatch) => WrittenTo(q.docs, docs', d', if roleMatch then Extracted else RoleReview)
      case ResolveRole(d', accept) => WrittenTo(q.docs, docs', d', if accept then Extracted else RoleRejected)
      case Remove(d') => d' in q.docs && docs' == q.docs[d' := q.docs[d'].(present := false)]
      case _ => false
  {
  }

  predicate WrittenTo(docs: map<DocId, Q.Doc>, docs': map<DocId, Q.Doc>, d: DocId, status: Status) {
    && docs'.Keys == docs.Keys
    && (forall c <- docs :: c != d ==> docs'[c] == docs[c])
    && (d in docs ==> docs'[d].status == status && docs'[d].present == docs[d].present)
  }

  // ---- artefacts agree with the evidence ---------------------------------------------------------- //

  /** Only a document that nobody is extracting or about to extract carries an extraction. */
  ghost predicate Evidenced(job: J.State) {
    forall d <- job.docs :: job.docs[d].extraction.Some? ==> job.docs[d].status !in J.OPEN
  }

  ghost predicate Invariant(f: Q.Faults, s: System) {
    X.ExclusionInvariant(f, s.queue) && Coupled(s) && J.Consistent(s.job) && Evidenced(s.job)
  }

  /** Under the protocol no status write finds a document that has moved on. */
  lemma EffectFresh(f: Q.Faults, s: System, a: Act)
    requires X.SingleAttempt(f) && X.ExclusionInvariant(f, s.queue) && Coupled(s) && Possible(f, s, a)
    requires EffectOf(f, s, a).Some?
    ensures J.Fresh(s.job, EffectOf(f, s, a).value)
  {
    var e := EffectOf(f, s, a).value;
    if e.WriteStatus? && e.d in s.job.docs {
      assert CoupledAt(s, e.d);
      X.WritesFound(f, s.queue, a.e);
    }
  }

  lemma EvidencedStep(engine: J.Engine, job: J.State, effect: Option<J.Event>)
    requires Evidenced(job) && (effect.Some? ==> J.Enabled(job, effect.value) && J.Fresh(job, effect.value))
    ensures Evidenced(JobAfter(engine, job, effect))
  {
    DocsFollow(engine, job, effect);
    hide J.Apply;
  }

  lemma InvariantStep(f: Q.Faults, engine: J.Engine, s: System, a: Act)
    requires X.SingleAttempt(f) && Invariant(f, s) && Possible(f, s, a)
    ensures Invariant(f, After(f, engine, s, a))
  {
    hide X.ExclusionInvariant;
    hide Coupled;
    hide J.Consistent;
    hide Evidenced;
    CoupledStep(f, engine, s, a);
    if a.Protocol? {
      X.ExclusionInvariantStep(f, s.queue, a.e);
    }
    var effect := EffectOf(f, s, a);
    if effect.Some? {
      EffectEnabled(f, s, a);
      EffectFresh(f, s, a);
      J.Step(engine, s.job, effect.value);
    }
    EvidencedStep(engine, s.job, effect);
  }

  lemma StartedOk(f: Q.Faults)
    ensures Invariant(f, STARTED)
  {
    hide X.ExclusionInvariant;
    hide J.Consistent;
    X.EmptyHoldsNoTicket(f);
    J.Start();
  }

  lemma InvariantHolds(f: Q.Faults, engine: J.Engine, acts: seq<Act>, states: seq<System>, n: nat)
    requires X.SingleAttempt(f) && IsRun(f, engine, acts, states) && n <= |acts|
    ensures Invariant(f, states[n])
  {
    hide Invariant;
    StartedOk(f);
    for i := 0 to n
      invariant Invariant(f, states[i])
    {
      InvariantStep(f, engine, states[i], acts[i]);
    }
  }

  /** In every run of such a deployment review, declaration and XML agree with the
      evidence, XML_READY means ready, and no reviewer entry outlives its evidence. */
  lemma AlwaysConsistent(f: Q.Faults, engine: J.Engine, acts: seq<Act>, s: System)
    requires X.SingleAttempt(f) && Reaches(f, engine, acts, s)
    ensures J.Agree(s.job) && J.ReadyMeansReady(s.job) && J.EntriesCurrent(s.job)
  {
    var states :| IsRun(f, engine, acts, states) && states[|acts|] == s;
    InvariantHolds(f, engine, acts, states, |acts|);
    J.Parts(s.job);
  }

  // ---- runs built act by act ------------------------------------------------------------------------- //

  lemma Then(f: Q.Faults, engine: J.Engine, acts: seq<Act>, s: System, a: Act) returns (acts': seq<Act>, s': System)
    requires Reaches(f, engine, acts, s) && Possible(f, s, a)
    ensures Reaches(f, engine, acts', s') && s' == After(f, engine, s, a)
  {
    hide Possible;
    hide After;
    acts', s' := acts + [a], After(f, engine, s, a);
    var states :| IsRun(f, engine, acts, states) && states[|acts|] == s;
    assert IsRun(f, engine, acts', states + [s']);
    assert (states + [s'])[|acts'|] == s';
  }

  lemma Begin(f: Q.Faults, engine: J.Engine) returns (acts: seq<Act>, s: System)
    ensures Reaches(f, engine, acts, s) && s == STARTED
  {
    acts, s := [], STARTED;
    assert IsRun(f, engine, acts, [STARTED]) && [STARTED][0] == s;
  }

  /** Every run of the protocol is a run of the two together. */
  lemma Lift(f: Q.Faults, engine: J.Engine, run: seq<Q.Event>, q: Q.State) returns (acts: seq<Act>, s: System)
    requires Q.Leads(f, run, q)
    ensures Reaches(f, engine, acts, s) && s.queue == q
  {
    var trace :| Q.IsTrace(f, run, trace) && trace[|run|] == q;
    acts, s := Begin(f, engine);
    hide Reaches;
    hide J.Apply;
    for i := 0 to |run|
      invariant Reaches(f, engine, acts, s) && s.queue == trace[i]
    {
      acts, s := Then(f, engine, acts, s, Protocol(run[i], Content(INVOICE, 0)));
    }
  }

  lemma CoupledThen(f: Q.Faults, engine: J.Engine, acts: seq<Act>, states: seq<System>, n: nat)
    requires IsRun(f, engine, acts, states) && n <= |acts|
    ensures Coupled(states[n])
  {
    for i := 0 to n
      invariant Coupled(states[i])
    {
      CoupledStep(f, engine, states[i], acts[i]);
    }
  }

  lemma CoupledAlways(f: Q.Faults, engine: J.Engine, acts: seq<Act>, s: System)
    requires Reaches(f, engine, acts, s)
    ensures Coupled(s)
  {
    var states :| IsRun(f, engine, acts, states) && states[|acts|] == s;
    CoupledThen(f, engine, acts, states, |acts|);
  }

  /** Rules that are satisfied with any evidence when asked for request 0. */
  const ENGINE: J.Engine :=
    (inputs: J.Inputs, rate: nat, body: nat) =>
      if body == 0 && inputs.evidence != map[] then J.Concluded(rate, true, false) else J.Concluded(rate, false, false)

  /** Upload invoice d, claim it and send its message. */
  lemma UploadAndSend(f: Q.Faults, acts: seq<Act>, s: System, d: DocId) returns (acts': seq<Act>, s': System)
    requires Reaches(f, ENGINE, acts, s) && d !in s.queue.docs && d !in s.job.docs && s.queue.producers == map[]
    requires forall h <- s.queue.reattaching :: s.queue.reattaching[h] != d
    ensures Reaches(f, ENGINE, acts', s')
    ensures s'.queue == s.queue.(docs := s.queue.docs[d := Q.Doc(Extracting, 1, true)],
                                 msgs := s.queue.msgs + [Q.Message(d, 1, Q.Visible, 0)])
    ensures s'.job == s.job.(docs := s.job.docs[d := J.Document(INVOICE, Extracting, None)])
  {
    hide Reaches;
    acts', s' := Then(f, ENGINE, acts, s, Protocol(Q.Upload(d), Content(INVOICE, 0)));
    acts', s' := ClaimAndSend(f, acts', s', d);
    assert s'.queue.docs == s.queue.docs[d := Q.Doc(Extracting, 1, true)];
    assert s'.job.docs == s.job.docs[d := J.Document(INVOICE, Extracting, None)];
  }

  lemma ClaimAndSend(f: Q.Faults, acts: seq<Act>, s: System, d: DocId) returns (acts': seq<Act>, s': System)
    requires Reaches(f, ENGINE, acts, s) && s.queue.producers == map[]
    requires d in s.queue.docs && s.queue.docs[d] == Q.Doc(Uploaded, 0, true) && d in s.job.docs
    requires forall h <- s.queue.reattaching :: s.queue.reattaching[h] != d
    ensures Reaches(f, ENGINE, acts', s')
    ensures s'.queue == s.queue.(docs := s.queue.docs[d := Q.Doc(Extracting, 1, true)],
                                 msgs := s.queue.msgs + [Q.Message(d, 1, Q.Visible, 0)])
    ensures s'.job == s.job.(docs := s.job.docs[d := s.job.docs[d].(status := Extracting)])
  {
    hide Reaches;
    var c := Content(INVOICE, 0);
    acts', s' := Then(f, ENGINE, acts, s, Protocol(Q.ReadPrior(0, d), c));
    acts', s' := Then(f, ENGINE, acts', s', Protocol(Q.TakeClaim(0), c));
    acts', s' := Then(f, ENGINE, acts', s', Protocol(Q.Send(0), c));
    assert s'.queue.producers == map[];
  }

  /** Worker w takes message m and starts running it. */
  lemma StartRun(f: Q.Faults, acts: seq<Act>, s: System, w: nat, m: nat) returns (acts': seq<Act>, s': System)
    requires Reaches(f, ENGINE, acts, s) && w !in s.queue.workers && m < |s.queue.msgs|
    requires s.queue.msgs[m].place == Q.Visible && s.queue.msgs[m].receives == 0
    requires Q.Claimable(s.queue.docs, s.queue.msgs[m].doc, Q.WORKER_CLAIM_FROM)
    ensures Reaches(f, ENGINE, acts', s') && s'.job == s.job
    ensures s'.queue == s.queue.(msgs := s.queue.msgs[m := s.queue.msgs[m].(place := Q.Hidden, receives := 1)],
                                 workers := s.queue.workers[w := Q.Worker(m, Q.Running)])
  {
    hide Reaches;
    hide J.Apply;
    var c := Content(INVOICE, 0);
    acts', s' := Then(f, ENGINE, acts, s, Protocol(Q.Receive(w, m), c));
    acts', s' := Then(f, ENGINE, acts', s', Protocol(Q.Look(w), c));
    acts', s' := Then(f, ENGINE, acts', s', Protocol(Q.ClaimAgain(w), c));
  }

  /** Worker w's run comes to an extraction. */
  lemma EndRun(f: Q.Faults, acts: seq<Act>, s: System, w: nat, extraction: nat, roleMatch: bool)
    returns (acts': seq<Act>, s': System)
    requires Reaches(f, ENGINE, acts, s) && Q.InPhase(s.queue, w, Q.Running)
    requires var d := s.queue.msgs[s.queue.workers[w].msg].doc; d in s.queue.docs && d in s.job.docs
    ensures Reaches(f, ENGINE, acts', s')
    ensures var d, status := s.queue.msgs[s.queue.workers[w].msg].doc, if roleMatch then Extracted else RoleReview;
      && s'.queue == s.queue.(docs := s.queue.docs[d := s.queue.docs[d].(status := status)],
                              workers := s.queue.workers[w := s.queue.workers[w].(phase := Q.Disposing)])
      && s'.job.docs == s.job.docs[d := s.job.docs[d].(extraction := Some(extraction), status := status)]
      && s'.job.gated == s.job.gated
  {
    hide Reaches;
    var e := Q.Finish(w, if roleMatch then Extracted else RoleReview);
    acts', s' := Then(f, ENGINE, acts, s, Protocol(e, Content(INVOICE, extraction)));
  }

  /** Upload and extract invoice d; worker w has its message still to delete. */
  lemma Extract(f: Q.Faults, acts: seq<Act>, s: System, d: DocId, w: nat, extraction: nat, roleMatch: bool)
    returns (acts': seq<Act>, s': System)
    requires Reaches(f, ENGINE, acts, s) && d !in s.queue.docs && d !in s.job.docs && s.queue.producers == map[]
    requires w !in s.queue.workers && forall h <- s.queue.reattaching :: s.queue.reattaching[h] != d
    ensures Reaches(f, ENGINE, acts', s')
    ensures var status := if roleMatch then Extracted else RoleReview;
      && s'.queue == s.queue.(docs := s.queue.docs[d := Q.Doc(status, 1, true)],
                              msgs := s.queue.msgs + [Q.Message(d, 1, Q.Hidden, 1)],
                              workers := s.queue.workers[w := Q.Worker(|s.queue.msgs|, Q.Disposing)])
      && s'.job.docs == s.job.docs[d := J.Document(INVOICE, status, Some(extraction))]
      && s'.job.gated == s.job.gated
  {
    hide Reaches;
    var m := |s.queue.msgs|;
    acts', s' := UploadAndSend(f, acts, s, d);
    acts', s' := StartRun(f, acts', s', w, m);
    acts', s' := EndRun(f, acts', s', w, extraction, roleMatch);
    assert s'.queue.msgs == s.queue.msgs + [Q.Message(d, 1, Q.Hidden, 1)];
    assert s'.queue.docs == s.queue.docs[d := Q.Doc(if roleMatch then Extracted else RoleReview, 1, true)];
    assert s'.queue.workers == s.queue.workers[w := Q.Worker(m, Q.Disposing)];
  }

  /** Caller 0, past the gate, finalizes and gets an XML. */
  lemma Declare(f: Q.Faults, acts: seq<Act>, s: System) returns (acts': seq<Act>, s': System)
    requires Reaches(f, ENGINE, acts, s) && 0 in s.job.gated && J.EvidenceOf(s.job.docs) != map[]
    ensures Reaches(f, ENGINE, acts', s') && s'.queue == s.queue
    ensures s'.job.docs == s.job.docs && s'.job.status == J.XML_READY && s'.job.xmls != []
    ensures s'.job.xmls[|s'.job.xmls| - 1].inputs.evidence == J.EvidenceOf(s.job.docs)
    ensures s'.job.xmls[|s'.job.xmls| - 1].number == s'.job.finalizes
  {
    hide Reaches;
    hide J.EvidenceOf;
    acts', s' := Then(f, ENGINE, acts, s, Request(J.Finalize(0, 0)));
  }

  // ---- the other deployments --------------------------------------------------------------------------- //

  /** Worker 0 runs document 0, the only one, and nobody else is about to claim it. */
  ghost predicate Lone(s: System) {
    && s.queue.docs.Keys == {0} && s.queue.docs[0].present && s.queue.producers == map[]
    && Q.InPhase(s.queue, 0, Q.Running) && s.queue.msgs[s.queue.workers[0].msg].doc == 0
    && 2 !in s.queue.workers && forall h <- s.queue.reattaching :: s.queue.reattaching[h] == 0
  }

  /** Document 0 does not look like its role and is rejected; the declaration is built
      from document 1. */
  lemma RejectAndDeclare(f: Q.Faults, acts: seq<Act>, s: System) returns (acts': seq<Act>, s': System)
    requires Reaches(f, ENGINE, acts, s) && Lone(s)
    ensures Reaches(f, ENGINE, acts', s')
    ensures 0 in s'.job.docs && s'.job.docs[0].status == RoleRejected && s'.job.docs[0].extraction == Some(7)
    ensures s'.job.xmls != [] && 0 !in s'.job.xmls[|s'.job.xmls| - 1].inputs.evidence
    ensures 0 in s'.queue.docs && s'.queue.docs[0].present && s'.queue.docs[0].status == RoleRejected
    ensures s'.queue.reattaching == s.queue.reattaching && |s'.queue.msgs| > |s.queue.msgs|
    ensures forall m | 0 <= m < |s.queue.msgs| :: s'.queue.msgs[m] == s.queue.msgs[m]
    ensures 1 in s.queue.workers ==> 1 in s'.queue.workers && s'.queue.workers[1] == s.queue.workers[1]
  {
    CoupledAlways(f, ENGINE, acts, s);
    LoneDocument(s);
    hide Reaches;
    acts', s' := EndRun(f, acts, s, 0, 7, false);
    acts', s' := Reject(f, acts', s');
    acts', s' := Extract(f, acts', s', 1, 2, 8, true);
    acts', s' := OpenGate(f, acts', s');
    assert 1 in J.EvidenceOf(s'.job.docs) && 0 !in J.EvidenceOf(s'.job.docs);
    acts', s' := Declare(f, acts', s');
  }

  lemma LoneDocument(s: System)
    requires Coupled(s) && Lone(s)
    ensures s.job.docs.Keys == {0}
  {
    forall d: DocId ensures d in s.job.docs <==> d == 0 {
      assert CoupledAt(s, d);
    }
  }

  lemma Reject(f: Q.Faults, acts: seq<Act>, s: System) returns (acts': seq<Act>, s': System)
    requires Reaches(f, ENGINE, acts, s) && Q.Claimable(s.queue.docs, 0, {RoleReview}) && 0 in s.job.docs
    ensures Reaches(f, ENGINE, acts', s')
    ensures s'.queue == s.queue.(docs := s.queue.docs[0 := s.queue.docs[0].(status := RoleRejected)])
    ensures s'.job.docs == s.job.docs[0 := s.job.docs[0].(status := RoleRejected)]
  {
    hide Reaches;
    acts', s' := Then(f, ENGINE, acts, s, Protocol(Q.DecideRole(0, false), Content(INVOICE, 0)));
  }

  lemma OpenGate(f: Q.Faults, acts: seq<Act>, s: System) returns (acts': seq<Act>, s': System)
    requires Reaches(f, ENGINE, acts, s) && J.AllExtracted(s.job.docs)
    ensures Reaches(f, ENGINE, acts', s')
    ensures s' == s.(job := s.job.(gated := s.job.gated + {0}))
  {
    hide Reaches;
    acts', s' := Then(f, ENGINE, acts, s, Request(J.Gate(0)));
  }

  /** A status write lands on the rejected document. */
  lemma LateWrite(f: Q.Faults, acts: seq<Act>, s: System, a: Act, status: Status) returns (acts': seq<Act>, s': System)
    requires Reaches(f, ENGINE, acts, s) && Possible(f, s, a) && status in J.OPEN
    requires EffectOf(f, s, a) == Some(J.WriteStatus(0, status))
    requires 0 in s.job.docs && s.job.docs[0].status == RoleRejected && s.job.docs[0].extraction == Some(7)
    requires s.job.xmls != [] && 0 !in s.job.xmls[|s.job.xmls| - 1].inputs.evidence
    ensures Reaches(f, ENGINE, acts', s') && !J.Agree(s'.job)
  {
    hide Reaches;
    hide Possible;
    hide EffectOf;
    acts', s' := Then(f, ENGINE, acts, s, a);
    assert 0 in J.EvidenceOf(s'.job.docs);
    assert s'.job.xmls == s.job.xmls;
  }

  /** A re-attach that read FAILED brings a rejected document back behind the stored XML:
      in between the document was claimed, extracted and rejected. */
  lemma StaleWriteDisagrees(f: Q.Faults) returns (acts: seq<Act>, s: System)
    requires f.reattachRace
    ensures Reaches(f, ENGINE, acts, s) && !J.Agree(s.job)
  {
    hide Reaches;
    var run, q := RunDuringReattach(f);
    acts, s := Lift(f, ENGINE, run, q);
    acts, s := RejectAndDeclare(f, acts, s);
    acts, s := LateWrite(f, acts, s, Protocol(Q.ReattachWrite(0), Content(INVOICE, 0)), Uploaded);
  }

  /** Re-attach 0 has read FAILED, and a later claim's run is under way. */
  lemma RunDuringReattach(f: Q.Faults) returns (run: seq<Q.Event>, q: Q.State)
    requires f.reattachRace
    ensures Q.Leads(f, run, q)
    ensures q.docs == map[0 := Q.Doc(Extracting, 2, true)] && q.workers == map[0 := Q.Worker(1, Q.Running)]
    ensures |q.msgs| == 2 && q.msgs[1].doc == 0 && q.producers == map[] && q.reattaching == map[0 := 0]
  {
    hide Q.Leads;
    run, q := X.ClaimDuringReattach(f);
    run, q := X.StartRun(f, run, q, 0, 1);
  }

  /** The second of two runs of one document fails after the first one's extraction has
      been rejected. */
  lemma SecondRunDisagrees(f: Q.Faults) returns (acts: seq<Act>, s: System)
    requires !X.SingleAttempt(f)
    ensures Reaches(f, ENGINE, acts, s) && !J.Agree(s.job)
  {
    hide Reaches;
    var run, q := X.TwoRuns(f);
    acts, s := Lift(f, ENGINE, run, q);
    assert 1 in q.workers;
    acts, s := RejectAndDeclare(f, acts, s);
    acts, s := LateWrite(f, acts, s, Protocol(Q.Finish(1, Failed), Content(INVOICE, 0)), Failed);
  }

  /** The artefacts agree with the evidence in every run and for any rules, exactly in the
      deployments in which no document is extracted twice at once. */
  lemma AgreeExactly(f: Q.Faults)
    ensures (forall engine, acts, s :: Reaches(f, engine, acts, s) ==> J.Agree(s.job)) <==> X.SingleAttempt(f)
  {
    if X.SingleAttempt(f) {
      forall engine, acts, s | Reaches(f, engine, acts, s) ensures J.Agree(s.job) {
        AlwaysConsistent(f, engine, acts, s);
      }
    } else {
      var acts, s := SecondRunDisagrees(f);
      assert !(Reaches(f, ENGINE, acts, s) ==> J.Agree(s.job));
    }
  }

  // ---- what the gate in front of the lock does and does not ensure ------------------------------------- //

  ghost function EffectsOf(f: Q.Faults, engine: J.Engine, acts: seq<Act>, states: seq<System>): seq<Option<J.Event>>
    requires IsRun(f, engine, acts, states)
  {
    seq(|acts|, i requires 0 <= i < |acts| => EffectOf(f, states[i], acts[i]))
  }

  function DocsOf(states: seq<System>): seq<map<DocId, J.Document>> {
    seq(|states|, i requires 0 <= i < |states| => states[i].job.docs)
  }

  lemma EffectFollows(f: Q.Faults, engine: J.Engine, s: System, a: Act)
    requires Coupled(s) && Possible(f, s, a)
    ensures J.NextDocs(s.job.docs, EffectOf(f, s, a), After(f, engine, s, a).job.docs)
  {
    hide Possible;
    hide EffectOf;
    DocsFollow(engine, s.job, EffectOf(f, s, a));
    if EffectOf(f, s, a).Some? {
      EffectEnabled(f, s, a);
    }
  }

  lemma RunFollows(f: Q.Faults, engine: J.Engine, acts: seq<Act>, states: seq<System>)
    requires IsRun(f, engine, acts, states)
    ensures J.Follow(DocsOf(states), EffectsOf(f, engine, acts, states))
  {
    hide EffectOf;
    hide After;
    hide J.NextDocs;
    forall i | 0 <= i < |acts|
      ensures J.NextDocs(states[i].job.docs, EffectOf(f, states[i], acts[i]), states[i + 1].job.docs)
    {
      CoupledThen(f, engine, acts, states, i);
      EffectFollows(f, engine, states[i], acts[i]);
    }
  }

  /** The act that reads the evidence for the caller that passed the gate at act g. */
  predicate ReadsFor(a: Act, c: nat) { a.Request? && (a.r == J.Review(c) || (a.r.Finalize? && a.r.caller == c)) }

  predicate AllConfirmed(docs: map<DocId, J.Document>, evidence: map<DocId, (Role, nat)>) {
    forall d <- evidence :: d in docs && docs[d].status == Extracted
  }

  /** Whatever was left unconfirmed between acts g and z has been answered. */
  ghost predicate AllAnswered(f: Q.Faults, engine: J.Engine, acts: seq<Act>, states: seq<System>, g: nat, z: nat)
    requires IsRun(f, engine, acts, states) && g <= z <= |acts|
  {
    forall d: DocId :: !J.LeftOpen(DocsOf(states), EffectsOf(f, engine, acts, states), g, z, d)
  }

  lemma ReadsConfirmed(f: Q.Faults, engine: J.Engine, acts: seq<Act>, states: seq<System>, g: nat, z: nat, c: nat)
    requires IsRun(f, engine, acts, states) && g < z < |acts| && acts[g] == Request(J.Gate(c))
    ensures AllConfirmed(states[z].job.docs, J.EvidenceOf(states[z].job.docs))
       <==> AllAnswered(f, engine, acts, states, g, z)
  {
    var docs, events := DocsOf(states), EffectsOf(f, engine, acts, states);
    RunFollows(f, engine, acts, states);
    assert Possible(f, states[g], acts[g]);
    hide IsRun;
    hide J.LeftOpen;
    forall d: DocId ensures J.Unconfirmed(docs[z], d) <==> J.LeftOpen(docs, events, g, z, d) {
      J.UnconfirmedSince(docs, events, g, z, d);
    }
    assert forall d: DocId :: J.Unconfirmed(docs[z], d) <==>
      d in J.EvidenceOf(states[z].job.docs) && states[z].job.docs[d].status != Extracted;
  }

  /** A review, and an XML that a finalize adds, are built from confirmed documents only,
      exactly if everything left unconfirmed since their caller's gate has been answered:
      in any run of any deployment. */
  lemma DeclaresConfirmedExactly(f: Q.Faults, engine: J.Engine, acts: seq<Act>, states: seq<System>,
                                 g: nat, z: nat, c: nat)
    requires IsRun(f, engine, acts, states) && g < z < |acts|
    requires acts[g] == Request(J.Gate(c)) && ReadsFor(acts[z], c)
    ensures acts[z].r.Review? ==>
      var review := states[z + 1].job.review;
      review.Some? &&
      (AllConfirmed(states[z].job.docs, review.value.evidence) <==> AllAnswered(f, engine, acts, states, g, z))
    ensures acts[z].r.Finalize? && states[z + 1].job.xmls != states[z].job.xmls ==>
      var xmls := states[z + 1].job.xmls;
      xmls != [] &&
      (AllConfirmed(states[z].job.docs, xmls[|xmls| - 1].inputs.evidence) <==> AllAnswered(f, engine, acts, states, g, z))
  {
    ReadsConfirmed(f, engine, acts, states, g, z, c);
    assert states[z + 1] == After(f, engine, states[z], acts[z]);
    hide IsRun;
    hide AllAnswered;
    hide AllConfirmed;
    hide J.Apply;
    hide J.EvidenceOf;
    J.StoredEvidence(engine, states[z].job, acts[z].r);
  }

  /** Where no document is extracted twice at once, only a role mismatch leaves a document
      unconfirmed: none that is claimed, failed or released carries an extraction. */
  lemma OnlyMismatchUnsettles(f: Q.Faults, engine: J.Engine, acts: seq<Act>, states: seq<System>, i: nat, d: DocId)
    requires X.SingleAttempt(f) && IsRun(f, engine, acts, states) && i < |acts|
    requires J.Unsettles(states[i].job.docs, EffectOf(f, states[i], acts[i]), d)
    ensures acts[i].Protocol? && acts[i].e.Finish? && acts[i].e.outcome == RoleReview
  {
    InvariantHolds(f, engine, acts, states, i);
    assert Possible(f, states[i], acts[i]);
    hide IsRun;
    hide X.ExclusionInvariant;
    hide J.Consistent;
    EffectFresh(f, states[i], acts[i]);
  }

  /** The gate runs before the lock: a document extracted in between is declared although
      its role is unconfirmed. */
  lemma GateOutrun(f: Q.Faults) returns (acts: seq<Act>, s: System)
    ensures Reaches(f, ENGINE, acts, s) && s.job.status == J.XML_READY
    ensures 0 in s.job.docs && s.job.docs[0].status == RoleReview
    ensures s.job.xmls != [] && 0 in s.job.xmls[|s.job.xmls| - 1].inputs.evidence
  {
    hide Reaches;
    acts, s := Begin(f, ENGINE);
    acts, s := Extract(f, acts, s, 1, 1, 8, true);
    acts, s := OpenGate(f, acts, s);
    acts, s := Extract(f, acts, s, 0, 0, 7, false);
    assert 0 in J.EvidenceOf(s.job.docs);
    acts, s := Declare(f, acts, s);
  }

  /** A blocked job may still hold the XML of an earlier finalize. */
  lemma BlockedKeepsOlderXml(f: Q.Faults) returns (acts: seq<Act>, s: System)
    ensures Reaches(f, ENGINE, acts, s) && s.job.status == J.VALIDATION_BLOCKED
    ensures s.job.xmls != [] && s.job.declaration.Some?
    ensures s.job.xmls[|s.job.xmls| - 1].number != s.job.declaration.value.number
  {
    hide Reaches;
    acts, s := Begin(f, ENGINE);
    acts, s := Extract(f, acts, s, 1, 1, 8, true);
    acts, s := OpenGate(f, acts, s);
    assert 1 in J.EvidenceOf(s.job.docs);
    acts, s := Declare(f, acts, s);
    acts, s := OpenGate(f, acts, s);
    acts, s := Then(f, ENGINE, acts, s, Request(J.Finalize(0, 1)));
  }
}
