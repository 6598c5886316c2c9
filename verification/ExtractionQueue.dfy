/** The claim / queue / worker protocol of queue-mode extraction.

    A producer claims a document with a status-guarded UPDATE, commits, and sends
    one message.  A worker receives the message with a visibility timeout, looks
    at the document, claims it again, runs, commits a result, and deletes the
    message.  Everything that the code relies on but does not enforce is a field
    of `Faults`, so the theorems can say exactly which of them matter.

    `Doc.epoch`, `Message.epoch` and `Producer.epoch` are auxiliary: they count
    the claims taken on a document and decide nothing. */
module ExtractionQueue {
  import opened Documents

  type pos = n: nat | n > 0 witness 1

  /** `present` is false once the row is deleted; ids are never used again. */
  datatype Doc = Doc(status: Status, epoch: nat, present: bool)

  datatype Place = Visible | Hidden | DeadLettered | Gone

  datatype Message = Message(doc: DocId, epoch: nat, place: Place, receives: nat)

  datatype Phase = Received | Claiming | Running | Disposing

  datatype Worker = Worker(msg: nat, phase: Phase)

  datatype Producer =
    | Reading(doc: DocId, prior: Status)
    | Claimed(doc: DocId, epoch: nat, prior: Status)

  datatype State = State(
    docs: map<DocId, Doc>,
    msgs: seq<Message>,
    workers: map<nat, Worker>,
    producers: map<nat, Producer>,
    reattaching: map<nat, DocId>)

  /** What may go wrong in a deployment, and the redelivery bound of the queue. */
  datatype Faults = Faults(
    lockTimeout: bool,     // job_lock_timeout_seconds > 0: JOB_BUSY at the final lock
    unsaved: bool,         // the database fails a worker, or something is raised after the extractor returned
    producerCrash: bool,   // a producer dies, or its database fails it, between its commit and its send or release
    retention: bool,       // the queue drops a message that has outlived its retention period
    phantomSend: bool,     // a send reports failure although the message was enqueued
    lostBeat: bool,        // a live worker's message becomes visible again
    lateCrash: bool,       // a worker dies between its result and its delete
    deleteFails: bool,     // delete_message fails
    reattachRace: bool,    // a claim lands between a re-attach's read and its write
    maxReceives: pos)      // deliveries before the dead-letter queue takes the message

  datatype Event =
    | Upload(d: DocId)
    | Remove(d: DocId)
    | DecideRole(d: DocId, accept: bool)
    | ReattachRead(h: nat, d: DocId)
    | ReattachWrite(h: nat)
    | ReadPrior(p: nat, d: DocId)
    | TakeClaim(p: nat)
    | Send(p: nat)
    | SendFails(p: nat)
    | SendPhantom(p: nat)
    | ProducerDies(p: nat)
    | Receive(w: nat, m: nat)
    | Look(w: nat)
    | ClaimAgain(w: nat)
    | Finish(w: nat, outcome: Status)
    | Unsaved(w: nat)
    | Delete(w: nat)
    | DeleteLost(w: nat)
    | Crash(w: nat)
    | Expire(m: nat)
    | DeadLetter(m: nat)
    | Discard(m: nat)

  // ---- the three database statements of the protocol ------------------------ //

  /** `UPDATE document SET status = EXTRACTING WHERE id = d AND status IN from`. */
  predicate Claimable(docs: map<DocId, Doc>, d: DocId, from: set<Status>) {
    d in docs && docs[d].present && docs[d].status in from
  }

  const RETRIABLE: set<Status> := {Uploaded, Failed}

  const WORKER_CLAIM_FROM: set<Status> := {Extracting}

  /** A producer's claim: the guarded UPDATE opens a new epoch. */
  function Claim(docs: map<DocId, Doc>, d: DocId): map<DocId, Doc>
    requires d in docs
  {
    docs[d := docs[d].(status := Extracting, epoch := docs[d].epoch + 1)]
  }

  /** An unguarded write of the status column.  On a deleted row it is unseen. */
  function SetStatus(docs: map<DocId, Doc>, d: DocId, status: Status): map<DocId, Doc> {
    if d in docs then docs[d := docs[d].(status := status)] else docs
  }

  /** What a failed send will restore: the pre-read status if it was retriable. */
  function Restorable(prior: Status): Status {
    if prior in RETRIABLE then prior else Uploaded
  }

  // ---- the step relation ----------------------------------------------------- //

  predicate InPhase(s: State, w: nat, phase: Phase) {
    w in s.workers && s.workers[w].phase == phase && s.workers[w].msg < |s.msgs|
  }

  predicate IsClaimed(s: State, p: nat) {
    p in s.producers && s.producers[p].Claimed?
  }

  predicate Free(s: State, m: nat) {
    forall w <- s.workers :: s.workers[w].msg != m
  }

  ghost predicate Enabled(f: Faults, s: State, e: Event) {
    match e
    case Upload(d) => d !in s.docs
    case Remove(d) => d in s.docs && s.docs[d].present
    case DecideRole(d, _) => Claimable(s.docs, d, {RoleReview})
    case ReattachRead(h, d) => h !in s.reattaching && Claimable(s.docs, d, {Failed})
    case ReattachWrite(h) => h in s.reattaching
    case ReadPrior(p, d) => p !in s.producers && d in s.docs && s.docs[d].present
    case TakeClaim(p) =>
      && p in s.producers && s.producers[p].Reading?
      && (f.reattachRace || forall h <- s.reattaching :: s.reattaching[h] != s.producers[p].doc)
    case Send(p) => IsClaimed(s, p)
    case SendFails(p) => IsClaimed(s, p)
    case SendPhantom(p) => IsClaimed(s, p) && f.phantomSend
    case ProducerDies(p) => p in s.producers && (s.producers[p].Reading? || f.producerCrash)
    case Receive(w, m) =>
      && w !in s.workers && m < |s.msgs|
      && s.msgs[m].place == Visible && s.msgs[m].receives < f.maxReceives
    case Look(w) => InPhase(s, w, Received)
    case ClaimAgain(w) => InPhase(s, w, Claiming)
    case Finish(w, outcome) => InPhase(s, w, Running) && outcome in {Extracted, RoleReview, Failed}
    case Unsaved(w) =>
      || (InPhase(s, w, Running) && (f.lockTimeout || f.unsaved))
      || ((InPhase(s, w, Received) || InPhase(s, w, Claiming)) && f.unsaved)
    case Delete(w) => InPhase(s, w, Disposing)
    case DeleteLost(w) => InPhase(s, w, Disposing) && f.deleteFails
    case Crash(w) => w in s.workers && (s.workers[w].phase != Disposing || f.lateCrash)
    case Expire(m) => m < |s.msgs| && s.msgs[m].place == Hidden && (f.lostBeat || Free(s, m))
    case DeadLetter(m) =>
      m < |s.msgs| && s.msgs[m].place == Visible && s.msgs[m].receives >= f.maxReceives
    case Discard(m) => m < |s.msgs| && f.retention
  }

  function Move(s: State, m: nat, place: Place): State
    requires m < |s.msgs|
  {
    s.(msgs := s.msgs[m := s.msgs[m].(place := place)])
  }

  function Advance(s: State, w: nat, phase: Phase): State
    requires w in s.workers
  {
    s.(workers := s.workers[w := s.workers[w].(phase := phase)])
  }

  function Enqueue(s: State, p: nat): State
    requires IsClaimed(s, p)
  {
    var pr := s.producers[p];
    s.(msgs := s.msgs + [Message(pr.doc, pr.epoch, Visible, 0)])
  }

  ghost function Apply(f: Faults, s: State, e: Event): State
    requires Enabled(f, s, e)
  {
    match e
    case Upload(d) => s.(docs := s.docs[d := Doc(Uploaded, 0, true)])
    case Remove(d) => s.(docs := s.docs[d := s.docs[d].(present := false)])
    case DecideRole(d, accept) =>
      s.(docs := SetStatus(s.docs, d, if accept then Extracted else RoleRejected))
    case ReattachRead(h, d) => s.(reattaching := s.reattaching[h := d])
    case ReattachWrite(h) =>
      s.(docs := SetStatus(s.docs, s.reattaching[h], Uploaded), reattaching := s.reattaching - {h})
    case ReadPrior(p, d) => s.(producers := s.producers[p := Reading(d, s.docs[d].status)])
    case TakeClaim(p) =>
      var pr := s.producers[p];
      if Claimable(s.docs, pr.doc, RETRIABLE) then
        var docs := Claim(s.docs, pr.doc);
        s.(docs := docs,
           producers := s.producers[p := Claimed(pr.doc, docs[pr.doc].epoch, Restorable(pr.prior))])
      else
        s.(producers := s.producers - {p})
    case Send(p) => Enqueue(s, p).(producers := s.producers - {p})
    case SendFails(p) =>
      s.(docs := SetStatus(s.docs, s.producers[p].doc, s.producers[p].prior),
         producers := s.producers - {p})
    case SendPhantom(p) =>
      Enqueue(s, p).(docs := SetStatus(s.docs, s.producers[p].doc, s.producers[p].prior),
                     producers := s.producers - {p})
    case ProducerDies(p) => s.(producers := s.producers - {p})
    case Receive(w, m) =>
      s.(msgs := s.msgs[m := s.msgs[m].(place := Hidden, receives := s.msgs[m].receives + 1)],
         workers := s.workers[w := Worker(m, Received)])
    case Look(w) =>
      Advance(s, w, if Claimable(s.docs, s.msgs[s.workers[w].msg].doc, WORKER_CLAIM_FROM)
                    then Claiming else Disposing)
    case ClaimAgain(w) =>
      Advance(s, w, if Claimable(s.docs, s.msgs[s.workers[w].msg].doc, WORKER_CLAIM_FROM)
                    then Running else Disposing)
    case Finish(w, outcome) =>
      Advance(s, w, Disposing).(docs := SetStatus(s.docs, s.msgs[s.workers[w].msg].doc, outcome))
    case Unsaved(w) => Advance(s, w, Disposing)
    case Delete(w) => Move(s, s.workers[w].msg, Gone).(workers := s.workers - {w})
    case DeleteLost(w) => s.(workers := s.workers - {w})
    case Crash(w) => s.(workers := s.workers - {w})
    case Expire(m) => Move(s, m, Visible)
    case DeadLetter(m) => Move(s, m, DeadLettered)
    case Discard(m) => Move(s, m, Gone)
  }

  const EMPTY: State := State(map[], [], map[], map[], map[])

  /** `trace` lists the states that the events of `run` go through. */
  ghost predicate IsTrace(f: Faults, run: seq<Event>, trace: seq<State>) {
    && |trace| == |run| + 1
    && trace[0] == EMPTY
    && forall i | 0 <= i < |run| ::
         Enabled(f, trace[i], run[i]) && trace[i + 1] == Apply(f, trace[i], run[i])
  }

  /** `s` is what the events `run` lead to from the empty system. */
  ghost predicate Leads(f: Faults, run: seq<Event>, s: State) {
    exists trace :: IsTrace(f, run, trace) && trace[|run|] == s
  }

  /** The events `path`, taken one after the other, lead from `s` to `t`. */
  ghost predicate Goes(f: Faults, s: State, path: seq<Event>, t: State)
    decreases |path|
  {
    if path == [] then s == t
    else Enabled(f, s, path[0]) && Goes(f, Apply(f, s, path[0]), path[1..], t)
  }

  /** So what holds in every run holds after every path from a reached state. */
  lemma {:induction false} GoesExtendsRun(f: Faults, run: seq<Event>, s: State, path: seq<Event>, t: State)
    requires Leads(f, run, s) && Goes(f, s, path, t)
    ensures Leads(f, run + path, t)
    decreases |path|
  {
    if path == [] {
      assert run + path == run;
    } else {
      var run', s' := Then(f, run, s, path[0]);
      GoesExtendsRun(f, run', s', path[1..], t);
      assert run + path == run' + path[1..];
    }
  }

  // ---- safety: no orphaned claim ---------------------------------------------- //

  ghost predicate Covered(s: State, d: DocId) {
    || (exists p <- s.producers :: s.producers[p] .Claimed? && s.producers[p].doc == d)
    || (exists m | 0 <= m < |s.msgs| :: s.msgs[m].doc == d && s.msgs[m].place != Gone)
  }

  /** A document in EXTRACTING has a producer about to send or release, or a
      message that names it in the queue, in flight or in the dead-letter queue. */
  ghost predicate NoOrphan(s: State) {
    forall d <- s.docs :: s.docs[d].present && s.docs[d].status == Extracting ==> Covered(s, d)
  }

  ghost predicate AtEpoch(s: State, d: DocId, epoch: nat) {
    d in s.docs && s.docs[d].present && s.docs[d].status == Extracting && s.docs[d].epoch == epoch
  }

  ghost predicate WorkersOk(s: State) {
    forall w <- s.workers :: s.workers[w].msg < |s.msgs|
  }

  ghost predicate MessagesOk(s: State) {
    forall m | 0 <= m < |s.msgs| ::
      s.msgs[m].doc in s.docs && s.msgs[m].epoch <= s.docs[s.msgs[m].doc].epoch
  }

  ghost predicate ProducersOk(s: State) {
    forall p <- s.producers ::
      && s.producers[p].doc in s.docs
      && (s.producers[p].Claimed? ==>
            s.producers[p].epoch <= s.docs[s.producers[p].doc].epoch && s.producers[p].prior in RETRIABLE)
  }

  ghost predicate WellFormed(s: State) {
    && WorkersOk(s)
    && MessagesOk(s)
    && ProducersOk(s)
    && (forall h <- s.reattaching :: s.reattaching[h] in s.docs)
  }

  ghost predicate SentOrPending(s: State, d: DocId, epoch: nat) {
    || (exists p <- s.producers :: s.producers[p] == Claimed(d, epoch, s.producers[p].prior))
    || (exists m | 0 <= m < |s.msgs| ::
          s.msgs[m].doc == d && s.msgs[m].epoch == epoch && s.msgs[m].place != Gone)
  }

  /** Whatever a run comes to is stored before its message is deleted. */
  predicate Saves(f: Faults) { !f.lockTimeout && !f.unsaved }

  /** A worker disposes of a message only after its claim has been released. */
  ghost predicate DisposalsSettled(s: State) {
    forall w <- s.workers :: s.workers[w].msg < |s.msgs| && s.workers[w].phase == Disposing ==>
      !AtEpoch(s, s.msgs[s.workers[w].msg].doc, s.msgs[s.workers[w].msg].epoch)
  }

  ghost predicate ClaimsCovered(s: State) {
    forall d <- s.docs :: s.docs[d].present && s.docs[d].status == Extracting ==>
      SentOrPending(s, d, s.docs[d].epoch)
  }

  // What every step leaves alone.

  ghost predicate Extends(s: State, t: State) {
    && (forall d <- s.docs :: d in t.docs && s.docs[d].epoch <= t.docs[d].epoch)
    && |s.msgs| <= |t.msgs|
    && (forall m | 0 <= m < |s.msgs| ::
          t.msgs[m].doc == s.msgs[m].doc && t.msgs[m].epoch == s.msgs[m].epoch)
  }

  lemma StepExtends(f: Faults, s: State, e: Event)
    requires Enabled(f, s, e)
    ensures Extends(s, Apply(f, s, e))
  {
    match e
    case Upload(d) =>
    case Remove(d) =>
    case DecideRole(d, accept) =>
    case ReattachRead(h, d) =>
    case ReattachWrite(h) =>
    case ReadPrior(p, d) =>
    case TakeClaim(p) =>
    case Send(p) =>
    case SendFails(p) =>
    case SendPhantom(p) =>
    case ProducerDies(p) =>
    case Receive(w, m) =>
    case Look(w) =>
    case ClaimAgain(w) =>
    case Finish(w, outcome) =>
    case Unsaved(w) =>
    case Delete(w) =>
    case DeleteLost(w) =>
    case Crash(w) =>
    case Expire(m) =>
    case DeadLetter(m) =>
    case Discard(m) =>
  }

  lemma WellFormedStep(f: Faults, s: State, e: Event)
    requires WellFormed(s) && Enabled(f, s, e)
    ensures WellFormed(Apply(f, s, e))
  {
    StepExtends(f, s, e);
    WorkersOkStep(f, s, e);
    MessagesOkStep(f, s, e);
    ProducersOkStep(f, s, e);
  }

  lemma WorkersOkStep(f: Faults, s: State, e: Event)
    requires WorkersOk(s) && Enabled(f, s, e)
    ensures WorkersOk(Apply(f, s, e))
  {
    StepExtends(f, s, e);
    match e
    case Receive(_, _) =>
    case Look(_) =>
    case ClaimAgain(_) =>
    case Finish(_, _) =>
    case Unsaved(_) =>
    case _ =>
  }

  lemma MessagesOkStep(f: Faults, s: State, e: Event)
    requires MessagesOk(s) && ProducersOk(s) && Enabled(f, s, e)
    ensures MessagesOk(Apply(f, s, e))
  {
    var t := Apply(f, s, e);
    StepExtends(f, s, e);
    forall m | 0 <= m < |t.msgs|
      ensures t.msgs[m].doc in t.docs && t.msgs[m].epoch <= t.docs[t.msgs[m].doc].epoch
    {
      if m < |s.msgs| {
        assert s.msgs[m].doc in s.docs;
      } else {
        assert e.Send? || e.SendPhantom?;
      }
    }
  }

  lemma ProducersOkStep(f: Faults, s: State, e: Event)
    requires ProducersOk(s) && Enabled(f, s, e)
    ensures ProducersOk(Apply(f, s, e))
  {
    StepExtends(f, s, e);
    match e
    case ReadPrior(_, _) =>
    case TakeClaim(_) =>
    case _ =>
  }

  /** A claim that has ended stays ended: the next claim opens a later epoch. */
  lemma ClaimStaysEnded(f: Faults, s: State, e: Event, d: DocId, epoch: nat)
    requires Enabled(f, s, e) && !AtEpoch(s, d, epoch) && ProducersOk(s)
    requires d in s.docs && epoch <= s.docs[d].epoch
    ensures !AtEpoch(Apply(f, s, e), d, epoch)
  {
    StepExtends(f, s, e);
  }

  lemma DisposalsSettledStep(f: Faults, s: State, e: Event)
    requires WellFormed(s) && DisposalsSettled(s) && Enabled(f, s, e) && Saves(f)
    ensures DisposalsSettled(Apply(f, s, e))
  {
    var t := Apply(f, s, e);
    StepExtends(f, s, e);
    forall w | w in t.workers && t.workers[w].msg < |t.msgs| && t.workers[w].phase == Disposing
      ensures !AtEpoch(t, t.msgs[t.workers[w].msg].doc, t.msgs[t.workers[w].msg].epoch)
    {
      assert w in s.workers && s.workers[w].msg == t.workers[w].msg;
      var m := s.workers[w].msg;
      if s.workers[w].phase == Disposing {
        ClaimStaysEnded(f, s, e, s.msgs[m].doc, s.msgs[m].epoch);
      }
    }
  }

  /** A message that carries a standing claim is not deleted. */
  lemma StandingMessageStays(f: Faults, s: State, e: Event, m: nat)
    requires WellFormed(s) && DisposalsSettled(s) && Enabled(f, s, e) && !f.retention
    requires m < |s.msgs| && s.msgs[m].place != Gone && AtEpoch(s, s.msgs[m].doc, s.msgs[m].epoch)
    ensures Apply(f, s, e).msgs[m].place != Gone
  {
    StepExtends(f, s, e);
  }

  /** A producer that leaves a standing claim has sent its message. */
  lemma StandingClaimIsSent(f: Faults, s: State, e: Event, p: nat)
    requires ProducersOk(s) && Enabled(f, s, e) && !f.producerCrash && IsClaimed(s, p)
    requires AtEpoch(Apply(f, s, e), s.producers[p].doc, s.producers[p].epoch)
    ensures SentOrPending(Apply(f, s, e), s.producers[p].doc, s.producers[p].epoch)
  {
    var t := Apply(f, s, e);
    var pr := s.producers[p];
    if e == Send(p) || e == SendPhantom(p) {
      assert t.msgs[|s.msgs|] == Message(pr.doc, pr.epoch, Visible, 0);
    } else {
      assert p in t.producers && t.producers[p] == pr;
    }
  }

  /** The evidence for a claim survives every step that leaves the claim standing. */
  lemma StaysSentOrPending(f: Faults, s: State, e: Event, d: DocId, epoch: nat)
    requires WellFormed(s) && DisposalsSettled(s) && Enabled(f, s, e) && !f.producerCrash && !f.retention
    requires AtEpoch(s, d, epoch) && SentOrPending(s, d, epoch)
    requires AtEpoch(Apply(f, s, e), d, epoch)
    ensures SentOrPending(Apply(f, s, e), d, epoch)
  {
    StepExtends(f, s, e);
    if m :| 0 <= m < |s.msgs| && s.msgs[m].doc == d && s.msgs[m].epoch == epoch && s.msgs[m].place != Gone {
      StandingMessageStays(f, s, e, m);
    } else {
      var p :| p in s.producers && s.producers[p] == Claimed(d, epoch, s.producers[p].prior);
      StandingClaimIsSent(f, s, e, p);
    }
  }

  lemma ClaimsCoveredStep(f: Faults, s: State, e: Event)
    requires WellFormed(s) && DisposalsSettled(s) && ClaimsCovered(s) && Enabled(f, s, e)
    requires !f.producerCrash && !f.retention
    ensures ClaimsCovered(Apply(f, s, e))
  {
    var t := Apply(f, s, e);
    forall d | d in t.docs && t.docs[d].present && t.docs[d].status == Extracting
      ensures SentOrPending(t, d, t.docs[d].epoch)
    {
      if AtEpoch(s, d, t.docs[d].epoch) {
        StaysSentOrPending(f, s, e, d, t.docs[d].epoch);
      } else {
        var p := e.p;
        assert e == TakeClaim(p);
        assert t.producers[p] == Claimed(d, t.docs[d].epoch, t.producers[p].prior);
      }
    }
  }

  /** The deployments in which no claim is orphaned. */
  predicate KeepsClaims(f: Faults) { Saves(f) && !f.producerCrash && !f.retention }

  ghost predicate OrphanInvariant(s: State) {
    WellFormed(s) && DisposalsSettled(s) && ClaimsCovered(s)
  }

  lemma OrphanInvariantHolds(f: Faults, run: seq<Event>, s: State)
    requires Leads(f, run, s) && KeepsClaims(f)
    ensures OrphanInvariant(s)
  {
    var trace :| IsTrace(f, run, trace) && trace[|run|] == s;
    for i := 0 to |run|
      invariant OrphanInvariant(trace[i])
    {
      OrphanInvariantStep(f, trace[i], run[i]);
    }
  }

  lemma OrphanInvariantStep(f: Faults, s: State, e: Event)
    requires OrphanInvariant(s) && Enabled(f, s, e) && KeepsClaims(f)
    ensures OrphanInvariant(Apply(f, s, e))
  {
    WellFormedStep(f, s, e);
    DisposalsSettledStep(f, s, e);
    ClaimsCoveredStep(f, s, e);
  }

  /** In every run, whatever else crashes, is lost or is delivered twice. */
  lemma NoOrphanedClaim(f: Faults, run: seq<Event>, s: State)
    requires Leads(f, run, s) && KeepsClaims(f)
    ensures NoOrphan(s)
  {
    OrphanInvariantHolds(f, run, s);
    forall d | d in s.docs && s.docs[d].present && s.docs[d].status == Extracting
      ensures Covered(s, d)
    {
      assert SentOrPending(s, d, s.docs[d].epoch);
    }
  }

  // ---- runs built event by event --------------------------------------------- //

  lemma Then(f: Faults, run: seq<Event>, s: State, e: Event) returns (run': seq<Event>, s': State)
    requires Leads(f, run, s) && Enabled(f, s, e)
    ensures Leads(f, run', s') && s' == Apply(f, s, e) && run' == run + [e]
  {
    run', s' := run + [e], Apply(f, s, e);
    var trace :| IsTrace(f, run, trace) && trace[|run|] == s;
    assert IsTrace(f, run', trace + [s']);
  }

  /** Document 0 is uploaded, and producer 0 holds its first claim. */
  lemma FirstClaim(f: Faults) returns (run: seq<Event>, s: State)
    ensures Leads(f, run, s)
    ensures s == State(map[0 := Doc(Extracting, 1, true)], [], map[], map[0 := Claimed(0, 1, Uploaded)], map[])
  {
    run, s := [], EMPTY;
    assert IsTrace(f, run, [EMPTY]);
    run, s := Then(f, run, s, Upload(0));
    run, s := Then(f, run, s, ReadPrior(0, 0));
    run, s := Then(f, run, s, TakeClaim(0));
  }

  /** Worker 0 runs the first claim's message. */
  lemma FirstRun(f: Faults) returns (run: seq<Event>, s: State)
    ensures Leads(f, run, s)
    ensures s == State(map[0 := Doc(Extracting, 1, true)], [Message(0, 1, Hidden, 1)],
                       map[0 := Worker(0, Running)], map[], map[])
  {
    run, s := FirstClaim(f);
    run, s := Then(f, run, s, Send(0));
    run, s := Then(f, run, s, Receive(0, 0));
    run, s := Then(f, run, s, Look(0));
    run, s := Then(f, run, s, ClaimAgain(0));
    assert s.msgs == [Message(0, 1, Hidden, 1)];
  }

  /** A busy job lock, a failed commit and any error after the extractor returned have
      the same consequence: the message goes and the claim stays. */
  lemma UnsavedRunOrphans(f: Faults) returns (run: seq<Event>, s: State)
    requires !Saves(f)
    ensures Leads(f, run, s) && !NoOrphan(s)
  {
    run, s := FirstRun(f);
    run, s := Then(f, run, s, Unsaved(0));
    run, s := Then(f, run, s, Delete(0));
    assert s.msgs[0].place == Gone && s.docs[0].status == Extracting;
    assert !Covered(s, 0);
  }

  /** Worker 0 has the first claim's message and has not claimed yet. */
  lemma FirstLook(f: Faults, phase: Phase) returns (run: seq<Event>, s: State)
    requires phase == Received || phase == Claiming
    ensures Leads(f, run, s)
    ensures s == State(map[0 := Doc(Extracting, 1, true)], [Message(0, 1, Hidden, 1)],
                       map[0 := Worker(0, phase)], map[], map[])
  {
    run, s := FirstClaim(f);
    run, s := Then(f, run, s, Send(0));
    run, s := Then(f, run, s, Receive(0, 0));
    if phase == Claiming {
      run, s := Then(f, run, s, Look(0));
    }
    assert s.msgs == [Message(0, 1, Hidden, 1)];
  }

  /** So has a database that fails the worker before it has claimed, at either look. */
  lemma UnreadClaimOrphans(f: Faults, phase: Phase) returns (run: seq<Event>, s: State)
    requires f.unsaved && (phase == Received || phase == Claiming)
    ensures Leads(f, run, s) && !NoOrphan(s)
  {
    run, s := FirstLook(f, phase);
    run, s := Then(f, run, s, Unsaved(0));
    run, s := Then(f, run, s, Delete(0));
    assert s.msgs[0].place == Gone && s.docs[0].status == Extracting;
    assert !Covered(s, 0);
  }

  lemma DeadProducerOrphans(f: Faults) returns (run: seq<Event>, s: State)
    requires f.producerCrash
    ensures Leads(f, run, s) && !NoOrphan(s)
  {
    run, s := FirstClaim(f);
    run, s := Then(f, run, s, ProducerDies(0));
    assert !Covered(s, 0);
  }

  lemma DiscardedMessageOrphans(f: Faults) returns (run: seq<Event>, s: State)
    requires f.retention
    ensures Leads(f, run, s) && !NoOrphan(s)
  {
    run, s := FirstClaim(f);
    run, s := Then(f, run, s, Send(0));
    run, s := Then(f, run, s, Discard(0));
    assert s.msgs[0].place == Gone && s.docs[0].status == Extracting;
    assert !Covered(s, 0);
  }

  /** No claim is ever orphaned, exactly when every run's outcome is stored, every
      producer gets to its send or release, and no message outlives its retention.
      Dead workers, lost heartbeats, failed deletes, phantom sends and racing
      re-attaches cannot orphan a claim. */
  lemma NoOrphanExactly(f: Faults)
    ensures (forall run, s :: Leads(f, run, s) ==> NoOrphan(s)) <==> KeepsClaims(f)
  {
    if !Saves(f) {
      var run, s := UnsavedRunOrphans(f);
      assert !(Leads(f, run, s) ==> NoOrphan(s));
    } else if f.producerCrash {
      var run, s := DeadProducerOrphans(f);
      assert !(Leads(f, run, s) ==> NoOrphan(s));
    } else if f.retention {
      var run, s := DiscardedMessageOrphans(f);
      assert !(Leads(f, run, s) ==> NoOrphan(s));
    } else {
      forall run, s | Leads(f, run, s) ensures NoOrphan(s) {
        NoOrphanedClaim(f, run, s);
      }
    }
  }
}
