/** The code that takes the protocol's steps: claiming, enqueueing, handling one
    delivery, and the startup sweep that replaces redelivery when there is no
    queue.  Each method, run without interference, is proved to be a path of
    protocol events; what other threads do in between is the protocol's matter. */
module ExtractionService {
  import opened Documents
  import opened ExtractionQueue

  datatype ClaimResult = Taken(prior: Status) | Refused

  datatype EnqueueResult = Queued | AlreadyRunning | SendError

  /** What `parse_message` makes of a body: a well-formed one of another version or kind
      is left for an upgraded worker. */
  datatype Parsed = Understood | Malformed | Unsupported

  /** What `run_extraction` comes to for one claimed document. */
  datatype Outcome =
    | Result(roleMatch: bool)     // the extractor returned a payload
    | Raised                      // OCR or extraction raised: FAILED is persisted
    | NothingSaved                // JOB_BUSY, a failed commit, an error outside the try
  {
    function Event(): Event {
      match this
      case Result(roleMatch) => Finish(0, if roleMatch then Extracted else RoleReview)
      case Raised => Finish(0, Failed)
      case NothingSaved => Unsaved(0)
    }
  }

  class Service {
    var docs: map<DocId, Doc>
    var msgs: seq<Message>

    /** The protocol state when no producer or worker is under way. */
    ghost function Snapshot(): State
      reads this
    {
      State(docs, msgs, map[], map[], map[])
    }

    constructor ()
      ensures Snapshot() == EMPTY
    {
      docs, msgs := map[], [];
    }

    /** The guarded UPDATE; returns its row count as a truth value. */
    method GuardedClaim(d: DocId, from: set<Status>, opensEpoch: bool) returns (claimed: bool)
      modifies `docs
      ensures claimed == Claimable(old(docs), d, from)
      ensures !claimed ==> docs == old(docs)
      ensures claimed && opensEpoch ==> docs == Claim(old(docs), d)
      ensures claimed && !opensEpoch ==> docs == SetStatus(old(docs), d, Extracting)
      ensures claimed <==> d in old(docs) && old(docs)[d].present && old(docs)[d].status in from
      ensures claimed ==>
        docs == old(docs)[d := Doc(Extracting, old(docs)[d].epoch + if opensEpoch then 1 else 0, true)]
    {
      claimed := d in docs && docs[d].present && docs[d].status in from;
      if claimed {
        var epoch := if opensEpoch then docs[d].epoch + 1 else docs[d].epoch;
        docs := docs[d := docs[d].(status := Extracting, epoch := epoch)];
      }
    }

    method ClaimForQueuedExtraction(d: DocId) returns (r: ClaimResult)
      requires d in docs
      modifies `docs
      ensures Claimable(old(docs), d, RETRIABLE) ==>
        r == Taken(old(docs)[d].status) && docs == Claim(old(docs), d)
      ensures !Claimable(old(docs), d, RETRIABLE) ==> r == Refused && docs == old(docs)
      ensures r.Taken? <==> old(docs)[d].present && (old(docs)[d].status == Uploaded || old(docs)[d].status == Failed)
      ensures r.Taken? ==>
        r.prior == old(docs)[d].status && docs == old(docs)[d := Doc(Extracting, old(docs)[d].epoch + 1, true)]
    {
      var prior := docs[d].status;
      var claimed := GuardedClaim(d, RETRIABLE, true);
      if !claimed {
        return Refused;
      }
      return Taken(if prior in RETRIABLE then prior else Uploaded);
    }

    method ReleaseQueuedClaim(d: DocId, prior: Status)
      modifies `docs
      ensures docs == SetStatus(old(docs), d, prior)
      ensures docs == if d in old(docs) then old(docs)[d := old(docs)[d].(status := prior)] else old(docs)
    {
      if d in docs {
        docs := docs[d := docs[d].(status := prior)];
      }
    }

    /** Claim, then send; release on failure.  A refused send leaves the document
        exactly as retriable as before the call. */
    method EnqueueExtraction(ghost f: Faults, d: DocId, sendWorks: bool) returns (r: EnqueueResult)
      requires d in docs && docs[d].present
      modifies this
      ensures r == if !Claimable(old(docs), d, RETRIABLE) then AlreadyRunning
                   else if sendWorks then Queued else SendError
      ensures r == Queued ==>
        Goes(f, old(Snapshot()), [ReadPrior(0, d), TakeClaim(0), Send(0)], Snapshot())
      ensures r == SendError ==>
        && Goes(f, old(Snapshot()), [ReadPrior(0, d), TakeClaim(0), SendFails(0)], Snapshot())
        && msgs == old(msgs) && d in docs && docs[d].status == old(docs)[d].status
        && forall c <- old(docs) :: c != d ==> c in docs && docs[c] == old(docs)[c]
      ensures r == AlreadyRunning ==>
        && Goes(f, old(Snapshot()), [ReadPrior(0, d), TakeClaim(0)], Snapshot())
        && Snapshot() == old(Snapshot())
    {
      hide Goes;
      ghost var s0 := Snapshot();
      ghost var s1 := Apply(f, s0, ReadPrior(0, d));
      ghost var s2 := Apply(f, s1, TakeClaim(0));
      var claim := ClaimForQueuedExtraction(d);
      if claim.Refused? {
        assert s2.producers == map[];
        TwoSteps(f, s0, ReadPrior(0, d), TakeClaim(0), Snapshot());
        return AlreadyRunning;
      }
      if sendWorks {
        msgs := msgs + [Message(d, docs[d].epoch, Visible, 0)];
        r := Queued;
      } else {
        ReleaseQueuedClaim(d, claim.prior);
        r := SendError;
      }
      ghost var e := if sendWorks then Send(0) else SendFails(0);
      assert Apply(f, s2, e).producers == map[];
      ThreeSteps(f, s0, ReadPrior(0, d), TakeClaim(0), e, Snapshot());
    }

    /** `run_extraction`: claim, slow work, and one commit of its outcome. */
    method RunExtraction(d: DocId, claimFrom: set<Status>, outcome: Outcome) returns (claimed: bool)
      modifies `docs
      ensures claimed == Claimable(old(docs), d, claimFrom)
      ensures docs == if claimed then Settle(SetStatus(old(docs), d, Extracting), d, outcome) else old(docs)
      ensures claimed ==>
        && d in docs && docs == old(docs)[d := old(docs)[d].(status := docs[d].status)]
        && (outcome == Result(true) ==> docs[d].status == Extracted)
        && (outcome == Result(false) ==> docs[d].status == RoleReview)
        && (outcome == Raised ==> docs[d].status == Failed)
        && (outcome == NothingSaved ==> docs[d].status == Extracting)
    {
      claimed := GuardedClaim(d, claimFrom, false);
      if !claimed {
        return;
      }
      match outcome {
        case Result(roleMatch) =>
          docs := docs[d := docs[d].(status := if roleMatch then Extracted else RoleReview)];
        case Raised =>
          docs := docs[d := docs[d].(status := Failed)];
        case NothingSaved =>
      }
    }

    /** One delivery, end to end.  The message is deleted whatever happens, unless this
        build does not understand it. */
    method ProcessMessage(ghost f: Faults, m: nat, parsed: Parsed, outcome: Outcome) returns (ran: bool)
      requires m < |msgs| && msgs[m].place == Visible && msgs[m].receives < f.maxReceives
      requires outcome == NothingSaved ==> !Saves(f)
      modifies this
      ensures ran == (parsed == Understood && Claimable(old(docs), old(msgs)[m].doc, WORKER_CLAIM_FROM))
      ensures !ran ==> docs == old(docs)
      ensures ran <==>
        var d := old(msgs)[m].doc;
        parsed == Understood && d in old(docs) && old(docs)[d].present && old(docs)[d].status == Extracting
      ensures ran ==>
        var d := old(msgs)[m].doc;
        && d in docs && docs == old(docs)[d := old(docs)[d].(status := docs[d].status)]
        && (outcome == Result(true) ==> docs[d].status == Extracted)
        && (outcome == Result(false) ==> docs[d].status == RoleReview)
        && (outcome == Raised ==> docs[d].status == Failed)
      ensures var msg := old(msgs)[m];
        msgs == old(msgs)[m := msg.(place := if parsed == Unsupported then Hidden else Gone,
                                    receives := msg.receives + 1)]
      ensures parsed == Understood ==> Goes(f, old(Snapshot()), DeliveryPath(m, ran, outcome), Snapshot())
      ensures parsed == Unsupported ==> Goes(f, old(Snapshot()), [Receive(0, m), Crash(0)], Snapshot())
    {
      var d := msgs[m].doc;
      msgs := msgs[m := msgs[m].(place := Hidden, receives := msgs[m].receives + 1)];
      match parsed {
        case Unsupported =>
          LeftAlone(f, old(Snapshot()), m);
          return false;
        case Malformed =>
          msgs := msgs[m := msgs[m].(place := Gone)];
          return false;
        case Understood =>
      }
      ran := d in docs && docs[d].present && docs[d].status in WORKER_CLAIM_FROM;
      if ran {
        ran := RunExtraction(d, WORKER_CLAIM_FROM, outcome);
      }
      msgs := msgs[m := msgs[m].(place := Gone)];
      DeliveryGoes(f, old(Snapshot()), m, outcome, Snapshot());
    }

    /** Startup of a deployment without a queue: every EXTRACTING claim belongs to
        a dead process and goes back to UPLOADED. */
    method RecoverInterruptedExtractions() returns (recovered: set<DocId>)
      modifies `docs
      ensures recovered == set d | d in old(docs) && old(docs)[d].present && old(docs)[d].status == Extracting
      ensures docs == Recovered(old(docs))
      ensures docs.Keys == old(docs).Keys
      ensures forall d <- docs :: docs[d] == if d in recovered then old(docs)[d].(status := Uploaded) else old(docs)[d]
    {
      recovered := set d | d in docs && docs[d].present && docs[d].status == Extracting;
      var todo := recovered;
      while todo != {}
        invariant todo <= recovered
        invariant docs.Keys == old(docs).Keys
        invariant forall d <- docs ::
          docs[d] == if d in recovered - todo then old(docs)[d].(status := Uploaded) else old(docs)[d]
        decreases |todo|
      {
        var d :| d in todo;
        docs := docs[d := docs[d].(status := Uploaded)];
        todo := todo - {d};
      }
      assert forall d <- docs :: docs[d] == Recovered(old(docs))[d];
    }
  }

  /** The documents after `run_extraction` persisted its outcome. */
  function Settle(docs: map<DocId, Doc>, d: DocId, outcome: Outcome): map<DocId, Doc> {
    match outcome
    case Result(roleMatch) => SetStatus(docs, d, if roleMatch then Extracted else RoleReview)
    case Raised => SetStatus(docs, d, Failed)
    case NothingSaved => docs
  }

  function DeliveryPath(m: nat, ran: bool, outcome: Outcome): seq<Event> {
    if ran then [Receive(0, m), Look(0)] + [ClaimAgain(0), outcome.Event(), Delete(0)]
    else [Receive(0, m), Look(0), Delete(0)]
  }

  /** The state while worker 0 has message m in hand. */
  function InHand(s: State, m: nat, phase: Phase): State
    requires m < |s.msgs|
  {
    s.(msgs := s.msgs[m := s.msgs[m].(place := Hidden, receives := s.msgs[m].receives + 1)],
       workers := map[0 := Worker(m, phase)])
  }

  lemma PickUpGoes(f: Faults, s: State, m: nat)
    requires s.workers == map[] && m < |s.msgs|
    requires s.msgs[m].place == Visible && s.msgs[m].receives < f.maxReceives
    ensures Enabled(f, s, Receive(0, m)) && Enabled(f, Apply(f, s, Receive(0, m)), Look(0))
    ensures Apply(f, Apply(f, s, Receive(0, m)), Look(0))
      == InHand(s, m, if Claimable(s.docs, s.msgs[m].doc, WORKER_CLAIM_FROM) then Claiming else Disposing)
  {
    assert Apply(f, s, Receive(0, m)) == InHand(s, m, Received);
  }

  lemma OutcomeGoes(f: Faults, s: State, m: nat, outcome: Outcome)
    requires m < |s.msgs| && Claimable(s.docs, s.msgs[m].doc, WORKER_CLAIM_FROM)
    requires outcome == NothingSaved ==> !Saves(f)
    ensures
      var held := InHand(s, m, Claiming);
      && Enabled(f, held, ClaimAgain(0))
      && Apply(f, held, ClaimAgain(0)) == InHand(s, m, Running)
      && Enabled(f, InHand(s, m, Running), outcome.Event())
      && Apply(f, InHand(s, m, Running), outcome.Event())
         == InHand(s, m, Disposing).(docs := Settle(s.docs, s.msgs[m].doc, outcome))
  {
    match outcome {
      case Result(_) =>
      case Raised =>
      case NothingSaved =>
    }
  }

  /** Deleting message m ends the delivery that has it in hand. */
  lemma DeleteGoes(f: Faults, s: State, m: nat, docs: map<DocId, Doc>)
    requires s.workers == map[] && m < |s.msgs|
    ensures
      var held := InHand(s, m, Disposing).(docs := docs);
      var msg := s.msgs[m];
      && Enabled(f, held, Delete(0))
      && Apply(f, held, Delete(0))
         == s.(msgs := s.msgs[m := msg.(place := Gone, receives := msg.receives + 1)], docs := docs)
  {
  }

  /** To the protocol, a worker that leaves its message alone is one that died. */
  lemma LeftAlone(f: Faults, s: State, m: nat)
    requires s.workers == map[] && m < |s.msgs|
    requires s.msgs[m].place == Visible && s.msgs[m].receives < f.maxReceives
    ensures Goes(f, s, [Receive(0, m), Crash(0)],
      s.(msgs := s.msgs[m := s.msgs[m].(place := Hidden, receives := s.msgs[m].receives + 1)]))
  {
    var t := s.(msgs := s.msgs[m := s.msgs[m].(place := Hidden, receives := s.msgs[m].receives + 1)]);
    assert Apply(f, s, Receive(0, m)) == t.(workers := map[0 := Worker(m, Received)]);
    assert Apply(f, Apply(f, s, Receive(0, m)), Crash(0)) == t;
    TwoSteps(f, s, Receive(0, m), Crash(0), t);
  }

  lemma DeliveryGoes(f: Faults, s: State, m: nat, outcome: Outcome, t: State)
    requires s.workers == map[] && m < |s.msgs|
    requires s.msgs[m].place == Visible && s.msgs[m].receives < f.maxReceives
    requires outcome == NothingSaved ==> !Saves(f)
    requires
      var d, msg := s.msgs[m].doc, s.msgs[m];
      var ran := Claimable(s.docs, d, WORKER_CLAIM_FROM);
      t == s.(msgs := s.msgs[m := msg.(place := Gone, receives := msg.receives + 1)],
              docs := if ran then Settle(s.docs, d, outcome) else s.docs)
    ensures Goes(f, s, DeliveryPath(m, Claimable(s.docs, s.msgs[m].doc, WORKER_CLAIM_FROM), outcome), t)
  {
    PickUpGoes(f, s, m);
    DeleteGoes(f, s, m, t.docs);
    if Claimable(s.docs, s.msgs[m].doc, WORKER_CLAIM_FROM) {
      OutcomeGoes(f, s, m, outcome);
      ThreeSteps(f, InHand(s, m, Claiming), ClaimAgain(0), outcome.Event(), Delete(0), t);
    } else {
      ThreeSteps(f, s, Receive(0, m), Look(0), Delete(0), t);
    }
  }

  function Recovered(docs: map<DocId, Doc>): map<DocId, Doc> {
    map d | d in docs ::
      if docs[d].present && docs[d].status == Extracting then docs[d].(status := Uploaded) else docs[d]
  }

  lemma TwoSteps(f: Faults, s: State, e1: Event, e2: Event, t: State)
    requires Enabled(f, s, e1) && Enabled(f, Apply(f, s, e1), e2) && t == Apply(f, Apply(f, s, e1), e2)
    ensures Goes(f, s, [e1, e2], t)
  {
    var s1 := Apply(f, s, e1);
    assert [e1, e2][1..] == [e2] && [e2][1..] == [];
    assert Goes(f, t, [], t) && Goes(f, s1, [e2], t);
  }

  lemma ThreeSteps(f: Faults, s: State, e1: Event, e2: Event, e3: Event, t: State)
    requires Enabled(f, s, e1)
    requires Enabled(f, Apply(f, s, e1), e2) && Enabled(f, Apply(f, Apply(f, s, e1), e2), e3)
    requires t == Apply(f, Apply(f, Apply(f, s, e1), e2), e3)
    ensures Goes(f, s, [e1, e2, e3], t)
  {
    TwoSteps(f, Apply(f, s, e1), e2, e3, t);
    assert [e1, e2, e3][1..] == [e2, e3];
  }
}
