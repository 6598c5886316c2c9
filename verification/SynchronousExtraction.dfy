/** Extraction without a queue: a request claims and runs in one call.

    Here the guarded UPDATE alone keeps runs apart, and the sweep at the start of a
    process is what releases the claims of a dead one. */
module SynchronousExtraction {
  import opened Documents
  import opened ExtractionQueue
  import opened ExtractionService

  /** A request at work on a document, in one of the server's processes. */
  datatype Task = Task(doc: DocId, process: nat)

  /** `runs` holds the live calls of `run_extraction`. */
  datatype Sync = Sync(docs: map<DocId, Doc>, runs: map<nat, Task>, reattaching: map<nat, Task>)

  /** `race`: a claim may land between a re-attach's read and its write. */
  datatype Deployment = Deployment(race: bool, processes: pos)

  datatype Request =
    | Attach(d: DocId)
    | Detach(d: DocId)
    | Decide(d: DocId, accept: bool)
    | RereadFailed(h: nat, task: Task)
    | ResetFailed(h: nat)
    | Begin(r: nat, task: Task)
    | End(r: nat, outcome: Outcome)
    | Restart(process: nat)

  ghost predicate Possible(dep: Deployment, s: Sync, q: Request) {
    match q
    case Attach(d) => d !in s.docs
    case Detach(d) => d in s.docs && s.docs[d].present
    case Decide(d, _) => Claimable(s.docs, d, {RoleReview})
    case RereadFailed(h, task) =>
      h !in s.reattaching && task.process < dep.processes && Claimable(s.docs, task.doc, {Failed})
    case ResetFailed(h) => h in s.reattaching
    case Begin(r, task) =>
      && r !in s.runs && task.process < dep.processes
      && (dep.race || forall h <- s.reattaching :: s.reattaching[h].doc != task.doc)
    case End(r, _) => r in s.runs
    case Restart(process) => process < dep.processes
  }

  /** The tasks that a dying process takes with it are gone. */
  function Surviving(tasks: map<nat, Task>, process: nat): map<nat, Task> {
    map k | k in tasks && tasks[k].process != process :: tasks[k]
  }

  ghost function After(dep: Deployment, s: Sync, q: Request): Sync
    requires Possible(dep, s, q)
  {
    match q
    case Attach(d) => s.(docs := s.docs[d := Doc(Uploaded, 0, true)])
    case Detach(d) => s.(docs := s.docs[d := s.docs[d].(present := false)])
    case Decide(d, accept) => s.(docs := SetStatus(s.docs, d, if accept then Extracted else RoleRejected))
    case RereadFailed(h, task) => s.(reattaching := s.reattaching[h := task])
    case ResetFailed(h) =>
      s.(docs := SetStatus(s.docs, s.reattaching[h].doc, Uploaded), reattaching := s.reattaching - {h})
    case Begin(r, task) =>
      if Claimable(s.docs, task.doc, RETRIABLE) then
        s.(docs := Claim(s.docs, task.doc), runs := s.runs[r := task])
      else s
    case End(r, outcome) => s.(docs := Settle(s.docs, s.runs[r].doc, outcome), runs := s.runs - {r})
    case Restart(process) =>
      Sync(Recovered(s.docs), Surviving(s.runs, process), Surviving(s.reattaching, process))
  }

  const STARTED: Sync := Sync(map[], map[], map[])

  ghost predicate IsHistory(dep: Deployment, requests: seq<Request>, trace: seq<Sync>) {
    && |trace| == |requests| + 1
    && trace[0] == STARTED
    && forall i | 0 <= i < |requests| ::
         Possible(dep, trace[i], requests[i]) && trace[i + 1] == After(dep, trace[i], requests[i])
  }

  ghost predicate Reaches(dep: Deployment, s: Sync) {
    exists requests, trace :: IsHistory(dep, requests, trace) && trace[|requests|] == s
  }

  ghost predicate OneRunPerDocument(s: Sync) {
    forall q, r | q in s.runs && r in s.runs && s.runs[q].doc == s.runs[r].doc :: q == r
  }

  /** Every pending write will find the status that its writer saw or set: a live run its
      claim, a re-attach a document that nobody has claimed since. */
  ghost predicate WritesFresh(s: Sync) {
    && (forall r <- s.runs :: s.runs[r].doc in s.docs && s.docs[s.runs[r].doc].status == Extracting)
    && (forall h <- s.reattaching ::
          s.reattaching[h].doc in s.docs && s.docs[s.reattaching[h].doc].status in RETRIABLE)
  }

  ghost predicate InOneProcess(s: Sync) {
    && (forall r <- s.runs :: s.runs[r].process == 0)
    && (forall h <- s.reattaching :: s.reattaching[h].process == 0)
  }

  ghost predicate Exclusive(s: Sync) { OneRunPerDocument(s) && WritesFresh(s) && InOneProcess(s) }

  predicate Isolated(dep: Deployment) { !dep.race && dep.processes == 1 }

  lemma ExclusiveStep(dep: Deployment, s: Sync, q: Request)
    requires Isolated(dep) && Exclusive(s) && Possible(dep, s, q)
    ensures Exclusive(After(dep, s, q))
  {
  }

  lemma ExclusiveAlways(dep: Deployment, s: Sync)
    requires Isolated(dep) && Reaches(dep, s)
    ensures OneRunPerDocument(s) && WritesFresh(s)
  {
    var requests, trace :| IsHistory(dep, requests, trace) && trace[|requests|] == s;
    for i := 0 to |requests|
      invariant Exclusive(trace[i])
    {
      ExclusiveStep(dep, trace[i], requests[i]);
    }
  }

  lemma Continue(dep: Deployment, s: Sync, q: Request) returns (t: Sync)
    requires Reaches(dep, s) && Possible(dep, s, q)
    ensures Reaches(dep, t) && t == After(dep, s, q)
  {
    t := After(dep, s, q);
    var requests, trace :| IsHistory(dep, requests, trace) && trace[|requests|] == s;
    var requests', trace' := requests + [q], trace + [t];
    assert IsHistory(dep, requests', trace') && trace'[|requests'|] == t;
  }

  /** Run 0 works on document 0 in process 0. */
  lemma FirstCall(dep: Deployment) returns (s: Sync)
    ensures Reaches(dep, s)
    ensures s == Sync(map[0 := Doc(Extracting, 1, true)], map[0 := Task(0, 0)], map[])
  {
    s := STARTED;
    var none: seq<Request> := [];
    assert IsHistory(dep, none, [s]) && [s][|none|] == s;
    s := Continue(dep, s, Attach(0));
    s := Continue(dep, s, Begin(0, Task(0, 0)));
  }

  /** A second run starts after a re-attach has reset the first one's claim. */
  lemma ReattachStartsSecondRun(dep: Deployment) returns (s: Sync)
    requires dep.race
    ensures Reaches(dep, s) && !OneRunPerDocument(s)
  {
    s := FirstCall(dep);
    s := Continue(dep, s, End(0, Raised));
    s := Continue(dep, s, RereadFailed(0, Task(0, 0)));
    s := Continue(dep, s, Begin(1, Task(0, 0)));
    s := Continue(dep, s, ResetFailed(0));
    s := Continue(dep, s, Begin(2, Task(0, 0)));
    assert s.runs[1].doc == s.runs[2].doc;
  }

  /** A process that starts takes the live claims of another process for a dead one's. */
  lemma RestartStartsSecondRun(dep: Deployment) returns (s: Sync)
    requires dep.processes > 1
    ensures Reaches(dep, s) && !OneRunPerDocument(s)
  {
    s := FirstCall(dep);
    s := Continue(dep, s, Restart(1));
    s := Continue(dep, s, Begin(1, Task(0, 0)));
    assert s.runs[0].doc == s.runs[1].doc;
  }

  /** In any history of requests, failures and restarts, the guarded UPDATE keeps
      extractions of one document apart, exactly if there is one process and no claim
      slips into a re-attach. */
  lemma OneRunPerDocumentExactly(dep: Deployment)
    ensures (forall s :: Reaches(dep, s) ==> OneRunPerDocument(s)) <==> !dep.race && dep.processes == 1
  {
    if dep.race {
      var s := ReattachStartsSecondRun(dep);
      assert !(Reaches(dep, s) ==> OneRunPerDocument(s));
    } else if dep.processes > 1 {
      var s := RestartStartsSecondRun(dep);
      assert !(Reaches(dep, s) ==> OneRunPerDocument(s));
    } else {
      forall s | Reaches(dep, s) ensures OneRunPerDocument(s) {
        ExclusiveAlways(dep, s);
      }
    }
  }
}
