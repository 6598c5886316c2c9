/** The in-process job lock: a reference-counted table of locks, whose entries are
    removed while other threads may be arriving. */
module JobLockTable {

  type JobId = nat
  type ThreadId = nat

  /** Locks are named by the order in which they were created. */
  type LockId = nat

  /** The two dictionaries behind the guard. */
  datatype Table = Table(locks: map<JobId, LockId>, waiters: map<JobId, int>, created: nat)

  const EMPTY: Table := Table(map[], map[], 0)

  function Arrived(t: Table, job: JobId): Table {
    var lock := if job in t.locks then t.locks[job] else t.created;
    var count := if job in t.waiters then t.waiters[job] else 0;
    Table(t.locks[job := lock], t.waiters[job := count + 1], t.created + 1)
  }

  function Departed(t: Table, job: JobId): Table {
    var remaining := (if job in t.waiters then t.waiters[job] else 1) - 1;
    if remaining > 0 then t.(waiters := t.waiters[job := remaining])
    else t.(locks := t.locks - {job}, waiters := t.waiters - {job})
  }

  /** The code of the two guarded sections. */
  class LockTable {
    var locks: map<JobId, LockId>
    var waiters: map<JobId, int>
    var created: nat

    function Value(): Table
      reads this
    {
      Table(locks, waiters, created)
    }

    constructor ()
      ensures Value() == EMPTY && locks == map[] && waiters == map[]
    {
      locks, waiters, created := map[], map[], 0;
    }

    /** `setdefault` makes a lock whether or not it is used. */
    method Arrive(job: JobId) returns (lock: LockId)
      modifies this
      ensures Value() == Arrived(old(Value()), job)
      ensures job in locks && lock == locks[job]
      ensures locks == old(locks)[job := lock] && (job in old(locks) ==> lock == old(locks)[job])
      ensures waiters == old(waiters)[job := if job in old(waiters) then old(waiters)[job] + 1 else 1]
    {
      lock := created;
      created := created + 1;
      if job in locks {
        lock := locks[job];
      } else {
        locks := locks[job := lock];
      }
      waiters := waiters[job := (if job in waiters then waiters[job] else 0) + 1];
    }

    method Depart(job: JobId)
      modifies this
      ensures Value() == Departed(old(Value()), job)
      ensures job in old(waiters) && old(waiters)[job] > 1 ==>
        waiters == old(waiters)[job := old(waiters)[job] - 1] && locks == old(locks)
      ensures job !in old(waiters) || old(waiters)[job] <= 1 ==>
        waiters == old(waiters) - {job} && locks == old(locks) - {job}
    {
      var remaining := (if job in waiters then waiters[job] else 1) - 1;
      if remaining > 0 {
        waiters := waiters[job := remaining];
      } else {
        waiters := waiters - {job};
        locks := locks - {job};
      }
    }
  }

  // ---- any number of threads ---------------------------------------------------- //

  datatype Where =
    | Queued(job: JobId, lock: LockId)     // counted, waiting for the lock
    | Critical(job: JobId, lock: LockId)   // inside `with lock`
    | Leaving(job: JobId, lock: LockId)    // lock released, not yet uncounted

  /** `threads` holds the threads between entry and exit. */
  datatype System = System(table: Table, threads: map<ThreadId, Where>)

  datatype Step =
    | Enter(t: ThreadId, job: JobId)
    | Acquire(t: ThreadId)
    | Abandon(t: ThreadId)                 // an exception while queued
    | Release(t: ThreadId)
    | Exit(t: ThreadId)

  predicate Taken(s: System, lock: LockId) {
    exists t <- s.threads :: s.threads[t].Critical? && s.threads[t].lock == lock
  }

  predicate Enabled(s: System, e: Step) {
    match e
    case Enter(t, _) => t !in s.threads
    case Acquire(t) => t in s.threads && s.threads[t].Queued? && !Taken(s, s.threads[t].lock)
    case Abandon(t) => t in s.threads && s.threads[t].Queued?
    case Release(t) => t in s.threads && s.threads[t].Critical?
    case Exit(t) => t in s.threads && s.threads[t].Leaving?
  }

  function Apply(s: System, e: Step): System
    requires Enabled(s, e)
  {
    match e
    case Enter(t, job) =>
      var table := Arrived(s.table, job);
      System(table, s.threads[t := Queued(job, table.locks[job])])
    case Acquire(t) => s.(threads := s.threads[t := Critical(s.threads[t].job, s.threads[t].lock)])
    case Abandon(t) => s.(threads := s.threads[t := Leaving(s.threads[t].job, s.threads[t].lock)])
    case Release(t) => s.(threads := s.threads[t := Leaving(s.threads[t].job, s.threads[t].lock)])
    case Exit(t) => System(Departed(s.table, s.threads[t].job), s.threads - {t})
  }

  ghost predicate Run(steps: seq<Step>, trace: seq<System>) {
    && |trace| == |steps| + 1
    && trace[0] == System(EMPTY, map[])
    && forall i | 0 <= i < |steps| ::
         Enabled(trace[i], steps[i]) && trace[i + 1] == Apply(trace[i], steps[i])
  }

  // ---- what every reachable state satisfies --------------------------------------- //

  function Users(s: System, job: JobId): set<ThreadId> {
    set t | t in s.threads && s.threads[t].job == job
  }

  /** Every thread between entry and exit has the lock object the table names. */
  ghost predicate SameLock(s: System) {
    forall t <- s.threads ::
      s.threads[t].job in s.table.locks && s.table.locks[s.threads[t].job] == s.threads[t].lock
  }

  ghost predicate CountsUsers(s: System) {
    && s.table.waiters.Keys == s.table.locks.Keys
    && (forall job :: job in s.table.locks <==> Users(s, job) != {})
    && (forall job <- s.table.waiters :: s.table.waiters[job] == |Users(s, job)|)
  }

  ghost predicate MutualExclusion(s: System) {
    forall t, u | t in s.threads && u in s.threads
      && s.threads[t].Critical? && s.threads[u].Critical? && s.threads[t].job == s.threads[u].job ::
      t == u
  }

  /** Jobs never share a lock, so one job never waits for another. */
  ghost predicate OwnLocks(s: System) {
    && (forall j, k | j in s.table.locks && k in s.table.locks && s.table.locks[j] == s.table.locks[k] :: j == k)
    && (forall j <- s.table.locks :: s.table.locks[j] < s.table.created)
  }

  ghost predicate Consistent(s: System) {
    SameLock(s) && CountsUsers(s) && MutualExclusion(s) && OwnLocks(s)
  }

  lemma UsersStep(s: System, e: Step, job: JobId)
    requires Enabled(s, e)
    ensures
      var users := Users(Apply(s, e), job);
      match e
      case Enter(t, j) => users == if j == job then Users(s, job) + {t} else Users(s, job)
      case Exit(t) => users == Users(s, job) - {t}
      case _ => users == Users(s, job)
  {
  }

  lemma CountsJobStep(s: System, e: Step, job: JobId)
    requires CountsUsers(s) && Enabled(s, e)
    ensures
      var s' := Apply(s, e);
      && (job in s'.table.locks <==> Users(s', job) != {})
      && (job in s'.table.waiters ==> s'.table.waiters[job] == |Users(s', job)|)
  {
    UsersStep(s, e, job);
    var users := Users(s, job);
    if e.Enter? && e.job == job {
      assert e.t !in users && |users + {e.t}| == |users| + 1;
    } else if e.Exit? && s.threads[e.t].job == job {
      assert e.t in users && |users - {e.t}| == |users| - 1;
      assert users - {e.t} == {} <==> |users| == 1;
    }
    hide Users;
  }

  lemma CountsUsersStep(s: System, e: Step)
    requires CountsUsers(s) && Enabled(s, e)
    ensures CountsUsers(Apply(s, e))
  {
    hide Users;
    forall job
      ensures job in Apply(s, e).table.locks <==> Users(Apply(s, e), job) != {}
      ensures job in Apply(s, e).table.waiters ==> Apply(s, e).table.waiters[job] == |Users(Apply(s, e), job)|
    {
      CountsJobStep(s, e, job);
    }
  }

  lemma SameLockStep(s: System, e: Step)
    requires SameLock(s) && CountsUsers(s) && Enabled(s, e)
    ensures SameLock(Apply(s, e))
  {
    var s' := Apply(s, e);
    if e.Exit? {
      var job := s.threads[e.t].job;
      forall t | t in s'.threads && s'.threads[t].job == job ensures job in s'.table.locks {
        assert {t, e.t} <= Users(s, job);
        TwoMembers(Users(s, job), t, e.t);
      }
    }
  }

  lemma TwoMembers(xs: set<ThreadId>, a: ThreadId, b: ThreadId)
    requires a in xs && b in xs && a != b
    ensures |xs| >= 2
  {
    assert |xs - {a}| == |xs| - 1 && b in xs - {a};
  }

  /** One step, whichever thread takes it, keeps all four. */
  lemma ConsistentStep(s: System, e: Step)
    requires Consistent(s) && Enabled(s, e)
    ensures Consistent(Apply(s, e))
  {
    CountsUsersStep(s, e);
    SameLockStep(s, e);
    OwnLocksStep(s, e);
  }

  lemma OwnLocksStep(s: System, e: Step)
    requires OwnLocks(s) && Enabled(s, e)
    ensures OwnLocks(Apply(s, e))
  {
    if e.Enter? && e.job !in s.table.locks {
      assert Apply(s, e).table.locks[e.job] == s.table.created;
    }
  }

  /** In every run, at every moment: one lock per job in use, an exact count, at
      most one thread per job in the critical section, and entries for exactly the
      jobs in use - so both dictionaries are empty once every thread has left. */
  lemma LockTableSafe(steps: seq<Step>, trace: seq<System>, n: nat)
    requires Run(steps, trace) && n <= |steps|
    ensures Consistent(trace[n])
    ensures trace[n].threads == map[] ==> trace[n].table.locks == map[] && trace[n].table.waiters == map[]
  {
    for i := 0 to n
      invariant Consistent(trace[i])
    {
      ConsistentStep(trace[i], steps[i]);
    }
    var s := trace[n];
    if s.threads == map[] {
      assert forall job :: Users(s, job) == {};
    }
  }

  /** A thread that waits can always be served: if it cannot acquire its lock,
      another thread of the same job is in the critical section. */
  lemma WaitsOnlyForItsJob(steps: seq<Step>, trace: seq<System>, n: nat, t: ThreadId)
    requires Run(steps, trace) && n <= |steps|
    requires t in trace[n].threads && trace[n].threads[t].Queued?
    ensures !Enabled(trace[n], Acquire(t)) <==>
      exists u <- trace[n].threads ::
        trace[n].threads[u].Critical? && trace[n].threads[u].job == trace[n].threads[t].job
  {
    LockTableSafe(steps, trace, n);
  }

  // ---- nobody is shut out --------------------------------------------------------- //

  lemma Extend(steps: seq<Step>, trace: seq<System>, e: Step) returns (steps': seq<Step>, trace': seq<System>)
    requires Run(steps, trace) && Enabled(trace[|steps|], e)
    ensures Run(steps', trace') && steps' == steps + [e] && trace' == trace + [Apply(trace[|steps|], e)]
  {
    steps', trace' := steps + [e], trace + [Apply(trace[|steps|], e)];
  }

  /** The thread inside is the only one in front of those that wait. */
  lemma FreedByRelease(s: System, u: ThreadId)
    requires Consistent(s) && u in s.threads && s.threads[u].Critical?
    ensures !Taken(Apply(s, Release(u)), s.threads[u].lock)
  {
    assert forall v <- s.threads ::
      s.threads[v].Critical? && s.threads[v].lock == s.threads[u].lock ==> s.threads[v].job == s.threads[u].job;
  }

  lemma Acquires(steps: seq<Step>, trace: seq<System>, t: ThreadId) returns (steps': seq<Step>, trace': seq<System>)
    requires Run(steps, trace) && t in trace[|steps|].threads && trace[|steps|].threads[t].Queued?
    ensures Run(steps', trace') && steps <= steps' && trace <= trace' && |steps'| <= |steps| + 2
    ensures var s := trace'[|steps'|];
      t in s.threads && s.threads[t] == Critical(trace[|steps|].threads[t].job, trace[|steps|].threads[t].lock)
  {
    steps', trace' := steps, trace;
    var s := trace[|steps|];
    LockTableSafe(steps, trace, |steps|);
    hide Run, Consistent;
    if Taken(s, s.threads[t].lock) {
      var u :| u in s.threads && s.threads[u].Critical? && s.threads[u].lock == s.threads[t].lock;
      FreedByRelease(s, u);
      steps', trace' := Extend(steps', trace', Release(u));
    }
    steps', trace' := Extend(steps', trace', Acquire(t));
  }

  /** Whatever has happened, a thread that arrives may give up while it waits, and is let
      in as soon as the thread in front of it, if there is one, leaves the section. */
  lemma ArrivalServed(steps: seq<Step>, trace: seq<System>, t: ThreadId, job: JobId)
    returns (steps': seq<Step>, trace': seq<System>)
    requires Run(steps, trace) && t !in trace[|steps|].threads
    ensures Run(steps', trace') && steps + [Enter(t, job)] <= steps' && |steps'| <= |steps| + 3
    ensures Enabled(trace'[|steps| + 1], Abandon(t))
    ensures var s := trace'[|steps'|]; t in s.threads && s.threads[t].Critical? && s.threads[t].job == job
  {
    var steps1, trace1 := Extend(steps, trace, Enter(t, job));
    hide Run;
    assert trace1[|steps1|].threads[t].Queued? && trace1[|steps1|].threads[t].job == job;
    steps', trace' := Acquires(steps1, trace1, t);
    assert trace'[|steps| + 1] == trace1[|steps1|];
  }

  /** No deadlock: from any state all threads can leave, and then both dictionaries are
      empty. */
  lemma {:induction false} Drains(steps: seq<Step>, trace: seq<System>) returns (steps': seq<Step>, trace': seq<System>)
    requires Run(steps, trace)
    ensures Run(steps', trace') && steps <= steps' && trace <= trace'
    ensures trace'[|steps'|].threads == map[]
    decreases |trace[|steps|].threads|
  {
    steps', trace' := steps, trace;
    var threads := trace[|steps|].threads;
    if threads != map[] {
      LockTableSafe(steps, trace, |steps|);
      var t :| t in threads;
      if u :| u in threads && threads[u].Critical? {
        t := u;
      }
      steps', trace' := Leaves(steps, trace, t);
      var left := threads - {t};
      assert left.Keys == threads.Keys - {t};
      assert |left.Keys| < |threads.Keys|;
      steps', trace' := Drains(steps', trace');
    }
  }

  lemma Leaves(steps: seq<Step>, trace: seq<System>, t: ThreadId) returns (steps': seq<Step>, trace': seq<System>)
    requires Run(steps, trace) && t in trace[|steps|].threads
    requires trace[|steps|].threads[t].Queued? ==>
      forall u <- trace[|steps|].threads :: !trace[|steps|].threads[u].Critical?
    ensures Run(steps', trace') && steps <= steps' && trace <= trace'
    ensures trace'[|steps'|].threads == trace[|steps|].threads - {t}
  {
    steps', trace' := steps, trace;
    var threads := trace[|steps|].threads;
    if threads[t].Queued? {
      steps', trace' := Extend(steps', trace', Acquire(t));
    }
    if threads[t].Queued? || threads[t].Critical? {
      steps', trace' := Extend(steps', trace', Release(t));
    }
    steps', trace' := Extend(steps', trace', Exit(t));
    assert trace'[|steps'|].threads == threads - {t};
  }
}
