/** The worker's dispatch loop: receive no more than there is room for, and hand every
    received message to exactly one task. */
module WorkerDispatch {
  import opened Options

  /** One turn: the tasks that have finished by now, and what the queue answers if it is
      asked for `MaxNumberOfMessages`; None is a failed receive. */
  datatype Turn = Turn(finished: set<nat>, answer: Option<seq<nat>>)

  function Min(a: nat, b: nat): nat { if a < b then a else b }

  function Members(ms: seq<nat>): set<nat> { set i | 0 <= i < |ms| :: ms[i] }

  lemma {:induction false} MembersCount(ms: seq<nat>)
    ensures |Members(ms)| <= |ms|
  {
    if ms == [] {
      assert Members(ms) == {};
    } else {
      var front := ms[..|ms| - 1];
      MembersCount(front);
      assert Members(ms) == Members(front) + {ms[|ms| - 1]};
    }
  }

  class Dispatcher {
    const concurrency: nat
    var inflight: set<nat>      // deliveries being worked on
    var submitted: seq<nat>     // every delivery handed to the pool, in order

    ghost predicate Valid()
      reads this
    {
      |inflight| <= concurrency && inflight <= Members(submitted)
    }

    constructor (concurrency: nat)
      ensures Valid() && this.concurrency == concurrency && inflight == {} && submitted == []
    {
      this.concurrency := concurrency;
      inflight, submitted := {}, [];
    }

    /** How many messages may be asked for. */
    function Room(finished: set<nat>): (n: nat)
      reads this
      ensures n <= 10 && (|inflight - finished| <= concurrency ==> n + |inflight - finished| <= concurrency)
      ensures n < 10 && |inflight - finished| <= concurrency ==> n + |inflight - finished| == concurrency
    {
      if |inflight - finished| >= concurrency then 0 else Min(10, concurrency - |inflight - finished|)
    }

    /** Every message received becomes one task. */
    method Submit(ms: seq<nat>)
      modifies `inflight, `submitted
      ensures submitted == old(submitted) + ms && inflight == old(inflight) + Members(ms)
    {
      assert Members(ms[..0]) == {};
      for i := 0 to |ms|
        invariant submitted == old(submitted) + ms[..i]
        invariant inflight == old(inflight) + Members(ms[..i])
      {
        assert ms[..i + 1] == ms[..i] + [ms[i]];
        MembersAppend(ms[..i], [ms[i]]);
        assert Members([ms[i]]) == {ms[i]};
        submitted := submitted + [ms[i]];
        inflight := inflight + {ms[i]};
      }
      assert ms[..|ms|] == ms;
    }

    /** One turn of the loop.  The queue honours the number it is asked for; without
        room it is not asked. */
    method Step(turn: Turn)
      requires Valid() && (turn.answer.Some? ==> |turn.answer.value| <= Room(turn.finished))
      modifies this
      ensures Valid()
      ensures var asked := |old(inflight) - turn.finished| < concurrency && turn.answer.Some?;
        && submitted == (if asked then old(submitted) + turn.answer.value else old(submitted))
        && inflight == old(inflight) - turn.finished + (if asked then Members(turn.answer.value) else {})
    {
      hide Members;
      var room := Room(turn.finished);
      SubsetCount(inflight - turn.finished, inflight);
      if room == 0 || turn.answer.None? {
        inflight := inflight - turn.finished;
        return;
      }
      var ms := turn.answer.value;
      MembersCount(ms);
      MembersAppend(submitted, ms);
      inflight := inflight - turn.finished;
      Submit(ms);
    }
  }

  lemma SubsetCount(a: set<nat>, b: set<nat>)
    requires a <= b
    ensures |a| <= |b|
  {
    assert b == a + (b - a);
  }

  lemma MembersAppend(a: seq<nat>, b: seq<nat>)
    ensures Members(a + b) == Members(a) + Members(b)
  {
    forall m
      ensures m in Members(a + b) <==> m in Members(a) + Members(b)
    {
      if m in Members(b) {
        var j :| 0 <= j < |b| && b[j] == m;
        assert (a + b)[|a| + j] == m;
      }
      if m in Members(a) {
        var i :| 0 <= i < |a| && a[i] == m;
        assert (a + b)[i] == m;
      }
    }
  }
}
