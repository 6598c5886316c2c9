/** The login throttle and the two-window limiters for signups and password resets.

    Time is a whole number of microseconds. */
module Limiters {

  type Client = string

  datatype Row = Row(client: Client, at: int)

  const SECOND := 1_000_000

  // ---- logs and windows --------------------------------------------------------------------- //

  /** The client's stamps at or after `cutoff` among the first `n` rows. */
  function StampsTo(rows: seq<Row>, n: nat, client: Client, cutoff: int): (stamps: seq<int>)
    requires n <= |rows|
    ensures forall k | 0 <= k < |stamps| :: stamps[k] >= cutoff
  {
    if n == 0 then []
    else
      StampsTo(rows, n - 1, client, cutoff)
      + (if rows[n - 1].client == client && rows[n - 1].at >= cutoff then [rows[n - 1].at] else [])
  }

  function Stamps(rows: seq<Row>, client: Client, cutoff: int): seq<int> { StampsTo(rows, |rows|, client, cutoff) }

  /** How many of the client's stamps lie in (after, upto]. */
  function CountTo(rows: seq<Row>, n: nat, client: Client, after: int, upto: int): (c: nat)
    requires n <= |rows|
  {
    if n == 0 then 0
    else
      CountTo(rows, n - 1, client, after, upto)
      + (if rows[n - 1].client == client && after < rows[n - 1].at <= upto then 1 else 0)
  }

  function Count(rows: seq<Row>, client: Client, after: int, upto: int): nat {
    CountTo(rows, |rows|, client, after, upto)
  }

  /** Rows at or after `cutoff`: what a prune keeps. */
  function KeptTo(rows: seq<Row>, n: nat, cutoff: int): seq<Row>
    requires n <= |rows|
  {
    if n == 0 then []
    else KeptTo(rows, n - 1, cutoff) + (if rows[n - 1].at >= cutoff then [rows[n - 1]] else [])
  }

  function Kept(rows: seq<Row>, cutoff: int): seq<Row> { KeptTo(rows, |rows|, cutoff) }

  /** Rows are in the order of the clock, and nothing is later than `now`. */
  ghost predicate Ordered(rows: seq<Row>, now: int) {
    && (forall i, j | 0 <= i < j < |rows| :: rows[i].at < rows[j].at)
    && forall i | 0 <= i < |rows| :: rows[i].at <= now
  }

  lemma {:induction false} StampsPrefix(a: seq<Row>, b: seq<Row>, n: nat, client: Client, cutoff: int)
    requires n <= |a| && n <= |b| && forall i | 0 <= i < n :: a[i] == b[i]
    ensures StampsTo(a, n, client, cutoff) == StampsTo(b, n, client, cutoff)
  {
    if n > 0 {
      StampsPrefix(a, b, n - 1, client, cutoff);
    }
  }

  lemma StampsAppend(rows: seq<Row>, row: Row, client: Client, cutoff: int)
    ensures Stamps(rows + [row], client, cutoff)
         == Stamps(rows, client, cutoff) + (if row.client == client && row.at >= cutoff then [row.at] else [])
  {
    StampsPrefix(rows + [row], rows, |rows|, client, cutoff);
  }

  /** Pruning at `floor` changes no stamps from `cutoff` on, if `floor` is no later. */
  lemma {:induction false} PruneKeepsStamps(rows: seq<Row>, n: nat, client: Client, floor: int, cutoff: int)
    requires n <= |rows| && floor <= cutoff
    ensures Stamps(KeptTo(rows, n, floor), client, cutoff) == StampsTo(rows, n, client, cutoff)
  {
    if n > 0 {
      PruneKeepsStamps(rows, n - 1, client, floor, cutoff);
      if rows[n - 1].at >= floor {
        StampsAppend(KeptTo(rows, n - 1, floor), rows[n - 1], client, cutoff);
      } else {
        assert KeptTo(rows, n, floor) == KeptTo(rows, n - 1, floor);
      }
    }
  }

  /** Pruning twice is pruning at the later floor. */
  lemma {:induction false} KeptTwice(rows: seq<Row>, n: nat, a: int, b: int)
    requires n <= |rows| && a <= b
    ensures Kept(KeptTo(rows, n, a), b) == KeptTo(rows, n, b)
  {
    if n > 0 {
      KeptTwice(rows, n - 1, a, b);
      if rows[n - 1].at >= a {
        KeptAppend(KeptTo(rows, n - 1, a), rows[n - 1], b);
      } else {
        assert KeptTo(rows, n, a) == KeptTo(rows, n - 1, a);
      }
    }
  }

  lemma KeptAppend(rows: seq<Row>, row: Row, cutoff: int)
    ensures Kept(rows + [row], cutoff) == Kept(rows, cutoff) + (if row.at >= cutoff then [row] else [])
  {
    KeptPrefix(rows + [row], rows, |rows|, cutoff);
  }

  lemma {:induction false} KeptPrefix(a: seq<Row>, b: seq<Row>, n: nat, cutoff: int)
    requires n <= |a| && n <= |b| && forall i | 0 <= i < n :: a[i] == b[i]
    ensures KeptTo(a, n, cutoff) == KeptTo(b, n, cutoff)
  {
    if n > 0 {
      KeptPrefix(a, b, n - 1, cutoff);
    }
  }

  // ---- decisions -------------------------------------------------------------------------------- //

  /** Microseconds until the oldest stamp of a full window ages out; 0 while the window
      is not full. */
  function WindowWait(rows: seq<Row>, client: Client, now: int, window: int, most: nat): int
    requires most > 0
  {
    var stamps := Stamps(rows, client, now - window);
    if |stamps| < most then 0 else stamps[0] + window - now
  }

  function Max(a: int, b: int): int { if a < b then b else a }

  /** Whole seconds, at least one. */
  function Seconds(wait: int): int
    requires wait >= 0
  {
    Max(1, wait / SECOND)
  }

  const FAILURE_WINDOW := 300 * SECOND

  const MAX_FAILURES := 10

  /** `throttle_retry_after`. */
  function ThrottleRetryAfter(rows: seq<Row>, client: Client, now: int): int
    requires Ordered(rows, now)
  {
    var stamps := Stamps(rows, client, now - FAILURE_WINDOW);
    if |stamps| < MAX_FAILURES then 0 else Seconds(stamps[0] + FAILURE_WINDOW - now)
  }

  const HOUR := 3600 * SECOND

  const DAY := 86400 * SECOND

  /** 3 and 10 for signups, 5 and 20 for password resets. */
  datatype Limits = Limits(perHour: nat, perDay: nat) {
    predicate Valid() { perHour > 0 && perDay > 0 }
  }

  const SIGNUP := Limits(3, 10)

  const PASSWORD_RESET := Limits(5, 20)

  /** `signup_retry_after` and `password_reset_retry_after`. */
  function RetryAfter(l: Limits, rows: seq<Row>, client: Client, now: int): int
    requires l.Valid() && Ordered(rows, now)
  {
    var wait := Max(WindowWait(rows, client, now, HOUR, l.perHour), WindowWait(rows, client, now, DAY, l.perDay));
    if wait > 0 then Seconds(wait) else 0
  }

  // ---- a pruned store decides like the full log ------------------------------------------------------ //

  lemma {:induction false} KeptOrdered(rows: seq<Row>, n: nat, cutoff: int, now: int)
    requires n <= |rows| && Ordered(rows, now)
    ensures Ordered(KeptTo(rows, n, cutoff), now)
    ensures n > 0 ==> forall i | 0 <= i < |KeptTo(rows, n, cutoff)| :: KeptTo(rows, n, cutoff)[i].at <= rows[n - 1].at
  {
    if n > 0 {
      KeptOrdered(rows, n - 1, cutoff, now);
    }
  }

  /** Whatever the limits: pruned at the longest window, every later decision for every
      client is the one the full log gives. */
  lemma PrunedDecidesAlike(l: Limits, rows: seq<Row>, client: Client, prunedAt: int, now: int)
    requires l.Valid() && Ordered(rows, now) && prunedAt <= now
    ensures Ordered(Kept(rows, prunedAt - DAY), now)
    ensures RetryAfter(l, Kept(rows, prunedAt - DAY), client, now) == RetryAfter(l, rows, client, now)
  {
    KeptOrdered(rows, |rows|, prunedAt - DAY, now);
    PruneKeepsStamps(rows, |rows|, client, prunedAt - DAY, now - HOUR);
    PruneKeepsStamps(rows, |rows|, client, prunedAt - DAY, now - DAY);
  }

  lemma PrunedThrottlesAlike(rows: seq<Row>, client: Client, prunedAt: int, now: int)
    requires Ordered(rows, now) && prunedAt <= now
    ensures Ordered(Kept(rows, prunedAt - FAILURE_WINDOW), now)
    ensures ThrottleRetryAfter(Kept(rows, prunedAt - FAILURE_WINDOW), client, now) == ThrottleRetryAfter(rows, client, now)
  {
    KeptOrdered(rows, |rows|, prunedAt - FAILURE_WINDOW, now);
    PruneKeepsStamps(rows, |rows|, client, prunedAt - FAILURE_WINDOW, now - FAILURE_WINDOW);
  }

  // ---- windows are bounded ---------------------------------------------------------------------------- //

  lemma {:induction false} CountPrefix(a: seq<Row>, b: seq<Row>, n: nat, client: Client, after: int, upto: int)
    requires n <= |a| && n <= |b| && forall i | 0 <= i < n :: a[i] == b[i]
    ensures CountTo(a, n, client, after, upto) == CountTo(b, n, client, after, upto)
  {
    if n > 0 {
      CountPrefix(a, b, n - 1, client, after, upto);
    }
  }

  lemma CountAppend(rows: seq<Row>, row: Row, client: Client, after: int, upto: int)
    ensures Count(rows + [row], client, after, upto)
         == Count(rows, client, after, upto) + (if row.client == client && after < row.at <= upto then 1 else 0)
  {
    CountPrefix(rows + [row], rows, |rows|, client, after, upto);
  }

  /** A wider window, as far as there are rows, counts at least as much. */
  lemma {:induction false} CountWider(rows: seq<Row>, n: nat, client: Client, after: int, upto: int, after': int, upto': int)
    requires n <= |rows| && after' <= after
    requires forall i | 0 <= i < n :: rows[i].at <= upto ==> rows[i].at <= upto'
    ensures CountTo(rows, n, client, after, upto) <= CountTo(rows, n, client, after', upto')
  {
    if n > 0 {
      CountWider(rows, n - 1, client, after, upto, after', upto');
    }
  }

  /** Stamps from a cutoff on are the half-open count, and the one at the cutoff. */
  lemma {:induction false} StampsCount(rows: seq<Row>, n: nat, client: Client, cutoff: int, upto: int)
    requires n <= |rows| && forall i | 0 <= i < n :: rows[i].at <= upto
    ensures |StampsTo(rows, n, client, cutoff)| == CountTo(rows, n, client, cutoff - 1, upto)
  {
    if n > 0 {
      StampsCount(rows, n - 1, client, cutoff, upto);
    }
  }

  /** No half-open window of that length holds more than `most` of one client's rows. */
  ghost predicate Bounded(rows: seq<Row>, window: int, most: nat) {
    forall client, after: int, upto: int :: upto - after == window ==> Count(rows, client, after, upto) <= most
  }

  lemma {:induction false} CountEdge(rows: seq<Row>, n: nat, client: Client, cutoff: int, upto: int, i: nat)
    requires i < n <= |rows| && rows[i] == Row(client, cutoff) && cutoff <= upto
    ensures CountTo(rows, n, client, cutoff, upto) + 1 <= CountTo(rows, n, client, cutoff - 1, upto)
  {
    if i == n - 1 {
      CountWider(rows, n - 1, client, cutoff, upto, cutoff - 1, upto);
    } else {
      CountEdge(rows, n - 1, client, cutoff, upto, i);
    }
  }

  lemma {:induction false} StampRow(rows: seq<Row>, n: nat, client: Client, cutoff: int, k: nat) returns (i: nat)
    requires n <= |rows| && k < |StampsTo(rows, n, client, cutoff)|
    ensures i < n && rows[i] == Row(client, StampsTo(rows, n, client, cutoff)[k])
  {
    if k < |StampsTo(rows, n - 1, client, cutoff)| {
      i := StampRow(rows, n - 1, client, cutoff, k);
    } else {
      i := n - 1;
    }
  }

  /** A caller who need not wait has room in the half-open window: either it is not
      full, or its oldest stamp sits exactly on the edge. */
  lemma NoWaitMeansRoom(rows: seq<Row>, client: Client, now: int, window: int, most: nat)
    requires Ordered(rows, now - 1) && Bounded(rows, window, most) && most > 0 && window > 0
    requires WindowWait(rows, client, now, window, most) <= 0
    ensures Count(rows, client, now - window, now) <= most - 1
  {
    var stamps := Stamps(rows, client, now - window);
    StampsCount(rows, |rows|, client, now - window, now);
    if |stamps| < most {
      CountWider(rows, |rows|, client, now - window, now, now - window - 1, now);
    } else {
      var i := StampRow(rows, |rows|, client, now - window, 0);
      CountEdge(rows, |rows|, client, now - window, now, i);
      CountWider(rows, |rows|, client, now - window - 1, now, now - 1 - window, now - 1);
      assert Count(rows, client, now - 1 - window, now - 1) <= most;
    }
  }

  lemma RecordKeepsBounded(rows: seq<Row>, row: Row, asked: int, window: int, most: nat)
    requires Bounded(rows, window, most) && Ordered(rows, asked) && asked <= row.at
    requires Count(rows, row.client, asked - window, asked) <= most - 1
    ensures Bounded(rows + [row], window, most)
  {
    forall client, after: int, upto: int | upto - after == window
      ensures Count(rows + [row], client, after, upto) <= most
    {
      CountAppend(rows, row, client, after, upto);
      if client == row.client && after < row.at <= upto {
        CountWider(rows, |rows|, client, after, upto, asked - window, asked);
      }
    }
  }

  /** When each row was asked for, and when the store it was asked of was last pruned. */
  datatype Admission = Admission(asked: int, prunedAt: int)

  /** A serialised run: every row was admitted by the pruned store as it then was. */
  ghost predicate Admitted(l: Limits, log: seq<Row>, admissions: seq<Admission>)
    requires l.Valid()
  {
    |admissions| == |log| && forall i | 0 <= i < |log| :: AdmittedAt(l, log, i, admissions[i])
  }

  ghost predicate AdmittedAt(l: Limits, log: seq<Row>, i: nat, a: Admission)
    requires l.Valid() && i < |log|
  {
    && a.prunedAt <= a.asked <= log[i].at
    && Ordered(log[..i], a.asked - 1)
    && (KeptOrdered(log[..i], i, a.prunedAt - DAY, a.asked - 1);
        RetryAfter(l, Kept(log[..i], a.prunedAt - DAY), log[i].client, a.asked) == 0)
  }

  /** Every half-open hour holds at most the hourly number of accepted requests of a
      client, every half-open day the daily number. */
  lemma {:induction false} AcceptedBounded(l: Limits, log: seq<Row>, admissions: seq<Admission>, n: nat)
    requires l.Valid() && Admitted(l, log, admissions) && n <= |log|
    ensures Bounded(log[..n], HOUR, l.perHour) && Bounded(log[..n], DAY, l.perDay)
  {
    if n > 0 {
      AcceptedBounded(l, log, admissions, n - 1);
      var rows, row, a := log[..n - 1], log[n - 1], admissions[n - 1];
      assert AdmittedAt(l, log, n - 1, a);
      PrunedDecidesAlike(l, rows, row.client, a.prunedAt, a.asked);
      NoWaitMeansRoom(rows, row.client, a.asked, HOUR, l.perHour);
      NoWaitMeansRoom(rows, row.client, a.asked, DAY, l.perDay);
      RecordKeepsBounded(rows, row, a.asked, HOUR, l.perHour);
      RecordKeepsBounded(rows, row, a.asked, DAY, l.perDay);
      assert log[..n] == rows + [row];
    }
  }

  // ---- how long to wait --------------------------------------------------------------------------------- //

  lemma {:induction false} StampsSorted(rows: seq<Row>, n: nat, client: Client, cutoff: int, now: int)
    requires n <= |rows| && Ordered(rows, now)
    ensures var stamps := StampsTo(rows, n, client, cutoff);
      && (forall k | 0 < k < |stamps| :: stamps[0] < stamps[k])
      && (stamps != [] ==> n > 0 && stamps[0] <= rows[n - 1].at)
  {
    if n > 0 {
      StampsSorted(rows, n - 1, client, cutoff, now);
    }
  }

  lemma {:induction false} StampsRaise(rows: seq<Row>, n: nat, client: Client, low: int, high: int)
    requires n <= |rows| && low <= high
    requires forall k | 0 <= k < |StampsTo(rows, n, client, low)| :: StampsTo(rows, n, client, low)[k] >= high
    ensures StampsTo(rows, n, client, high) == StampsTo(rows, n, client, low)
  {
    if n > 0 {
      var all, before := StampsTo(rows, n, client, low), StampsTo(rows, n - 1, client, low);
      assert forall k | 0 <= k < |before| :: before[k] == all[k];
      assert |all| > |before| ==> all[|before|] == rows[n - 1].at;
      StampsRaise(rows, n - 1, client, low, high);
    }
  }

  /** The window empties by one exactly once its oldest stamp is behind the cutoff. */
  lemma OldestAgesOut(rows: seq<Row>, client: Client, now: int, low: int, high: int)
    requires Ordered(rows, now) && low <= high && Stamps(rows, client, low) != []
    ensures |Stamps(rows, client, high)| < |Stamps(rows, client, low)| <==> Stamps(rows, client, low)[0] < high
  {
    var n, stamps := |rows|, Stamps(rows, client, low);
    StampsSorted(rows, n, client, low, now);
    if stamps[0] >= high {
      StampsRaise(rows, n, client, low, high);
    } else {
      var i := StampRow(rows, n, client, low, 0);
      StampsCount(rows, n, client, low, now);
      StampsCount(rows, n, client, high, now);
      CountEdge(rows, n, client, stamps[0], now, i);
      CountWider(rows, n, client, high - 1, now, stamps[0], now);
      CountWider(rows, n, client, stamps[0] - 1, now, low - 1, now);
    }
  }

  /** The returned wait is the floor of the time left, at least a second; so a caller
      who waits that long and no longer is let in only when less than a second was left.
      The premises are what the throttle keeps of its failures. */
  lemma ThrottleWaitExactly(rows: seq<Row>, client: Client, now: int)
    requires Ordered(rows, now) && Bounded(rows, FAILURE_WINDOW + 1, MAX_FAILURES)
    requires ThrottleRetryAfter(rows, client, now) > 0
    ensures |Stamps(rows, client, now - FAILURE_WINDOW)| == MAX_FAILURES
    ensures var left := Stamps(rows, client, now - FAILURE_WINDOW)[0] + FAILURE_WINDOW - now;
      var wait := ThrottleRetryAfter(rows, client, now);
      && 0 <= left && wait == Max(1, left / SECOND)
      && Ordered(rows, now + wait * SECOND)
      && (ThrottleRetryAfter(rows, client, now + wait * SECOND) == 0 <==> left < SECOND)
  {
    var low := now - FAILURE_WINDOW;
    StampsCount(rows, |rows|, client, low, now);
    assert Count(rows, client, low - 1, now) <= MAX_FAILURES;
    hide CountTo;
    var left := Stamps(rows, client, low)[0] + FAILURE_WINDOW - now;
    var wait := ThrottleRetryAfter(rows, client, now);
    WaitFits(left);
    OldestAgesOut(rows, client, now, low, low + wait * SECOND);
    hide Stamps;
  }

  lemma WaitFits(left: int)
    requires left >= 0
    ensures Seconds(left) >= 1
    ensures left < SECOND ==> Seconds(left) == 1
    ensures left >= SECOND ==> Seconds(left) * SECOND <= left
  {
  }

  /** A later cutoff keeps all stamps, or drops the oldest. */
  lemma StampsLater(rows: seq<Row>, client: Client, now: int, low: int, high: int)
    requires Ordered(rows, now) && low <= high
    ensures |Stamps(rows, client, high)| <= |Stamps(rows, client, low)|
    ensures Stamps(rows, client, low) != [] && Stamps(rows, client, low)[0] >= high ==>
      Stamps(rows, client, high) == Stamps(rows, client, low)
    ensures Stamps(rows, client, low) != [] && Stamps(rows, client, low)[0] < high ==>
      |Stamps(rows, client, high)| < |Stamps(rows, client, low)|
  {
    hide StampsTo;
    hide CountTo;
    var n := |rows|;
    StampsCount(rows, n, client, low, now);
    StampsCount(rows, n, client, high, now);
    CountWider(rows, n, client, high - 1, now, low - 1, now);
    if Stamps(rows, client, low) != [] {
      OldestAgesOut(rows, client, now, low, high);
      StampsSorted(rows, n, client, low, now);
      if Stamps(rows, client, low)[0] >= high {
        StampsRaise(rows, n, client, low, high);
      }
    }
  }

  function Past(stamps: seq<int>, low: int): seq<int> { if stamps != [] && stamps[0] == low then stamps[1..] else stamps }

  lemma PastStep(stamps: seq<int>, at: int, low: int)
    requires (stamps != [] ==> low <= stamps[0] < at) && at >= low
    ensures Past(stamps + [at], low) == Past(stamps, low) + (if at >= low + 1 then [at] else [])
  {
    if stamps != [] {
      assert (stamps + [at])[1..] == stamps[1..] + [at];
    }
  }

  /** Just behind the cutoff there is one stamp less, if one stands on it. */
  lemma {:induction false} StampsPast(rows: seq<Row>, n: nat, client: Client, low: int, now: int)
    requires n <= |rows| && Ordered(rows, now)
    ensures StampsTo(rows, n, client, low + 1) == Past(StampsTo(rows, n, client, low), low)
  {
    hide Ordered;
    hide Past;
    if n == 0 {
      assert Past([], low) == [] by {
        NothingPast(low);
      }
    } else {
      StampsPast(rows, n - 1, client, low, now);
      FirstStamp(rows, n - 1, client, low, now);
      if rows[n - 1].client == client && rows[n - 1].at >= low {
        PastStep(StampsTo(rows, n - 1, client, low), rows[n - 1].at, low);
      } else {
        assert StampsTo(rows, n, client, low) == StampsTo(rows, n - 1, client, low);
      }
    }
  }

  lemma NothingPast(low: int)
    ensures Past([], low) == []
  {
  }

  lemma FirstStamp(rows: seq<Row>, n: nat, client: Client, low: int, now: int)
    requires n < |rows| && Ordered(rows, now)
    ensures StampsTo(rows, n, client, low) != [] ==> StampsTo(rows, n, client, low)[0] < rows[n].at
  {
    if StampsTo(rows, n, client, low) != [] {
      var i := StampRow(rows, n, client, low, 0);
      hide StampsTo;
      assert rows[i].at < rows[n].at;
    }
  }

  /** Time until a window lets go: the stamp to age out is the one that fills it, behind
      a further one on the very edge. */
  function TimeLeft(rows: seq<Row>, client: Client, now: int, window: int, most: nat): int
    requires most > 0
  {
    var stamps := Stamps(rows, client, now - window);
    if |stamps| < most then 0 else stamps[|stamps| - most] + window - now
  }

  /** A closed window holds at most one stamp more than its half-open bound: then the
      oldest stands on the edge. */
  lemma EdgeOnly(rows: seq<Row>, client: Client, now: int, window: int, most: nat)
    requires Ordered(rows, now) && Bounded(rows, window, most)
    ensures var stamps := Stamps(rows, client, now - window);
      |stamps| <= most || (|stamps| == most + 1 && stamps[0] == now - window)
  {
    hide StampsTo;
    hide CountTo;
    hide Bounded;
    StampsPast(rows, |rows|, client, now - window, now);
    StampsCount(rows, |rows|, client, now - window + 1, now);
    BoundedAt(rows, client, now, window, most);
  }

  lemma BoundedAt(rows: seq<Row>, client: Client, now: int, window: int, most: nat)
    requires Bounded(rows, window, most)
    ensures Count(rows, client, now - window, now) <= most
  {
    hide Count;
  }

  lemma WindowLater(rows: seq<Row>, client: Client, now: int, later: int, window: int, most: nat)
    requires most > 0 && Ordered(rows, now) && Bounded(rows, window, most) && now < later
    ensures WindowWait(rows, client, later, window, most) <= 0 <==> TimeLeft(rows, client, now, window, most) <= later - now
    ensures WindowWait(rows, client, now, window, most) <= TimeLeft(rows, client, now, window, most)
    ensures |Stamps(rows, client, now - window)| <= most ==>
      TimeLeft(rows, client, now, window, most) == WindowWait(rows, client, now, window, most)
  {
    hide Bounded;
    hide StampsTo;
    hide Ordered;
    EdgeOnly(rows, client, now, window, most);
    StampsPast(rows, |rows|, client, now - window, now);
    StampsSorted(rows, |rows|, client, now - window, now);
    StampsLater(rows, client, now, now - window, later - window);
    StampsLater(rows, client, now, now - window + 1, later - window);
  }

  /** The two-window limiters: the wait is the floor of the time left as they see it, at
      least a second, and it suffices exactly when the true time left is not longer.  They
      see it right unless a window holds one more stamp on its edge; where they do, it
      suffices exactly when no more than a second or whole seconds were left.  The premises are
      what a limiter keeps of the requests it accepted. */
  lemma LimiterWaitExactly(l: Limits, rows: seq<Row>, client: Client, now: int)
    requires l.Valid() && Ordered(rows, now) && RetryAfter(l, rows, client, now) > 0
    requires Bounded(rows, HOUR, l.perHour) && Bounded(rows, DAY, l.perDay)
    ensures
      var seen := Max(WindowWait(rows, client, now, HOUR, l.perHour), WindowWait(rows, client, now, DAY, l.perDay));
      var left := Max(TimeLeft(rows, client, now, HOUR, l.perHour), TimeLeft(rows, client, now, DAY, l.perDay));
      var wait := RetryAfter(l, rows, client, now);
      && 0 < seen <= left && wait == Max(1, seen / SECOND)
      && Ordered(rows, now + wait * SECOND)
      && (RetryAfter(l, rows, client, now + wait * SECOND) == 0 <==> left <= wait * SECOND)
      && (|Stamps(rows, client, now - HOUR)| <= l.perHour && |Stamps(rows, client, now - DAY)| <= l.perDay ==>
            seen == left && (left <= wait * SECOND <==> left <= SECOND || left % SECOND == 0))
  {
    hide Stamps;
    hide Bounded;
    hide WindowWait;
    hide TimeLeft;
    var seen := Max(WindowWait(rows, client, now, HOUR, l.perHour), WindowWait(rows, client, now, DAY, l.perDay));
    var later := now + Seconds(seen) * SECOND;
    WindowLater(rows, client, now, later, HOUR, l.perHour);
    WindowLater(rows, client, now, later, DAY, l.perDay);
    assert seen == seen / SECOND * SECOND + seen % SECOND;
  }

  /** Three signups an hour and ten a day, five resets an hour and twenty a day. */
  lemma DeployedBounds(log: seq<Row>, admissions: seq<Admission>)
    ensures Admitted(SIGNUP, log, admissions) ==> Bounded(log, HOUR, 3) && Bounded(log, DAY, 10)
    ensures Admitted(PASSWORD_RESET, log, admissions) ==> Bounded(log, HOUR, 5) && Bounded(log, DAY, 20)
  {
    hide Bounded;
    hide AdmittedAt;
    assert log[..|log|] == log;
    if Admitted(SIGNUP, log, admissions) {
      AcceptedBounded(SIGNUP, log, admissions, |log|);
    }
    if Admitted(PASSWORD_RESET, log, admissions) {
      AcceptedBounded(PASSWORD_RESET, log, admissions, |log|);
    }
  }

  // ---- who is let in, counted ------------------------------------------------------------------------------- //

  /** The client's rows since an instant, that instant included. */
  function Recent(rows: seq<Row>, client: Client, since: int): set<nat> {
    set i | 0 <= i < |rows| && rows[i].client == client && since <= rows[i].at
  }

  lemma RecentNext(rows: seq<Row>, n: nat, client: Client, since: int)
    requires n < |rows|
    ensures Recent(rows[..n + 1], client, since)
         == Recent(rows[..n], client, since)
            + if rows[n].client == client && since <= rows[n].at then {n} else {}
  {
  }

  lemma {:induction false} RecentCount(rows: seq<Row>, n: nat, client: Client, since: int)
    requires n <= |rows|
    ensures |StampsTo(rows, n, client, since)| == |Recent(rows[..n], client, since)|
    ensures forall i | i in Recent(rows[..n], client, since) :: i < n
  {
    if n > 0 {
      RecentCount(rows, n - 1, client, since);
      RecentNext(rows, n - 1, client, since);
      hide Recent;
    }
  }

  lemma {:induction false} FirstRecent(rows: seq<Row>, n: nat, client: Client, since: int)
    requires n <= |rows| && StampsTo(rows, n, client, since) != []
    ensures exists i: nat ::
      Oldest(rows[..n], client, since, i) && i < n && rows[i].at == StampsTo(rows, n, client, since)[0]
  {
    RecentNext(rows, n - 1, client, since);
    RecentCount(rows, n - 1, client, since);
    hide Recent;
    if StampsTo(rows, n - 1, client, since) != [] {
      FirstRecent(rows, n - 1, client, since);
    } else {
      assert Oldest(rows[..n], client, since, n - 1);
    }
  }

  lemma AllRecent(rows: seq<Row>, client: Client, since: int)
    ensures |Stamps(rows, client, since)| == |Recent(rows, client, since)|
    ensures Stamps(rows, client, since) != [] ==>
      exists i: nat :: i in Recent(rows, client, since) && Oldest(rows, client, since, i)
                  && rows[i].at == Stamps(rows, client, since)[0]
  {
    RecentCount(rows, |rows|, client, since);
    assert rows[..|rows|] == rows;
    if Stamps(rows, client, since) != [] {
      FirstRecent(rows, |rows|, client, since);
    }
  }

  ghost predicate Oldest(rows: seq<Row>, client: Client, since: int, i: nat) {
    i in Recent(rows, client, since) && forall j | j in Recent(rows, client, since) :: i <= j
  }

  /** The window has room, or its oldest stamp is just leaving it. */
  ghost predicate HasRoom(rows: seq<Row>, client: Client, now: int, window: int, most: nat) {
    || |Recent(rows, client, now - window)| < most
    || exists i: nat :: Oldest(rows, client, now - window, i) && rows[i].at == now - window
  }

  lemma RoomExactly(rows: seq<Row>, client: Client, now: int, window: int, most: nat)
    requires most > 0 && Ordered(rows, now)
    ensures WindowWait(rows, client, now, window, most) <= 0 <==> HasRoom(rows, client, now, window, most)
  {
    AllRecent(rows, client, now - window);
  }

  /** Let in exactly if both windows have room. */
  lemma LetInExactly(l: Limits, rows: seq<Row>, client: Client, now: int)
    requires l.Valid() && Ordered(rows, now)
    ensures RetryAfter(l, rows, client, now) == 0
       <==> && HasRoom(rows, client, now, 3_600_000_000, l.perHour)
            && HasRoom(rows, client, now, 86_400_000_000, l.perDay)
  {
    RoomExactly(rows, client, now, HOUR, l.perHour);
    RoomExactly(rows, client, now, DAY, l.perDay);
    hide WindowWait, HasRoom;
  }

  lemma DeployedExactly(rows: seq<Row>, client: Client, now: int)
    requires Ordered(rows, now)
    ensures RetryAfter(SIGNUP, rows, client, now) == 0
       <==> HasRoom(rows, client, now, 3_600_000_000, 3) && HasRoom(rows, client, now, 86_400_000_000, 10)
    ensures RetryAfter(PASSWORD_RESET, rows, client, now) == 0
       <==> HasRoom(rows, client, now, 3_600_000_000, 5) && HasRoom(rows, client, now, 86_400_000_000, 20)
  {
    LetInExactly(SIGNUP, rows, client, now);
    LetInExactly(PASSWORD_RESET, rows, client, now);
    hide RetryAfter, HasRoom;
  }

  /** Ten failures within five minutes lock the client out until the oldest of them is five
      minutes old; the wait is in whole seconds, rounded down, and at least one. */
  ghost predicate LockedFor(rows: seq<Row>, client: Client, now: int, wait: int) {
    && (wait == 0 <==> |Recent(rows, client, now - 300_000_000)| < 10)
    && (wait != 0 ==>
          exists i: nat :: (
            && Oldest(rows, client, now - 300_000_000, i)
            && var left := rows[i].at + 300_000_000 - now;
               wait == if left < 1_000_000 then 1 else left / 1_000_000))
  }

  lemma ThrottleExactly(rows: seq<Row>, client: Client, now: int)
    requires Ordered(rows, now)
    ensures LockedFor(rows, client, now, ThrottleRetryAfter(rows, client, now))
  {
    AllRecent(rows, client, now - FAILURE_WINDOW);
  }

  lemma {:induction false} KeptIn(rows: seq<Row>, n: nat, cutoff: int)
    requires n <= |rows|
    ensures forall row :: row in KeptTo(rows, n, cutoff) <==> row in rows[..n] && cutoff <= row.at
  {
    if n > 0 {
      KeptIn(rows, n - 1, cutoff);
      assert rows[..n] == rows[..n - 1] + [rows[n - 1]];
    }
  }

  lemma {:induction false} OthersIn(rows: seq<Row>, n: nat, client: Client)
    requires n <= |rows|
    ensures forall row :: row in OthersTo(rows, n, client) <==> row in rows[..n] && row.client != client
  {
    if n > 0 {
      OthersIn(rows, n - 1, client);
      assert rows[..n] == rows[..n - 1] + [rows[n - 1]];
    }
  }

  lemma OthersAre(rows: seq<Row>, client: Client)
    ensures forall row :: row in Others(rows, client) <==> row in rows && row.client != client
  {
    OthersIn(rows, |rows|, client);
    assert rows[..|rows|] == rows;
  }

  // ---- the stores -------------------------------------------------------------------------------------------- //

  /** The signup limiter and the password-reset limiter.  `log` and `clock` are what the
      store forgets: everything ever accepted, and the last reading of the clock. */
  class Limiter {
    const limits: Limits
    var rows: seq<Row>
    ghost var log: seq<Row>
    ghost var clock: int
    ghost var prunedAt: int

    ghost predicate Valid()
      reads this
    {
      && limits.Valid() && Ordered(log, clock) && prunedAt <= clock
      && rows == Kept(log, prunedAt - DAY)
      && Bounded(log, HOUR, limits.perHour) && Bounded(log, DAY, limits.perDay)
    }

    constructor (limits: Limits, ghost now: int)
      requires limits.Valid()
      ensures Valid() && this.limits == limits && log == [] && clock == now
    {
      this.limits := limits;
      rows, log, clock, prunedAt := [], [], now, now;
    }

    /** Decides as the whole history would. */
    method RetryAfterNow(client: Client, now: int) returns (wait: int)
      requires Valid() && clock < now
      modifies `clock
      ensures Valid() && clock == now
      ensures Ordered(log, now - 1) && wait == RetryAfter(limits, log, client, now)
      ensures wait == 0 <==>
        && HasRoom(log, client, now, 3_600_000_000, limits.perHour)
        && HasRoom(log, client, now, 86_400_000_000, limits.perDay)
    {
      LetInExactly(limits, log, client, now);
      hide HasRoom;
      hide Bounded;
      hide KeptTo;
      PrunedDecidesAlike(limits, log, client, prunedAt, now);
      clock := now;
      var stamps := Stamps(rows, client, now - DAY);
      var withinHour: seq<int> := [];
      for k := 0 to |stamps|
        invariant withinHour == SinceTo(stamps, k, now - HOUR)
      {
        if stamps[k] >= now - HOUR {
          withinHour := withinHour + [stamps[k]];
        }
      }
      SinceIsStamps(rows, |rows|, client, now - DAY, now - HOUR);
      var left := 0;
      if |withinHour| >= limits.perHour {
        left := Max(left, withinHour[0] + HOUR - now);
      }
      if |stamps| >= limits.perDay {
        left := Max(left, stamps[0] + DAY - now);
      }
      wait := if left > 0 then Seconds(left) else 0;
    }

    /** One accepted request, in the same breath as its check; then the prune. */
    method Record(client: Client, ghost asked: int, at: int, pruneAt: int)
      requires Valid() && clock == asked && asked <= at <= pruneAt
      requires Ordered(log, asked - 1) && RetryAfter(limits, log, client, asked) == 0
      modifies `rows, `log, `clock, `prunedAt
      ensures Valid() && clock == pruneAt && log == old(log) + [Row(client, at)]
      ensures rows == Kept(log, pruneAt - DAY)
    {
      NoWaitMeansRoom(log, client, asked, HOUR, limits.perHour);
      NoWaitMeansRoom(log, client, asked, DAY, limits.perDay);
      RecordKeepsBounded(log, Row(client, at), asked, HOUR, limits.perHour);
      RecordKeepsBounded(log, Row(client, at), asked, DAY, limits.perDay);
      KeptAppend(log, Row(client, at), prunedAt - DAY);
      KeptTwice(log + [Row(client, at)], |log| + 1, prunedAt - DAY, pruneAt - DAY);
      rows := rows + [Row(client, at)];
      log := log + [Row(client, at)];
      rows := Prune(rows, pruneAt - DAY);
      clock, prunedAt := pruneAt, pruneAt;
    }
  }

  /** A serialised request: checked, and recorded if it was let in. */
  method Request(limiter: Limiter, client: Client, now: int, at: int, pruneAt: int) returns (wait: int)
    requires limiter.Valid() && limiter.clock < now <= at <= pruneAt
    modifies limiter
    ensures limiter.Valid()
    ensures Ordered(old(limiter.log), now) && wait == RetryAfter(limiter.limits, old(limiter.log), client, now)
    ensures limiter.log == if wait == 0 then old(limiter.log) + [Row(client, at)] else old(limiter.log)
  {
    wait := limiter.RetryAfterNow(client, now);
    if wait == 0 {
      limiter.Record(client, now, at, pruneAt);
    }
  }

  /** `DELETE ... WHERE created_at < cutoff`. */
  method Prune(rows: seq<Row>, cutoff: int) returns (kept: seq<Row>)
    ensures kept == Kept(rows, cutoff)
    ensures forall row :: row in kept <==> row in rows && cutoff <= row.at
  {
    KeptIn(rows, |rows|, cutoff);
    assert rows[..|rows|] == rows;
    kept := [];
    for n := 0 to |rows|
      invariant kept == KeptTo(rows, n, cutoff)
    {
      if rows[n].at >= cutoff {
        kept := kept + [rows[n]];
      }
    }
  }

  function SinceTo(stamps: seq<int>, n: nat, cutoff: int): seq<int>
    requires n <= |stamps|
  {
    if n == 0 then [] else SinceTo(stamps, n - 1, cutoff) + (if stamps[n - 1] >= cutoff then [stamps[n - 1]] else [])
  }

  lemma {:induction false} SincePrefix(a: seq<int>, b: seq<int>, n: nat, cutoff: int)
    requires n <= |a| && n <= |b| && forall k | 0 <= k < n :: a[k] == b[k]
    ensures SinceTo(a, n, cutoff) == SinceTo(b, n, cutoff)
  {
    if n > 0 {
      SincePrefix(a, b, n - 1, cutoff);
    }
  }

  lemma {:induction false} SinceIsStamps(rows: seq<Row>, n: nat, client: Client, low: int, high: int)
    requires n <= |rows| && low <= high
    ensures var stamps := StampsTo(rows, n, client, low);
      SinceTo(stamps, |stamps|, high) == StampsTo(rows, n, client, high)
  {
    if n > 0 {
      SinceIsStamps(rows, n - 1, client, low, high);
      var all, before := StampsTo(rows, n, client, low), StampsTo(rows, n - 1, client, low);
      SincePrefix(all, before, |before|, high);
    }
  }

  // ---- the login throttle -------------------------------------------------------------------------------------- //

  function OthersTo(rows: seq<Row>, n: nat, client: Client): seq<Row>
    requires n <= |rows|
  {
    if n == 0 then []
    else OthersTo(rows, n - 1, client) + (if rows[n - 1].client != client then [rows[n - 1]] else [])
  }

  function Others(rows: seq<Row>, client: Client): seq<Row> { OthersTo(rows, |rows|, client) }

  lemma {:induction false} OthersPrefix(a: seq<Row>, b: seq<Row>, n: nat, client: Client)
    requires n <= |a| && n <= |b| && forall i | 0 <= i < n :: a[i] == b[i]
    ensures OthersTo(a, n, client) == OthersTo(b, n, client)
  {
    if n > 0 {
      OthersPrefix(a, b, n - 1, client);
    }
  }

  lemma OthersAppend(rows: seq<Row>, row: Row, client: Client)
    ensures Others(rows + [row], client) == Others(rows, client) + (if row.client != client then [row] else [])
  {
    OthersPrefix(rows + [row], rows, |rows|, client);
  }

  /** Clearing a client and pruning commute. */
  lemma {:induction false} ClearPruned(rows: seq<Row>, n: nat, client: Client, cutoff: int)
    requires n <= |rows|
    ensures Others(KeptTo(rows, n, cutoff), client) == Kept(OthersTo(rows, n, client), cutoff)
  {
    if n > 0 {
      ClearPruned(rows, n - 1, client, cutoff);
      var row := rows[n - 1];
      if row.at >= cutoff {
        OthersAppend(KeptTo(rows, n - 1, cutoff), row, client);
      } else {
        assert KeptTo(rows, n, cutoff) == KeptTo(rows, n - 1, cutoff);
      }
      if row.client != client {
        KeptAppend(OthersTo(rows, n - 1, client), row, cutoff);
      } else {
        assert OthersTo(rows, n, client) == OthersTo(rows, n - 1, client);
      }
    }
  }

  lemma {:induction false} OthersOrdered(rows: seq<Row>, n: nat, client: Client, now: int)
    requires n <= |rows| && Ordered(rows, now)
    ensures Ordered(OthersTo(rows, n, client), now)
    ensures n > 0 ==> forall i | 0 <= i < |OthersTo(rows, n, client)| :: OthersTo(rows, n, client)[i].at <= rows[n - 1].at
  {
    if n > 0 {
      OthersOrdered(rows, n - 1, client, now);
    }
  }

  lemma {:induction false} OthersCount(rows: seq<Row>, n: nat, cleared: Client, client: Client, after: int, upto: int)
    requires n <= |rows|
    ensures Count(OthersTo(rows, n, cleared), client, after, upto) <= CountTo(rows, n, client, after, upto)
    ensures client == cleared ==> Count(OthersTo(rows, n, cleared), client, after, upto) == 0
  {
    if n > 0 {
      OthersCount(rows, n - 1, cleared, client, after, upto);
      if rows[n - 1].client != cleared {
        CountAppend(OthersTo(rows, n - 1, cleared), rows[n - 1], client, after, upto);
      } else {
        assert OthersTo(rows, n, cleared) == OthersTo(rows, n - 1, cleared);
      }
    }
  }

  lemma ClearKeepsBounded(rows: seq<Row>, cleared: Client, window: int, most: nat)
    requires Bounded(rows, window, most)
    ensures Bounded(Others(rows, cleared), window, most)
  {
    forall client, after: int, upto: int | upto - after == window
      ensures Count(Others(rows, cleared), client, after, upto) <= most
    {
      OthersCount(rows, |rows|, cleared, client, after, upto);
      assert Count(rows, client, after, upto) <= most;
    }
  }

  /** A caller the throttle lets try has room in the closed window. */
  lemma LetInMeansRoom(rows: seq<Row>, client: Client, now: int)
    requires Ordered(rows, now) && ThrottleRetryAfter(rows, client, now) == 0
    ensures Count(rows, client, now - (FAILURE_WINDOW + 1), now) <= MAX_FAILURES - 1
  {
    StampsCount(rows, |rows|, client, now - FAILURE_WINDOW, now);
  }

  /** `log` holds each client's failures since its last success, pruned or not.  The
      closed window of 300 s is the half-open one that begins a microsecond earlier. */
  class Throttle {
    var rows: seq<Row>
    ghost var log: seq<Row>
    ghost var clock: int
    ghost var prunedAt: int

    ghost predicate Valid()
      reads this
    {
      && Ordered(log, clock) && prunedAt <= clock && rows == Kept(log, prunedAt - FAILURE_WINDOW)
      && Bounded(log, FAILURE_WINDOW + 1, MAX_FAILURES)
    }

    constructor (ghost now: int)
      ensures Valid() && log == [] && clock == now
    {
      rows, log, clock, prunedAt := [], [], now, now;
    }

    method RetryAfterNow(client: Client, now: int) returns (wait: int)
      requires Valid() && clock < now
      modifies `clock
      ensures Valid() && clock == now && Ordered(log, now - 1)
      ensures wait == ThrottleRetryAfter(log, client, now)
      ensures LockedFor(log, client, now, wait)
    {
      ThrottleExactly(log, client, now);
      hide LockedFor;
      PrunedThrottlesAlike(log, client, prunedAt, now);
      clock := now;
      var stamps := Stamps(rows, client, now - FAILURE_WINDOW);
      if |stamps| < MAX_FAILURES {
        return 0;
      }
      wait := Max(1, (stamps[0] + FAILURE_WINDOW - now) / SECOND);
    }

    /** A failed attempt that was let in. */
    method RecordFailure(client: Client, ghost asked: int, at: int, pruneAt: int)
      requires Valid() && clock == asked && asked <= at <= pruneAt
      requires Ordered(log, asked - 1) && ThrottleRetryAfter(log, client, asked) == 0
      modifies this
      ensures Valid() && clock == pruneAt && log == old(log) + [Row(client, at)]
      ensures rows == Kept(log, pruneAt - FAILURE_WINDOW)
    {
      LetInMeansRoom(log, client, asked);
      RecordKeepsBounded(log, Row(client, at), asked, FAILURE_WINDOW + 1, MAX_FAILURES);
      KeptAppend(log, Row(client, at), prunedAt - FAILURE_WINDOW);
      KeptTwice(log + [Row(client, at)], |log| + 1, prunedAt - FAILURE_WINDOW, pruneAt - FAILURE_WINDOW);
      rows := rows + [Row(client, at)];
      log := log + [Row(client, at)];
      rows := Prune(rows, pruneAt - FAILURE_WINDOW);
      clock, prunedAt := pruneAt, pruneAt;
    }

    /** A correct password forgets the client's failures and nobody else's. */
    method ClearFailures(client: Client)
      requires Valid()
      modifies `rows, `log
      ensures Valid() && log == Others(old(log), client) && rows == Others(old(rows), client)
      ensures forall row :: row in rows <==> row in old(rows) && row.client != client
    {
      OthersAre(rows, client);
      ClearPruned(log, |log|, client, prunedAt - FAILURE_WINDOW);
      OthersOrdered(log, |log|, client, clock);
      ClearKeepsBounded(log, client, FAILURE_WINDOW + 1, MAX_FAILURES);
      var left: seq<Row> := [];
      for n := 0 to |rows|
        invariant left == OthersTo(rows, n, client)
      {
        if rows[n].client != client {
          left := left + [rows[n]];
        }
      }
      rows := left;
      log := Others(log, client);
    }
  }
}
