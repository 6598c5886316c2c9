/** One in-flight message's invisibility, kept up by its worker's heartbeat. */
module Heartbeat {

  /** What one wake-up of the heartbeat thread comes to: an extension that takes
      effect at an instant, or a call that raised. */
  datatype Beat = Extended(at: real) | Raised

  /** The extensions that took effect: the thread returns at the first failure. */
  function Effects(beats: seq<Beat>): seq<real> {
    if beats == [] || beats[0].Raised? then []
    else [beats[0].at] + Effects(beats[1..])
  }

  lemma {:induction false} EffectsSplit(beats: seq<Beat>, n: nat)
    requires n < |beats| && forall i | 0 <= i < n :: beats[i].Extended?
    ensures |Effects(beats[..n])| == n
    ensures beats[n].Extended? ==> Effects(beats[..n + 1]) == Effects(beats[..n]) + [beats[n].at]
    ensures beats[n].Raised? ==> Effects(beats) == Effects(beats[..n])
  {
    if n > 0 {
      EffectsSplit(beats[1..], n - 1);
      assert beats[..n][1..] == beats[1..][..n - 1];
      assert beats[..n + 1][1..] == beats[1..][..n];
    }
  }

  class Heartbeat {
    const extendTo: real
    var lost: bool
    var horizon: real        // the message stays invisible before this instant

    /** The receive itself hides the message for `extendTo`. */
    constructor (receivedAt: real, extendTo: real)
      ensures this.extendTo == extendTo && !lost && horizon == receivedAt + extendTo
    {
      this.extendTo := extendTo;
      lost, horizon := false, receivedAt + extendTo;
    }

    /** `run`, over the wake-ups that happen before `finish` stops it. */
    method Run(beats: seq<Beat>) returns (effects: seq<real>)
      requires !lost
      modifies this
      ensures effects == Effects(beats)
      ensures |effects| <= |beats| && (forall i | 0 <= i < |effects| :: beats[i] == Extended(effects[i]))
      ensures |effects| < |beats| ==> beats[|effects|].Raised?
      ensures lost == (Raised in beats)
      ensures horizon == if effects == [] then old(horizon) else effects[|effects| - 1] + extendTo
    {
      effects := [];
      var i := 0;
      while i < |beats|
        invariant 0 <= i <= |beats| && !lost
        invariant forall j | 0 <= j < i :: beats[j].Extended?
        invariant effects == Effects(beats[..i])
        invariant |effects| == i && forall j | 0 <= j < i :: beats[j] == Extended(effects[j])
        invariant horizon == if effects == [] then old(horizon) else effects[|effects| - 1] + extendTo
      {
        EffectsSplit(beats, i);
        match beats[i] {
          case Extended(at) =>
            effects, horizon := effects + [at], at + extendTo;
          case Raised =>
            lost := true;
            return;
        }
        i := i + 1;
      }
      assert beats[..i] == beats;
    }
  }

  /** The message is invisible at `t` if the last receive or extension up to `t`
      still covers it. */
  ghost predicate HiddenAt(hides: seq<real>, extendTo: real, t: real) {
    exists k | 0 <= k < |hides| ::
      hides[k] <= t < hides[k] + extendTo && forall j | k < j < |hides| :: t < hides[j]
  }

  ghost predicate Increasing(hides: seq<real>) {
    forall i, j | 0 <= i < j < |hides| :: hides[i] < hides[j]
  }

  /** No gap from one hiding to the next is longer than `bound`. */
  ghost predicate GapsWithin(hides: seq<real>, bound: real) {
    forall i | 0 < i < |hides| :: hides[i] - hides[i - 1] <= bound
  }

  /** The latest hiding up to `t`. */
  function Latest(hides: seq<real>, t: real): (k: nat)
    requires hides != [] && hides[0] <= t
    ensures k < |hides| && hides[k] <= t
    ensures k + 1 < |hides| ==> t < hides[k + 1]
  {
    var last := |hides| - 1;
    if hides[last] <= t then last else Latest(hides[..last], t)
  }

  /** The message is invisible at every instant from its receive until the last
      extension runs out, exactly when no gap exceeds the extension. */
  lemma CoverageExactly(hides: seq<real>, extendTo: real)
    requires hides != [] && Increasing(hides) && extendTo > 0.0
    ensures (forall t | hides[0] <= t < hides[|hides| - 1] + extendTo :: HiddenAt(hides, extendTo, t))
      <==> GapsWithin(hides, extendTo)
  {
    if GapsWithin(hides, extendTo) {
      forall t | hides[0] <= t < hides[|hides| - 1] + extendTo ensures HiddenAt(hides, extendTo, t) {
        var k := Latest(hides, t);
        assert k + 1 < |hides| ==> hides[k + 1] - hides[k] <= extendTo;
        assert hides[k] <= t < hides[k] + extendTo;
      }
    } else {
      var i :| 0 < i < |hides| && hides[i] - hides[i - 1] > extendTo;
      var t := hides[i - 1] + extendTo;
      assert hides[i - 1] < t < hides[i];
      assert !HiddenAt(hides, extendTo, t);
    }
  }

  /** Up to an instant at which the worker is still at work. */
  lemma CoveredWhile(hides: seq<real>, extendTo: real, now: real)
    requires hides != [] && Increasing(hides) && extendTo > 0.0 && now >= hides[|hides| - 1]
    ensures (forall t | hides[0] <= t <= now :: HiddenAt(hides, extendTo, t))
      <==> GapsWithin(hides, extendTo) && now - hides[|hides| - 1] < extendTo
  {
    var last := hides[|hides| - 1];
    if now - last < extendTo {
      CoverageExactly(hides, extendTo);
      if !GapsWithin(hides, extendTo) {
        var t :| hides[0] <= t < last + extendTo && !HiddenAt(hides, extendTo, t);
        assert t < last by {
          assert t >= last ==> HiddenAt(hides, extendTo, t);
        }
      }
    } else {
      assert !HiddenAt(hides, extendTo, now);
    }
  }

  /** The heartbeat has failed its message: a call raised, or an extension came too late. */
  ghost predicate LostBeat(received: real, beats: seq<Beat>, every: real, now: real) {
    var hides := [received] + Effects(beats);
    Raised in beats || !(GapsBelow(hides, every + 60.0) && now - hides[|hides| - 1] < every + 60.0)
  }

  ghost predicate GapsBelow(hides: seq<real>, bound: real) {
    forall i | 0 < i < |hides| :: hides[i] - hides[i - 1] < bound
  }

  /** With the configured margin, the message of a live worker is visible to others only
      after a lost beat: what the queue protocol calls `lostBeat`. */
  lemma VisibleOnlyAfterLostBeat(received: real, beats: seq<Beat>, every: real, extendTo: real, now: real, t: real)
    requires every > 0.0 && extendTo >= every + 60.0
    requires var hides := [received] + Effects(beats); Increasing(hides) && hides[|hides| - 1] <= now
    requires received <= t <= now && !HiddenAt([received] + Effects(beats), extendTo, t)
    ensures LostBeat(received, beats, every, now)
  {
    if !LostBeat(received, beats, every, now) {
      MarginCovers([received] + Effects(beats), every, extendTo, now);
      assert false;
    }
  }

  /** The configured margin: beats that take effect less than `every + 60` apart,
      with an extension of at least that much, leave no instant uncovered. */
  lemma MarginCovers(hides: seq<real>, every: real, extendTo: real, now: real)
    requires hides != [] && Increasing(hides) && every > 0.0 && extendTo >= every + 60.0
    requires forall i | 0 < i < |hides| :: hides[i] - hides[i - 1] < every + 60.0
    requires now - hides[|hides| - 1] < every + 60.0
    ensures forall t | hides[0] <= t <= now :: HiddenAt(hides, extendTo, t)
  {
    CoverageExactly(hides, extendTo);
  }
}
