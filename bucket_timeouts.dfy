/**
 * Per-bucket timeout bookkeeping used by single-hop partition routing
 * (`BucketStatus` and `PRbuckets` in ClientMetadataService.hpp).
 *
 * A bucket whose primary was observed to time out is "marked" with the
 * instant of that failure; routing then avoids it until a cool-down window
 * has elapsed, and the first check after the window clears the mark again.
 * The wall clock is a `now` parameter in microseconds; the mark uses the
 * value zero as "not timed out", exactly like `ACE_Time_Value::zero`.
 */
module BucketTimeouts {

  /** The source's `uint32_t`. */
  type UInt32 = x: int | 0 <= x < 0x1_0000_0000

  /** `ACE_Time_Value::zero`: the mark of a bucket that is not timed out. */
  const Unmarked: nat := 0

  /**
   * The cool-down window in microseconds. The source computes `millis * 1000`
   * in 32-bit unsigned arithmetic, so the product wraps modulo 2^32.
   */
  function WindowMicros(millis: UInt32): (w: nat)
    ensures w < 0x1_0000_0000
    ensures millis <= 4294967 ==> w == 1000 * millis
    ensures millis > 4294967 ==> w < 1000 * millis
  {
    (millis * 1000) % 0x1_0000_0000
  }

  /** What one `isTimedoutAndReset` call answers, and the mark it leaves behind. */
  datatype ProbeResult = ProbeResult(timedOut: bool, mark: nat)

  /**
   * Specification of `BucketStatus::isTimedoutAndReset(millis)` at instant `now`:
   * "timed out" exactly while a mark is set and its window has not yet passed;
   * the mark survives a true answer and is cleared by a false one.
   */
  function Probe(mark: nat, millis: UInt32, now: nat): (r: ProbeResult)
    ensures r.timedOut <==> mark != Unmarked && now < mark + WindowMicros(millis)
    ensures r.timedOut ==> r.mark == mark
    ensures !r.timedOut ==> r.mark == Unmarked
  {
    if mark == Unmarked then ProbeResult(false, mark)
    else if mark + WindowMicros(millis) > now then ProbeResult(true, mark)
    else ProbeResult(false, Unmarked)
  }

  /**
   * Specification of `BucketStatus::setTimeout()` at instant `now`: an existing
   * mark is never overwritten, and a mark taken at instant zero is lost.
   */
  function Mark(mark: nat, now: nat): (r: nat)
    ensures mark != Unmarked ==> r == mark
    ensures mark == Unmarked ==> r == now
    ensures r == Unmarked <==> mark == Unmarked && now == Unmarked
  {
    if mark == Unmarked then now else mark
  }

  /** A call on one bucket's status, with the instant at which it reads the clock. */
  datatype Call = SetTimeout(at: nat) | IsTimedoutAndReset(millis: UInt32, at: nat)

  /** The final mark of a bucket and the answers of its `isTimedoutAndReset` calls, in order. */
  datatype Run = Run(mark: nat, answers: seq<bool>)

  /** Replays a sequence of calls on one bucket whose mark is initially `mark`. */
  function Replay(mark: nat, calls: seq<Call>): Run
    decreases |calls|
  {
    if calls == [] then Run(mark, [])
    else
      match calls[0]
      case SetTimeout(at) => Replay(Mark(mark, at), calls[1..])
      case IsTimedoutAndReset(millis, at) =>
        var p := Probe(mark, millis, at);
        var rest := Replay(p.mark, calls[1..]);
        Run(rest.mark, [p.timedOut] + rest.answers)
  }

  predicate OnlyProbes(calls: seq<Call>)
  {
    forall i :: 0 <= i < |calls| ==> calls[i].IsTimedoutAndReset?
  }

  predicate OnlyMarks(calls: seq<Call>)
  {
    forall i :: 0 <= i < |calls| ==> calls[i].SetTimeout?
  }

  /** Every call either re-marks the bucket or checks it strictly inside the window opened at `t`. */
  predicate WithinWindow(t: nat, calls: seq<Call>)
  {
    forall i :: 0 <= i < |calls| ==>
      calls[i].IsTimedoutAndReset? ==> calls[i].at < t + WindowMicros(calls[i].millis)
  }

  /** An unmarked bucket answers "not timed out" to any sequence of checks and stays unmarked. */
  lemma {:induction false} UnmarkedStaysClear(calls: seq<Call>)
    requires OnlyProbes(calls)
    ensures Replay(Unmarked, calls).mark == Unmarked
    ensures |Replay(Unmarked, calls).answers| == |calls|
    ensures forall i :: 0 <= i < |calls| ==> !Replay(Unmarked, calls).answers[i]
  {
    if calls != [] {
      UnmarkedStaysClear(calls[1..]);
    }
  }

  /**
   * Once the window has elapsed the check clears the mark and answers false,
   * and every later check answers false until the bucket is marked again.
   */
  lemma ExpiredMarkResetsForGood(mark: nat, millis: UInt32, now: nat, later: seq<Call>)
    requires mark != Unmarked && mark + WindowMicros(millis) <= now
    requires OnlyProbes(later)
    ensures var r := Replay(mark, [IsTimedoutAndReset(millis, now)] + later);
            r.mark == Unmarked && |r.answers| == 1 + |later| &&
            forall i :: 0 <= i < |r.answers| ==> !r.answers[i]
  {
    var calls := [IsTimedoutAndReset(millis, now)] + later;
    assert calls[1..] == later;
    UnmarkedStaysClear(later);
  }

  /** Marking an already marked bucket again keeps the first recorded instant. */
  lemma {:induction false} MarkKeepsFirstInstant(mark: nat, calls: seq<Call>)
    requires mark != Unmarked
    requires OnlyMarks(calls)
    ensures Replay(mark, calls) == Run(mark, [])
  {
    if calls != [] {
      MarkKeepsFirstInstant(mark, calls[1..]);
    }
  }

  /**
   * A bucket marked at instant `t > 0` answers "timed out" to every check made
   * inside the window, keeps `t` as its mark, and ignores further marks.
   */
  lemma {:induction false} TimedOutThroughoutWindow(t: nat, calls: seq<Call>)
    requires t != Unmarked
    requires WithinWindow(t, calls)
    ensures Replay(t, calls).mark == t
    ensures forall i :: 0 <= i < |Replay(t, calls).answers| ==> Replay(t, calls).answers[i]
  {
    if calls != [] {
      assert WithinWindow(t, calls[1..]) by {
        forall i | 0 <= i < |calls[1..]|
          ensures calls[1..][i].IsTimedoutAndReset? ==>
                  calls[1..][i].at < t + WindowMicros(calls[1..][i].millis)
        {
          assert calls[1..][i] == calls[i + 1];
        }
      }
      TimedOutThroughoutWindow(t, calls[1..]);
    }
  }

  /**
   * Marking at `t > 0` and checking at the same instant answers "timed out"
   * exactly when the (possibly wrapped) window is non-empty; otherwise the
   * check clears the mark it has just found.
   */
  lemma MarkThenCheckAtOnce(t: nat, millis: UInt32)
    requires t != Unmarked
    ensures Replay(Unmarked, [SetTimeout(t), IsTimedoutAndReset(millis, t)])
            == if WindowMicros(millis) > 0 then Run(t, [true]) else Run(Unmarked, [false])
  {
    var calls := [SetTimeout(t), IsTimedoutAndReset(millis, t)];
    assert calls[1..] == [IsTimedoutAndReset(millis, t)];
    assert calls[1..][1..] == [];
    if WindowMicros(millis) > 0 {
      assert Replay(t, calls[1..]) == Run(t, [true]);
    } else {
      assert Replay(t, calls[1..]) == Run(Unmarked, [false]);
    }
  }

  /**
   * With `millis = 2^29` the 32-bit product `millis * 1000` wraps to zero, so a
   * bucket marked at `t` is already cleared by a check at the same instant.
   */
  lemma WindowWrapsToZero(t: nat)
    requires t != Unmarked
    ensures WindowMicros(0x2000_0000) == 0
    ensures Replay(Unmarked, [SetTimeout(t), IsTimedoutAndReset(0x2000_0000, t)]) == Run(Unmarked, [false])
  {
    var calls := [SetTimeout(t), IsTimedoutAndReset(0x2000_0000, t)];
    assert calls[1..] == [IsTimedoutAndReset(0x2000_0000, t)];
    assert calls[1..][1..] == [];
    assert Replay(t, calls[1..]) == Run(Unmarked, [false]);
  }

  /** A mark taken at instant zero is indistinguishable from no mark at all. */
  lemma MarkAtZeroIsLost(millis: UInt32, now: nat)
    ensures Replay(Unmarked, [SetTimeout(0), IsTimedoutAndReset(millis, now)]) == Run(Unmarked, [false])
  {
    var calls := [SetTimeout(0), IsTimedoutAndReset(millis, now)];
    assert calls[1..] == [IsTimedoutAndReset(millis, now)];
    assert calls[1..][1..] == [];
    assert Replay(Unmarked, calls[1..]) == Run(Unmarked, [false]);
  }

  /** `BucketStatus`: the timeout state of one bucket. */
  class BucketStatus {
    /** Instant of the first unrecovered timeout, in microseconds; `Unmarked` when none. */
    var lastTimeout: nat

    constructor ()
      ensures lastTimeout == Unmarked
    {
      lastTimeout := Unmarked;
    }

    /** Answers whether the bucket is still cooling down at `now`; clears the mark once the window has passed. */
    method IsTimedoutAndReset(millis: UInt32, now: nat) returns (timedOut: bool)
      modifies this
      ensures ProbeResult(timedOut, lastTimeout) == Probe(old(lastTimeout), millis, now)
    {
      if lastTimeout == Unmarked {
        return false;
      }
      var to := WindowMicros(millis) + lastTimeout;
      if to > now {
        return true;
      }
      lastTimeout := Unmarked;
      return false;
    }

    /** Records `now` as the timeout instant unless the bucket is already marked. */
    method SetTimeout(now: nat)
      modifies this
      ensures lastTimeout == Mark(old(lastTimeout), now)
    {
      if lastTimeout == Unmarked {
        lastTimeout := now;
      }
    }
  }

  /** `PRbuckets`: one `BucketStatus` per bucket of a partitioned region, indexed by bucket id. */
  class PRBuckets {
    const buckets: array<BucketStatus>

    /** Distinct buckets have distinct status objects, so updating one leaves the others alone. */
    ghost predicate Valid()
      reads this, buckets
    {
      forall i, j :: 0 <= i < j < buckets.Length ==> buckets[i] != buckets[j]
    }

    /** The mark of every bucket, by bucket id. */
    ghost function Marks(): (m: seq<nat>)
      reads this, buckets, buckets[..]
      ensures |m| == buckets.Length
    {
      seq(buckets.Length, i reads this, buckets, buckets[..] =>
        if 0 <= i < buckets.Length then buckets[i].lastTimeout else Unmarked)
    }

    constructor (nBuckets: nat)
      ensures Valid() && fresh(buckets) && buckets.Length == nBuckets
      ensures forall i :: 0 <= i < nBuckets ==> fresh(buckets[i])
      ensures forall i :: 0 <= i < nBuckets ==> Marks()[i] == Unmarked
    {
      var made: seq<BucketStatus> := [];
      while |made| < nBuckets
        invariant |made| <= nBuckets
        invariant forall i :: 0 <= i < |made| ==> fresh(made[i]) && made[i].lastTimeout == Unmarked
        invariant forall i, j :: 0 <= i < j < |made| ==> made[i] != made[j]
      {
        var status := new BucketStatus();
        made := made + [status];
      }
      buckets := new BucketStatus[nBuckets](i requires 0 <= i < nBuckets => made[i]);
    }

    /** `isBucketTimedOut`: checks (and possibly clears) bucket `bucketId` only. */
    method IsBucketTimedOut(bucketId: int, millis: UInt32, now: nat) returns (timedOut: bool)
      requires Valid() && 0 <= bucketId < buckets.Length
      modifies buckets[bucketId]
      ensures Valid()
      ensures var p := Probe(old(Marks())[bucketId], millis, now);
              timedOut == p.timedOut && Marks() == old(Marks())[bucketId := p.mark]
    {
      timedOut := buckets[bucketId].IsTimedoutAndReset(millis, now);
    }

    /** `setBucketTimeout`: marks bucket `bucketId` only. */
    method SetBucketTimeout(bucketId: int, now: nat)
      requires Valid() && 0 <= bucketId < buckets.Length
      modifies buckets[bucketId]
      ensures Valid()
      ensures Marks() == old(Marks())[bucketId := Mark(old(Marks())[bucketId], now)]
    {
      buckets[bucketId].SetTimeout(now);
    }
  }
}
