/** Waiting until Xray answers (control/src/ezopenpn/integrations/xray.py, `wait_ready`). Times are
    integer microseconds. */
module Readiness {
  import opened Arithmetic
  import opened Wrappers

  const INITIAL_READY_DELAY := 50_000
  const MAX_READY_DELAY := 250_000

  datatype Answer = Ready | Unavailable | Rejected

  datatype Fault = InvalidTimeout | RuntimeUnavailable | RuntimeRejected

  // The pause after the k-th call.
  function DelayAfter(k: nat): int
    requires k >= 1
  {
    if k == 1 then INITIAL_READY_DELAY else Min(DelayAfter(k - 1) * 2, MAX_READY_DELAY)
  }

  // The pauses after the first `n` calls.
  function Pauses(n: nat): (pauses: seq<int>)
    ensures |pauses| == n
  {
    if n == 0 then [] else Pauses(n - 1) + [DelayAfter(n)]
  }

  // The earliest moment of the k-th call, from the start.
  function EarliestCall(k: nat): int
    requires k >= 1
  {
    if k == 1 then 0 else EarliestCall(k - 1) + DelayAfter(k - 1)
  }

  lemma {:induction false} Schedule(k: nat)
    requires k >= 1
    ensures 0 < DelayAfter(k) <= MAX_READY_DELAY && EarliestCall(k) >= 0
    ensures k >= 4 ==> DelayAfter(k) == MAX_READY_DELAY && EarliestCall(k) == 350_000 + (k - 4) * 250_000
    ensures k == 2 ==> EarliestCall(k) == 50_000
    ensures k == 3 ==> EarliestCall(k) == 150_000
  {
    if k > 4 {
      Schedule(k - 1);
    } else {
      assert DelayAfter(2) == 100_000 && DelayAfter(3) == 200_000 && DelayAfter(4) == 250_000;
      assert EarliestCall(2) == 50_000;
      assert EarliestCall(3) == 150_000;
      assert EarliestCall(4) == 350_000;
    }
  }

  // Each of the first `n` calls was followed by its pause; the last may have been cut short.
  ghost predicate Paused(pauses: seq<int>, n: nat) {
    && |pauses| == n
    && (n > 0 ==> pauses[..n - 1] == Pauses(n - 1) && 0 < pauses[n - 1] <= DelayAfter(n))
  }

  lemma PausedOnceMore(n: nat, pause: int)
    requires 0 < pause <= DelayAfter(n + 1)
    ensures Paused(Pauses(n) + [pause], n + 1)
  {
    assert (Pauses(n) + [pause])[..n] == Pauses(n);
  }

  // How a wait stands after `n` calls that found Xray unavailable.
  ghost predicate Spent(elapsed: int, n: nat, timeout: int, pauses: seq<int>)
    requires timeout > 0
  {
    && elapsed >= Min(EarliestCall(n + 1), timeout) && n <= MostCalls(timeout)
    && Paused(pauses, n) && (elapsed < timeout ==> pauses == Pauses(n))
  }

  lemma OneMoreCallFits(elapsed: int, n: nat, timeout: int, pauses: seq<int>)
    requires timeout > 0 && Spent(elapsed, n, timeout, pauses) && elapsed < timeout
    ensures pauses == Pauses(n) && n + 1 <= MostCalls(timeout) && 0 < DelayAfter(n + 1) <= MAX_READY_DELAY
  {
    Schedule(n + 1);
    MostCallsExact(timeout, n + 1);
  }

  lemma SpentOnceMore(before: int, after: int, n: nat, timeout: int, pauses: seq<int>, pause: int)
    requires timeout > 0 && Spent(before, n, timeout, pauses) && before < timeout
    requires 0 < pause <= DelayAfter(n + 1) && after >= Min(before + DelayAfter(n + 1), timeout)
    requires pause == DelayAfter(n + 1) || after >= timeout
    ensures Spent(after, n + 1, timeout, pauses + [pause])
  {
    OneMoreCallFits(before, n, timeout, pauses);
    PausedOnceMore(n, pause);
  }

  // The greatest number of calls that fit: for more than 0.35 s, 3 and one for each started quarter
  // of a second beyond.
  function MostCalls(timeout: int): nat
    requires timeout > 0
  {
    if timeout <= 50_000 then 1
    else if timeout <= 150_000 then 2
    else if timeout <= 350_000 then 3
    else 3 + (timeout - 350_000 + 249_999) / 250_000
  }

  /** The bound is exact: the k-th call of the fastest possible run starts before the deadline if and
      only if k is within it. */
  lemma MostCallsExact(timeout: int, k: nat)
    requires timeout > 0 && k >= 1
    ensures EarliestCall(k) < timeout <==> k <= MostCalls(timeout)
  {
    Schedule(k);
  }

  lemma SixSeconds()
    ensures MostCalls(6_000_000) == 26
  {
  }

  class XrayClient {
    var clock: int
    // What the calls of the current wait answered.
    ghost var answers: seq<Answer>
    // How long it asked to sleep after them.
    ghost var pauses: seq<int>

    constructor ()
      ensures answers == [] && pauses == []
    {
      clock, answers, pauses := 0, [], [];
    }

    method Pass(atLeast: int)
      requires atLeast >= 0
      modifies this`clock
      ensures clock >= old(clock) + atLeast
    {
      var more: int := *;
      clock := clock + atLeast + if more > 0 then more else 0;
    }

    // Reads the monotonic clock.
    method Monotonic() returns (now: int)
      modifies this`clock
      ensures now == clock && clock >= old(clock)
    {
      Pass(0);
      now := clock;
    }

    method GetInboundUsersCount() returns (answer: Answer)
      modifies this`clock, this`answers
      ensures clock >= old(clock) && answers == old(answers) + [answer]
    {
      Pass(0);
      answer := *;
      answers := answers + [answer];
    }

    method Sleep(pause: int)
      requires pause >= 0
      modifies this`clock, this`pauses
      ensures clock >= old(clock) + pause && pauses == old(pauses) + [pause]
    {
      Pass(pause);
      pauses := pauses + [pause];
    }

    // Sleeps as long as the schedule says, or until the deadline.
    method Rest(delay: int, deadline: int) returns (over: bool, ghost pause: int)
      requires 0 < delay <= MAX_READY_DELAY
      modifies this`clock, this`pauses
      ensures clock >= old(clock)
      ensures over ==> clock >= deadline && pauses == old(pauses)
      ensures !over ==>
                && 0 < pause <= delay && pauses == old(pauses) + [pause]
                && (pause == delay || clock >= deadline)
                && clock >= Min(old(clock) + delay, deadline) && clock > old(clock)
    {
      pause := 0;
      var reading := Monotonic();
      var remaining := deadline - reading;
      if remaining <= 0 { return true, 0; }
      pause := Min(Min(delay, MAX_READY_DELAY), remaining);
      Sleep(Min(Min(delay, MAX_READY_DELAY), remaining));
      return false, pause;
    }

    // The wait has begun at `now`, and every call so far found Xray unavailable.
    ghost predicate Waiting(now: int, timeout: int)
      requires timeout > 0
      reads this
    {
      && clock >= now && Spent(clock - now, |answers|, timeout, pauses)
      && forall k :: 0 <= k < |answers| ==> answers[k].Unavailable?
    }

    // One call, and the pause after it.
    method Turn(now: int, timeout: int, delay: int) returns (r: Option<Result<(), Fault>>)
      requires timeout > 0 && Waiting(now, timeout) && clock < now + timeout && delay == DelayAfter(|answers| + 1)
      modifies this
      ensures clock >= old(clock) && |answers| == |old(answers)| + 1 && answers[..|old(answers)|] == old(answers)
      ensures r.None? ==> Waiting(now, timeout) && clock > old(clock)
      ensures r.Some? ==> pauses == Pauses(|answers| - 1) && |answers| <= MostCalls(timeout)
      ensures r == Some(Success(())) <==> answers[|answers| - 1].Ready?
      ensures r == Some(Failure(RuntimeRejected)) <==> answers[|answers| - 1].Rejected?
      ensures r in {None, Some(Success(())), Some(Failure(RuntimeRejected)), Some(Failure(RuntimeUnavailable))}
      ensures r == Some(Failure(RuntimeUnavailable)) ==> clock >= now + timeout
    {
      ghost var before, n, slept := clock - now, |answers|, pauses;
      OneMoreCallFits(before, n, timeout, slept);
      var answer := GetInboundUsersCount();
      match answer {
        case Ready => return Some(Success(()));
        case Rejected => return Some(Failure(RuntimeRejected));
        case Unavailable =>
          ghost var pause;
          var over;
          over, pause := Rest(delay, now + timeout);
          if over { return Some(Failure(RuntimeUnavailable)); }
          SpentOnceMore(before, clock - now, n, timeout, slept, pause);
          return None;
      }
    }

    /** Calls until Xray answers, a call is rejected, or the time is over, never more often than the
        bound. It gives up as unavailable only after the whole time has passed, and between two calls it
        sleeps exactly as long as the schedule says. */
    method WaitReady(timeout: int) returns (r: Result<(), Fault>)
      modifies this
      ensures r == Failure(InvalidTimeout) <==> timeout <= 0
      ensures timeout <= 0 ==> answers == []
      ensures timeout > 0 ==> |answers| <= MostCalls(timeout)
      ensures forall k :: 0 <= k < |answers| - 1 ==> answers[k].Unavailable?
      ensures if |pauses| < |answers| then pauses == Pauses(|answers| - 1) else Paused(pauses, |answers|)
      ensures r.Success? <==> answers != [] && answers[|answers| - 1].Ready?
      ensures r == Failure(RuntimeRejected) <==> answers != [] && answers[|answers| - 1].Rejected?
      ensures r == Failure(RuntimeUnavailable) ==> clock >= old(clock) + timeout
    {
      answers, pauses := [], [];
      if timeout <= 0 { return Failure(InvalidTimeout); }
      var now := Monotonic();
      var delay := INITIAL_READY_DELAY;
      MostCallsExact(timeout, 1);
      while true
        invariant now >= old(clock) && Waiting(now, timeout) && delay == DelayAfter(|answers| + 1)
        decreases now + timeout - clock
      {
        var reading := Monotonic();
        if now + timeout - reading <= 0 { return Failure(RuntimeUnavailable); }
        var turn := Turn(now, timeout, delay);
        if turn.Some? { return turn.value; }
        delay := Min(delay * 2, MAX_READY_DELAY);
      }
    }
  }
}
