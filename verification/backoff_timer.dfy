/**
 * The exponential-backoff timer behind request retries. Durations and
 * instants are whole nanoseconds; the clock reading and the random jitter
 * factor are parameters of the operations that consult them.
 */
module Backoff {
  import opened Wrappers
  import opened Errors

  /** The first backoff, 1 s, and the cap, 120 s. */
  const BackoffInitial: nat := 1_000_000_000
  const BackoffMax: nat := 120_000_000_000
  const NanosPerMilli: nat := 1_000_000

  /** The jitter factor 1 + (2u - 1) * 0.23 for u in [0, 1). */
  predicate ValidJitter(f: real) { 0.77 <= f < 1.23 }

  /** Duration.toMillis on a non-negative duration: whole milliseconds, rounded down. */
  function ToMillis(ns: nat): (ms: nat)
    ensures ms * NanosPerMilli <= ns < (ms + 1) * NanosPerMilli
  {
    ns / NanosPerMilli
  }

  /** The backoff after one more retry: 1.6 times the previous one, at most 120 s. */
  function NextBackoff(b: nat): (r: nat)
    ensures r <= BackoffMax
    ensures b <= BackoffMax ==> b <= r
    ensures r < BackoffMax ==> 5 * r <= 8 * b < 5 * (r + 1)
    ensures r == BackoffMax <==> 5 * BackoffMax <= 8 * b
  {
    var grown := b * 8 / 5;
    if grown > BackoffMax then BackoffMax else grown
  }

  /** The jitter factor scales a non-negative backoff into [0.77, 1.23] times it, strictly below the top when positive. */
  lemma ScaleBounds(b: nat, f: real)
    requires ValidJitter(f)
    ensures 0.77 * (b as real) <= (b as real) * f <= 1.23 * (b as real)
    ensures b > 0 ==> (b as real) * f < 1.23 * (b as real)
  {
    var br := b as real;
    assert br * (f - 0.77) >= 0.0;
    assert br * (1.23 - f) >= 0.0;
    if b > 0 {
      assert br > 0.0;
      assert br * (1.23 - f) > 0.0;
    }
  }

  /** Flooring a real between 0.77 * b and 1.23 * b keeps it within those bounds, up to the lost fraction. */
  lemma FloorBounds(x: real, b: nat)
    requires 0.77 * (b as real) <= x <= 1.23 * (b as real)
    requires b > 0 ==> x < 1.23 * (b as real)
    ensures 0 <= x.Floor && 77 * b < 100 * (x.Floor + 1) && 100 * x.Floor <= 123 * b
    ensures b > 0 ==> 100 * x.Floor < 123 * b
  {
    var r := x.Floor;
    assert (r as real) <= x < (r as real) + 1.0;
    assert 77.0 * (b as real) < 100.0 * ((r as real) + 1.0);
    assert 100.0 * (r as real) <= 123.0 * (b as real);
    if b > 0 {
      assert 100.0 * (r as real) < 123.0 * (b as real);
    }
  }

  /** A backoff scaled by the jitter factor, before truncation. */
  function Scaled(b: nat, f: real): (x: real)
    requires ValidJitter(f)
    ensures 0.77 * (b as real) <= x <= 1.23 * (b as real)
    ensures b > 0 ==> x < 1.23 * (b as real)
  {
    ScaleBounds(b, f);
    (b as real) * f
  }

  /** A backoff scaled by the jitter factor, truncated to whole nanoseconds. */
  function Jittered(b: nat, f: real): (r: nat)
    requires ValidJitter(f)
    ensures 77 * b < 100 * (r + 1)
    ensures 100 * r <= 123 * b
    ensures b > 0 ==> 100 * r < 123 * b
  {
    FloorBounds(Scaled(b, f), b);
    Scaled(b, f).Floor
  }

  /** The timer's state: completed retries, current backoff and the next deadline. */
  datatype TimerState = TimerState(numRetries: nat, backoff: nat, deadline: int)

  predicate ValidState(t: TimerState) { BackoffInitial <= t.backoff <= BackoffMax }

  /** A new timer: no retries, a 1 s backoff and a deadline 1 s after `now`. */
  function Initial(now: int): TimerState {
    TimerState(0, BackoffInitial, now + BackoffInitial)
  }

  /** The time left until the deadline; never negative, and zero once `now` reaches the deadline. */
  function TimeUntilDeadline(t: TimerState, now: int): (r: nat)
    ensures r == 0 <==> t.deadline <= now
    ensures now <= t.deadline ==> now + r == t.deadline
  {
    if now > t.deadline then 0 else t.deadline - now
  }

  /** getTimeout: the time until the deadline, but never less than the minimum timeout. */
  function Timeout(minTimeout: nat, t: TimerState, now: int): (r: nat)
    ensures r >= minTimeout && r >= TimeUntilDeadline(t, now)
    ensures r == minTimeout || r == TimeUntilDeadline(t, now)
  {
    var timeToDeadline := TimeUntilDeadline(t, now);
    if timeToDeadline < minTimeout then minTimeout else timeToDeadline
  }

  /**
   * The state after an uninterrupted sleepUntilRetry that woke at `wake`
   * with jitter factor `jitter`.
   */
  function AfterSleep(t: TimerState, jitter: real, wake: int): (r: TimerState)
    requires ValidJitter(jitter)
    ensures r.numRetries == t.numRetries + 1
    ensures r.backoff == NextBackoff(t.backoff)
    ensures ValidState(t) ==> ValidState(r) && t.backoff <= r.backoff
    ensures 77 * r.backoff < 100 * (r.deadline - wake + 1) && 100 * (r.deadline - wake) <= 123 * r.backoff
  {
    var backoff := NextBackoff(t.backoff);
    TimerState(t.numRetries + 1, backoff, wake + Jittered(backoff, jitter))
  }

  /** The backoff after k completed retries. */
  function BackoffAfter(k: nat): nat {
    if k == 0 then BackoffInitial else NextBackoff(BackoffAfter(k - 1))
  }

  /**
   * The backoff grows for ten retries (to about 110 s) and is held at the
   * 120 s cap from the eleventh retry on.
   */
  lemma {:induction false} BackoffReachesCap(k: nat)
    ensures k <= 10 ==> BackoffAfter(k) < BackoffMax
    ensures k >= 11 ==> BackoffAfter(k) == BackoffMax
  {
    assert BackoffAfter(0) == 1_000_000_000;
    assert BackoffAfter(1) == 1_600_000_000;
    assert BackoffAfter(2) == 2_560_000_000;
    assert BackoffAfter(3) == 4_096_000_000;
    assert BackoffAfter(4) == 6_553_600_000;
    assert BackoffAfter(5) == 10_485_760_000;
    assert BackoffAfter(6) == 16_777_216_000;
    assert BackoffAfter(7) == 26_843_545_600;
    assert BackoffAfter(8) == 42_949_672_960;
    assert BackoffAfter(9) == 68_719_476_736;
    assert BackoffAfter(10) == 109_951_162_777;
    assert BackoffAfter(11) == BackoffMax;
    if k > 11 {
      BackoffReachesCap(k - 1);
    }
  }

  /** The time until the deadline only shrinks as the clock advances. */
  lemma TimeUntilDeadlineShrinks(t: TimerState, now: int, later: int)
    requires now <= later
    ensures TimeUntilDeadline(t, later) <= TimeUntilDeadline(t, now)
    ensures TimeUntilDeadline(t, now) - TimeUntilDeadline(t, later) <= later - now
  {
  }

  class BackoffTimer {
    var numRetries: nat
    var backoff: nat
    const minTimeout: nat
    var deadline: int

    function State(): TimerState
      reads this
    {
      TimerState(numRetries, backoff, deadline)
    }

    ghost predicate Valid()
      reads this
    {
      ValidState(State())
    }

    /** A timer started at clock reading `now`. */
    constructor (minTimeout: nat, now: int)
      ensures State() == Initial(now) && this.minTimeout == minTimeout
      ensures Valid()
    {
      numRetries := 0;
      backoff := BackoffInitial;
      this.minTimeout := minTimeout;
      deadline := now + BackoffInitial;
    }

    /** getTimeout: never below the minimum timeout nor the time left until the deadline, and equal to one of them. */
    function GetTimeout(now: int): (r: nat)
      reads this
      ensures r >= minTimeout && r >= TimeUntilDeadline(State(), now)
      ensures r == minTimeout || r == TimeUntilDeadline(State(), now)
    {
      Timeout(minTimeout, State(), now)
    }

    /** getTimeoutMillis: getTimeout in whole milliseconds, rounded down; never below the minimum timeout's. */
    function GetTimeoutMillis(now: int): (ms: nat)
      reads this
      ensures ms * NanosPerMilli <= GetTimeout(now) < (ms + 1) * NanosPerMilli
      ensures ToMillis(minTimeout) <= ms
    {
      ToMillis(GetTimeout(now))
    }

    /** getNumRetries: the retries completed so far, the count AfterSleep advances. */
    function GetNumRetries(): (n: nat)
      reads this
      ensures n == State().numRetries
    {
      numRetries
    }

    /**
     * sleepUntilRetry: sleep until the deadline (the clock reads `sleepStart`
     * when the sleep starts); an interrupted sleep leaves the timer as it was.
     * Otherwise grow the backoff, set the deadline from the clock reading
     * `wake` plus the jittered backoff, and count the retry. `sleptMillis` is
     * the length of the requested sleep.
     */
    method SleepUntilRetry(sleepStart: int, interrupted: bool, jitter: real, wake: int)
      returns (o: Outcome<Error>, sleptMillis: nat)
      requires ValidJitter(jitter)
      modifies this
      ensures sleptMillis == ToMillis(TimeUntilDeadline(old(State()), sleepStart))
      ensures interrupted ==> o == Fail(Interrupted) && State() == old(State())
      ensures !interrupted ==> o == Pass && State() == AfterSleep(old(State()), jitter, wake)
      ensures old(Valid()) ==> Valid()
    {
      sleptMillis := ToMillis(TimeUntilDeadline(State(), sleepStart));
      if interrupted {
        o := Fail(Interrupted);
        return;
      }
      backoff := backoff * 8 / 5;
      if backoff > BackoffMax {
        backoff := BackoffMax;
      }
      var jitteredBackoff := Jittered(backoff, jitter);
      deadline := wake + jitteredBackoff;
      numRetries := numRetries + 1;
      o := Pass;
    }
  }
}
