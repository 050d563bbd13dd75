/** Asking again: the backoff, and the report that is carried until its lease ends
    (aj-protocol/backoff.rs, aj-runner/run.rs).

    Durations are whole nanoseconds. */
module Retry {
  import opened Text

  const MILLI: nat := 1_000_000
  const SECOND: nat := 1_000_000_000
  const FIVE: nat := 5 * SECOND
  const THIRTY: nat := 30 * SECOND
  const LEAST: nat := 100 * MILLI

  function Min(a: nat, b: nat): nat {
    if a < b then a else b
  }

  function Max(a: nat, b: nat): nat {
    if a > b then a else b
  }

  /** The interval of twenty per cent either side, in whole milliseconds. */
  function Jitter(base: nat, draw: nat): nat {
    var millis := base / MILLI;
    var spread := millis / 5;
    if spread == 0 then base
    else (millis + draw % (spread * 2 + 1) - spread) * MILLI
  }

  /** Whatever is drawn, a delay is within a fifth of the whole milliseconds it is based on. */
  lemma JitterStaysNear(base: nat, draw: nat)
    ensures 5 * Jitter(base, draw) >= 4 * (base / MILLI * MILLI)
    ensures 5 * Jitter(base, draw) <= 6 * base
    ensures base % MILLI == 0 ==> 5 * Jitter(base, draw) >= 4 * base
  {
    var millis := base / MILLI;
    var spread := millis / 5;
    assert millis * MILLI <= base;
    if spread > 0 {
      var offset := draw % (spread * 2 + 1);
      assert 0 <= offset <= spread * 2;
      var m := millis + offset - spread;
      assert 4 * millis <= 5 * m <= 6 * millis;
      assert 5 * (m * MILLI) == (5 * m) * MILLI;
    }
  }

  /** **And every such delay can be drawn**: each whole number of milliseconds within a fifth,
      and no other. */
  lemma JitterReaches(base: nat, millis: nat, spread: nat, ms: nat) returns (draw: nat)
    requires millis == base / 1_000_000 && spread == millis / 5 && spread > 0
    requires millis - spread <= ms <= millis + spread
    ensures Jitter(base, draw) == ms * 1_000_000
    ensures forall other: nat :: millis - spread <= Jitter(base, other) / 1_000_000 <= millis + spread
    ensures forall other: nat :: Jitter(base, other) % 1_000_000 == 0
  {
    draw := ms - (millis - spread);
    assert draw % (spread * 2 + 1) == draw;
    forall other: nat
      ensures millis - spread <= Jitter(base, other) / 1_000_000 <= millis + spread
      ensures Jitter(base, other) % 1_000_000 == 0
    {
      var m := millis + other % (spread * 2 + 1) - spread;
      assert Jitter(base, other) == m * 1_000_000;
    }
  }

  /** Under five milliseconds there is nothing to draw. */
  lemma JitterOfLittle(base: nat, draw: nat)
    requires base < 5_000_000
    ensures Jitter(base, draw) == base
  {}

  function Pow2(n: nat): nat {
    if n == 0 then 1 else 2 * Pow2(n - 1)
  }

  /** The underlying interval after `n` draws. */
  function Interval(min: nat, max: nat, n: nat): nat {
    if n == 0 then min else Min(2 * Interval(min, max, n - 1), max)
  }

  function Doubled(min: nat, n: nat): nat {
    if n == 0 then min else 2 * Doubled(min, n - 1)
  }

  lemma {:induction false} DoubledIsTimesPow(min: nat, n: nat)
    ensures Doubled(min, n) == min * Pow2(n)
  {
    if n > 0 {
      DoubledIsTimesPow(min, n - 1);
      TwiceProduct(min, Pow2(n - 1));
    }
  }

  lemma TwiceProduct(a: nat, b: nat)
    ensures a * (2 * b) == 2 * (a * b)
  {}

  lemma {:induction false} IntervalIsDoubled(min: nat, max: nat, n: nat)
    requires min <= max
    ensures Interval(min, max, n) == Min(Doubled(min, n), max)
  {
    if n > 0 {
      IntervalIsDoubled(min, max, n - 1);
    }
  }

  /** Interval `n` is the floor times two to the `n`, or the ceiling where that is less. */
  lemma IntervalDoubles(min: nat, max: nat, n: nat)
    requires min <= max
    ensures Interval(min, max, n) == Min(min * Pow2(n), max)
  {
    IntervalIsDoubled(min, max, n);
    DoubledIsTimesPow(min, n);
  }

  class Backoff {
    const min: nat
    const max: nat
    var current: nat
    /** How many delays have been drawn since the last reset. */
    ghost var draws: nat

    ghost predicate Valid()
      reads this
    {
      LEAST <= min <= max && current == Interval(min, max, draws)
    }

    constructor (least: nat, most: nat)
      ensures Valid() && draws == 0
      ensures min == Max(least, LEAST) && max == Max(most, Max(least, LEAST))
      ensures min >= least && min >= 100_000_000 && (min == least || min == 100_000_000)
      ensures max >= most && max >= min && (max == most || max == min)
    {
      min, max, current := Max(least, LEAST), Max(most, Max(least, LEAST)), Max(least, LEAST);
      draws := 0;
    }

    method Reset()
      requires Valid()
      modifies this
      ensures Valid() && draws == 0
    {
      current := min;
      draws := 0;
    }

    method NextDelay(draw: nat) returns (delay: nat)
      requires Valid()
      modifies this
      ensures Valid() && draws == old(draws) + 1
      ensures delay == Jitter(Interval(min, max, old(draws)), draw)
    {
      var base := current;
      current := Min(current * 2, max);
      draws := draws + 1;
      delay := Jitter(base, draw);
    }
  }

  /** The longer of the two waits. */
  function Longer(mine: nat, asked: Option<nat>): nat {
    if asked.Some? && asked.value > mine then asked.value else mine
  }

  method HowLong(asked: Option<nat>, backoff: Backoff, draw: nat) returns (delay: nat)
    requires backoff.Valid()
    modifies backoff
    ensures backoff.Valid() && backoff.draws == old(backoff.draws) + 1
    ensures delay == Longer(Jitter(Interval(backoff.min, backoff.max, old(backoff.draws)), draw), asked)
    ensures var own := Jitter(Interval(backoff.min, backoff.max, old(backoff.draws)), draw);
            && delay >= own && (asked.Some? ==> delay >= asked.value)
            && (delay == own || asked == Some(delay))
  {
    var mine := backoff.NextDelay(draw);
    delay := if asked.Some? && asked.value > mine then asked.value else mine;
  }

  // ---- carrying a report

  datatype Answer = Accepted | LeaseLost | Refused(retryable: bool, retryAfter: Option<nat>)

  /** What meets one sending: how long it took, the answer, the random draw of the wait
      after it, and whether the word to stop comes during that wait. */
  datatype Meeting = Meeting(took: nat, answer: Answer, draw: nat, stopped: bool)

  datatype Outcome = Delivered | Dropped | GivenUp | Stopped

  /** The wait after sending `k`. */
  function Wait(world: nat -> Meeting, k: nat): nat {
    var m := world(k);
    Longer(Jitter(Interval(FIVE, THIRTY, k), m.draw),
           if m.answer.Refused? then m.answer.retryAfter else None)
  }

  /** When sending `k` begins, if everything before it was waited out. */
  function SendAt(world: nat -> Meeting, k: nat): nat {
    if k == 0 then 0 else SendAt(world, k - 1) + world(k - 1).took + Wait(world, k - 1)
  }

  predicate WaitsAfter(world: nat -> Meeting, granted: nat, k: nat) {
    world(k).answer.Refused? && world(k).answer.retryable && SendAt(world, k + 1) < granted
  }

  /** Sending `k` is followed by another. */
  predicate SendsAgain(world: nat -> Meeting, granted: nat, k: nat) {
    WaitsAfter(world, granted, k) && !world(k).stopped
  }

  function EndsAs(world: nat -> Meeting, granted: nat, k: nat): Outcome {
    if world(k).answer.Accepted? then Delivered
    else if world(k).answer.LeaseLost? then Dropped
    else if WaitsAfter(world, granted, k) then Stopped
    else GivenUp
  }

  /** Sends again exactly after a refusal whose wait ends inside the granted lease, and for
      every Server comes to an end: each wait leaves four seconds less of the lease. */
  method ReportWithRetries(world: nat -> Meeting, granted: nat) returns (last: nat, outcome: Outcome)
    ensures forall k | 0 <= k < last :: SendsAgain(world, granted, k)
    ensures !SendsAgain(world, granted, last)
    ensures outcome == EndsAs(world, granted, last)
  {
    var backoff := new Backoff(FIVE, THIRTY);
    var now := 0;
    last := 0;
    while true
      invariant backoff.Valid() && backoff.draws == last && backoff.min == FIVE && backoff.max == THIRTY
      invariant fresh(backoff)
      invariant now == SendAt(world, last)
      invariant forall k | 0 <= k < last :: SendsAgain(world, granted, k)
      decreases if granted > now then granted - now else 0
    {
      var m := world(last);
      now := now + m.took;
      match m.answer {
        case Accepted => return last, Delivered;
        case LeaseLost => return last, Dropped;
        case Refused(retryable, retryAfter) =>
          if !retryable {
            return last, GivenUp;
          }
          WaitIsLong(world, last);
          var delay := HowLong(retryAfter, backoff, m.draw);
          assert delay == Wait(world, last);
          if !(now + delay < granted) {
            return last, GivenUp;
          }
          if m.stopped {
            return last, Stopped;
          }
          now := now + delay;
          last := last + 1;
      }
    }
  }

  lemma {:induction false} IntervalsAreWhole(k: nat)
    ensures Interval(FIVE, THIRTY, k) % MILLI == 0
    ensures FIVE <= Interval(FIVE, THIRTY, k) <= THIRTY
    ensures k >= 1 ==> Interval(FIVE, THIRTY, k) >= 10 * SECOND
    ensures k >= 2 ==> Interval(FIVE, THIRTY, k) >= 20 * SECOND
    ensures k >= 3 ==> Interval(FIVE, THIRTY, k) == THIRTY
  {
    if k > 0 {
      IntervalsAreWhole(k - 1);
    }
  }

  /** No wait is shorter than the Runner's own draw, nor than four fifths of its interval. */
  lemma WaitIsLong(world: nat -> Meeting, k: nat)
    ensures Wait(world, k) >= Jitter(Interval(FIVE, THIRTY, k), world(k).draw)
    ensures 5 * Wait(world, k) >= 4 * Interval(FIVE, THIRTY, k)
    ensures Wait(world, k) >= 4 * SECOND
  {
    IntervalsAreWhole(k);
    JitterStaysNear(Interval(FIVE, THIRTY, k), world(k).draw);
  }

  lemma NextSend(world: nat -> Meeting, k: nat)
    ensures SendAt(world, k + 1) >= SendAt(world, k) + Wait(world, k)
  {}

  lemma {:induction false} SendsAreApart(world: nat -> Meeting, k: nat)
    ensures SendAt(world, k) >= 4_000_000_000 * k
  {
    if k > 0 {
      SendsAreApart(world, k - 1);
      NextSendIsLater(world, k - 1);
    }
  }

  lemma NextSendIsLater(world: nat -> Meeting, k: nat)
    ensures SendAt(world, k + 1) >= SendAt(world, k) + 4_000_000_000
  {
    WaitIsLong(world, k);
    NextSend(world, k);
  }

  lemma ThirdResend(world: nat -> Meeting)
    ensures SendAt(world, 3) >= 28 * SECOND
  {
    WaitIsLong(world, 0);
    WaitIsLong(world, 1);
    WaitIsLong(world, 2);
    IntervalsAreWhole(1);
    IntervalsAreWhole(2);
    NextSend(world, 0);
    NextSend(world, 1);
    NextSend(world, 2);
  }

  lemma {:induction false} LaterSendsAreFar(world: nat -> Meeting, k: nat)
    requires k >= 3
    ensures SendAt(world, k) >= 24 * SECOND * k - 44 * SECOND
  {
    if k == 3 {
      ThirdResend(world);
    } else {
      LaterSendsAreFar(world, k - 1);
      WaitIsLong(world, k - 1);
      IntervalsAreWhole(k - 1);
      NextSend(world, k - 1);
    }
  }

  /** **Every sending begins inside the granted lease, and there are few of them**:
      fewer than one for every four seconds of it, and from the third resend on one for
      every twenty-four. */
  lemma ResendsAreBounded(world: nat -> Meeting, granted: nat, last: nat)
    requires last > 0 && SendsAgain(world, granted, last - 1)
    ensures SendAt(world, last) < granted
    ensures 4 * SECOND * last < granted
    ensures last >= 3 ==> 24 * SECOND * last < granted + 44 * SECOND
  {
    SendsAreApart(world, last);
    if last >= 3 {
      LaterSendsAreFar(world, last);
    }
  }

  /** **How long each wait is**: its own draw of an interval that doubles from five seconds
      to thirty, or what the Server asked for where that is longer. */
  lemma WaitIs(world: nat -> Meeting, k: nat)
    ensures var interval := Min(5_000_000_000 * Pow2(k), 30_000_000_000);
            var draw, answer := Jitter(interval, world(k).draw), world(k).answer;
            Wait(world, k) == if answer.Refused? && answer.retryAfter.Some? && answer.retryAfter.value > draw
                              then answer.retryAfter.value else draw
  {
    IntervalDoubles(FIVE, THIRTY, k);
  }

  /** **Which outcome, exactly**, of the last sending, and when there is another. */
  lemma OutcomeIs(world: nat -> Meeting, granted: nat, k: nat)
    ensures var answer := world(k).answer;
            var over := SendAt(world, k) + world(k).took + Wait(world, k) >= granted;
            && SendAt(world, 0) == 0
            && SendAt(world, k + 1) == SendAt(world, k) + world(k).took + Wait(world, k)
            && (EndsAs(world, granted, k) == Delivered <==> answer == Accepted)
            && (EndsAs(world, granted, k) == Dropped <==> answer == LeaseLost)
            && (EndsAs(world, granted, k) == GivenUp <==> answer.Refused? && (!answer.retryable || over))
            && (EndsAs(world, granted, k) == Stopped <==> answer.Refused? && answer.retryable && !over)
            && (SendsAgain(world, granted, k) <==>
                  answer.Refused? && answer.retryable && !over && !world(k).stopped)
  {}

  /** A `Retry-After` longer than what is left of the lease ends the report at once; a
      shorter one is waited out in full. */
  lemma RetryAfterIsHonoured(world: nat -> Meeting, granted: nat, k: nat, asked: nat)
    requires world(k).answer == Refused(true, Some(asked))
    ensures SendsAgain(world, granted, k) ==> SendAt(world, k + 1) >= SendAt(world, k) + world(k).took + asked
    ensures SendAt(world, k) + world(k).took + asked >= granted ==> EndsAs(world, granted, k) == GivenUp
  {}
}
