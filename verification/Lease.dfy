/** Holding a lease while the work it covers runs (aj-runner/keeper.rs, config.rs).

    Times are whole milliseconds since the Server granted the claim. */
module Lease {

  const LEASE_FLOOR := 60
  const LEASE_CEILING := 3600

  /** What the Server grants: what was asked for, never more but at the floor and never less
      but at the ceiling. */
  function Granted(leaseSeconds: nat): (ms: nat)
    ensures 60_000 <= ms <= 3_600_000
    ensures ms > 60_000 ==> ms <= 1000 * leaseSeconds
    ensures ms < 3_600_000 ==> ms >= 1000 * leaseSeconds
  {
    1000 * (if leaseSeconds < LEASE_FLOOR then LEASE_FLOOR
            else if leaseSeconds > LEASE_CEILING then LEASE_CEILING
            else leaseSeconds)
  }

  function Every(granted: nat): nat {
    if granted / 4 > 5000 then granted / 4 else 5000
  }

  /** A quarter of any lease that can be granted, exactly: the floor is never reached. */
  lemma EveryIsAQuarter(leaseSeconds: nat)
    ensures 4 * Every(Granted(leaseSeconds)) == Granted(leaseSeconds)
  {}

  datatype Answer = Renewed | LeaseLost | Transient

  /** One renewal: how long until the Server handled it (if it ever did), how long until
      the Runner heard, and what it heard.  A renewal may have been handled and its
      answer lost. */
  datatype Attempt = Attempt(handled: bool, reach: nat, took: nat, answer: Answer)

  /** When attempt `k` is sent by a keeper started at `start`. */
  function SentAt(start: nat, every: nat, attempts: seq<Attempt>, k: nat): nat
    requires k <= |attempts|
  {
    if k == 0 then start + every
    else SentAt(start, every, attempts, k - 1) + attempts[k - 1].took + every
  }

  function HandledAt(start: nat, every: nat, attempts: seq<Attempt>, k: nat): nat
    requires k < |attempts|
  {
    SentAt(start, every, attempts, k) + attempts[k].reach
  }

  /** The Server's deadline before attempt `k`: it keeps the later of two. */
  function Deadline(start: nat, granted: nat, attempts: seq<Attempt>, k: nat): nat
    requires k <= |attempts|
  {
    if k == 0 then granted
    else
      var before := Deadline(start, granted, attempts, k - 1);
      var at := HandledAt(start, Every(granted), attempts, k - 1);
      if attempts[k - 1].handled && at + granted > before then at + granted else before
  }

  /** How long the first `k` requests took. */
  function Took(attempts: seq<Attempt>, k: nat): nat
    requires k <= |attempts|
  {
    if k == 0 then 0 else Took(attempts, k - 1) + attempts[k - 1].took
  }

  /** **When renewals are sent**: an interval before each, none skipped, and the requests
      themselves between. */
  lemma {:induction false} SentAtIs(start: nat, every: nat, attempts: seq<Attempt>, k: nat)
    requires k <= |attempts|
    ensures SentAt(start, every, attempts, k) == start + (k + 1) * every + Took(attempts, k)
    ensures k < |attempts| ==>
              HandledAt(start, every, attempts, k) == start + (k + 1) * every + Took(attempts, k) + attempts[k].reach
  {
    if k > 0 {
      SentAtIs(start, every, attempts, k - 1);
      assert (k + 1) * every == k * every + every;
    }
  }

  /** **The deadline in force** is the latest that the grant or a handled renewal has set. */
  lemma {:induction false} DeadlineIsLatest(start: nat, granted: nat, attempts: seq<Attempt>, k: nat)
    requires k <= |attempts|
    ensures Deadline(start, granted, attempts, k) >= granted
    ensures forall j | 0 <= j < k && attempts[j].handled ::
              Deadline(start, granted, attempts, k) >= HandledAt(start, Every(granted), attempts, j) + granted
    ensures Deadline(start, granted, attempts, k) == granted
            || exists j :: 0 <= j < k && attempts[j].handled
                 && Deadline(start, granted, attempts, k) == HandledAt(start, Every(granted), attempts, j) + granted
  {
    if k > 0 {
      DeadlineIsLatest(start, granted, attempts, k - 1);
    }
  }

  /** The renewal loop: one attempt every interval until told the lease is gone. */
  method Keep(attempts: seq<Attempt>) returns (sent: nat)
    ensures sent <= |attempts|
    ensures forall i | 0 <= i < sent - 1 :: attempts[i].answer != LeaseLost
    ensures sent < |attempts| ==> sent > 0 && attempts[sent - 1].answer == LeaseLost
  {
    sent := 0;
    while sent < |attempts|
      invariant sent <= |attempts|
      invariant forall i | 0 <= i < sent :: attempts[i].answer != LeaseLost
    {
      var answer := attempts[sent].answer;
      sent := sent + 1;
      match answer {
        case Renewed =>
        case LeaseLost => return;
        case Transient =>
      }
    }
  }

  /** No request takes longer than `d`, the claim's answer included. */
  predicate Prompt(start: nat, attempts: seq<Attempt>, d: nat) {
    start <= d && forall i | 0 <= i < |attempts| :: attempts[i].reach <= attempts[i].took <= d
  }

  predicate OneOfThree(attempts: seq<Attempt>, i: nat)
    requires i + 2 < |attempts|
  {
    attempts[i].handled || attempts[i + 1].handled || attempts[i + 2].handled
  }

  /** Two renewals in a row may fail, never three. */
  predicate NoThreeFail(attempts: seq<Attempt>) {
    forall i | 0 <= i < |attempts| - 2 :: OneOfThree(attempts, i)
  }

  /** At every instant up to the handling of attempt `k`, since the one before it, the
      deadline in force lies ahead. */
  predicate HeldUntil(start: nat, granted: nat, attempts: seq<Attempt>, k: nat)
    requires k < |attempts|
  {
    HandledAt(start, Every(granted), attempts, k) < Deadline(start, granted, attempts, k)
  }

  ghost predicate HeldThroughout(start: nat, granted: nat, attempts: seq<Attempt>) {
    forall k | 0 <= k < |attempts| :: HeldUntil(start, granted, attempts, k)
  }

  /** At most three attempts later, at most three intervals and three requests later. */
  lemma SentWithin(start: nat, every: nat, attempts: seq<Attempt>, d: nat, j: nat, k: nat)
    requires j <= k <= |attempts| && k - j <= 3 && Prompt(start, attempts, d)
    ensures SentAt(start, every, attempts, k) <= SentAt(start, every, attempts, j) + 3 * (every + d)
    ensures k - j <= 2 ==> SentAt(start, every, attempts, k) <= SentAt(start, every, attempts, j) + 2 * (every + d)
  {
    if j < k {
      SentStep(start, every, attempts, d, k - 1);
    }
    if j + 1 < k {
      SentStep(start, every, attempts, d, k - 2);
    }
    if j + 2 < k {
      SentStep(start, every, attempts, d, k - 3);
    }
  }

  lemma SentStep(start: nat, every: nat, attempts: seq<Attempt>, d: nat, k: nat)
    requires k < |attempts| && Prompt(start, attempts, d)
    ensures SentAt(start, every, attempts, k + 1) <= SentAt(start, every, attempts, k) + every + d
  {}

  lemma {:induction false} DeadlineGrows(start: nat, granted: nat, attempts: seq<Attempt>, j: nat, k: nat)
    requires j <= k <= |attempts|
    ensures Deadline(start, granted, attempts, j) <= Deadline(start, granted, attempts, k)
  {
    if j < k {
      DeadlineGrows(start, granted, attempts, j, k - 1);
    }
  }

  /** A renewal handled at most three attempts ago still covers this one. */
  lemma CoveredBy(start: nat, granted: nat, attempts: seq<Attempt>, d: nat, j: nat, k: nat)
    requires j < k < |attempts| && k - j <= 3 && attempts[j].handled
    requires Prompt(start, attempts, d) && 4 * Every(granted) == granted && 4 * d < Every(granted)
    ensures HeldUntil(start, granted, attempts, k)
  {
    var every := Every(granted);
    SentWithin(start, every, attempts, d, j, k);
    DeadlineGrows(start, granted, attempts, j + 1, k);
  }

  /** **The lease is held at every instant** of every run in which no three renewals in
      a row fail, as long as four requests take less than one interval. */
  lemma LeaseIsHeld(leaseSeconds: nat, start: nat, attempts: seq<Attempt>, d: nat)
    requires Prompt(start, attempts, d) && NoThreeFail(attempts)
    requires 4 * d < Every(Granted(leaseSeconds))
    ensures HeldThroughout(start, Granted(leaseSeconds), attempts)
  {
    var granted := Granted(leaseSeconds);
    EveryIsAQuarter(leaseSeconds);
    forall k | 0 <= k < |attempts| ensures HeldUntil(start, granted, attempts, k) {
      if k >= 1 && attempts[k - 1].handled {
        CoveredBy(start, granted, attempts, d, k - 1, k);
      } else if k >= 2 && attempts[k - 2].handled {
        CoveredBy(start, granted, attempts, d, k - 2, k);
      } else if k >= 3 {
        assert OneOfThree(attempts, k - 3);
        CoveredBy(start, granted, attempts, d, k - 3, k);
      } else {
        SentWithin(start, Every(granted), attempts, d, 0, k);
        DeadlineGrows(start, granted, attempts, 0, k);
      }
    }
  }

  /** **And no slower requests will do**: at any longer delay some run with no three
      failures in a row loses the lease, every answer of it true. */
  lemma LeaseCanBeLost(leaseSeconds: nat, d: nat) returns (start: nat, attempts: seq<Attempt>)
    requires 4 * d >= Every(Granted(leaseSeconds))
    ensures Prompt(start, attempts, d) && NoThreeFail(attempts)
    ensures !HeldThroughout(start, Granted(leaseSeconds), attempts)
    ensures forall a | a in attempts :: a.answer.Renewed? <==> a.handled
  {
    var granted, failed := Granted(leaseSeconds), Attempt(false, d, d, Transient);
    EveryIsAQuarter(leaseSeconds);
    start, attempts := d, [failed, failed, Attempt(true, d, d, Renewed)];
    assert SentAt(start, Every(granted), attempts, 1) == 2 * d + 2 * Every(granted);
    assert SentAt(start, Every(granted), attempts, 2) == 3 * d + 3 * Every(granted);
    assert Deadline(start, granted, attempts, 1) == granted;
    assert Deadline(start, granted, attempts, 2) == granted;
    assert !HeldUntil(start, granted, attempts, 2);
  }
}
