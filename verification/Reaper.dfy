/** The decision to stop a run (docker.rs).

    Durations are whole nanoseconds. */
module Reaper {
  import opened Text

  const SECOND: nat := 1_000_000_000
  const MILLI: nat := 1_000_000
  const STARTUP_ALLOWANCE: nat := 2 * SECOND
  const U64_MAX: nat := 0xFFFF_FFFF_FFFF_FFFF

  datatype Stopped = TimeLimit | NeverStarted | WallClock | Overall

  /** A run's two figures: how long without progress, and its processor limit if timed. */
  datatype Profile = Profile(window: nat, limit: Option<nat>)

  function CpuCeiling(limit: nat): nat {
    limit + STARTUP_ALLOWANCE
  }

  function Ceiling(p: Profile): Option<nat> {
    match p.limit case None => None case Some(l) => Some(CpuCeiling(l))
  }

  function AbsoluteCap(window: nat, ceiling: Option<nat>): nat {
    match ceiling case Some(c) => c * 5 case None => window
  }

  function Cap(p: Profile): nat {
    AbsoluteCap(p.window, Ceiling(p))
  }

  /** What one look sees: the time since the look before it, the time since the
      start, the processor time, the pressure, and the bytes moved. */
  datatype Look = Look(since: nat, elapsed: nat, cpu: Option<nat>, stalled: Option<nat>, moved: nat)

  // ---- the reference, over a whole trace of looks

  function MovedBefore(looks: seq<Look>, i: nat): nat
    requires i <= |looks|
  {
    if i == 0 then 0 else looks[i - 1].moved
  }

  /** The last pressure reading among the first `i` looks. */
  function PressureBefore(looks: seq<Look>, i: nat): Option<nat>
    requires i <= |looks|
  {
    if i == 0 then None
    else if looks[i - 1].stalled.Some? then looks[i - 1].stalled
    else PressureBefore(looks, i - 1)
  }

  /** The highest processor reading among the first `i` looks of a timed run. */
  function Best(p: Profile, looks: seq<Look>, i: nat): nat
    requires i <= |looks|
  {
    if i == 0 then 0
    else
      var before := Best(p, looks, i - 1);
      match looks[i - 1].cpu
      case Some(cpu) => if p.limit.Some? && cpu > before then cpu else before
      case None => before
  }

  /** Bytes crossed, or a timed run's processor reading rose above every earlier one. */
  predicate Progress(p: Profile, looks: seq<Look>, i: nat)
    requires i < |looks|
  {
    || looks[i].moved > MovedBefore(looks, i)
    || (p.limit.Some? && looks[i].cpu.Some? && looks[i].cpu.value > Best(p, looks, i))
  }

  /** A timed, measured run that was runnable and not scheduled since the last reading. */
  predicate Starved(p: Profile, looks: seq<Look>, i: nat)
    requires i < |looks|
  {
    && p.limit.Some? && looks[i].cpu.Some?
    && looks[i].stalled.Some? && PressureBefore(looks, i).Some?
    && looks[i].stalled.value > PressureBefore(looks, i).value
  }

  /** How many of the first `i` looks there are up to and including the last that saw progress. */
  function LastProgress(p: Profile, looks: seq<Look>, i: nat): (n: nat)
    requires i <= |looks|
    ensures n <= i
  {
    if i == 0 then 0 else if Progress(p, looks, i - 1) then i else LastProgress(p, looks, i - 1)
  }

  /** The time of looks `from..to` that was not spent waiting for a processor. */
  function Waited(p: Profile, looks: seq<Look>, from: nat, to: nat): nat
    requires from <= to <= |looks|
  {
    if from == to then 0
    else Waited(p, looks, from, to - 1) + (if Starved(p, looks, to - 1) then 0 else looks[to - 1].since)
  }

  /** The quiet time after `i` looks: what has passed since the last progress, less
      the looks that found the run starved. */
  function Quiet(p: Profile, looks: seq<Look>, i: nat): nat
    requires i <= |looks|
  {
    Waited(p, looks, LastProgress(p, looks, i), i)
  }

  predicate OverBudget(p: Profile, look: Look) {
    p.limit.Some? && look.cpu.Some? && look.cpu.value > CpuCeiling(p.limit.value)
  }

  /** What look `i` of a trace answers, said about the trace alone. */
  function Answer(p: Profile, looks: seq<Look>, i: nat): Option<Stopped>
    requires i < |looks|
  {
    var look, quiet := looks[i], Quiet(p, looks, i + 1);
    if OverBudget(p, look) then Some(TimeLimit)
    else if quiet < p.window && look.elapsed < Cap(p) then None
    else if p.limit.Some? && Best(p, looks, i + 1) == 0 && look.moved == 0 then Some(NeverStarted)
    else if quiet >= p.window then Some(WallClock)
    else Some(Overall)
  }

  // ---- the machine

  class Watch {
    const window: nat
    const ceiling: Option<nat>
    const cap: nat
    var best: nat
    var idle: nat
    var stalled: Option<nat>
    var moved: nat

    /** The profile it was made for, and every look it has been given. */
    ghost const profile: Profile
    ghost var looks: seq<Look>

    /** While nothing has ended the run, every field is a function of the looks alone. */
    ghost predicate Valid()
      reads this
    {
      && window == profile.window && ceiling == Ceiling(profile) && cap == Cap(profile)
      && best == Best(profile, looks, |looks|)
      && idle == Quiet(profile, looks, |looks|)
      && stalled == PressureBefore(looks, |looks|)
      && moved == MovedBefore(looks, |looks|)
    }

    constructor (p: Profile)
      ensures Valid() && profile == p && looks == []
    {
      window, ceiling, cap := p.window, Ceiling(p), AbsoluteCap(p.window, Ceiling(p));
      best, idle, stalled, moved := 0, 0, None, 0;
      profile, looks := p, [];
    }

    /** Whether pressure has grown since it was last read, which this reading is from now on. */
    method WaitedForAProcessor(now: Option<nat>) returns (grew: bool)
      modifies this`stalled
      ensures stalled == if now.Some? then now else old(stalled)
      ensures grew <==> now.Some? && old(stalled).Some? && now.value > old(stalled).value
    {
      if now == None {
        return false;
      }
      grew := stalled.Some? && now.value > stalled.value;
      stalled := now;
    }

    /** Takes one look into account, or finds the run over its budget. */
    method Observe(look: Look) returns (over: bool)
      requires Valid()
      modifies this
      ensures looks == old(looks) + [look]
      ensures over <==> OverBudget(profile, look)
      ensures !over ==> Valid()
    {
      NextLook(profile, looks, look);
      looks := looks + [look];
      var waiting := WaitedForAProcessor(look.stalled);
      var talked := look.moved > moved;
      moved := look.moved;
      if look.cpu.Some? && ceiling.Some? {
        var cpu := look.cpu.value;
        if cpu > ceiling.value {
          return true;
        }
        if cpu > best || talked {
          best := if cpu > best then cpu else best;
          idle := 0;
        } else if !waiting {
          idle := idle + look.since;
        }
      } else if talked {
        idle := 0;
      } else {
        idle := idle + look.since;
      }
      return false;
    }

    /** One look, and whether it ends the run: what the trace so far answers. */
    method Tick(look: Look) returns (answer: Option<Stopped>)
      requires Valid()
      modifies this
      ensures looks == old(looks) + [look]
      ensures answer == Answer(profile, looks, |old(looks)|)
      ensures answer != Some(TimeLimit) ==> Valid()
    {
      var over := Observe(look);
      if over {
        return Some(TimeLimit);
      }
      if idle < window && look.elapsed < cap {
        return None;
      }
      if ceiling.Some? && best == 0 && moved == 0 {
        return Some(NeverStarted);
      }
      if idle >= window {
        return Some(WallClock);
      }
      return Some(Overall);
    }
  }

  /** What one more look makes of a trace, in terms of the trace without it. */
  lemma NextLook(p: Profile, was: seq<Look>, look: Look)
    ensures var looks, n, best := was + [look], |was|, Best(p, was, |was|);
            var talked := look.moved > MovedBefore(was, n);
            var waiting := look.stalled.Some? && PressureBefore(was, n).Some?
                           && look.stalled.value > PressureBefore(was, n).value;
            var timed := p.limit.Some? && look.cpu.Some?;
            && MovedBefore(looks, n + 1) == look.moved
            && PressureBefore(looks, n + 1) == (if look.stalled.Some? then look.stalled else PressureBefore(was, n))
            && Best(p, looks, n + 1) == (if timed && look.cpu.value > best then look.cpu.value else best)
            && Quiet(p, looks, n + 1) ==
                 if talked || (timed && look.cpu.value > best) then 0
                 else if timed && waiting then Quiet(p, was, n)
                 else Quiet(p, was, n) + look.since
  {
    var looks, n := was + [look], |was|;
    SameTrace(p, was, look, n);
    QuietStep(p, looks, n);
  }

  /** What a trace says of its first `i` looks does not change as it grows. */
  lemma {:induction false} SameTrace(p: Profile, looks: seq<Look>, next: Look, i: nat)
    requires i <= |looks|
    ensures MovedBefore(looks + [next], i) == MovedBefore(looks, i)
    ensures PressureBefore(looks + [next], i) == PressureBefore(looks, i)
    ensures Best(p, looks + [next], i) == Best(p, looks, i)
    ensures LastProgress(p, looks + [next], i) == LastProgress(p, looks, i)
    ensures Quiet(p, looks + [next], i) == Quiet(p, looks, i)
  {
    if i > 0 {
      SameTrace(p, looks, next, i - 1);
    }
    SameWaited(p, looks, next, LastProgress(p, looks, i), i);
  }

  lemma {:induction false} SameReadings(p: Profile, looks: seq<Look>, next: Look, i: nat)
    requires i < |looks|
    ensures Starved(p, looks + [next], i) == Starved(p, looks, i)
  {
    SamePressure(looks, next, i);
  }

  lemma {:induction false} SamePressure(looks: seq<Look>, next: Look, i: nat)
    requires i <= |looks|
    ensures PressureBefore(looks + [next], i) == PressureBefore(looks, i)
  {
    if i > 0 {
      SamePressure(looks, next, i - 1);
    }
  }

  lemma {:induction false} SameWaited(p: Profile, looks: seq<Look>, next: Look, from: nat, to: nat)
    requires from <= to <= |looks|
    ensures Waited(p, looks + [next], from, to) == Waited(p, looks, from, to)
  {
    if from < to {
      SameWaited(p, looks, next, from, to - 1);
      SameReadings(p, looks, next, to - 1);
    }
  }

  /** The reaping loop: looks until one of them ends the run, and says which. */
  method Reap(p: Profile, looks: seq<Look>) returns (ended: Option<(nat, Stopped)>)
    ensures ended == None ==> forall i | 0 <= i < |looks| :: Answer(p, looks, i) == None
    ensures ended.Some? ==>
              && ended.value.0 < |looks|
              && Answer(p, looks, ended.value.0) == Some(ended.value.1)
              && forall i | 0 <= i < ended.value.0 :: Answer(p, looks, i) == None
  {
    var watch := new Watch(p);
    var i := 0;
    while i < |looks|
      invariant 0 <= i <= |looks|
      invariant watch.Valid() && watch.profile == p && watch.looks == looks[..i]
      invariant forall j | 0 <= j < i :: Answer(p, looks, j) == None
    {
      var answer := watch.Tick(looks[i]);
      assert looks[..i + 1] == looks[..i] + [looks[i]];
      AnswerOfPrefix(p, looks, i);
      if answer.Some? {
        return Some((i, answer.value));
      }
      i := i + 1;
    }
    return None;
  }

  /** An answer depends only on the looks up to it. */
  lemma {:induction false} AnswerOfPrefix(p: Profile, looks: seq<Look>, i: nat)
    requires i < |looks|
    ensures Answer(p, looks, i) == Answer(p, looks[..i + 1], i)
    decreases |looks|
  {
    if i + 1 < |looks| {
      var front, last := looks[..|looks| - 1], looks[|looks| - 1];
      assert looks == front + [last] && front[..i + 1] == looks[..i + 1];
      SameTrace(p, front, last, i + 1);
      AnswerOfPrefix(p, front, i);
    } else {
      assert looks[..i + 1] == looks;
    }
  }

  // ---- every run ends, and none ends too soon

  function ElapsedBefore(looks: seq<Look>, i: nat): nat
    requires i <= |looks|
  {
    if i == 0 then 0 else looks[i - 1].elapsed
  }

  /** Looks are taken at a real clock: the time between two of them has passed. */
  predicate Clocked(looks: seq<Look>) {
    forall i | 0 <= i < |looks| :: ElapsedBefore(looks, i) + looks[i].since <= looks[i].elapsed
  }

  lemma {:induction false} WaitedAtMostElapsed(p: Profile, looks: seq<Look>, from: nat, to: nat)
    requires from <= to <= |looks| && Clocked(looks)
    ensures Waited(p, looks, from, to) <= ElapsedBefore(looks, to)
  {
    if from < to {
      WaitedAtMostElapsed(p, looks, from, to - 1);
    }
  }

  /** **A timed run ends** no later than the first look at or past five times its
      ceiling, whatever the readings. */
  lemma TimedRunEnds(p: Profile, looks: seq<Look>, i: nat)
    requires i < |looks| && p.limit.Some?
    requires looks[i].elapsed >= 5 * (p.limit.value + 2 * SECOND)
    ensures Answer(p, looks, i).Some?
  {}

  /** **An untimed run ends at exactly its window**, even while it computes or talks. */
  lemma UntimedRunEndsAtWindow(p: Profile, looks: seq<Look>, i: nat)
    requires i < |looks| && p.limit == None && Clocked(looks)
    ensures Answer(p, looks, i).Some? <==> looks[i].elapsed >= p.window
    ensures Answer(p, looks, i).Some? ==> Answer(p, looks, i).value in {WallClock, Overall}
  {
    WaitedAtMostElapsed(p, looks, LastProgress(p, looks, i + 1), i + 1);
  }

  /** **Slow is not stopped.**  A timed run is let be for exactly as long as it is
      inside its ceiling, its quiet time below the window and the cap not reached. */
  lemma TimedRunIsLetBe(p: Profile, looks: seq<Look>, i: nat)
    requires i < |looks| && p.limit.Some?
    ensures Answer(p, looks, i) == None <==>
              && (looks[i].cpu.Some? ==> looks[i].cpu.value <= p.limit.value + 2 * SECOND)
              && Quiet(p, looks, i + 1) < p.window
              && looks[i].elapsed < 5 * (p.limit.value + 2 * SECOND)
  {}

  /** The bytes moved have grown since the look before. */
  predicate Talked(looks: seq<Look>, i: nat)
    requires i < |looks|
  {
    looks[i].moved > if i == 0 then 0 else looks[i - 1].moved
  }

  /** The processor reading is above zero and above every one before it. */
  predicate Computed(looks: seq<Look>, i: nat)
    requires i < |looks|
  {
    && looks[i].cpu.Some? && looks[i].cpu.value > 0
    && forall j | 0 <= j < i && looks[j].cpu.Some? :: looks[j].cpu.value < looks[i].cpu.value
  }

  /** Look `j` is the last before `i` to read any pressure. */
  predicate LastPressure(looks: seq<Look>, i: nat, j: nat)
    requires i <= |looks|
  {
    j < i && looks[j].stalled.Some? && forall k | j < k < i :: looks[k].stalled == None
  }

  /** The pressure has grown since it was last read. */
  ghost predicate Squeezed(looks: seq<Look>, i: nat)
    requires i < |looks|
  {
    && looks[i].stalled.Some?
    && exists j: nat :: LastPressure(looks, i, j) && looks[i].stalled.value > looks[j].stalled.value
  }

  lemma {:induction false} PressureIsLast(looks: seq<Look>, i: nat)
    requires i <= |looks|
    ensures forall j: nat :: LastPressure(looks, i, j) ==> PressureBefore(looks, i) == looks[j].stalled
    ensures PressureBefore(looks, i).Some? ==> exists j: nat :: LastPressure(looks, i, j)
  {
    if i > 0 {
      PressureIsLast(looks, i - 1);
      if looks[i - 1].stalled.Some? {
        assert LastPressure(looks, i, i - 1);
      } else if PressureBefore(looks, i - 1).Some? {
        var j :| LastPressure(looks, i - 1, j);
        assert LastPressure(looks, i, j);
      }
      forall j: nat | LastPressure(looks, i, j) ensures PressureBefore(looks, i) == looks[j].stalled {
        assert j < i - 1 ==> LastPressure(looks, i - 1, j);
      }
    }
  }

  lemma SqueezedIs(looks: seq<Look>, i: nat)
    requires i < |looks|
    ensures Squeezed(looks, i) <==>
              && looks[i].stalled.Some? && PressureBefore(looks, i).Some?
              && looks[i].stalled.value > PressureBefore(looks, i).value
  {
    PressureIsLast(looks, i);
  }

  lemma ComputedIs(p: Profile, looks: seq<Look>, i: nat)
    requires i < |looks| && p.limit.Some?
    ensures Computed(looks, i) <==> looks[i].cpu.Some? && looks[i].cpu.value > Best(p, looks, i)
  {
    BestIsMaximum(p, looks, i);
  }

  /** **What the quiet time is**: none after a look that found bytes moved or, in a timed run,
      more processor time than ever; what it was after a look at a timed, measured run whose
      pressure grew; and longer by the look after any other. */
  lemma QuietStep(p: Profile, looks: seq<Look>, i: nat)
    requires i < |looks|
    ensures Quiet(p, looks, 0) == 0
    ensures Quiet(p, looks, i + 1) ==
              if Talked(looks, i) || (p.limit.Some? && Computed(looks, i)) then 0
              else if p.limit.Some? && looks[i].cpu.Some? && Squeezed(looks, i) then Quiet(p, looks, i)
              else Quiet(p, looks, i) + looks[i].since
  {
    SqueezedIs(looks, i);
    if p.limit.Some? {
      ComputedIs(p, looks, i);
    }
  }

  /** **Which answer, exactly.**  A timed run is over its budget where it has read more than
      its limit and two seconds. */
  lemma TimeLimitIff(p: Profile, looks: seq<Look>, i: nat)
    requires i < |looks|
    ensures Answer(p, looks, i) == Some(TimeLimit) <==>
              p.limit.Some? && looks[i].cpu.Some? && looks[i].cpu.value > p.limit.value + 2_000_000_000
  {}

  /** Short of that, it is stopped when it has been quiet for the window or the cap is
      reached, and the reason is: nothing was ever read or moved in a timed run; else the
      quiet; else the cap. */
  lemma OtherAnswersIff(p: Profile, looks: seq<Look>, i: nat)
    requires i < |looks| && Answer(p, looks, i) != Some(TimeLimit)
    ensures var quiet := Quiet(p, looks, i + 1) >= p.window;
            var late := looks[i].elapsed >= if p.limit.Some? then 5 * (p.limit.value + 2 * SECOND) else p.window;
            var nothing := p.limit.Some? && looks[i].moved == 0
                           && forall j | 0 <= j <= i && looks[j].cpu.Some? :: looks[j].cpu.value == 0;
            && (Answer(p, looks, i) == None <==> !quiet && !late)
            && (Answer(p, looks, i) == Some(NeverStarted) <==> (quiet || late) && nothing)
            && (Answer(p, looks, i) == Some(WallClock) <==> quiet && !nothing)
            && (Answer(p, looks, i) == Some(Overall) <==> late && !quiet && !nothing)
  {
    if p.limit.Some? {
      BestIsMaximum(p, looks, i + 1);
    }
  }

  /** In every stretch of looks as long as the window there is some progress. */
  ghost predicate Steady(p: Profile, looks: seq<Look>) {
    forall a, b | 0 <= a < b <= |looks| && Length(looks, a, b) >= p.window ::
      exists j :: a <= j < b && (Talked(looks, j) || (p.limit.Some? && Computed(looks, j)))
  }

  lemma {:induction false} SteadyProgressIsNeverQuiet(p: Profile, looks: seq<Look>, i: nat)
    requires i <= |looks| && p.window > 0 && Steady(p, looks)
    ensures Quiet(p, looks, i) < p.window
  {
    var a := LastProgress(p, looks, i);
    NoProgressSince(p, looks, i);
    forall j | a <= j < i ensures !Talked(looks, j) && !(p.limit.Some? && Computed(looks, j)) {
      assert !Progress(p, looks, j);
      if p.limit.Some? {
        ComputedIs(p, looks, j);
      }
    }
    WaitedAtMostLength(p, looks, a, i);
  }

  /** **A slow program that is working is never killed for it**: however little it does
      between looks, only its own ceiling or the cap ends it. */
  lemma SlowButWorkingRunsToTheCap(p: Profile, looks: seq<Look>, i: nat)
    requires i < |looks| && p.limit.Some? && p.window > 0 && Steady(p, looks)
    requires looks[i].cpu.Some? ==> looks[i].cpu.value <= p.limit.value + 2 * SECOND
    ensures Answer(p, looks, i) == None <==> looks[i].elapsed < 5 * (p.limit.value + 2 * SECOND)
    ensures Answer(p, looks, i) != Some(WallClock)
  {
    SteadyProgressIsNeverQuiet(p, looks, i + 1);
  }

  function Length(looks: seq<Look>, a: nat, b: nat): nat
    requires a <= b <= |looks|
  {
    if a == b then 0 else Length(looks, a, b - 1) + looks[b - 1].since
  }

  lemma {:induction false} WaitedAtMostLength(p: Profile, looks: seq<Look>, a: nat, b: nat)
    requires a <= b <= |looks|
    ensures Waited(p, looks, a, b) <= Length(looks, a, b)
  {
    if a < b {
      WaitedAtMostLength(p, looks, a, b - 1);
    }
  }

  lemma {:induction false} NoProgressSince(p: Profile, looks: seq<Look>, i: nat)
    requires i <= |looks|
    ensures forall j | LastProgress(p, looks, i) <= j < i :: !Progress(p, looks, j)
  {
    if i > 0 && !Progress(p, looks, i - 1) {
      NoProgressSince(p, looks, i - 1);
    }
  }

  /** `Best` is a reading that was seen, or zero, and no reading was higher. */
  lemma {:induction false} BestIsMaximum(p: Profile, looks: seq<Look>, i: nat)
    requires i <= |looks| && p.limit.Some?
    ensures forall j | 0 <= j < i && looks[j].cpu.Some? :: looks[j].cpu.value <= Best(p, looks, i)
    ensures Best(p, looks, i) == 0 || exists j :: 0 <= j < i && looks[j].cpu == Some(Best(p, looks, i))
  {
    if i > 0 {
      BestIsMaximum(p, looks, i - 1);
      if Best(p, looks, i) != Best(p, looks, i - 1) {
        assert looks[i - 1].cpu == Some(Best(p, looks, i));
      }
    }
  }

  /** **Nothing recorded, nothing failed.**  A timed run is reported as never started
      only if no look ever read any processor time and no byte has crossed. */
  lemma NeverStartedMeansNothing(p: Profile, looks: seq<Look>, i: nat)
    requires i < |looks| && Answer(p, looks, i) == Some(NeverStarted)
    ensures p.limit.Some? && looks[i].moved == 0
    ensures forall j | 0 <= j <= i && looks[j].cpu.Some? :: looks[j].cpu.value == 0
  {
    BestIsMaximum(p, looks, i + 1);
  }

  /** The window a test is given: four times its limit and four seconds, the
      multiplication saturating at 64 bits. */
  function ReapingDeadline(timeMs: nat): nat {
    (if timeMs * 4 > U64_MAX then U64_MAX else timeMs * 4) * MILLI + 4 * SECOND
  }

  /** Whatever the limit, the cap exceeds the window by at least that limit and six seconds. */
  lemma CapAboveWindow(timeMs: nat)
    ensures ReapingDeadline(timeMs) + timeMs * MILLI + 6 * SECOND
         <= Cap(Profile(ReapingDeadline(timeMs), Some(timeMs * MILLI)))
    ensures Cap(Profile(ReapingDeadline(timeMs), Some(timeMs * MILLI))) == 5 * (timeMs * 1_000_000 + 2_000_000_000)
    ensures timeMs <= 0xFFFF_FFFF_FFFF_FFFF / 4 ==> ReapingDeadline(timeMs) == timeMs * 4_000_000 + 4_000_000_000
    ensures timeMs > 0xFFFF_FFFF_FFFF_FFFF / 4 ==>
              ReapingDeadline(timeMs) == 0xFFFF_FFFF_FFFF_FFFF * 1_000_000 + 4_000_000_000
  {}
}
