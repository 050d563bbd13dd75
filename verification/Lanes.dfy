/** One gate per lane, and readings that are differences on a shared counter
    (aj-sandbox/cgroups.rs, under the systemd driver).

    A state machine over any number of lanes and runs.  Processor time is in
    microseconds.  A slice that nothing is running in may be removed and remade by
    systemd; it is not reset under a run, and no run is cancelled. */
module Lanes {
  import opened Text

  /** A measured run's container: not made yet, running, or removed. */
  datatype Stage = Opened | Running | Removed

  datatype Run =
    | Waiting(want: nat)
    | Open(lane: nat, before: nat, used: nat, stage: Stage)
    | Done(lane: nat, used: nat, reading: Option<nat>, started: bool)
    | Beside(used: nat)

  /** One lane: its slice's counter, where the slice exists, whether its gate is taken,
      and what removed slices had reached, less what the first already counted. */
  datatype Lane = Lane(counter: Option<nat>, taken: bool, retired: int)

  datatype State = State(lanes: seq<Lane>, runs: seq<Run>)

  datatype Step =
    | Arrive(want: nat)
    | ArriveBeside
    | Begin(run: nat)
    | Start(run: nat)
    | Remove(run: nat)
    | Spend(run: nat, time: nat)
    | Finish(run: nat)
    | Vanish(lane: nat)

  function OrZero(n: Option<nat>): nat {
    match n case Some(v) => v case None => 0
  }

  /** `Homes::lane`: an index has its own lane, and the first lane only where it is nobody's. */
  function LaneOf(lanes: nat, want: nat): (lane: nat)
    requires lanes > 0
    ensures lane < lanes && (lane == want || (want >= lanes && lane == 0))
  {
    if want < lanes then want else 0
  }

  /** What `Measuring::finish` makes of the counter before and after. */
  function Reading(before: nat, after: Option<nat>): Option<nat> {
    match after
    case None => None
    case Some(now) => Some(if now >= before then now - before else now)
  }

  predicate IsAt(s: State, run: Run, stage: Stage) {
    run.Open? && run.stage == stage && run.lane < |s.lanes|
  }

  predicate Can(s: State, step: Step) {
    match step
    case Arrive(_) => true
    case ArriveBeside => true
    case Begin(r) =>
      && r < |s.runs| && s.runs[r].Waiting? && s.lanes != []
      && !s.lanes[LaneOf(|s.lanes|, s.runs[r].want)].taken
    case Start(r) => r < |s.runs| && IsAt(s, s.runs[r], Opened)
    case Remove(r) => r < |s.runs| && IsAt(s, s.runs[r], Running)
    // Processor time is spent by programs that are there: beside, or in a running container.
    case Spend(r, _) => r < |s.runs| && (s.runs[r].Beside? || IsAt(s, s.runs[r], Running))
    // Only once the container is removed, or never was made.
    case Finish(r) => r < |s.runs| && (IsAt(s, s.runs[r], Removed) || IsAt(s, s.runs[r], Opened))
    case Vanish(l) => l < |s.lanes| && !s.lanes[l].taken
  }

  function Do(s: State, step: Step): State
    requires Can(s, step)
  {
    match step
    case Arrive(want) => s.(runs := s.runs + [Waiting(want)])
    case ArriveBeside => s.(runs := s.runs + [Beside(0)])
    case Begin(r) =>
      var l := LaneOf(|s.lanes|, s.runs[r].want);
      State(s.lanes[l := s.lanes[l].(taken := true)], s.runs[r := Open(l, OrZero(s.lanes[l].counter), 0, Opened)])
    case Start(r) =>
      // systemd makes the slice when a container is put in it.
      var l := s.runs[r].lane;
      State(s.lanes[l := s.lanes[l].(counter := Some(OrZero(s.lanes[l].counter)))],
            s.runs[r := s.runs[r].(stage := Running)])
    case Remove(r) => s.(runs := s.runs[r := s.runs[r].(stage := Removed)])
    case Spend(r, time) =>
      if s.runs[r].Beside? then s.(runs := s.runs[r := Beside(s.runs[r].used + time)])
      else
        var l := s.runs[r].lane;
        State(s.lanes[l := s.lanes[l].(counter := Some(OrZero(s.lanes[l].counter) + time))],
              s.runs[r := Open(l, s.runs[r].before, s.runs[r].used + time, Running)])
    case Finish(r) =>
      var l := s.runs[r].lane;
      State(s.lanes[l := s.lanes[l].(taken := false)],
            s.runs[r := Done(l, s.runs[r].used, Reading(s.runs[r].before, s.lanes[l].counter),
                             s.runs[r].stage.Removed?)])
    case Vanish(l) =>
      var lane := s.lanes[l];
      s.(lanes := s.lanes[l := lane.(counter := None, retired := lane.retired + OrZero(lane.counter))])
  }

  // ---- what every step keeps

  /** The processor time of runs that were measured in lane `l`. */
  function Used(runs: seq<Run>, l: nat): nat {
    if runs == [] then 0
    else
      var last := runs[|runs| - 1];
      Used(runs[..|runs| - 1], l)
      + (if (last.Open? || last.Done?) && last.lane == l then last.used else 0)
  }

  /** What was read of them. */
  function Read(runs: seq<Run>, l: nat): nat {
    if runs == [] then 0
    else
      var last := runs[|runs| - 1];
      Read(runs[..|runs| - 1], l) + (if last.Done? && last.lane == l then OrZero(last.reading) else 0)
  }

  /** What a run still open in lane `l` has used so far. */
  function StillOpen(runs: seq<Run>, l: nat): nat {
    if runs == [] then 0
    else
      var last := runs[|runs| - 1];
      StillOpen(runs[..|runs| - 1], l) + (if last.Open? && last.lane == l then last.used else 0)
  }

  predicate IsOpenIn(run: Run, l: nat) {
    run.Open? && run.lane == l
  }

  ghost predicate OneEach(s: State) {
    forall i, j | 0 <= i < |s.runs| && 0 <= j < |s.runs| && s.runs[i].Open? && s.runs[j].Open?
                  && s.runs[i].lane == s.runs[j].lane :: i == j
  }

  ghost predicate Gated(s: State) {
    forall i | 0 <= i < |s.runs| && s.runs[i].Open? :: s.runs[i].lane < |s.lanes| && s.lanes[s.runs[i].lane].taken
  }

  predicate IsHeldBy(s: State, l: nat, i: nat) {
    i < |s.runs| && IsOpenIn(s.runs[i], l)
  }

  /** A gate that is taken is taken by an open run. */
  ghost predicate Held(s: State) {
    forall l | 0 <= l < |s.lanes| && s.lanes[l].taken :: exists i :: IsHeldBy(s, l, i)
  }

  ghost predicate Tracked(s: State) {
    forall i | 0 <= i < |s.runs| && s.runs[i].Open? ::
      && s.runs[i].lane < |s.lanes|
      && OrZero(s.lanes[s.runs[i].lane].counter) == s.runs[i].before + s.runs[i].used
      && (s.runs[i].stage.Opened? ==> s.runs[i].used == 0)
      && (!s.runs[i].stage.Opened? ==> s.lanes[s.runs[i].lane].counter.Some?)
  }

  /** A run that started is read exactly.  One that never did reads zero, or nothing where
      no slice was ever there. */
  predicate ReadsExactly(run: Run)
    requires run.Done?
  {
    run.reading == Some(run.used) || (run.reading == None && !run.started && run.used == 0)
  }

  ghost predicate Exact(s: State) {
    forall i | 0 <= i < |s.runs| && s.runs[i].Done? :: ReadsExactly(s.runs[i])
  }

  ghost predicate Conserved(s: State) {
    forall l | 0 <= l < |s.lanes| :: OrZero(s.lanes[l].counter) + s.lanes[l].retired == Used(s.runs, l)
  }

  ghost predicate Inv(s: State) {
    OneEach(s) && Gated(s) && Held(s) && Tracked(s) && Exact(s) && Conserved(s)
  }

  lemma {:induction false} UsedAfter(runs: seq<Run>, i: nat, run: Run, l: nat)
    requires i < |runs|
    ensures Used(runs[i := run], l) - Used([run], l) == Used(runs, l) - Used([runs[i]], l)
  {
    var n := |runs| - 1;
    assert [run][..0] == [] && [runs[i]][..0] == [];
    if i < n {
      UsedAfter(runs[..n], i, run, l);
      assert runs[i := run][..n] == runs[..n][i := run];
    } else {
      assert runs[i := run][..n] == runs[..n];
    }
  }

  lemma UsedOfOne(run: Run, l: nat)
    ensures Used([run], l) == if (run.Open? || run.Done?) && run.lane == l then run.used else 0
  {
    assert [run][..0] == [];
  }

  lemma KeepsGates(s: State, step: Step)
    requires Inv(s) && Can(s, step)
    ensures var t := Do(s, step); OneEach(t) && Gated(t)
  {}

  lemma KeepsHeld(s: State, step: Step)
    requires Inv(s) && Can(s, step)
    ensures Held(Do(s, step))
  {
    var t := Do(s, step);
    forall l | 0 <= l < |t.lanes| && t.lanes[l].taken ensures exists i :: IsHeldBy(t, l, i) {
      if s.lanes[l].taken {
        var i :| IsHeldBy(s, l, i);
        assert IsHeldBy(t, l, i);
      } else {
        assert IsHeldBy(t, l, step.run);
      }
    }
  }

  lemma KeepsReadings(s: State, step: Step)
    requires Inv(s) && Can(s, step)
    ensures Tracked(Do(s, step)) && Exact(Do(s, step))
  {
    KeepsTracked(s, step);
    KeepsExact(s, step);
  }

  lemma KeepsTracked(s: State, step: Step)
    requires OneEach(s) && Gated(s) && Tracked(s) && Can(s, step)
    ensures Tracked(Do(s, step))
  {}

  lemma KeepsExact(s: State, step: Step)
    requires Tracked(s) && Exact(s) && Can(s, step)
    ensures Exact(Do(s, step))
  {}

  lemma KeepsTotals(s: State, step: Step)
    requires Inv(s) && Can(s, step)
    ensures Conserved(Do(s, step))
  {
    var t := Do(s, step);
    forall l | 0 <= l < |t.lanes|
      ensures OrZero(t.lanes[l].counter) + t.lanes[l].retired == Used(t.runs, l)
    {
      match step
      case Arrive(_) => assert t.runs[..|s.runs|] == s.runs;
      case ArriveBeside => assert t.runs[..|s.runs|] == s.runs;
      case Start(r) => UsedAfter(s.runs, r, t.runs[r], l); UsedOfOne(s.runs[r], l); UsedOfOne(t.runs[r], l);
      case Remove(r) => UsedAfter(s.runs, r, t.runs[r], l); UsedOfOne(s.runs[r], l); UsedOfOne(t.runs[r], l);
      case Begin(r) => UsedAfter(s.runs, r, t.runs[r], l); UsedOfOne(s.runs[r], l); UsedOfOne(t.runs[r], l);
      case Spend(r, _) => UsedAfter(s.runs, r, t.runs[r], l); UsedOfOne(s.runs[r], l); UsedOfOne(t.runs[r], l);
      case Finish(r) => UsedAfter(s.runs, r, t.runs[r], l); UsedOfOne(s.runs[r], l); UsedOfOne(t.runs[r], l);
      case Vanish(_) =>
    }
  }

  /** A Runner's lanes before any run: every gate free, whatever the slices already count. */
  predicate Fresh(s: State) {
    && s.runs == []
    && forall l | 0 <= l < |s.lanes| :: !s.lanes[l].taken && OrZero(s.lanes[l].counter) + s.lanes[l].retired == 0
  }

  ghost predicate Runs(s: State, steps: seq<Step>, t: State)
    decreases |steps|
  {
    if steps == [] then s == t
    else Can(s, steps[0]) && Runs(Do(s, steps[0]), steps[1..], t)
  }

  lemma {:induction false} InvHolds(s: State, steps: seq<Step>, t: State)
    requires Inv(s) && Runs(s, steps, t)
    ensures Inv(t)
    decreases |steps|
  {
    if steps != [] {
      KeepsGates(s, steps[0]);
      KeepsHeld(s, steps[0]);
      KeepsReadings(s, steps[0]);
      KeepsTotals(s, steps[0]);
      InvHolds(Do(s, steps[0]), steps[1..], t);
    }
  }

  /** **One run at a time is in each slice, and each reading is exactly what its run
      used**, in every interleaving; only a run whose container never was can go unread. */
  lemma ReadingsAreExact(s: State, steps: seq<Step>, t: State)
    requires Fresh(s) && Runs(s, steps, t)
    ensures forall i, j | 0 <= i < j < |t.runs| && t.runs[i].Open? && t.runs[j].Open? ::
              t.runs[i].lane != t.runs[j].lane
    ensures forall i | 0 <= i < |t.runs| && t.runs[i].Done? :: ReadsExactly(t.runs[i])
    ensures forall i | 0 <= i < |t.runs| && t.runs[i].Done? && t.runs[i].started ::
              t.runs[i].reading == Some(t.runs[i].used)
  {
    InvHolds(s, steps, t);
  }

  lemma {:induction false} UsedSplits(runs: seq<Run>, l: nat)
    requires forall i | 0 <= i < |runs| && runs[i].Done? :: ReadsExactly(runs[i])
    ensures Used(runs, l) == Read(runs, l) + StillOpen(runs, l)
  {
    if runs != [] {
      UsedSplits(runs[..|runs| - 1], l);
    }
  }

  lemma {:induction false} NothingOpen(runs: seq<Run>, l: nat)
    requires forall i | 0 <= i < |runs| :: !IsOpenIn(runs[i], l)
    ensures StillOpen(runs, l) == 0
  {
    if runs != [] {
      var n := |runs| - 1;
      assert !IsOpenIn(runs[n], l);
      assert forall i | 0 <= i < n :: runs[..n][i] == runs[i];
      NothingOpen(runs[..n], l);
    }
  }

  /** **Nothing is charged twice or lost**: with no run open in a lane, the readings
      taken there sum to the growth of its slice's counter, over every slice it has had. */
  lemma ReadingsSumToGrowth(s: State, steps: seq<Step>, t: State, l: nat)
    requires Fresh(s) && Runs(s, steps, t) && l < |t.lanes| && !t.lanes[l].taken
    ensures Read(t.runs, l) == OrZero(t.lanes[l].counter) + t.lanes[l].retired
  {
    InvHolds(s, steps, t);
    UsedSplits(t.runs, l);
    assert forall i | 0 <= i < |t.runs| :: !IsOpenIn(t.runs[i], l);
    NothingOpen(t.runs, l);
  }

  /** **A run can be measured from beginning to end**: once its lane is free a waiting run can
      begin, start, spend any time at all, be removed and finish, and is read as that time. */
  lemma RunIsRead(s: State, before: seq<Step>, now: State, r: nat, time: nat)
    returns (t: State)
    requires Fresh(s) && Runs(s, before, now) && now.lanes != []
    requires r < |now.runs| && now.runs[r].Waiting? && !now.lanes[LaneOf(|now.lanes|, now.runs[r].want)].taken
    ensures Runs(now, [Begin(r), Start(r), Spend(r, time), Remove(r), Finish(r)], t)
    ensures |t.runs| == |now.runs| && |t.lanes| == |now.lanes|
    ensures t.runs[r] == Done(LaneOf(|now.lanes|, now.runs[r].want), time, Some(time), true)
    ensures !t.lanes[LaneOf(|now.lanes|, now.runs[r].want)].taken
  {
    InvHolds(s, before, now);
    var a := Do(now, Begin(r));
    var b := Do(a, Start(r));
    var c := Do(b, Spend(r, time));
    var d := Do(c, Remove(r));
    t := Do(d, Finish(r));
    RunsFive(now, Begin(r), a, Start(r), b, Spend(r, time), c, Remove(r), d, Finish(r), t);
  }

  lemma RunsFive(
      s: State, i: Step, a: State, j: Step, b: State, k: Step, c: State, l: Step, d: State, m: Step,
      t: State)
    requires Can(s, i) && a == Do(s, i) && Can(a, j) && b == Do(a, j) && Can(b, k) && c == Do(b, k)
    requires Can(c, l) && d == Do(c, l) && Can(d, m) && t == Do(d, m)
    ensures Runs(s, [i, j, k, l, m], t)
  {
    assert Runs(d, [m], t) by {
      assert [m][1..] == [];
    }
    assert [l, m][1..] == [m] && [k, l, m][1..] == [l, m];
    assert [j, k, l, m][1..] == [k, l, m] && [i, j, k, l, m][1..] == [j, k, l, m];
    assert Runs(c, [l, m], t);
    assert Runs(b, [k, l, m], t);
    assert Runs(a, [j, k, l, m], t);
  }

  // ---- runs beside

  /** The runs that are measured, in order. */
  function Measured(runs: seq<Run>): seq<Run> {
    if runs == [] then []
    else
      var last := runs[|runs| - 1];
      Measured(runs[..|runs| - 1]) + (if last.Beside? then [] else [last])
  }

  /** Where run `r` stands among the measured ones. */
  function Place(runs: seq<Run>, r: nat): nat {
    if r <= |runs| then |Measured(runs[..r])| else |Measured(runs)| + r
  }

  /** The same, had nothing ever been run beside anything. */
  function Alone(s: State): State {
    s.(runs := Measured(s.runs))
  }

  predicate OfBeside(s: State, step: Step) {
    step.ArriveBeside? || (step.Spend? && step.run < |s.runs| && s.runs[step.run].Beside?)
  }

  function StepAlone(s: State, step: Step): Step {
    match step
    case Begin(r) => Begin(Place(s.runs, r))
    case Start(r) => Start(Place(s.runs, r))
    case Remove(r) => Remove(Place(s.runs, r))
    case Spend(r, time) => Spend(Place(s.runs, r), time)
    case Finish(r) => Finish(Place(s.runs, r))
    case _ => step
  }

  lemma {:induction false} MeasuredAt(runs: seq<Run>, r: nat, run: Run)
    requires r < |runs| && (runs[r].Beside? <==> run.Beside?)
    ensures run.Beside? ==> Measured(runs[r := run]) == Measured(runs)
    ensures !run.Beside? ==>
              && Place(runs, r) < |Measured(runs)| && Measured(runs)[Place(runs, r)] == runs[r]
              && Measured(runs[r := run]) == Measured(runs)[Place(runs, r) := run]
  {
    var n := |runs| - 1;
    if r < n {
      MeasuredAt(runs[..n], r, run);
      assert runs[..n][..r] == runs[..r] && runs[r := run][..n] == runs[..n][r := run];
    } else {
      assert runs[r := run][..n] == runs[..n];
    }
  }

  lemma MeasuredMore(runs: seq<Run>, run: Run)
    ensures Measured(runs + [run]) == Measured(runs) + (if run.Beside? then [] else [run])
  {
    assert (runs + [run])[..|runs|] == runs;
  }

  lemma StepLeftOut(s: State, step: Step)
    requires Can(s, step) && OfBeside(s, step)
    ensures Alone(Do(s, step)) == Alone(s)
  {
    if step.ArriveBeside? {
      MeasuredMore(s.runs, Beside(0));
    } else {
      MeasuredAt(s.runs, step.run, Do(s, step).runs[step.run]);
    }
  }

  lemma StepKept(s: State, step: Step)
    requires Can(s, step) && !OfBeside(s, step)
    ensures Can(Alone(s), StepAlone(s, step)) && Do(Alone(s), StepAlone(s, step)) == Alone(Do(s, step))
  {
    match step
    case Arrive(want) => MeasuredMore(s.runs, Waiting(want));
    case ArriveBeside =>
    case Vanish(_) =>
    case Begin(r) => MeasuredAt(s.runs, r, Do(s, step).runs[r]);
    case Start(r) => MeasuredAt(s.runs, r, Do(s, step).runs[r]);
    case Remove(r) => MeasuredAt(s.runs, r, Do(s, step).runs[r]);
    case Spend(r, _) => MeasuredAt(s.runs, r, Do(s, step).runs[r]);
    case Finish(r) => MeasuredAt(s.runs, r, Do(s, step).runs[r]);
  }

  /** A run's steps less those of programs run beside. */
  function StepsAlone(s: State, steps: seq<Step>): seq<Step>
    decreases |steps|
  {
    if steps == [] || !Can(s, steps[0]) then []
    else
      var rest := StepsAlone(Do(s, steps[0]), steps[1..]);
      if OfBeside(s, steps[0]) then rest else [StepAlone(s, steps[0])] + rest
  }

  /** **What runs beside a submission perturbs nothing**: strike out of any history every
      arrival and every moment of the programs run beside, and what is left is a history
      too, with the same gates, counters, measured runs and readings at its end. */
  lemma {:induction false} BesidePerturbsNothing(s: State, steps: seq<Step>, t: State)
    requires Runs(s, steps, t)
    ensures Runs(Alone(s), StepsAlone(s, steps), Alone(t))
    decreases |steps|
  {
    if steps != [] {
      BesidePerturbsNothing(Do(s, steps[0]), steps[1..], t);
      if OfBeside(s, steps[0]) {
        StepLeftOut(s, steps[0]);
      } else {
        StepKept(s, steps[0]);
        var rest := StepsAlone(Do(s, steps[0]), steps[1..]);
        assert ([StepAlone(s, steps[0])] + rest)[1..] == rest;
      }
    }
  }

  /** Whatever the open run of a lane has come to, it can be brought to its end. */
  lemma OpenRunEnds(s: State, open: nat, l: nat) returns (steps: seq<Step>, t: State)
    requires open < |s.runs| && IsOpenIn(s.runs[open], l) && l < |s.lanes|
    ensures Runs(s, steps, t) && |t.lanes| == |s.lanes| && |t.runs| == |s.runs|
    ensures !t.lanes[l].taken
    ensures forall i | 0 <= i < |s.runs| && i != open :: t.runs[i] == s.runs[i]
    ensures forall k | 0 <= k < |steps| :: steps[k] == Remove(open) || steps[k] == Finish(open)
  {
    if s.runs[open].stage.Running? {
      var gone := Do(s, Remove(open));
      t := Do(gone, Finish(open));
      steps := [Remove(open), Finish(open)];
      assert steps[1..] == [Finish(open)];
      assert Runs(gone, [Finish(open)], t) by {
        assert [Finish(open)][1..] == [];
      }
    } else {
      t := Do(s, Finish(open));
      steps := [Finish(open)];
      assert steps[1..] == [];
    }
  }

  /** **A gate always comes free**: in every state a Runner can come to, a waiting run can
      begin once the run of its lane, if there is one, has been removed and finished. */
  lemma WaitingRunBegins(s: State, before: seq<Step>, now: State, waiting: nat)
    returns (steps: seq<Step>, t: State)
    requires Fresh(s) && Runs(s, before, now) && now.lanes != []
    requires waiting < |now.runs| && now.runs[waiting].Waiting?
    ensures Runs(now, steps, t) && Can(t, Begin(waiting))
    ensures forall k | 0 <= k < |steps| :: steps[k].Remove? || steps[k].Finish?
  {
    InvHolds(s, before, now);
    var l := LaneOf(|now.lanes|, now.runs[waiting].want);
    if now.lanes[l].taken {
      var open :| IsHeldBy(now, l, open);
      steps, t := OpenRunEnds(now, open, l);
    } else {
      steps, t := [], now;
    }
  }

  /** Were a slice to be remade under a run, its reading would still be right exactly when
      nothing had been used before that, and what came after cannot be mistaken for growth. */
  lemma ReadingAcrossRemaking(before: nat, lost: nat, since: nat)
    ensures OrZero(Reading(before, Some(since))) == lost + since <==> lost == 0 && (before == 0 || since < before)
  {}
}
