/**
 * The usage-episode detector of the monitoring loop: a hysteresis state
 * machine over the two module globals `gpu_usage_start` and
 * `cool_down_start`, fed one successful utilisation sample per loop
 * iteration. Times are whole seconds.
 */
module Detector {
  import opened Wrappers

  /** One successful reading: the wall-clock second it was taken and the utilisation in percent. */
  datatype Sample = Sample(time: int, pct: int)

  /**
   * A closed usage episode. `end` is the moment utilisation first fell to or
   * below the threshold, not the moment the cool-down expired.
   */
  datatype Episode = Episode(start: int, end: int, duration: int)

  /** The detector's markers: when the current episode began, and when its cool-down began. */
  datatype State = State(gpuUsageStart: Option<int>, coolDownStart: Option<int>)

  /** What one sample makes the loop announce: nothing, a start, or a closed episode. */
  datatype Event = Quiet | Started(at: int) | Ended(episode: Episode)

  datatype StepResult = StepResult(state: State, event: Event)

  /** No episode open, no cool-down running; the state the process starts in. */
  const Idle := State(None, None)

  /** A cool-down is only ever running inside an open episode. */
  predicate Valid(s: State) {
    s.coolDownStart.Some? ==> s.gpuUsageStart.Some?
  }

  /** The markers are in time order and not in the future of `now`. */
  predicate Ordered(s: State, now: int) {
    && (s.gpuUsageStart.Some? ==> s.gpuUsageStart.value <= now)
    && (s.coolDownStart.Some? ==>
          s.gpuUsageStart.Some? && s.gpuUsageStart.value <= s.coolDownStart.value <= now)
  }

  /**
   * One sample. Strictly above the threshold counts as activity: it opens an
   * episode when none is open and always cancels a running cool-down. A sample
   * at or below the threshold inside an episode starts the cool-down when none
   * runs, and otherwise closes the episode once the cool-down has lasted
   * `coolDownPeriod` seconds; the closed episode ends where the cool-down began.
   */
  function Step(threshold: int, coolDownPeriod: int, s: State, now: int, pct: int): (r: StepResult)
    ensures Valid(s) ==> Valid(r.state)
    // An episode opens exactly on an active sample while idle, and opens at the sample's time.
    ensures r.event.Started? <==> pct > threshold && s.gpuUsageStart.None?
    ensures r.event.Started? ==> r.state.gpuUsageStart == Some(now) && r.event.at == now
    // Activity always leaves an open episode with no cool-down running.
    ensures pct > threshold ==> r.state.gpuUsageStart.Some? && r.state.coolDownStart.None?
    // An open episode keeps its start until it closes.
    ensures s.gpuUsageStart.Some? && !r.event.Ended? ==> r.state.gpuUsageStart == s.gpuUsageStart
    // A low sample while idle changes nothing.
    ensures pct <= threshold && s.gpuUsageStart.None? ==> r == StepResult(s, Quiet)
    // The first low sample of an episode only starts the cool-down, whatever the period.
    ensures pct <= threshold && s.gpuUsageStart.Some? && s.coolDownStart.None? ==>
              r == StepResult(State(s.gpuUsageStart, Some(now)), Quiet)
    // A low sample while a cool-down runs and has not expired changes nothing.
    ensures pct <= threshold && s.coolDownStart.Some? && now - s.coolDownStart.value < coolDownPeriod ==>
              r == StepResult(s, Quiet)
    // An episode closes exactly on a later low sample once the cool-down has lasted long enough.
    ensures r.event.Ended? <==>
              && pct <= threshold && s.gpuUsageStart.Some? && s.coolDownStart.Some?
              && now - s.coolDownStart.value >= coolDownPeriod
    // Closing reports start to cool-down start, without the cool-down wait, and returns to idle.
    ensures r.event.Ended? ==>
              && r.state == Idle
              && r.event.episode.start == s.gpuUsageStart.value
              && r.event.episode.end == s.coolDownStart.value
              && r.event.episode.duration == r.event.episode.end - r.event.episode.start
    ensures Ordered(s, now) && r.event.Ended? ==> r.event.episode.duration >= 0
  {
    if pct > threshold then
      if s.gpuUsageStart.None? then StepResult(State(Some(now), None), Started(now))
      else StepResult(State(s.gpuUsageStart, None), Quiet)
    else if s.gpuUsageStart.None? then
      StepResult(s, Quiet)
    else if s.coolDownStart.None? then
      StepResult(State(s.gpuUsageStart, Some(now)), Quiet)
    else if now - s.coolDownStart.value >= coolDownPeriod then
      var start, end := s.gpuUsageStart.value, s.coolDownStart.value;
      StepResult(Idle, Ended(Episode(start, end, end - start)))
    else
      StepResult(s, Quiet)
  }

  // ---------------------------------------------------------------------------
  // The three-phase description of the detector, as an independent reference.
  // ---------------------------------------------------------------------------

  datatype Phase = IdlePhase | Active(start: int) | CoolingDown(start: int, since: int)

  function PhaseOf(s: State): Phase
    requires Valid(s)
  {
    if s.gpuUsageStart.None? then IdlePhase
    else if s.coolDownStart.None? then Active(s.gpuUsageStart.value)
    else CoolingDown(s.gpuUsageStart.value, s.coolDownStart.value)
  }

  datatype PhaseStepResult = PhaseStepResult(phase: Phase, closed: Option<Episode>)

  /** The transition table of the detector written over phases. */
  function PhaseStep(threshold: int, coolDownPeriod: int, p: Phase, now: int, pct: int): PhaseStepResult {
    match p
    case IdlePhase =>
      if pct > threshold then PhaseStepResult(Active(now), None) else PhaseStepResult(IdlePhase, None)
    case Active(start) =>
      if pct > threshold then PhaseStepResult(p, None) else PhaseStepResult(CoolingDown(start, now), None)
    case CoolingDown(start, since) =>
      if pct > threshold then PhaseStepResult(Active(start), None)
      else if now - since >= coolDownPeriod then
        PhaseStepResult(IdlePhase, Some(Episode(start, since, since - start)))
      else PhaseStepResult(p, None)
  }

  /** The marker-based step and the phase table agree on every state and sample. */
  lemma StepRefinesPhaseStep(threshold: int, coolDownPeriod: int, s: State, now: int, pct: int)
    requires Valid(s)
    ensures var r := Step(threshold, coolDownPeriod, s, now, pct);
            var q := PhaseStep(threshold, coolDownPeriod, PhaseOf(s), now, pct);
            && PhaseOf(r.state) == q.phase
            && (r.event.Ended? <==> q.closed.Some?)
            && (r.event.Ended? ==> r.event.episode == q.closed.value)
  {
  }

  // ---------------------------------------------------------------------------
  // Runs: the detector fed a whole sequence of successful samples.
  // ---------------------------------------------------------------------------

  datatype RunResult = RunResult(state: State, episodes: seq<Episode>)

  /** Feeds `xs` to the detector in order and collects the episodes it closes. */
  function Run(threshold: int, coolDownPeriod: int, s: State, xs: seq<Sample>): (r: RunResult)
    ensures Valid(s) ==> Valid(r.state)
    ensures |r.episodes| <= |xs|
    decreases |xs|
  {
    if xs == [] then RunResult(s, [])
    else
      var prev := Run(threshold, coolDownPeriod, s, xs[..|xs| - 1]);
      var x := xs[|xs| - 1];
      var step := Step(threshold, coolDownPeriod, prev.state, x.time, x.pct);
      RunResult(step.state, prev.episodes + if step.event.Ended? then [step.event.episode] else [])
  }

  /** Running over a sequence extended by one sample is one more step. */
  lemma RunSnoc(threshold: int, coolDownPeriod: int, s: State, xs: seq<Sample>, x: Sample)
    ensures var prev := Run(threshold, coolDownPeriod, s, xs);
            var step := Step(threshold, coolDownPeriod, prev.state, x.time, x.pct);
            Run(threshold, coolDownPeriod, s, xs + [x]) ==
              RunResult(step.state, prev.episodes + if step.event.Ended? then [step.event.episode] else [])
  {
    assert (xs + [x])[..|xs|] == xs;
  }

  /** While no episode closes, an open episode keeps its original start whatever samples arrive. */
  lemma {:induction false} StartPersistsWhileOpen(threshold: int, coolDownPeriod: int, s: State, xs: seq<Sample>)
    requires s.gpuUsageStart.Some?
    requires Run(threshold, coolDownPeriod, s, xs).episodes == []
    ensures Run(threshold, coolDownPeriod, s, xs).state.gpuUsageStart == s.gpuUsageStart
    decreases |xs|
  {
    if xs != [] {
      var pre := xs[..|xs| - 1];
      var prev := Run(threshold, coolDownPeriod, s, pre);
      var x := xs[|xs| - 1];
      RunSnoc(threshold, coolDownPeriod, s, pre, x);
      assert pre + [x] == xs;
      StartPersistsWhileOpen(threshold, coolDownPeriod, s, pre);
    }
  }

  /** Every sample of `dip` is low and arrives before the cool-down begun by its first sample expires. */
  predicate ShortDip(threshold: int, coolDownPeriod: int, dip: seq<Sample>) {
    && (forall i :: 0 <= i < |dip| ==> dip[i].pct <= threshold)
    && (forall i :: 1 <= i < |dip| ==> dip[i].time - dip[0].time < coolDownPeriod)
  }

  /** A dip shorter than the cool-down inside an active episode leaves it cooling down from the dip's start. */
  lemma {:induction false} ShortDipCoolsDown(threshold: int, coolDownPeriod: int, start: int, dip: seq<Sample>)
    requires dip != [] && ShortDip(threshold, coolDownPeriod, dip)
    ensures Run(threshold, coolDownPeriod, State(Some(start), None), dip) ==
            RunResult(State(Some(start), Some(dip[0].time)), [])
    decreases |dip|
  {
    var s := State(Some(start), None);
    var pre := dip[..|dip| - 1];
    if pre != [] {
      assert ShortDip(threshold, coolDownPeriod, pre) by {
        forall i | 0 <= i < |pre| ensures pre[i] == dip[i] { }
      }
      ShortDipCoolsDown(threshold, coolDownPeriod, start, pre);
      assert pre[0] == dip[0];
    }
    RunSnoc(threshold, coolDownPeriod, s, pre, dip[|dip| - 1]);
    assert pre + [dip[|dip| - 1]] == dip;
  }

  /**
   * A dip shorter than the cool-down followed by a rise closes nothing: the
   * episode is active again with its original start and no cool-down.
   */
  lemma ShortDipIsAbsorbed(threshold: int, coolDownPeriod: int, start: int, dip: seq<Sample>, rise: Sample)
    requires dip != [] && ShortDip(threshold, coolDownPeriod, dip)
    requires rise.pct > threshold
    ensures Run(threshold, coolDownPeriod, State(Some(start), None), dip + [rise]) ==
            RunResult(State(Some(start), None), [])
  {
    ShortDipCoolsDown(threshold, coolDownPeriod, start, dip);
    RunSnoc(threshold, coolDownPeriod, State(Some(start), None), dip, rise);
  }

  // ---------------------------------------------------------------------------
  // Episodes of a run with non-decreasing clock readings.
  // ---------------------------------------------------------------------------

  /** The time of the last sample, or `t` when there is none. */
  function LastTime(t: int, xs: seq<Sample>): int {
    if xs == [] then t else xs[|xs| - 1].time
  }

  /** Sample times never go back, starting from `t`. */
  predicate Chronological(t: int, xs: seq<Sample>) {
    && (forall i :: 0 <= i < |xs| ==> t <= xs[i].time)
    && (forall i, j :: 0 <= i < j < |xs| ==> xs[i].time <= xs[j].time)
  }

  /** The earliest time at which an episode not yet closed can start. */
  function Frontier(s: State, now: int): int {
    if s.gpuUsageStart.Some? then s.gpuUsageStart.value else now
  }

  /** Episodes have non-negative durations and follow each other without overlap. */
  predicate Disjoint(eps: seq<Episode>) {
    && (forall i :: 0 <= i < |eps| ==> 0 <= eps[i].duration == eps[i].end - eps[i].start)
    && (forall i, j :: 0 <= i < j < |eps| ==> eps[i].end <= eps[j].start)
  }

  /**
   * With a clock that does not go back, every episode a run closes has a
   * non-negative duration, episodes do not overlap, and each ended before the
   * detector's current episode (if any) began.
   */
  lemma {:induction false} RunEpisodesDisjoint(threshold: int, coolDownPeriod: int, s: State, t: int, xs: seq<Sample>)
    requires Valid(s) && Ordered(s, t) && Chronological(t, xs)
    ensures var r := Run(threshold, coolDownPeriod, s, xs);
            && Ordered(r.state, LastTime(t, xs))
            && Disjoint(r.episodes)
            && (forall i :: 0 <= i < |r.episodes| ==> r.episodes[i].end <= Frontier(r.state, LastTime(t, xs)))
    decreases |xs|
  {
    if xs != [] {
      var pre := xs[..|xs| - 1];
      assert Chronological(t, pre);
      RunEpisodesDisjoint(threshold, coolDownPeriod, s, t, pre);
      var prev := Run(threshold, coolDownPeriod, s, pre);
      var now0 := LastTime(t, pre);
      var x := xs[|xs| - 1];
      assert now0 <= x.time;
      var step := Step(threshold, coolDownPeriod, prev.state, x.time, x.pct);
      var eps := prev.episodes + if step.event.Ended? then [step.event.episode] else [];
      assert Run(threshold, coolDownPeriod, s, xs) == RunResult(step.state, eps);
      assert Valid(prev.state);
      if step.event.Ended? {
        var e := step.event.episode;
        assert Frontier(prev.state, now0) == e.start;
        assert forall i :: 0 <= i < |eps| ==> eps[i].end <= now0;
      }
    }
  }

  // ---------------------------------------------------------------------------
  // Every closed episode is witnessed by the samples.
  // ---------------------------------------------------------------------------

  /** The sample just before position `j` was active. */
  ghost predicate ActiveBefore(threshold: int, xs: seq<Sample>, j: int) {
    0 < j <= |xs| && xs[j - 1].pct > threshold
  }

  /**
   * Samples i, j and k witness `e`: sample i was active at the episode's start,
   * sample j was the first low one after activity and marks its end, every
   * sample from j to k was low, and k came at least a cool-down period after j.
   */
  ghost predicate ClosedBy(threshold: int, coolDownPeriod: int, e: Episode, xs: seq<Sample>, i: int, j: int, k: int) {
    && 0 <= i < j < k < |xs|
    && xs[i].time == e.start && xs[i].pct > threshold
    && xs[j].time == e.end && xs[j].pct <= threshold && ActiveBefore(threshold, xs, j)
    && (forall m :: j <= m <= k ==> xs[m].pct <= threshold)
    && xs[k].time - xs[j].time >= coolDownPeriod
  }

  ghost predicate Witnessed(threshold: int, coolDownPeriod: int, e: Episode, xs: seq<Sample>) {
    exists i, j, k :: ClosedBy(threshold, coolDownPeriod, e, xs, i, j, k)
  }

  /** What the samples seen so far say about the detector's markers. */
  ghost predicate Explained(threshold: int, s: State, xs: seq<Sample>) {
    && Valid(s)
    && (s.gpuUsageStart.Some? && s.coolDownStart.None? ==>
          && (exists i :: 0 <= i < |xs| && xs[i].time == s.gpuUsageStart.value && xs[i].pct > threshold)
          && ActiveBefore(threshold, xs, |xs|))
    && (s.coolDownStart.Some? ==>
          exists i, j :: && 0 <= i < j < |xs|
                         && xs[i].time == s.gpuUsageStart.value && xs[i].pct > threshold
                         && xs[j].time == s.coolDownStart.value && xs[j].pct <= threshold
                         && ActiveBefore(threshold, xs, j)
                         && (forall m :: j <= m < |xs| ==> xs[m].pct <= threshold))
  }

  /**
   * One step keeps the markers explained by the samples, now including `x`,
   * and an episode it closes is witnessed by them.
   */
  lemma ExplainedStep(threshold: int, coolDownPeriod: int, s: State, pre: seq<Sample>, x: Sample)
    requires Explained(threshold, s, pre)
    ensures var step := Step(threshold, coolDownPeriod, s, x.time, x.pct);
            && Explained(threshold, step.state, pre + [x])
            && (step.event.Ended? ==> Witnessed(threshold, coolDownPeriod, step.event.episode, pre + [x]))
  {
    var xs := pre + [x];
    var last := |pre|;
    var step := Step(threshold, coolDownPeriod, s, x.time, x.pct);
    if x.pct > threshold {
      if s.gpuUsageStart.None? {
        assert xs[last].time == step.state.gpuUsageStart.value;
      } else if s.coolDownStart.None? {
        var i :| 0 <= i < |pre| && pre[i].time == s.gpuUsageStart.value && pre[i].pct > threshold;
        assert xs[i] == pre[i];
      } else {
        var i, j :| && 0 <= i < j < |pre|
                    && pre[i].time == s.gpuUsageStart.value && pre[i].pct > threshold
                    && pre[j].time == s.coolDownStart.value && pre[j].pct <= threshold
                    && ActiveBefore(threshold, pre, j)
                    && (forall m :: j <= m < |pre| ==> pre[m].pct <= threshold);
        assert xs[i] == pre[i];
      }
    } else if s.gpuUsageStart.Some? {
      if s.coolDownStart.None? {
        var i :| 0 <= i < |pre| && pre[i].time == s.gpuUsageStart.value && pre[i].pct > threshold;
        assert xs[i] == pre[i] && xs[last - 1] == pre[|pre| - 1];
        assert forall m :: last <= m < |xs| ==> xs[m].pct <= threshold;
        assert && 0 <= i < last < |xs|
               && xs[i].time == step.state.gpuUsageStart.value && xs[i].pct > threshold
               && xs[last].time == step.state.coolDownStart.value && xs[last].pct <= threshold
               && ActiveBefore(threshold, xs, last);
      } else {
        var i, j :| && 0 <= i < j < |pre|
                    && pre[i].time == s.gpuUsageStart.value && pre[i].pct > threshold
                    && pre[j].time == s.coolDownStart.value && pre[j].pct <= threshold
                    && ActiveBefore(threshold, pre, j)
                    && (forall m :: j <= m < |pre| ==> pre[m].pct <= threshold);
        assert xs[i] == pre[i] && xs[j] == pre[j] && xs[j - 1] == pre[j - 1];
        assert forall m :: j <= m < |xs| ==> xs[m].pct <= threshold;
        if step.event.Ended? {
          assert ClosedBy(threshold, coolDownPeriod, step.event.episode, xs, i, j, last);
        }
      }
    }
  }

  /** Witnesses found among earlier samples remain witnesses when more samples follow. */
  lemma WitnessedExtends(threshold: int, coolDownPeriod: int, e: Episode, pre: seq<Sample>, x: Sample)
    requires Witnessed(threshold, coolDownPeriod, e, pre)
    ensures Witnessed(threshold, coolDownPeriod, e, pre + [x])
  {
    var i, j, k :| ClosedBy(threshold, coolDownPeriod, e, pre, i, j, k);
    assert ClosedBy(threshold, coolDownPeriod, e, pre + [x], i, j, k);
  }

  /**
   * Starting idle, every episode the detector closes began at an active
   * sample, ended at the first low sample after activity, and was followed by low samples only until
   * one at least a cool-down period later closed it.
   */
  lemma {:induction false} EveryEpisodeWitnessed(threshold: int, coolDownPeriod: int, xs: seq<Sample>)
    ensures var r := Run(threshold, coolDownPeriod, Idle, xs);
            && Explained(threshold, r.state, xs)
            && forall n :: 0 <= n < |r.episodes| ==> Witnessed(threshold, coolDownPeriod, r.episodes[n], xs)
    decreases |xs|
  {
    if xs != [] {
      var pre := xs[..|xs| - 1];
      var x := xs[|xs| - 1];
      assert pre + [x] == xs;
      EveryEpisodeWitnessed(threshold, coolDownPeriod, pre);
      var prev := Run(threshold, coolDownPeriod, Idle, pre);
      RunSnoc(threshold, coolDownPeriod, Idle, pre, x);
      ExplainedStep(threshold, coolDownPeriod, prev.state, pre, x);
      var step := Step(threshold, coolDownPeriod, prev.state, x.time, x.pct);
      var eps := prev.episodes + if step.event.Ended? then [step.event.episode] else [];
      forall n | 0 <= n < |eps|
        ensures Witnessed(threshold, coolDownPeriod, eps[n], xs)
      {
        if n < |prev.episodes| {
          WitnessedExtends(threshold, coolDownPeriod, prev.episodes[n], pre, x);
        }
      }
    }
  }

  // ---------------------------------------------------------------------------
  // Worked scenarios: threshold 80 %, cool-down 30 s.
  // ---------------------------------------------------------------------------

  /** Active from t=0, low from t=20, closed by the sample at t=55: the episode is 0..20, 20 s. */
  lemma CoolDownScenario()
    ensures Run(80, 30, Idle, [Sample(0, 85), Sample(10, 90), Sample(20, 70), Sample(35, 60), Sample(55, 50)]) ==
            RunResult(Idle, [Episode(0, 20, 20)])
  {
    var xs := [Sample(0, 85), Sample(10, 90), Sample(20, 70), Sample(35, 60), Sample(55, 50)];
    assert xs[..4][..3] == xs[..3] && xs[..3][..2] == xs[..2] && xs[..2][..1] == xs[..1];
    assert Run(80, 30, Idle, xs[..1]) == RunResult(State(Some(0), None), []);
    assert Run(80, 30, Idle, xs[..2]) == RunResult(State(Some(0), None), []);
    assert Run(80, 30, Idle, xs[..3]) == RunResult(State(Some(0), Some(20)), []);
    assert Run(80, 30, Idle, xs[..4]) == RunResult(State(Some(0), Some(20)), []);
  }

  /**
   * The wall clock goes back (end of daylight-saving time) between the start of
   * an episode at 10200 and its first low sample at 7800: the episode closes
   * with a negative duration.
   */
  lemma ClockGoingBackScenario()
    ensures Run(80, 30, Idle, [Sample(10200, 90), Sample(7800, 50), Sample(7830, 50)]) ==
            RunResult(Idle, [Episode(10200, 7800, -2400)])
  {
    var xs := [Sample(10200, 90), Sample(7800, 50), Sample(7830, 50)];
    assert xs[..2][..1] == xs[..1];
    assert Run(80, 30, Idle, xs[..1]) == RunResult(State(Some(10200), None), []);
    assert Run(80, 30, Idle, xs[..2]) == RunResult(State(Some(10200), Some(7800)), []);
  }

  /** Active from t=0, low at t=10, active again at t=15: still active from t=0, nothing closed. */
  lemma DipAndRecoverScenario()
    ensures Run(80, 30, Idle, [Sample(0, 85), Sample(10, 70), Sample(15, 85)]) ==
            RunResult(State(Some(0), None), [])
  {
    var xs := [Sample(0, 85), Sample(10, 70), Sample(15, 85)];
    assert xs[..2][..1] == xs[..1];
    assert Run(80, 30, Idle, xs[..1]) == RunResult(State(Some(0), None), []);
    assert Run(80, 30, Idle, xs[..2]) == RunResult(State(Some(0), Some(10)), []);
  }
}
