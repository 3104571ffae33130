/**
 * The monitoring loop: per iteration it opens the current day's entry, takes
 * one utilisation reading, skips the rest of the iteration when the reading
 * failed, advances the regular-snapshot timer, and feeds the reading to the
 * episode detector, booking a closed episode in the totals. The module
 * globals of the program are the fields of `GpuMonitor`; the chat command
 * handlers `/reset` and `/status` act on the same fields.
 */
module Monitor {
  import opened Wrappers
  import opened Detector
  import opened Totals

  /** The configuration values the loop and the handlers read. */
  datatype Config = Config(
    threshold: int,               // GPU_USAGE_THRESHOLD, percent
    coolDownPeriod: int,          // COOL_DOWN_PERIOD, seconds
    logInterval: int,             // LOG_INTERVAL, seconds between regular snapshots
    enableTelegram: Option<bool>, // ENABLE_TELEGRAM, absent means enabled; read only as Notifier.Send's setting
    chatId: string)               // TELEGRAM_CHAT_ID

  /** Everything one loop iteration reads and writes. */
  datatype MonitorState = MonitorState(detector: State, ledger: Ledger, lastLogTime: int)

  datatype IterationResult = IterationResult(state: MonitorState, event: Event, snapshotLogged: bool)

  /**
   * One iteration of the loop at wall-clock second `now` with utilisation
   * `reading` (None when the query failed); `snapshotAvailable` says whether the
   * system snapshot could be taken.
   */
  function Iteration(cfg: Config, st: MonitorState, now: int, reading: Option<int>, snapshotAvailable: bool): (r: IterationResult)
    // The current day always has an entry afterwards.
    ensures DayOf(now) in r.state.ledger.dailyTotals
    // A failed reading only opens the day's entry: detector, timer and every total read as before.
    ensures reading.None? ==> r == IterationResult(st.(ledger := OpenDay(st.ledger, DayOf(now))), Quiet, false)
    // The snapshot timer moves only when the interval has passed and a snapshot was obtained.
    ensures r.snapshotLogged <==> reading.Some? && snapshotAvailable && now - st.lastLogTime >= cfg.logInterval
    ensures r.state.lastLogTime == if r.snapshotLogged then now else st.lastLogTime
    // A successful reading drives the detector.
    ensures reading.Some? ==>
              StepResult(r.state.detector, r.event) == Step(cfg.threshold, cfg.coolDownPeriod, st.detector, now, reading.value)
    // Totals grow by the closed episode's duration, booked on its start day, and by nothing else.
    ensures r.state.ledger.overallTotal == st.ledger.overallTotal + if r.event.Ended? then r.event.episode.duration else 0
    ensures forall d :: DailyValue(r.state.ledger.dailyTotals, d) ==
              DailyValue(st.ledger.dailyTotals, d) +
              if r.event.Ended? && d == DayOf(r.event.episode.start) then r.event.episode.duration else 0
    // The days with an entry are the old ones, the current day and the start day of a closed episode.
    ensures r.state.ledger.dailyTotals.Keys ==
              st.ledger.dailyTotals.Keys + {DayOf(now)} + if r.event.Ended? then {DayOf(r.event.episode.start)} else {}
    ensures r.state.ledger.lastResetDate == st.ledger.lastResetDate
  {
    var dayOpened := OpenDay(st.ledger, DayOf(now));
    if reading.None? then
      IterationResult(st.(ledger := dayOpened), Quiet, false)
    else
      var logged := now - st.lastLogTime >= cfg.logInterval && snapshotAvailable;
      var step := Step(cfg.threshold, cfg.coolDownPeriod, st.detector, now, reading.value);
      var ledger := if step.event.Ended? then Record(dayOpened, step.event.episode) else dayOpened;
      IterationResult(MonitorState(step.state, ledger, if logged then now else st.lastLogTime), step.event, logged)
  }

  /** One loop iteration's inputs. */
  datatype Reading = Reading(time: int, value: Option<int>, snapshotAvailable: bool)

  /** The state after the loop has run one iteration per reading. */
  function Iterations(cfg: Config, st: MonitorState, rs: seq<Reading>): (r: MonitorState)
    ensures st.ledger.dailyTotals.Keys <= r.ledger.dailyTotals.Keys
    ensures forall n :: 0 <= n < |rs| ==> DayOf(rs[n].time) in r.ledger.dailyTotals
    ensures r.ledger.lastResetDate == st.ledger.lastResetDate
    decreases |rs|
  {
    if rs == [] then st
    else
      var r := rs[|rs| - 1];
      Iteration(cfg, Iterations(cfg, st, rs[..|rs| - 1]), r.time, r.value, r.snapshotAvailable).state
  }

  /** The successful readings, as detector samples, in order. */
  function Successful(rs: seq<Reading>): seq<Sample>
    decreases |rs|
  {
    if rs == [] then []
    else
      var r := rs[|rs| - 1];
      Successful(rs[..|rs| - 1]) + if r.value.Some? then [Sample(r.time, r.value.value)] else []
  }

  /** The monitor state `m`, reached from `st`, agrees with the detector run `run`. */
  ghost predicate Follows(st: MonitorState, m: MonitorState, run: RunResult) {
    && m.detector == run.state
    && m.ledger.overallTotal == st.ledger.overallTotal + TotalDuration(run.episodes)
    && (forall d :: DailyValue(m.ledger.dailyTotals, d) == DailyValue(st.ledger.dailyTotals, d) + DayDuration(run.episodes, d))
    && m.ledger.lastResetDate == st.ledger.lastResetDate
  }

  /** One iteration with a successful reading keeps the agreement with a run extended by one step. */
  lemma IterationFollowsStep(cfg: Config, st: MonitorState, m: MonitorState, run: RunResult, x: Sample, snapshotAvailable: bool)
    requires Follows(st, m, run)
    ensures var step := Step(cfg.threshold, cfg.coolDownPeriod, run.state, x.time, x.pct);
            Follows(st, Iteration(cfg, m, x.time, Some(x.pct), snapshotAvailable).state,
                    RunResult(step.state, run.episodes + if step.event.Ended? then [step.event.episode] else []))
  {
    var step := Step(cfg.threshold, cfg.coolDownPeriod, run.state, x.time, x.pct);
    var it := Iteration(cfg, m, x.time, Some(x.pct), snapshotAvailable);
    assert StepResult(it.state.detector, it.event) == step;
    if step.event.Ended? {
      var e := step.event.episode;
      var eps := run.episodes + [e];
      assert eps[..|eps| - 1] == run.episodes;
      assert TotalDuration(eps) == TotalDuration(run.episodes) + e.duration;
      forall d
        ensures DayDuration(eps, d) == DayDuration(run.episodes, d) + if d == DayOf(e.start) then e.duration else 0
      {
      }
    } else {
      assert run.episodes + [] == run.episodes;
    }
  }

  /**
   * Whatever the failures in between, after any number of iterations the
   * detector is where a run over the successful readings leaves it, and the
   * totals have grown by exactly the episodes of that run: overall by all of
   * them, each day by those that started on it.
   */
  lemma {:induction false} IterationsFollowRun(cfg: Config, st: MonitorState, rs: seq<Reading>)
    ensures var m := Iterations(cfg, st, rs);
            var run := Run(cfg.threshold, cfg.coolDownPeriod, st.detector, Successful(rs));
            && m.detector == run.state
            && m.ledger.overallTotal == st.ledger.overallTotal + TotalDuration(run.episodes)
            && (forall d :: DailyValue(m.ledger.dailyTotals, d) == DailyValue(st.ledger.dailyTotals, d) + DayDuration(run.episodes, d))
            && m.ledger.lastResetDate == st.ledger.lastResetDate
    decreases |rs|
  {
    if rs != [] {
      var pre := rs[..|rs| - 1];
      var r := rs[|rs| - 1];
      IterationsFollowRun(cfg, st, pre);
      var prev := Iterations(cfg, st, pre);
      var prevRun := Run(cfg.threshold, cfg.coolDownPeriod, st.detector, Successful(pre));
      assert Follows(st, prev, prevRun);
      if r.value.Some? {
        var x := Sample(r.time, r.value.value);
        assert Successful(rs) == Successful(pre) + [x];
        RunSnoc(cfg.threshold, cfg.coolDownPeriod, st.detector, Successful(pre), x);
        IterationFollowsStep(cfg, st, prev, prevRun, x, r.snapshotAvailable);
      } else {
        assert Successful(rs) == Successful(pre);
      }
      assert Follows(st, Iterations(cfg, st, rs), Run(cfg.threshold, cfg.coolDownPeriod, st.detector, Successful(rs)));
    }
  }

  /** The figures `/status` reports. */
  datatype StatusReport = StatusReport(lastResetDate: int, overallTotal: int, threshold: int)

  /** The monitor's globals, updated in place by the loop and the chat command handlers. */
  class GpuMonitor {
    const config: Config
    var gpuUsageStart: Option<int>
    var coolDownStart: Option<int>
    var loggingActive: bool
    var overallTotal: int
    var dailyTotals: map<int, int>
    var lastResetDate: int
    var lastLogTime: int

    /** The detector's markers are consistent and `loggingActive` mirrors "an episode is open". */
    ghost predicate Valid()
      reads this
    {
      Detector.Valid(State(gpuUsageStart, coolDownStart)) && loggingActive == gpuUsageStart.Some?
    }

    function Model(): MonitorState
      reads this
    {
      MonitorState(State(gpuUsageStart, coolDownStart), Ledger(overallTotal, dailyTotals, lastResetDate), lastLogTime)
    }

    /** Process start: totals restored from the saved configuration, the detector idle, the snapshot timer at `now`. */
    constructor (config: Config, saved: Ledger, now: int)
      ensures Valid() && this.config == config
      ensures Model() == MonitorState(Idle, saved, now)
    {
      this.config := config;
      gpuUsageStart, coolDownStart, loggingActive := None, None, false;
      overallTotal, dailyTotals, lastResetDate := saved.overallTotal, saved.dailyTotals, saved.lastResetDate;
      lastLogTime := now;
    }

    /** Books a closed episode on its start day and in the overall total; returns both new totals. */
    method LogGpuUsage(startTime: int, endTime: int, duration: int) returns (dayTotal: int, total: int)
      modifies this`overallTotal, this`dailyTotals
      ensures Model().ledger == Record(old(Model().ledger), Episode(startTime, endTime, duration))
      ensures dayTotal == DailyValue(old(dailyTotals), DayOf(startTime)) + duration
      ensures total == old(overallTotal) + duration
      ensures dayTotal == dailyTotals[DayOf(startTime)] && total == overallTotal
    {
      var day := DayOf(startTime);
      var previous := if day in dailyTotals then dailyTotals[day] else 0;
      dailyTotals := dailyTotals[day := previous + duration];
      overallTotal := overallTotal + duration;
      dayTotal, total := dailyTotals[day], overallTotal;
    }

    /** Zeroes the overall total and stamps the reset time; per-day totals are kept. */
    method ResetTotalTime(now: int)
      modifies this`overallTotal, this`lastResetDate
      ensures Model().ledger == Reset(old(Model().ledger), now)
    {
      overallTotal := 0;
      lastResetDate := now;
    }

    /** `/reset`: acts only for the configured chat. */
    method HandleReset(senderChatId: string, now: int)
      modifies this`overallTotal, this`lastResetDate
      ensures senderChatId != config.chatId ==> Model() == old(Model())
      ensures senderChatId == config.chatId ==> Model().ledger == Reset(old(Model().ledger), now)
      ensures Model().detector == old(Model().detector) && Model().lastLogTime == old(Model().lastLogTime)
    {
      if senderChatId != config.chatId {
        return;
      }
      ResetTotalTime(now);
    }

    /** `/status`: reports the totals to the configured chat only, and changes nothing. */
    method HandleStatus(senderChatId: string) returns (report: Option<StatusReport>)
      ensures report.Some? <==> senderChatId == config.chatId
      ensures report.Some? ==> report.value.overallTotal == overallTotal
      ensures report.Some? ==> report.value.lastResetDate == lastResetDate
      ensures report.Some? ==> report.value.threshold == config.threshold
    {
      if senderChatId != config.chatId {
        return None;
      }
      report := Some(StatusReport(lastResetDate, overallTotal, config.threshold));
    }

    /** One iteration of the monitoring loop; returns the detector event and whether a snapshot was logged. */
    method Iterate(now: int, reading: Option<int>, snapshotAvailable: bool) returns (event: Event, snapshotLogged: bool)
      requires Valid()
      modifies this
      ensures Valid()
      ensures IterationResult(Model(), event, snapshotLogged) ==
              Iteration(config, old(Model()), now, reading, snapshotAvailable)
    {
      var day := DayOf(now);
      if day !in dailyTotals {
        dailyTotals := dailyTotals[day := 0];
      }
      event, snapshotLogged := Quiet, false;
      if reading.None? {
        return;
      }
      var gpuUsage := reading.value;
      if now - lastLogTime >= config.logInterval {
        if snapshotAvailable {
          snapshotLogged := true;
          lastLogTime := now;
        }
      }
      if gpuUsage > config.threshold {
        if gpuUsageStart.None? {
          gpuUsageStart := Some(now);
          event := Started(now);
          loggingActive := true;
        }
        coolDownStart := None;
      } else if gpuUsageStart.Some? {
        if coolDownStart.None? {
          coolDownStart := Some(now);
        } else if now - coolDownStart.value >= config.coolDownPeriod {
          var episode := Episode(gpuUsageStart.value, coolDownStart.value, coolDownStart.value - gpuUsageStart.value);
          var dayTotal, total := LogGpuUsage(episode.start, episode.end, episode.duration);
          event := Ended(episode);
          gpuUsageStart := None;
          coolDownStart := None;
          loggingActive := false;
        }
      }
    }

    /** The monitoring loop over a sequence of iterations' inputs. */
    method RunLoop(readings: seq<Reading>)
      requires Valid()
      modifies this
      ensures Valid()
      ensures Model() == Iterations(config, old(Model()), readings)
    {
      var i := 0;
      while i < |readings|
        invariant 0 <= i <= |readings|
        invariant Valid()
        invariant Model() == Iterations(config, old(Model()), readings[..i])
      {
        var r := readings[i];
        var event, snapshotLogged := Iterate(r.time, r.value, r.snapshotAvailable);
        i := i + 1;
        assert readings[..i][..i - 1] == readings[..i - 1];
      }
      assert readings[..i] == readings;
    }
  }
}
