/**
 * The running usage totals the monitor keeps in memory and persists:
 * `overall_total`, the per-day `daily_totals` dictionary keyed by calendar day
 * and `last_reset_date`. Episodes are added to the counters as they close;
 * nothing is recomputed from the episode log.
 */
module Totals {
  import opened Detector

  const SecondsPerDay := 86400

  /** The calendar day (days since the epoch) containing second `t`. */
  function DayOf(t: int): (day: int)
    ensures day * SecondsPerDay <= t < (day + 1) * SecondsPerDay
  {
    t / SecondsPerDay
  }

  datatype Ledger = Ledger(overallTotal: int, dailyTotals: map<int, int>, lastResetDate: int)

  /** Reading a day's total the way a `defaultdict` does: a missing day reads as 0. */
  function DailyValue(daily: map<int, int>, day: int): int {
    if day in daily then daily[day] else 0
  }

  /**
   * Start-of-iteration day bookkeeping: the current day gets a 0 entry when it
   * has none; an existing entry is never overwritten, so no day's total changes.
   */
  function OpenDay(l: Ledger, day: int): (r: Ledger)
    ensures day in r.dailyTotals
    ensures r.dailyTotals.Keys == l.dailyTotals.Keys + {day}
    ensures day in l.dailyTotals ==> r == l
    ensures forall d :: DailyValue(r.dailyTotals, d) == DailyValue(l.dailyTotals, d)
    ensures r.overallTotal == l.overallTotal && r.lastResetDate == l.lastResetDate
  {
    if day in l.dailyTotals then l else l.(dailyTotals := l.dailyTotals[day := 0])
  }

  /**
   * Booking a closed episode: its duration is added to the overall total and to
   * the total of the day the episode STARTED on; every other day is untouched.
   */
  function Record(l: Ledger, e: Episode): (r: Ledger)
    ensures r.overallTotal == l.overallTotal + e.duration
    ensures r.dailyTotals.Keys == l.dailyTotals.Keys + {DayOf(e.start)}
    ensures r.dailyTotals[DayOf(e.start)] == DailyValue(l.dailyTotals, DayOf(e.start)) + e.duration
    ensures forall d :: d != DayOf(e.start) && d in l.dailyTotals ==> r.dailyTotals[d] == l.dailyTotals[d]
    ensures r.lastResetDate == l.lastResetDate
  {
    var day := DayOf(e.start);
    Ledger(l.overallTotal + e.duration, l.dailyTotals[day := DailyValue(l.dailyTotals, day) + e.duration], l.lastResetDate)
  }

  /** Reset: the overall total restarts from 0 at `now`; the per-day totals are kept. */
  function Reset(l: Ledger, now: int): (r: Ledger)
    ensures r.overallTotal == 0 && r.lastResetDate == now
    ensures r.dailyTotals == l.dailyTotals
  {
    Ledger(0, l.dailyTotals, now)
  }

  // ---------------------------------------------------------------------------
  // Booking a whole log of episodes.
  // ---------------------------------------------------------------------------

  /** Books the episodes of `eps` in order. */
  function RecordAll(l: Ledger, eps: seq<Episode>): Ledger
    decreases |eps|
  {
    if eps == [] then l else Record(RecordAll(l, eps[..|eps| - 1]), eps[|eps| - 1])
  }

  /** The summed duration of the episodes of `eps`. */
  function TotalDuration(eps: seq<Episode>): int
    decreases |eps|
  {
    if eps == [] then 0 else TotalDuration(eps[..|eps| - 1]) + eps[|eps| - 1].duration
  }

  /** The summed duration of the episodes of `eps` that started on `day`. */
  function DayDuration(eps: seq<Episode>, day: int): int
    decreases |eps|
  {
    if eps == [] then 0
    else DayDuration(eps[..|eps| - 1], day) + if DayOf(eps[|eps| - 1].start) == day then eps[|eps| - 1].duration else 0
  }

  /**
   * The counters after booking a log equal the counters before plus the sum of
   * the log: overall by all episodes, each day by the episodes that started on it.
   */
  lemma {:induction false} RecordAllTotals(l: Ledger, eps: seq<Episode>)
    ensures RecordAll(l, eps).overallTotal == l.overallTotal + TotalDuration(eps)
    ensures forall d :: DailyValue(RecordAll(l, eps).dailyTotals, d) == DailyValue(l.dailyTotals, d) + DayDuration(eps, d)
    ensures RecordAll(l, eps).lastResetDate == l.lastResetDate
    decreases |eps|
  {
    if eps != [] {
      RecordAllTotals(l, eps[..|eps| - 1]);
    }
  }

  /**
   * After a reset the overall total is the summed duration of the episodes
   * booked since, whenever they started: an episode that began before the reset
   * and closed after it counts in full.
   */
  lemma OverallTotalSinceReset(l: Ledger, now: int, eps: seq<Episode>)
    ensures RecordAll(Reset(l, now), eps).overallTotal == TotalDuration(eps)
    ensures RecordAll(Reset(l, now), eps).lastResetDate == now
  {
    RecordAllTotals(Reset(l, now), eps);
  }

  /**
   * Booking after a reset does not look at when the episode started: it adds
   * the whole duration, whether the episode began before or after the reset.
   */
  lemma BookingAfterResetIgnoresStart(l: Ledger, now: int, e: Episode, otherStart: int)
    ensures Record(Reset(l, now), e).overallTotal == e.duration
    ensures Record(Reset(l, now), e.(start := otherStart)).overallTotal == Record(Reset(l, now), e).overallTotal
  {
  }
}
