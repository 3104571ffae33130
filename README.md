# GPU usage monitor: episode detector, usage totals and notifier

This project models the core of a GPU usage monitor in Dafny. The monitor runs a loop that
samples GPU utilisation once per iteration and turns the samples into usage episodes with a
hysteresis rule. A reading strictly above the threshold opens an episode or keeps it open. The
first reading at or below the threshold starts a cool-down. A later low reading closes the
episode once the cool-down has lasted `COOL_DOWN_PERIOD` seconds. The closed episode runs from
its start to the beginning of the cool-down, so the cool-down wait is not counted in it.

Each closed episode's duration is added to an overall total and to the total of the calendar day
the episode started on. A `/reset` chat command zeroes the overall total. A `/status` command
reports it. Commands from any other chat are ignored. Messages go through a chat channel. Each
message is cleaned of `*` and of trailing backslashes and is tried at most three times.

Modules:

- `Wrappers`: `Option`, standing for Python's `None`-or-value.
- `Detector`: the episode state machine (`Step`) over the two markers `gpu_usage_start` and
  `cool_down_start`. It also holds the same machine written as a three-phase table (idle,
  active, cooling down), runs over sample sequences, and the lemmas about them.
- `Totals`: the counters `overall_total`, `daily_totals` and `last_reset_date`, with the day
  bookkeeping, booking an episode, reset, and lemmas about booking a whole log.
- `Notifier`: the outgoing-text clean-up and the bounded retry loop.
- `Monitor`: the configuration and one loop iteration as a function (`Iteration`). The class
  `GpuMonitor` holds the program's globals as fields. Its methods update those fields in place
  and are proved equal to the functions above.

Times are whole seconds. A calendar day is `t / 86400`. Durations are integers.

The overall total is an incremental counter. `log_gpu_usage` adds each closed episode's duration
(monitor.py:166-167). `reset_total_time` sets it to 0 (monitor.py:211) without looking at episode
start times. `Totals.OverallTotalSinceReset` proves that after a reset the overall total is the sum
of the episodes *booked* since. `Totals.BookingAfterResetIgnoresStart` proves that the start time
of an episode booked after a reset, before or after the reset, does not change what it adds.

## Model

| member | source | states |
|---|---|---|
| `Detector.Step` | monitor.py:304-319 | An episode opens exactly on an active reading while idle, at that reading's time. An active reading always clears the cool-down. An open episode keeps its start until it closes. A low reading while idle changes nothing. The first low reading only records the cool-down start, even with a zero period. An episode closes exactly on a later low reading with `now - cool_down_start >= COOL_DOWN_PERIOD`. It then reports start to cool-down start, with duration end minus start, and returns to idle. The duration is non-negative when times are ordered. |
| `Detector.StepRefinesPhaseStep` | monitor.py:304-319 | The marker-based step agrees with the idle / active / cooling-down transition table, on every state and reading, both on the next phase and on the closed episode. |
| `Detector.Run` | monitor.py:279-319 | Feeding a sequence of readings keeps the marker invariant (a cool-down only inside an episode). It closes at most one episode per reading. |
| `Detector.StartPersistsWhileOpen` | monitor.py:304-309 | While no episode closes, the start of an open episode is unchanged by any sequence of later readings. |
| `Detector.ShortDipCoolsDown` | monitor.py:310-313 | Low readings that all arrive within the cool-down period leave the episode cooling down from the first low reading, with nothing closed. |
| `Detector.ShortDipIsAbsorbed` | monitor.py:309-313 | A dip shorter than the cool-down followed by a rise closes nothing. The episode is active again with its original start. |
| `Detector.RunEpisodesDisjoint` | monitor.py:313-317 | With a clock that does not go back, every closed episode has a non-negative duration equal to end minus start. Episodes do not overlap, and each ends before the current one began. |
| `Detector.EveryEpisodeWitnessed` | monitor.py:304-319 | Starting idle, every closed episode began at an active reading and ended at the first low reading after activity. Only low readings followed until one at least `COOL_DOWN_PERIOD` later closed it. |
| `Detector.CoolDownScenario` | monitor.py:304-319 | Threshold 80, cool-down 30 s: active at 0 and 10, low at 20, 35 and 55. This closes exactly one episode, from 0 to 20, lasting 20 s. |
| `Detector.ClockGoingBackScenario` | monitor.py:313-314 | When the wall clock goes back between the episode start (10200) and the first low reading (7800), the episode is booked with duration -2400 s. |
| `Detector.DipAndRecoverScenario` | monitor.py:304-319 | Threshold 80, cool-down 30 s: active at 0, low at 10, active at 15. The episode is still open from 0, with nothing closed. |
| `Totals.DayOf` | monitor.py:162 | The day number of a time is the calendar day that contains it. |
| `Totals.OpenDay` | monitor.py:288-289 | The current day gets an entry. An existing entry is never overwritten. No day's total, the overall total or the reset date changes. |
| `Totals.Record` | monitor.py:160-167 | Booking an episode adds its duration to the overall total and to its start day's total. A missing day starts from 0. Every other day and the reset date are unchanged. |
| `Totals.Reset` | monitor.py:209-212 | Reset sets the overall total to 0 and the reset date to now. It leaves the per-day totals alone. |
| `Totals.RecordAllTotals` | monitor.py:166-167 | Booking a log of episodes raises the overall total by the log's summed duration. It raises each day's total by the durations of the episodes that started on that day. |
| `Totals.OverallTotalSinceReset` | monitor.py:209-212 | After a reset, the overall total is the summed duration of the episodes booked since, whatever their start times. |
| `Totals.BookingAfterResetIgnoresStart` | monitor.py:166-167 | After a reset, booking an episode adds its whole duration, and moving its start to any other time, before the reset included, changes nothing. |
| `Notifier.Enabled` | monitor.py:83-84 | The channel is on unless the setting is explicitly false. A missing setting means on. |
| `Notifier.RemoveStars` | monitor.py:91 | The result holds no `*`. Every other character keeps its count. |
| `Notifier.RemoveStarsAppend` | monitor.py:91 | Removing `*` commutes with concatenation, so the kept characters stay in order. |
| `Notifier.RemoveStarsNoStars` | monitor.py:91 | A text without `*` is unchanged. |
| `Notifier.RStripBackslashes` | monitor.py:92 | The result is a prefix of the input that does not end in a backslash. Everything cut off is backslashes. |
| `Notifier.Sanitize` | monitor.py:90-92 | The text handed on holds no `*` and does not end in a backslash. It is a prefix of the text with `*` removed, so only trailing backslashes are dropped after that; only `*` and backslashes are dropped at all. |
| `Notifier.SanitizeIdempotent` | monitor.py:90-92 | Cleaning an already clean text changes nothing. |
| `Notifier.Send` | monitor.py:82-97 | A channel whose setting is explicitly false makes no attempt; a missing setting means on. Otherwise it makes at most 3 attempts, all with the cleaned text, and stops at the first success. It delivers exactly when one of the first 3 attempts succeeds, and makes exactly 3 attempts when none does. |
| `Monitor.Iteration` | monitor.py:284-319 | The current day always has an entry. A failed reading changes neither the detector, the snapshot timer nor any total. The timer moves only when the interval has passed and a snapshot was obtained. A successful reading drives the detector step. The day keys afterwards are the old ones, the current day and, on a close, the episode's start day. The totals grow by the closed episode's duration, booked on its start day, and by nothing else. |
| `Monitor.Iterations` | monitor.py:279-324 | The loop over a sequence of iterations' inputs: no day entry is ever removed, every iteration's day has an entry afterwards, and the reset date is unchanged. |
| `Monitor.IterationsFollowRun` | monitor.py:279-319 | After any number of iterations, failures included, the detector is where a run over the successful readings leaves it. The totals have grown by exactly that run's episodes: overall by all of them, each day by those that started on it. |
| `Monitor.GpuMonitor.constructor` | monitor.py:22-29 | At start the detector is idle, the totals are the saved ones and the snapshot timer is at now. |
| `Monitor.GpuMonitor.LogGpuUsage` | monitor.py:160-182 | Updates the totals in place as `Totals.Record`. Returns the start day's new total and the new overall total. |
| `Monitor.GpuMonitor.ResetTotalTime` | monitor.py:209-215 | Updates the totals in place as `Totals.Reset`. |
| `Monitor.GpuMonitor.HandleReset` | monitor.py:218-222 | A command from another chat changes nothing. From the configured chat it resets the totals. The detector and timer are untouched either way. |
| `Monitor.GpuMonitor.HandleStatus` | monitor.py:224-233 | Reports the overall total, the reset date and the threshold only to the configured chat. It changes nothing. |
| `Monitor.GpuMonitor.Iterate` | monitor.py:284-319 | One loop iteration in place. It keeps the marker invariant and the `logging_active` mirror, and its new state and event are those of `Monitor.Iteration`. |
| `Monitor.GpuMonitor.RunLoop` | monitor.py:279-324 | The loop over a sequence of iterations' inputs ends in the state given by `Monitor.Iterations`. |

## Left out

- Reading the GPU (`get_gpu_usage`, monitor.py:106-120): the `nvidia-smi` subprocess is external. A reading is an `Option<int>` input to each iteration.
- System snapshots and CSV files (`get_system_info`, `log_to_csv`, `log_regular_info`, monitor.py:122-158, and the CSV row in `log_gpu_usage`): file and process I/O. Whether a snapshot could be taken is a boolean input.
- `update_notion` (monitor.py:185-207): an HTTP POST with float-rounded minutes.
- `save_config` / `load_config` (monitor.py:32-60) and the `save_config` at the end of each iteration: JSON file persistence. The restored totals are the constructor's `saved` argument.
- The messages sent at episode start, at episode close, on reset and for `/status` are not routed through `Notifier.Send` in the model. The close and `/status` texts format floats (monitor.py:174-176, 230). The model returns the event (`Started`, `Ended`) or the `StatusReport` that the text is built from.
- The stop file, the signal handler, the PID file, `is_script_running`, the bot polling thread, `time.sleep` between iterations and retries, the logging setup, `log_error` and the exception handlers of `main` (monitor.py:71-77, 99-104, 235-275, 326-367): process control, concurrency and I/O. `RunLoop` runs over a finite sequence of iteration inputs instead of `while not should_stop`.
- Concurrency of the chat handlers: `/reset` and `/status` run on the bot polling thread (monitor.py:350); the model applies `HandleReset` and `HandleStatus` atomically, between iterations. In the source a `/reset` landing between the read and the write of `overall_total += duration` (monitor.py:167) is lost, and a `/status` landing between monitor.py:211 and 212 reports 0 with the old reset date; neither interleaving is modelled.
- `ENABLE_TELEGRAM` types: the source tests Python truthiness (`not CONFIG.get('ENABLE_TELEGRAM', True)`, monitor.py:83), so a present `null`, `0` or `""` also turns the channel off and the string `"false"` turns it on; the model's `Option<bool>` covers only a boolean or a missing setting.
- Chat-id types: `str(message.chat.id)` is compared with `TELEGRAM_CHAT_ID` (monitor.py:220, 226); the model takes the configured id as a string. If the configuration stored it as a JSON number, the source would ignore every `/reset` and `/status`; that case is not modelled.
- `escape_markdown` (telebot library): a function parameter of `Notifier.Send`, left uninterpreted.
- Clock and calendar: `datetime.now()` is a parameter in whole seconds. Local time zones and `strftime` date strings are not modelled. A day is `t / 86400`. `datetime.now()` is naive local time and goes back when daylight-saving time ends; `Detector.Step` accepts such readings, and `Detector.ClockGoingBackScenario` shows the negative duration that is then booked. `Detector.RunEpisodesDisjoint` assumes a clock that does not go back.
- Float totals: `total_seconds()` and `defaultdict(float)` become integer seconds.
- Notifier.Send: the outcome of each transport attempt is an input sequence (attempt `i` succeeds exactly when `i < |outcomes|` and `outcomes[i]`). Which exception made an attempt fail is not modelled.
- simGPU.py is not part of this model: it is a GPU load generator with no logic to state.
