# Stopwatch timer model

A Dafny model of the non-GUI core of the `Stopwatch` widget in `stopwatch.py`:
the timer state (`running`, `start_time`, `elapsed_time`, `lap_times`,
`time_format_24hr`), the four button handlers that change it (start/pause,
reset, lap, switch time format), and the arithmetic in `update_time` and
`record_lap` that splits an elapsed time into minutes, seconds and
milliseconds and renders it as `MM:SS:mmm` or, in the other mode,
`HH:MM:SS:mmm`.

Files, one module each:

- `decimal.dfy` (`Decimal`): Python's zero-padded integer formatting
  (`f"{v:02}"`, including the minus sign of a negative value) and a parser
  that reads it back.
- `time_format.dfy` (`TimeFormat`): the `divmod` decomposition, the wrap of
  the minute count by 12, the two display strings, parsers for both, and the
  proofs that the displays lose nothing.
- `stopwatch.dfy` (`Stopwatch`): the timer state as a value `State` with one
  transition function per handler, sequences of button presses, and the class
  `Stopwatch` whose methods update the fields in place and are proved to
  follow the transition functions.

Modelling decisions:

- The wall clock `time.time()` is the parameter `now: nat`. All times are
  whole milliseconds. The source's float `divmod(t, 60)`, `divmod(s, 1)` and
  `int(fraction * 1000)` become a split of the millisecond count.
- Python's `divmod` by a positive number rounds down. Dafny's `/` and `%` do
  the same for a positive divisor, so negative totals are split as Python
  splits them.
- `elapsed` is an `int`. The source never checks that the clock moved
  forward, so a clock that goes back makes the elapsed time negative. The
  model keeps that case, and formats a negative minute count as Python does
  (`-1:59:500` for -0.5 s).
- Laps are kept as the formatted strings the source stores, not as durations.
  A lap always uses the 24-hour text, whatever the display mode.
- The 12-hour display's "hours" are `divmod(minutes, 12)`. This wraps the
  minute count. It is not a clock, and it is modelled exactly as written.

Behaviour of the code that the model keeps:

- The displayed fields are separated by `:` (`MM:SS:mmm`), unlike the
  hard-coded initial label `00:00:00.000` (stopwatch.py:23), which uses a `.`
  and has one more field.
- Milliseconds are the truncating `int(fraction * 1000)`. On whole
  milliseconds this is the remainder of the total by 1000.
- `start_time` is never cleared. Pausing and resetting leave it as it was.
- Reset does not touch `time_format_24hr`.
- Start and pause are one toggle that any state accepts. Which branch runs
  depends on `running`.

## Model

| member | source | states |
|---|---|---|
| `Stopwatch.Stopwatch.constructor` | stopwatch.py:15-20 | a new widget is stopped, with start time 0, elapsed 0, no laps and the 24-hour mode |
| `Stopwatch.AfterToggle` | stopwatch.py:89-98 | `running` flips; pausing adds `now - start_time` to the elapsed time; starting sets the start time to `now` and keeps the elapsed time; laps and mode are unchanged; the current time at `now` is the same before and after |
| `Stopwatch.Stopwatch.ToggleStartPause` | stopwatch.py:89-98 | the fields after the call are exactly `AfterToggle` of the fields before |
| `Stopwatch.AfterReset` | stopwatch.py:100-107 | from any state: stopped, elapsed 0, no laps; current time 0 at every instant; start time and mode kept |
| `Stopwatch.Stopwatch.Reset` | stopwatch.py:100-107 | the fields after the call are exactly `AfterReset` of the fields before |
| `Stopwatch.AfterLap` | stopwatch.py:109-114 | exactly one entry is appended, earlier entries are unchanged, the new entry is the 24-hour text of the current time, and `running`, `elapsed_time`, `start_time` and the mode are unchanged |
| `Stopwatch.Stopwatch.RecordLap` | stopwatch.py:109-114 | the fields after the call are exactly `AfterLap` of the fields before |
| `Stopwatch.LapReadsBack` | stopwatch.py:110-113 | the recorded lap text reads back as exactly the current elapsed time |
| `Stopwatch.LapMatches24HourDisplay` | stopwatch.py:113-128 | in 24-hour mode the lap text is the text the display shows at the same instant |
| `Stopwatch.AfterFormatToggle` | stopwatch.py:141-142 | the mode flips and nothing else changes |
| `Stopwatch.FormatToggleTwice` | stopwatch.py:141-142 | toggling the format twice restores the state |
| `Stopwatch.Stopwatch.ToggleTimeFormat` | stopwatch.py:141-143 | the fields after the call are `AfterFormatToggle` of the fields before, and the returned text is the display in the new mode |
| `Stopwatch.Stopwatch.UpdateTime` | stopwatch.py:117-132 | the display text is the one for the current time in the current mode, and it reads back as the current time |
| `Stopwatch.Current` | stopwatch.py:118-121 | the time read at `now`: the banked `elapsed_time` while paused, and the banked time plus `now - start_time` while running (the same expression as `lap_time` at stopwatch.py:110); never below the banked time while the start time is not in the future |
| `Stopwatch.Shown` | stopwatch.py:127-132 | the display text for `Current` in the state's mode: `Format24` when `time_format_24hr` holds, `Format12` otherwise; it reads back as the current time with the matching parser |
| `Stopwatch.CurrentMonotone` | stopwatch.py:118-121 | with the start time not in the future, the current time is non-decreasing in `now`, constant while paused, and never below the banked elapsed time |
| `Stopwatch.StepMonotone` | stopwatch.py:89-115 | one start/pause, lap or format press at a later instant never lowers the current time and only extends the lap list |
| `Stopwatch.RunMonotone` | stopwatch.py:89-115 | across any reset-free chronological sequence of presses, the current time never decreases and the lap list only grows at its end |
| `Stopwatch.StepKeepsLapsOrdered` | stopwatch.py:100-115 | any press at a later instant, reset included, keeps the laps in chronological order and none after the current time |
| `Stopwatch.RunKeepsLapsOrdered` | stopwatch.py:100-115 | the ordering of laps is kept across any chronological sequence of presses |
| `Stopwatch.LapsChronological` | stopwatch.py:15-115 | from a new widget, every chronological sequence of presses leaves laps that read back in non-decreasing order |
| `Stopwatch.Scenario` | stopwatch.py:89-115 | start at 0, pause at 1.234 s, lap, start at 5 s: one lap `00:01:234`, and 3.234 s at 7 s |
| `TimeFormat.Decompose` | stopwatch.py:123-124 | `minutes*60000 + seconds*1000 + ms == total`, `seconds < 60`, `ms < 1000`, minutes non-negative exactly when the total is |
| `TimeFormat.DecomposeUnique` | stopwatch.py:123-124 | any split with those bounds is the one `Decompose` returns |
| `TimeFormat.Wrap12` | stopwatch.py:131 | `hours*12 + minutes' == minutes` and `minutes' < 12`; hours non-negative exactly when the minutes are |
| `TimeFormat.Wrap12Unique` | stopwatch.py:131 | any such split is the one `Wrap12` returns |
| `TimeFormat.Format24` | stopwatch.py:128 | `Render24` of `Decompose(total)`: `FormatInt(minutes, 2)`, `:`, `FormatInt(seconds, 2)`, `:`, `FormatInt(ms, 3)` (the same expression as the lap text at stopwatch.py:113); at least 9 characters, and `Parse24` reads it back as `total` |
| `TimeFormat.Format12` | stopwatch.py:131-132 | `Render12` of `Wrap12(minutes)` and `Decompose(total)`: `FormatInt(hours, 2)`, `:`, `FormatInt(minutes', 2)`, `:`, `FormatInt(seconds, 2)`, `:`, `FormatInt(ms, 3)`; at least 12 characters, and `Parse12` reads it back as `total` |
| `TimeFormat.Display` | stopwatch.py:127-132 | `Format24` in 24-hour mode and `Format12` otherwise; the text reads back as `total` with the parser of the chosen mode |
| `TimeFormat.Format24RoundTrip` | stopwatch.py:128 | the `MM:SS:mmm` text of any elapsed time, negative included, parses back to that time |
| `TimeFormat.Format12RoundTrip` | stopwatch.py:131-132 | the `HH:MM:SS:mmm` text of any elapsed time parses back to that time |
| `TimeFormat.Format24Injective` | stopwatch.py:128 | different times never show the same 24-hour text |
| `TimeFormat.Format12Injective` | stopwatch.py:132 | different times never show the same 12-hour text |
| `TimeFormat.Format24Width` | stopwatch.py:128 | for a total from 0 up to 100 minutes the 24-hour text is 9 characters with `:` at positions 2 and 5 |
| `TimeFormat.Format12Width` | stopwatch.py:132 | for a total from 0 up to 1200 minutes the 12-hour text is 12 characters with `:` at positions 2, 5 and 8 |
| `TimeFormat.Format24Examples` | stopwatch.py:123-128 | 125.5 s shows `02:05:500` and 0 shows `00:00:000` |
| `TimeFormat.Format12Example` | stopwatch.py:131-132 | 13 min 5 s shows `01:01:05:000` in the 12-hour mode |
| `TimeFormat.NegativeExample` | stopwatch.py:123-128 | -0.5 s shows `-1:59:500` |
| `Decimal.ZeroPad` | stopwatch.py:128 | `format(n, '0w')` for `n >= 0`: zeros on the left of `str(n)` up to width `w`; all digits, of length `max(w, len(str(n)))`, and parses back to `n` |
| `Decimal.FormatInt` | stopwatch.py:128 | `f"{v:0w}"`: exactly `max(w, len(str(v)))` characters, where the minus sign of a negative value counts towards the width; starts with `-` exactly for a negative value, and is all digits otherwise |
| `Decimal.FormatIntWidth` | stopwatch.py:128 | a value from 0 up to below `10^w` is zero-padded to exactly `w` characters |
| `Decimal.FormatIntRoundTrip` | stopwatch.py:113 | a formatted integer is a numeral that parses back to its value, for any sign and width |
| `Decimal.Digits` | stopwatch.py:128 | the numeral is non-empty, all digits, and has the minimal length: `10^(len-1) <= n < 10^len` for `n >= 10` |
| `Decimal.ParseDigits` | stopwatch.py:128 | the numeral of `n` parses back to `n` |

## Left out

- All PyQt5 widget construction, layout, style sheets and `button_style`. They are calls into a GUI toolkit.
- Starting and stopping the `QTimer`, and every `setText` and `addItem`. They are display plumbing. `lap_list` only mirrors `lap_times` with a `Lap n:` prefix.
- The hard-coded initial label text `00:00:00.000`. It is a literal, not output of the formatting.
- The pomodoro progress counter and the arc painting. `is_pomodoro_mode` is never set to `True`, so that code never runs, and it draws with float angles.
- `is_fullscreen` and `resizeEvent`. They are unused or only call the toolkit.
- The `__main__` event loop.
- `time.time()` and float arithmetic. Times are whole milliseconds, so float rounding is not modelled (in the source 1.001 s shows 0 ms and 4.35 s shows 349 ms, because the float fraction times 1000 falls just below the whole number and `int` truncates it).
