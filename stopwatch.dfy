/**
 * The timer state machine of the Stopwatch widget. The wall clock is the
 * parameter `now`, in whole milliseconds; every GUI effect is left out.
 */
module Stopwatch {
  import opened TimeFormat

  /** The widget's timer fields: running, start_time, elapsed_time, lap_times, time_format_24hr. */
  datatype State = State(
    running: bool,
    startTime: nat,
    elapsed: int,
    laps: seq<string>,
    format24: bool)

  /** The state a freshly built widget starts in. */
  const Initial: State := State(false, 0, 0, [], true)

  /** The elapsed time the widget shows and laps at instant now. */
  function Current(s: State, now: nat): (t: int)
    ensures !s.running ==> t == s.elapsed
    ensures s.running ==> t - s.elapsed == now - s.startTime
    ensures Consistent(s, now) ==> t >= s.elapsed
  {
    if s.running then s.elapsed + (now - s.startTime) else s.elapsed
  }

  /** Start/Pause: pausing banks the running interval, starting records the instant. */
  function AfterToggle(s: State, now: nat): (r: State)
    ensures r.running == !s.running
    ensures r.laps == s.laps && r.format24 == s.format24
    ensures s.running ==> r.elapsed == s.elapsed + (now - s.startTime) && r.startTime == s.startTime
    ensures !s.running ==> r.elapsed == s.elapsed && r.startTime == now
    ensures Current(r, now) == Current(s, now)
  {
    if s.running then s.(elapsed := s.elapsed + (now - s.startTime), running := false)
    else s.(startTime := now, running := true)
  }

  /** Reset: zero time, no laps, stopped; the start instant and the format are kept. */
  function AfterReset(s: State): (r: State)
    ensures !r.running && r.elapsed == 0 && r.laps == []
    ensures r.startTime == s.startTime && r.format24 == s.format24
    ensures forall now: nat :: Current(r, now) == 0
  {
    s.(elapsed := 0, laps := [], running := false)
  }

  /** Lap: appends the 24-hour text of the current time, whatever the display mode. */
  function AfterLap(s: State, now: nat): (r: State)
    ensures |r.laps| == |s.laps| + 1 && r.laps[..|s.laps|] == s.laps
    ensures r.laps[|s.laps|] == Format24(Current(s, now))
    ensures r.running == s.running && r.startTime == s.startTime
    ensures r.elapsed == s.elapsed && r.format24 == s.format24
  {
    var r := s.(laps := s.laps + [Format24(Current(s, now))]);
    assert r.laps[..|s.laps|] == s.laps;
    r
  }

  /** Switch Time Format: flips the display mode and nothing else. */
  function AfterFormatToggle(s: State): (r: State)
    ensures r.format24 == !s.format24
    ensures r.running == s.running && r.startTime == s.startTime
    ensures r.elapsed == s.elapsed && r.laps == s.laps
  {
    s.(format24 := !s.format24)
  }

  /** The text update_time puts on the display at instant now. */
  function Shown(s: State, now: nat): (text: string)
    ensures s.format24 ==> Parse24(text) == Some(Current(s, now))
    ensures !s.format24 ==> Parse12(text) == Some(Current(s, now))
  {
    Display(Current(s, now), s.format24)
  }

  lemma FormatToggleTwice(s: State)
    ensures AfterFormatToggle(AfterFormatToggle(s)) == s
  {
  }

  /** The lap text is the 24-hour display text of the same instant. */
  lemma LapMatches24HourDisplay(s: State, now: nat)
    requires s.format24
    ensures AfterLap(s, now).laps[|s.laps|] == Shown(s, now)
  {
  }

  /** A lap records the elapsed time without loss: its text reads back as that time. */
  lemma LapReadsBack(s: State, now: nat)
    ensures Parse24(AfterLap(s, now).laps[|s.laps|]) == Some(Current(s, now))
  {
    Format24RoundTrip(Current(s, now));
  }

  /** The start time is not in the future: what the wall clock guarantees while running. */
  predicate Consistent(s: State, now: nat) {
    s.running ==> s.startTime <= now
  }

  /** While running the time does not go back; while paused it stands still. */
  lemma CurrentMonotone(s: State, t: nat, u: nat)
    requires Consistent(s, t) && t <= u
    ensures Consistent(s, u)
    ensures Current(s, t) <= Current(s, u)
    ensures !s.running ==> Current(s, t) == Current(s, u)
    ensures Current(s, t) >= s.elapsed
  {
  }

  /** A button press, with the wall-clock instant for the presses that read it. */
  datatype Event =
    | StartPause(at: nat)
    | ResetPressed
    | LapPressed(at: nat)
    | FormatSwitched

  function Step(s: State, e: Event): State {
    match e
    case StartPause(t) => AfterToggle(s, t)
    case ResetPressed => AfterReset(s)
    case LapPressed(t) => AfterLap(s, t)
    case FormatSwitched => AfterFormatToggle(s)
  }

  /** The wall clock after e, when it was t before. */
  function EventTime(e: Event, t: nat): nat {
    if e.StartPause? || e.LapPressed? then e.at else t
  }

  /** The widget after a sequence of presses. */
  function Run(s: State, events: seq<Event>): State
    decreases |events|
  {
    if events == [] then s else Run(Step(s, events[0]), events[1..])
  }

  /** Presses whose instants never go back from t. */
  predicate Chronological(events: seq<Event>, t: nat)
    decreases |events|
  {
    events == [] || (t <= EventTime(events[0], t) && Chronological(events[1..], EventTime(events[0], t)))
  }

  /** The wall clock after the last press, starting from t. */
  function LastTime(events: seq<Event>, t: nat): nat
    decreases |events|
  {
    if events == [] then t else LastTime(events[1..], EventTime(events[0], t))
  }

  predicate NoReset(events: seq<Event>) {
    forall i :: 0 <= i < |events| ==> !events[i].ResetPressed?
  }

  /** One press other than Reset keeps the clock consistent and does not turn the time back. */
  lemma StepMonotone(s: State, e: Event, t: nat)
    requires Consistent(s, t) && t <= EventTime(e, t) && !e.ResetPressed?
    ensures Consistent(Step(s, e), EventTime(e, t))
    ensures Current(s, t) <= Current(Step(s, e), EventTime(e, t))
    ensures s.laps <= Step(s, e).laps
  {
    var u := EventTime(e, t);
    CurrentMonotone(s, t, u);
  }

  /**
   * Between resets, with the wall clock moving forward, the elapsed time never
   * decreases and the lap list only grows at its end.
   */
  lemma {:induction false} RunMonotone(s: State, events: seq<Event>, t: nat, u: nat)
    requires Consistent(s, t) && Chronological(events, t) && NoReset(events)
    requires LastTime(events, t) <= u
    ensures Consistent(Run(s, events), u)
    ensures Current(s, t) <= Current(Run(s, events), u)
    ensures s.laps <= Run(s, events).laps
    decreases |events|
  {
    if events == [] {
      CurrentMonotone(s, t, u);
    } else {
      var e := events[0];
      StepMonotone(s, e, t);
      assert NoReset(events[1..]) by {
        forall i | 0 <= i < |events[1..]| ensures !events[1..][i].ResetPressed? {
          assert events[1..][i] == events[i + 1];
        }
      }
      RunMonotone(Step(s, e), events[1..], EventTime(e, t), u);
    }
  }

  /** a is a lap text that reads back as no more than b. */
  predicate NotAfter(a: Option<int>, b: Option<int>) {
    a.Some? && b.Some? && a.value <= b.value
  }

  /** Recorded laps read back in order, and none is later than the current time. */
  predicate LapsOrdered(s: State, now: nat) {
    && (forall i, j :: 0 <= i < j < |s.laps| ==> NotAfter(Parse24(s.laps[i]), Parse24(s.laps[j])))
    && (forall i :: 0 <= i < |s.laps| ==> NotAfter(Parse24(s.laps[i]), Some(Current(s, now))))
  }

  lemma StepKeepsLapsOrdered(s: State, e: Event, t: nat)
    requires Consistent(s, t) && t <= EventTime(e, t) && LapsOrdered(s, t)
    ensures Consistent(Step(s, e), EventTime(e, t))
    ensures LapsOrdered(Step(s, e), EventTime(e, t))
  {
    var u := EventTime(e, t);
    CurrentMonotone(s, t, u);
    match e
    case LapPressed(_) =>
      var r := Step(s, e);
      var n := |s.laps|;
      LapReadsBack(s, u);
      assert Current(r, u) == Current(s, u);
      forall i | 0 <= i < |r.laps| ensures NotAfter(Parse24(r.laps[i]), Some(Current(r, u))) {
        if i < n { assert r.laps[i] == s.laps[i]; }
      }
      forall i, j | 0 <= i < j < |r.laps| ensures NotAfter(Parse24(r.laps[i]), Parse24(r.laps[j])) {
        assert r.laps[i] == s.laps[i];
        if j < n { assert r.laps[j] == s.laps[j]; }
      }
    case _ =>
  }

  /** Whatever the presses, resets included, the lap list stays in chronological order. */
  lemma {:induction false} RunKeepsLapsOrdered(s: State, events: seq<Event>, t: nat)
    requires Consistent(s, t) && Chronological(events, t) && LapsOrdered(s, t)
    ensures Consistent(Run(s, events), LastTime(events, t))
    ensures LapsOrdered(Run(s, events), LastTime(events, t))
    decreases |events|
  {
    if events != [] {
      StepKeepsLapsOrdered(s, events[0], t);
      RunKeepsLapsOrdered(Step(s, events[0]), events[1..], EventTime(events[0], t));
    }
  }

  /** From a fresh widget, every chronological sequence of presses leaves the laps ordered. */
  lemma LapsChronological(events: seq<Event>)
    requires Chronological(events, 0)
    ensures LapsOrdered(Run(Initial, events), LastTime(events, 0))
  {
    RunKeepsLapsOrdered(Initial, events, 0);
  }

  /** Start at 0, pause at 1.234 s, lap, start again at 5 s: at 7 s the time is 3.234 s. */
  lemma Scenario()
    ensures var s := Run(Initial, [StartPause(0), StartPause(1234), LapPressed(1500), StartPause(5000)]);
            s.laps == ["00:01:234"] && Current(s, 7000) == 3234
  {
    var s1 := AfterToggle(Initial, 0);
    var s2 := AfterToggle(s1, 1234);
    assert s2.elapsed == 1234 && !s2.running;
    Format24OfLap();
  }

  /** The widget's timer, as the fields the source updates in place. */
  class Stopwatch {
    var running: bool
    var startTime: nat
    var elapsed: int
    var laps: seq<string>
    var format24: bool

    function Model(): State
      reads this
    {
      State(running, startTime, elapsed, laps, format24)
    }

    constructor ()
      ensures Model() == Initial
    {
      running, startTime, elapsed, laps, format24 := false, 0, 0, [], true;
    }

    /** toggle_start_pause */
    method ToggleStartPause(now: nat)
      modifies this
      ensures Model() == AfterToggle(old(Model()), now)
    {
      if running {
        elapsed := elapsed + (now - startTime);
      } else {
        startTime := now;
      }
      running := !running;
    }

    /** reset */
    method Reset()
      modifies this
      ensures Model() == AfterReset(old(Model()))
    {
      elapsed := 0;
      laps := [];
      running := false;
    }

    /** record_lap */
    method RecordLap(now: nat)
      modifies this
      ensures Model() == AfterLap(old(Model()), now)
    {
      var lapTime := if running then elapsed + (now - startTime) else elapsed;
      assert lapTime == Current(Model(), now);
      laps := laps + [Format24(lapTime)];
    }

    /** update_time: the text for the display at instant now. */
    method UpdateTime(now: nat) returns (shown: string)
      ensures shown == Shown(Model(), now)
      ensures format24 ==> Parse24(shown) == Some(Current(Model(), now))
      ensures !format24 ==> Parse12(shown) == Some(Current(Model(), now))
    {
      var currentTime := if running then elapsed + (now - startTime) else elapsed;
      assert currentTime == Current(Model(), now);
      if format24 {
        shown := Format24(currentTime);
      } else {
        shown := Format12(currentTime);
      }
    }

    /** toggle_time_format, which redraws the display in the new mode. */
    method ToggleTimeFormat(now: nat) returns (shown: string)
      modifies this
      ensures Model() == AfterFormatToggle(old(Model()))
      ensures shown == Shown(Model(), now)
    {
      format24 := !format24;
      shown := UpdateTime(now);
    }
  }
}
