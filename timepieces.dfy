/** The stopwatch and the countdown timer. Each holds a running flag and the
    handle of the 100 ms refresh interval, here the flag `ticking`; the wall
    clock is the parameter `now` (milliseconds), each refresh of the interval
    is an explicit call of `Tick(now)`, and the display element's text is the
    field `display`. */
module Timepieces {
  import opened Options
  import opened TimeFormat

  /** What a display shows before its first update and after every reset. */
  const ZeroDisplay := "00:00:00.0"

  /** One field of the timer's duration inputs: `parseInt(value, 10) || 0`,
      where None is a value that does not parse (NaN). */
  function FieldValue(parsed: Option<int>): int {
    match parsed
    case None => 0
    case Some(v) => v
  }

  /** `getDurationFromInputs`: hours, minutes and seconds to milliseconds. */
  function DurationFromInputs(hours: Option<int>, minutes: Option<int>, seconds: Option<int>): int {
    ((FieldValue(hours) * 3600) + (FieldValue(minutes) * 60) + FieldValue(seconds)) * 1000
  }

  /** A field that does not parse counts as 0, and fields that parse to
      non-negative values give a non-negative duration. */
  lemma UnparsedFieldIsZero(h: int, m: int, s: int)
    ensures DurationFromInputs(None, Some(m), Some(s)) == DurationFromInputs(Some(0), Some(m), Some(s))
    ensures DurationFromInputs(Some(h), None, Some(s)) == DurationFromInputs(Some(h), Some(0), Some(s))
    ensures DurationFromInputs(Some(h), Some(m), None) == DurationFromInputs(Some(h), Some(m), Some(0))
    ensures h >= 0 && m >= 0 && s >= 0 ==> DurationFromInputs(Some(h), Some(m), Some(s)) >= 0
  {
  }

  /** A duration entered with minutes and seconds below 60 is shown by the
      timer display with exactly those fields (hours modulo 24) and 0 tenths. */
  lemma DurationShown(h: nat, m: nat, s: nat)
    requires m < 60 && s < 60
    ensures DurationFromInputs(Some(h), Some(m), Some(s)) == ((h * 3600) + (m * 60) + s) * 1000
    ensures FormatTime(((h * 3600) + (m * 60) + s) * 1000)
         == Text.Pad(h % 24) + ":" + Text.Pad(m) + ":" + Text.Pad(s) + ".0"
  {
    WholeSecondsShown(h, m, s);
  }

  /** Sum of the lengths of the stopwatch's completed running intervals. */
  function Total(runs: seq<int>): int {
    if runs == [] then 0 else runs[0] + Total(runs[1..])
  }

  lemma {:induction false} TotalAppend(runs: seq<int>, d: int)
    ensures Total(runs + [d]) == Total(runs) + d
  {
    if runs != [] {
      assert (runs + [d])[1..] == runs[1..] + [d];
      TotalAppend(runs[1..], d);
    }
  }

  /** Counts up: while running, the reading is `now - startTime`; `start`
      rebases startTime so that the reading continues from elapsedTime. */
  class Stopwatch {
    const name: string
    var isRunning: bool
    var ticking: bool
    var startTime: int
    var elapsedTime: int
    var display: string
    /** Lengths of the running intervals closed by a pause since the last reset. */
    ghost var runs: seq<int>
    /** The instant of the latest start. */
    ghost var resumedAt: int

    /** elapsedTime is the sum of the closed running intervals; while running
        the reading `now - startTime` adds the open one; the refresh interval
        is set exactly while running. */
    ghost predicate Valid()
      reads this
    {
      && elapsedTime == Total(runs)
      && (isRunning ==> startTime == resumedAt - Total(runs))
      && ticking == isRunning
    }

    constructor (name: string)
      ensures Valid() && this.name == name
      ensures !isRunning && startTime == 0 && elapsedTime == 0 && runs == []
      ensures display == ZeroDisplay
    {
      this.name := name;
      isRunning, ticking := false, false;
      startTime, elapsedTime := 0, 0;
      display := ZeroDisplay;
      runs, resumedAt := [], 0;
    }

    /** `getCurrentTime`: `now - startTime`, which is the time counted so far
        only while running (the source does not look at isRunning). */
    method CurrentTime(now: int) returns (r: int)
      requires Valid()
      ensures r == now - startTime
      ensures isRunning ==> r == Total(runs) + (now - resumedAt)
    {
      r := now - startTime;
    }

    method Start(now: int)
      requires Valid()
      modifies this
      ensures Valid() && isRunning && ticking
      ensures startTime == now - elapsedTime
      ensures elapsedTime == old(elapsedTime) && display == old(display)
      ensures runs == old(runs) && resumedAt == now
    {
      startTime := now - elapsedTime;
      isRunning, ticking := true, true;
      resumedAt := now;
    }

    /** `pause`: elapsedTime becomes `now - startTime`. When running, that is
        the previous elapsedTime plus the interval since the latest start. */
    method Pause(now: int)
      requires Valid()
      modifies this
      ensures !isRunning && !ticking
      ensures elapsedTime == now - old(startTime)
      ensures startTime == old(startTime) && display == old(display)
      ensures old(isRunning) ==> && Valid()
                                 && runs == old(runs) + [now - old(resumedAt)]
                                 && elapsedTime == old(elapsedTime) + (now - old(resumedAt))
    {
      if isRunning {
        TotalAppend(runs, now - resumedAt);
        runs := runs + [now - resumedAt];
      }
      elapsedTime := now - startTime;
      isRunning, ticking := false, false;
    }

    /** The Start/Pause button. */
    method StartPause(now: int)
      requires Valid()
      modifies this
      ensures Valid() && isRunning == !old(isRunning) && display == old(display)
      ensures old(isRunning) ==> && runs == old(runs) + [now - old(resumedAt)]
                                 && elapsedTime == old(elapsedTime) + (now - old(resumedAt))
                                 && startTime == old(startTime)
      ensures !old(isRunning) ==> && runs == old(runs) && elapsedTime == old(elapsedTime)
                                  && resumedAt == now && startTime == now - elapsedTime
    {
      if isRunning {
        Pause(now);
      } else {
        Start(now);
      }
    }

    /** `resetTime`: both counters to zero; returns the value to display. */
    method ResetTime() returns (r: int)
      requires ticking == isRunning
      modifies this
      ensures Valid() && r == 0
      ensures elapsedTime == 0 && startTime == 0 && runs == []
      ensures isRunning == old(isRunning) && ticking == old(ticking) && display == old(display)
    {
      elapsedTime, startTime := 0, 0;
      runs, resumedAt := [], 0;
      r := 0;
    }

    /** `update(reset)`: with reset, zero the counters and show zero;
        otherwise show the current reading. */
    method Update(now: int, reset: bool)
      requires Valid()
      requires !reset ==> now - startTime >= 0
      modifies this
      ensures Valid() && isRunning == old(isRunning)
      ensures reset ==> elapsedTime == 0 && startTime == 0 && runs == [] && display == FormatTime(0)
      ensures !reset ==> && elapsedTime == old(elapsedTime) && startTime == old(startTime)
                         && runs == old(runs) && resumedAt == old(resumedAt)
                         && display == FormatTime(now - startTime)
    {
      var time;
      if reset {
        time := ResetTime();
      } else {
        time := CurrentTime(now);
      }
      display := FormatTime(time);
    }

    /** One refresh of the interval, which runs only while it is set. */
    method Tick(now: int)
      requires Valid() && ticking
      requires now - startTime >= 0
      modifies this
      ensures Valid() && isRunning && elapsedTime == old(elapsedTime) && runs == old(runs)
      ensures startTime == old(startTime) && resumedAt == old(resumedAt)
      ensures now - startTime == elapsedTime + (now - resumedAt)
      ensures display == FormatTime(now - startTime)
    {
      Update(now, false);
    }

    /** The Reset button: pause, zero the counters, show zero. */
    method Reset(now: int)
      requires Valid()
      modifies this
      ensures Valid() && !isRunning && !ticking
      ensures elapsedTime == 0 && startTime == 0 && runs == []
      ensures display == ZeroDisplay
    {
      Pause(now);
      var _ := ResetTime();
      Update(now, true);
      FormatZero();
    }
  }

  /** Counts down: remainingTime is what is left at the latest start, and
      while running the reading is `remainingTime - (now - startTime)`. */
  class Timer {
    const name: string
    var isRunning: bool
    var ticking: bool
    var startTime: int
    var remainingTime: int
    var display: string
    /** Number of "Timer ended!" alerts raised. */
    var alerts: nat

    ghost predicate Valid()
      reads this
    {
      ticking == isRunning
    }

    constructor (name: string, duration: int)
      ensures Valid() && this.name == name && !isRunning
      ensures startTime == 0 && remainingTime == duration
      ensures display == ZeroDisplay && alerts == 0
    {
      this.name := name;
      isRunning, ticking := false, false;
      startTime, remainingTime := 0, duration;
      display := ZeroDisplay;
      alerts := 0;
    }

    /** `getCurrentTime`: the time left; it has run out (is <= 0) exactly
        when now has reached startTime + remainingTime. */
    method CurrentTime(now: int) returns (r: int)
      ensures r == remainingTime - (now - startTime)
      ensures r <= 0 <==> now >= startTime + remainingTime
    {
      r := remainingTime - (now - startTime);
    }

    method Start(now: int)
      requires Valid()
      modifies this
      ensures Valid() && isRunning && startTime == now
      ensures remainingTime == old(remainingTime) && display == old(display) && alerts == old(alerts)
    {
      startTime := now;
      isRunning, ticking := true, true;
    }

    /** `pause`: remainingTime drops by the time since startTime. */
    method Pause(now: int)
      requires Valid()
      modifies this
      ensures Valid() && !isRunning
      ensures remainingTime == old(remainingTime) - (now - old(startTime))
      ensures startTime == old(startTime) && display == old(display) && alerts == old(alerts)
    {
      remainingTime := remainingTime - (now - startTime);
      isRunning, ticking := false, false;
    }

    method StartPause(now: int)
      requires Valid()
      modifies this
      ensures Valid() && isRunning == !old(isRunning)
      ensures display == old(display) && alerts == old(alerts)
      ensures old(isRunning) ==> && remainingTime == old(remainingTime) - (now - old(startTime))
                                 && startTime == old(startTime)
      ensures !old(isRunning) ==> remainingTime == old(remainingTime) && startTime == now
    {
      if isRunning {
        Pause(now);
      } else {
        Start(now);
      }
    }

    /** `resetTime`: nothing remains; returns the value to display. */
    method ResetTime() returns (r: int)
      modifies this`remainingTime
      ensures r == 0 && remainingTime == 0
    {
      remainingTime := 0;
      r := 0;
    }

    /** `update(reset)`. Without reset, a reading <= 0 means the countdown has
        ended (see Expire). The reset that Expire performs calls update with
        reset set, which skips that check, so the expiry path is entered once
        per call (the decreases clauses prove it). */
    method Update(now: int, reset: bool)
      requires Valid()
      modifies this
      decreases if reset then 0 else 3
      ensures Valid() && startTime == old(startTime)
      ensures reset ==> && remainingTime == 0 && display == FormatTime(0)
                        && isRunning == old(isRunning) && alerts == old(alerts)
      ensures !reset && old(remainingTime) - (now - old(startTime)) <= 0 ==>
                && !isRunning && !ticking && remainingTime == 0
                && display == ZeroDisplay && alerts == old(alerts) + 1
      ensures !reset && old(remainingTime) - (now - old(startTime)) > 0 ==>
                && remainingTime == old(remainingTime) && isRunning == old(isRunning)
                && alerts == old(alerts)
                && display == FormatTime(old(remainingTime) - (now - old(startTime)))
    {
      if reset {
        var time := ResetTime();
        display := FormatTime(time);
      } else {
        var time := CurrentTime(now);
        if time <= 0 {
          Expire(now);
        } else {
          display := FormatTime(time);
        }
      }
    }

    /** The end of the countdown: reset the timer, show zero and raise one
        "Timer ended!" alert. */
    method Expire(now: int)
      requires Valid()
      modifies this
      decreases 2
      ensures Valid() && !isRunning && !ticking && remainingTime == 0
      ensures startTime == old(startTime)
      ensures display == ZeroDisplay && alerts == old(alerts) + 1
    {
      Reset(now);
      display := ZeroDisplay;
      alerts := alerts + 1;
    }

    /** One refresh of the interval, which runs only while it is set. Once
        the countdown has ended the interval is cleared, so no further
        refresh (and no second alert) can follow. */
    method Tick(now: int)
      requires Valid() && ticking
      modifies this
      ensures Valid() && startTime == old(startTime)
      ensures var reading := old(remainingTime) - (now - old(startTime));
        if now >= old(startTime) + old(remainingTime) then
          && !ticking && remainingTime == 0 && display == ZeroDisplay && alerts == old(alerts) + 1
        else
          && ticking && display == FormatTime(reading)
          && remainingTime == old(remainingTime) && alerts == old(alerts)
    {
      Update(now, false);
    }

    /** The Reset button (also run by an expiring update): pause, zero the
        remaining time, show zero. */
    method Reset(now: int)
      requires Valid()
      modifies this
      decreases 1
      ensures Valid() && !isRunning && !ticking && remainingTime == 0
      ensures display == ZeroDisplay
      ensures startTime == old(startTime) && alerts == old(alerts)
    {
      Pause(now);
      var _ := ResetTime();
      Update(now, true);
      FormatZero();
    }

    /** The Apply button: the duration inputs replace remainingTime. */
    method ApplyDuration(duration: int)
      modifies this`remainingTime
      ensures remainingTime == duration
    {
      remainingTime := duration;
    }

    /** The Start/Pause button: it first overwrites remainingTime with the
        duration inputs, so a pause keeps `duration - (now - startTime)` and
        a resume starts again from the full input duration. */
    method ClickStartPause(now: int, duration: int)
      requires Valid()
      modifies this
      ensures Valid() && isRunning == !old(isRunning)
      ensures display == old(display) && alerts == old(alerts)
      ensures old(isRunning) ==> remainingTime == duration - (now - old(startTime)) && startTime == old(startTime)
      ensures !old(isRunning) ==> remainingTime == duration && startTime == now
    {
      ApplyDuration(duration);
      StartPause(now);
    }
  }

  /** A stopwatch started and paused twice shows the sum of the two running
      intervals as its elapsed time. */
  method TwoRunsAddUp(t0: int, t1: int, t2: int, t3: int) returns (elapsed: int)
    ensures elapsed == (t1 - t0) + (t3 - t2)
  {
    var sw := new Stopwatch("lap");
    sw.StartPause(t0);
    sw.StartPause(t1);
    sw.StartPause(t2);
    sw.StartPause(t3);
    elapsed := sw.elapsedTime;
  }

  lemma OneTenthShown()
    ensures FormatTime(100) == "00:00:00.1"
  {
    FormatShape(100);
    assert Hours(100) == 0 && Minutes(100) == 0 && Seconds(100) == 0 && Tenths(100) == 1;
  }

  /** A timer set to 0 h 0 m 5 s and started at t0 still shows a tenth left
      at t0 + 4900; at t0 + 5000 it shows zero, has raised exactly one alert
      and has cleared its interval. */
  method FiveSecondCountdown(t0: int) returns (before: string, after: string, alerts: nat, ticking: bool)
    ensures before == "00:00:00.1"
    ensures after == ZeroDisplay && alerts == 1 && !ticking
  {
    var timer := new Timer("tea", 0);
    var duration := DurationFromInputs(Some(0), Some(0), Some(5));
    assert duration == 5000;
    timer.ClickStartPause(t0, duration);
    timer.Tick(t0 + 4900);
    before := timer.display;
    OneTenthShown();
    timer.Tick(t0 + 5000);
    after, alerts, ticking := timer.display, timer.alerts, timer.ticking;
  }
}
