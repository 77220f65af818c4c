/** The clock with a 12/24-hour toggle. A global flag, true at start, says
    which form the hour is shown in; two buttons set it and redraw at once. */
module TwelveHourClock {
  import opened Options
  import Clock

  /** The hour as displayed: in 12-hour form `hours % 12 || 12` (a remainder
      of 0, which JavaScript treats as false, shows as 12), otherwise the
      clock's hour unchanged. */
  function DisplayHour(hours: nat, is12HourFormat: bool): nat {
    if is12HourFormat then (if hours % 12 == 0 then 12 else hours % 12) else hours
  }

  /** The `HH:MM:SS` string drawn for one reading. */
  function Readout(hours: nat, minutes: nat, seconds: nat, is12HourFormat: bool): string {
    Clock.Readout(DisplayHour(hours, is12HourFormat), minutes, seconds)
  }

  /** In 12-hour form the shown hour is in 1..12 and agrees with the clock's
      hour modulo 12; midnight and noon show as 12, 13 o'clock as 1. */
  lemma TwelveHourRange(hours: nat)
    ensures 1 <= DisplayHour(hours, true) <= 12
    ensures DisplayHour(hours, true) % 12 == hours % 12
    ensures DisplayHour(0, true) == 12 && DisplayHour(12, true) == 12 && DisplayHour(13, true) == 1
  {
  }

  /** In 24-hour form the clock's hour is shown as it is. */
  lemma TwentyFourHourIdentity(hours: nat)
    ensures DisplayHour(hours, false) == hours
  {
  }

  /** For a reading in range the drawn string has eight characters and reads
      back as the displayed hour with the same minute and second. */
  lemma ReadoutRoundTrip(hours: nat, minutes: nat, seconds: nat, is12HourFormat: bool)
    requires hours < 24 && minutes < 60 && seconds < 60
    ensures |Readout(hours, minutes, seconds, is12HourFormat)| == 8
    ensures Clock.ParseReadout(Readout(hours, minutes, seconds, is12HourFormat))
         == Some((DisplayHour(hours, is12HourFormat), minutes, seconds))
  {
    Clock.ReadoutRoundTrip(DisplayHour(hours, is12HourFormat), minutes, seconds);
  }

  /** The page: the format flag and the text of the clock element. */
  class ClockFace {
    var is12HourFormat: bool
    var display: string

    /** The flag starts in 12-hour form; nothing has been drawn yet. */
    constructor ()
      ensures is12HourFormat && display == ""
    {
      is12HourFormat := true;
      display := "";
    }

    /** `updateTime`: draw the current reading in the current form. */
    method UpdateTime(hours: nat, minutes: nat, seconds: nat)
      modifies this`display
      ensures display == Readout(hours, minutes, seconds, is12HourFormat)
    {
      display := Readout(hours, minutes, seconds, is12HourFormat);
    }

    /** The "12hr" button: switch to 12-hour form and redraw. */
    method Select12Hour(hours: nat, minutes: nat, seconds: nat)
      modifies this
      ensures is12HourFormat
      ensures display == Readout(hours, minutes, seconds, true)
    {
      is12HourFormat := true;
      UpdateTime(hours, minutes, seconds);
    }

    /** The "24hr" button: switch to 24-hour form and redraw. */
    method Select24Hour(hours: nat, minutes: nat, seconds: nat)
      modifies this
      ensures !is12HourFormat
      ensures display == Clock.Readout(hours, minutes, seconds)
    {
      is12HourFormat := false;
      UpdateTime(hours, minutes, seconds);
    }
  }
}
