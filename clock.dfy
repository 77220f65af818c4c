/** The plain live clock: every second it shows the wall-clock hour, minute
    and second, each padded to two digits, joined by ':'. The hour is shown
    as the clock gives it (0..23), with no conversion. */
module Clock {
  import opened Options
  import opened Text

  /** The `HH:MM:SS` readout for one reading of the clock. */
  function Readout(hours: nat, minutes: nat, seconds: nat): string {
    Pad(hours) + ":" + Pad(minutes) + ":" + Pad(seconds)
  }

  function TwoDigitValue(a: char, b: char): nat
    requires IsDigit(a) && IsDigit(b)
  {
    DigitValue(a) * 10 + DigitValue(b)
  }

  /** Reads an `HH:MM:SS` string back into its three fields; None for any
      string of another shape. */
  function ParseReadout(s: string): Option<(nat, nat, nat)> {
    if |s| == 8 && s[2] == ':' && s[5] == ':'
       && IsDigit(s[0]) && IsDigit(s[1]) && IsDigit(s[3])
       && IsDigit(s[4]) && IsDigit(s[6]) && IsDigit(s[7])
    then Some((TwoDigitValue(s[0], s[1]), TwoDigitValue(s[3], s[4]), TwoDigitValue(s[6], s[7])))
    else None
  }

  /** For fields below 100 the readout is exactly eight characters: two
      digits per field and the two separators. */
  lemma ReadoutShape(hours: nat, minutes: nat, seconds: nat)
    requires hours < 100 && minutes < 100 && seconds < 100
    ensures Readout(hours, minutes, seconds)
         == [DigitChar(hours / 10), DigitChar(hours % 10), ':',
             DigitChar(minutes / 10), DigitChar(minutes % 10), ':',
             DigitChar(seconds / 10), DigitChar(seconds % 10)]
  {
    var ph, pm, ps := Pad(hours), Pad(minutes), Pad(seconds);
    PadTwoDigits(hours);
    PadTwoDigits(minutes);
    PadTwoDigits(seconds);
    assert Readout(hours, minutes, seconds) == ph + [':'] + pm + [':'] + ps;
    assert ph + [':'] + pm + [':'] + ps == [ph[0], ph[1], ':', pm[0], pm[1], ':', ps[0], ps[1]];
  }

  lemma TwoDigitsBack(n: nat)
    requires n < 100
    ensures TwoDigitValue(DigitChar(n / 10), DigitChar(n % 10)) == n
  {
  }

  lemma ParseDigits(hours: nat, minutes: nat, seconds: nat)
    requires hours < 100 && minutes < 100 && seconds < 100
    ensures ParseReadout([DigitChar(hours / 10), DigitChar(hours % 10), ':',
                          DigitChar(minutes / 10), DigitChar(minutes % 10), ':',
                          DigitChar(seconds / 10), DigitChar(seconds % 10)])
         == Some((hours, minutes, seconds))
  {
    TwoDigitsBack(hours);
    TwoDigitsBack(minutes);
    TwoDigitsBack(seconds);
  }

  /** A reading in range (hour 0..23, minute and second 0..59) gives an
      eight-character readout from which the same three fields read back. */
  lemma ReadoutRoundTrip(hours: nat, minutes: nat, seconds: nat)
    requires hours < 24 && minutes < 60 && seconds < 60
    ensures |Readout(hours, minutes, seconds)| == 8
    ensures ParseReadout(Readout(hours, minutes, seconds)) == Some((hours, minutes, seconds))
  {
    ReadoutShape(hours, minutes, seconds);
    ParseDigits(hours, minutes, seconds);
  }
}
