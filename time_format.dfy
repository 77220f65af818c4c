/** The timepiece display: a millisecond count shown as `HH:MM:SS.t`
    (hours wrapping every 24 hours, then minutes, seconds and tenths). */
module TimeFormat {
  import opened Options
  import opened Text
  import Clock

  const MS_PER_TENTH := 100
  const MS_PER_SECOND := 1000
  const MS_PER_MINUTE := 60000
  const MS_PER_HOUR := 3600000
  /** Number of tenths of a second in a day: the period of the display. */
  const TENTHS_PER_DAY := 864000

  function Tenths(t: nat): nat { (t % MS_PER_SECOND) / MS_PER_TENTH }
  function Seconds(t: nat): nat { (t / MS_PER_SECOND) % 60 }
  function Minutes(t: nat): nat { (t / MS_PER_MINUTE) % 60 }
  function Hours(t: nat): nat { (t / MS_PER_HOUR) % 24 }

  /** `formatTime(time)` for time >= 0: the four fields, the first three
      padded to two digits; for such times the `Math.floor` of the source is
      integer division. */
  function FormatTime(t: nat): string {
    Pad(Hours(t)) + ":" + Pad(Minutes(t)) + ":" + Pad(Seconds(t)) + "." + NatToString(Tenths(t))
  }

  /** Reads a display string back into tenths of a second since the start of
      the day; None for any string of another shape. */
  function ParseDisplay(s: string): Option<nat> {
    if |s| == 10 && s[8] == '.' && IsDigit(s[9]) then
      match Clock.ParseReadout(s[..8])
      case Some((h, m, sec)) => Some(((h * 60 + m) * 60 + sec) * 10 + DigitValue(s[9]))
      case None => None
    else None
  }

  // ----- integer division facts used below -----

  lemma MulAtLeast(k: int, d: int)
    requires k >= 1 && d > 0
    ensures k * d >= d
  {
    assert k * d == (k - 1) * d + d;
  }

  /** Euclidean division is determined by its quotient-remainder equation. */
  lemma DivModUnique(x: int, d: int, q: int, r: int)
    requires d > 0 && 0 <= r < d && x == q * d + r
    ensures x / d == q && x % d == r
  {
    var q', r' := x / d, x % d;
    assert (q - q') * d == r' - r;
    if q > q' {
      MulAtLeast(q - q', d);
    } else if q < q' {
      MulAtLeast(q' - q, d);
    }
  }

  /** Dividing by a and then by b is dividing by a * b; the remainder by
      a * b splits into the two remainders. */
  lemma DivDiv(x: nat, a: nat, b: nat)
    requires a > 0 && b > 0
    ensures x / a / b == x / (a * b)
    ensures x % (a * b) == (x / a % b) * a + x % a
  {
    var q, r := x / (a * b), x % (a * b);
    assert x == q * (a * b) + r;
    var q1, r1 := r / a, r % a;
    assert r == q1 * a + r1;
    assert q1 < b;
    assert x == (q * b + q1) * a + r1;
    DivModUnique(x, a, q * b + q1, r1);
    DivModUnique(x / a, b, q, q1);
  }

  /** The fields expressed through u = t / 100, the whole tenths in t. */
  lemma FieldsInTenths(t: nat)
    ensures Tenths(t) == (t / 100) % 10
    ensures t / 1000 == t / 100 / 10
    ensures t / 60000 == t / 100 / 10 / 60
    ensures t / 3600000 == t / 100 / 10 / 60 / 60
  {
    DivDiv(t, 100, 10);
    DivModUnique(t % 1000, 100, t / 100 % 10, t % 100);
    DivDiv(t, 1000, 60);
    DivDiv(t, 60000, 60);
  }

  // ----- properties of the display -----

  /** Each field is in its range: tenths 0..9, seconds and minutes 0..59,
      hours 0..23. */
  lemma FieldRanges(t: nat)
    ensures Tenths(t) < 10 && Seconds(t) < 60 && Minutes(t) < 60 && Hours(t) < 24
  {
    FieldsInTenths(t);
  }

  /** The fields put back together give the time of day in tenths: the
      display shows t modulo 24 hours, truncated to a tenth. */
  lemma {:induction false} FieldsCompose(t: nat)
    ensures ((Hours(t) * 60 + Minutes(t)) * 60 + Seconds(t)) * 10 + Tenths(t)
         == (t / 100) % TENTHS_PER_DAY
  {
    FieldsInTenths(t);
    var u := t / 100;
    var v := u / 10;
    var w := v / 60;
    DivDiv(u, 10, 86400);
    DivDiv(v, 60, 1440);
    DivDiv(w, 60, 24);
  }

  /** The display is ten characters: `HH:MM:SS.t`, each of HH, MM and SS the
      two decimal digits of its field. */
  lemma FormatShape(t: nat)
    ensures var h, m, s := Hours(t), Minutes(t), Seconds(t);
      FormatTime(t) == [DigitChar(h / 10), DigitChar(h % 10), ':',
                        DigitChar(m / 10), DigitChar(m % 10), ':',
                        DigitChar(s / 10), DigitChar(s % 10), '.',
                        DigitChar(Tenths(t))]
  {
    FieldRanges(t);
    Clock.ReadoutShape(Hours(t), Minutes(t), Seconds(t));
    assert FormatTime(t) == Clock.Readout(Hours(t), Minutes(t), Seconds(t)) + "." + NatToString(Tenths(t));
  }

  /** Reading the display back yields t modulo a day, in whole tenths. */
  lemma FormatRoundTrip(t: nat)
    ensures ParseDisplay(FormatTime(t)) == Some((t / 100) % TENTHS_PER_DAY)
  {
    var h, m, s := Hours(t), Minutes(t), Seconds(t);
    FieldRanges(t);
    FieldsCompose(t);
    FormatShape(t);
    var clock := [DigitChar(h / 10), DigitChar(h % 10), ':',
                  DigitChar(m / 10), DigitChar(m % 10), ':',
                  DigitChar(s / 10), DigitChar(s % 10)];
    Clock.ParseDigits(h, m, s);
    assert FormatTime(t)[..8] == clock;
  }

  /** The display of zero, which every reset produces. */
  lemma FormatZero()
    ensures FormatTime(0) == "00:00:00.0"
  {
    assert Hours(0) == 0 && Minutes(0) == 0 && Seconds(0) == 0 && Tenths(0) == 0;
    PadTwoDigits(0);
  }

  /** A duration of whole seconds shows a tenths digit of 0 and its
      seconds, minutes and hours (the hours modulo 24) in the three fields. */
  lemma WholeSecondsShown(h: nat, m: nat, s: nat)
    requires m < 60 && s < 60
    ensures var t := ((h * 3600) + (m * 60) + s) * 1000;
      FormatTime(t) == Pad(h % 24) + ":" + Pad(m) + ":" + Pad(s) + ".0"
  {
    var t := ((h * 3600) + (m * 60) + s) * 1000;
    var secs := (h * 60 + m) * 60 + s;
    var mins := h * 60 + m;
    assert t == secs * 1000;
    DivModUnique(t, 1000, secs, 0);
    assert t == mins * 60000 + s * 1000;
    DivModUnique(t, 60000, mins, s * 1000);
    assert t == h * 3600000 + (m * 60 + s) * 1000;
    DivModUnique(t, 3600000, h, (m * 60 + s) * 1000);
    DivModUnique(secs, 60, mins, s);
    DivModUnique(mins, 60, h, m);
    assert Tenths(t) == 0 && Seconds(t) == s && Minutes(t) == m && Hours(t) == h % 24;
  }
}
