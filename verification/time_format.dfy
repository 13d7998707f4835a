/** `format_time`: a run's duration rendered as Python's `timedelta` prints
    it (`[D day[s], ]H:MM:SS[.UUUUUU]`), with the last three characters cut
    when a fraction is present, so that milliseconds remain.  Durations are
    non-negative whole microseconds; the float-to-microsecond rounding of
    `timedelta(seconds=...)` happens before this model begins. */
module TimeFormat {
  import opened Wrappers
  import opened Text

  const MicrosPerSecond: nat := 1000000
  const SecondsPerDay: nat := 86400
  const MicrosPerDay: nat := 86400000000

  /** `"%d:%02d:%02d" % (hh, mm, ss)` for a number of seconds within one day. */
  function ClockText(secs: nat): string {
    Decimal(secs / 3600) + ":" + Padded(secs / 60 % 60, 2) + ":" + Padded(secs % 60, 2)
  }

  /** `"%d day%s, " % (days, plural)`, or nothing for a duration under a day. */
  function DayPrefix(days: nat): string {
    if days == 0 then "" else Decimal(days) + (if days == 1 then " day, " else " days, ")
  }

  /** The whole-second part of `str(timedelta)`: a day count when there is one, then the clock. */
  function WholeText(us: nat): string {
    DayPrefix(us / MicrosPerDay) + ClockText(us / MicrosPerSecond % SecondsPerDay)
  }

  /** `str(timedelta(microseconds=us))`: six microsecond digits follow a dot
      exactly when the microsecond part is not zero. */
  function TimedeltaText(us: nat): string {
    var micros := us % MicrosPerSecond;
    if micros == 0 then WholeText(us) else WholeText(us) + "." + Padded(micros, 6)
  }

  /** `format_time(seconds)`, with `None` for Python's `None`. */
  function FormatTime(duration: Option<nat>): string {
    match duration
    case None => "N/A"
    case Some(us) =>
      var s := TimedeltaText(us);
      if '.' in s then s[..|s| - 3] else s
  }

  /** A missing time prints as "N/A", and a zero duration as "0:00:00". */
  lemma FormatTimeExamples()
    ensures FormatTime(None) == "N/A"
    ensures FormatTime(Some(0)) == "0:00:00"
  {
    var t := FormatTime(Some(0));
    FormattedUnderDay(0);
    assert t == ClockText(0 / MicrosPerSecond);
    ClockZero();
  }

  lemma ClockZero()
    ensures ClockText(0) == "0:00:00"
  {
    var h, p := Decimal(0), Padded(0, 2);
    assert h == "0";
    assert p == "00";
  }

  lemma ClockHasNoDot(secs: nat)
    ensures '.' !in ClockText(secs)
  {
    var h, m, s := Decimal(secs / 3600), Padded(secs / 60 % 60, 2), Padded(secs % 60, 2);
    assert ClockText(secs) == h + [':'] + m + [':'] + s;
    assert forall c :: c in h + m + s ==> IsDigit(c);
  }

  lemma WholeHasNoDot(us: nat)
    ensures '.' !in WholeText(us)
  {
    ClockHasNoDot(us / MicrosPerSecond % SecondsPerDay);
    var days := us / MicrosPerDay;
    if days != 0 {
      var d := Decimal(days);
      assert forall c :: c in d ==> IsDigit(c);
    }
    assert '.' !in DayPrefix(days);
  }

  /** Cutting the last three characters of `w.UUUUUU` leaves `w.mmm`. */
  lemma CutFraction(w: string, micros: nat)
    requires '.' !in w
    ensures var s := w + "." + Padded(micros, 6);
      '.' in s && s[..|s| - 3] == w + "." + Padded(micros / 1000, 3)
  {
    var s := w + "." + Padded(micros, 6);
    assert s[|w|] == '.';
    PaddedSixCut(micros);
    assert s[..|s| - 3] == w + "." + Padded(micros, 6)[..3];
  }

  /** What the cut does: a whole-second duration keeps `[D day[s], ]H:MM:SS`
      and shows no dot; otherwise exactly three fractional digits follow the
      dot, and they are the microseconds divided by 1000 rounded DOWN. */
  lemma FormatTimeShape(us: nat)
    ensures us % MicrosPerSecond == 0 ==>
      FormatTime(Some(us)) == WholeText(us) && '.' !in FormatTime(Some(us))
    ensures us % MicrosPerSecond != 0 ==>
      FormatTime(Some(us)) == WholeText(us) + "." + Padded(us % MicrosPerSecond / 1000, 3)
  {
    WholeHasNoDot(us);
    if us % MicrosPerSecond != 0 {
      CutFraction(WholeText(us), us % MicrosPerSecond);
    }
  }

  /** Under one day there is no day count. */
  lemma WholeTextUnderDay(us: nat)
    requires us < MicrosPerDay
    ensures WholeText(us) == ClockText(us / MicrosPerSecond)
  {
    UnderOneDay(us);
    assert DayPrefix(0) == "";
  }

  lemma UnderOneDay(us: nat)
    requires us < MicrosPerDay
    ensures us / MicrosPerDay == 0
    ensures us / MicrosPerSecond % SecondsPerDay == us / MicrosPerSecond
  {
    assert us / MicrosPerSecond < SecondsPerDay;
  }

  // ---------------------------------------------------------------------
  // Reading a formatted time back

  /** Reads `H:MM:SS` back to seconds. */
  function ParseClock(s: string): Option<nat> {
    if |s| >= 7 && s[|s| - 3] == ':' && s[|s| - 6] == ':'
       && AllDigits(s[..|s| - 6]) && AllDigits(s[|s| - 5..|s| - 3]) && AllDigits(s[|s| - 2..])
    then Some(DigitsValue(s[..|s| - 6]) * 3600 + DigitsValue(s[|s| - 5..|s| - 3]) * 60
              + DigitsValue(s[|s| - 2..]))
    else None
  }

  /** Reads `H:MM:SS` or `H:MM:SS.mmm` back to microseconds. */
  function ParseTime(s: string): Option<nat> {
    if |s| >= 4 && s[|s| - 4] == '.' && AllDigits(s[|s| - 3..]) then
      match ParseClock(s[..|s| - 4])
      case Some(secs) => Some(secs * MicrosPerSecond + DigitsValue(s[|s| - 3..]) * 1000)
      case None => None
    else
      match ParseClock(s)
      case Some(secs) => Some(secs * MicrosPerSecond)
      case None => None
  }

  lemma HoursMinutesSeconds(secs: nat)
    ensures secs / 3600 * 3600 + secs / 60 % 60 * 60 + secs % 60 == secs
  {
    var mins := secs / 60;
    assert secs == mins * 60 + secs % 60;
    assert mins == mins / 60 * 60 + mins % 60;
    assert mins / 60 == secs / 3600;
  }

  lemma ClockRoundTrip(secs: nat)
    ensures ParseClock(ClockText(secs)) == Some(secs)
  {
    var h, m, sc := secs / 3600, secs / 60 % 60, secs % 60;
    var dh, dm, ds := Decimal(h), Padded(m, 2), Padded(sc, 2);
    var c := ClockText(secs);
    assert c == dh + [':'] + dm + [':'] + ds;
    assert c[..|c| - 6] == dh;
    assert c[|c| - 5..|c| - 3] == dm;
    assert c[|c| - 2..] == ds;
    DecimalValue(h);
    PaddedValue(m, 2);
    PaddedValue(sc, 2);
    HoursMinutesSeconds(secs);
  }

  lemma MillisSplit(us: nat, secs: nat, ms: nat)
    requires secs == us / MicrosPerSecond && ms == us % MicrosPerSecond / 1000
    ensures ms < 1000 && us % 1000 <= us
    ensures us - us % 1000 == secs * MicrosPerSecond + ms * 1000
    ensures us % MicrosPerSecond == 0 ==> us - us % 1000 == secs * MicrosPerSecond
  {
    var r := us % MicrosPerSecond;
    assert us == secs * MicrosPerSecond + r;
    assert r == ms * 1000 + r % 1000;
    assert secs * MicrosPerSecond == (secs * 1000) * 1000;
    assert us == (secs * 1000 + ms) * 1000 + r % 1000;
  }

  /** Reading back a whole-second clock `t`. */
  lemma WholeSecondsRoundTrip(t: string, secs: nat, total: nat)
    requires t == ClockText(secs) && total == secs * MicrosPerSecond
    ensures ParseTime(t) == Some(total)
  {
    var dm := Padded(secs / 60 % 60, 2);
    assert t == Decimal(secs / 3600) + [':'] + dm + [':'] + Padded(secs % 60, 2);
    assert t[|t| - 4] == dm[1];
    ClockRoundTrip(secs);
  }

  /** The pieces of `c.fff` as the parser cuts them. */
  lemma FractionPieces(t: string, c: string, f: string)
    requires |f| == 3 && t == c + "." + f
    ensures |t| >= 4 && t[|t| - 4] == '.' && t[..|t| - 4] == c && t[|t| - 3..] == f
  {
  }

  /** Reading back a clock `t` with three fraction digits. */
  lemma FractionRoundTrip(t: string, secs: nat, ms: nat, total: nat)
    requires ms < 1000 && t == ClockText(secs) + "." + Padded(ms, 3)
    requires total == secs * MicrosPerSecond + ms * 1000
    ensures ParseTime(t) == Some(total)
  {
    FractionPieces(t, ClockText(secs), Padded(ms, 3));
    assert Pow10(3) == 1000;
    PaddedValue(ms, 3);
    ClockRoundTrip(secs);
  }

  /** Under one day the formatted time is the clock, then the milliseconds
      when there is a fraction. */
  lemma FormattedUnderDay(us: nat)
    requires us < MicrosPerDay
    ensures us % MicrosPerSecond == 0 ==> FormatTime(Some(us)) == ClockText(us / MicrosPerSecond)
    ensures us % MicrosPerSecond != 0 ==>
      FormatTime(Some(us)) == ClockText(us / MicrosPerSecond) + "." + Padded(us % MicrosPerSecond / 1000, 3)
  {
    FormatTimeShape(us);
    WholeTextUnderDay(us);
  }

  /** The pieces of a formatted duration under one day: whole seconds,
      milliseconds, and whether there is a fraction at all. */
  lemma SplitUnderDay(us: nat) returns (whole: bool, secs: nat, ms: nat)
    requires us < MicrosPerDay
    ensures ms < 1000 && us % 1000 <= us
    ensures whole <==> us % MicrosPerSecond == 0
    ensures whole ==> FormatTime(Some(us)) == ClockText(secs) && us - us % 1000 == secs * MicrosPerSecond
    ensures !whole ==> FormatTime(Some(us)) == ClockText(secs) + "." + Padded(ms, 3)
                       && us - us % 1000 == secs * MicrosPerSecond + ms * 1000
  {
    whole, secs, ms := us % MicrosPerSecond == 0, us / MicrosPerSecond, us % MicrosPerSecond / 1000;
    MillisSplit(us, secs, ms);
    FormattedUnderDay(us);
  }

  /** Formatting a duration under one day and reading it back gives the
      duration truncated to whole milliseconds. */
  lemma FormatTimeRoundTrip(us: nat)
    requires us < MicrosPerDay
    ensures ParseTime(FormatTime(Some(us))) == Some(us - us % 1000)
  {
    var whole, secs, ms := SplitUnderDay(us);
    var t, total := FormatTime(Some(us)), us - us % 1000;
    if whole {
      WholeSecondsRoundTrip(t, secs, total);
    } else {
      FractionRoundTrip(t, secs, ms, total);
    }
    assert ParseTime(t) == Some(total);
  }
}
