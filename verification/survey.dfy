/** Clock times of the Swedish travel survey: the HHMM numbers read by
    `travel_survey_str_timestamp_to_datetime` in lib/helpers.py. */
module Survey {
  import opened Common

  /** An hour and minute of the day. */
  datatype TimeOfDay = TimeOfDay(hour: int, minute: int)

  predicate ValidTime(t: TimeOfDay)
  {
    0 <= t.hour < 24 && 0 <= t.minute < 60
  }

  /** Python's `int` on a float: truncation toward zero. */
  function Truncate(x: real): (n: int)
    ensures x >= 0.0 ==> n as real <= x < n as real + 1.0
    ensures x < 0.0 ==> n as real - 1.0 < x <= n as real
  {
    if x >= 0.0 then x.Floor else -((-x).Floor)
  }

  /** The survey value as an HHMM clock time. The source slices the
      decimal text of the truncated number: more than two characters
      split into all-but-the-last-two (the hour) and the last two (the
      minute), otherwise hour 0 and the whole text as minute. For a
      non-negative number that is its quotient and remainder by 100. A
      negative number gives a negative hour or minute, or text "-" that is
      no number, and either way the datetime replacement fails, as it does
      for an hour past 23 or a minute past 59. */
  function ParseHhmm(x: real): (r: Result<TimeOfDay>)
    ensures r.Ok? ==> ValidTime(r.value)
    ensures r.Ok? <==> 0 <= Truncate(x) && Truncate(x) / 100 < 24 && Truncate(x) % 100 < 60
  {
    var n := Truncate(x);
    if n < 0 then Err("negative clock value")
    else
      var t := if n >= 100 then TimeOfDay(n / 100, n % 100) else TimeOfDay(0, n);
      if ValidTime(t) then Ok(t) else Err("hour or minute out of range")
  }

  /** The HHMM number of a clock time. */
  function Hhmm(t: TimeOfDay): int
  {
    t.hour * 100 + t.minute
  }

  /** Reading a clock time's HHMM number gives the clock time back. */
  lemma {:induction false} ParseHhmmRoundTrip(t: TimeOfDay)
    requires ValidTime(t)
    ensures ParseHhmm(Hhmm(t) as real) == Ok(t)
  {
    var n := Hhmm(t);
    assert Truncate(n as real) == n;
    assert n / 100 == t.hour && n % 100 == t.minute by {
      DivModHundred(t.hour, t.minute);
    }
  }

  /** A parsed clock time is the HHMM number it was read from. */
  lemma {:induction false} ParseHhmmInverse(x: real)
    requires ParseHhmm(x).Ok?
    ensures Hhmm(ParseHhmm(x).value) == Truncate(x)
  {
  }

  lemma {:induction false} DivModHundred(h: int, m: int)
    requires 0 <= h && 0 <= m < 100
    ensures (h * 100 + m) / 100 == h && (h * 100 + m) % 100 == m
  {
  }
}
