/** `formatTime` in components/PlayerContent.tsx: seconds rendered as
    minutes, a colon, and seconds padded to two digits. JavaScript numbers
    are modelled as reals (NaN and the infinities are not represented). */
module Clock {
  import opened Optional
  import opened Decimal

  /** `Math.trunc`: rounds toward zero. */
  function Trunc(x: real): (r: int)
    ensures 0.0 <= x ==> r == x.Floor
    ensures 0.0 <= x ==> 0 <= r
    ensures x < 0.0 ==> r <= 0
    ensures -1.0 < x - (r as real) < 1.0
  {
    if 0.0 <= x then x.Floor else -((-x).Floor)
  }

  /** JavaScript's `x % 60`: the remainder of a division truncated toward
      zero, so it carries the sign of the dividend. */
  function Rem60(x: real): (r: real)
    ensures 0.0 <= x ==> 0.0 <= r < 60.0
    ensures x < 0.0 ==> -60.0 < r <= 0.0
  {
    x - 60.0 * (Trunc(x / 60.0) as real)
  }

  /** `${seconds < 10 ? `0${seconds}` : seconds}`: any number of seconds
      within a minute becomes exactly its tens digit and its units digit. */
  function PadSeconds(seconds: int): (r: string)
    ensures 0 <= seconds < 60 ==> r == [Digit(seconds / 10), Digit(seconds % 10)]
  {
    if seconds < 10 then "0" + IntToString(seconds)
    else if seconds < 100 then
      SmallNatToString(seconds);
      IntToString(seconds)
    else IntToString(seconds)
  }

  /** `formatTime(time)` as written, for every real `time`. For a
      non-negative time it is the intended display of the whole seconds
      elapsed. */
  function FormatTime(time: real): (r: string)
    ensures 0.0 <= time ==> r == Clock(time.Floor)
  {
    var minutes := (time / 60.0).Floor;
    var seconds := Rem60(time).Floor;
    var display := IntToString(minutes) + ":" + PadSeconds(seconds);
    if 0.0 <= time then
      FloorDiv60(time);
      ClockOfParts(time.Floor);
      display
    else
      display
  }

  /** The intended display of n whole seconds: the minutes in decimal, a
      colon, then the tens and units of the remaining seconds. */
  function Clock(n: nat): (r: string)
    ensures |r| >= 4 && r[|r| - 3] == ':'
  {
    NatToString(n / 60) + ":" + [Digit((n % 60) / 10), Digit(n % 10)]
  }

  /** The minutes and the padded seconds of n, joined by a colon, are the
      intended display of n. */
  lemma ClockOfParts(n: nat)
    ensures IntToString(n / 60) + ":" + PadSeconds(n % 60) == Clock(n)
  {
    assert (n % 60) % 10 == n % 10;
  }

  /** Reads a display "m:ss" back into whole seconds; rejects anything else
      (no colon in the right place, a non-digit, or ss of 60 or more). */
  function ParseClock(s: string): (r: Option<nat>)
    ensures r.Some? ==> |s| >= 4 && s[|s| - 3] == ':'
  {
    if |s| < 4 || s[|s| - 3] != ':' then None
    else
      var tens := s[|s| - 2];
      var units := s[|s| - 1];
      if !('0' <= tens <= '5') || !IsDigit(units) then None
      else
        match ParseNat(s[..|s| - 3])
        case None => None
        case Some(minutes) => Some(minutes * 60 + DigitValue(tens) * 10 + DigitValue(units))
  }

  /** Every clock display reads back as the seconds it shows, so distinct
      numbers of seconds display differently. */
  lemma ClockRoundTrip(n: nat)
    ensures ParseClock(Clock(n)) == Some(n)
  {
    var r := Clock(n);
    var q := n / 60;
    var t := (n % 60) / 10;
    var u := n % 10;
    assert r[..|r| - 3] == NatToString(q);
    NatRoundTrip(q);
    assert r[|r| - 2] == Digit(t) && r[|r| - 1] == Digit(u);
    assert DigitValue(Digit(t)) == t;
    assert DigitValue(Digit(u)) == u;
    assert n == q * 60 + t * 10 + u;
  }

  /** Floor of a quotient of a non-negative real by 60 is the Euclidean
      quotient of its floor. */
  lemma FloorDiv60(time: real)
    requires 0.0 <= time
    ensures (time / 60.0).Floor == time.Floor / 60
    ensures Rem60(time).Floor == time.Floor % 60
  {
    var n := time.Floor;
    var m := (time / 60.0).Floor;
    assert (m as real) * 60.0 <= time < (m as real) * 60.0 + 60.0;
    assert (n as real) <= time < (n as real) + 1.0;
    assert m * 60 <= n;
    assert n < m * 60 + 60;
    assert m == n / 60;
    assert Rem60(time) == time - (m as real) * 60.0;
    assert ((n - m * 60) as real) <= time - (m as real) * 60.0 < ((n - m * 60) as real) + 1.0;
  }

  /** For a non-negative time, the display reads back as the whole seconds
      elapsed, and the seconds field always has exactly two digits. */
  lemma FormatTimeReadsBack(time: real)
    requires 0.0 <= time
    ensures ParseClock(FormatTime(time)) == Some(time.Floor)
    ensures var r := FormatTime(time); |r| >= 4 && r[|r| - 3] == ':'
  {
    ClockRoundTrip(time.Floor);
  }

  /** The display at the start of a track. */
  lemma FormatTimeZero()
    ensures FormatTime(0.0) == "0:00"
  {
  }

  /** 65 seconds, and 65.7 seconds, both display as one minute five. */
  lemma FormatTimeSixtyFive()
    ensures FormatTime(65.0) == "1:05"
    ensures FormatTime(65.7) == "1:05"
  {
  }

  /** Minutes are not padded and not capped: ten minutes show as "10:00". */
  lemma FormatTimeTenMinutes()
    ensures FormatTime(600.0) == "10:00"
  {
  }

  /** There is no guard for negative input: five seconds before zero shows
      as "-1:0-5". */
  lemma FormatTimeNegative()
    ensures FormatTime(-5.0) == "-1:0-5"
  {
    assert (-5.0 / 60.0).Floor == -1;
    assert Rem60(-5.0) == -5.0;
  }
}
