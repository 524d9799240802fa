/** The check that a booking ends after it starts compares the times as text. */
module BookingTimes {
  import opened Decimal

  function Digit(c: char): nat
    requires IsDigit(c)
  {
    c as int - '0' as int
  }

  // ---- The check ----

  /** Five characters with a colon get seconds appended; anything else stays as it is. */
  function WithSeconds(time: string): string {
    if ':' in time && |time| == 5 then time + ":00" else time
  }

  /** JavaScript's a < b on strings: at the first difference a has the smaller character or ends */
  ghost predicate TextBefore(a: string, b: string) {
    exists k :: DiffersFirstAt(a, b, k)
  }

  predicate DiffersFirstAt(a: string, b: string, k: int) {
    0 <= k <= |a| && k < |b| && a[..k] == b[..k] && (k < |a| ==> a[k] < b[k])
  }

  /** The booking is accepted as far as the order of its times goes. */
  ghost predicate AcceptedOrder(startTime: string, endTime: string) {
    TextBefore(WithSeconds(startTime), WithSeconds(endTime))
  }

  // ---- Times ----

  /** A time of day: one or two digits for the hour, two for the minute, and two for the second or none */
  datatype Format = Format(twoDigitHour: bool, seconds: bool)

  function HourWidth(f: Format): nat {
    if f.twoDigitHour then 2 else 1
  }

  predicate TwoDigits(t: string, i: nat) {
    i + 1 < |t| && IsDigit(t[i]) && IsDigit(t[i + 1]) && Digit(t[i]) < 6
  }

  /** t is a time in the format. The database refuses hours beyond 24; here they do no harm. */
  predicate IsTime(t: string, f: Format) {
    var w := HourWidth(f);
    && |t| == w + (if f.seconds then 6 else 3)
    && IsDigit(t[0]) && IsDigit(t[w - 1])
    && t[w] == ':' && TwoDigits(t, w + 1)
    && (f.seconds ==> t[w + 3] == ':' && TwoDigits(t, w + 4))
  }

  function Hour(t: string, f: Format): nat
    requires IsTime(t, f)
  {
    if f.twoDigitHour then 10 * Digit(t[0]) + Digit(t[1]) else Digit(t[0])
  }

  function Pair(t: string, i: nat): nat
    requires TwoDigits(t, i)
  {
    10 * Digit(t[i]) + Digit(t[i + 1])
  }

  /** The time in seconds since midnight */
  function Time(t: string, f: Format): nat
    requires IsTime(t, f)
  {
    var w := HourWidth(f);
    Hour(t, f) * 3600 + Pair(t, w + 1) * 60 + if f.seconds then Pair(t, w + 4) else 0
  }

  /** The format after the seconds have been appended */
  function Completed(f: Format): Format {
    if f.twoDigitHour then f.(seconds := true) else f
  }

  lemma AppendedSeconds(t: string, f: Format)
    requires IsTime(t, f)
    ensures IsTime(WithSeconds(t), Completed(f)) && Time(WithSeconds(t), Completed(f)) == Time(t, f)
  {
    assert t[HourWidth(f)] == ':';
  }

  // ---- Text order and time order ----

  lemma SomeDifference(a: string, b: string)
    ensures a == b || TextBefore(a, b) || TextBefore(b, a)
  {
    var k := 0;
    while k < |a| && k < |b| && a[k] == b[k]
      invariant 0 <= k <= |a| && k <= |b| && a[..k] == b[..k]
    {
      assert a[..k + 1] == a[..k] + [a[k]] && b[..k + 1] == b[..k] + [b[k]];
      k := k + 1;
    }
    if k == |a| == |b| {
      assert a == a[..k] && b == b[..k];
    } else {
      assert DiffersFirstAt(a, b, k) || DiffersFirstAt(b, a, k);
    }
  }

  /** With hours of one width, the text that comes first is the earlier time, or the same time without its seconds. */
  lemma FirstDifferenceDecides(a: string, f: Format, b: string, g: Format, k: int)
    requires IsTime(a, f) && IsTime(b, g) && f.twoDigitHour == g.twoDigitHour && DiffersFirstAt(a, b, k)
    ensures Time(a, f) < Time(b, g) || (Time(a, f) == Time(b, g) && !f.seconds && g.seconds)
  {
    var w := HourWidth(f);
    assert forall i :: 0 <= i < k ==> a[i] == a[..k][i] == b[..k][i] == b[i];
    if k < w {
      EarlierHour(a, f, b, g, k);
    } else {
      assert Hour(a, f) == Hour(b, g);
      assert k != w;
      assert k == w + 3 ==> !f.seconds && g.seconds;
    }
  }

  lemma EarlierHour(a: string, f: Format, b: string, g: Format, k: nat)
    requires IsTime(a, f) && IsTime(b, g) && f.twoDigitHour == g.twoDigitHour
    requires k < HourWidth(f) && a[k] < b[k] && (k == 1 ==> a[0] == b[0])
    ensures Time(a, f) < Time(b, g)
  {
    assert Hour(a, f) < Hour(b, g);
    TimeIsInItsHour(a, f);
    TimeIsInItsHour(b, g);
  }

  lemma SameWidthOrder(a: string, f: Format, b: string, g: Format)
    requires IsTime(a, f) && IsTime(b, g) && f.twoDigitHour == g.twoDigitHour
    ensures TextBefore(a, b) <==> Time(a, f) < Time(b, g) || (Time(a, f) == Time(b, g) && !f.seconds && g.seconds)
  {
    SomeDifference(a, b);
    if TextBefore(a, b) {
      var k :| DiffersFirstAt(a, b, k);
      FirstDifferenceDecides(a, f, b, g, k);
    } else if TextBefore(b, a) {
      var k :| DiffersFirstAt(b, a, k);
      FirstDifferenceDecides(b, g, a, f, k);
    }
  }

  /** With hours of different widths only the first digits count: behind equal ones, a digit comes before a colon. */
  lemma MixedWidthOrder(a: string, f: Format, b: string, g: Format)
    requires IsTime(a, f) && IsTime(b, g) && f.twoDigitHour != g.twoDigitHour
    ensures TextBefore(a, b) <==> Digit(a[0]) < Digit(b[0]) || (Digit(a[0]) == Digit(b[0]) && f.twoDigitHour)
  {
    if a[0] < b[0] {
      assert DiffersFirstAt(a, b, 0);
    } else if a[0] == b[0] && f.twoDigitHour {
      assert a[..1] == [a[0]] && b[..1] == [b[0]];
      assert DiffersFirstAt(a, b, 1);
    } else {
      forall k ensures !DiffersFirstAt(a, b, k) {
        assert k > 0 && k <= |a| && k < |b| ==> a[..k][0] == a[0] && b[..k][0] == b[0];
        assert k > 1 && k <= |a| && k < |b| ==> a[..k][1] == a[1] && b[..k][1] == b[1];
      }
    }
  }

  // ---- When the check is right ----

  /** The check says what it is for: the booking is accepted exactly when it starts before it ends. */
  ghost predicate RightOn(s: string, f: Format, e: string, g: Format)
    requires IsTime(s, f) && IsTime(e, g)
  {
    AcceptedOrder(s, e) <==> Time(s, f) < Time(e, g)
  }

  /** The three ways to go wrong: a time without seconds before the same time with them, both with one digit for the
      hour; a start with two digits that is not earlier but begins with no greater digit than the end's hour; a start
      with one digit that is earlier but not less than the first digit of the end. */
  predicate Misread(s: string, f: Format, e: string, g: Format)
    requires IsTime(s, f) && IsTime(e, g)
  {
    if f.twoDigitHour && g.twoDigitHour then false
    else if !f.twoDigitHour && !g.twoDigitHour then !f.seconds && g.seconds && Time(s, f) == Time(e, g)
    else if f.twoDigitHour then Digit(s[0]) <= Hour(e, g) && Time(e, g) <= Time(s, f)
    else Digit(e[0]) <= Hour(s, f) && Time(s, f) < Time(e, g)
  }

  lemma TimeIsInItsHour(t: string, f: Format)
    requires IsTime(t, f)
    ensures Hour(t, f) * 3600 <= Time(t, f) < (Hour(t, f) + 1) * 3600
  {}

  lemma AcceptedMixed(s: string, f: Format, e: string, g: Format)
    requires IsTime(s, f) && IsTime(e, g) && f.twoDigitHour != g.twoDigitHour
    ensures AcceptedOrder(s, e) <==> if f.twoDigitHour then Digit(s[0]) <= Hour(e, g) else Hour(s, f) < Digit(e[0])
  {
    AppendedSeconds(s, f);
    AppendedSeconds(e, g);
    MixedWidthOrder(WithSeconds(s), Completed(f), WithSeconds(e), Completed(g));
  }

  lemma AcceptedSameWidth(s: string, f: Format, e: string, g: Format)
    requires IsTime(s, f) && IsTime(e, g) && f.twoDigitHour == g.twoDigitHour
    ensures AcceptedOrder(s, e)
            <==> || Time(s, f) < Time(e, g)
                 || (Time(s, f) == Time(e, g) && !f.twoDigitHour && !f.seconds && g.seconds)
  {
    AppendedSeconds(s, f);
    AppendedSeconds(e, g);
    SameWidthOrder(WithSeconds(s), Completed(f), WithSeconds(e), Completed(g));
  }

  /** The check is right on exactly the times that it does not misread. */
  lemma RightUnlessMisread(s: string, f: Format, e: string, g: Format)
    requires IsTime(s, f) && IsTime(e, g)
    ensures RightOn(s, f, e, g) <==> !Misread(s, f, e, g)
  {
    if f.twoDigitHour == g.twoDigitHour {
      AcceptedSameWidth(s, f, e, g);
    } else {
      AcceptedMixed(s, f, e, g);
      TimeIsInItsHour(s, f);
      TimeIsInItsHour(e, g);
    }
  }

  /** Formats in which the check is right on all times */
  predicate AlwaysRight(f: Format, g: Format) {
    f.twoDigitHour == g.twoDigitHour && (f.twoDigitHour || f.seconds || !g.seconds)
  }

  function Write(hour: string, seconds: bool): string {
    hour + (if seconds then ":00:00" else ":00")
  }

  /** Two digits for the hour on both sides are enough, with or without seconds, and nearly all that is: the check is
      right on all times of two formats exactly when both have two digits, or both have one and not only the end has
      seconds. */
  lemma AlwaysRightIff(f: Format, g: Format)
    ensures AlwaysRight(f, g) <==> forall s, e :: IsTime(s, f) && IsTime(e, g) ==> RightOn(s, f, e, g)
  {
    if AlwaysRight(f, g) {
      forall s, e | IsTime(s, f) && IsTime(e, g) ensures RightOn(s, f, e, g) {
        RightUnlessMisread(s, f, e, g);
      }
    } else {
      var s := Write(if f.twoDigitHour then "10" else "9", f.seconds);
      var e := Write(if g.twoDigitHour then "10" else "9", g.seconds);
      WrittenIsTime(f);
      WrittenIsTime(g);
      assert Misread(s, f, e, g);
      RightUnlessMisread(s, f, e, g);
    }
  }

  lemma WrittenIsTime(f: Format)
    ensures var t := Write(if f.twoDigitHour then "10" else "9", f.seconds);
            IsTime(t, f) && Time(t, f) == (if f.twoDigitHour then 36000 else 32400)
  {}

  /** Without padding a booking from 10:00 to 9:00 is accepted, an hour before it starts. */
  lemma UnpaddedHourSlipsThrough()
    ensures var (s, e, f, g) := ("10:00", "9:00", Format(true, false), Format(false, false));
            && IsTime(s, f) && IsTime(e, g)
            && AcceptedOrder(s, e) && Time(e, g) + 3600 == Time(s, f)
  {
    RightUnlessMisread("10:00", Format(true, false), "9:00", Format(false, false));
  }
}
