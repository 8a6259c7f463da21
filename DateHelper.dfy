/**
 * The frontend date helpers `formatDate`, `formatDateTime` and `getRelativeTime`.
 * A date argument is falsy, unparsable (its time value is NaN) or an instant in
 * milliseconds; the clock reading and the locale text `toLocaleDateString` would
 * produce are parameters.
 */
module DateHelper {
  import opened JsText

  datatype DateArg = Falsy | Unparsable | Instant(ms: int)

  const NotAvailable := "N/A"
  const InvalidDate := "Invalid Date"

  const SecondMs := 1000
  const MinuteMs := 60 * SecondMs
  const HourMs := 60 * MinuteMs
  const DayMs := 24 * HourMs

  /** `formatDate`: the guards, then the locale rendering `rendered` of a valid date. */
  function FormatDate(date: DateArg, rendered: string): (r: string)
    ensures date == Falsy ==> r == NotAvailable
    ensures date == Unparsable ==> r == InvalidDate
    ensures date.Instant? ==> r == rendered
  {
    match date
    case Falsy => NotAvailable
    case Unparsable => InvalidDate
    case Instant(_) => rendered
  }

  /** `formatDateTime`: the same guards around a rendering with the time of day. */
  function FormatDateTime(date: DateArg, rendered: string): (r: string)
    ensures date == Falsy ==> r == NotAvailable
    ensures date == Unparsable ==> r == InvalidDate
    ensures date.Instant? ==> r == rendered
  {
    match date
    case Falsy => NotAvailable
    case Unparsable => InvalidDate
    case Instant(_) => rendered
  }

  /** Which branch of `getRelativeTime` a difference falls in, with its count. */
  datatype Bucket = JustNow | Minutes(n: nat) | Hours(n: nat) | Days(n: nat) | Absolute

  /**
   * The chain of `Math.floor` divisions of the source. Every divisor is positive, so
   * Dafny's Euclidean `/` is the floor, also for a date in the future.
   */
  function BucketOf(diffMs: int): Bucket {
    var seconds := diffMs / 1000;
    var minutes := seconds / 60;
    var hours := minutes / 60;
    var days := hours / 24;
    if seconds < 60 then JustNow
    else if minutes < 60 then Minutes(minutes)
    else if hours < 24 then Hours(hours)
    else if days < 7 then Days(days)
    else Absolute
  }

  /** `${n} ${n === 1 ? unit : unit + 's'} ago`. */
  function Ago(n: nat, unit: string): string {
    NatToString(n) + " " + (if n == 1 then unit else unit + "s") + " ago"
  }

  function Render(b: Bucket, dateText: string): string {
    match b
    case JustNow => "Just now"
    case Minutes(n) => Ago(n, "minute")
    case Hours(n) => Ago(n, "hour")
    case Days(n) => Ago(n, "day")
    case Absolute => dateText
  }

  /** `getRelativeTime(date)` read at clock time `now`; `rendered` is what `formatDate(date)` renders. */
  function RelativeTime(date: DateArg, now: int, rendered: string): string {
    match date
    case Falsy => NotAvailable
    case Unparsable => InvalidDate
    case Instant(t) => Render(BucketOf(now - t), FormatDate(date, rendered))
  }

  /** All three helpers give "N/A" for a falsy date and "Invalid Date" for an unparsable one. */
  lemma Guards(now: int, rendered: string)
    ensures FormatDate(Falsy, rendered) == NotAvailable
    ensures FormatDateTime(Falsy, rendered) == NotAvailable
    ensures RelativeTime(Falsy, now, rendered) == NotAvailable
    ensures FormatDate(Unparsable, rendered) == InvalidDate
    ensures FormatDateTime(Unparsable, rendered) == InvalidDate
    ensures RelativeTime(Unparsable, now, rendered) == InvalidDate
  {
  }

  /**
   * The buckets in terms of the millisecond difference alone: under a minute
   * (future dates included) is "just now"; then 1..59 whole minutes, 1..23 whole
   * hours and 1..6 whole days, each count the floor of the difference by its unit;
   * from seven days on the date is shown absolutely.
   */
  lemma BucketRanges(diffMs: int)
    ensures BucketOf(diffMs) == JustNow <==> diffMs < MinuteMs
    ensures BucketOf(diffMs).Minutes? <==> MinuteMs <= diffMs < HourMs
    ensures BucketOf(diffMs).Hours? <==> HourMs <= diffMs < DayMs
    ensures BucketOf(diffMs).Days? <==> DayMs <= diffMs < 7 * DayMs
    ensures BucketOf(diffMs) == Absolute <==> 7 * DayMs <= diffMs
    ensures BucketOf(diffMs).Minutes? ==> BucketOf(diffMs).n == diffMs / MinuteMs && 1 <= BucketOf(diffMs).n <= 59
    ensures BucketOf(diffMs).Hours? ==> BucketOf(diffMs).n == diffMs / HourMs && 1 <= BucketOf(diffMs).n <= 23
    ensures BucketOf(diffMs).Days? ==> BucketOf(diffMs).n == diffMs / DayMs && 1 <= BucketOf(diffMs).n <= 6
  {
    var seconds := diffMs / 1000;
    var minutes := seconds / 60;
    var hours := minutes / 60;
    DivDiv(diffMs, 1000, 60);
    DivDiv(diffMs, MinuteMs, 60);
    DivDiv(diffMs, HourMs, 24);
  }

  /** Two floor divisions by positive divisors are one division by their product. */
  lemma DivDiv(a: int, b: int, c: int)
    requires b > 0 && c > 0
    ensures a / b / c == a / (b * c)
  {
    var q, r := a / b, a % b;
    var q2, r2 := q / c, q % c;
    assert a == b * (c * q2 + r2) + r;
    assert a == (b * c) * q2 + (b * r2 + r) by {
      assert b * (c * q2 + r2) == (b * c) * q2 + b * r2;
    }
    assert b * r2 <= b * (c - 1) by {
      MulMono(b, r2, c - 1);
    }
    DivUnique(a, b * c, q2, b * r2 + r);
  }

  lemma MulMono(b: int, x: int, y: int)
    requires b > 0 && x <= y
    ensures b * x <= b * y
  {
    assert b * y - b * x == b * (y - x);
  }

  /** The quotient of Euclidean division is the only `q` with a remainder in `0 .. d - 1`. */
  lemma DivUnique(a: int, d: int, q: int, r: int)
    requires d > 0 && 0 <= r < d && a == d * q + r
    ensures a / d == q
  {
    var q0, r0 := a / d, a % d;
    assert d * (q - q0) == r0 - r;
    assert d * (q0 - q) == r - r0;
    if q > q0 {
      MulMono(d, 1, q - q0);
    } else if q < q0 {
      MulMono(d, 1, q0 - q);
    }
  }

  /** Under a minute ago, or any time in the future, is "Just now". */
  lemma JustNowUnderAMinute(t: int, now: int, rendered: string)
    requires now - t < MinuteMs
    ensures RelativeTime(Instant(t), now, rendered) == "Just now"
  {
    BucketRanges(now - t);
  }

  /** Seven days or more falls through to `formatDate`. */
  lemma OldDatesAbsolute(t: int, now: int, rendered: string)
    requires now - t >= 7 * DayMs
    ensures RelativeTime(Instant(t), now, rendered) == FormatDate(Instant(t), rendered)
  {
    BucketRanges(now - t);
  }

  /** In between, the text is the floor count of whole units, followed by the unit word and "ago". */
  lemma AgoInBetween(t: int, now: int, rendered: string)
    requires MinuteMs <= now - t < 7 * DayMs
    ensures var d := now - t;
      RelativeTime(Instant(t), now, rendered)
      == if d < HourMs then Ago(d / MinuteMs, "minute")
         else if d < DayMs then Ago(d / HourMs, "hour")
         else Ago(d / DayMs, "day")
  {
    var d := now - t;
    var shown := FormatDate(Instant(t), rendered);
    assert RelativeTime(Instant(t), now, rendered) == Render(BucketOf(d), shown);
    if d < HourMs {
      MinutesText(d, shown);
    } else if d < DayMs {
      HoursText(d, shown);
    } else {
      DaysText(d, shown);
    }
  }

  lemma MinutesText(d: int, rendered: string)
    requires MinuteMs <= d < HourMs
    ensures Render(BucketOf(d), rendered) == Ago(d / MinuteMs, "minute")
  {
    BucketRanges(d);
  }

  lemma HoursText(d: int, rendered: string)
    requires HourMs <= d < DayMs
    ensures Render(BucketOf(d), rendered) == Ago(d / HourMs, "hour")
  {
    BucketRanges(d);
  }

  lemma DaysText(d: int, rendered: string)
    requires DayMs <= d < 7 * DayMs
    ensures Render(BucketOf(d), rendered) == Ago(d / DayMs, "day")
  {
    BucketRanges(d);
  }

  /** The unit word takes an "s" exactly when the count is not 1. */
  lemma AgoPlural(n: nat, unit: string)
    requires unit != "" && unit[|unit| - 1] != 's'
    ensures var s := Ago(n, unit); |s| >= 5 && (s[|s| - 5] == 's' <==> n != 1)
  {
    var s := Ago(n, unit);
    var word := if n == 1 then unit else unit + "s";
    assert s == (NatToString(n) + " " + word) + " ago";
    assert s[|s| - 5] == word[|word| - 1];
  }

  /** `parseInt` of the relative text gives back the count it shows. */
  lemma AgoReadsBack(n: nat, unit: string)
    ensures ParseInt(Ago(n, unit)) == Some(n)
  {
    var d := NatToString(n);
    var rest := " " + (if n == 1 then unit else unit + "s") + " ago";
    var u := Ago(n, unit);
    assert u == d + rest;
    DigitsValueOfDecimal(n);
    NumberBeforeSpace(d, rest);
    assert IsDigit(u[0]) by {
      assert u[0] == d[0];
    }
    ParseIntOfDigitStart(u);
  }

  /** A decimal number followed by a space reads as that number. */
  lemma NumberBeforeSpace(d: string, rest: string)
    requires d != [] && AllDigits(d) && rest != [] && rest[0] == ' '
    ensures forall i :: 0 <= i < |d| ==> DigitIn(d[i], 10).Some?
    ensures ParseMagnitude(d + rest) == Some(DigitsValue(d, 10))
  {
    var u := d + rest;
    DigitsAreRadixTen(d);
    DigitRunBeforeSpace(d, rest);
    assert u[..|d|] == d;
    assert |u| >= 2 ==> u[1] == (if |d| >= 2 then d[1] else rest[0]);
  }

  lemma {:induction false} DigitRunBeforeSpace(d: string, rest: string)
    requires AllDigits(d) && rest != [] && rest[0] == ' '
    ensures DigitRun(d + rest, 10) == |d|
    decreases |d|
  {
    if d == [] {
      assert d + rest == rest;
    } else {
      assert (d + rest)[1..] == d[1..] + rest;
      DigitRunBeforeSpace(d[1..], rest);
    }
  }
}
