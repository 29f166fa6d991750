/**
 * `formatDate`, which the incident card and the beep card define alike: the age of a timestamp
 * as "Just now", minutes, hours or days, or past a week the browser's locale date. Times are
 * integer milliseconds; `toLocaleDateString` is a parameter.
 */
module RelativeTime {

  const MinuteMs := 60000
  const HourMs := 3600000
  const DayMs := 86400000
  const WeekMs := 7 * DayMs

  /** The bucket an age falls in, with its count where it has one. */
  datatype Ago = JustNow | MinutesAgo(n: nat) | HoursAgo(n: nat) | DaysAgo(n: nat) | OnDate

  /**
   * The if-chain of `formatDate` over the floored minute, hour and day counts of `diffMs`.
   * Ages below a minute, the future included, are "just now"; each later bucket covers the
   * whole-unit range below the next unit.
   */
  function Bucket(diffMs: int): (r: Ago)
    ensures r.JustNow? <==> diffMs < MinuteMs
    ensures r.MinutesAgo? <==> MinuteMs <= diffMs < HourMs
    ensures r.HoursAgo? <==> HourMs <= diffMs < DayMs
    ensures r.DaysAgo? <==> DayMs <= diffMs < WeekMs
    ensures r.OnDate? <==> WeekMs <= diffMs
    ensures r.MinutesAgo? ==> 1 <= r.n <= 59 && r.n * MinuteMs <= diffMs < (r.n + 1) * MinuteMs
    ensures r.HoursAgo? ==> 1 <= r.n <= 23 && r.n * HourMs <= diffMs < (r.n + 1) * HourMs
    ensures r.DaysAgo? ==> 1 <= r.n <= 6 && r.n * DayMs <= diffMs < (r.n + 1) * DayMs
  {
    var diffMins := diffMs / MinuteMs;
    var diffHours := diffMs / HourMs;
    var diffDays := diffMs / DayMs;
    if diffMins < 1 then JustNow
    else if diffMins < 60 then MinutesAgo(diffMins)
    else if diffHours < 24 then HoursAgo(diffHours)
    else if diffDays < 7 then DaysAgo(diffDays)
    else OnDate
  }

  /** The decimal digit `d`. */
  function Digit(d: nat): (c: char)
    requires d < 10
    ensures '0' <= c <= '9'
  {
    (48 + d) as char
  }

  /** A number as JavaScript writes a non-negative integer: decimal digits, no leading zero. */
  function Decimal(n: nat): (r: string)
    ensures |r| >= 1
    ensures forall i :: 0 <= i < |r| ==> '0' <= r[i] <= '9'
    ensures r[0] == '0' ==> n == 0
  {
    if n < 10 then [Digit(n)] else Decimal(n / 10) + [Digit(n % 10)]
  }

  /** The number a string of decimal digits denotes. */
  function DecimalValue(s: string): nat
    requires forall i :: 0 <= i < |s| ==> '0' <= s[i] <= '9'
  {
    if s == [] then 0 else DecimalValue(s[..|s| - 1]) * 10 + (s[|s| - 1] as int - 48)
  }

  /** Reading back the digits `Decimal` writes gives the number. */
  lemma {:induction false} DecimalRoundTrip(n: nat)
    ensures DecimalValue(Decimal(n)) == n
  {
    if n >= 10 {
      DecimalRoundTrip(n / 10);
      assert Decimal(n)[..|Decimal(n)| - 1] == Decimal(n / 10);
    }
  }

  /** Different numbers are written differently. */
  lemma DecimalInjective(a: nat, b: nat)
    ensures Decimal(a) == Decimal(b) ==> a == b
  {
    DecimalRoundTrip(a);
    DecimalRoundTrip(b);
  }

  /** The text shown for a bucket; `localeDate` is the date as `toLocaleDateString` writes it. */
  function Label(ago: Ago, localeDate: string): string {
    match ago
    case JustNow => "Just now"
    case MinutesAgo(n) => Decimal(n) + "m ago"
    case HoursAgo(n) => Decimal(n) + "h ago"
    case DaysAgo(n) => Decimal(n) + "d ago"
    case OnDate => localeDate
  }

  /** A relative age as the cards write it: "Just now", or a positive count followed by its unit and "ago". */
  ghost predicate RelativeText(t: string) {
    || t == "Just now"
    || exists n: nat :: 1 <= n && (t == Decimal(n) + "m ago" || t == Decimal(n) + "h ago" || t == Decimal(n) + "d ago")
  }

  /** `formatDate(date)` read at time `now`. */
  function FormatDate(date: int, now: int, toLocaleDateString: int -> string): (r: string)
    ensures now - date < WeekMs ==> RelativeText(r)
    ensures now - date < MinuteMs ==> r == "Just now"
    ensures MinuteMs <= now - date < HourMs ==> r == Decimal((now - date) / MinuteMs) + "m ago"
    ensures HourMs <= now - date < DayMs ==> r == Decimal((now - date) / HourMs) + "h ago"
    ensures DayMs <= now - date < WeekMs ==> r == Decimal((now - date) / DayMs) + "d ago"
    ensures WeekMs <= now - date ==> r == toLocaleDateString(date)
  {
    Label(Bucket(now - date), toLocaleDateString(date))
  }

  /** Two ages under a week get the same text exactly when they fall in the same bucket. */
  lemma SameLabelSameBucket(d1: int, d2: int, x: string, y: string)
    requires d1 < WeekMs && d2 < WeekMs
    ensures Label(Bucket(d1), x) == Label(Bucket(d2), y) <==> Bucket(d1) == Bucket(d2)
  {
    var a, b := Bucket(d1), Bucket(d2);
    if Label(a, x) == Label(b, y) {
      LabelDetermines(a, b, x, y);
    }
  }

  /** Two dates less than a week old read the same at `now` exactly when their ages share a bucket and count. */
  lemma FormatDateSameBucket(d1: int, d2: int, now: int, toLocaleDateString: int -> string)
    requires now - d1 < WeekMs && now - d2 < WeekMs
    ensures FormatDate(d1, now, toLocaleDateString) == FormatDate(d2, now, toLocaleDateString)
            <==> Bucket(now - d1) == Bucket(now - d2)
  {
    SameLabelSameBucket(now - d1, now - d2, toLocaleDateString(d1), toLocaleDateString(d2));
  }

  /** The text of a counted bucket starts with a digit, and "Just now" does not. */
  lemma StartsWithDigit(a: Ago, x: string)
    requires !a.OnDate?
    ensures |Label(a, x)| > 0
    ensures '0' <= Label(a, x)[0] <= '9' <==> !a.JustNow?
  {
  }

  /** The text of a bucket other than `OnDate` determines the bucket. */
  lemma LabelDetermines(a: Ago, b: Ago, x: string, y: string)
    requires !a.OnDate? && !b.OnDate?
    requires Label(a, x) == Label(b, y)
    ensures a == b
  {
    StartsWithDigit(a, x);
    StartsWithDigit(b, y);
    var s := Label(a, x);
    if !a.JustNow? && !b.JustNow? {
      var da, db := Decimal(a.n), Decimal(b.n);
      assert |da| == |db|;
      assert s[..|da|] == da && s[..|db|] == db;
      DecimalInjective(a.n, b.n);
      assert s[|da|] == Label(a, x)[|da|] == Label(b, y)[|db|];
    }
  }
}
