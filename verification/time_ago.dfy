/**
 * The two relative-time labels of the dashboard: the one under each task card
 * (app/dashboard/all-tasks/task-card.tsx), which switches to a calendar date
 * after a week, and the one in the recent-activity list
 * (app/dashboard/page.tsx), which keeps counting days. Both read the elapsed
 * time `now - at` in milliseconds and floor it to whole minutes, hours and
 * days; Dafny's `/` by a positive divisor is exactly that floor, negative
 * elapsed times included.
 */
module TimeAgo {
  import opened Basics
  import Decimal
  import Schema

  const MinuteMs := 60000
  const HourMs := 3600000
  const DayMs := 86400000
  const WeekMs := 7 * DayMs

  /** What a label says: a bucket and its count, or a date left to the locale. */
  datatype Ago = JustNow | MinutesAgo(n: nat) | HoursAgo(n: nat) | DaysAgo(n: nat) | OnDate(date: Schema.Timestamp)

  /**
   * The card's `formatTimeAgo`: under a minute (or in the future) "just now",
   * then whole minutes below an hour, whole hours below a day, whole days
   * below a week, and the date itself from a week on.
   */
  function CardTimeAgo(at: Schema.Timestamp, now: Schema.Timestamp): (r: Ago)
    ensures r == JustNow <==> now - at < MinuteMs
    ensures r.MinutesAgo? <==> MinuteMs <= now - at < HourMs
    ensures r.HoursAgo? <==> HourMs <= now - at < DayMs
    ensures r.DaysAgo? <==> DayMs <= now - at < WeekMs
    ensures r.OnDate? <==> WeekMs <= now - at
    ensures r.MinutesAgo? ==> r.n * MinuteMs <= now - at < (r.n + 1) * MinuteMs
    ensures r.HoursAgo? ==> r.n * HourMs <= now - at < (r.n + 1) * HourMs
    ensures r.DaysAgo? ==> r.n * DayMs <= now - at < (r.n + 1) * DayMs && r.n < 7
    ensures r.OnDate? ==> r.date == at
  {
    var diff := now - at;
    var mins, hours, days := diff / MinuteMs, diff / HourMs, diff / DayMs;
    if mins < 1 then JustNow
    else if mins < 60 then MinutesAgo(mins)
    else if hours < 24 then HoursAgo(hours)
    else if days < 7 then DaysAgo(days)
    else OnDate(at)
  }

  /**
   * The activity list's `formatTimeAgo`: the same buckets without the week
   * cutoff, so every elapsed time of a day or more counts whole days.
   */
  function ActivityTimeAgo(at: Schema.Timestamp, now: Schema.Timestamp): (r: Ago)
    ensures !r.OnDate?
    ensures r == JustNow <==> now - at < MinuteMs
    ensures r.MinutesAgo? <==> MinuteMs <= now - at < HourMs
    ensures r.HoursAgo? <==> HourMs <= now - at < DayMs
    ensures r.DaysAgo? <==> DayMs <= now - at
    ensures r.MinutesAgo? ==> r.n * MinuteMs <= now - at < (r.n + 1) * MinuteMs
    ensures r.HoursAgo? ==> r.n * HourMs <= now - at < (r.n + 1) * HourMs
    ensures r.DaysAgo? ==> r.n * DayMs <= now - at < (r.n + 1) * DayMs
  {
    var diff := now - at;
    var mins, hours, days := diff / MinuteMs, diff / HourMs, diff / DayMs;
    if mins < 1 then JustNow
    else if mins < 60 then MinutesAgo(mins)
    else if hours < 24 then HoursAgo(hours)
    else DaysAgo(days)
  }

  /** The two labels agree below a week; from a week on the card shows the date and the list keeps counting days. */
  lemma CardAgreesWithActivity(at: Schema.Timestamp, now: Schema.Timestamp)
    ensures now - at < WeekMs ==> CardTimeAgo(at, now) == ActivityTimeAgo(at, now)
    ensures WeekMs <= now - at ==>
      CardTimeAgo(at, now) == OnDate(at) && ActivityTimeAgo(at, now) == DaysAgo((now - at) / DayMs)
  {
  }

  /** A later reading of the clock never moves a label to an earlier bucket or a smaller count. */
  lemma ActivityTimeAgoMonotone(at: Schema.Timestamp, now1: Schema.Timestamp, now2: Schema.Timestamp)
    requires now1 <= now2
    ensures AgoLe(ActivityTimeAgo(at, now1), ActivityTimeAgo(at, now2))
  {
  }

  /** The position of a label's bucket, from "just now" to a date. */
  function Bucket(a: Ago): nat {
    match a
    case JustNow => 0
    case MinutesAgo(_) => 1
    case HoursAgo(_) => 2
    case DaysAgo(_) => 3
    case OnDate(_) => 4
  }

  /** The count a label shows; "just now" and a date show none. */
  function Amount(a: Ago): nat {
    match a
    case MinutesAgo(n) => n
    case HoursAgo(n) => n
    case DaysAgo(n) => n
    case _ => 0
  }

  /**
   * Labels ordered by bucket, then by count. Dates are not told apart, which
   * does not matter for the activity list: it never shows one.
   */
  predicate AgoLe(a: Ago, b: Ago) {
    Bucket(a) < Bucket(b) || (Bucket(a) == Bucket(b) && Amount(a) <= Amount(b))
  }

  // ---------------------------------------------------------------------------
  // The rendered text
  // ---------------------------------------------------------------------------

  /**
   * The label's text: "just now", "Nm ago", "Nh ago" or "Nd ago". A date is
   * rendered by `toLocaleDateString`, which is locale-dependent and not part
   * of this model.
   */
  function Label(a: Ago): (s: Option<string>)
    ensures s.None? <==> a.OnDate?
  {
    match a
    case JustNow => Some("just now")
    case MinutesAgo(n) => Some(Decimal.NatToString(n) + "m ago")
    case HoursAgo(n) => Some(Decimal.NatToString(n) + "h ago")
    case DaysAgo(n) => Some(Decimal.NatToString(n) + "d ago")
    case OnDate(_) => None
  }

  /** Different labels read differently: the text tells bucket and count apart. */
  lemma LabelInjective(a: Ago, b: Ago)
    requires !a.OnDate? && !b.OnDate?
    requires Label(a) == Label(b)
    ensures a == b
  {
    var s := Label(a).value;
    LabelLastChar(a);
    LabelLastChar(b);
    if !a.JustNow? && !b.JustNow? {
      var na, nb := Decimal.NatToString(a.n), Decimal.NatToString(b.n);
      assert s == na + [UnitChar(a)] + " ago" && s == nb + [UnitChar(b)] + " ago";
      assert |na| == |nb|;
      assert s[|na|] == UnitChar(a) && s[|nb|] == UnitChar(b);
      assert na == s[..|na|] && nb == s[..|nb|];
      Decimal.NatToStringRoundTrip(a.n);
      Decimal.NatToStringRoundTrip(b.n);
    }
  }

  /** "just now" is the only label not ending in "ago". */
  lemma LabelLastChar(a: Ago)
    requires !a.OnDate?
    ensures var s := Label(a).value; |s| > 0 && s[|s| - 1] == if a.JustNow? then 'w' else 'o'
  {
  }

  /** The letter after the count. */
  function UnitChar(a: Ago): char
    requires a.MinutesAgo? || a.HoursAgo? || a.DaysAgo?
  {
    if a.MinutesAgo? then 'm' else if a.HoursAgo? then 'h' else 'd'
  }
}
