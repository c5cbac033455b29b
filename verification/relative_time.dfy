/** `getRelativeTime` (frontend/lib/utils.ts): how long ago a time was, in
    the coarsest unit below a week. The difference `now - then` in
    milliseconds is the input; the absolute formatter for a week or more is
    a parameter. */
module RelativeTime {
  import opened Strings

  const MillisPerMinute := 60_000
  const MillisPerHour := 3_600_000
  const MillisPerDay := 86_400_000

  datatype Bucket = JustNow | Minutes(n: int) | Hours(n: int) | Days(n: int) | Older

  /** The bucket chosen from the floored minute, hour and day counts. A
      negative difference (a time in the future) is "just now". */
  function BucketOf(diffMs: int): (b: Bucket)
    ensures b == JustNow <==> diffMs < MillisPerMinute
    ensures b.Minutes? <==> MillisPerMinute <= diffMs < MillisPerHour
    ensures b.Hours? <==> MillisPerHour <= diffMs < MillisPerDay
    ensures b.Days? <==> MillisPerDay <= diffMs < 7 * MillisPerDay
    ensures b == Older <==> diffMs >= 7 * MillisPerDay
    ensures b.Minutes? ==> 1 <= b.n < 60 && b.n * MillisPerMinute <= diffMs < (b.n + 1) * MillisPerMinute
    ensures b.Hours? ==> 1 <= b.n < 24 && b.n * MillisPerHour <= diffMs < (b.n + 1) * MillisPerHour
    ensures b.Days? ==> 1 <= b.n < 7 && b.n * MillisPerDay <= diffMs < (b.n + 1) * MillisPerDay
  {
    var minutes := diffMs / MillisPerMinute;
    var hours := diffMs / MillisPerHour;
    var days := diffMs / MillisPerDay;
    if minutes < 1 then JustNow
    else if minutes < 60 then Minutes(minutes)
    else if hours < 24 then Hours(hours)
    else if days < 7 then Days(days)
    else Older
  }

  /** "<n> <unit> ago" with the unit made plural exactly when n > 1. */
  function Ago(n: int, unit: string): string {
    IntToString(n) + " " + unit + (if n > 1 then "s" else "") + " ago"
  }

  /** The text shown; `absolute` renders the original timestamp. */
  function RelativeText(diffMs: int, absolute: string): (s: string)
    ensures diffMs < MillisPerMinute ==> s == "Just now"
    ensures diffMs >= 7 * MillisPerDay ==> s == absolute
    ensures BucketOf(diffMs).Minutes? ==> s == Ago(BucketOf(diffMs).n, "minute")
    ensures BucketOf(diffMs).Hours? ==> s == Ago(BucketOf(diffMs).n, "hour")
    ensures BucketOf(diffMs).Days? ==> s == Ago(BucketOf(diffMs).n, "day")
  {
    match BucketOf(diffMs)
    case JustNow => "Just now"
    case Minutes(n) => Ago(n, "minute")
    case Hours(n) => Ago(n, "hour")
    case Days(n) => Ago(n, "day")
    case Older => absolute
  }

  lemma AgoSuffix(head: string, plural: bool)
    requires |head| > 0 && head[|head| - 1] != 's'
    ensures var s := head + (if plural then "s" else "") + " ago";
      |s| >= 5 && (s[|s| - 5..] == "s ago" <==> plural)
  {
    var s := head + (if plural then "s" else "") + " ago";
    if !plural {
      assert s[|s| - 5] == head[|head| - 1];
    } else {
      assert s[|s| - 5..] == "s ago";
    }
  }

  /** Within the counted buckets the text ends in "s ago" exactly when the
      count is above one. */
  lemma PluralExactlyAboveOne(diffMs: int, absolute: string)
    requires MillisPerMinute <= diffMs < 7 * MillisPerDay
    ensures var s := RelativeText(diffMs, absolute);
      |s| >= 5 && (s[|s| - 5..] == "s ago" <==> BucketOf(diffMs).n > 1)
  {
    var b := BucketOf(diffMs);
    var unit := if b.Minutes? then "minute" else if b.Hours? then "hour" else "day";
    var head := IntToString(b.n) + " " + unit;
    assert RelativeText(diffMs, absolute) == head + (if b.n > 1 then "s" else "") + " ago";
    AgoSuffix(head, b.n > 1);
  }

  /** The rank of a bucket, finest first. */
  function Rank(b: Bucket): nat {
    match b
    case JustNow => 0
    case Minutes(_) => 1
    case Hours(_) => 2
    case Days(_) => 3
    case Older => 4
  }

  /** An older time never lands in a finer bucket, and within one bucket
      the count never goes down. */
  lemma BucketMonotone(d1: int, d2: int)
    requires d1 <= d2
    ensures Rank(BucketOf(d1)) <= Rank(BucketOf(d2))
    ensures BucketOf(d1).Minutes? && BucketOf(d2).Minutes? ==> BucketOf(d1).n <= BucketOf(d2).n
    ensures BucketOf(d1).Hours? && BucketOf(d2).Hours? ==> BucketOf(d1).n <= BucketOf(d2).n
    ensures BucketOf(d1).Days? && BucketOf(d2).Days? ==> BucketOf(d1).n <= BucketOf(d2).n
  {
  }

  lemma SmallNumerals()
    ensures IntToString(1) == "1" && IntToString(2) == "2"
  {
  }

  /** Exactly one minute ago reads "1 minute ago", two minutes "2 minutes
      ago", and 90 minutes "1 hour ago". */
  lemma RelativeTextExamples(absolute: string)
    ensures RelativeText(MillisPerMinute, absolute) == "1 minute ago"
    ensures RelativeText(2 * MillisPerMinute, absolute) == "2 minutes ago"
    ensures RelativeText(90 * MillisPerMinute, absolute) == "1 hour ago"
  {
    SmallNumerals();
    assert BucketOf(MillisPerMinute) == Minutes(1);
    assert BucketOf(2 * MillisPerMinute) == Minutes(2);
    assert BucketOf(90 * MillisPerMinute) == Hours(1);
  }
}
