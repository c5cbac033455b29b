/** The dashboard component (frontend/components/Dashboard.tsx): the
    duration formatter and the recent-items lists. */
module Dashboard {
  import opened Wrappers
  import opened Strings

  /** `formatDuration`: "-" for zero, "<m>m" below an hour (negative values
      included), "<h>h" for whole hours and "<h>h <r>m" otherwise. */
  function FormatDuration(minutes: int): (s: string)
    ensures minutes == 0 ==> s == "-"
    ensures minutes != 0 && minutes < 60 ==> s == IntToString(minutes) + "m"
    ensures minutes >= 60 && minutes % 60 == 0 ==> s == IntToString(minutes / 60) + "h"
    ensures minutes >= 60 && minutes % 60 != 0 ==>
      s == IntToString(minutes / 60) + "h " + IntToString(minutes % 60) + "m"
  {
    if minutes == 0 then "-"
    else if minutes < 60 then IntToString(minutes) + "m"
    else
      var hours := minutes / 60;
      var rest := minutes % 60;
      if rest > 0 then IntToString(hours) + "h " + IntToString(rest) + "m" else IntToString(hours) + "h"
  }

  /** Reads a number followed by a one-character unit. */
  function ParseUnit(s: string, unit: char): Option<int> {
    if |s| > 0 && s[|s| - 1] == unit && IsIntText(s[..|s| - 1]) then Some(ParseInt(s[..|s| - 1])) else None
  }

  /** Reads back what FormatDuration writes. */
  function ParseDuration(s: string): Option<int> {
    if s == "-" then Some(0)
    else
      var parts := Split(s, ' ');
      if |parts| == 1 then
        match ParseUnit(s, 'm')
        case Some(m) => Some(m)
        case None =>
          match ParseUnit(s, 'h')
          case Some(h) => Some(60 * h)
          case None => None
      else if |parts| == 2 then
        match (ParseUnit(parts[0], 'h'), ParseUnit(parts[1], 'm'))
        case (Some(h), Some(m)) => Some(60 * h + m)
        case _ => None
      else None
  }

  lemma IntToStringChars(i: int)
    ensures ' ' !in IntToString(i)
    ensures 'm' !in IntToString(i) && 'h' !in IntToString(i)
  {
    ParseIntToString(i);
    var s := IntToString(i);
    forall k | 0 <= k < |s|
      ensures s[k] != ' ' && s[k] != 'm' && s[k] != 'h'
    {
      if s[0] == '-' {
        if k > 0 {
          assert s[1..][k - 1] == s[k];
        }
      }
    }
  }

  lemma ParseUnitOf(i: int, unit: char)
    ensures ParseUnit(IntToString(i) + [unit], unit) == Some(i)
  {
    var t := IntToString(i) + [unit];
    assert t[..|t| - 1] == IntToString(i);
    ParseIntToString(i);
  }

  /** A count and a one-letter unit read back on their own. */
  lemma ParseSingleUnit(i: int, unit: char)
    requires unit == 'm' || unit == 'h'
    ensures Split(IntToString(i) + [unit], ' ') == [IntToString(i) + [unit]]
    ensures IntToString(i) + [unit] != "-"
    ensures ParseUnit(IntToString(i) + [unit], unit) == Some(i)
    ensures unit == 'h' ==> ParseUnit(IntToString(i) + [unit], 'm') == None
  {
    var t := IntToString(i) + [unit];
    IntToStringChars(i);
    ParseUnitOf(i, unit);
    assert ' ' !in t;
    SplitPrefix(t, "", ' ');
    assert t + "" == t;
    assert |IntToString(i)| > 0;
  }

  /** Hours and minutes separated by one space read back as both. */
  lemma ParseHoursMinutes(h: int, r: int)
    ensures var s := IntToString(h) + "h " + IntToString(r) + "m";
      s != "-" && Split(s, ' ') == [IntToString(h) + ['h'], IntToString(r) + ['m']]
  {
    var a := IntToString(h) + ['h'];
    var b := IntToString(r) + ['m'];
    IntToStringChars(h);
    IntToStringChars(r);
    assert IntToString(h) + "h " + IntToString(r) + "m" == Join([a, b], ' ');
    SplitJoin([a, b], ' ');
  }

  /** Nothing is lost in formatting: every minute count, zero and negative
      ones included, reads back as itself. */
  lemma FormatDurationRoundTrip(minutes: int)
    ensures ParseDuration(FormatDuration(minutes)) == Some(minutes)
  {
    if minutes == 0 {
    } else if minutes < 60 {
      assert FormatDuration(minutes) == IntToString(minutes) + ['m'];
      ParseSingleUnit(minutes, 'm');
    } else if minutes % 60 == 0 {
      assert FormatDuration(minutes) == IntToString(minutes / 60) + ['h'];
      ParseSingleUnit(minutes / 60, 'h');
    } else {
      var h, r := minutes / 60, minutes % 60;
      ParseHoursMinutes(h, r);
      ParseUnitOf(h, 'h');
      ParseUnitOf(r, 'm');
    }
  }

  /** Different minute counts always show differently. */
  lemma FormatDurationInjective(a: int, b: int)
    requires FormatDuration(a) == FormatDuration(b)
    ensures a == b
  {
    FormatDurationRoundTrip(a);
    FormatDurationRoundTrip(b);
  }

  // ---------------------------------------------------------------------
  // Recent items

  /** `xs.slice(0, n)`. */
  function Recent<T>(xs: seq<T>, n: nat): (r: seq<T>)
    ensures |r| == if |xs| < n then |xs| else n
    ensures forall i :: 0 <= i < |r| ==> r[i] == xs[i]
  {
    if |xs| <= n then xs else xs[..n]
  }

  const RecentLogCount := 10
  const RecentTaskCount := 5

  /** Taking the recent items again changes nothing, and the shown list is
      a prefix of every longer fetch that starts the same way. */
  lemma RecentStable<T>(xs: seq<T>, more: seq<T>, n: nat)
    ensures Recent(Recent(xs, n), n) == Recent(xs, n)
    ensures |xs| >= n ==> Recent(xs + more, n) == Recent(xs, n)
  {
    if |xs| >= n {
      assert (xs + more)[..n] == xs[..n];
    }
  }
}
