/**
  The "2 hours ago" labels of the post, announcement and matchmaking pages.

  A label is computed from the elapsed time now − created_at, given here in
  whole seconds (`None` when the stored timestamp cannot be parsed or
  compared, which the pages report as "recently"). Python's timedelta keeps
  that difference as `days` (rounded down, so negative for a time in the
  future) and `seconds` (always 0 ≤ seconds < 86400); Dafny's `/` and `%`
  by a positive constant give exactly that split.
*/
module RelativeTime {
  import opened Wrappers
  import opened Text

  const Minute: int := 60
  const Hour: int := 3600
  const Day: int := 86400

  /** timedelta.days */
  function Days(d: int): int { d / Day }

  /** timedelta.seconds */
  function Seconds(d: int): (s: int)
    ensures 0 <= s < Day
  {
    d % Day
  }

  // ----- the ladder of the post and announcement pages -----

  /**
    get_relative_time of the interactive and external pages: whole days
    become days, weeks (below 30 days) or months; less than a day becomes
    hours, and less than an hour minutes, with "just now" up to 1 minute.
  */
  function Ladder(elapsed: Option<int>): string {
    match elapsed
    case None => "recently"
    case Some(d) =>
      var days := Days(d);
      if days > 0 then
        if days < 7 then Label(days, "day")
        else if days < 30 then Label(days / 7, "week")
        else Label(days / 30, "month")
      else
        var hours := Seconds(d) / Hour;
        if hours > 0 then Label(hours, "hour")
        else
          var minutes := Seconds(d) / Minute;
          if minutes <= 1 then "just now" else Label(minutes, "minute")
  }

  /** "1 <unit> ago" for one, "<n> <unit>s ago" otherwise, as each rung of the ladder writes it. */
  function Label(n: int, unit: string): string {
    if n == 1 then "1 " + unit + " ago" else IntToString(n) + " " + unit + "s ago"
  }

  /**
    The reading of the ladder as one rule: the largest of month (30 days),
    week, day, hour and minute that fits into the elapsed time, counted in
    whole units; "just now" below two minutes.
  */
  function Ago(e: nat): string {
    if e >= 30 * Day then Label(e / (30 * Day), "month")
    else if e >= 7 * Day then Label(e / (7 * Day), "week")
    else if e >= Day then Label(e / Day, "day")
    else if e >= Hour then Label(e / Hour, "hour")
    else if e >= 2 * Minute then Label(e / Minute, "minute")
    else "just now"
  }

  /** For a timestamp in the past the ladder names the largest unit that fits, in whole units. */
  lemma LadderIsAgo(e: nat)
    ensures Ladder(Some(e)) == Ago(e)
  {
    DayCount(e);
    DaysIn(e, 30);
    DaysIn(e, 7);
  }

  /** Where the elapsed time falls against whole days. */
  lemma DayCount(e: nat)
    ensures e >= 30 * Day <==> Days(e) >= 30
    ensures e >= 7 * Day <==> Days(e) >= 7
    ensures e >= Day <==> Days(e) >= 1
    ensures e < Day ==> Days(e) == 0 && Seconds(e) == e
  {
    DivUnique(e, Day, e / Day, e % Day);
    if e < Day {
      DivUnique(e, Day, 0, e);
    }
  }

  /** Two multiples of `d` that differ differ by at least `d`. */
  lemma MulGap(d: int, x: int, y: int)
    requires d > 0 && x > y
    ensures d * x >= d * y + d
    decreases x - y
  {
    if x > y + 1 {
      MulGap(d, x - 1, y);
    }
  }

  /** Quotient and remainder are the only ones. */
  lemma DivUnique(a: int, d: int, q: int, r: int)
    requires d > 0 && a == d * q + r && 0 <= r < d
    ensures a / d == q
  {
    var q' := a / d;
    assert a == d * q' + a % d;
    if q' > q {
      MulGap(d, q', q);
    } else if q' < q {
      MulGap(d, q, q');
    }
  }

  /** Counting whole days and then whole groups of `c` days counts whole periods of `c` days. */
  lemma DaysIn(e: nat, c: int)
    requires c > 0
    ensures (e / Day) / c == e / (c * Day)
  {
    var q := e / (Day * c);
    var r := e % (Day * c);
    var r1 := r / Day;
    assert r == Day * r1 + r % Day;
    if r1 >= c {
      MulGap(Day, r1 + 1, c);
    }
    assert 0 <= r1 < c;
    assert e == Day * (c * q + r1) + r % Day;
    DivUnique(e, Day, c * q + r1, r % Day);
    DivUnique(c * q + r1, c, q, r1);
  }

  /** A timestamp up to a day in the future reads as if it were a day older. */
  lemma LadderOfFuture(d: int)
    requires -Day <= d < 0
    ensures Ladder(Some(d)) == Ladder(Some(d + Day))
  {
    DivUnique(d, Day, -1, d + Day);
    DivUnique(d + Day, Day, 0, d + Day);
  }

  /**
    So a post stamped up to 23 hours ahead of the clock reads as hours ago:
    a time `-e` seconds ahead reads as (86400 + e) / 3600 hours, and one
    minute ahead reads "23 hours ago".
  */
  lemma FutureReadsAsHours(e: int)
    requires -Day + Hour <= e < 0
    ensures Days(e) == -1 && Seconds(e) == Day + e
    ensures 1 <= (Day + e) / Hour <= 23
    ensures Ladder(Some(e)) == Label((Day + e) / Hour, "hour")
    ensures e == -Minute ==> Ladder(Some(e)) == "23 hours ago"
  {
    DivUnique(e, Day, -1, Day + e);
    assert e == Day * (e / Day) + e % Day;
    if e == -Minute {
      assert (Day + e) / Hour == 23;
      assert IntToString(23) == "23";
    }
  }

  // ----- the matchmaking page's variant -----

  /** "<n> <unit> ago", with an "s" only for a count above 1. */
  function CountLabel(n: int, unit: string): string {
    IntToString(n) + " " + unit + (if n > 1 then "s" else "") + " ago"
  }

  /** get_relative_time of the matchmaking page: days, else hours, else minutes, else "just now". */
  function Compact(elapsed: Option<int>): string {
    match elapsed
    case None => "recently"
    case Some(d) =>
      if Days(d) > 0 then CountLabel(Days(d), "day")
      else
        var hours := Seconds(d) / Hour;
        if hours > 0 then CountLabel(hours, "hour")
        else
          var minutes := Seconds(d) / Minute;
          if minutes > 0 then CountLabel(minutes, "minute") else "just now"
  }

  /** For a count of at least one the two pages write the same words. */
  lemma CountLabelIsLabel(n: int, unit: string)
    requires n >= 1
    ensures CountLabel(n, unit) == Label(n, unit)
  {
    if n == 1 {
      assert IntToString(1) == "1";
    }
  }

  /**
    For a past timestamp the matchmaking label is the largest of day, hour
    and minute that fits, counted in whole units with no weeks or months;
    it agrees with the post pages below a week, except that one minute
    reads "1 minute ago" rather than "just now".
  */
  lemma CompactIsDaysHoursMinutes(e: nat)
    ensures e >= Day ==> Compact(Some(e)) == Label(e / Day, "day")
    ensures Hour <= e < Day ==> Compact(Some(e)) == Label(e / Hour, "hour")
    ensures Minute <= e < Hour ==> Compact(Some(e)) == Label(e / Minute, "minute")
    ensures e < Minute ==> Compact(Some(e)) == "just now"
    ensures e < 7 * Day && !(Minute <= e < 2 * Minute) ==> Compact(Some(e)) == Ladder(Some(e))
    ensures Minute <= e < 2 * Minute ==> Compact(Some(e)) == "1 minute ago" && Ladder(Some(e)) == "just now"
  {
    DayCount(e);
    if e >= Day {
      CountLabelIsLabel(e / Day, "day");
    } else if e >= Hour {
      CountLabelIsLabel(e / Hour, "hour");
    } else if e >= Minute {
      CountLabelIsLabel(e / Minute, "minute");
    }
  }

  // ----- the "This Week" counters of the admin pages -----

  /** `(now - created).days <= 7`. */
  predicate WithinWeek(elapsed: int) {
    Days(elapsed) <= 7
  }

  /** A record counts as this week's exactly when it is less than eight whole days old, future records included. */
  lemma WithinWeekIff(elapsed: int)
    ensures WithinWeek(elapsed) <==> elapsed < 8 * Day
  {
    assert elapsed == Day * Days(elapsed) + Seconds(elapsed);
  }
}
