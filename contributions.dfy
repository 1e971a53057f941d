/** The contribution-calendar summary computed in `fetch_github_data`
    (main.py:77-101), from an already parsed calendar: a list of weeks, each
    a list of days with their contribution counts. */
module Contributions {

  /** A calendar day as an ordinal number of days. ISO `YYYY-MM-DD` strings,
      which the source compares, order the same way as these numbers. */
  type Date = int

  datatype Day = Day(date: Date, contributionCount: int)

  /** What `fetch_github_data` returns: the calendar total, the count for
      today and the current streak. */
  datatype GithubData = GithubData(total: int, commitsToday: int, streak: nat)

  // ---------------------------------------------------------------------
  // Flattening the weeks into one list of days (main.py:77-80)

  /** The days of all weeks, week after week. */
  function Flatten(weeks: seq<seq<Day>>): seq<Day>
  {
    if weeks == [] then [] else Flatten(weeks[..|weeks| - 1]) + weeks[|weeks| - 1]
  }

  /** The number of days in all weeks together. */
  function TotalDays(weeks: seq<seq<Day>>): nat
  {
    if weeks == [] then 0 else TotalDays(weeks[..|weeks| - 1]) + |weeks[|weeks| - 1]|
  }

  lemma {:induction false} FlattenLength(weeks: seq<seq<Day>>)
    ensures |Flatten(weeks)| == TotalDays(weeks)
  {
    if weeks != [] {
      FlattenLength(weeks[..|weeks| - 1]);
    }
  }

  /** Day `j` of week `i` sits right after all days of the earlier weeks. */
  lemma {:induction false} FlattenAt(weeks: seq<seq<Day>>, i: nat, j: nat)
    requires i < |weeks| && j < |weeks[i]|
    ensures TotalDays(weeks[..i]) + j < |Flatten(weeks)|
    ensures Flatten(weeks)[TotalDays(weeks[..i]) + j] == weeks[i][j]
  {
    var n := |weeks| - 1;
    FlattenLength(weeks[..n]);
    if i < n {
      assert weeks[..n][..i] == weeks[..i];
      FlattenAt(weeks[..n], i, j);
    } else {
      assert weeks[..i] == weeks[..n];
    }
  }

  /** A day is in the flattened list exactly when it is in one of the weeks. */
  lemma {:induction false} FlattenMembers(weeks: seq<seq<Day>>, d: Day)
    ensures d in Flatten(weeks) <==> exists i :: 0 <= i < |weeks| && d in weeks[i]
  {
    if weeks != [] {
      var n := |weeks| - 1;
      FlattenMembers(weeks[..n], d);
      if d in Flatten(weeks) && d !in weeks[n] {
        var i :| 0 <= i < n && d in weeks[..n][i];
        assert d in weeks[i];
      }
      if exists i :: 0 <= i < |weeks| && d in weeks[i] {
        var i :| 0 <= i < |weeks| && d in weeks[i];
        if i < n {
          assert d in weeks[..n][i];
        }
      }
    }
  }

  /** The nested append loop of main.py:77-80. */
  method FlattenWeeks(weeks: seq<seq<Day>>) returns (days: seq<Day>)
    ensures days == Flatten(weeks)
    ensures |days| == TotalDays(weeks)
  {
    days := [];
    for i := 0 to |weeks|
      invariant days == Flatten(weeks[..i])
    {
      for j := 0 to |weeks[i]|
        invariant days == Flatten(weeks[..i]) + weeks[i][..j]
      {
        days := days + [weeks[i][j]];
      }
      assert weeks[..i + 1][..i] == weeks[..i];
    }
    assert weeks[..|weeks|] == weeks;
    FlattenLength(weeks);
  }

  // ---------------------------------------------------------------------
  // Today's count (main.py:84-88)

  /** The count of the first day dated `today`, or 0 if no day is. */
  function CommitsToday(days: seq<Day>, today: Date): int
  {
    if days == [] then 0
    else if days[0].date == today then days[0].contributionCount
    else CommitsToday(days[1..], today)
  }

  /** The first day dated `today` decides the count ... */
  lemma {:induction false} CommitsTodayIsFirstMatch(days: seq<Day>, today: Date, i: nat)
    requires i < |days| && days[i].date == today
    requires forall j :: 0 <= j < i ==> days[j].date != today
    ensures CommitsToday(days, today) == days[i].contributionCount
  {
    if i > 0 {
      CommitsTodayIsFirstMatch(days[1..], today, i - 1);
    }
  }

  /** ... and with no such day the count is 0. */
  lemma {:induction false} CommitsTodayAbsent(days: seq<Day>, today: Date)
    requires forall j :: 0 <= j < |days| ==> days[j].date != today
    ensures CommitsToday(days, today) == 0
  {
    if days != [] {
      CommitsTodayAbsent(days[1..], today);
    }
  }

  /** The scan with `break` of main.py:84-88. */
  method FindCommitsToday(days: seq<Day>, today: Date) returns (commits: int)
    ensures commits == CommitsToday(days, today)
    ensures (forall j :: 0 <= j < |days| ==> days[j].date != today) ==> commits == 0
  {
    commits := 0;
    for k := 0 to |days|
      invariant forall j :: 0 <= j < k ==> days[j].date != today
    {
      if days[k].date == today {
        commits := days[k].contributionCount;
        CommitsTodayIsFirstMatch(days, today, k);
        return;
      }
    }
    CommitsTodayAbsent(days, today);
  }

  // ---------------------------------------------------------------------
  // Sorting by date (main.py:90)

  ghost predicate SortedByDate(s: seq<Day>)
  {
    forall i, j :: 0 <= i < j < |s| ==> s[i].date <= s[j].date
  }

  /** Exchanges the days at `j - 1` and `j`. */
  function SwapDown(s: seq<Day>, j: nat): (r: seq<Day>)
    requires 0 < j < |s|
    ensures |r| == |s| && multiset(r) == multiset(s)
    ensures r[j - 1] == s[j] && r[j] == s[j - 1]
    ensures forall k :: 0 <= k < |s| && k != j - 1 && k != j ==> r[k] == s[k]
  {
    s[j - 1 := s[j]][j := s[j - 1]]
  }

  /** One pass of the insertion sort: moves day `i` left past every later
      date, so that the first `i + 1` days are ordered. */
  method InsertDay(s: seq<Day>, i: nat) returns (r: seq<Day>)
    requires i < |s| && SortedByDate(s[..i])
    ensures |r| == |s| && multiset(r) == multiset(s)
    ensures SortedByDate(r[..i + 1])
  {
    r := s;
    var j := i;
    while j > 0 && r[j - 1].date > r[j].date
      invariant 0 <= j <= i && |r| == |s|
      invariant multiset(r) == multiset(s)
      invariant forall a, b :: 0 <= a < b <= i && b != j ==> r[a].date <= r[b].date
      invariant forall b :: j < b <= i ==> r[j].date < r[b].date
    {
      r := SwapDown(r, j);
      j := j - 1;
    }
  }

  /** `days.sort(key=date)`, as an insertion sort. The result is ordered by
      date and holds the same days. */
  method SortByDate(days: seq<Day>) returns (sorted: seq<Day>)
    ensures SortedByDate(sorted)
    ensures multiset(sorted) == multiset(days)
  {
    sorted := days;
    for i := 0 to |sorted|
      invariant |sorted| == |days|
      invariant multiset(sorted) == multiset(days)
      invariant SortedByDate(sorted[..i])
    {
      sorted := InsertDay(sorted, i);
    }
    assert sorted[..|sorted|] == sorted;
  }

  /** No two days share a date, as in a contribution calendar. */
  ghost predicate DistinctDates(s: seq<Day>)
  {
    forall i, j :: 0 <= i < j < |s| ==> s[i].date != s[j].date
  }

  lemma MultisetWithoutHead(s: seq<Day>)
    requires s != []
    ensures multiset(s[1..]) == multiset(s) - multiset{s[0]}
  {
    assert s == [s[0]] + s[1..];
    assert multiset(s) == multiset{s[0]} + multiset(s[1..]);
  }

  /** Two date-ordered arrangements of the same distinct-dated days start
      with the same day. */
  lemma SameFirstDay(s: seq<Day>, t: seq<Day>)
    requires s != [] && t != []
    requires SortedByDate(s) && SortedByDate(t) && DistinctDates(s)
    requires multiset(s) == multiset(t)
    ensures s[0] == t[0]
  {
    assert s[0] in multiset(t) && t[0] in multiset(s);
    var j :| 0 <= j < |t| && t[j] == s[0];
    var i :| 0 <= i < |s| && s[i] == t[0];
    assert t[0].date <= t[j].date;
    assert s[0].date <= s[i].date;
    assert i == 0;
  }

  /** When dates are distinct, there is only one way to order the days by
      date; so whichever sort is used, its result is the same. */
  lemma {:induction false} SortedByDateIsUnique(s: seq<Day>, t: seq<Day>)
    requires SortedByDate(s) && SortedByDate(t) && DistinctDates(s)
    requires multiset(s) == multiset(t)
    ensures s == t
  {
    assert |s| == |multiset(s)| == |multiset(t)| == |t|;
    if s != [] {
      SameFirstDay(s, t);
      MultisetWithoutHead(s);
      MultisetWithoutHead(t);
      var s', t' := s[1..], t[1..];
      assert SortedByDate(s') && SortedByDate(t') && DistinctDates(s') by {
        assert forall k :: 0 <= k < |s'| ==> s'[k] == s[k + 1];
        assert forall k :: 0 <= k < |t'| ==> t'[k] == t[k + 1];
      }
      SortedByDateIsUnique(s', t');
      assert s == [s[0]] + s' && t == [t[0]] + t';
    }
  }

  // ---------------------------------------------------------------------
  // The streak (main.py:92-97)

  /** The number of trailing days with a positive count. */
  function TrailingActiveDays(days: seq<Day>): nat
  {
    if days == [] || days[|days| - 1].contributionCount <= 0 then 0
    else 1 + TrailingActiveDays(days[..|days| - 1])
  }

  /** The trailing run is the longest suffix whose counts are all positive:
      it fits in the list, every day in it is active, and the day just
      before it (if any) is not. */
  lemma {:induction false} TrailingActiveDaysIsLongestActiveSuffix(days: seq<Day>)
    ensures TrailingActiveDays(days) <= |days|
    ensures forall k :: |days| - TrailingActiveDays(days) <= k < |days| ==> days[k].contributionCount > 0
    ensures TrailingActiveDays(days) < |days| ==>
              days[|days| - 1 - TrailingActiveDays(days)].contributionCount <= 0
  {
    if days != [] && days[|days| - 1].contributionCount > 0 {
      var prefix := days[..|days| - 1];
      TrailingActiveDaysIsLongestActiveSuffix(prefix);
      assert forall k :: 0 <= k < |prefix| ==> prefix[k] == days[k];
    }
  }

  /** The streak is the whole list exactly when every day is active, and
      0 when the list is empty or its last day is inactive. */
  lemma StreakExtremes(days: seq<Day>)
    ensures TrailingActiveDays(days) == |days| <==>
              forall k :: 0 <= k < |days| ==> days[k].contributionCount > 0
    ensures days == [] ==> TrailingActiveDays(days) == 0
    ensures days != [] && days[|days| - 1].contributionCount <= 0 ==> TrailingActiveDays(days) == 0
  {
    TrailingActiveDaysIsLongestActiveSuffix(days);
  }

  /** The backward scan with `break` of main.py:92-97. */
  method CountStreak(days: seq<Day>) returns (streak: nat)
    ensures streak == TrailingActiveDays(days)
    ensures streak <= |days|
    ensures forall k :: |days| - streak <= k < |days| ==> days[k].contributionCount > 0
    ensures streak < |days| ==> days[|days| - 1 - streak].contributionCount <= 0
  {
    TrailingActiveDaysIsLongestActiveSuffix(days);
    streak := 0;
    assert days[..|days|] == days;
    while streak < |days|
      invariant streak <= |days|
      invariant TrailingActiveDays(days) == streak + TrailingActiveDays(days[..|days| - streak])
    {
      var d := days[|days| - 1 - streak];
      if d.contributionCount > 0 {
        assert days[..|days| - streak][..|days| - streak - 1] == days[..|days| - (streak + 1)];
        streak := streak + 1;
      } else {
        break;
      }
    }
  }

  // ---------------------------------------------------------------------
  // The whole summary (main.py:77-101)

  /** The data-processing part of `fetch_github_data`: the total as given,
      today's count from the flattened days in calendar order, and the streak
      of those days once sorted by date. */
  method Summarize(total: int, weeks: seq<seq<Day>>, today: Date) returns (summary: GithubData)
    ensures summary.total == total
    ensures summary.commitsToday == CommitsToday(Flatten(weeks), today)
    ensures exists days :: SortedByDate(days) && multiset(days) == multiset(Flatten(weeks))
                           && summary.streak == TrailingActiveDays(days)
    ensures summary.streak <= TotalDays(weeks)
  {
    var days := FlattenWeeks(weeks);
    var commits := FindCommitsToday(days, today);
    ghost var unsorted := days;
    days := SortByDate(days);
    assert |days| == |unsorted| by {
      assert |multiset(days)| == |multiset(unsorted)|;
    }
    var streak := CountStreak(days);
    summary := GithubData(total, commits, streak);
  }

  /** With distinct dates, the streak does not depend on which date-ordered
      arrangement of the calendar the sort produced. */
  lemma StreakDependsOnlyOnCalendar(weeks: seq<seq<Day>>, s: seq<Day>, t: seq<Day>)
    requires DistinctDates(s)
    requires SortedByDate(s) && multiset(s) == multiset(Flatten(weeks))
    requires SortedByDate(t) && multiset(t) == multiset(Flatten(weeks))
    ensures TrailingActiveDays(s) == TrailingActiveDays(t)
  {
    SortedByDateIsUnique(s, t);
  }

  /** An example: counts 2, 0, 5, 3 on four consecutive days give a
      streak of 2, and the count for the last of them is 3. */
  lemma StreakExample(d: Date)
    ensures TrailingActiveDays([Day(d - 3, 2), Day(d - 2, 0), Day(d - 1, 5), Day(d, 3)]) == 2
    ensures CommitsToday([Day(d - 3, 2), Day(d - 2, 0), Day(d - 1, 5), Day(d, 3)], d) == 3
  {
    var days := [Day(d - 3, 2), Day(d - 2, 0), Day(d - 1, 5), Day(d, 3)];
    assert days[..3] == [Day(d - 3, 2), Day(d - 2, 0), Day(d - 1, 5)];
    assert days[..3][..2] == [Day(d - 3, 2), Day(d - 2, 0)];
    assert TrailingActiveDays(days[..3][..2]) == 0;
    assert TrailingActiveDays(days[..3]) == 1;
    CommitsTodayIsFirstMatch(days, d, 3);
  }
}
