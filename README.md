# Bearstocks backend: price simulation core in Dafny

The backend keeps a table of six fictional tickers, each with a display name
and a price. Once per tick it does three things:

- It summarises a user's contribution calendar. The summary is the calendar
  total, today's contribution count and the current streak of active days.
- It moves the `REP` ticker by an activity-driven rule fed with that summary.
- It moves every other ticker by a rounded random walk.

This project models that core of `main.py` in three modules:

- `Pricing` (`pricing.dfy`): the two price rules, `calculate_reketino_price`
  and the random-walk step. It also holds the rounding to two decimals.
  Prices are exact reals. Every random draw is an explicit `noise` parameter.
- `Contributions` (`contributions.dfy`): the data-processing part of
  `fetch_github_data`. It works on an already parsed calendar, a list of
  weeks of `(date, contributionCount)` days. It is written as imperative
  methods that mirror the source's loops:
  - flattening the weeks;
  - the scan for today's count, which stops at the first match;
  - the sort by date;
  - the backward streak count, which stops at the first inactive day.
  Each method is proved against a specification function, and the
  properties of those functions are lemmas.
- `Market` (`market.dfy`): the `stocks` dictionary. `StockTable` is a class
  with a `map` field that `Tick` updates in place. `TickTable` is the
  function it is proved against. `StreamStep` is one pass of the `stream`
  loop without its network and socket parts.

Dates are whole-day ordinals. The source compares ISO `YYYY-MM-DD` strings,
and those order the same way as day numbers. "Today" is a parameter.

## Behaviour worth knowing

- Only `REP` is floored at 0.1. The other tickers' walk has no floor, so
  their prices can fall below 0.1 and below zero (`WalkHasNoFloor`,
  `TickWalkIsNotFloored`).
- `calculate_reketino_price` clamps to 0.1 before it rounds, not after.
- Its fourth weight multiplies the calendar total, which `stream` passes in
  as `weekly_diff`.
- An unconfigured or failing contribution fetch is not turned into an
  all-zero summary. The code has no such handling, so the model claims none.

## Model

| member | source | states |
|---|---|---|
| `Pricing.Round2` | main.py:41 | the result is a whole number of hundredths within (x - 0.005, x + 0.005], which fixes it as rounding half up to two decimals |
| `Pricing.Round2Monotone` | main.py:41 | rounding preserves the order of two prices |
| `Pricing.Round2KeepsCents` | main.py:41 | a whole number of hundredths is unchanged by rounding |
| `Pricing.Round2KeepsFloor` | main.py:38-41 | rounding a value at or above 0.1 gives a value at or above 0.1 |
| `Pricing.ClampToFloor` | main.py:38-39 | the clamp gives exactly 0.1 for a value below 0.1 and leaves values at or above 0.1 unchanged |
| `Pricing.ReketinoPrice` | main.py:28-41 | `calculate_reketino_price` never returns less than 0.1; its result is within half a cent of the old price plus the activity change, clamped to 0.1 |
| `Pricing.ReketinoWithoutActivity` | main.py:29-41 | with streak, today's count and weekly term all 0, the result is `round(max(old + noise, 0.1))`; for a draw in [-0.5, 0.5] it lies between the rounded clamped values at old - 0.5 and old + 0.5, and is at least 0.1 |
| `Pricing.ActivityChangeMonotone` | main.py:31-34 | for a fixed draw the pre-clamp change never decreases as streak, today's count or the weekly term grow |
| `Pricing.ReketinoMonotone` | main.py:28-41 | for a fixed old price and draw, more activity never gives a lower price |
| `Pricing.WalkPrice` | main.py:119 | the random-walk price is within half a cent of old price plus draw |
| `Pricing.WalkWithinOneUnit` | main.py:119 | with a draw in [-1, 1] the walk moves the price by at most 1.005 either way |
| `Pricing.WalkHasNoFloor` | main.py:119 | the walk has no floor: 0.50 with draw -1 becomes -0.50, below 0.1 |
| `Contributions.FlattenLength` | main.py:77-80 | the flattened day list is as long as all weeks together |
| `Contributions.FlattenAt` | main.py:77-80 | day j of week i sits at the position right after all days of the earlier weeks, so the weeks keep their order and each day occurs at its own position |
| `Contributions.FlattenMembers` | main.py:77-80 | a day is in the flattened list exactly when it is in some week |
| `Contributions.FlattenWeeks` | main.py:77-80 | the nested append loop produces the flattened list, with the total number of days |
| `Contributions.CommitsTodayIsFirstMatch` | main.py:84-88 | today's count is the count of the first day, in flattened order, whose date is today |
| `Contributions.CommitsTodayAbsent` | main.py:84-88 | today's count is 0 when no day has today's date |
| `Contributions.FindCommitsToday` | main.py:84-88 | the scan with `break` returns the first-match count, and 0 when no day matches |
| `Contributions.InsertDay` | main.py:90 | one insertion pass extends the date-ordered prefix by one day and keeps the same days |
| `Contributions.SortByDate` | main.py:90 | sorting yields a date-ordered permutation of the days |
| `Contributions.SortedByDateIsUnique` | main.py:90 | with distinct dates, two date-ordered permutations of the same days are equal |
| `Contributions.TrailingActiveDaysIsLongestActiveSuffix` | main.py:92-97 | the streak is at most the number of days; every day in the trailing run has a positive count; the day just before the run, if any, does not |
| `Contributions.StreakExtremes` | main.py:92-97 | the streak equals the number of days exactly when every count is positive; it is 0 for no days or when the latest day has count 0 |
| `Contributions.CountStreak` | main.py:92-97 | the backward loop with `break` returns the length of the longest all-positive suffix |
| `Contributions.StreakDependsOnlyOnCalendar` | main.py:90-97 | with distinct dates, the streak is the same whichever date-ordered arrangement the sort produced |
| `Contributions.Summarize` | main.py:77-101 | the summary carries the given total, the first-match count for today in calendar order, and the streak of some date-sorted permutation of all days; the streak never exceeds the number of days |
| `Contributions.StreakExample` | main.py:84-97 | counts 2, 0, 5, 3 on four consecutive days give streak 2 and a count of 3 for the last day |
| `Market.InitialStocks` | main.py:19-26 | the starting table contains `REP`, priced at or above 0.1 |
| `Market.NextPrice` | main.py:110-119 | `REP` gets the activity rule and is at least 0.1; every other ticker's new price is within half a cent of old price plus draw |
| `Market.TickKeepsTickersAndNames` | main.py:110-119 | a tick keeps the set of tickers and every name |
| `Market.TickActivityTicker` | main.py:111-117 | after a tick `REP` is the activity rule applied to its old price with streak, today's count and the calendar total, so it is at least 0.1 |
| `Market.TickWalkWithinOneUnit` | main.py:118-119 | after a tick any other ticker with a draw in [-1, 1] is within 1.005 of its old price |
| `Market.TickWalkIsNotFloored` | main.py:118-119 | a tick of the initial table with `BRR` at 0.50 and a draw of -1 takes `BRR` to -0.50, below 0.1 |
| `Market.StockTable.constructor` | main.py:19-26 | the table starts as the six initial tickers |
| `Market.StockTable.Tick` | main.py:110-119 | the in-place loop leaves the table equal to the one-tick table of the old table; it keeps tickers, names and the `REP` floor |
| `Market.StreamStep` | main.py:108-119 | one pass of `stream` summarises the calendar (total, first-match count for today, streak of a date-sorted permutation of all days), then ticks the table with that summary, keeping the table valid |

## Left out

- The GraphQL request, reading `GITHUB_TOKEN` and the JSON key lookups (main.py:45-76) are network I/O through `httpx`. The model starts from the parsed total and weeks.
- The WebSocket endpoint, `send_json`, `asyncio.sleep`, the endless `while True` and the FastAPI/CORS setup (main.py:1-17, 103-108, 121-122) are transport and scheduling. `StreamStep` models one pass of the loop.
- `local_ws_test.py` only prints what a WebSocket client receives.
- `random.uniform` is replaced by `noise` parameters. The bounds of each draw appear as preconditions of the lemmas that need them.
- `Pricing.Round2`: rounds half up on exact reals, whereas Python's `round` rounds half to even on binary doubles. The properties proved use only that rounding preserves order, keeps whole hundredths and moves a value by at most half a cent. Floating-point error in the weighted sums is not modelled.
- Market.StockTable.Tick: the dictionary is visited in an unspecified order, not in insertion order. Each update reads only its own entry, so the order does not change the result.
- Contributions.SortByDate: the model proves the result is ordered by date and holds the same days. It does not prove that the sort is stable, as Python's is. `SortedByDateIsUnique` shows this matters only when two days share a date, which a calendar does not do.
- Counts are unbounded integers and prices are unbounded reals. Python's integers are unbounded too. Float overflow is not modelled.
