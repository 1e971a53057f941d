/** The price table `stocks` (main.py:19-26) and the per-tick update that the
    `stream` loop applies to it in place (main.py:110-119). */
module Market {
  import opened Pricing
  import opened Contributions

  datatype Stock = Stock(name: string, price: real)

  /** The one ticker whose price follows contribution activity. */
  const ActivityTicker: string := "REP"

  /** The table the server starts with. */
  function InitialStocks(): (m: map<string, Stock>)
    ensures ActivityTicker in m && m[ActivityTicker].price >= Floor
  {
    map[
      "BRR" := Stock("BearCoin", 28.0),
      "REKE" := Stock("Reketherium", 42.0),
      "BGI" := Stock("Bear Group Inc.", 230.0),
      "BEM" := Stock("Bearerium", 550.0),
      "REG" := Stock("Reketino Group", 333.0),
      "REP" := Stock("Reketino Portfolio", 786.0)
    ]
  }

  /** The new price of one ticker: `REP` follows the activity rule, fed the
      streak, today's count and the calendar total; every other ticker takes
      a rounded random-walk step. */
  function NextPrice(ticker: string, price: real, github: GithubData, noise: real): (r: real)
    ensures ticker == ActivityTicker ==> r >= Floor
    ensures ticker != ActivityTicker ==> price + noise - 0.005 < r <= price + noise + 0.005
  {
    if ticker == ActivityTicker then
      ReketinoPrice(price, github.streak, github.commitsToday, github.total, noise)
    else
      WalkPrice(price, noise)
  }

  /** The table after one tick, each ticker drawing its own `noise[t]`. */
  function TickTable(stocks: map<string, Stock>, github: GithubData, noise: map<string, real>): (r: map<string, Stock>)
    requires stocks.Keys <= noise.Keys
  {
    map t | t in stocks :: Stock(stocks[t].name, NextPrice(t, stocks[t].price, github, noise[t]))
  }

  /** A tick changes prices only: the tickers and their names stay. */
  lemma TickKeepsTickersAndNames(stocks: map<string, Stock>, github: GithubData, noise: map<string, real>)
    requires stocks.Keys <= noise.Keys
    ensures TickTable(stocks, github, noise).Keys == stocks.Keys
    ensures forall t :: t in stocks ==> TickTable(stocks, github, noise)[t].name == stocks[t].name
  {
  }

  /** After a tick the activity ticker is at or above the floor, and its
      price is exactly the activity rule applied to its old price. */
  lemma TickActivityTicker(stocks: map<string, Stock>, github: GithubData, noise: map<string, real>)
    requires stocks.Keys <= noise.Keys && ActivityTicker in stocks
    ensures TickTable(stocks, github, noise)[ActivityTicker].price >= Floor
    ensures TickTable(stocks, github, noise)[ActivityTicker].price
         == ReketinoPrice(stocks[ActivityTicker].price, github.streak, github.commitsToday, github.total, noise[ActivityTicker])
  {
  }

  /** Every other ticker moves by at most one unit (plus half a cent of
      rounding) when its draw lies in [-1, 1]. */
  lemma TickWalkWithinOneUnit(stocks: map<string, Stock>, github: GithubData, noise: map<string, real>, t: string)
    requires stocks.Keys <= noise.Keys && t in stocks && t != ActivityTicker
    requires -1.0 <= noise[t] <= 1.0
    ensures stocks[t].price - 1.005 < TickTable(stocks, github, noise)[t].price <= stocks[t].price + 1.005
  {
    WalkWithinOneUnit(stocks[t].price, noise[t]);
  }

  /** Other tickers are not floored: in the initial table with `BRR` lowered
      to 0.50, a tick that draws -1 for `BRR` takes it to -0.50. */
  lemma TickWalkIsNotFloored(github: GithubData, noise: map<string, real>)
    requires InitialStocks().Keys <= noise.Keys && noise["BRR"] == -1.0
    ensures TickTable(InitialStocks()["BRR" := Stock("BearCoin", 0.5)], github, noise)["BRR"].price == -0.5
    ensures TickTable(InitialStocks()["BRR" := Stock("BearCoin", 0.5)], github, noise)["BRR"].price < Floor
  {
    WalkHasNoFloor();
  }

  /** The shared `stocks` dictionary that every tick updates in place. */
  class StockTable {
    var stocks: map<string, Stock>

    /** The tickers and names are those of the initial table, and the
        activity ticker is at or above the floor. */
    ghost predicate Valid()
      reads this
    {
      && stocks.Keys == InitialStocks().Keys
      && (forall t :: t in stocks ==> stocks[t].name == InitialStocks()[t].name)
      && stocks[ActivityTicker].price >= Floor
    }

    constructor ()
      ensures Valid()
      ensures stocks == InitialStocks()
    {
      stocks := InitialStocks();
    }

    /** The loop of main.py:110-119: each ticker's `price` is replaced by its
        next price, computed from its own old price only. */
    method Tick(github: GithubData, noise: map<string, real>)
      requires Valid()
      requires stocks.Keys <= noise.Keys
      modifies this
      ensures Valid()
      ensures stocks == TickTable(old(stocks), github, noise)
    {
      ghost var before := stocks;
      var pending := stocks.Keys;
      while pending != {}
        invariant pending <= before.Keys && stocks.Keys == before.Keys
        invariant forall t :: t in pending ==> stocks[t] == before[t]
        invariant forall t :: t in before && t !in pending ==>
                    stocks[t] == Stock(before[t].name, NextPrice(t, before[t].price, github, noise[t]))
        decreases pending
      {
        var t :| t in pending;
        var entry := stocks[t];
        stocks := stocks[t := entry.(price := NextPrice(t, entry.price, github, noise[t]))];
        pending := pending - {t};
      }
      assert stocks == TickTable(before, github, noise);
    }
  }

  /** One pass of the `stream` loop (main.py:108-119) without its network
      and socket parts: summarise the already fetched calendar, then tick
      the table with that summary. Returns the summary it used. */
  method StreamStep(table: StockTable, total: int, weeks: seq<seq<Day>>, today: Date, noise: map<string, real>)
    returns (github: GithubData)
    requires table.Valid() && table.stocks.Keys <= noise.Keys
    modifies table
    ensures table.Valid()
    ensures github.total == total
    ensures github.commitsToday == CommitsToday(Flatten(weeks), today)
    ensures exists days :: SortedByDate(days) && multiset(days) == multiset(Flatten(weeks))
                           && github.streak == TrailingActiveDays(days)
    ensures github.streak <= TotalDays(weeks)
    ensures table.stocks == TickTable(old(table.stocks), github, noise)
  {
    github := Summarize(total, weeks, today);
    table.Tick(github, noise);
  }
}
