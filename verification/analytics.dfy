/** The analytics service: the portfolio summary (`GET /api/analytics/summary`)
    and the month-end value history (`GET /api/analytics/history`) over one
    user's position rows. The database read, the market-data request and the
    price-history provider are parameters. */
module Analytics {
  import opened Common
  import opened PositionsStore
  import opened MarketData
  import QueryClient
  import PositionsPage

  // ---------------------------------------------------------------------------
  // Row sets and sums
  // ---------------------------------------------------------------------------

  /** `[r for r in rows if r["sell_date"] is not None]`, in read order. */
  function ClosedRows(rows: seq<Position>): (r: seq<Position>)
    ensures ClosedRowsPriced(rows) ==> AllSold(r)
  {
    if rows == [] then []
    else
      var init := rows[..|rows| - 1];
      assert forall i :: 0 <= i < |init| ==> init[i] == rows[i];
      ClosedRows(init) + (if rows[|rows| - 1].IsOpen() then [] else [rows[|rows| - 1]])
  }

  /** A row is closed exactly when it has a sell date. */
  lemma {:induction false} ClosedRowsMembership(rows: seq<Position>, p: Position)
    ensures p in ClosedRows(rows) <==> p in rows && p.sellDate.Some?
  {
    if rows != [] {
      var init := rows[..|rows| - 1];
      ClosedRowsMembership(init, p);
      assert rows == init + [rows[|rows| - 1]];
    }
  }

  /** The rows the summary and the history can read: a closed row has a sell
      price (the positions store keeps this invariant). */
  predicate ClosedRowsPriced(rows: seq<Position>) {
    forall i :: 0 <= i < |rows| ==> (rows[i].sellDate.Some? ==> rows[i].sellPrice.Some?)
  }

  /** `sum(r["quantity"] * r["buy_price"] for r in rows)`. */
  function Invested(rows: seq<Position>): real {
    if rows == [] then 0.0
    else Invested(rows[..|rows| - 1]) + rows[|rows| - 1].quantity * rows[|rows| - 1].buyPrice
  }

  /** The realised P/L of one closed row. */
  function RealisedPL(p: Position): real
    requires p.sellPrice.Some?
  {
    (p.sellPrice.value - p.buyPrice) * p.quantity
  }

  predicate AllSold(rows: seq<Position>) {
    forall i :: 0 <= i < |rows| ==> rows[i].sellPrice.Some?
  }

  /** `sum((r["sell_price"] - r["buy_price"]) * r["quantity"] for r in closed)`. */
  function ClosedPL(closed: seq<Position>): real
    requires AllSold(closed)
  {
    if closed == [] then 0.0
    else ClosedPL(closed[..|closed| - 1]) + RealisedPL(closed[|closed| - 1])
  }

  /** `{q["symbol"]: q["currentPrice"] for q in quotes}`: a later quote for the
      same symbol overwrites an earlier one. */
  function QuoteMap(quotes: seq<Quote>): (m: map<string, real>)
    ensures forall i :: 0 <= i < |quotes| ==> quotes[i].symbol in m
  {
    if quotes == [] then map[]
    else QuoteMap(quotes[..|quotes| - 1])[quotes[|quotes| - 1].symbol := quotes[|quotes| - 1].currentPrice]
  }

  /** The map holds only quoted symbols, each with the price of its last quote. */
  lemma {:induction false} QuoteMapLastWins(quotes: seq<Quote>, s: string)
    ensures s in QuoteMap(quotes) ==> exists i :: 0 <= i < |quotes| && quotes[i].symbol == s
    ensures forall k :: 0 <= k < |quotes| && quotes[k].symbol == s
                        && (forall j :: k < j < |quotes| ==> quotes[j].symbol != s)
                        ==> QuoteMap(quotes)[s] == quotes[k].currentPrice
  {
    if quotes != [] {
      var init := quotes[..|quotes| - 1];
      QuoteMapLastWins(init, s);
      assert forall i :: 0 <= i < |init| ==> quotes[i] == init[i];
    }
  }

  /** `quote_map.get(r["ticker"], 0.0)`: a ticker without a quote is priced at zero. */
  function QuotedPrice(quoteMap: map<string, real>, ticker: string): (price: real)
    ensures ticker in quoteMap ==> price == quoteMap[ticker]
    ensures ticker !in quoteMap ==> price == 0.0
  {
    if ticker in quoteMap then quoteMap[ticker] else 0.0
  }

  /** The open-P/L loop once the quotes have arrived. */
  function OpenPL(open: seq<Position>, quoteMap: map<string, real>): real {
    if open == [] then 0.0
    else OpenPL(open[..|open| - 1], quoteMap)
         + (QuotedPrice(quoteMap, open[|open| - 1].ticker) - open[|open| - 1].buyPrice) * open[|open| - 1].quantity
  }

  /** `{r["ticker"] for r in open_positions}`: the symbols the quote request names. */
  function TickerSet(rows: seq<Position>): (r: set<string>)
    ensures forall i :: 0 <= i < |rows| ==> rows[i].ticker in r
    ensures forall t :: t in r ==> exists i :: 0 <= i < |rows| && rows[i].ticker == t
  {
    set i | 0 <= i < |rows| :: rows[i].ticker
  }

  // ---------------------------------------------------------------------------
  // Summary
  // ---------------------------------------------------------------------------

  datatype Summary = Summary(invested: real, totalPL: real, totalPLPercent: real, openCount: nat, closedCount: nat)

  /** `get_summary`: `fetch` is the market-data request for a set of symbols,
      `None` when it raises or answers with an error status. */
  function GetSummary(rows: seq<Position>, fetch: set<string> -> Option<seq<Quote>>): (r: Summary)
    requires ClosedRowsPriced(rows)
    ensures r.invested == Invested(rows)
    ensures r.openCount + r.closedCount == |rows|
    ensures r.closedCount == |ClosedRows(rows)|
    ensures r.invested != 0.0 ==> r.totalPLPercent * r.invested == r.totalPL * 100.0
    ensures r.invested == 0.0 ==> r.totalPLPercent == 0.0
  {
    CountsAddUp(rows);
    var totalPL := ClosedPL(ClosedRows(rows)) + OpenContribution(OpenRows(rows), fetch);
    var invested := Invested(rows);
    Summary(invested, totalPL, PositionsPage.Pct(totalPL, invested), |OpenRows(rows)|, |ClosedRows(rows)|)
  }

  /** `open_pl`: no request without open rows, 0.0 when the request fails, else
      the open P/L at the quoted prices. */
  function OpenContribution(open: seq<Position>, fetch: set<string> -> Option<seq<Quote>>): real {
    if open == [] then 0.0
    else match fetch(TickerSet(open))
         case None => 0.0
         case Some(quotes) => OpenPL(open, QuoteMap(quotes))
  }

  /** Every row is either open or closed: the two counts add up to the row count. */
  lemma {:induction false} CountsAddUp(rows: seq<Position>)
    ensures |OpenRows(rows)| + |ClosedRows(rows)| == |rows|
  {
    if rows != [] {
      CountsAddUp(rows[..|rows| - 1]);
    }
  }

  /** What one row contributes to the invested amount. */
  function Cost(p: Position): real {
    p.quantity * p.buyPrice
  }

  /** The sum of a per-row amount `w`, folded from the end like the service's sums. */
  function SumBy(rows: seq<Position>, w: Position -> real): real {
    if rows == [] then 0.0 else SumBy(rows[..|rows| - 1], w) + w(rows[|rows| - 1])
  }

  /** Any per-row sum splits into its open rows' and its closed rows' parts. */
  lemma {:induction false} SumBySplits(rows: seq<Position>, w: Position -> real)
    ensures SumBy(rows, w) == SumBy(OpenRows(rows), w) + SumBy(ClosedRows(rows), w)
  {
    if rows != [] {
      var init, last := rows[..|rows| - 1], rows[|rows| - 1];
      SumBySplits(init, w);
      LastRowGoesToOneSide(rows);
      if last.IsOpen() {
        assert (OpenRows(init) + [last])[..|OpenRows(init)|] == OpenRows(init);
      } else {
        assert (ClosedRows(init) + [last])[..|ClosedRows(init)|] == ClosedRows(init);
      }
    }
  }

  /** The invested amount is the per-row sum of quantity times buy price. */
  lemma {:induction false} InvestedIsSumBy(rows: seq<Position>)
    ensures Invested(rows) == SumBy(rows, Cost)
  {
    if rows != [] {
      InvestedIsSumBy(rows[..|rows| - 1]);
    }
  }

  /** The invested amount splits into the open rows' and the closed rows' costs. */
  lemma InvestedSplits(rows: seq<Position>)
    ensures Invested(rows) == Invested(OpenRows(rows)) + Invested(ClosedRows(rows))
  {
    InvestedIsSumBy(rows);
    InvestedIsSumBy(OpenRows(rows));
    InvestedIsSumBy(ClosedRows(rows));
    SumBySplits(rows, Cost);
  }

  /** The last row extends exactly one of the two row sets. */
  lemma LastRowGoesToOneSide(rows: seq<Position>)
    requires rows != []
    ensures var init, last := rows[..|rows| - 1], rows[|rows| - 1];
      if last.IsOpen()
      then OpenRows(rows) == OpenRows(init) + [last] && ClosedRows(rows) == ClosedRows(init)
      else OpenRows(rows) == OpenRows(init) && ClosedRows(rows) == ClosedRows(init) + [last]
  {
    var init := rows[..|rows| - 1];
    assert OpenRows(init) + [] == OpenRows(init);
    assert ClosedRows(init) + [] == ClosedRows(init);
  }

  /** A user without open positions causes no quote request: the summary does
      not depend on the market-data service, and the total P/L is the closed P/L. */
  lemma NoOpenPositionsNoRequest(rows: seq<Position>, fetch1: set<string> -> Option<seq<Quote>>,
                                 fetch2: set<string> -> Option<seq<Quote>>)
    requires ClosedRowsPriced(rows)
    requires OpenRows(rows) == []
    ensures GetSummary(rows, fetch1) == GetSummary(rows, fetch2)
    ensures GetSummary(rows, fetch1).totalPL == ClosedPL(ClosedRows(rows))
  {
  }

  /** When the market-data request fails, the open positions add nothing and
      the total P/L is the closed P/L. */
  lemma FetchFailureMeansClosedOnly(rows: seq<Position>, fetch: set<string> -> Option<seq<Quote>>)
    requires ClosedRowsPriced(rows)
    requires fetch(TickerSet(OpenRows(rows))).None?
    ensures GetSummary(rows, fetch).totalPL == ClosedPL(ClosedRows(rows))
  {
  }

  /** With quotes, the total P/L is the closed P/L plus the open P/L at the quoted prices. */
  lemma QuotedTotal(rows: seq<Position>, fetch: set<string> -> Option<seq<Quote>>)
    requires ClosedRowsPriced(rows)
    requires OpenRows(rows) != []
    requires fetch(TickerSet(OpenRows(rows))).Some?
    ensures GetSummary(rows, fetch).totalPL
        == ClosedPL(ClosedRows(rows)) + OpenPL(OpenRows(rows), QuoteMap(fetch(TickerSet(OpenRows(rows))).value))
  {
  }

  // ---------------------------------------------------------------------------
  // Agreement with the positions page
  // ---------------------------------------------------------------------------

  /** The summary's closed P/L equals the sum of the closed tab's row profits. */
  lemma {:induction false} ClosedPLMatchesPage(closed: seq<Position>, quotes: map<string, QueryClient.RemoteQuote>)
    requires AllSold(closed)
    ensures PositionsPage.AllPriceable(PositionsPage.ClosedTab, closed, quotes)
    ensures ClosedPL(closed) == PositionsPage.SumProfit(PositionsPage.ClosedTab, closed, quotes)
  {
    if closed != [] {
      var init, last := closed[..|closed| - 1], closed[|closed| - 1];
      assert AllSold(init) by {
        assert forall i :: 0 <= i < |init| ==> init[i] == closed[i];
      }
      ClosedPLMatchesPage(init, quotes);
      PositionsPage.ClosedRowProfitIsRealised(last, quotes);
    }
  }

  /** Where every open ticker has a quote, and the page sees the same prices,
      the summary's open P/L equals the sum of the open tab's row profits. */
  lemma {:induction false} OpenPLMatchesPageWhenQuoted(open: seq<Position>, quoteMap: map<string, real>,
                                                       quotes: map<string, QueryClient.RemoteQuote>)
        requires forall i :: 0 <= i < |open| ==>
      && open[i].ticker in quoteMap
      && open[i].ticker in quotes
      && quotes[open[i].ticker].currentPrice == quoteMap[open[i].ticker]
    ensures OpenPL(open, quoteMap) == PositionsPage.SumProfit(PositionsPage.OpenTab, open, quotes)
  {
    if open != [] {
      var init, last := open[..|open| - 1], open[|open| - 1];
      assert forall i :: 0 <= i < |init| ==> init[i] == open[i];
      OpenPLMatchesPageWhenQuoted(init, quoteMap, quotes);
      var p := QuotedPrice(quoteMap, last.ticker);
      assert (p - last.buyPrice) * last.quantity == p * last.quantity - last.buyPrice * last.quantity;
    }
  }

  /** Where a quote is missing the two disagree: the page values the position
      at its buy price (P/L 0), the summary at price 0 (P/L −cost). */
  lemma MissingQuoteDiverges()
    ensures var p := Position(1, 1, "AAPL", 10.0, 100.0, 0, None, None);
      && OpenPL([p], map[]) == -1000.0
      && PositionsPage.SumProfit(PositionsPage.OpenTab, [p], map[]) == 0.0
  {
    var p := Position(1, 1, "AAPL", 10.0, 100.0, 0, None, None);
    assert [p][..0] == [];
    PositionsPage.NoQuoteMeansZeroProfit(p, map[]);
  }

  /** A failed quote request is a second way the two disagree: the summary drops
      the open P/L altogether, while the page still shows it at its own quotes. */
  lemma FetchFailureDiverges(fetch: set<string> -> Option<seq<Quote>>)
    requires fetch({"AAPL"}).None?
    ensures var p := Position(1, 1, "AAPL", 10.0, 100.0, 0, None, None);
      var quotes := map["AAPL" := QueryClient.RemoteQuote("AAPL", 120.0, 20.0, "")];
      && GetSummary([p], fetch).totalPL == 0.0
      && PositionsPage.SumProfit(PositionsPage.OpenTab, [p], quotes) == 200.0
  {
    var p := Position(1, 1, "AAPL", 10.0, 100.0, 0, None, None);
    var quotes := map["AAPL" := QueryClient.RemoteQuote("AAPL", 120.0, 20.0, "")];
    assert [p][..0] == [];
    assert OpenRows([p]) == [p];
    assert ClosedRows([p]) == [];
    assert TickerSet([p]) == {"AAPL"} by {
      assert [p][0].ticker == "AAPL";
    }
    assert PositionsPage.RowValuation(PositionsPage.OpenTab, p, quotes).profit == 200.0;
  }

  // ---------------------------------------------------------------------------
  // History
  // ---------------------------------------------------------------------------

  /** One point of a monthly close series. */
  datatype Point = Point(date: int, close: real)

  /** `series.loc[idx[-1]]` for `idx = series.index[series.index <= dt]`: the
      close of the last point, in series order, dated on or before `dt`. */
  function LatestAtOrBefore(series: seq<Point>, dt: int): (r: Option<real>)
    ensures r.None? <==> forall k :: 0 <= k < |series| ==> series[k].date > dt
    ensures r.Some? ==> exists k :: 0 <= k < |series| && series[k].date <= dt && series[k].close == r.value
                                  && forall j :: k < j < |series| ==> series[j].date > dt
  {
    if series == [] then None
    else if series[|series| - 1].date <= dt then Some(series[|series| - 1].close)
    else
      var init := series[..|series| - 1];
      assert forall k :: 0 <= k < |init| ==> init[k] == series[k];
      LatestAtOrBefore(init, dt)
  }

  /** The price a held row is valued at on `dt`: the latest close on or before
      it, 0.0 when there is none or the history lookup raised (an empty series). */
  function PriceAt(history: Option<seq<Point>>, dt: int): (price: real)
    ensures history.None? ==> price == 0.0
    ensures history.Some? && LatestAtOrBefore(history.value, dt).None? ==> price == 0.0
    ensures history.Some? && LatestAtOrBefore(history.value, dt).Some? ==>
      price == LatestAtOrBefore(history.value, dt).value
  {
    match history
    case None => 0.0
    case Some(series) => LatestAtOrBefore(series, dt).GetOr(0.0)
  }

  /** A row sold on or before `dt`. */
  predicate SoldBy(r: Position, dt: int) {
    r.sellDate.Some? && r.sellDate.value <= dt
  }

  /** One row's contribution to the portfolio value on `dt`. */
  function RowValueAt(r: Position, dt: int, history: string -> Option<seq<Point>>): (v: real)
    requires r.sellDate.Some? ==> r.sellPrice.Some?
    ensures r.buyDate > dt ==> v == 0.0
    ensures r.buyDate <= dt && SoldBy(r, dt) ==> v == r.sellPrice.value * r.quantity
    ensures r.buyDate <= dt && !SoldBy(r, dt) ==> v == PriceAt(history(r.ticker), dt) * r.quantity
  {
    if r.buyDate > dt then 0.0
    else if SoldBy(r, dt) then r.sellPrice.value * r.quantity
    else PriceAt(history(r.ticker), dt) * r.quantity
  }

  /** Reference: the portfolio value on `dt`, the sum of the row contributions. */
  function ValueAt(rows: seq<Position>, dt: int, history: string -> Option<seq<Point>>): real
    requires ClosedRowsPriced(rows)
  {
    if rows == [] then 0.0
    else
      var init := rows[..|rows| - 1];
      assert forall i :: 0 <= i < |init| ==> init[i] == rows[i];
      ValueAt(init, dt, history) + RowValueAt(rows[|rows| - 1], dt, history)
  }

  datatype HistoryItem = HistoryItem(date: int, value: real)

  /** The inner loop: the value of all rows on one date. */
  method ValueOn(rows: seq<Position>, dt: int, history: string -> Option<seq<Point>>) returns (total: real)
    requires ClosedRowsPriced(rows)
    ensures total == ValueAt(rows, dt, history)
  {
    total := 0.0;
    var i := 0;
    while i < |rows|
      invariant 0 <= i <= |rows|
      invariant ClosedRowsPriced(rows[..i])
      invariant total == ValueAt(rows[..i], dt, history)
    {
      var r := rows[i];
      if r.buyDate <= dt {
        if r.sellDate.Some? && r.sellDate.value <= dt {
          total := total + r.sellPrice.value * r.quantity;
        } else {
          var price := match history(r.ticker)
                       case None => 0.0
                       case Some(series) => LatestAtOrBefore(series, dt).GetOr(0.0);
          total := total + price * r.quantity;
        }
      }
      assert rows[..i + 1][..i] == rows[..i];
      i := i + 1;
    }
    assert rows[..i] == rows;
  }

  /** `get_history` for the given month-end dates: no tickers gives no items,
      otherwise one item per date with the value of all rows on that date. */
  method GetHistory(rows: seq<Position>, dates: seq<int>, history: string -> Option<seq<Point>>)
    returns (items: seq<HistoryItem>)
    requires ClosedRowsPriced(rows)
    ensures rows == [] ==> items == []
    ensures rows != [] ==> |items| == |dates|
    ensures rows != [] ==> forall i :: 0 <= i < |dates| ==>
      items[i].date == dates[i] && items[i].value == ValueAt(rows, dates[i], history)
  {
    if TickerSet(rows) == {} {
      return [];
    }
    items := [];
    var d := 0;
    while d < |dates|
      invariant 0 <= d <= |dates|
      invariant |items| == d
      invariant forall i :: 0 <= i < d ==> items[i].date == dates[i] && items[i].value == ValueAt(rows, dates[i], history)
    {
      var total := ValueOn(rows, dates[d], history);
      items := items + [HistoryItem(dates[d], total)];
      d := d + 1;
    }
  }

  /** A row sold by `dt` is valued at its sell price from then on, whatever the
      price history says. */
  lemma SoldRowValueFixed(r: Position, dt1: int, dt2: int,
                          history1: string -> Option<seq<Point>>, history2: string -> Option<seq<Point>>)
    requires r.sellDate.Some? ==> r.sellPrice.Some?
    requires r.buyDate <= dt1 <= dt2
    requires SoldBy(r, dt1)
    ensures RowValueAt(r, dt1, history1) == RowValueAt(r, dt2, history2) == r.sellPrice.value * r.quantity
  {
  }

  /** Before any purchase the portfolio is worth nothing. */
  lemma {:induction false} ValueBeforeAnyBuy(rows: seq<Position>, dt: int, history: string -> Option<seq<Point>>)
    requires ClosedRowsPriced(rows)
    requires forall i :: 0 <= i < |rows| ==> rows[i].buyDate > dt
    ensures ValueAt(rows, dt, history) == 0.0
  {
    if rows != [] {
      var init := rows[..|rows| - 1];
      assert forall i :: 0 <= i < |init| ==> init[i] == rows[i];
      ValueBeforeAnyBuy(init, dt, history);
    }
  }

  /** The value on `dt` only reads the price history of rows held on `dt`. */
  lemma {:induction false} ValueReadsHeldRowsOnly(rows: seq<Position>, dt: int,
                                                  history1: string -> Option<seq<Point>>,
                                                  history2: string -> Option<seq<Point>>)
    requires ClosedRowsPriced(rows)
    requires forall i :: 0 <= i < |rows| && rows[i].buyDate <= dt && !SoldBy(rows[i], dt) ==>
      history1(rows[i].ticker) == history2(rows[i].ticker)
    ensures ValueAt(rows, dt, history1) == ValueAt(rows, dt, history2)
  {
    if rows != [] {
      var init := rows[..|rows| - 1];
      assert forall i :: 0 <= i < |init| ==> init[i] == rows[i];
      ValueReadsHeldRowsOnly(init, dt, history1, history2);
    }
  }

  /** The rows a valid store holds for a user satisfy what the summary and the
      history need. */
  lemma StoreRowsArePriced(s: Store, rows: seq<Position>)
    requires Valid(s)
    requires forall i :: 0 <= i < |rows| ==> rows[i].id in s.positions && s.positions[rows[i].id] == rows[i]
    ensures ClosedRowsPriced(rows)
  {
  }
}
