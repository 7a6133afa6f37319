# WealthWise portfolio valuation and live prices, in Dafny

This project models how WealthWise values a portfolio and keeps prices live, and proves properties of that model. The model has seven parts:

- The positions service stores positions. It lists them by status, creates them and closes them.
- Every ten seconds a price poller groups the open positions by user. It asks the quote provider for each user's tickers and emits a `price:update` event to that user's room.
- In the browser, the `useQuotes` hook caches quote lists under a canonical sorted key and patches them when a `price:update` arrives.
- The `usePositionWS` hook invalidates the positions queries on any position event.
- The positions page computes each row's price, P/L and percentage, and the totals row. It also normalises the ticker on add, builds the edit body and chooses which queries each mutation invalidates.
- The market-data service derives daily quotes from the last two closes.
- The analytics service computes a summary (invested, P/L, percentage, counts) and a month-end value history.

Everything is modelled as pure functions over immutable datatypes. Prices are unbounded `real`s. The following become parameters: the database read, the quote provider, the market-data request, the price-history provider and the clock. The react-query cache is a map of quote lists plus the set of prefix filters invalidated so far. A socket room is a per-user filter over the list of emissions.

Modules (one file each):

- `Common`: `Option`.
- `Text`: ASCII trim and upper-casing, Python `split`, `join`, decimal rendering of ids, and code-point sort.
- `PositionsStore`: `routes/positions.ts`.
- `Channel`: rooms and emissions.
- `PricePoller`: `pricePoller.ts`.
- `QueryClient`: the react-query cache.
- `QuoteCache`: `useQuotes.ts`.
- `PositionSocket`: `usePositionWS.ts`.
- `PositionsPage`: `PositionsPage.tsx`.
- `MarketData`: `services/market-data/main.py`.
- `Analytics`: `services/analytics/main.py`.

The page and the analytics summary disagree about open positions in two ways. First, an open position without a quote: the page values it at its buy price, so its P/L is 0, while the summary values it at price 0.0, so its P/L is minus its cost (`Analytics.MissingQuoteDiverges`). Second, a failed quote request: the summary drops the open P/L altogether, while the page still shows it at its own quotes (`Analytics.FetchFailureDiverges`). Both are modelled as written. `Analytics.OpenPLMatchesPageWhenQuoted` shows that the two agree whenever both sides hold the same quote for every open ticker.

## Model

| member | source | states |
|---|---|---|
| PositionsStore.EffectiveStatus | services/positions/src/routes/positions.ts:14 | a missing or empty `status` means `open`; any other value is kept |
| PositionsStore.Collect | services/positions/src/routes/positions.ts:15-21 | the rows collected are exactly the caller's rows matching the status (open = no sell date, anything else = has one), in ascending id order |
| PositionsStore.SortNewestFirst | services/positions/src/routes/positions.ts:22 | the result is a permutation (same members, same length) ordered by `buyDate` descending |
| PositionsStore.List | services/positions/src/routes/positions.ts:11-28 | a position is listed iff it is stored, belongs to the caller and matches the effective status; the list is newest first and has no repeated id |
| PositionsStore.Create | services/positions/src/routes/positions.ts:30-44 | 400 with the fixed message iff ticker, quantity or buyPrice is falsy (zero or empty); otherwise a fresh id owned by the caller, open, with no sell price, the ticker stored as sent, and only that row added; the store invariant is kept |
| PositionsStore.Close | services/positions/src/routes/positions.ts:46-69 | 400 iff the sell price is falsy, checked before the lookup; 404 iff the id is missing, belongs to another user or is already closed; otherwise only `sellPrice` and `sellDate` of that row change; the store invariant is kept |
| PositionsStore.CloseTwiceFails | services/positions/src/routes/positions.ts:55-57 | after a successful close, closing the same id again with a truthy price is a 404 |
| PositionsStore.CloseMovesPosition | services/positions/src/routes/positions.ts:58-64 | the closed position was in the caller's open listing and is not any more; its closed record is new in the closed listing and now in it |
| PositionsStore.OpenListingWithout | services/positions/src/routes/positions.ts:14-21 | overwriting a row with a closed record removes exactly that id from every open listing |
| PositionsStore.CloseShrinksOpenListing | services/positions/src/routes/positions.ts:58-64 | after a close the open listing is the old one without the closed id |
| PositionsStore.ClosedListingWith | services/positions/src/routes/positions.ts:14-21 | overwriting an open row of the caller with a closed record of the caller adds exactly that record to the closed listing |
| PositionsStore.CloseGrowsClosedListing | services/positions/src/routes/positions.ts:58-64 | after a close the closed listing is the old one plus the closed record |
| PositionsStore.CloseIsolatesUsers | services/positions/src/routes/positions.ts:55-64 | a close leaves every other user's listings unchanged |
| PositionsStore.CreateAddsToOpenListing | services/positions/src/routes/positions.ts:37-39 | the created position appears in the caller's open listing |
| PositionsStore.CreateKeepsClosedListing | services/positions/src/routes/positions.ts:37-39 | a create leaves the caller's closed listing unchanged |
| PositionsStore.CreateIsolatesUsers | services/positions/src/routes/positions.ts:37-39 | a create leaves every other user's listings unchanged |
| PositionsStore.ListDependsOnSelectedRows | services/positions/src/routes/positions.ts:15-22 | a listing depends only on the rows it selects |
| Channel.Room | services/positions/src/pricePoller.ts:23 | a room name starts with `user_` |
| Channel.RoomInjective | services/positions/src/pricePoller.ts:23 | distinct users have distinct rooms |
| Channel.DeliveredTo | services/positions/src/pricePoller.ts:23 | what a room receives is no longer than the emission log, and each item is an emission addressed to that room |
| Channel.DeliveredToCounts | services/positions/src/pricePoller.ts:23 | a room receives each emission addressed to it exactly as many times as it was emitted, and nothing addressed elsewhere |
| Channel.DeliveredToComplete | services/positions/src/pricePoller.ts:23 | no emission addressed to a room is lost |
| Channel.DeliveredToAppend | services/positions/src/pricePoller.ts:23 | a room receives the emissions in the order they were sent: two batches in turn arrive as the first then the second |
| PositionsStore.OpenRowsMembership | services/positions/src/pricePoller.ts:7-10 | exactly the positions without a sell date feed the tick |
| PricePoller.DedupSpec | services/positions/src/pricePoller.ts:14 | deduplication keeps every ticker, none twice, in first-occurrence order, comparing exact strings |
| PricePoller.GroupByUserSpec | services/positions/src/pricePoller.ts:12-16 | the `reduce` has an entry for a user iff that user has an open row, and the entry is that user's tickers deduplicated in first-seen order |
| PricePoller.GroupCoversOpenPairs | services/positions/src/pricePoller.ts:12-16 | every open (user, ticker) pair is in that user's group, and every grouped ticker comes from one of that user's open rows |
| PricePoller.Users | services/positions/src/pricePoller.ts:18 | the users iterated are exactly those with open rows, in ascending id order (integer-key order of `Object.entries`) |
| PricePoller.AsList | services/positions/src/pricePoller.ts:21 | a single non-array reply is treated as a one-element list |
| PricePoller.Payload | services/positions/src/pricePoller.ts:25-29 | one item per returned quote, in order, mapping symbol, `regularMarketPrice` and `regularMarketChangePercent` |
| PricePoller.Broadcast | services/positions/src/pricePoller.ts:18-34 | no more emissions than users, all of them `price:update` |
| PricePoller.Tick | services/positions/src/pricePoller.ts:6-35 | a failed open-positions read emits nothing; every emission is a `price:update` |
| PricePoller.BroadcastDeliveredTo | services/positions/src/pricePoller.ts:18-34 | the loop sends a user's room one emission with the payload of its own lookup when the lookup succeeds, else nothing |
| PricePoller.TickPerUser | services/positions/src/pricePoller.ts:6-35 | a user's room gets exactly one `price:update` with the payload of the lookup on its own deduplicated open tickers when it has open rows and the lookup succeeds, and nothing otherwise |
| PricePoller.TickIsolation | services/positions/src/pricePoller.ts:19-33 | what a user receives depends only on its own lookup; another user's failure changes nothing for it |
| QueryClient.Invalidate | frontend/src/hooks/usePositionWS.ts:20-23 | prefix invalidation marks exactly the keys under the filter stale and does not touch cached data |
| Text.Normalize | frontend/src/pages/PositionsPage.tsx:152 | `trim().toUpperCase()` leaves no lower-case letter and no space at either end, and is empty iff the input is all spaces |
| Text.NormalizeIdempotent | frontend/src/pages/PositionsPage.tsx:152 | normalising twice equals normalising once |
| Text.Split | services/market-data/main.py:47 | `split(',')` yields at least one piece and no piece contains the separator |
| Text.JoinSplit | services/market-data/main.py:47 | joining the pieces of a split gives back the string |
| Text.SplitJoin | frontend/src/hooks/useQuotes.ts:22 | splitting a join of comma-free symbols gives back the symbols |
| Text.NatToStringInjective | services/positions/src/pricePoller.ts:23 | the decimal rendering of user ids is injective |
| Text.SortLex | frontend/src/hooks/useQuotes.ts:17 | the default sort returns a sorted permutation of its input |
| Text.SortedLexUnique | frontend/src/hooks/useQuotes.ts:17 | two sorted permutations of the same symbols are equal |
| QuoteCache.SortedKeyPermutationInvariant | frontend/src/hooks/useQuotes.ts:17 | the cache key is the same for every ordering of the symbols |
| QuoteCache.SortedKeyRecoversSymbols | frontend/src/hooks/useQuotes.ts:17 | the key names exactly the symbols: splitting it gives a permutation of them |
| QuoteCache.QuoteQueryFor | frontend/src/hooks/useQuotes.ts:19-28 | the key is `['quotes', sortedKey]`, the fetch is enabled iff there are symbols, and the request parameter lists the symbols in the caller's order |
| QuoteCache.FindUpdate | frontend/src/hooks/useQuotes.ts:38 | `find` yields nothing iff no update has the symbol, else the first update with it |
| QuoteCache.PatchList | frontend/src/hooks/useQuotes.ts:37-42 | same length and order, same symbol and logo per entry, unmatched entries unchanged, matched entries take both prices from the first matching update |
| QuoteCache.PatchListIdempotent | frontend/src/hooks/useQuotes.ts:37-42 | patching twice with one batch equals patching once |
| QuoteCache.ApplyPriceUpdate | frontend/src/hooks/useQuotes.ts:34-43 | only the entry under `['quotes', sortedKey]` is written; an absent entry stays absent; no staleness changes |
| QuoteCache.ApplyPriceUpdateIdempotent | frontend/src/hooks/useQuotes.ts:34-43 | handling the same `price:update` twice equals handling it once |
| QuoteCache.PatchNeverInserts | frontend/src/hooks/useQuotes.ts:37-42 | the patched list holds a symbol iff the cached list did; updates for other symbols are dropped |
| PositionSocket.Mount | frontend/src/hooks/usePositionWS.ts:12-23 | no user: no connection; otherwise one `join` with the user's id and handlers for the four position events |
| PositionSocket.Unmount | frontend/src/hooks/usePositionWS.ts:25 | the cleanup disconnects the socket the effect opened |
| PositionSocket.Receive | frontend/src/hooks/usePositionWS.ts:20-23 | a handled event invalidates exactly the `['positions']` family and never writes quote data; an unhandled one changes nothing |
| PositionSocket.PositionEventsAgree | frontend/src/hooks/usePositionWS.ts:20-23 | all four events have the same effect whatever their payloads |
| PositionSocket.ReceiveIdempotent | frontend/src/hooks/usePositionWS.ts:20-23 | handling an event twice equals handling it once |
| PositionSocket.PositionEventMarksTabsOnly | frontend/src/hooks/usePositionWS.ts:20-23 | an event makes both position tabs stale and leaves the staleness of quote keys as it was |
| PositionSocket.NothingAfterUnmount | frontend/src/hooks/usePositionWS.ts:25 | after the cleanup no event reaches the cache |
| PositionsPage.QuotesMapLastWins | frontend/src/pages/PositionsPage.tsx:94-98 | the page's quote map holds only quoted symbols, each with its last quote |
| PositionsPage.RowPrice | frontend/src/pages/PositionsPage.tsx:262-265 | open tab: the quote's price, else the buy price; closed tab: the sell price, else the buy price |
| PositionsPage.Pct | frontend/src/pages/PositionsPage.tsx:267 | a percentage of a non-zero base, 0 for a zero base |
| PositionsPage.RowValuation | frontend/src/pages/PositionsPage.tsx:262-267 | cost is buy price times quantity, profit plus cost is price times quantity, and the percentage is profit over cost (0 when cost is 0) |
| PositionsPage.NoQuoteMeansZeroProfit | frontend/src/pages/PositionsPage.tsx:188-189 | before a quote arrives an open row shows P/L 0 and 0% |
| PositionsPage.QuotedZeroQuantityRow | frontend/src/pages/PositionsPage.tsx:262-267 | a quoted open row with zero quantity shows zero cost, P/L 0 and 0%, because the percentage is guarded by the cost |
| PositionsPage.CreatedRowIsPriceable | services/positions/src/routes/positions.ts:34-39 | the server rejects a numeric zero quantity, so every row created from an already-parsed body can be priced on either tab |
| PositionsPage.ClosedRowProfitIsRealised | frontend/src/pages/PositionsPage.tsx:190 | a closed row's P/L is (sell − buy) × quantity |
| PositionsPage.SumRows | frontend/src/pages/PositionsPage.tsx:184-193 | the totals loop's invested and profit equal the sums of the row cells |
| PositionsPage.Totals | frontend/src/pages/PositionsPage.tsx:184-198 | the total percentage is the summed profit over the summed cost, 0 when nothing is invested |
| PositionsPage.TotalPctIsNotRowAverage | frontend/src/pages/PositionsPage.tsx:197 | on rows of +20% and −20% the total is 20/3 %, not the average 0% |
| PositionsPage.SignColor | frontend/src/pages/PositionsPage.tsx:268-277 | every value gets exactly one colour: positive iff > 0, negative iff < 0, zero iff 0 |
| PositionsPage.AddSubmit | frontend/src/pages/PositionsPage.tsx:150-162 | rejected with "Ticker is required" iff the ticker is all spaces; otherwise a create request with the normalised ticker and the given numbers |
| PositionsPage.AddSubmitThenCreate | frontend/src/pages/PositionsPage.tsx:150-162 | a submitted add always passes the server's ticker check and stores a normalised ticker; the server rejects it iff quantity or price is 0 |
| PositionsPage.EditSubmit | frontend/src/pages/PositionsPage.tsx:169-177 | a sell price is passed iff the tab is closed |
| PositionsPage.EditRequestBody | frontend/src/pages/PositionsPage.tsx:127-133 | the body carries `sellPrice` iff the tab is closed and a value is defined |
| PositionsPage.EditSubmitThenBody | frontend/src/pages/PositionsPage.tsx:169-177 | from the edit form to the request body, quantity and buy price go through and a sell price is sent exactly on the closed tab |
| PositionsPage.Invalidations | frontend/src/pages/PositionsPage.tsx:103-147 | add invalidates {open}; close {open, closed}; edit and delete {the current tab} |
| PositionsPage.OnSuccess | frontend/src/pages/PositionsPage.tsx:103-147 | after a mutation a key is stale exactly when it was stale before or lies under one of the keys the mutation invalidates; cached quotes are untouched |
| PositionsPage.InvalidatedKeysStale | frontend/src/pages/PositionsPage.tsx:103-147 | every tab key a mutation invalidates is stale after its success handler |
| PositionsPage.MutationLeavesQuoteKeys | frontend/src/pages/PositionsPage.tsx:103-147 | no mutation changes whether a quote key is stale |
| PositionsPage.AddRefreshesChangedTabs | frontend/src/pages/PositionsPage.tsx:103-106 | after a successful create, every tab whose listing changed is stale |
| PositionsPage.CloseRefreshesChangedTabs | frontend/src/pages/PositionsPage.tsx:112-115 | after a successful close, every tab whose listing changed is stale |
| MarketData.Derive | services/market-data/main.py:52-68 | none with fewer than two closes; else the last close is current and the second-last is previous, change = current − previous, percentage = change/previous × 100 or 0 when previous is 0 |
| MarketData.QuoteForPiece | services/market-data/main.py:47-71 | a piece's quote carries its normalised symbol; a failed lookup yields none |
| MarketData.QuotesFor | services/market-data/main.py:47-73 | the output is no longer than the list of pieces |
| MarketData.GetQuotes | services/market-data/main.py:35-73 | no more quotes than comma-separated pieces, every symbol upper-case and trimmed |
| MarketData.QuotesForSymbols | services/market-data/main.py:48-63 | every returned symbol is the normalised form of some piece |
| MarketData.FlatMapSplit | services/market-data/main.py:47-73 | pieces are handled independently and in order: the output for the first k pieces followed by that for the rest is the whole output |
| MarketData.QuotesForIsFlatMap | services/market-data/main.py:47-73 | the loop appends each piece's own output, in the order of the pieces |
| MarketData.FlatMapAround | services/market-data/main.py:47-73 | one piece's output sits between the outputs of the pieces before and after it |
| MarketData.QuotesForAround | services/market-data/main.py:47-73 | the whole output is the output before piece k, then piece k's own at most one quote, then the output after it |
| MarketData.FailureDropsOnlyThatPiece | services/market-data/main.py:52-54 | a piece whose lookup raises or has fewer than two closes is dropped and the others are kept |
| MarketData.SuccessKeepsPlace | services/market-data/main.py:61-69 | a piece with two closes contributes its quote at its own place |
| MarketData.DuplicatesKept | services/market-data/main.py:47-48 | two pieces with the same normalised symbol (such as `aapl` and ` AAPL`) yield two identical quotes; duplicates are not removed |
| Analytics.ClosedRowsMembership | services/analytics/main.py:61 | a row is closed iff it has a sell date |
| Analytics.CountsAddUp | services/analytics/main.py:61-62 | open and closed counts add up to the row count |
| Analytics.LastRowGoesToOneSide | services/analytics/main.py:61-62 | each row read goes to exactly one of the open and closed lists, in read order |
| Analytics.SumBySplits | services/analytics/main.py:60-62 | any per-row sum over all rows is the open rows' sum plus the closed rows' sum |
| Analytics.InvestedIsSumBy | services/analytics/main.py:60 | invested is the per-row sum of quantity times buy price |
| Analytics.InvestedSplits | services/analytics/main.py:60 | invested covers all rows: the open rows' cost plus the closed rows' cost |
| Analytics.QuoteMapLastWins | services/analytics/main.py:73 | the quote map holds only quoted symbols, each with its last quote's price |
| Analytics.QuotedPrice | services/analytics/main.py:75 | a ticker without a quote is priced 0.0 |
| Analytics.TickerSet | services/analytics/main.py:68 | the request names exactly the tickers of the open rows |
| Analytics.GetSummary | services/analytics/main.py:45-89 | invested is the cost of all rows, counts add up with the closed count from the sell date, the percentage is total P/L over invested or 0 |
| Analytics.NoOpenPositionsNoRequest | services/analytics/main.py:66-67 | without open rows the summary does not depend on the market-data service and total P/L is closed P/L |
| Analytics.FetchFailureMeansClosedOnly | services/analytics/main.py:69-78 | a failed request leaves total P/L equal to closed P/L |
| Analytics.FetchFailureDiverges | services/analytics/main.py:66-78 | on a failed quote request the summary reports 0 total P/L for one open row that the page, quoting it at 120 against a buy price of 100, shows at +200 |
| Analytics.QuotedTotal | services/analytics/main.py:64-80 | with quotes, total P/L is closed P/L plus open P/L at the quoted prices |
| Analytics.ClosedPLMatchesPage | services/analytics/main.py:64 | closed P/L equals the sum of the closed tab's row profits |
| Analytics.OpenPLMatchesPageWhenQuoted | services/analytics/main.py:73-76 | with every open ticker quoted at the page's prices, open P/L equals the sum of the open tab's row profits |
| Analytics.MissingQuoteDiverges | services/analytics/main.py:75 | an unquoted position: summary P/L −cost, page P/L 0 |
| Analytics.LatestAtOrBefore | services/analytics/main.py:144-145 | none iff no point is dated on or before the date, else the close of the last such point |
| Analytics.PriceAt | services/analytics/main.py:123-125 | no history (the lookup raised) or no point yet prices at 0.0 |
| Analytics.RowValueAt | services/analytics/main.py:137-146 | a row bought after the date adds 0, one sold by then adds sell × quantity, otherwise price on the date × quantity |
| Analytics.ValueOn | services/analytics/main.py:129-146 | the per-date loop's total equals the sum of the row contributions |
| Analytics.GetHistory | services/analytics/main.py:113-149 | no rows: no items; otherwise one item per date, in order, carrying that date's value |
| Analytics.SoldRowValueFixed | services/analytics/main.py:140-141 | a sold row is worth its sell value from its sell date on, whatever the price history |
| Analytics.ValueBeforeAnyBuy | services/analytics/main.py:137-138 | before any purchase the portfolio is worth 0 |
| Analytics.ValueReadsHeldRowsOnly | services/analytics/main.py:142-146 | the value on a date reads only the histories of rows held on that date |
| Analytics.StoreRowsArePriced | services/analytics/main.py:58 | rows read from a valid store have a sell price whenever they have a sell date |

## Left out

- PositionsPage.RowValuation: an open row without a quote falls back to `cost / quantity`, which is `0/0 = NaN` in the page for a zero quantity. The model requires a non-zero quantity for such a row (`Priceable`) instead of modelling NaN. A quoted zero-quantity row is not excluded (`QuotedZeroQuantityRow`). The server rejects a numeric zero quantity (`CreatedRowIsPriceable`), but a string `"0"` passes its truthiness check and is stored as 0, so a stored row can still hit this case.
- PositionsPage.CreatedRowIsPriceable: holds only for a body whose fields are already numbers. The route checks `!quantity`, which rejects the number 0 but not the string `"0"`; such a body passes, `Number("0")` stores a zero quantity, and that row, open and unquoted, shows NaN on the page. A string such as `"abc"` likewise passes and is stored as `NaN`.
- PositionsPage.RowPrice: carries the same requirement as RowValuation, a non-zero quantity for an unquoted open row, for the same NaN reason.
- PositionsPage.SumRows: requires every row to be priceable, so a table containing an unquoted zero-quantity open row (whose NaN would make the page's sums NaN) is not modelled.
- PositionsPage.Totals: the same requirement as SumRows. The page's NaN totals for an unquoted zero-quantity open row are not modelled.
- PositionsStore.Close: requests are modelled one at a time. The route reads the row (lines 54-57) and writes it (lines 58-64) in two separate awaits, with no transaction, and the write matches on the id only. Two overlapping closes of one open position can both pass the check and both succeed, the later one overwriting the sell price and date.
- PositionsStore.CloseTwiceFails: the 404 for a second close holds only when the two closes run one after the other; overlapping closes can both succeed, as in the PositionsStore.Close line above.
- Analytics.GetSummary: a closed row without a sell price would raise a `TypeError` in the service. The model requires every closed row to have a sell price, which `PositionsStore.Valid` guarantees (`StoreRowsArePriced`). GetHistory and ValueOn carry the same requirement.
- Analytics.GetSummary: the symbols go to the market-data service as a comma-joined Python set, in unspecified order. The request is modelled as the set itself.
- Analytics.GetSummary: an exception raised part-way through the open-P/L loop (for example, a quote without `currentPrice`) would keep a partial sum. The request is modelled as all-or-nothing.
- Analytics.GetHistory: the dates come from pandas `date_range` and are given as a sequence of integer timestamps. `strftime` formatting, the `months >= 1` validation and the requested history period are not modelled. The ticker set is used only for its emptiness. The model assumes the history index and the month-end dates are comparable. As written, `dt` is timezone-naive (`datetime.now()`), and if the provider returns a timezone-aware index, pandas raises a `TypeError` on `series.index <= dt`; that comparison sits outside the `try`, so the request would fail rather than return one item per date.
- PricePoller.Users: `Object.entries` lists integer keys in ascending order. The model assumes user ids are array-index integers (below 2^32 − 1).
- PricePoller.Tick: a quote lookup is an oracle per (user, tickers) call, and the ten-second `setInterval` timer is left out. One tick is one call.
- PricePoller.TickIsolation: isolation covers only lookups that fail by throwing. The loop awaits each user's lookup in turn with no timeout, so a slow or never-settling lookup delays or blocks every later user in that tick. `setInterval` does not wait for its async callback, so ticks can overlap and interleave their emissions. A rejected `findMany` is outside the `try` and becomes an unhandled rejection rather than a quiet empty tick; what that does to the process depends on the Node version.
- MarketData.QuoteForPiece: the price provider is an oracle per normalised symbol, so a repeated symbol gets the same answer both times.
- QuoteCache.ApplyPriceUpdate: the cache's staleness record only grows, so a patch leaves staleness unchanged. In react-query, `setQueryData` also marks the patched query fresh and clears an earlier invalidation. Nothing in this model invalidates quote keys, so the difference cannot be observed here.
- QuoteCache.PatchList: a cached quote holds the four fields the client type declares. The market-data reply also carries `previousClose` and `dailyChange`, which the object spread in the patch keeps unchanged, so they are stale after a price update. Those two fields are not modelled.
- Text.Trim, Text.Upper and Text.Normalize: whitespace is the six ASCII characters that both JavaScript `trim` and Python `strip` remove (space, tab, line feed, vertical tab, form feed, carriage return). Python's `strip` also removes the separators U+001C to U+001F, and both languages remove Unicode spaces; upper-casing covers ASCII letters only. Normalize inherits the gap, and through it so do `PositionsPage.AddSubmit` and `MarketData.GetQuotes`. For example, JavaScript turns `"\u00A0aapl"` into `"AAPL"`, while the model gives `"\u00A0AAPL"`.
- Text.SortLex: JavaScript's default sort compares UTF-16 code units. The model compares code points, which is the same order inside the Basic Multilingual Plane.
- Rounding and formatting are not modelled: `round(…, 2)` in analytics and `toFixed(2)` on the page. Prices are exact reals, not floats.
- `Number(...)` parsing of form fields and request bodies is not modelled. Inputs arrive already parsed, as `real` or `Option<real>`. Non-numeric or negative ids in `PUT /:id/close` are not modelled.
- The order of positions with equal `buyDate` in a listing is not fixed by the service, and the model does not fix it either.
- Edit and delete endpoints: the page calls `PUT /positions/:id` and `DELETE /positions/:id`, but the service defines neither. Only the page side is modelled: the edit body and the invalidations.
- Position events: no server code emits `position:*` events. The client handling is modelled, but an emitter is not.
- The `useQuotes` socket connects without sending a `join`, so as written it is in no user room. The handler is modelled as if `price:update` events reach it.
- The socket.io transport, React effects scheduling, react-query refetching and its `keepPreviousData`/`staleTime` options are not modelled. Staleness is modelled; refetching is not.
- Authentication (JWT middleware, the auth routes and the client auth context) is out of scope: the caller's id is a parameter.
- The news service, the layout and theme components, and the other pages are not part of this model.
