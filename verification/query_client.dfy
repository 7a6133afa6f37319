/** The client's query cache, reduced to what the hooks and the page do with it:
    quote lists stored under array keys, and invalidation by key prefix.
    Invalidation is recorded as the set of filters issued; a key is stale when
    some issued filter is a prefix of it. Refetching is not modelled. */
module QueryClient {

  /** A query key such as `['quotes', 'AAPL,MSFT']` or `['positions', 'open']`. */
  type QueryKey = seq<string>

  /** The quote record the market-data endpoint returns to the client. */
  datatype RemoteQuote = RemoteQuote(symbol: string, currentPrice: real, dailyChangePercent: real, logoUrl: string)

  datatype Cache = Cache(quotes: map<QueryKey, seq<RemoteQuote>>, invalidated: set<QueryKey>)

  predicate IsPrefix(filter: QueryKey, key: QueryKey) {
    |filter| <= |key| && key[..|filter|] == filter
  }

  /** Whether `key` has been marked stale by some prefix filter. */
  predicate IsStale(c: Cache, key: QueryKey) {
    exists f :: f in c.invalidated && IsPrefix(f, key)
  }

  /** `queryClient.invalidateQueries(filter)`: every key under `filter` becomes stale;
      cached data is not touched. */
  function Invalidate(c: Cache, filter: QueryKey): (r: Cache)
    ensures r.quotes == c.quotes
    ensures forall key :: IsStale(r, key) <==> IsStale(c, key) || IsPrefix(filter, key)
  {
    var r := c.(invalidated := c.invalidated + {filter});
    assert forall key :: IsPrefix(filter, key) ==> IsStale(r, key);
    r
  }
}
