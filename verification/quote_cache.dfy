/** The `useQuotes` hook: the quotes query's key and options, and the
    `price:update` handler that patches the cached quote list in place. */
module QuoteCache {
  import opened Common
  import opened Text
  import opened Channel
  import opened QueryClient

  /** `[...symbols].sort().join(',')`: the symbols in code-point order (UTF-16
      code-unit order inside the Basic Multilingual Plane), comma-joined. */
  function SortedKey(symbols: seq<string>): string {
    Join(SortLex(symbols), ',')
  }

  /** The cache key ignores the order (and is the same for any permutation) of the symbols. */
  lemma SortedKeyPermutationInvariant(a: seq<string>, b: seq<string>)
    requires multiset(a) == multiset(b)
    ensures SortedKey(a) == SortedKey(b)
  {
    SortedLexUnique(SortLex(a), SortLex(b));
  }

  /** The key names exactly the symbols: when no symbol contains a comma, splitting
      the sorted key gives back the symbols, as a permutation. */
  lemma SortedKeyRecoversSymbols(symbols: seq<string>)
    requires |symbols| > 0
    requires forall i :: 0 <= i < |symbols| ==> ',' !in symbols[i]
    ensures multiset(Split(SortedKey(symbols), ',')) == multiset(symbols)
  {
    var sorted := SortLex(symbols);
    assert |sorted| == |multiset(sorted)| == |symbols|;
    forall i | 0 <= i < |sorted|
      ensures ',' !in sorted[i]
    {
      assert sorted[i] in multiset(symbols);
    }
    SplitJoin(sorted, ',');
  }

  /** What `useQuery` is given: the cache key, whether the fetch is enabled, and the
      `symbols` request parameter (joined in the caller's order, not sorted). */
  datatype QuoteQuery = QuoteQuery(key: QueryKey, enabled: bool, symbolsParam: string)

  function QuotesKey(symbols: seq<string>): QueryKey {
    ["quotes", SortedKey(symbols)]
  }

  function QuoteQueryFor(symbols: seq<string>): (q: QuoteQuery)
    ensures q.key == QuotesKey(symbols)
    ensures q.enabled <==> |symbols| > 0
    ensures q.enabled && (forall i :: 0 <= i < |symbols| ==> ',' !in symbols[i]) ==>
      Split(q.symbolsParam, ',') == symbols
  {
    SplitJoinWhenClean(symbols);
    QuoteQuery(QuotesKey(symbols), |symbols| > 0, Join(symbols, ','))
  }

  lemma SplitJoinWhenClean(symbols: seq<string>)
    ensures |symbols| > 0 && (forall i :: 0 <= i < |symbols| ==> ',' !in symbols[i]) ==>
      Split(Join(symbols, ','), ',') == symbols
  {
    if |symbols| > 0 && forall i :: 0 <= i < |symbols| ==> ',' !in symbols[i] {
      SplitJoin(symbols, ',');
    }
  }

  /** Index of the first update for `symbol`, or `|updates|` if there is none. */
  function FirstMatch(updates: seq<PriceItem>, symbol: string): (k: nat)
    ensures k <= |updates|
    ensures forall j :: 0 <= j < k ==> updates[j].symbol != symbol
    ensures k < |updates| ==> updates[k].symbol == symbol
  {
    if updates == [] then 0
    else if updates[0].symbol == symbol then 0
    else 1 + FirstMatch(updates[1..], symbol)
  }

  /** `updates.find(u => u.symbol === symbol)`: the first update for `symbol`. */
  function FindUpdate(updates: seq<PriceItem>, symbol: string): (r: Option<PriceItem>)
    ensures r.None? <==> forall i :: 0 <= i < |updates| ==> updates[i].symbol != symbol
    ensures forall k :: 0 <= k < |updates| && updates[k].symbol == symbol
                        && (forall j :: 0 <= j < k ==> updates[j].symbol != symbol)
                        ==> r == Some(updates[k])
  {
    var k := FirstMatch(updates, symbol);
    if k < |updates| then Some(updates[k]) else None
  }

  /** `{ ...q, currentPrice, dailyChangePercent }` when an update matches, else `q`. */
  function PatchQuote(q: RemoteQuote, updates: seq<PriceItem>): RemoteQuote {
    match FindUpdate(updates, q.symbol)
    case None => q
    case Some(u) => q.(currentPrice := u.currentPrice, dailyChangePercent := u.dailyChangePercent)
  }

  /** `old.map(...)`: patch each cached quote from the update batch. */
  function PatchList(cached: seq<RemoteQuote>, updates: seq<PriceItem>): (r: seq<RemoteQuote>)
    ensures |r| == |cached|
    ensures forall i :: 0 <= i < |cached| ==>
      && r[i].symbol == cached[i].symbol
      && r[i].logoUrl == cached[i].logoUrl
    ensures forall i :: 0 <= i < |cached| && (forall j :: 0 <= j < |updates| ==> updates[j].symbol != cached[i].symbol)
                        ==> r[i] == cached[i]
    ensures forall i, k :: 0 <= i < |cached| && 0 <= k < |updates| && updates[k].symbol == cached[i].symbol
                           && (forall j :: 0 <= j < k ==> updates[j].symbol != cached[i].symbol)
                           ==> r[i].currentPrice == updates[k].currentPrice
                               && r[i].dailyChangePercent == updates[k].dailyChangePercent
  {
    seq(|cached|, i requires 0 <= i < |cached| => PatchQuote(cached[i], updates))
  }

  /** Patching twice with the same batch equals patching once. */
  lemma PatchListIdempotent(cached: seq<RemoteQuote>, updates: seq<PriceItem>)
    ensures PatchList(PatchList(cached, updates), updates) == PatchList(cached, updates)
  {
    var once := PatchList(cached, updates);
    var twice := PatchList(once, updates);
    forall i | 0 <= i < |cached|
      ensures twice[i] == once[i]
    {
      assert once[i].symbol == cached[i].symbol;
      assert FindUpdate(updates, once[i].symbol) == FindUpdate(updates, cached[i].symbol);
    }
  }

  /** The `price:update` handler of a hook mounted with `symbols`:
      `setQueryData(['quotes', sortedKey], old => old && old.map(...))`. */
  function ApplyPriceUpdate(c: Cache, symbols: seq<string>, updates: seq<PriceItem>): (r: Cache)
    ensures r.invalidated == c.invalidated
    ensures r.quotes.Keys == c.quotes.Keys
    ensures forall k :: k in c.quotes && k != QuotesKey(symbols) ==> r.quotes[k] == c.quotes[k]
    ensures QuotesKey(symbols) in c.quotes ==>
      r.quotes[QuotesKey(symbols)] == PatchList(c.quotes[QuotesKey(symbols)], updates)
  {
    var key := QuotesKey(symbols);
    if key in c.quotes then c.(quotes := c.quotes[key := PatchList(c.quotes[key], updates)])
    else c
  }

  /** Handling the same `price:update` twice leaves the cache as handling it once. */
  lemma ApplyPriceUpdateIdempotent(c: Cache, symbols: seq<string>, updates: seq<PriceItem>)
    ensures ApplyPriceUpdate(ApplyPriceUpdate(c, symbols, updates), symbols, updates)
         == ApplyPriceUpdate(c, symbols, updates)
  {
    var key := QuotesKey(symbols);
    if key in c.quotes {
      PatchListIdempotent(c.quotes[key], updates);
    }
  }

  /** A patch never inserts: the patched list has the same symbols, in the same
      order, whatever symbols the updates mention. */
  lemma PatchNeverInserts(c: Cache, symbols: seq<string>, updates: seq<PriceItem>, s: string)
    requires QuotesKey(symbols) in c.quotes
    ensures var before := c.quotes[QuotesKey(symbols)];
            var after := ApplyPriceUpdate(c, symbols, updates).quotes[QuotesKey(symbols)];
      (exists i :: 0 <= i < |after| && after[i].symbol == s) <==>
      (exists i :: 0 <= i < |before| && before[i].symbol == s)
  {
    var before := c.quotes[QuotesKey(symbols)];
    var after := ApplyPriceUpdate(c, symbols, updates).quotes[QuotesKey(symbols)];
    if exists i :: 0 <= i < |after| && after[i].symbol == s {
      var i :| 0 <= i < |after| && after[i].symbol == s;
      assert before[i].symbol == s;
    }
    if exists i :: 0 <= i < |before| && before[i].symbol == s {
      var i :| 0 <= i < |before| && before[i].symbol == s;
      assert after[i].symbol == s;
    }
  }
}
