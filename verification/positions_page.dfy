/** The positions page's pure rules: per-row price selection and P/L, the totals
    row, sign colouring, the add form's ticker normalisation, the edit request
    body, and which query keys each mutation invalidates on success. */
module PositionsPage {
  import opened Common
  import opened Text
  import opened QueryClient
  import opened PositionsStore

  datatype Tab = OpenTab | ClosedTab

  /** The `status` value a tab requests and uses in its query key. */
  function TabName(tab: Tab): string {
    match tab
    case OpenTab => "open"
    case ClosedTab => "closed"
  }

  /** `['positions', tab]`. */
  function PositionsKey(tab: Tab): QueryKey {
    ["positions", TabName(tab)]
  }

  // ---------------------------------------------------------------------------
  // Quote lookup
  // ---------------------------------------------------------------------------

  /** `quotesArray.forEach(q => { m[q.symbol] = q; })`. */
  function QuotesMap(quotes: seq<RemoteQuote>): (m: map<string, RemoteQuote>)
    ensures forall i :: 0 <= i < |quotes| ==> quotes[i].symbol in m
  {
    if quotes == [] then map[]
    else QuotesMap(quotes[..|quotes| - 1])[quotes[|quotes| - 1].symbol := quotes[|quotes| - 1]]
  }

  /** The map holds only symbols that were quoted, and for each the quote listed
      last: a later quote for the same symbol overwrites an earlier one. */
  lemma {:induction false} QuotesMapLastWins(quotes: seq<RemoteQuote>, s: string)
    ensures s in QuotesMap(quotes) ==> exists i :: 0 <= i < |quotes| && quotes[i].symbol == s
    ensures forall k :: 0 <= k < |quotes| && quotes[k].symbol == s
                        && (forall j :: k < j < |quotes| ==> quotes[j].symbol != s)
                        ==> QuotesMap(quotes)[s] == quotes[k]
  {
    if quotes != [] {
      var init := quotes[..|quotes| - 1];
      QuotesMapLastWins(init, s);
      assert forall i :: 0 <= i < |init| ==> quotes[i] == init[i];
    }
  }

  // ---------------------------------------------------------------------------
  // Per-row valuation
  // ---------------------------------------------------------------------------

  /** Rows the page can price: an unquoted open row falls back to
      `cost / quantity`, which the page does not guard against a zero quantity. */
  predicate Priceable(tab: Tab, p: Position, quotes: map<string, RemoteQuote>) {
    tab.OpenTab? && p.ticker !in quotes ==> p.quantity != 0.0
  }

  /** Open tab: the quote's price, else `cost / quantity`. Closed tab: the sell
      price, else the buy price. */
  function RowPrice(tab: Tab, p: Position, quotes: map<string, RemoteQuote>): (price: real)
    requires Priceable(tab, p, quotes)
    ensures tab.OpenTab? && p.ticker in quotes ==> price == quotes[p.ticker].currentPrice
    ensures tab.OpenTab? && p.ticker !in quotes ==> price == p.buyPrice
    ensures tab.ClosedTab? ==> price == p.sellPrice.GetOr(p.buyPrice)
  {
    var cost := p.buyPrice * p.quantity;
    match tab
    case OpenTab => if p.ticker in quotes then quotes[p.ticker].currentPrice else cost / p.quantity
    case ClosedTab => p.sellPrice.GetOr(p.buyPrice)
  }

  /** `value ? (profit / value) * 100 : 0`: a percentage of a non-zero base, else 0. */
  function Pct(profit: real, base: real): (pct: real)
    ensures base != 0.0 ==> pct * base == profit * 100.0
    ensures base == 0.0 ==> pct == 0.0
  {
    if base != 0.0 then profit * 100.0 / base else 0.0
  }

  datatype Valuation = Valuation(cost: real, price: real, profit: real, pct: real)

  /** The cells of one table row. */
  function RowValuation(tab: Tab, p: Position, quotes: map<string, RemoteQuote>): (v: Valuation)
    requires Priceable(tab, p, quotes)
    ensures v.cost == p.buyPrice * p.quantity
    ensures v.price == RowPrice(tab, p, quotes)
    ensures v.profit + v.cost == v.price * p.quantity
    ensures v.cost != 0.0 ==> v.pct * v.cost == v.profit * 100.0
    ensures v.cost == 0.0 ==> v.pct == 0.0
  {
    var cost := p.buyPrice * p.quantity;
    var price := RowPrice(tab, p, quotes);
    var profit := price * p.quantity - cost;
    Valuation(cost, price, profit, Pct(profit, cost))
  }

  /** Before the first quote arrives an open row shows zero P/L, not an error. */
  lemma NoQuoteMeansZeroProfit(p: Position, quotes: map<string, RemoteQuote>)
    requires p.quantity != 0.0
    requires p.ticker !in quotes
    ensures RowValuation(OpenTab, p, quotes).profit == 0.0
    ensures RowValuation(OpenTab, p, quotes).pct == 0.0
  {
  }

  /** A quoted open row with zero quantity shows zero cost, zero P/L and 0%:
      the percentage is guarded by `cost ? … : 0`. */
  lemma QuotedZeroQuantityRow(p: Position, quotes: map<string, RemoteQuote>)
    requires p.quantity == 0.0 && p.ticker in quotes
    ensures var v := RowValuation(OpenTab, p, quotes);
      v.cost == 0.0 && v.profit == 0.0 && v.pct == 0.0
  {
  }

  /** The server rejects a numeric zero quantity, so a row created from an already-parsed
      body can be priced on either tab. (A string "0" passes the route's truthiness check;
      bodies are not modelled as strings.) */
  lemma CreatedRowIsPriceable(s: Store, caller: nat, body: CreateBody, now: int,
                              tab: Tab, quotes: map<string, RemoteQuote>)
    requires Valid(s)
    requires Create(s, caller, body, now).Created?
    ensures Priceable(tab, Create(s, caller, body, now).position, quotes)
  {
  }

  /** A closed row's P/L is realised: (sell − buy) × quantity. */
  lemma ClosedRowProfitIsRealised(p: Position, quotes: map<string, RemoteQuote>)
    requires p.sellPrice.Some?
    ensures RowValuation(ClosedTab, p, quotes).profit == (p.sellPrice.value - p.buyPrice) * p.quantity
  {
  }

  // ---------------------------------------------------------------------------
  // Totals
  // ---------------------------------------------------------------------------

  predicate AllPriceable(tab: Tab, ps: seq<Position>, quotes: map<string, RemoteQuote>) {
    forall i :: 0 <= i < |ps| ==> Priceable(tab, ps[i], quotes)
  }

  /** Reference: the sum of the row costs shown in the table. */
  function SumCost(tab: Tab, ps: seq<Position>, quotes: map<string, RemoteQuote>): real
    requires AllPriceable(tab, ps, quotes)
  {
    if ps == [] then 0.0
    else SumCost(tab, ps[..|ps| - 1], quotes) + RowValuation(tab, ps[|ps| - 1], quotes).cost
  }

  /** Reference: the sum of the row profits shown in the table. */
  function SumProfit(tab: Tab, ps: seq<Position>, quotes: map<string, RemoteQuote>): real
    requires AllPriceable(tab, ps, quotes)
  {
    if ps == [] then 0.0
    else SumProfit(tab, ps[..|ps| - 1], quotes) + RowValuation(tab, ps[|ps| - 1], quotes).profit
  }

  lemma SumsStep(tab: Tab, ps: seq<Position>, quotes: map<string, RemoteQuote>, i: nat)
    requires i < |ps| && AllPriceable(tab, ps, quotes)
    ensures SumCost(tab, ps[..i + 1], quotes) == SumCost(tab, ps[..i], quotes) + RowValuation(tab, ps[i], quotes).cost
    ensures SumProfit(tab, ps[..i + 1], quotes) == SumProfit(tab, ps[..i], quotes) + RowValuation(tab, ps[i], quotes).profit
  {
    assert ps[..i + 1][..i] == ps[..i];
  }

  /** The accumulation loop of the totals `useMemo`: it agrees with the row cells. */
  method SumRows(tab: Tab, ps: seq<Position>, quotes: map<string, RemoteQuote>)
    returns (invested: real, profit: real)
    requires AllPriceable(tab, ps, quotes)
    ensures invested == SumCost(tab, ps, quotes)
    ensures profit == SumProfit(tab, ps, quotes)
  {
    invested, profit := 0.0, 0.0;
    var i := 0;
    while i < |ps|
      invariant 0 <= i <= |ps|
      invariant invested == SumCost(tab, ps[..i], quotes)
      invariant profit == SumProfit(tab, ps[..i], quotes)
    {
      var row := RowValuation(tab, ps[i], quotes);
      invested := invested + row.cost;
      profit := profit + row.profit;
      SumsStep(tab, ps, quotes, i);
      i := i + 1;
    }
    assert ps[..i] == ps;
  }

  /** The totals row: the total percentage comes from the sums, not from the
      row percentages. */
  method Totals(tab: Tab, ps: seq<Position>, quotes: map<string, RemoteQuote>)
    returns (invested: real, profit: real, pct: real)
    requires AllPriceable(tab, ps, quotes)
    ensures invested == SumCost(tab, ps, quotes)
    ensures profit == SumProfit(tab, ps, quotes)
    ensures pct == Pct(profit, invested)
  {
    invested, profit := SumRows(tab, ps, quotes);
    pct := Pct(profit, invested);
  }

  /** The example of a 1000-invested row at +200 and a 500-invested row at −100:
      the total is +100 on 1500, about 6.67%, while the rows' own percentages
      (+20% and −20%) average to 0%. */
  lemma TotalPctIsNotRowAverage()
    ensures var a := Position(1, 1, "A", 10.0, 100.0, 0, Some(120.0), Some(1));
            var b := Position(2, 1, "B", 10.0, 50.0, 0, Some(40.0), Some(1));
            var rows := [a, b];
            var va := RowValuation(ClosedTab, a, map[]);
            var vb := RowValuation(ClosedTab, b, map[]);
      && SumCost(ClosedTab, rows, map[]) == 1500.0
      && SumProfit(ClosedTab, rows, map[]) == 100.0
      && Pct(SumProfit(ClosedTab, rows, map[]), SumCost(ClosedTab, rows, map[])) == 20.0 / 3.0
      && (va.pct + vb.pct) / 2.0 == 0.0
  {
    var a := Position(1, 1, "A", 10.0, 100.0, 0, Some(120.0), Some(1));
    var b := Position(2, 1, "B", 10.0, 50.0, 0, Some(40.0), Some(1));
    var va := RowValuation(ClosedTab, a, map[]);
    var vb := RowValuation(ClosedTab, b, map[]);
    assert va.cost == 1000.0 && va.profit == 200.0;
    assert vb.cost == 500.0 && vb.profit == -100.0;
    assert [a, b][..1] == [a];
    assert [a][..0] == [];
    assert SumCost(ClosedTab, [a], map[]) == 1000.0;
    assert SumProfit(ClosedTab, [a], map[]) == 200.0;
  }

  // ---------------------------------------------------------------------------
  // Sign colouring
  // ---------------------------------------------------------------------------

  datatype Color = Positive | Negative | Zero

  /** `POSITIVE_COLOR`, `NEGATIVE_COLOR`, `ZERO_COLOR`. */
  function ColorHex(c: Color): string {
    match c
    case Positive => "#10b42c"
    case Negative => "#f83c44"
    case Zero => "#000000"
  }

  /** Each value gets exactly one colour, by its sign. */
  function SignColor(v: real): (c: Color)
    ensures c == Positive <==> v > 0.0
    ensures c == Negative <==> v < 0.0
    ensures c == Zero <==> v == 0.0
  {
    if v > 0.0 then Positive else if v < 0.0 then Negative else Zero
  }

  // ---------------------------------------------------------------------------
  // Forms and mutations
  // ---------------------------------------------------------------------------

  const TickerRequired := "Ticker is required"

  /** The add form's outcome: an inline error and no request, or the create request. */
  datatype AddOutcome = AddRejected(tickerError: string) | AddSubmitted(body: CreateBody)

  /** `onAddSubmit` with the quantity and price fields already converted by `Number`. */
  function AddSubmit(rawTicker: string, quantity: real, buyPrice: real): (r: AddOutcome)
    ensures r.AddRejected? <==> forall k :: 0 <= k < |rawTicker| ==> IsSpace(rawTicker[k])
    ensures r.AddRejected? ==> r.tickerError == TickerRequired
    ensures r.AddSubmitted? ==>
      && r.body.ticker == Some(Normalize(rawTicker))
      && r.body.quantity == Some(quantity)
      && r.body.buyPrice == Some(buyPrice)
  {
    var sym := Normalize(rawTicker);
    if sym == "" then AddRejected(TickerRequired)
    else AddSubmitted(CreateBody(Some(sym), Some(quantity), Some(buyPrice)))
  }

  /** A submitted add always passes the server's ticker check and stores a
      normalised ticker; the server then rejects it exactly when the quantity or
      the price is zero. */
  lemma AddSubmitThenCreate(s: Store, caller: nat, rawTicker: string, quantity: real, buyPrice: real, now: int)
    requires Valid(s)
    requires AddSubmit(rawTicker, quantity, buyPrice).AddSubmitted?
    ensures var r := Create(s, caller, AddSubmit(rawTicker, quantity, buyPrice).body, now);
      && (r.CreateBadRequest? <==> quantity == 0.0 || buyPrice == 0.0)
      && (r.Created? ==> Normalize(r.position.ticker) == r.position.ticker)
  {
    NormalizeIdempotent(rawTicker);
  }

  /** The variables `onEditSubmit` passes: a sell price only on the closed tab. */
  datatype EditVars = EditVars(id: nat, quantity: real, buyPrice: real, sellPrice: Option<real>)

  function EditSubmit(tab: Tab, id: nat, quantity: real, buyPrice: real, sellPrice: real): (v: EditVars)
    ensures v.id == id && v.quantity == quantity && v.buyPrice == buyPrice
    ensures v.sellPrice.Some? <==> tab.ClosedTab?
    ensures v.sellPrice.Some? ==> v.sellPrice.value == sellPrice
  {
    EditVars(id, quantity, buyPrice, if tab.ClosedTab? then Some(sellPrice) else None)
  }

  /** The `PUT /positions/:id` body. */
  datatype EditBody = EditBody(quantity: real, buyPrice: real, sellPrice: Option<real>)

  function EditRequestBody(tab: Tab, vars: EditVars): (b: EditBody)
    ensures b.quantity == vars.quantity && b.buyPrice == vars.buyPrice
    ensures b.sellPrice.Some? <==> tab.ClosedTab? && vars.sellPrice.Some?
    ensures b.sellPrice.Some? ==> b.sellPrice == vars.sellPrice
  {
    EditBody(vars.quantity, vars.buyPrice,
             if tab.ClosedTab? && vars.sellPrice.Some? then vars.sellPrice else None)
  }

  /** From the edit form to the request: quantity and buy price go through, and a
      sell price is sent exactly on the closed tab. */
  lemma EditSubmitThenBody(tab: Tab, id: nat, quantity: real, buyPrice: real, sellPrice: real)
    ensures var b := EditRequestBody(tab, EditSubmit(tab, id, quantity, buyPrice, sellPrice));
      && b.quantity == quantity && b.buyPrice == buyPrice
      && b.sellPrice == (if tab.ClosedTab? then Some(sellPrice) else None)
  {
  }

  datatype Mutation = AddMutation | CloseMutation | EditMutation | DeleteMutation

  /** The keys each mutation's `onSuccess` invalidates, given the tab on screen. */
  function Invalidations(m: Mutation, tab: Tab): (keys: set<QueryKey>)
    ensures m.AddMutation? ==> keys == {PositionsKey(OpenTab)}
    ensures m.CloseMutation? ==> keys == {PositionsKey(OpenTab), PositionsKey(ClosedTab)}
    ensures m.EditMutation? || m.DeleteMutation? ==> keys == {PositionsKey(tab)}
  {
    match m
    case AddMutation => {PositionsKey(OpenTab)}
    case CloseMutation => {PositionsKey(OpenTab), PositionsKey(ClosedTab)}
    case EditMutation => {PositionsKey(tab)}
    case DeleteMutation => {PositionsKey(tab)}
  }

  /** Applying a mutation's invalidations to the cache. */
  function OnSuccess(c: Cache, m: Mutation, tab: Tab): (r: Cache)
    ensures r.quotes == c.quotes
    ensures forall key :: IsStale(r, key) <==>
      IsStale(c, key) || exists f :: f in Invalidations(m, tab) && IsPrefix(f, key)
  {
    match m
    case AddMutation => Invalidate(c, PositionsKey(OpenTab))
    case CloseMutation => Invalidate(Invalidate(c, PositionsKey(OpenTab)), PositionsKey(ClosedTab))
    case EditMutation => Invalidate(c, PositionsKey(tab))
    case DeleteMutation => Invalidate(c, PositionsKey(tab))
  }

  /** After a successful add, every tab whose listing the create changed is stale. */
  lemma AddRefreshesChangedTabs(s: Store, caller: nat, body: CreateBody, now: int, c: Cache, tab: Tab, t: Tab)
    requires Valid(s)
    requires Create(s, caller, body, now).Created?
    ensures List(Create(s, caller, body, now).store, caller, Some(TabName(t))) != List(s, caller, Some(TabName(t)))
            ==> IsStale(OnSuccess(c, AddMutation, tab), PositionsKey(t))
  {
    CreateKeepsClosedListing(s, caller, body, now);
  }

  /** Every key a mutation names is stale after its `onSuccess`. */
  lemma InvalidatedKeysStale(c: Cache, m: Mutation, tab: Tab, t: Tab)
    requires PositionsKey(t) in Invalidations(m, tab)
    ensures IsStale(OnSuccess(c, m, tab), PositionsKey(t))
  {
    assert IsPrefix(PositionsKey(t), PositionsKey(t));
  }

  /** No mutation marks a quote key stale: the price table is left to the socket. */
  lemma MutationLeavesQuoteKeys(c: Cache, m: Mutation, tab: Tab, symbolsKey: string)
    ensures IsStale(OnSuccess(c, m, tab), ["quotes", symbolsKey]) <==> IsStale(c, ["quotes", symbolsKey])
  {
    var key: QueryKey := ["quotes", symbolsKey];
    forall f | f in Invalidations(m, tab)
      ensures !IsPrefix(f, key)
    {
      assert f[0] == "positions";
      assert "quotes"[0] != "positions"[0];
    }
  }

  /** After a successful close, every tab whose listing the close changed is stale. */
  lemma CloseRefreshesChangedTabs(s: Store, caller: nat, id: nat, sellPrice: Option<real>, now: int,
                                  c: Cache, tab: Tab, t: Tab)
    requires Valid(s)
    requires Close(s, caller, id, sellPrice, now).Closed?
    ensures List(Close(s, caller, id, sellPrice, now).store, caller, Some(TabName(t))) != List(s, caller, Some(TabName(t)))
            ==> IsStale(OnSuccess(c, CloseMutation, tab), PositionsKey(t))
  {
    assert PositionsKey(t) in Invalidations(CloseMutation, tab);
    InvalidatedKeysStale(c, CloseMutation, tab, t);
  }
}
