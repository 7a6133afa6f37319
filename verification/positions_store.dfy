/** The positions service's REST routes over its `Position` table:
    `GET /` (list by status), `POST /` (create) and `PUT /:id/close`.
    The table is a map from id to record; the request's clock reading is a parameter. */
module PositionsStore {
  import opened Common

  /** One row of the `Position` table. A position is open while `sellDate` is absent. */
  datatype Position = Position(
    id: nat,
    userId: nat,
    ticker: string,
    quantity: real,
    buyPrice: real,
    buyDate: int,
    sellPrice: Option<real>,
    sellDate: Option<int>)
  {
    predicate IsOpen() {
      sellDate.None?
    }
  }

  /** The open rows of a read, in read order: the poller's `where: { sellDate: null }`
      and the analytics service's `sell_date is None` filter. */
  function OpenRows(rows: seq<Position>): seq<Position>
  {
    if rows == [] then []
    else OpenRows(rows[..|rows| - 1]) + (if rows[|rows| - 1].IsOpen() then [rows[|rows| - 1]] else [])
  }

  /** Exactly the rows without a sell date are kept. */
  lemma {:induction false} OpenRowsMembership(rows: seq<Position>, p: Position)
    ensures p in OpenRows(rows) <==> p in rows && p.IsOpen()
  {
    if rows != [] {
      var init := rows[..|rows| - 1];
      OpenRowsMembership(init, p);
      assert rows == init + [rows[|rows| - 1]];
    }
  }

  /** The table and the next value of its auto-increment id. */
  datatype Store = Store(positions: map<nat, Position>, nextId: nat)

  /** Every row is stored under its own id, ids are below the counter, and a sell
      date is never recorded without a sell price. */
  predicate Valid(s: Store) {
    forall id :: id in s.positions ==>
      && s.positions[id].id == id
      && id < s.nextId
      && (s.positions[id].sellDate.Some? ==> s.positions[id].sellPrice.Some?)
  }

  function EmptyStore(): (s: Store)
    ensures Valid(s) && s.positions == map[]
  {
    Store(map[], 0)
  }

  // ---------------------------------------------------------------------------
  // GET /?status=...
  // ---------------------------------------------------------------------------

  /** `(req.query.status as string) || 'open'`: a missing or empty parameter means open. */
  function EffectiveStatus(query: Option<string>): (status: string)
    ensures query.Some? && query.value != "" ==> status == query.value
    ensures query.None? || query.value == "" ==> status == "open"
  {
    if query.None? || query.value == "" then "open" else query.value
  }

  /** `'open'` selects rows without a sell date; every other status selects rows with one. */
  predicate MatchesStatus(p: Position, status: string) {
    if status == "open" then p.sellDate.None? else p.sellDate.Some?
  }

  predicate Selected(p: Position, caller: nat, status: string) {
    p.userId == caller && MatchesStatus(p, status)
  }

  /** The selected rows with ids in `[from, nextId)`, in ascending id order. */
  function Collect(s: Store, caller: nat, status: string, from: nat): (r: seq<Position>)
    requires Valid(s)
    ensures forall i :: 0 <= i < |r| ==>
      && r[i].id in s.positions && s.positions[r[i].id] == r[i]
      && from <= r[i].id && Selected(r[i], caller, status)
    ensures forall id :: id in s.positions && from <= id && Selected(s.positions[id], caller, status)
                         ==> s.positions[id] in r
    ensures forall i, j :: 0 <= i < j < |r| ==> r[i].id < r[j].id
    decreases s.nextId - from
  {
    if from >= s.nextId then []
    else
      var rest := Collect(s, caller, status, from + 1);
      if from in s.positions && Selected(s.positions[from], caller, status)
      then [s.positions[from]] + rest
      else rest
  }

  predicate NewestFirst(s: seq<Position>) {
    forall i, j :: 0 <= i < j < |s| ==> s[i].buyDate >= s[j].buyDate
  }

  /** Places `p` before the first row bought no later than it. */
  function InsertNewestFirst(p: Position, s: seq<Position>): (r: seq<Position>)
    requires NewestFirst(s) && NoDup(s) && p !in s
    ensures NewestFirst(r) && NoDup(r)
    ensures |r| == |s| + 1
    ensures forall q :: q in r <==> q == p || q in s
  {
    if s == [] then [p]
    else if s[0].buyDate <= p.buyDate then [p] + s
    else
      var t := InsertNewestFirst(p, s[1..]);
      assert s == [s[0]] + s[1..];
      assert s[0] !in s[1..];
      forall j | 0 <= j < |t|
        ensures s[0].buyDate >= t[j].buyDate
      {
        assert t[j] in t;
        if t[j] != p {
          var k :| 0 <= k < |s[1..]| && s[1..][k] == t[j];
          assert s[k + 1] == t[j];
        }
      }
      [s[0]] + t
  }

  /** `orderBy: { buyDate: 'desc' }`. */
  function SortNewestFirst(s: seq<Position>): (r: seq<Position>)
    requires NoDup(s)
    ensures NewestFirst(r) && NoDup(r)
    ensures |r| == |s|
    ensures forall q :: q in r <==> q in s
  {
    if s == [] then []
    else
      assert s == [s[0]] + s[1..];
      InsertNewestFirst(s[0], SortNewestFirst(s[1..]))
  }

  /** `GET /`: the caller's positions with the requested status, newest purchase first. */
  function List(s: Store, caller: nat, query: Option<string>): (r: seq<Position>)
    requires Valid(s)
    ensures forall p :: p in r <==>
      p.id in s.positions && s.positions[p.id] == p && Selected(p, caller, EffectiveStatus(query))
    ensures NewestFirst(r)
    ensures forall i, j :: 0 <= i < j < |r| ==> r[i].id != r[j].id
  {
    var c := Collect(s, caller, EffectiveStatus(query), 0);
    assert NoDup(c);
    SortNewestFirst(c)
  }

  // ---------------------------------------------------------------------------
  // POST /
  // ---------------------------------------------------------------------------

  /** The request body of `POST /` after JSON parsing; an absent field is `None`. */
  datatype CreateBody = CreateBody(ticker: Option<string>, quantity: Option<real>, buyPrice: Option<real>)

  /** JavaScript truthiness of a string field. */
  predicate TruthyString(o: Option<string>) {
    o.Some? && o.value != ""
  }

  /** JavaScript truthiness of a numeric field: `0` and absence are falsy. */
  predicate TruthyNumber(o: Option<real>) {
    o.Some? && o.value != 0.0
  }

  const CreateError := "ticker, quantity and buyPrice are required"

  /** 400 with a message, or 201 with the stored row and the updated table. */
  datatype CreateResult = CreateBadRequest(error: string) | Created(position: Position, store: Store)

  /** `POST /`. The ticker is stored exactly as sent; the server does not normalise it. */
  function Create(s: Store, caller: nat, body: CreateBody, now: int): (r: CreateResult)
    requires Valid(s)
    ensures r.CreateBadRequest? <==>
      !(TruthyString(body.ticker) && TruthyNumber(body.quantity) && TruthyNumber(body.buyPrice))
    ensures r.CreateBadRequest? ==> r.error == CreateError
    ensures r.Created? ==>
      && r.position.userId == caller
      && r.position.IsOpen() && r.position.sellPrice.None?
      && r.position.ticker == body.ticker.value
      && r.position.quantity == body.quantity.value
      && r.position.buyPrice == body.buyPrice.value
      && r.position.buyDate == now
      && r.position.id !in s.positions
      && r.store.positions == s.positions[r.position.id := r.position]
      && Valid(r.store)
  {
    if !TruthyString(body.ticker) || !TruthyNumber(body.quantity) || !TruthyNumber(body.buyPrice) then
      CreateBadRequest(CreateError)
    else
      var p := Position(s.nextId, caller, body.ticker.value, body.quantity.value,
                        body.buyPrice.value, now, None, None);
      Created(p, Store(s.positions[s.nextId := p], s.nextId + 1))
  }

  // ---------------------------------------------------------------------------
  // PUT /:id/close
  // ---------------------------------------------------------------------------

  const SellPriceError := "sellPrice is required"
  const NotFoundError := "Position not found or already closed"

  /** 400, 404, or 200 with the updated row and table. */
  datatype CloseResult =
    | CloseBadRequest(error: string)
    | CloseNotFound(error: string)
    | Closed(position: Position, store: Store)

  /** The caller owns an open position under `id`. */
  predicate Closable(s: Store, caller: nat, id: nat) {
    id in s.positions && s.positions[id].userId == caller && s.positions[id].IsOpen()
  }

  /** `PUT /:id/close`: the sell price is checked before the row is looked up. */
  function Close(s: Store, caller: nat, id: nat, sellPrice: Option<real>, now: int): (r: CloseResult)
    requires Valid(s)
    ensures r.CloseBadRequest? <==> !TruthyNumber(sellPrice)
    ensures r.CloseBadRequest? ==> r.error == SellPriceError
    ensures r.CloseNotFound? <==> TruthyNumber(sellPrice) && !Closable(s, caller, id)
    ensures r.CloseNotFound? ==> r.error == NotFoundError
    ensures r.Closed? ==>
      && id in s.positions
      && r.position == s.positions[id].(sellPrice := sellPrice, sellDate := Some(now))
      && r.store == Store(s.positions[id := r.position], s.nextId)
      && Valid(r.store)
  {
    if !TruthyNumber(sellPrice) then CloseBadRequest(SellPriceError)
    else if !Closable(s, caller, id) then CloseNotFound(NotFoundError)
    else
      var p := s.positions[id].(sellPrice := sellPrice, sellDate := Some(now));
      Closed(p, Store(s.positions[id := p], s.nextId))
  }

  /** Closing the same position twice: the second request is always a 404. */
  lemma CloseTwiceFails(s: Store, caller: nat, id: nat, sellPrice: Option<real>, now: int,
                        sellPrice2: Option<real>, now2: int)
    requires Valid(s)
    requires Close(s, caller, id, sellPrice, now).Closed?
    ensures TruthyNumber(sellPrice2) ==>
      Close(Close(s, caller, id, sellPrice, now).store, caller, id, sellPrice2, now2).CloseNotFound?
  {
  }

  /** A successful close moves exactly that position from the caller's open
      listing to the closed listing. */
  lemma CloseMovesPosition(s: Store, caller: nat, id: nat, sellPrice: Option<real>, now: int)
    requires Valid(s)
    requires Close(s, caller, id, sellPrice, now).Closed?
    ensures var r := Close(s, caller, id, sellPrice, now);
      && s.positions[id] in List(s, caller, Some("open"))
      && s.positions[id] !in List(r.store, caller, Some("open"))
      && r.position !in List(s, caller, Some("closed"))
      && r.position in List(r.store, caller, Some("closed"))
  {
    var r := Close(s, caller, id, sellPrice, now);
    assert s.positions[id] in List(s, caller, Some("open"));
    assert r.position in List(r.store, caller, Some("closed"));
  }

  /** Overwriting row `id` with a closed record takes it out of every open listing. */
  lemma OpenListingWithout(s: Store, s': Store, caller: nat, id: nat, x: Position)
    requires Valid(s) && Valid(s')
    requires s'.positions == s.positions[id := x] && !x.IsOpen()
    ensures forall p :: p in List(s', caller, Some("open")) <==>
                        p in List(s, caller, Some("open")) && p.id != id
  {
    assert EffectiveStatus(Some("open")) == "open";
    forall p
      ensures p in List(s', caller, Some("open")) <==> p in List(s, caller, Some("open")) && p.id != id
    {
      if p.id != id {
        assert p.id in s'.positions <==> p.id in s.positions;
        assert p.id in s.positions ==> s'.positions[p.id] == s.positions[p.id];
      }
    }
  }

  /** After a successful close the caller's open listing is the old one without that position. */
  lemma CloseShrinksOpenListing(s: Store, caller: nat, id: nat, sellPrice: Option<real>, now: int)
    requires Valid(s)
    requires Close(s, caller, id, sellPrice, now).Closed?
    ensures var r := Close(s, caller, id, sellPrice, now);
      forall p :: p in List(r.store, caller, Some("open")) <==>
                  p in List(s, caller, Some("open")) && p.id != id
  {
    var r := Close(s, caller, id, sellPrice, now);
    OpenListingWithout(s, r.store, caller, id, r.position);
  }

  /** Overwriting an open row `id` of the caller with a closed record of the
      caller adds exactly that record to the caller's closed listing. */
  lemma ClosedListingWith(s: Store, s': Store, caller: nat, id: nat, x: Position)
    requires Valid(s) && Valid(s')
    requires id in s.positions && s.positions[id].IsOpen()
    requires s'.positions == s.positions[id := x] && x.id == id && x.userId == caller && !x.IsOpen()
    ensures forall p :: p in List(s', caller, Some("closed")) <==>
                        p in List(s, caller, Some("closed")) || p == x
  {
    assert EffectiveStatus(Some("closed")) == "closed";
    forall p
      ensures p in List(s', caller, Some("closed")) <==> p in List(s, caller, Some("closed")) || p == x
    {
      if p.id != id {
        assert p.id in s'.positions <==> p.id in s.positions;
        assert p.id in s.positions ==> s'.positions[p.id] == s.positions[p.id];
      }
    }
  }

  /** After a successful close the caller's closed listing is the old one plus the closed record. */
  lemma CloseGrowsClosedListing(s: Store, caller: nat, id: nat, sellPrice: Option<real>, now: int)
    requires Valid(s)
    requires Close(s, caller, id, sellPrice, now).Closed?
    ensures var r := Close(s, caller, id, sellPrice, now);
      forall p :: p in List(r.store, caller, Some("closed")) <==>
                  p in List(s, caller, Some("closed")) || p == r.position
  {
    var r := Close(s, caller, id, sellPrice, now);
    ClosedListingWith(s, r.store, caller, id, r.position);
  }

  /** A close by one user leaves every other user's listings unchanged. */
  lemma CloseIsolatesUsers(s: Store, caller: nat, id: nat, sellPrice: Option<real>, now: int,
                           other: nat, q: Option<string>)
    requires Valid(s)
    requires Close(s, caller, id, sellPrice, now).Closed?
    requires other != caller
    ensures List(Close(s, caller, id, sellPrice, now).store, other, q) == List(s, other, q)
  {
    ListDependsOnSelectedRows(s, Close(s, caller, id, sellPrice, now).store, other, q);
  }

  /** Listings depend only on the rows they select. */
  lemma ListDependsOnSelectedRows(s: Store, s': Store, caller: nat, q: Option<string>)
    requires Valid(s) && Valid(s')
    requires s.nextId == s'.nextId
    requires forall id :: id in s.positions && Selected(s.positions[id], caller, EffectiveStatus(q))
                          ==> id in s'.positions && s'.positions[id] == s.positions[id]
    requires forall id :: id in s'.positions && Selected(s'.positions[id], caller, EffectiveStatus(q))
                          ==> id in s.positions && s.positions[id] == s'.positions[id]
    ensures List(s', caller, q) == List(s, caller, q)
  {
    CollectDependsOnSelectedRows(s, s', caller, EffectiveStatus(q), 0);
  }

  lemma {:induction false} CollectDependsOnSelectedRows(s: Store, s': Store, caller: nat, status: string, from: nat)
    requires Valid(s) && Valid(s')
    requires s.nextId == s'.nextId
    requires forall id :: id in s.positions && Selected(s.positions[id], caller, status)
                          ==> id in s'.positions && s'.positions[id] == s.positions[id]
    requires forall id :: id in s'.positions && Selected(s'.positions[id], caller, status)
                          ==> id in s.positions && s.positions[id] == s'.positions[id]
    ensures Collect(s', caller, status, from) == Collect(s, caller, status, from)
    decreases s.nextId - from
  {
    if from < s.nextId {
      CollectDependsOnSelectedRows(s, s', caller, status, from + 1);
    }
  }

  /** Creating a position adds it to the caller's open listing and to nothing else. */
  lemma CreateAddsToOpenListing(s: Store, caller: nat, body: CreateBody, now: int)
    requires Valid(s)
    requires Create(s, caller, body, now).Created?
    ensures var r := Create(s, caller, body, now);
      forall p :: p in List(r.store, caller, Some("open")) <==>
                  p in List(s, caller, Some("open")) || p == r.position
  {
  }

  /** Creating a position leaves the caller's closed listing unchanged. */
  lemma CreateKeepsClosedListing(s: Store, caller: nat, body: CreateBody, now: int)
    requires Valid(s)
    requires Create(s, caller, body, now).Created?
    ensures List(Create(s, caller, body, now).store, caller, Some("closed")) == List(s, caller, Some("closed"))
  {
    var r := Create(s, caller, body, now);
    var s1 := Store(s.positions, r.store.nextId);
    CollectBeyondTable(s, s1, caller, "closed", 0);
    ListDependsOnSelectedRows(s1, r.store, caller, Some("closed"));
  }

  /** Creating a position leaves every other user's listings unchanged. */
  lemma CreateIsolatesUsers(s: Store, caller: nat, body: CreateBody, now: int,
                            other: nat, q: Option<string>)
    requires Valid(s)
    requires Create(s, caller, body, now).Created?
    requires other != caller
    ensures List(Create(s, caller, body, now).store, other, q) == List(s, other, q)
  {
    var r := Create(s, caller, body, now);
    var s1 := Store(s.positions, r.store.nextId);
    CollectBeyondTable(s, s1, other, EffectiveStatus(q), 0);
    ListDependsOnSelectedRows(s1, r.store, other, q);
  }

  /** Raising the id counter past every row does not change what is collected. */
  lemma {:induction false} CollectBeyondTable(s: Store, s1: Store, caller: nat, status: string, from: nat)
    requires Valid(s) && Valid(s1)
    requires s1.positions == s.positions && s.nextId <= s1.nextId
    ensures Collect(s1, caller, status, from) == Collect(s, caller, status, from)
    decreases s1.nextId - from
  {
    if from < s1.nextId {
      CollectBeyondTable(s, s1, caller, status, from + 1);
      if from >= s.nextId {
        assert from !in s.positions;
      }
    }
  }
}
