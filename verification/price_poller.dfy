/** One tick of the positions service's price poller: read the open positions,
    group their tickers per user, and for each user look up quotes and emit one
    `price:update` to that user's room. The database read and the quote provider
    are inputs; a thrown error is `None`. */
module PricePoller {
  import opened Common
  import opened Channel
  import opened PositionsStore

  /** The fields of a provider quote the poller forwards. */
  datatype ProviderQuote = ProviderQuote(symbol: string, regularMarketPrice: real, regularMarketChangePercent: real)

  /** The provider answers a batch request with a list, or with a single quote object. */
  datatype QuoteReply = Many(quotes: seq<ProviderQuote>) | One(quote: ProviderQuote)

  /** `Array.isArray(quotes) ? quotes : [quotes]`. */
  function AsList(reply: QuoteReply): (qs: seq<ProviderQuote>)
    ensures reply.One? ==> qs == [reply.quote]
    ensures reply.Many? ==> qs == reply.quotes
  {
    match reply
    case Many(qs) => qs
    case One(q) => [q]
  }

  /** The `price:update` payload: one item per returned quote, in order, with the
      provider's fields renamed. */
  function Payload(reply: QuoteReply): (items: seq<PriceItem>)
    ensures |items| == |AsList(reply)|
    ensures forall i :: 0 <= i < |items| ==>
      && items[i].symbol == AsList(reply)[i].symbol
      && items[i].currentPrice == AsList(reply)[i].regularMarketPrice
      && items[i].dailyChangePercent == AsList(reply)[i].regularMarketChangePercent
  {
    var qs := AsList(reply);
    seq(|qs|, i requires 0 <= i < |qs| =>
      PriceItem(qs[i].symbol, qs[i].regularMarketPrice, qs[i].regularMarketChangePercent))
  }

  // ---------------------------------------------------------------------------
  // Holder registry
  // ---------------------------------------------------------------------------

  /** Reference definition: the tickers of `uid`'s rows, in row order, duplicates kept. */
  function TickersOf(rows: seq<Position>, uid: nat): seq<string>
  {
    if rows == [] then []
    else TickersOf(rows[..|rows| - 1], uid)
         + (if rows[|rows| - 1].userId == uid then [rows[|rows| - 1].ticker] else [])
  }

  /** Reference definition: the first occurrence of each element, in order. */
  function Dedup(s: seq<string>): seq<string>
  {
    if s == [] then []
    else
      var d := Dedup(s[..|s| - 1]);
      if s[|s| - 1] in d then d else d + [s[|s| - 1]]
  }

  /** Position of the first occurrence of `x` in `s`. */
  function FirstIndex(s: seq<string>, x: string): (k: nat)
    requires x in s
    ensures k < |s| && s[k] == x && x !in s[..k]
  {
    if s[0] == x then 0 else 1 + FirstIndex(s[1..], x)
  }

  /** `Dedup` keeps exactly the elements of `s`, once each, in order of first occurrence. */
  lemma {:induction false} DedupSpec(s: seq<string>)
    ensures forall x :: x in Dedup(s) <==> x in s
    ensures NoDup(Dedup(s))
    ensures forall i, j :: 0 <= i < j < |Dedup(s)| ==>
      FirstIndex(s, Dedup(s)[i]) < FirstIndex(s, Dedup(s)[j])
  {
    if s != [] {
      var init := s[..|s| - 1];
      var x := s[|s| - 1];
      DedupSpec(init);
      assert s == init + [x];
      var d := Dedup(init);
      forall y | y in init
        ensures FirstIndex(s, y) == FirstIndex(init, y)
      {
        FirstIndexPrefix(init, [x], y);
      }
      if x !in d {
        assert x !in init;
        assert FirstIndex(s, x) == |init|;
        var r := d + [x];
        forall i, j | 0 <= i < j < |r|
          ensures FirstIndex(s, r[i]) < FirstIndex(s, r[j])
        {
          assert r[i] == d[i] && r[i] in init;
          if j < |d| { assert r[j] == d[j]; }
        }
      }
    }
  }

  lemma {:induction false} FirstIndexPrefix(a: seq<string>, b: seq<string>, x: string)
    requires x in a
    ensures FirstIndex(a + b, x) == FirstIndex(a, x)
  {
    if a[0] != x {
      assert (a + b)[1..] == a[1..] + b;
      FirstIndexPrefix(a[1..], b, x);
    }
  }

  /** One step of the `reduce`: append the ticker to its user's list unless already there. */
  function GroupStep(acc: map<nat, seq<string>>, row: Position): map<nat, seq<string>>
  {
    var current := if row.userId in acc then acc[row.userId] else [];
    acc[row.userId := if row.ticker in current then current else current + [row.ticker]]
  }

  /** `list.reduce(..., {})`: a per-user ticker list. */
  function GroupByUser(rows: seq<Position>): map<nat, seq<string>>
  {
    if rows == [] then map[] else GroupStep(GroupByUser(rows[..|rows| - 1]), rows[|rows| - 1])
  }

  /** The grouping holds an entry exactly for users with rows, and that entry is
      the user's tickers deduplicated in first-seen order; no other user's ticker
      leaks into it and matching is exact (no case folding). */
  lemma {:induction false} GroupByUserSpec(rows: seq<Position>)
    ensures forall uid :: uid in GroupByUser(rows) <==> TickersOf(rows, uid) != []
    ensures forall uid :: uid in GroupByUser(rows) ==>
      GroupByUser(rows)[uid] == Dedup(TickersOf(rows, uid))
  {
    if rows != [] {
      var init := rows[..|rows| - 1];
      var row := rows[|rows| - 1];
      GroupByUserSpec(init);
      var u := row.userId;
      DedupSpec(TickersOf(init, u));
      assert TickersOf(rows, u) == TickersOf(init, u) + [row.ticker];
      assert TickersOf(rows, u)[..|TickersOf(rows, u)| - 1] == TickersOf(init, u);
      forall uid | uid != u
        ensures TickersOf(rows, uid) == TickersOf(init, uid)
      {
      }
    }
  }

  /** Every open (user, ticker) pair appears in that user's group, and every grouped
      ticker belongs to one of that user's open rows. */
  lemma GroupCoversOpenPairs(rows: seq<Position>, p: Position, uid: nat, t: string)
    ensures p in rows && p.IsOpen() ==>
      p.userId in GroupByUser(OpenRows(rows)) && p.ticker in GroupByUser(OpenRows(rows))[p.userId]
    ensures uid in GroupByUser(OpenRows(rows)) && t in GroupByUser(OpenRows(rows))[uid] ==>
      exists q :: q in rows && q.IsOpen() && q.userId == uid && q.ticker == t
  {
    var open := OpenRows(rows);
    OpenRowsMembership(rows, p);
    forall q | q in open
      ensures q in rows && q.IsOpen()
    {
      OpenRowsMembership(rows, q);
    }
    GroupByUserSpec(open);
    TickersOfMembership(open, p.userId, p.ticker);
    TickersOfMembership(open, uid, t);
    DedupSpec(TickersOf(open, p.userId));
    DedupSpec(TickersOf(open, uid));
  }

  lemma {:induction false} TickersOfMembership(rows: seq<Position>, uid: nat, t: string)
    ensures t in TickersOf(rows, uid) <==> exists q :: q in rows && q.userId == uid && q.ticker == t
  {
    if rows != [] {
      var init := rows[..|rows| - 1];
      TickersOfMembership(init, uid, t);
      assert rows == init + [rows[|rows| - 1]];
    }
  }

  // ---------------------------------------------------------------------------
  // Iteration order: `Object.entries` lists integer keys in ascending order
  // ---------------------------------------------------------------------------

  predicate Ascending(s: seq<nat>) {
    forall i, j :: 0 <= i < j < |s| ==> s[i] < s[j]
  }

  function InsertUser(u: nat, s: seq<nat>): (r: seq<nat>)
    requires Ascending(s)
    ensures Ascending(r)
    ensures forall v :: v in r <==> v == u || v in s
  {
    if s == [] then [u]
    else if u < s[0] then [u] + s
    else if u == s[0] then s
    else
      var t := InsertUser(u, s[1..]);
      assert forall v :: v in s[1..] ==> s[0] < v;
      assert forall j :: 0 <= j < |t| ==> t[j] in t;
      [s[0]] + t
  }

  /** The users with rows, in ascending id order, once each. */
  function Users(rows: seq<Position>): (r: seq<nat>)
    ensures Ascending(r)
    ensures forall u :: u in r <==> TickersOf(rows, u) != []
  {
    if rows == [] then []
    else InsertUser(rows[|rows| - 1].userId, Users(rows[..|rows| - 1]))
  }

  // ---------------------------------------------------------------------------
  // The tick
  // ---------------------------------------------------------------------------

  /** The `for ... of Object.entries(byUser)` loop: each user's lookup either
      emits one `price:update` to that user's room or is caught and skipped. */
  function Broadcast(users: seq<nat>, groups: map<nat, seq<string>>,
                     lookup: (nat, seq<string>) -> Option<QuoteReply>): (r: seq<Emission>)
    requires forall u :: u in users ==> u in groups
    ensures |r| <= |users|
    ensures forall i :: 0 <= i < |r| ==> r[i].event == PriceUpdateEvent
  {
    if users == [] then []
    else
      var rest := Broadcast(users[1..], groups, lookup);
      match lookup(users[0], groups[users[0]])
      case None => rest
      case Some(reply) => [Emission(Room(users[0]), PriceUpdateEvent, Payload(reply))] + rest
  }

  /** One poll tick. `read` is the open-positions query (failure: `None`, and the
      tick emits nothing); `lookup(uid, symbols)` is that user's quote call. */
  function Tick(read: Option<seq<Position>>, lookup: (nat, seq<string>) -> Option<QuoteReply>): (r: seq<Emission>)
    ensures read.None? ==> r == []
    ensures forall i :: 0 <= i < |r| ==> r[i].event == PriceUpdateEvent
  {
    match read
    case None => []
    case Some(rows) =>
      var open := OpenRows(rows);
      var groups := GroupByUser(open);
      GroupByUserSpec(open);
      Broadcast(Users(open), groups, lookup)
  }

  /** The deduplicated ticker list of `uid`'s open positions: what its lookup is asked for. */
  function OpenTickers(rows: seq<Position>, uid: nat): seq<string> {
    Dedup(TickersOf(OpenRows(rows), uid))
  }

  /** What a user's room receives in one broadcast: at most one emission, present
      exactly when the user is in the list and its lookup succeeds. */
  lemma {:induction false} BroadcastDeliveredTo(users: seq<nat>, groups: map<nat, seq<string>>,
                                                lookup: (nat, seq<string>) -> Option<QuoteReply>, uid: nat)
    requires forall u :: u in users ==> u in groups
    requires Ascending(users)
    ensures DeliveredTo(Broadcast(users, groups, lookup), Room(uid)) ==
      if uid in users && lookup(uid, groups[uid]).Some?
      then [Emission(Room(uid), PriceUpdateEvent, Payload(lookup(uid, groups[uid]).value))]
      else []
  {
    if users != [] {
      var rest := Broadcast(users[1..], groups, lookup);
      BroadcastDeliveredTo(users[1..], groups, lookup, uid);
      if users[0] == uid {
        assert uid !in users[1..];
      } else if Room(users[0]) == Room(uid) {
        RoomInjective(users[0], uid);
      }
      match lookup(users[0], groups[users[0]])
      case None =>
      case Some(reply) =>
        var e := Emission(Room(users[0]), PriceUpdateEvent, Payload(reply));
        assert ([e] + rest)[1..] == rest;
    }
  }

  /** A tick delivers to user `uid`'s room exactly one `price:update`, carrying the
      payload of its lookup on its own open tickers, when it has open positions
      and that lookup succeeds; otherwise nothing. */
  lemma TickPerUser(rows: seq<Position>, lookup: (nat, seq<string>) -> Option<QuoteReply>, uid: nat)
    ensures var tickers := OpenTickers(rows, uid);
      DeliveredTo(Tick(Some(rows), lookup), Room(uid)) ==
        if tickers != [] && lookup(uid, tickers).Some?
        then [Emission(Room(uid), PriceUpdateEvent, Payload(lookup(uid, tickers).value))]
        else []
  {
    var open := OpenRows(rows);
    GroupByUserSpec(open);
    DedupSpec(TickersOf(open, uid));
    BroadcastDeliveredTo(Users(open), GroupByUser(open), lookup, uid);
  }

  /** Failure isolation: what a user receives depends only on that user's own
      lookup, so another user's failing lookup changes nothing for it. */
  lemma TickIsolation(rows: seq<Position>, lookup1: (nat, seq<string>) -> Option<QuoteReply>,
                      lookup2: (nat, seq<string>) -> Option<QuoteReply>, uid: nat)
    requires lookup1(uid, OpenTickers(rows, uid)) == lookup2(uid, OpenTickers(rows, uid))
    ensures DeliveredTo(Tick(Some(rows), lookup1), Room(uid)) == DeliveredTo(Tick(Some(rows), lookup2), Room(uid))
  {
    TickPerUser(rows, lookup1, uid);
    TickPerUser(rows, lookup2, uid);
  }
}
