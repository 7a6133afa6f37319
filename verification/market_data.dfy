/** The market-data service's `GET /api/quotes`: each comma-separated piece is
    normalised, its last two closes are taken from the price provider, and a
    quote with the daily change is derived; a piece without two closes, or
    whose lookup fails, is skipped. */
module MarketData {
  import opened Common
  import opened Text

  datatype Quote = Quote(symbol: string, currentPrice: real, previousClose: real,
                         dailyChange: real, dailyChangePercent: real)

  /** The quote for `symbol` from its close history, oldest first; none when
      there are fewer than two closes. */
  function Derive(symbol: string, closes: seq<real>): (r: Option<Quote>)
    ensures r.None? <==> |closes| < 2
    ensures r.Some? ==>
      && r.value.symbol == symbol
      && r.value.currentPrice == closes[|closes| - 1]
      && r.value.previousClose == closes[|closes| - 2]
      && r.value.dailyChange + r.value.previousClose == r.value.currentPrice
      && (r.value.previousClose != 0.0 ==>
            r.value.dailyChangePercent * r.value.previousClose == r.value.dailyChange * 100.0)
      && (r.value.previousClose == 0.0 ==> r.value.dailyChangePercent == 0.0)
  {
    if |closes| < 2 then None
    else
      var prevClose := closes[|closes| - 2];
      var current := closes[|closes| - 1];
      var change := current - prevClose;
      var changePct := if prevClose != 0.0 then (change / prevClose) * 100.0 else 0.0;
      Some(Quote(symbol, current, prevClose, change, changePct))
  }

  /** The quote one piece yields, if any: `history` is the provider's two-day
      close history for a normalised symbol, `None` when the lookup raises. */
  function QuoteForPiece(piece: string, history: string -> Option<seq<real>>): (r: Option<Quote>)
    ensures r.Some? ==> r.value.symbol == Normalize(piece)
    ensures history(Normalize(piece)).None? ==> r.None?
    ensures history(Normalize(piece)).Some? ==> r == Derive(Normalize(piece), history(Normalize(piece)).value)
  {
    var sym := Normalize(piece);
    match history(sym)
    case None => None
    case Some(closes) => Derive(sym, closes)
  }

  /** A symbol as the service returns it: upper case and trimmed. */
  predicate IsNormal(sym: string) {
    && (forall j :: 0 <= j < |sym| ==> !IsLowerAscii(sym[j]))
    && (sym != [] ==> !IsSpace(sym[0]) && !IsSpace(sym[|sym| - 1]))
  }

  /** What one iteration of the loop appends: the piece's quote, or nothing. */
  function PieceOutput(piece: string, history: string -> Option<seq<real>>): (r: seq<Quote>)
    ensures |r| <= 1
    ensures r == [] <==> QuoteForPiece(piece, history).None?
    ensures r != [] ==> r[0] == QuoteForPiece(piece, history).value
  {
    match QuoteForPiece(piece, history)
    case None => []
    case Some(q) => [q]
  }

  /** `f` applied to each element, results concatenated in order. */
  function FlatMap<A, B>(xs: seq<A>, f: A -> seq<B>): seq<B> {
    if xs == [] then [] else f(xs[0]) + FlatMap(xs[1..], f)
  }

  /** Elements are handled independently and in order: the result for the first
      `k` elements followed by the result for the rest is the whole result. */
  lemma {:induction false} FlatMapSplit<A, B>(xs: seq<A>, k: nat, f: A -> seq<B>)
    requires k <= |xs|
    ensures FlatMap(xs, f) == FlatMap(xs[..k], f) + FlatMap(xs[k..], f)
  {
    if k == 0 {
      assert xs[k..] == xs;
    } else {
      var tail := xs[1..];
      FlatMapSplit(tail, k - 1, f);
      assert tail[..k - 1] == xs[..k][1..];
      assert tail[k - 1..] == xs[k..];
      assert xs[..k][0] == xs[0];
    }
  }

  /** The loop over the pieces, in order, skipping the pieces that yield nothing. */
  function QuotesFor(pieces: seq<string>, history: string -> Option<seq<real>>): (r: seq<Quote>)
    ensures |r| <= |pieces|
  {
    if pieces == [] then []
    else PieceOutput(pieces[0], history) + QuotesFor(pieces[1..], history)
  }

  /** The loop is a flat map of the per-piece step. */
  lemma {:induction false} QuotesForIsFlatMap(pieces: seq<string>, history: string -> Option<seq<real>>)
    ensures QuotesFor(pieces, history) == FlatMap(pieces, piece => PieceOutput(piece, history))
  {
    if pieces != [] {
      QuotesForIsFlatMap(pieces[1..], history);
    }
  }

  /** `get_quotes(symbols)`. */
  function GetQuotes(symbols: string, history: string -> Option<seq<real>>): (r: seq<Quote>)
    ensures |r| <= |Split(symbols, ',')|
    ensures forall i :: 0 <= i < |r| ==> IsNormal(r[i].symbol)
  {
    var r := QuotesFor(Split(symbols, ','), history);
    assert forall i :: 0 <= i < |r| ==> IsNormal(r[i].symbol) by {
      forall i | 0 <= i < |r|
        ensures IsNormal(r[i].symbol)
      {
        QuotesForSymbols(Split(symbols, ','), history, i);
      }
    }
    r
  }

  /** Every returned symbol is the normalised form of some piece. */
  lemma {:induction false} QuotesForSymbols(pieces: seq<string>, history: string -> Option<seq<real>>, i: nat)
    requires i < |QuotesFor(pieces, history)|
    ensures exists k :: 0 <= k < |pieces| && QuotesFor(pieces, history)[i].symbol == Normalize(pieces[k])
  {
    var r := QuotesFor(pieces, history);
    var head := PieceOutput(pieces[0], history);
    var rest := QuotesFor(pieces[1..], history);
    assert r == head + rest;
    if i < |head| {
      assert r[i] == head[0];
    } else {
      var j := i - |head|;
      assert r[i] == rest[j];
      QuotesForSymbols(pieces[1..], history, j);
      var k :| 0 <= k < |pieces[1..]| && rest[j].symbol == Normalize(pieces[1..][k]);
      assert pieces[1..][k] == pieces[k + 1];
    }
  }

  /** One element's result sits at its own place in the whole result. */
  lemma FlatMapAround<A, B>(xs: seq<A>, k: nat, f: A -> seq<B>)
    requires k < |xs|
    ensures FlatMap(xs, f) == FlatMap(xs[..k], f) + f(xs[k]) + FlatMap(xs[k + 1..], f)
  {
    FlatMapSplit(xs, k, f);
    var rest := xs[k..];
    assert rest[0] == xs[k] && rest[1..] == xs[k + 1..];
  }

  /** One piece's output sits at its own place in the whole output. */
  lemma QuotesForAround(pieces: seq<string>, k: nat, history: string -> Option<seq<real>>)
    requires k < |pieces|
    ensures QuotesFor(pieces, history) ==
      QuotesFor(pieces[..k], history) + PieceOutput(pieces[k], history) + QuotesFor(pieces[k + 1..], history)
  {
    var f := piece => PieceOutput(piece, history);
    QuotesForIsFlatMap(pieces, history);
    QuotesForIsFlatMap(pieces[..k], history);
    QuotesForIsFlatMap(pieces[k + 1..], history);
    FlatMapAround(pieces, k, f);
  }

  /** A failing or too-short lookup drops exactly that piece; the others are kept. */
  lemma FailureDropsOnlyThatPiece(pieces: seq<string>, k: nat, history: string -> Option<seq<real>>)
    requires k < |pieces|
    requires history(Normalize(pieces[k])).None? || |history(Normalize(pieces[k])).value| < 2
    ensures QuotesFor(pieces, history) == QuotesFor(pieces[..k], history) + QuotesFor(pieces[k + 1..], history)
  {
    QuotesForAround(pieces, k, history);
  }

  /** A piece with two or more closes yields its quote at its place in the output. */
  lemma SuccessKeepsPlace(pieces: seq<string>, k: nat, history: string -> Option<seq<real>>)
    requires k < |pieces|
    requires history(Normalize(pieces[k])).Some? && |history(Normalize(pieces[k])).value| >= 2
    ensures QuotesFor(pieces, history) ==
      QuotesFor(pieces[..k], history)
      + [Derive(Normalize(pieces[k]), history(Normalize(pieces[k])).value).value]
      + QuotesFor(pieces[k + 1..], history)
  {
    QuotesForAround(pieces, k, history);
  }

  /** Duplicates are not removed: two pieces naming the same symbol, even in
      different case or with surrounding spaces, are quoted twice. */
  lemma DuplicatesKept(a: string, b: string, history: string -> Option<seq<real>>)
    requires Normalize(a) == Normalize(b)
    requires history(Normalize(a)).Some? && |history(Normalize(a)).value| >= 2
    ensures var q := Derive(Normalize(a), history(Normalize(a)).value).value;
      QuotesFor([a, b], history) == [q, q]
  {
    assert [a, b][1..] == [b] && [b][1..] == [];
  }
}
