/** The socket.io addressing shared by the server and the client: per-user rooms,
    the `price:update` event and its payload items. A room is an abstract event
    log; an emission is one `io.to(room).emit(event, payload)`. */
module Channel {
  import opened Text

  /** One element of a `price:update` payload. */
  datatype PriceItem = PriceItem(symbol: string, currentPrice: real, dailyChangePercent: real)

  const PriceUpdateEvent := "price:update"
  const RoomPrefix := "user_"

  /** The room a user's sockets join: `user_${uid}`. */
  function Room(uid: nat): (room: string)
    ensures |room| > |RoomPrefix| && room[..|RoomPrefix|] == RoomPrefix
  {
    RoomPrefix + NatToString(uid)
  }

  /** Different users never share a room. */
  lemma RoomInjective(a: nat, b: nat)
    requires Room(a) == Room(b)
    ensures a == b
  {
    assert Room(a)[|RoomPrefix|..] == NatToString(a);
    assert Room(b)[|RoomPrefix|..] == NatToString(b);
    NatToStringInjective(a, b);
  }

  /** One `io.to(room).emit(event, payload)`. */
  datatype Emission = Emission(room: string, event: string, payload: seq<PriceItem>)

  /** The emissions addressed to `room`, in emission order. */
  function DeliveredTo(es: seq<Emission>, room: string): (r: seq<Emission>)
    ensures |r| <= |es|
    ensures forall i :: 0 <= i < |r| ==> r[i].room == room && r[i] in es
  {
    if es == [] then []
    else (if es[0].room == room then [es[0]] else []) + DeliveredTo(es[1..], room)
  }

  /** A room receives every emission addressed to it, as many times as it was
      emitted, and nothing else. */
  lemma {:induction false} DeliveredToCounts(es: seq<Emission>, room: string, e: Emission)
    ensures multiset(DeliveredTo(es, room))[e] == if e.room == room then multiset(es)[e] else 0
  {
    if es != [] {
      DeliveredToCounts(es[1..], room, e);
      assert es == [es[0]] + es[1..];
    }
  }

  /** No emission to a room is lost. */
  lemma DeliveredToComplete(es: seq<Emission>, room: string, e: Emission)
    requires e in es && e.room == room
    ensures e in DeliveredTo(es, room)
  {
    DeliveredToCounts(es, room, e);
    assert e in multiset(es);
    assert e in multiset(DeliveredTo(es, room));
  }

  /** Delivery keeps emission order: what a room receives from two batches in
      turn is what it receives from the first followed by what it receives from
      the second. */
  lemma {:induction false} DeliveredToAppend(a: seq<Emission>, b: seq<Emission>, room: string)
    ensures DeliveredTo(a + b, room) == DeliveredTo(a, room) + DeliveredTo(b, room)
  {
    if a == [] {
      assert a + b == b;
    } else {
      var head := if a[0].room == room then [a[0]] else [];
      DeliveredToAppend(a[1..], b, room);
      assert (a + b)[0] == a[0] && (a + b)[1..] == a[1..] + b;
      assert DeliveredTo(a + b, room) == head + DeliveredTo(a[1..] + b, room);
      assert DeliveredTo(a, room) == head + DeliveredTo(a[1..], room);
    }
  }
}
