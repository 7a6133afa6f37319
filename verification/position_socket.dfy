/** The `usePositionWS` effect as a small state machine: mounting with a user
    connects and joins that user's room and registers four handlers; each
    position event invalidates the `['positions']` query family; unmounting
    disconnects. */
module PositionSocket {
  import opened Common
  import opened QueryClient

  datatype User = User(id: nat)

  /** A message the client sends over its socket. */
  datatype Outgoing = JoinRoom(userId: nat)

  const PositionAdded := "position:added"
  const PositionClosed := "position:closed"
  const PositionUpdated := "position:updated"
  const PositionDeleted := "position:deleted"

  const PositionsFamily: QueryKey := ["positions"]

  /** No socket (no user), a live socket with what it sent and the events it
      listens to, or a socket that has been disconnected. */
  datatype Session =
    | NoSession
    | Connected(authUserId: nat, sent: seq<Outgoing>, handlers: set<string>)
    | Disconnected(authUserId: nat)

  /** The effect body. */
  function Mount(user: Option<User>): (s: Session)
    ensures user.None? <==> s.NoSession?
    ensures user.Some? ==>
      && s.Connected?
      && s.authUserId == user.value.id
      && s.sent == [JoinRoom(user.value.id)]
      && s.handlers == {PositionAdded, PositionClosed, PositionUpdated, PositionDeleted}
  {
    match user
    case None => NoSession
    case Some(u) =>
      Connected(u.id, [JoinRoom(u.id)], {PositionAdded, PositionClosed, PositionUpdated, PositionDeleted})
  }

  /** The effect's cleanup: the socket the effect opened is disconnected; with no
      user the effect returned no cleanup. */
  function Unmount(s: Session): (r: Session)
    ensures s.Connected? ==> r == Disconnected(s.authUserId)
    ensures !s.Connected? ==> r == s
  {
    match s
    case Connected(uid, _, _) => Disconnected(uid)
    case _ => s
  }

  /** Delivery of an incoming event with any payload: a registered handler runs
      `invalidateQueries(['positions'])`; anything else leaves the cache alone. */
  function Receive<P>(s: Session, event: string, payload: P, c: Cache): (r: Cache)
    ensures r.quotes == c.quotes
    ensures s.Connected? && event in s.handlers ==>
      forall key :: IsStale(r, key) <==> IsStale(c, key) || IsPrefix(PositionsFamily, key)
    ensures !(s.Connected? && event in s.handlers) ==> r == c
  {
    if s.Connected? && event in s.handlers then Invalidate(c, PositionsFamily) else c
  }

  /** The four position events have one and the same effect, whatever their payloads. */
  lemma PositionEventsAgree<P, Q>(user: User, e1: string, p1: P, e2: string, p2: Q, c: Cache)
    requires e1 in {PositionAdded, PositionClosed, PositionUpdated, PositionDeleted}
    requires e2 in {PositionAdded, PositionClosed, PositionUpdated, PositionDeleted}
    ensures Receive(Mount(Some(user)), e1, p1, c) == Receive(Mount(Some(user)), e2, p2, c)
  {
  }

  /** A duplicated event leaves the cache as a single delivery does. */
  lemma ReceiveIdempotent<P>(s: Session, event: string, payload: P, c: Cache)
    ensures Receive(s, event, payload, Receive(s, event, payload, c)) == Receive(s, event, payload, c)
  {
  }

  /** A position event marks both position tabs stale and no quote key that was not already stale. */
  lemma PositionEventMarksTabsOnly<P>(user: User, event: string, payload: P, c: Cache, symbolsKey: string)
    requires event in {PositionAdded, PositionClosed, PositionUpdated, PositionDeleted}
    ensures var r := Receive(Mount(Some(user)), event, payload, c);
      && IsStale(r, ["positions", "open"])
      && IsStale(r, ["positions", "closed"])
      && (IsStale(r, ["quotes", symbolsKey]) <==> IsStale(c, ["quotes", symbolsKey]))
  {
    assert ["positions", "open"][..1] == PositionsFamily;
    assert ["positions", "closed"][..1] == PositionsFamily;
    assert ["quotes", symbolsKey][..1] == ["quotes"];
    assert "quotes"[0] != "positions"[0];
  }

  /** After the cleanup has run, no event reaches the cache. */
  lemma NothingAfterUnmount<P>(user: Option<User>, event: string, payload: P, c: Cache)
    ensures Receive(Unmount(Mount(user)), event, payload, c) == c
  {
  }
}
