/** Friends (js/friends.js): the directed `friendships` table, the user search
    that leaves out the caller and the people they already added, a friend's
    wishlist with its booking state, and booking or unbooking a gift. */
module Friends {
  import opened Results
  import opened Seqs
  import opened Text
  import opened Store

  // --------------------------------------------------------------- gift views

  /** A gift as the wishlist views show it: the row, its `booked_gifts` rows,
      and the derived `is_booked` and `booked_by` fields. */
  datatype GiftView = GiftView(gift: Gift, bookings: seq<Booking>, isBooked: bool, bookedBy: Option<UserId>)

  /** The `booked_gifts` rows the store embeds under gift `giftId`. */
  function BookingsOf(bookings: seq<Booking>, giftId: RowId): (r: seq<Booking>)
    ensures forall b | b in r :: b in bookings && b.giftId == giftId
    ensures forall b | b in bookings && b.giftId == giftId :: b in r
  {
    Filter(bookings, (b: Booking) => b.giftId == giftId)
  }

  /** `v` shows its gift as the `booked_gifts` rows leave it: it embeds
      exactly the rows naming the gift, it is booked exactly when one exists,
      and then `bookedBy` is the booker of one of them. */
  predicate ShowsBookings(v: GiftView, bookings: seq<Booking>) {
    && (forall b | b in v.bookings :: b in bookings && b.giftId == v.gift.id)
    && (forall b | b in bookings && b.giftId == v.gift.id :: b in v.bookings)
    && (v.isBooked <==> exists b | b in bookings :: b.giftId == v.gift.id)
    && (v.bookedBy.Some? <==> v.isBooked)
    && (v.bookedBy.Some? ==> exists b | b in bookings :: b.giftId == v.gift.id && b.bookedBy == v.bookedBy.value)
  }

  /** A gift with `is_booked` set when it has a booking row and `booked_by`
      taken from the first of them. */
  function ViewGift(g: Gift, bookings: seq<Booking>): (v: GiftView)
    ensures v.gift == g
    ensures ShowsBookings(v, bookings)
    ensures v.isBooked ==> v.bookedBy == Some(v.bookings[0].bookedBy)
  {
    var own := BookingsOf(bookings, g.id);
    assert (exists b | b in bookings :: b.giftId == g.id) ==> |own| > 0 by {
      if exists b | b in bookings :: b.giftId == g.id {
        var b :| b in bookings && b.giftId == g.id;
        assert b in own;
      }
    }
    assert |own| > 0 ==> own[0] in own;
    GiftView(g, own, |own| > 0, if |own| > 0 then Some(own[0].bookedBy) else None)
  }

  /** The views of a list of gifts: same gifts in the same order; a gift is
      booked exactly when some booking row names it, and then `bookedBy` is
      the booker of one of those rows. */
  function ViewGifts(gifts: seq<Gift>, bookings: seq<Booking>): (r: seq<GiftView>)
    ensures |r| == |gifts|
    ensures forall i | 0 <= i < |gifts| :: r[i].gift == gifts[i]
    ensures forall i | 0 <= i < |gifts| ::
      r[i].isBooked <==> exists b | b in bookings :: b.giftId == gifts[i].id
    ensures forall i | 0 <= i < |gifts| :: r[i].bookedBy.Some? <==> r[i].isBooked
    ensures forall i | 0 <= i < |gifts| :: r[i].bookedBy.Some? ==>
      exists b | b in bookings :: b.giftId == gifts[i].id && b.bookedBy == r[i].bookedBy.value
    ensures forall v | v in r :: ShowsBookings(v, bookings)
  {
    seq(|gifts|, i requires 0 <= i < |gifts| => ViewGift(gifts[i], bookings))
  }

  /** The wishlist of `owner`: a view of each of their gifts in table order,
      each with its booking state. */
  function WishlistOf(gifts: seq<Gift>, bookings: seq<Booking>, owner: UserId): (r: seq<GiftView>)
    ensures var theirs := Filter(gifts, (g: Gift) => g.userId == owner);
      && |r| == |theirs|
      && (forall i | 0 <= i < |r| :: r[i].gift == theirs[i])
    ensures forall v | v in r :: v.gift in gifts && v.gift.userId == owner
    ensures forall g | g in gifts && g.userId == owner :: exists v | v in r :: v.gift == g
    ensures forall v | v in r :: ShowsBookings(v, bookings)
  {
    var theirs := Filter(gifts, (g: Gift) => g.userId == owner);
    var r := ViewGifts(theirs, bookings);
    assert forall v | v in r :: v.gift in theirs by {
      forall v | v in r ensures v.gift in theirs {
        var i :| 0 <= i < |r| && r[i] == v;
      }
    }
    assert forall g | g in theirs :: exists v | v in r :: v.gift == g by {
      forall g | g in theirs ensures exists v | v in r :: v.gift == g {
        var i :| 0 <= i < |theirs| && theirs[i] == g;
        assert r[i] in r;
      }
    }
    r
  }

  // ------------------------------------------------------------------ friends

  /** The `friend_id` of every edge that starts at `caller`, in table order. */
  function OutgoingFriendIds(edges: seq<Friendship>, caller: UserId): (ids: seq<UserId>)
    ensures forall f :: f in ids <==> Friendship(caller, f) in edges
    ensures var mine := Filter(edges, (e: Friendship) => e.userId == caller);
      |ids| == |mine| && forall i | 0 <= i < |ids| :: ids[i] == mine[i].friendId
  {
    if edges == [] then []
    else
      var rest := OutgoingFriendIds(edges[1..], caller);
      assert edges == [edges[0]] + edges[1..];
      if edges[0].userId == caller then [edges[0].friendId] + rest else rest
  }

  /** The `users` rows of `ids` (in the columns the join selects); an id whose
      row is missing contributes nothing. */
  function Profiles(ids: seq<UserId>, users: seq<User>): (r: seq<UserSummary>)
    ensures forall s | s in r :: s.id in ids && FindUser(users, s.id).Some? && Summary(FindUser(users, s.id).value) == s
    ensures forall id | id in ids && FindUser(users, id).Some? :: Summary(FindUser(users, id).value) in r
    ensures var present := Filter(ids, (id: UserId) => FindUser(users, id).Some?);
      |r| == |present| && forall i | 0 <= i < |r| :: r[i].id == present[i]
  {
    if ids == [] then []
    else
      var rest := Profiles(ids[1..], users);
      match FindUser(users, ids[0])
      case None => rest
      case Some(u) => [Summary(u)] + rest
  }

  /** The join of `getFriends` on two tables: one profile per edge from `me`
      whose far end has a `users` row, in table order, each that row's
      columns; every user `me` added is among them. */
  function FriendProfiles(edges: seq<Friendship>, users: seq<User>, me: UserId): (r: seq<UserSummary>)
    requires UniqueKeys(users, (v: User) => v.id)
    ensures forall s | s in r :: Friendship(me, s.id) in edges && FindUser(users, s.id).Some?
    ensures forall s | s in r :: FindUser(users, s.id).Some? && s == Summary(FindUser(users, s.id).value)
    ensures forall u | u in users && Friendship(me, u.id) in edges :: Summary(u) in r
    ensures var present := Filter(OutgoingFriendIds(edges, me), (id: UserId) => FindUser(users, id).Some?);
      |r| == |present| && forall i | 0 <= i < |r| :: r[i].id == present[i]
  {
    var r := Profiles(OutgoingFriendIds(edges, me), users);
    assert forall u | u in users && Friendship(me, u.id) in edges :: Summary(u) in r by {
      forall u | u in users && Friendship(me, u.id) in edges ensures Summary(u) in r {
        FindUniqueUser(users, u);
      }
    }
    r
  }

  /** `getFriends()`: the profiles at the far end of the caller's own edges.
      Friendship is directed: an edge towards the caller does not count. */
  function GetFriends(db: Db, session: Option<UserId>): (r: seq<UserSummary>)
    requires db.Valid()
    reads db
    ensures db.CurrentUser(session).None? ==> r == []
    ensures db.CurrentUser(session).Some? ==>
      var me := db.CurrentUser(session).value.id;
      && (forall s | s in r :: Friendship(me, s.id) in db.friendships && FindUser(db.users, s.id).Some?)
      && (forall s | s in r :: FindUser(db.users, s.id).Some? && s == Summary(FindUser(db.users, s.id).value))
      && (forall u | u in db.users && Friendship(me, u.id) in db.friendships :: Summary(u) in r)
    ensures db.CurrentUser(session).Some? ==>
      var users, me := db.users, db.CurrentUser(session).value.id;
      var present := Filter(OutgoingFriendIds(db.friendships, me), (id: UserId) => FindUser(users, id).Some?);
      |r| == |present| && forall i | 0 <= i < |r| :: r[i].id == present[i]
  {
    match db.CurrentUser(session)
    case None => []
    case Some(me) => FriendProfiles(db.friendships, db.users, me.id)
  }

  // ------------------------------------------------------------------- search

  /** `friendIds` after `push(user.id)`: the caller's friends and the caller. */
  function ExcludedIds(edges: seq<Friendship>, caller: UserId): (ids: seq<UserId>)
    ensures forall id :: id in ids <==> id == caller || Friendship(caller, id) in edges
  {
    OutgoingFriendIds(edges, caller) + [caller]
  }

  /** The query condition of the search, `username ilike %q% or email ilike %q%`. */
  predicate MatchesQuery(username: string, email: string, q: string) {
    ContainsIgnoringCase(username, q) || ContainsIgnoringCase(email, q)
  }

  function Summaries(users: seq<User>): (r: seq<UserSummary>)
    ensures |r| == |users|
    ensures forall i | 0 <= i < |users| :: r[i] == Summary(users[i])
    ensures forall s | s in r :: exists u | u in users :: s == Summary(u)
    ensures forall u | u in users :: Summary(u) in r
  {
    var r := seq(|users|, i requires 0 <= i < |users| => Summary(users[i]));
    assert forall s | s in r :: exists u | u in users :: s == Summary(u) by {
      forall s | s in r ensures exists u | u in users :: s == Summary(u) {
        var i :| 0 <= i < |r| && r[i] == s;
        assert users[i] in users;
      }
    }
    assert forall u | u in users :: Summary(u) in r by {
      forall u | u in users ensures Summary(u) in r {
        var i :| 0 <= i < |users| && users[i] == u;
        assert r[i] == Summary(u);
      }
    }
    r
  }

  /** `searchUsers(query)`: the users whose name or email contains the query
      (ignoring case), except the caller and everyone the caller has added. */
  function SearchUsers(db: Db, session: Option<UserId>, q: string): (r: seq<UserSummary>)
    reads db
    ensures db.CurrentUser(session).None? ==> r == []
    ensures db.CurrentUser(session).Some? ==>
      var me := db.CurrentUser(session).value.id;
      && (forall s | s in r :: s.id != me && Friendship(me, s.id) !in db.friendships)
      && (forall s | s in r :: MatchesQuery(s.username, s.email, q))
      && (forall s | s in r :: exists u | u in db.users :: s == Summary(u))
      && (forall u | u in db.users && u.id != me && Friendship(me, u.id) !in db.friendships &&
                     MatchesQuery(u.username, u.email, q) :: Summary(u) in r)
  {
    match db.CurrentUser(session)
    case None => []
    case Some(me) =>
      var excluded := ExcludedIds(db.friendships, me.id);
      var found := Filter(db.users, (u: User) => u.id !in excluded && MatchesQuery(u.username, u.email, q));
      Summaries(found)
  }

  // ---------------------------------------------------------- adding/removing

  /** `addFriend(friendId)`: inserts exactly the edge from the caller to `friendId`. */
  method AddFriend(db: Db, session: Option<UserId>, friendId: UserId) returns (status: Status)
    requires db.Valid()
    modifies db
    ensures db.Valid()
    ensures match old(db.CurrentUser(session))
      case None =>
        status == Failed(NotAuthenticated) && db.State() == old(db.State())
      case Some(me) =>
        && status == Done
        && db.State() == old(db.State()).(friendships := old(db.friendships) + [Friendship(me.id, friendId)])
  {
    var user := db.CurrentUser(session);
    if user.None? {
      return Failed(NotAuthenticated);
    }
    db.friendships := db.friendships + [Friendship(user.value.id, friendId)];
    status := Done;
  }

  /** `removeFriend(friendId)`: deletes every edge from the caller to
      `friendId` and nothing else; an edge back to the caller stays. */
  method RemoveFriend(db: Db, session: Option<UserId>, friendId: UserId) returns (status: Status)
    requires db.Valid()
    modifies db
    ensures db.Valid()
    ensures match old(db.CurrentUser(session))
      case None =>
        status == Failed(NotAuthenticated) && db.State() == old(db.State())
      case Some(me) =>
        && status == Done
        && db.State() == old(db.State()).(friendships := Filter(old(db.friendships),
             (e: Friendship) => e != Friendship(me.id, friendId)))
        && Friendship(me.id, friendId) !in db.friendships
        && (forall e | e in old(db.friendships) && e != Friendship(me.id, friendId) :: e in db.friendships)
  {
    var user := db.CurrentUser(session);
    if user.None? {
      return Failed(NotAuthenticated);
    }
    var gone := Friendship(user.value.id, friendId);
    db.friendships := Filter(db.friendships, (e: Friendship) => e != gone);
    assert forall e | e in old(db.friendships) && e != gone :: e in db.friendships by {
      forall e | e in old(db.friendships) && e != gone ensures e in db.friendships {
        assert Count(db.friendships, e) == Count(old(db.friendships), e);
      }
    }
    status := Done;
  }

  /** Removing a friend leaves the reverse edge alone. */
  lemma RemovingKeepsReverseEdge(edges: seq<Friendship>, me: UserId, friendId: UserId)
    requires me != friendId
    requires Friendship(friendId, me) in edges
    ensures Friendship(friendId, me) in Filter(edges, (e: Friendship) => e != Friendship(me, friendId))
  {
    var keep := (e: Friendship) => e != Friendship(me, friendId);
    assert Count(Filter(edges, keep), Friendship(friendId, me)) == Count(edges, Friendship(friendId, me));
  }

  // -------------------------------------------------------------- friend gifts

  /** `getFriendGifts(friendId)`: the friend's gifts with their booking state,
      or nothing unless exactly one edge leads from the caller to `friendId`
      (`.single()` fails on none and on several). */
  function GetFriendGifts(db: Db, session: Option<UserId>, friendId: UserId): (r: seq<GiftView>)
    reads db
    ensures db.CurrentUser(session).None? ==> r == []
    ensures (db.CurrentUser(session).Some? &&
             Count(db.friendships, Friendship(db.CurrentUser(session).value.id, friendId)) != 1) ==> r == []
    ensures forall v | v in r :: v.gift in db.gifts && v.gift.userId == friendId
    ensures r != [] ==> Friendship(db.CurrentUser(session).value.id, friendId) in db.friendships
    ensures (db.CurrentUser(session).Some? &&
             Count(db.friendships, Friendship(db.CurrentUser(session).value.id, friendId)) == 1) ==>
      var theirs := Filter(db.gifts, (g: Gift) => g.userId == friendId);
      && |r| == |theirs|
      && (forall i | 0 <= i < |r| :: r[i].gift == theirs[i])
      && (forall g | g in db.gifts && g.userId == friendId :: exists v | v in r :: v.gift == g)
    ensures forall v | v in r :: ShowsBookings(v, db.bookings)
  {
    match db.CurrentUser(session)
    case None => []
    case Some(me) =>
      if Count(db.friendships, Friendship(me.id, friendId)) != 1 then []
      else
        WishlistOf(db.gifts, db.bookings, friendId)
  }

  // ------------------------------------------------------------------ booking

  /** `bookGift(giftId)`: records a booking of `giftId` by the caller. */
  method BookGift(db: Db, session: Option<UserId>, giftId: RowId) returns (status: Status)
    requires db.Valid()
    modifies db
    ensures db.Valid()
    ensures match old(db.CurrentUser(session))
      case None =>
        status == Failed(NotAuthenticated) && db.State() == old(db.State())
      case Some(me) =>
        && status == Done
        && db.State() == old(db.State()).(
             bookings := old(db.bookings) + [Booking(old(db.nextId), giftId, me.id)],
             nextId := old(db.nextId) + 1)
  {
    var user := db.CurrentUser(session);
    if user.None? {
      return Failed(NotAuthenticated);
    }
    var row := Booking(db.nextId, giftId, user.value.id);
    db.InsertBooking(row);
    status := Done;
  }

  /** `unbookGift(giftId)`: removes the caller's bookings of `giftId`; other
      people's bookings of it and the caller's other bookings stay. */
  method UnbookGift(db: Db, session: Option<UserId>, giftId: RowId) returns (status: Status)
    requires db.Valid()
    modifies db
    ensures db.Valid()
    ensures match old(db.CurrentUser(session))
      case None =>
        status == Failed(NotAuthenticated) && db.State() == old(db.State())
      case Some(me) =>
        && status == Done
        && db.State() == old(db.State()).(bookings := Filter(old(db.bookings),
             (b: Booking) => !(b.giftId == giftId && b.bookedBy == me.id)))
        && (forall b | b in db.bookings :: !(b.giftId == giftId && b.bookedBy == me.id))
        && (forall b | b in old(db.bookings) && !(b.giftId == giftId && b.bookedBy == me.id) :: b in db.bookings)
  {
    var user := db.CurrentUser(session);
    if user.None? {
      return Failed(NotAuthenticated);
    }
    var me := user.value.id;
    var keep := (b: Booking) => !(b.giftId == giftId && b.bookedBy == me);
    KeyedFilter(db.bookings, keep, (b: Booking) => b.id, db.nextId);
    db.bookings := Filter(db.bookings, keep);
    assert forall b | b in old(db.bookings) && keep(b) :: b in db.bookings by {
      forall b | b in old(db.bookings) && keep(b) ensures b in db.bookings {
        assert Count(db.bookings, b) == Count(old(db.bookings), b);
      }
    }
    status := Done;
  }
}
