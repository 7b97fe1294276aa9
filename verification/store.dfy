/** The hosted database as the wrappers see it: one sequence of rows per table,
    a generator of fresh row ids, and the session lookup that every wrapper
    starts with (`getCurrentUser`). Remote failures of the store are not
    modelled; `.single()` on a missing row is the one store error the wrappers
    can meet, and each wrapper turns it into an error value. */
module Store {
  import opened Results
  import opened Seqs

  type UserId = string
  type RowId = nat

  /** A row of `users`. */
  datatype User = User(
    id: UserId,
    username: string,
    email: string,
    avatarUrl: Option<string>,
    isAdmin: bool,
    theme: string,
    createdAt: int)

  /** The columns of `users` that the friend list and the user search select. */
  datatype UserSummary = UserSummary(id: UserId, username: string, email: string, avatarUrl: Option<string>)

  function Summary(u: User): UserSummary {
    UserSummary(u.id, u.username, u.email, u.avatarUrl)
  }

  /** A row of `friendships`: a directed edge, `userId` has added `friendId`. */
  datatype Friendship = Friendship(userId: UserId, friendId: UserId)

  /** The six columns of a gift that its owner edits and that a copy carries over. */
  datatype GiftContent = GiftContent(
    title: string,
    description: string,
    imageUrl: string,
    link: string,
    articleNumber: string,
    additionalInfo: string)

  /** A row of `gifts`. */
  datatype Gift = Gift(id: RowId, userId: UserId, content: GiftContent)

  /** A row of `booked_gifts`: `bookedBy` has reserved gift `giftId`. */
  datatype Booking = Booking(id: RowId, giftId: RowId, bookedBy: UserId)

  /** A row of `notifications`; `senderId` is null for system notices. */
  datatype Notification = Notification(
    id: RowId,
    recipientId: UserId,
    senderId: Option<UserId>,
    kind: string,
    content: string,
    isRead: bool,
    createdAt: int)

  /** A row of `recommendations`; `hashtags` may be null in stored rows. */
  datatype Recommendation = Recommendation(
    id: RowId,
    userId: UserId,
    title: string,
    description: string,
    mediaUrl: string,
    link: string,
    articleNumber: string,
    hashtags: Option<seq<string>>,
    createdAt: int)

  /** The whole content of the store at one moment. */
  datatype Tables = Tables(
    users: seq<User>,
    friendships: seq<Friendship>,
    gifts: seq<Gift>,
    bookings: seq<Booking>,
    notifications: seq<Notification>,
    recommendations: seq<Recommendation>,
    nextId: nat)

  /** Primary keys are unique, and every row id was handed out before. */
  ghost predicate Consistent(t: Tables) {
    && UniqueKeys(t.users, (u: User) => u.id)
    && Keyed(t.gifts, (g: Gift) => g.id, t.nextId)
    && Keyed(t.bookings, (b: Booking) => b.id, t.nextId)
    && Keyed(t.notifications, (n: Notification) => n.id, t.nextId)
    && Keyed(t.recommendations, (r: Recommendation) => r.id, t.nextId)
  }

  /** Advancing the id counter keeps every table keyed. */
  lemma Advanced(t: Tables)
    requires Consistent(t)
    ensures Consistent(t.(nextId := t.nextId + 1))
  {
    var n := t.nextId + 1;
    assert forall g | g in t.gifts :: g.id < n;
    assert forall b | b in t.bookings :: b.id < n;
    assert forall x | x in t.notifications :: x.id < n;
    assert forall r | r in t.recommendations :: r.id < n;
  }

  lemma AddedGift(t: Tables, row: Gift)
    requires Consistent(t) && row.id == t.nextId
    ensures Consistent(t.(gifts := t.gifts + [row], nextId := t.nextId + 1))
  {
    KeyedAppend(t.gifts, (g: Gift) => g.id, t.nextId, row);
    Advanced(t);
  }

  lemma AddedBooking(t: Tables, row: Booking)
    requires Consistent(t) && row.id == t.nextId
    ensures Consistent(t.(bookings := t.bookings + [row], nextId := t.nextId + 1))
  {
    KeyedAppend(t.bookings, (b: Booking) => b.id, t.nextId, row);
    Advanced(t);
  }

  lemma AddedNotification(t: Tables, row: Notification)
    requires Consistent(t) && row.id == t.nextId
    ensures Consistent(t.(notifications := t.notifications + [row], nextId := t.nextId + 1))
  {
    KeyedAppend(t.notifications, (n: Notification) => n.id, t.nextId, row);
    Advanced(t);
  }

  lemma AddedRecommendation(t: Tables, row: Recommendation)
    requires Consistent(t) && row.id == t.nextId
    ensures Consistent(t.(recommendations := t.recommendations + [row], nextId := t.nextId + 1))
  {
    KeyedAppend(t.recommendations, (r: Recommendation) => r.id, t.nextId, row);
    Advanced(t);
  }

  /** The `users` row with the given id, if there is one. */
  function FindUser(users: seq<User>, id: UserId): (r: Option<User>)
    ensures r.Some? ==> r.value in users && r.value.id == id
    ensures r.None? ==> forall u | u in users :: u.id != id
  {
    Find(users, (u: User) => u.id == id)
  }

  /** With unique ids, looking a user's id up finds that very row. */
  lemma FindUniqueUser(users: seq<User>, u: User)
    requires UniqueKeys(users, (v: User) => v.id)
    requires u in users
    ensures FindUser(users, u.id) == Some(u)
  {
    var v := FindUser(users, u.id).value;
    var i :| 0 <= i < |users| && users[i] == u;
    var j :| 0 <= j < |users| && users[j] == v;
    assert i == j;
  }

  /** Every row's author has a `users` row, so the join finds it. */
  predicate AuthorsJoined(rows: seq<Recommendation>, users: seq<User>) {
    forall x | x in rows :: FindUser(users, x.userId).Some?
  }

  /** `AuthorsJoined` read index by index, as the joins of the listings state it. */
  lemma JoinedIndexwise(rows: seq<Recommendation>, users: seq<User>)
    ensures AuthorsJoined(rows, users) <==> forall i | 0 <= i < |rows| :: FindUser(users, rows[i].userId).Some?
  {
    if forall i | 0 <= i < |rows| :: FindUser(users, rows[i].userId).Some? {
      forall x | x in rows ensures FindUser(users, x.userId).Some? {
        var i :| 0 <= i < |rows| && rows[i] == x;
      }
    }
  }

  /** The rule of `deleteGift` and `deleteRecommendation`: the row's owner or
      an administrator may remove it. */
  predicate OwnerOrAdmin(caller: User, ownerId: UserId) {
    ownerId == caller.id || caller.isAdmin
  }

  class Db {
    var users: seq<User>
    var friendships: seq<Friendship>
    var gifts: seq<Gift>
    var bookings: seq<Booking>
    var notifications: seq<Notification>
    var recommendations: seq<Recommendation>
    /** The id the store gives to the next row inserted into any table. */
    var nextId: nat

    /** The tables are consistent (see `Consistent`). */
    ghost predicate Valid()
      reads this
    {
      Consistent(State())
    }

    function State(): Tables
      reads this
    {
      Tables(users, friendships, gifts, bookings, notifications, recommendations, nextId)
    }

    constructor ()
      ensures Valid()
      ensures State() == Tables([], [], [], [], [], [], 0)
    {
      users, friendships, gifts, bookings := [], [], [], [];
      notifications, recommendations, nextId := [], [], 0;
    }

    /** The store's `insert` of a row that takes the next id. */
    method InsertGift(row: Gift)
      requires Valid() && row.id == nextId
      modifies this
      ensures Valid()
      ensures State() == old(State()).(gifts := old(gifts) + [row], nextId := old(nextId) + 1)
    {
      AddedGift(State(), row);
      gifts, nextId := gifts + [row], nextId + 1;
    }

    method InsertBooking(row: Booking)
      requires Valid() && row.id == nextId
      modifies this
      ensures Valid()
      ensures State() == old(State()).(bookings := old(bookings) + [row], nextId := old(nextId) + 1)
    {
      AddedBooking(State(), row);
      bookings, nextId := bookings + [row], nextId + 1;
    }

    method InsertNotification(row: Notification)
      requires Valid() && row.id == nextId
      modifies this
      ensures Valid()
      ensures State() == old(State()).(notifications := old(notifications) + [row], nextId := old(nextId) + 1)
    {
      AddedNotification(State(), row);
      notifications, nextId := notifications + [row], nextId + 1;
    }

    method InsertRecommendation(row: Recommendation)
      requires Valid() && row.id == nextId
      modifies this
      ensures Valid()
      ensures State() == old(State()).(recommendations := old(recommendations) + [row], nextId := old(nextId) + 1)
    {
      AddedRecommendation(State(), row);
      recommendations, nextId := recommendations + [row], nextId + 1;
    }

    /** `getCurrentUser()`: nobody without a session; otherwise the session's
        `users` row, or nobody when that row is missing. */
    function CurrentUser(session: Option<UserId>): (r: Option<User>)
      reads this
      ensures session.None? ==> r.None?
      ensures r.Some? ==> session.Some? && r.value in users && r.value.id == session.value
      ensures session.Some? && r.None? ==> forall u | u in users :: u.id != session.value
    {
      match session
      case None => None
      case Some(id) => FindUser(users, id)
    }
  }
}
