/** Profile (js/profile.js): editing the caller's own `users` row and the
    caller's wishlist — listing, adding, editing and deleting gifts, and
    copying a friend's gift. */
module Profile {
  import opened Results
  import opened Seqs
  import opened Store
  import opened Friends

  // ------------------------------------------------------------------ profile

  /** The columns the profile page sends to `updateProfile`: a new name or a
      new avatar URL; a field left `None` is not part of the update. */
  datatype ProfilePatch = ProfilePatch(username: Option<string>, avatarUrl: Option<string>)

  /** The row after `.update(profileData)`: the patched columns take their new
      values, every other column stays. */
  function ApplyPatch(u: User, patch: ProfilePatch): (v: User)
    ensures v.id == u.id && v.email == u.email && v.isAdmin == u.isAdmin
    ensures v.theme == u.theme && v.createdAt == u.createdAt
    ensures v.username == if patch.username.Some? then patch.username.value else u.username
    ensures v.avatarUrl == if patch.avatarUrl.Some? then patch.avatarUrl else u.avatarUrl
  {
    var v := if patch.username.Some? then u.(username := patch.username.value) else u;
    if patch.avatarUrl.Some? then v.(avatarUrl := patch.avatarUrl) else v
  }

  /** An empty patch changes nothing. */
  lemma EmptyPatch(u: User)
    ensures ApplyPatch(u, ProfilePatch(None, None)) == u
  {
  }

  /** `updateProfile(profileData)`: patches the caller's own row; the other
      rows and the other tables stay as they were. */
  method UpdateProfile(db: Db, session: Option<UserId>, patch: ProfilePatch) returns (status: Status)
    requires db.Valid()
    modifies db
    ensures db.Valid()
    ensures match old(db.CurrentUser(session))
      case None =>
        status == Failed(NotAuthenticated) && db.State() == old(db.State())
      case Some(me) =>
        && status == Done
        && db.State() == old(db.State()).(users := UpdateWhere(old(db.users),
             (u: User) => u.id == me.id, (u: User) => ApplyPatch(u, patch)))
        && |db.users| == |old(db.users)|
        && (forall i | 0 <= i < |db.users| && old(db.users)[i].id != me.id :: db.users[i] == old(db.users)[i])
        && (forall i | 0 <= i < |db.users| && old(db.users)[i].id == me.id ::
              db.users[i] == ApplyPatch(old(db.users)[i], patch))
  {
    var user := db.CurrentUser(session);
    if user.None? {
      return Failed(NotAuthenticated);
    }
    var me := user.value.id;
    var mine := (u: User) => u.id == me;
    var patched := (u: User) => ApplyPatch(u, patch);
    UpdateUniqueKeys(db.users, mine, patched, (u: User) => u.id);
    db.users := UpdateWhere(db.users, mine, patched);
    status := Done;
  }

  /** `updateAvatar(url)`: `updateProfile({ avatar_url: url })`, so only the
      avatar of the caller's row changes. */
  method UpdateAvatar(db: Db, session: Option<UserId>, url: string) returns (status: Status)
    requires db.Valid()
    modifies db
    ensures db.Valid()
    ensures match old(db.CurrentUser(session))
      case None =>
        status == Failed(NotAuthenticated) && db.State() == old(db.State())
      case Some(me) =>
        && status == Done
        && db.State() == old(db.State()).(users := db.users)
        && |db.users| == |old(db.users)|
        && (forall i | 0 <= i < |db.users| && old(db.users)[i].id != me.id :: db.users[i] == old(db.users)[i])
        && (forall i | 0 <= i < |db.users| && old(db.users)[i].id == me.id ::
              db.users[i] == old(db.users)[i].(avatarUrl := Some(url)))
  {
    status := UpdateProfile(db, session, ProfilePatch(None, Some(url)));
  }

  // -------------------------------------------------------------------- gifts

  /** The gift with id `id`, as `.eq('id', giftId).single()` finds it. */
  function FindGift(gifts: seq<Gift>, id: RowId): (r: Option<Gift>)
    ensures r.Some? ==> r.value in gifts && r.value.id == id
    ensures r.None? ==> forall g | g in gifts :: g.id != id
  {
    Find(gifts, (g: Gift) => g.id == id)
  }

  /** `getMyGifts()`: the caller's own gifts with their booking state. */
  function GetMyGifts(db: Db, session: Option<UserId>): (r: seq<GiftView>)
    reads db
    ensures db.CurrentUser(session).None? ==> r == []
    ensures db.CurrentUser(session).Some? ==>
      var me := db.CurrentUser(session).value.id;
      var mine := Filter(db.gifts, (g: Gift) => g.userId == me);
      && |r| == |mine|
      && (forall i | 0 <= i < |r| :: r[i].gift == mine[i])
      && (forall v | v in r :: v.gift in db.gifts && v.gift.userId == me)
      && (forall g | g in db.gifts && g.userId == me :: exists v | v in r :: v.gift == g)
    ensures forall v | v in r :: ShowsBookings(v, db.bookings)
  {
    match db.CurrentUser(session)
    case None => []
    case Some(me) => WishlistOf(db.gifts, db.bookings, me.id)
  }

  /** `addGift(gift)`: a new gift with the given content, owned by the caller. */
  method AddGift(db: Db, session: Option<UserId>, content: GiftContent) returns (status: Status)
    requires db.Valid()
    modifies db
    ensures db.Valid()
    ensures match old(db.CurrentUser(session))
      case None =>
        status == Failed(NotAuthenticated) && db.State() == old(db.State())
      case Some(me) =>
        && status == Done
        && db.State() == old(db.State()).(
             gifts := old(db.gifts) + [Gift(old(db.nextId), me.id, content)],
             nextId := old(db.nextId) + 1)
  {
    var user := db.CurrentUser(session);
    if user.None? {
      return Failed(NotAuthenticated);
    }
    var row := Gift(db.nextId, user.value.id, content);
    db.InsertGift(row);
    status := Done;
  }

  /** `updateGift(giftId, gift)`: only the owner may edit (an administrator
      may not); the edit replaces the six content columns of that one gift. */
  method UpdateGift(db: Db, session: Option<UserId>, giftId: RowId, content: GiftContent) returns (status: Status)
    requires db.Valid()
    modifies db
    ensures db.Valid()
    ensures old(db.CurrentUser(session)).None? ==> status == Failed(NotAuthenticated)
    ensures old(db.CurrentUser(session)).Some? && FindGift(old(db.gifts), giftId).None? ==>
      status == Failed(RowNotFound)
    ensures (old(db.CurrentUser(session)).Some? && FindGift(old(db.gifts), giftId).Some? &&
             FindGift(old(db.gifts), giftId).value.userId != old(db.CurrentUser(session)).value.id) ==>
      status == Failed(NoEditPermission)
    ensures (old(db.CurrentUser(session)).Some? && FindGift(old(db.gifts), giftId).Some? &&
             FindGift(old(db.gifts), giftId).value.userId == old(db.CurrentUser(session)).value.id) ==>
      status == Done
    ensures status.Failed? ==> db.State() == old(db.State())
    ensures status.Done? ==>
      && old(db.CurrentUser(session)).Some?
      && FindGift(old(db.gifts), giftId).Some?
      && FindGift(old(db.gifts), giftId).value.userId == old(db.CurrentUser(session)).value.id
      && db.State() == old(db.State()).(gifts := db.gifts)
      && |db.gifts| == |old(db.gifts)|
      && (forall i | 0 <= i < |db.gifts| ::
            db.gifts[i].id == old(db.gifts)[i].id && db.gifts[i].userId == old(db.gifts)[i].userId)
      && (forall i | 0 <= i < |db.gifts| ::
            db.gifts[i].content == if old(db.gifts)[i].id == giftId then content else old(db.gifts)[i].content)
  {
    var user := db.CurrentUser(session);
    if user.None? {
      return Failed(NotAuthenticated);
    }
    var found := FindGift(db.gifts, giftId);
    if found.None? {
      return Failed(RowNotFound);
    }
    if found.value.userId != user.value.id {
      return Failed(NoEditPermission);
    }
    var target := (g: Gift) => g.id == giftId;
    var edit := (g: Gift) => g.(content := content);
    KeyedUpdate(db.gifts, target, edit, (g: Gift) => g.id, db.nextId);
    db.gifts := UpdateWhere(db.gifts, target, edit);
    status := Done;
  }

  /** `deleteGift(giftId)`: the owner or an administrator removes every
      booking of the gift and then the gift itself. */
  method DeleteGift(db: Db, session: Option<UserId>, giftId: RowId) returns (status: Status)
    requires db.Valid()
    modifies db
    ensures db.Valid()
    ensures old(db.CurrentUser(session)).None? ==> status == Failed(NotAuthenticated)
    ensures old(db.CurrentUser(session)).Some? && FindGift(old(db.gifts), giftId).None? ==>
      status == Failed(RowNotFound)
    ensures (old(db.CurrentUser(session)).Some? && FindGift(old(db.gifts), giftId).Some? &&
             !OwnerOrAdmin(old(db.CurrentUser(session)).value, FindGift(old(db.gifts), giftId).value.userId)) ==>
      status == Failed(NoDeletePermission)
    ensures (old(db.CurrentUser(session)).Some? && FindGift(old(db.gifts), giftId).Some? &&
             OwnerOrAdmin(old(db.CurrentUser(session)).value, FindGift(old(db.gifts), giftId).value.userId)) ==>
      status == Done
    ensures status.Failed? ==> db.State() == old(db.State())
    ensures status.Done? ==>
      && old(db.CurrentUser(session)).Some?
      && FindGift(old(db.gifts), giftId).Some?
      && OwnerOrAdmin(old(db.CurrentUser(session)).value, FindGift(old(db.gifts), giftId).value.userId)
      && db.State() == old(db.State()).(
           gifts := Filter(old(db.gifts), (g: Gift) => g.id != giftId),
           bookings := Filter(old(db.bookings), (b: Booking) => b.giftId != giftId))
      && (forall g | g in db.gifts :: g.id != giftId)
      && (forall b | b in db.bookings :: b.giftId != giftId)
      && (forall g | g in old(db.gifts) && g.id != giftId :: g in db.gifts)
      && (forall b | b in old(db.bookings) && b.giftId != giftId :: b in db.bookings)
      && |db.gifts| == |old(db.gifts)| - 1
  {
    var user := db.CurrentUser(session);
    if user.None? {
      return Failed(NotAuthenticated);
    }
    var found := FindGift(db.gifts, giftId);
    if found.None? {
      return Failed(RowNotFound);
    }
    if !OwnerOrAdmin(user.value, found.value.userId) {
      return Failed(NoDeletePermission);
    }
    var otherBooking := (b: Booking) => b.giftId != giftId;
    KeyedFilter(db.bookings, otherBooking, (b: Booking) => b.id, db.nextId);
    FilterKeeps(db.bookings, otherBooking);
    db.bookings := Filter(db.bookings, otherBooking);
    var otherGift := (g: Gift) => g.id != giftId;
    KeyedFilter(db.gifts, otherGift, (g: Gift) => g.id, db.nextId);
    RemovesExactlyOne(db.gifts, giftId);
    FilterKeeps(db.gifts, otherGift);
    db.gifts := Filter(db.gifts, otherGift);
    status := Done;
  }

  /** In a table with unique ids, deleting by an id that is present removes
      exactly one row. */
  lemma {:induction false} RemovesExactlyOne(gifts: seq<Gift>, id: RowId)
    requires UniqueKeys(gifts, (g: Gift) => g.id)
    requires exists g | g in gifts :: g.id == id
    ensures |Filter(gifts, (g: Gift) => g.id != id)| == |gifts| - 1
  {
    var keep := (g: Gift) => g.id != id;
    assert gifts == [gifts[0]] + gifts[1..];
    assert UniqueKeys(gifts[1..], (g: Gift) => g.id) by {
      forall i, j | 0 <= i < j < |gifts[1..]| ensures gifts[1..][i].id != gifts[1..][j].id {
        assert gifts[1..][i] == gifts[i + 1] && gifts[1..][j] == gifts[j + 1];
      }
    }
    if gifts[0].id == id {
      forall g | g in gifts[1..] ensures keep(g) {
        var k :| 0 <= k < |gifts[1..]| && gifts[1..][k] == g;
        assert gifts[k + 1] == g;
      }
      FilterAll(gifts[1..], keep);
    } else {
      var g :| g in gifts && g.id == id;
      assert g in gifts[1..];
      RemovesExactlyOne(gifts[1..], id);
    }
  }

  /** `copyGiftToMyWishlist(gift)`: a new gift of the caller's with exactly
      the six content fields of the viewed gift; its id, owner and booking
      state are not carried over. */
  method CopyGiftToMyWishlist(db: Db, session: Option<UserId>, view: GiftView) returns (status: Status)
    requires db.Valid()
    modifies db
    ensures db.Valid()
    ensures match old(db.CurrentUser(session))
      case None =>
        status == Failed(NotAuthenticated) && db.State() == old(db.State())
      case Some(me) =>
        && status == Done
        && db.State() == old(db.State()).(
             gifts := old(db.gifts) + [Gift(old(db.nextId), me.id, view.gift.content)],
             nextId := old(db.nextId) + 1)
  {
    status := AddGift(db, session, view.gift.content);
  }
}
