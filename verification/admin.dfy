/** Administration (js/admin.js): every operation first requires a signed-in
    administrator; an administrator can neither demote nor delete their own
    account. */
module Admin {
  import opened Results
  import opened Seqs
  import opened Sorting
  import opened Store

  /** The guard `!user || !user.is_admin` inverted. */
  predicate IsAdmin(caller: Option<User>) {
    caller.Some? && caller.value.isAdmin
  }

  /** `getAllUsers()`: every user, newest first, for an administrator; an
      empty list for anybody else. */
  function GetAllUsers(db: Db, session: Option<UserId>): (r: seq<User>)
    reads db
    ensures !IsAdmin(db.CurrentUser(session)) ==> r == []
    ensures IsAdmin(db.CurrentUser(session)) ==>
      && multiset(r) == multiset(db.users)
      && SortedDesc(r, (u: User) => u.createdAt)
  {
    if !IsAdmin(db.CurrentUser(session)) then []
    else SortDesc(db.users, (u: User) => u.createdAt)
  }

  /** The refusal `toggleAdminStatus` gives, if any: not an administrator,
      or an administrator taking their own rights away. Granting rights to
      oneself is allowed. */
  function ToggleRefusal(caller: Option<User>, userId: UserId, isAdmin: bool): (e: Option<Error>)
    ensures e == Some(NotAdmin) <==> !IsAdmin(caller)
    ensures e == Some(CannotDemoteSelf) <==> IsAdmin(caller) && userId == caller.value.id && !isAdmin
    ensures e.None? <==> IsAdmin(caller) && (userId != caller.value.id || isAdmin)
  {
    if !IsAdmin(caller) then Some(NotAdmin)
    else if userId == caller.value.id && !isAdmin then Some(CannotDemoteSelf)
    else None
  }

  /** `toggleAdminStatus(userId, isAdmin)`: sets `is_admin` of the target row
      and changes nothing else; an administrator who calls it is still one
      afterwards. */
  method ToggleAdminStatus(db: Db, session: Option<UserId>, userId: UserId, isAdmin: bool) returns (status: Status)
    requires db.Valid()
    modifies db
    ensures db.Valid()
    ensures ToggleRefusal(old(db.CurrentUser(session)), userId, isAdmin).Some? ==>
      && status == Failed(ToggleRefusal(old(db.CurrentUser(session)), userId, isAdmin).value)
      && db.State() == old(db.State())
    ensures ToggleRefusal(old(db.CurrentUser(session)), userId, isAdmin).None? ==>
      && status == Done
      && db.State() == old(db.State()).(users := db.users)
      && |db.users| == |old(db.users)|
      && (forall i | 0 <= i < |db.users| ::
            db.users[i] == if old(db.users)[i].id == userId then old(db.users)[i].(isAdmin := isAdmin)
                           else old(db.users)[i])
    ensures IsAdmin(old(db.CurrentUser(session))) ==> IsAdmin(db.CurrentUser(session))
  {
    var refusal := ToggleRefusal(db.CurrentUser(session), userId, isAdmin);
    if refusal.Some? {
      return Failed(refusal.value);
    }
    var target := (u: User) => u.id == userId;
    var set_ := (u: User) => u.(isAdmin := isAdmin);
    var users := UpdateWhere(db.users, target, set_);
    UpdateUniqueKeys(db.users, target, set_, (u: User) => u.id);
    var me := db.CurrentUser(session).value;
    var i :| 0 <= i < |db.users| && db.users[i] == me;
    FindUniqueUser(users, users[i]);
    db.users := users;
    status := Done;
  }

  /** `deleteUser(userId)`: an administrator removes another user's row. */
  method DeleteUser(db: Db, session: Option<UserId>, userId: UserId) returns (status: Status)
    requires db.Valid()
    modifies db
    ensures db.Valid()
    ensures !IsAdmin(old(db.CurrentUser(session))) ==>
      status == Failed(NotAdmin) && db.State() == old(db.State())
    ensures IsAdmin(old(db.CurrentUser(session))) && userId == old(db.CurrentUser(session)).value.id ==>
      status == Failed(CannotDeleteSelf) && db.State() == old(db.State())
    ensures IsAdmin(old(db.CurrentUser(session))) && userId != old(db.CurrentUser(session)).value.id ==>
      && status == Done
      && db.State() == old(db.State()).(users := Filter(old(db.users), (u: User) => u.id != userId))
      && (forall u | u in db.users :: u.id != userId)
      && (forall u | u in old(db.users) && u.id != userId :: u in db.users)
      && |db.users| >= |old(db.users)| - 1
  {
    var user := db.CurrentUser(session);
    if !IsAdmin(user) {
      return Failed(NotAdmin);
    }
    if userId == user.value.id {
      return Failed(CannotDeleteSelf);
    }
    var keep := (u: User) => u.id != userId;
    FilterUniqueKeys(db.users, keep, (u: User) => u.id);
    FilterRemovesAtMostOne(db.users, keep, (u: User) => u.id, userId);
    FilterKeeps(db.users, keep);
    db.users := Filter(db.users, keep);
    status := Done;
  }

  /** A recommendation with its author's `username`, `user_email` and
      `avatar_url` lifted to the top level. */
  datatype DetailedRecommendation = DetailedRecommendation(
    rec: Recommendation,
    username: string,
    userEmail: string,
    avatarUrl: Option<string>)

  /** The `.map` over the joined rows; reading `rec.users.username` of a row
      without a joined user throws, which turns the whole answer into `[]`,
      modelled as `None`. */
  function WithUserDetails(rows: seq<Recommendation>, users: seq<User>): (r: Option<seq<DetailedRecommendation>>)
    ensures r.None? <==> exists i | 0 <= i < |rows| :: FindUser(users, rows[i].userId).None?
    ensures r.Some? ==> |r.value| == |rows| && forall i | 0 <= i < |rows| ::
      && r.value[i].rec == rows[i]
      && FindUser(users, rows[i].userId).Some?
      && var author := FindUser(users, rows[i].userId).value;
      && r.value[i].username == author.username
      && r.value[i].userEmail == author.email
      && r.value[i].avatarUrl == author.avatarUrl
  {
    if rows == [] then Some([])
    else
      match FindUser(users, rows[0].userId)
      case None => None
      case Some(author) =>
        match WithUserDetails(rows[1..], users)
        case None => None
        case Some(rest) =>
          Some([DetailedRecommendation(rows[0], author.username, author.email, author.avatarUrl)] + rest)
  }

  /** The entry carries the `username`, `email` and `avatar_url` of its row's author. */
  predicate CarriesDetails(d: DetailedRecommendation, users: seq<User>) {
    && FindUser(users, d.rec.userId).Some?
    && d.username == FindUser(users, d.rec.userId).value.username
    && d.userEmail == FindUser(users, d.rec.userId).value.email
    && d.avatarUrl == FindUser(users, d.rec.userId).value.avatarUrl
  }

  /** `getAllRecommendationsWithUserDetails()`: for an administrator, every
      recommendation newest first with its author's details; empty when some
      author cannot be joined. */
  function GetAllRecommendationsWithUserDetails(db: Db, session: Option<UserId>): (r: seq<DetailedRecommendation>)
    reads db
    ensures !IsAdmin(db.CurrentUser(session)) ==> r == []
    ensures SortedDesc(r, (d: DetailedRecommendation) => d.rec.createdAt)
    ensures r != [] ==> multiset(Map(r, (d: DetailedRecommendation) => d.rec)) == multiset(db.recommendations)
    ensures !AuthorsJoined(db.recommendations, db.users) ==> r == []
    ensures IsAdmin(db.CurrentUser(session)) && AuthorsJoined(db.recommendations, db.users) ==>
      |r| == |db.recommendations| && forall d | d in r :: CarriesDetails(d, db.users)
  {
    if !IsAdmin(db.CurrentUser(session)) then []
    else NewestWithDetails(db.recommendations, db.users)
  }

  /** The ordered, joined query of `getAllRecommendationsWithUserDetails`. */
  function NewestWithDetails(recs: seq<Recommendation>, users: seq<User>): (r: seq<DetailedRecommendation>)
    ensures SortedDesc(r, (d: DetailedRecommendation) => d.rec.createdAt)
    ensures r != [] ==> multiset(Map(r, (d: DetailedRecommendation) => d.rec)) == multiset(recs)
    ensures !AuthorsJoined(recs, users) ==> r == []
    ensures AuthorsJoined(recs, users) ==> |r| == |recs| && forall d | d in r :: CarriesDetails(d, users)
  {
    var sorted := SortDesc(recs, (x: Recommendation) => x.createdAt);
    SortDescMembers(recs, (x: Recommendation) => x.createdAt);
    JoinedIndexwise(sorted, users);
    match WithUserDetails(sorted, users)
    case None => []
    case Some(views) =>
      ViewsCarryDetails(sorted, users, views);
      views
  }

  /** A successful join keeps the rows in order and gives each its author's details. */
  lemma ViewsCarryDetails(rows: seq<Recommendation>, users: seq<User>, views: seq<DetailedRecommendation>)
    requires WithUserDetails(rows, users) == Some(views)
    ensures Map(views, (d: DetailedRecommendation) => d.rec) == rows
    ensures forall d | d in views :: CarriesDetails(d, users)
  {
    forall d | d in views ensures CarriesDetails(d, users) {
      var i :| 0 <= i < |views| && views[i] == d;
    }
  }
}
