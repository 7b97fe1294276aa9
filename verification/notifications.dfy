/** Notifications (js/notifications.js): inserting a notice, the caller's
    inbox newest first with the sender's name and avatar, and marking or
    deleting the caller's own notices. */
module Notifications {
  import opened Results
  import opened Seqs
  import opened Sorting
  import opened Store

  /** What a caller of `createNotification` supplies. */
  datatype NotificationInput = NotificationInput(
    recipientId: UserId,
    senderId: Option<UserId>,
    kind: string,
    content: string)

  /** A notification as the inbox shows it, with `sender_username` and
      `sender_avatar` added. */
  datatype NotificationView = NotificationView(
    note: Notification,
    senderUsername: string,
    senderAvatar: Option<string>)

  /** The name shown for a system notice or a sender without a name. */
  const SystemSender: string := "Система"

  /** `createNotification(notification)`: inserts an unread row with the given
      recipient, sender, type and content; the creation time is the store's
      clock at insertion, `now`. Nobody needs to be signed in. */
  method CreateNotification(db: Db, input: NotificationInput, now: int) returns (status: Status)
    requires db.Valid()
    modifies db
    ensures db.Valid()
    ensures status == Done
    ensures db.State() == old(db.State()).(
      notifications := old(db.notifications) + [Notification(old(db.nextId), input.recipientId,
        input.senderId, input.kind, input.content, false, now)],
      nextId := old(db.nextId) + 1)
  {
    var row := Notification(db.nextId, input.recipientId, input.senderId, input.kind, input.content, false, now);
    db.InsertNotification(row);
    status := Done;
  }

  /** The sender columns of one inbox entry: the sender's name, or the system
      name when there is no sender row or its name is empty (`||`); the
      sender's avatar, or null when there is none or it is empty. */
  function ViewNotification(n: Notification, users: seq<User>): (v: NotificationView)
    ensures v.note == n
    ensures v.senderUsername != ""
    ensures v.senderUsername == SystemSender <==>
      (n.senderId.None? || FindUser(users, n.senderId.value).None? ||
       FindUser(users, n.senderId.value).value.username in {"", SystemSender})
    ensures v.senderUsername != SystemSender ==>
      exists u | u in users :: n.senderId == Some(u.id) && u.username == v.senderUsername
    ensures v.senderAvatar.Some? ==>
      (v.senderAvatar.value != "" &&
       exists u | u in users :: n.senderId == Some(u.id) && u.avatarUrl == v.senderAvatar)
    ensures (n.senderId.Some? && FindUser(users, n.senderId.value).Some? &&
             FindUser(users, n.senderId.value).value.avatarUrl.Some? &&
             FindUser(users, n.senderId.value).value.avatarUrl.value != "") ==>
      v.senderAvatar == FindUser(users, n.senderId.value).value.avatarUrl
  {
    var sender := if n.senderId.Some? then FindUser(users, n.senderId.value) else None;
    var name := if sender.Some? && sender.value.username != "" then sender.value.username else SystemSender;
    var avatar := if sender.Some? && sender.value.avatarUrl.Some? && sender.value.avatarUrl.value != ""
                  then sender.value.avatarUrl else None;
    NotificationView(n, name, avatar)
  }

  /** The notices addressed to `me`, newest first. */
  function Inbox(notes: seq<Notification>, me: UserId): (r: seq<Notification>)
    ensures SortedDesc(r, (n: Notification) => n.createdAt)
    ensures multiset(r) == multiset(Filter(notes, (n: Notification) => n.recipientId == me))
    ensures forall n :: n in r <==> n in notes && n.recipientId == me
  {
    var mine := Filter(notes, (n: Notification) => n.recipientId == me);
    var r := SortDesc(mine, (n: Notification) => n.createdAt);
    SortDescMembers(mine, (n: Notification) => n.createdAt);
    FilterKeeps(notes, (n: Notification) => n.recipientId == me);
    r
  }

  /** The inbox entries of a list of notices, in the same order. */
  function ViewAll(notes: seq<Notification>, users: seq<User>): (r: seq<NotificationView>)
    ensures |r| == |notes|
    ensures forall i | 0 <= i < |notes| :: r[i] == ViewNotification(notes[i], users)
    ensures forall i | 0 <= i < |notes| :: r[i].note == notes[i]
    ensures forall v | v in r :: v.note in notes
    ensures forall n | n in notes :: exists v | v in r :: v.note == n
  {
    var r := seq(|notes|, i requires 0 <= i < |notes| => ViewNotification(notes[i], users));
    assert forall v | v in r :: v.note in notes by {
      forall v | v in r ensures v.note in notes {
        var i :| 0 <= i < |r| && r[i] == v;
      }
    }
    assert forall n | n in notes :: exists v | v in r :: v.note == n by {
      forall n | n in notes ensures exists v | v in r :: v.note == n {
        var i :| 0 <= i < |notes| && notes[i] == n;
        assert r[i] in r;
      }
    }
    r
  }

  /** `getMyNotifications()`: the caller's inbox, newest first, each entry
      with its sender's name and avatar. */
  function GetMyNotifications(db: Db, session: Option<UserId>): (r: seq<NotificationView>)
    reads db
    ensures db.CurrentUser(session).None? ==> r == []
    ensures db.CurrentUser(session).Some? ==>
      var me := db.CurrentUser(session).value.id;
      && |r| == |Inbox(db.notifications, me)|
      && (forall i | 0 <= i < |r| :: r[i] == ViewNotification(Inbox(db.notifications, me)[i], db.users))
      && (forall i, j | 0 <= i < j < |r| :: r[i].note.createdAt >= r[j].note.createdAt)
      && (forall v | v in r :: v.note in db.notifications && v.note.recipientId == me)
      && (forall n | n in db.notifications && n.recipientId == me :: exists v | v in r :: v.note == n)
  {
    match db.CurrentUser(session)
    case None => []
    case Some(me) =>
      var inbox := Inbox(db.notifications, me.id);
      var r := ViewAll(inbox, db.users);
      r
  }

  /** `markNotificationAsRead(id)`: sets `is_read` on the row with this id if
      it is addressed to the caller; on anybody else's notice, or an unknown
      id, nothing changes and the call still succeeds. */
  method MarkNotificationAsRead(db: Db, session: Option<UserId>, id: RowId) returns (status: Status)
    requires db.Valid()
    modifies db
    ensures db.Valid()
    ensures match old(db.CurrentUser(session))
      case None =>
        status == Failed(NotAuthenticated) && db.State() == old(db.State())
      case Some(me) =>
        && status == Done
        && db.State() == old(db.State()).(notifications := db.notifications)
        && |db.notifications| == |old(db.notifications)|
        && (forall i | 0 <= i < |db.notifications| ::
              var n := old(db.notifications)[i];
              db.notifications[i] == if n.id == id && n.recipientId == me.id then n.(isRead := true) else n)
  {
    var user := db.CurrentUser(session);
    if user.None? {
      return Failed(NotAuthenticated);
    }
    var me := user.value.id;
    var target := (n: Notification) => n.id == id && n.recipientId == me;
    var read := (n: Notification) => n.(isRead := true);
    KeyedUpdate(db.notifications, target, read, (n: Notification) => n.id, db.nextId);
    db.notifications := UpdateWhere(db.notifications, target, read);
    status := Done;
  }

  /** The table after `update({ is_read: true }).eq('recipient_id', me).eq('is_read', false)`. */
  function MarkAllRead(notes: seq<Notification>, me: UserId): (r: seq<Notification>)
    ensures |r| == |notes|
    ensures forall n | n in r && n.recipientId == me :: n.isRead
    ensures forall i | 0 <= i < |notes| && notes[i].recipientId != me :: r[i] == notes[i]
    ensures forall i | 0 <= i < |notes| :: r[i] == notes[i].(isRead := r[i].isRead)
  {
    UpdateWhere(notes, (n: Notification) => n.recipientId == me && !n.isRead,
                (n: Notification) => n.(isRead := true))
  }

  /** Marking everything read a second time changes nothing. */
  lemma MarkAllReadIdempotent(notes: seq<Notification>, me: UserId)
    ensures MarkAllRead(MarkAllRead(notes, me), me) == MarkAllRead(notes, me)
  {
    var once := MarkAllRead(notes, me);
    var twice := MarkAllRead(once, me);
    forall i | 0 <= i < |notes| ensures twice[i] == once[i] {
      assert once[i] in once;
    }
  }

  /** `markAllNotificationsAsRead()`: afterwards the caller has no unread
      notice, and every other recipient's notices are as they were. */
  method MarkAllNotificationsAsRead(db: Db, session: Option<UserId>) returns (status: Status)
    requires db.Valid()
    modifies db
    ensures db.Valid()
    ensures match old(db.CurrentUser(session))
      case None =>
        status == Failed(NotAuthenticated) && db.State() == old(db.State())
      case Some(me) =>
        && status == Done
        && db.State() == old(db.State()).(notifications := MarkAllRead(old(db.notifications), me.id))
  {
    var user := db.CurrentUser(session);
    if user.None? {
      return Failed(NotAuthenticated);
    }
    var me := user.value.id;
    var target := (n: Notification) => n.recipientId == me && !n.isRead;
    var read := (n: Notification) => n.(isRead := true);
    KeyedUpdate(db.notifications, target, read, (n: Notification) => n.id, db.nextId);
    db.notifications := MarkAllRead(db.notifications, me);
    status := Done;
  }

  /** `deleteNotification(id)`: removes the caller's notice with this id, if
      any; at most one row goes, and every other row stays. */
  method DeleteNotification(db: Db, session: Option<UserId>, id: RowId) returns (status: Status)
    requires db.Valid()
    modifies db
    ensures db.Valid()
    ensures match old(db.CurrentUser(session))
      case None =>
        status == Failed(NotAuthenticated) && db.State() == old(db.State())
      case Some(me) =>
        && status == Done
        && db.State() == old(db.State()).(notifications := Filter(old(db.notifications),
             (n: Notification) => !(n.id == id && n.recipientId == me.id)))
        && |db.notifications| >= |old(db.notifications)| - 1
        && (forall n | n in old(db.notifications) && !(n.id == id && n.recipientId == me.id) :: n in db.notifications)
        && (forall n | n in db.notifications :: !(n.id == id && n.recipientId == me.id))
  {
    var user := db.CurrentUser(session);
    if user.None? {
      return Failed(NotAuthenticated);
    }
    var me := user.value.id;
    var keep := (n: Notification) => !(n.id == id && n.recipientId == me);
    KeyedFilter(db.notifications, keep, (n: Notification) => n.id, db.nextId);
    FilterRemovesAtMostOne(db.notifications, keep, (n: Notification) => n.id, id);
    FilterKeeps(db.notifications, keep);
    db.notifications := Filter(db.notifications, keep);
    status := Done;
  }
}
