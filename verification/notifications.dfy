/** Notification read-state (lib/notifications.ts) and the batch insert the fan-outs use. */
module Notifications {
  import opened Wrappers
  import opened Schema
  import opened Seqs
  import opened Tables

  /** `getNotifications` returns at most this many rows. */
  const NotificationLimit: nat := 50

  function ForUser(uid: Id): Notification -> bool {
    (n: Notification) => n.userId == uid
  }

  /** `eq('user_id', uid).eq('read', false)`: a null `read` does not match. */
  function UnreadFor(uid: Id): Notification -> bool {
    (n: Notification) => n.userId == uid && n.read == Some(false)
  }

  function NotificationWithId(nid: Id): Notification -> bool {
    (n: Notification) => n.id == nid
  }

  function MarkRead(n: Notification): Notification {
    n.(read := Some(true))
  }

  /** `order('created_at', { ascending: false })`. */
  predicate NewestFirst(a: Notification, b: Notification) {
    b.createdAt <= a.createdAt
  }

  /** Inserts one notification per recipient, in recipient order, all with the same
      title, content, type and payload. */
  function Broadcast(s: Store, now: Time, recipients: seq<Id>, title: string, content: string,
                     kind: string, data: Payload): (s': Store)
    ensures s'.(notifications := s.notifications, nextId := s.nextId) == s
    ensures s'.nextId == s.nextId + |recipients|
    ensures |s'.notifications| == |s.notifications| + |recipients|
    ensures s'.notifications[..|s.notifications|] == s.notifications
    ensures forall i :: 0 <= i < |recipients| ==>
              var n := s'.notifications[|s.notifications| + i];
              n.userId == recipients[i] && n.title == title && n.content == content
              && n.kind == kind && n.data == data && n.read == UnreadOnInsert && n.createdAt == now
    ensures Valid(s) ==> Valid(s')
  {
    var batch := seq(|recipients|, i requires 0 <= i < |recipients| =>
      Notification(s.nextId + i, recipients[i], title, content, kind, data, UnreadOnInsert, now));
    AddNotifications(s, batch)
  }

  /** `getNotifications`: the caller's notifications, newest first, at most 50. */
  function GetNotifications(s: Store, caller: Option<Id>): (r: Result<seq<Notification>, Error>)
    ensures caller.None? <==> r.Err?
    ensures r.Err? ==> r.error == NotAuthenticated
    ensures r.Ok? ==> |r.value| <= NotificationLimit
    ensures r.Ok? ==> forall n :: n in r.value ==> n in s.notifications && n.userId == caller.value
    ensures r.Ok? ==> SortedBy(r.value, NewestFirst)
    ensures r.Ok? ==> multiset(r.value) <= multiset(Filter(s.notifications, ForUser(caller.value)))
    ensures r.Ok? ==> forall n :: n in s.notifications && n.userId == caller.value && n !in r.value ==>
              |r.value| == NotificationLimit && forall m :: m in r.value ==> n.createdAt <= m.createdAt
  {
    match caller
    case None => Err(NotAuthenticated)
    case Some(uid) => Ok(Page(s.notifications, ForUser(uid), NewestFirst, NotificationLimit))
  }

  /** `markAsRead`: sets `read` on the one notification with that id. */
  function MarkAsRead(s: Store, nid: Id): (r: Reply<Notification>)
    ensures r.store.(notifications := s.notifications) == s
    ensures r.result.Err? ==> r.store == s
    ensures Valid(s) ==> (r.result.Ok? <==> exists n :: n in s.notifications && n.id == nid)
    ensures r.result.Ok? ==> r.result.value.id == nid && r.result.value.read == Some(true)
    ensures |r.store.notifications| == |s.notifications|
    ensures forall i :: 0 <= i < |s.notifications| && s.notifications[i].id != nid ==>
              r.store.notifications[i] == s.notifications[i]
    ensures r.result.Ok? ==> forall i :: 0 <= i < |s.notifications| && s.notifications[i].id == nid ==>
              r.store.notifications[i] == s.notifications[i].(read := Some(true))
    ensures Valid(s) ==> Valid(r.store)
  {
    KeyedMatch(s.notifications, NotificationKey, nid, NotificationWithId(nid));
    UpdateNotification(s, NotificationWithId(nid), MarkRead)
  }

  /** `markAsRead` is idempotent. */
  lemma MarkAsReadIdempotent(s: Store, nid: Id)
    ensures MarkAsRead(MarkAsRead(s, nid).store, nid).store == MarkAsRead(s, nid).store
  {
    var s1 := MarkAsRead(s, nid).store;
    var p := NotificationWithId(nid);
    if MarkAsRead(s, nid).result.Ok? {
      UpdateWhereKeepsCount(s.notifications, p, MarkRead, p);
      assert UpdateWhere(s1.notifications, p, MarkRead) == s1.notifications;
    }
  }

  /** `markAllAsRead`: every unread notification of the caller becomes read. */
  function MarkAllAsRead(s: Store, caller: Option<Id>): (r: Reply<()>)
    ensures caller.None? <==> r.result.Err?
    ensures r.result.Err? ==> r.store == s && r.result.error == NotAuthenticated
    ensures r.store.(notifications := s.notifications) == s
    ensures |r.store.notifications| == |s.notifications|
    ensures caller.Some? ==> forall n :: n in r.store.notifications && n.userId == caller.value ==>
              n.read != Some(false)
    ensures forall i :: 0 <= i < |s.notifications| ==>
              r.store.notifications[i].(read := s.notifications[i].read) == s.notifications[i]
    ensures forall i :: 0 <= i < |s.notifications| && r.store.notifications[i] != s.notifications[i] ==>
              caller.Some? && s.notifications[i].userId == caller.value
              && s.notifications[i].read == Some(false) && r.store.notifications[i].read == Some(true)
    ensures Valid(s) ==> Valid(r.store)
  {
    match caller
    case None => Reply(Err(NotAuthenticated), s)
    case Some(uid) => Reply(Ok(()), UpdateNotifications(s, UnreadFor(uid), MarkRead))
  }

  /** The `{ count, error }` pair `getUnreadCount` returns. */
  datatype UnreadCount = UnreadCount(count: nat, error: Option<Error>)

  /** `getUnreadCount`: how many of the caller's notifications have `read = false`. */
  function GetUnreadCount(s: Store, caller: Option<Id>): (r: UnreadCount)
    ensures caller.None? ==> r == UnreadCount(0, Some(NotAuthenticated))
    ensures caller.Some? ==> r.error.None?
    ensures r.count <= |s.notifications|
    ensures caller.Some? ==>
              (r.count > 0 <==> exists n :: n in s.notifications && n.userId == caller.value && n.read == Some(false))
    ensures caller.Some? ==>
              r.count == |Passing(s.notifications, UnreadFor(caller.value))|
  {
    match caller
    case None => UnreadCount(0, Some(NotAuthenticated))
    case Some(uid) =>
      var unread := Filter(s.notifications, UnreadFor(uid));
      assert |unread| > 0 ==> unread[0] in unread;
      FilterCount(s.notifications, UnreadFor(uid));
      UnreadCount(|unread|, None)
  }

  /** After `markAllAsRead`, the caller's unread count is zero. */
  lemma MarkAllAsReadClearsCount(s: Store, uid: Id)
    ensures GetUnreadCount(MarkAllAsRead(s, Some(uid)).store, Some(uid)).count == 0
  {
    var s1 := MarkAllAsRead(s, Some(uid)).store;
    FilterNone(s1.notifications, UnreadFor(uid));
  }

  /** `markAllAsRead` leaves every other user's unread count as it was. */
  lemma MarkAllAsReadKeepsOthers(s: Store, uid: Id, other: Id)
    requires other != uid
    ensures GetUnreadCount(MarkAllAsRead(s, Some(uid)).store, Some(other)) == GetUnreadCount(s, Some(other))
  {
    var s1 := MarkAllAsRead(s, Some(uid)).store;
    UpdateWhereKeepsCount(s.notifications, UnreadFor(uid), MarkRead, UnreadFor(other));
  }

  /** `createNotification`: inserts one notification for the given user. */
  function CreateNotification(s: Store, now: Time, uid: Id, title: string, content: string,
                              kind: string, data: Payload): (r: Reply<Notification>)
    ensures r.result.Ok?
    ensures r.store.(notifications := s.notifications, nextId := s.nextId) == s
    ensures r.store.notifications == s.notifications + [r.result.value]
    ensures s.nextId < r.store.nextId
    ensures r.result.value.userId == uid && r.result.value.title == title
    ensures r.result.value.content == content && r.result.value.kind == kind
    ensures r.result.value.data == data && r.result.value.read == UnreadOnInsert
    ensures Valid(s) ==> Valid(r.store)
  {
    var n := Notification(s.nextId, uid, title, content, kind, data, UnreadOnInsert, now);
    Reply(Ok(n), AddNotifications(s, [n]))
  }

  /** A new notification raises its recipient's unread count by one. */
  lemma CreateNotificationCounts(s: Store, now: Time, uid: Id, title: string, content: string,
                                 kind: string, data: Payload)
    ensures GetUnreadCount(CreateNotification(s, now, uid, title, content, kind, data).store, Some(uid)).count
            == GetUnreadCount(s, Some(uid)).count + 1
  {
    var r := CreateNotification(s, now, uid, title, content, kind, data);
    FilterSnoc(s.notifications, r.result.value, UnreadFor(uid));
  }
}
