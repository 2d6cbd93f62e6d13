/**
 * The notification table operations of the notification routes: marking the caller's unread
 * notifications as read (`PATCH /api/notifications/mark-as-read`) and counting them
 * (`GET /api/notifications/unread-count`).
 */
module NotificationCounts {
  import opened Wrappers
  import opened Entities
  import Store

  /** `updateMany({where: {recipientId, read: false}, data: {read: true}})` on the table. */
  function MarkedRead(notifications: map<Id, Notification>, callerId: Id): (r: map<Id, Notification>)
    ensures r.Keys == notifications.Keys
    ensures forall id :: id in r && r[id].recipientId == callerId ==> r[id].read
    ensures forall id :: id in notifications && notifications[id].recipientId != callerId ==> r[id] == notifications[id]
    ensures forall id :: id in notifications ==> r[id] == notifications[id].(read := r[id].read)
  {
    map id | id in notifications ::
      if notifications[id].recipientId == callerId && !notifications[id].read
      then notifications[id].(read := true)
      else notifications[id]
  }

  /** A second mark-as-read changes nothing. */
  lemma MarkedReadIdempotent(notifications: map<Id, Notification>, callerId: Id)
    ensures MarkedRead(MarkedRead(notifications, callerId), callerId) == MarkedRead(notifications, callerId)
  {
  }

  /** The ids the count covers: the caller's unread notifications. */
  function UnreadIds(notifications: map<Id, Notification>, callerId: Id): set<Id>
  {
    set id | id in notifications && notifications[id].recipientId == callerId && !notifications[id].read
  }

  /** `notification.count({where: {recipientId, read: false}})`. */
  function UnreadCount(notifications: map<Id, Notification>, callerId: Id): (r: nat)
    ensures r <= |notifications.Keys|
    ensures r == 0 <==> forall id :: id in notifications && notifications[id].recipientId == callerId ==> notifications[id].read
  {
    var unread := UnreadIds(notifications, callerId);
    assert unread <= notifications.Keys;
    SubsetCardinality(unread, notifications.Keys);
    assert forall id :: id in notifications && notifications[id].recipientId == callerId && !notifications[id].read ==> id in unread;
    assert (|unread| == 0) == (forall id :: id in notifications && notifications[id].recipientId == callerId ==> notifications[id].read) by {
      if unread != {} {
        var id :| id in unread;
        assert notifications[id].recipientId == callerId && !notifications[id].read;
      }
    }
    |unread|
  }

  lemma SubsetCardinality<T>(a: set<T>, b: set<T>)
    requires a <= b
    ensures |a| <= |b|
  {
    assert b == a + (b - a);
  }

  /** Right after a mark-as-read, the caller's unread count is zero. */
  lemma NoneUnreadAfterMarkedRead(notifications: map<Id, Notification>, callerId: Id)
    ensures UnreadCount(MarkedRead(notifications, callerId), callerId) == 0
  {
  }

  /** Marking one recipient's notifications leaves every other recipient's count as it was. */
  lemma OtherCountsUnchanged(notifications: map<Id, Notification>, callerId: Id, otherId: Id)
    requires otherId != callerId
    ensures UnreadCount(MarkedRead(notifications, callerId), otherId) == UnreadCount(notifications, otherId)
  {
    assert UnreadIds(MarkedRead(notifications, callerId), otherId) == UnreadIds(notifications, otherId);
  }

  /** `PATCH /api/notifications/mark-as-read`: 401 without a session, 500 when the update throws. */
  method MarkAsRead(db: Store.Database, session: Session, fails: bool) returns (r: Response<()>)
    requires db.Valid()
    modifies db
    ensures db.Valid()
    ensures session.None? ==> r == Unauthorized() && db.notifications == old(db.notifications)
    ensures session.Some? && fails ==> r == InternalError() && db.notifications == old(db.notifications)
    ensures session.Some? && !fails ==>
      r == EmptyOk && db.notifications == MarkedRead(old(db.notifications), session.value.id)
    ensures db.posts == old(db.posts) && db.comments == old(db.comments) && db.media == old(db.media)
  {
    if session.None? {
      return Unauthorized();
    }
    if fails {
      return InternalError();
    }
    db.notifications := MarkedRead(db.notifications, session.value.id);
    r := EmptyOk;
  }

  /** `GET /api/notifications/unread-count`: 401 without a session, 500 when the count throws, else the caller's unread count. */
  function GetUnreadCount(session: Session, notifications: map<Id, Notification>, fails: bool): (r: Response<nat>)
    ensures session.None? ==> r == Unauthorized()
    ensures session.Some? && fails ==> r == InternalError()
    ensures session.Some? && !fails ==> r.Json? && (r.body == 0 <==>
      forall id :: id in notifications && notifications[id].recipientId == session.value.id ==> notifications[id].read)
    ensures session.Some? && !fails ==> r == Json(UnreadCount(notifications, session.value.id))
  {
    if session.None? then Unauthorized()
    else if fails then InternalError()
    else Json(UnreadCount(notifications, session.value.id))
  }
}
