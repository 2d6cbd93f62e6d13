/** `GET /api/notifications`: the caller's notifications, newest first, one page at a time. */
module NotificationsRoute {
  import opened Wrappers
  import opened Entities
  import opened Pagination
  import opened ListRoute
  import Seqs

  function NotificationId(n: Notification): Id
  {
    n.id
  }

  /** The notifications addressed to the caller, in the order of `notifications` (newest first). */
  function Received(notifications: seq<Notification>, callerId: Id): (r: seq<Notification>)
    ensures forall i :: 0 <= i < |r| ==> r[i] in notifications && r[i].recipientId == callerId
    ensures forall i :: 0 <= i < |notifications| && notifications[i].recipientId == callerId ==> notifications[i] in r
  {
    Seqs.Filter(notifications, (n: Notification) => n.recipientId == callerId)
  }

  /** One GET: 401 without a session, 500 when the query throws, else a page of the caller's notifications. */
  function Get(session: Session, cursorParam: Option<string>, notifications: seq<Notification>, fails: bool)
    : (r: Response<Page<Notification>>)
    ensures session.None? ==> r == Unauthorized()
    ensures session.Some? && fails ==> r == InternalError()
    ensures session.Some? && !fails ==> r.Json? && |r.body.items| <= PageSize
    ensures r.Json? ==> forall i :: 0 <= i < |r.body.items| ==>
      r.body.items[i] in notifications && r.body.items[i].recipientId == session.value.id
    ensures r.Json? && CursorParam(cursorParam).None? ==> var rows := Received(notifications, session.value.id);
      && r.body.items == rows[..Min(PageSize, |rows|)]
      && (r.body.cursor.Some? <==> |rows| > PageSize)
      && (|rows| > PageSize ==> r.body.cursor == Some(rows[PageSize].id))
    ensures r.Json? ==>
      r.body == CursorWindow(Received(notifications, session.value.id), NotificationId, CursorParam(cursorParam), PageSize)
  {
    if session.None? then Unauthorized()
    else
      var rows := Received(notifications, session.value.id);
      ListGetWithinRows(session, cursorParam, rows, NotificationId, fails);
      ListGet(session, cursorParam, rows, NotificationId, fails)
  }
}
