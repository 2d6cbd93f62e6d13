/**
 * The server actions on comments: `submitComment` writes the comment and, when the
 * commenter is not the post's owner, a COMMENT notification in one transaction;
 * `deleteComment` checks the session, the comment's existence and its ownership, in that
 * order, before deleting it.
 */
module CommentActions {
  import opened Wrappers
  import opened Entities
  import opened Store

  /** The message of the error a comment naming a post that no longer exists throws. */
  const ForeignKeyConstraintFailed := "Foreign key constraint failed"

  /** Whether submitting a comment on `post` as `user` also notifies the post's owner. */
  predicate NotifiesOwner(post: Post, user: User)
  {
    post.userId != user.id
  }

  /** The notification a comment by `user` on `post` creates. */
  function CommentNotification(id: Id, post: Post, user: User, now: int): (n: Notification)
    ensures n.kind == COMMENT && n.issuerId == user.id && n.recipientId == post.userId
    ensures n.postId == Some(post.id) && !n.read
  {
    Notification(id, COMMENT, user.id, post.userId, Some(post.id), false, now)
  }

  /**
   * Whether the transaction of `submitComment` commits: a session, content the schema accepts,
   * the commented post still stored, and fresh keys for the rows it creates.
   */
  predicate SubmitAccepted(db: Database, session: Session, post: Post, content: string,
                           createCommentSchema: string -> Result<string>, commentId: Id, notificationId: Id)
    reads db
  {
    && session.Some? && createCommentSchema(content).Ok?
    && post.id in db.posts
    && commentId !in db.comments
    && (NotifiesOwner(post, session.value) ==> notificationId !in db.notifications)
  }

  /**
   * `submitComment({post, content})`. `post` is the client's copy of the post, which may have
   * been deleted since; the comment row then names a missing post and the transaction fails. The comment schema is opaque: `createCommentSchema`
   * returns the validated content or the message it throws. `commentId`, `notificationId`
   * and `now` are what the database generates for the new rows.
   */
  method SubmitComment(db: Database, session: Session, post: Post, content: string,
                       createCommentSchema: string -> Result<string>,
                       commentId: Id, notificationId: Id, now: int)
    returns (r: Result<Comment>)
    requires db.Valid()
    modifies db
    ensures db.Valid()
    ensures db.posts == old(db.posts) && db.media == old(db.media)
    ensures session.None? ==> r == Err("Unauthorized")
    ensures session.Some? && createCommentSchema(content).Err? ==> r == Err(createCommentSchema(content).error)
    ensures r.Err? ==> db.comments == old(db.comments) && db.notifications == old(db.notifications)
    ensures r.Ok? ==>
      && session.Some? && createCommentSchema(content).Ok?
      && r.value == Comment(commentId, createCommentSchema(content).value, post.id, session.value.id, now)
      && commentId !in old(db.comments)
      && db.comments == old(db.comments)[commentId := r.value]
      && db.notifications == (if NotifiesOwner(post, session.value)
                              then old(db.notifications)[notificationId := CommentNotification(notificationId, post, session.value, now)]
                              else old(db.notifications))
    ensures session.Some? && createCommentSchema(content).Ok? && post.id !in old(db.posts) ==>
      r == Err(ForeignKeyConstraintFailed)
    ensures r.Ok? <==> old(SubmitAccepted(db, session, post, content, createCommentSchema, commentId, notificationId))
  {
    if session.None? {
      return Err("Unauthorized");
    }
    var user := session.value;
    var parsed := createCommentSchema(content);
    if parsed.Err? {
      return Err(parsed.error);
    }
    var newComment := Comment(commentId, parsed.value, post.id, user.id, now);
    var notify := NotifiesOwner(post, user);
    // the transaction commits both writes or neither
    if post.id !in db.posts {
      return Err(ForeignKeyConstraintFailed);
    }
    if commentId in db.comments || (notify && notificationId in db.notifications) {
      return Err(UniqueConstraintFailed);
    }
    db.comments := db.comments[commentId := newComment];
    if notify {
      db.notifications := db.notifications[notificationId := CommentNotification(notificationId, post, user, now)];
    }
    r := Ok(newComment);
  }

  /** `deleteComment(id)`: session, then existence, then ownership; then exactly that row goes. */
  method DeleteComment(db: Database, session: Session, id: Id) returns (r: Result<Comment>)
    requires db.Valid()
    modifies db
    ensures db.Valid()
    ensures db.posts == old(db.posts) && db.notifications == old(db.notifications) && db.media == old(db.media)
    ensures session.None? ==> r == Err("Unauthorized")
    ensures session.Some? && id !in old(db.comments) ==> r == Err("Comment not found")
    ensures session.Some? && id in old(db.comments) && old(db.comments)[id].userId != session.value.id ==>
      r == Err("Unauthorized")
    ensures r.Err? ==> db.comments == old(db.comments)
    ensures r.Ok? <==> session.Some? && id in old(db.comments) && old(db.comments)[id].userId == session.value.id
    ensures r.Ok? ==> r.value == old(db.comments)[id] && r.value.id == id && db.comments == old(db.comments) - {id}
  {
    if session.None? {
      return Err("Unauthorized");
    }
    if id !in db.comments {
      return Err("Comment not found");
    }
    var comment := db.comments[id];
    if comment.userId != session.value.id {
      return Err("Unauthorized");
    }
    db.comments := db.comments - {id};
    r := Ok(comment);
  }
}
