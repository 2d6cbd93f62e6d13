/**
 * The records the application stores and exchanges: the rows of the relational tables
 * (posts, comments, notifications, media, bookmarks, follows) as the server code sees them,
 * the page shapes its list endpoints return, and the HTTP responses of its route handlers.
 */
module Entities {
  import opened Wrappers

  /** Primary keys are strings generated by the database. */
  type Id = string

  /** The user a session resolves to (`validateRequest().user`). */
  datatype User = User(id: Id, username: string, displayName: string)

  /** A session lookup: `None` when the request carries no valid session. */
  type Session = Option<User>

  /** A post with its author included (`PostData`): `username` is the included `user.username`. */
  datatype Post = Post(id: Id, content: string, userId: Id, username: string, createdAt: int)

  /**
   * A slot of a cached post feed: a post, or `None` for the JavaScript `undefined` that a
   * feed patch may insert.
   */
  type FeedItem = Option<Post>

  /** A comment row (`CommentData` without the included author). */
  datatype Comment = Comment(id: Id, content: string, postId: Id, userId: Id, createdAt: int)

  datatype NotificationType = FOLLOW | COMMENT | LIKE

  /** A notification row; `read` is false when created. */
  datatype Notification = Notification(
    id: Id, kind: NotificationType, issuerId: Id, recipientId: Id,
    postId: Option<Id>, read: bool, createdAt: int)

  /** An uploaded file; `postId` stays `None` until a post claims it. */
  datatype Media = Media(id: Id, url: string, postId: Option<Id>, createdAt: int)

  /** A bookmark row with its post included. */
  datatype Bookmark = Bookmark(id: Id, userId: Id, postId: Id, post: Post, createdAt: int)

  /** A follow row: `followerId` follows `followingId`. */
  datatype Follow = Follow(followerId: Id, followingId: Id)

  /**
   * One page of a paginated list. For `PostsPage` and `NotificationsPage` the items are
   * `posts`/`notifications` and `cursor` is `nextCursor`; for `CommentsPage` the items are
   * `comments` and `cursor` is `previousCursor`. `None` stands for JSON `null`.
   */
  datatype Page<T> = Page(items: seq<T>, cursor: Option<Id>)

  /** What a route handler answers: a JSON body, an empty 200, or an error envelope. */
  datatype Response<T> = Json(body: T) | EmptyOk | ErrorJson(status: int, error: string)

  /** The envelope of a handler that failed on a missing session. */
  function Unauthorized<T>(): Response<T> { ErrorJson(401, "Unauthorized") }

  /** The envelope of a handler whose body threw. */
  function InternalError<T>(): Response<T> { ErrorJson(500, "Internal server error") }

  /** A transient notice; `destructive` is the error styling. */
  datatype Toast = Toast(destructive: bool, description: string)

  /** The request the optimistic buttons send to the server. */
  datatype HttpMethod = POST | DELETE
}
