/**
 * The relational store the server actions and route handlers write through the ORM: one
 * table per entity, each a map from primary key to row. A create whose primary key is
 * already taken fails (the primary-key constraint).
 */
module Store {
  import opened Wrappers
  import opened Entities

  /** The message of the error a create whose primary key is already taken throws. */
  const UniqueConstraintFailed := "Unique constraint failed"

  /** Every row is filed under its own primary key. */
  ghost predicate KeyedById<T>(table: map<Id, T>, id: T -> Id)
  {
    forall k :: k in table ==> id(table[k]) == k
  }

  class Database {
    var posts: map<Id, Post>
    var comments: map<Id, Comment>
    var notifications: map<Id, Notification>
    var media: map<Id, Media>

    ghost predicate Valid()
      reads this
    {
      && KeyedById(posts, (p: Post) => p.id)
      && KeyedById(comments, (c: Comment) => c.id)
      && KeyedById(notifications, (n: Notification) => n.id)
      && KeyedById(media, (m: Media) => m.id)
    }

    /** An empty database. */
    constructor ()
      ensures Valid()
      ensures posts == map[] && comments == map[] && notifications == map[] && media == map[]
    {
      posts, comments, notifications, media := map[], map[], map[], map[];
    }
  }
}
