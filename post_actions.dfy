/** The server action `DeletePost`: session, existence and ownership checks, then the delete. */
module PostActions {
  import opened Wrappers
  import opened Entities
  import opened Store

  /** Whether `DeletePost(id)` deletes: a session, a stored post with that id, and the caller owns it. */
  predicate DeleteAccepted(posts: map<Id, Post>, session: Session, id: Id)
  {
    session.Some? && id in posts && posts[id].userId == session.value.id
  }

  /** `DeletePost(id)`: on success exactly the post with that id is gone and is returned. */
  method DeletePost(db: Database, session: Session, id: Id) returns (r: Result<Post>)
    requires db.Valid()
    modifies db
    ensures db.Valid()
    ensures db.comments == old(db.comments) && db.notifications == old(db.notifications) && db.media == old(db.media)
    ensures session.None? ==> r == Err("Unauthorized")
    ensures session.Some? && id !in old(db.posts) ==> r == Err("Post not found")
    ensures session.Some? && id in old(db.posts) && old(db.posts)[id].userId != session.value.id ==>
      r == Err("Unauthorized")
    ensures r.Err? ==> db.posts == old(db.posts)
    ensures r.Ok? <==> DeleteAccepted(old(db.posts), session, id)
    ensures r.Ok? ==> r.value == old(db.posts)[id] && r.value.id == id && db.posts == old(db.posts) - {id}
  {
    if session.None? {
      return Err("Unauthorized");
    }
    if id !in db.posts {
      return Err("Post not found");
    }
    var post := db.posts[id];
    if post.userId != session.value.id {
      return Err("Unauthorized");
    }
    db.posts := db.posts - {id};
    r := Ok(post);
  }
}
