/**
 * The server action `submitPost(input)`. It parses `{content: input}` with `postSchema`,
 * which also requires `mediaIds`; the object never carries that key, so every call with a
 * session is rejected by validation and the create is never reached. The action resolves
 * to nothing on success.
 */
module PostEditorActions {
  import opened Wrappers
  import opened Entities
  import opened Store
  import Validation

  /** The message of the error a failed schema parse throws (its issue list is not modelled). */
  const ValidationFailed := "ZodError"

  /**
   * The body of the action for the object it parses: session check, `postSchema.parse`,
   * then the insert of a post owned by the caller with the validated (trimmed) content.
   * `postId` and `now` are what the database generates for the new row.
   */
  method CreateFromFields(db: Database, session: Session, content: Option<string>,
                          mediaIds: Option<seq<string>>, postId: Id, now: int)
    returns (r: Result<()>)
    requires db.Valid()
    modifies db
    ensures db.Valid()
    ensures db.comments == old(db.comments) && db.notifications == old(db.notifications) && db.media == old(db.media)
    ensures session.None? ==> r == Err("Unauthorized")
    ensures session.Some? && Validation.PostSchema(content, mediaIds).Failure? ==> r == Err(ValidationFailed)
    ensures r.Err? ==> db.posts == old(db.posts)
    ensures session.Some? && Validation.PostSchema(content, mediaIds).Success? && postId in old(db.posts) ==>
      r == Err(UniqueConstraintFailed)
    ensures r.Ok? <==> session.Some? && Validation.PostSchema(content, mediaIds).Success? && postId !in old(db.posts)
    ensures r.Ok? ==>
      && session.Some? && Validation.PostSchema(content, mediaIds).Success?
      && postId !in old(db.posts)
      && db.posts == old(db.posts)[postId := Post(postId, Validation.Trim(content.value), session.value.id, session.value.username, now)]
  {
    if session.None? {
      return Err("Unauthorized");
    }
    var parsed := Validation.PostSchema(content, mediaIds);
    if parsed.Failure? {
      return Err(ValidationFailed);
    }
    if postId in db.posts {
      return Err(UniqueConstraintFailed);
    }
    var user := session.value;
    db.posts := db.posts[postId := Post(postId, parsed.value.content, user.id, user.username, now)];
    r := Ok(());
  }

  /** `submitPost(input)`: always rejected, and the post table is left as it was. */
  method SubmitPost(db: Database, session: Session, input: string, postId: Id, now: int)
    returns (r: Result<()>)
    requires db.Valid()
    modifies db
    ensures db.Valid()
    ensures r.Err?
    ensures session.None? ==> r == Err("Unauthorized")
    ensures session.Some? ==> r == Err(ValidationFailed)
    ensures db.posts == old(db.posts) && db.comments == old(db.comments)
    ensures db.notifications == old(db.notifications) && db.media == old(db.media)
  {
    r := CreateFromFields(db, session, Some(input), None, postId, now);
  }
}
