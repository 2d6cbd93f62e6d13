/**
 * `GET /api/clear-uploads`, the scheduled clean-up of uploaded media no post claimed: the
 * caller must present the cron secret; the selected media files are deleted from the upload
 * service first, then their rows.
 */
module ClearUploads {
  import opened Wrappers
  import opened Entities
  import Store

  /** One day in milliseconds: `1000 * 60 * 60 * 24`. */
  const DayMillis := 86_400_000
  const InvalidHeader := "Invalid authorization header"

  /** An environment variable interpolated into a template string: an unset one reads `undefined`. */
  function EnvString(value: Option<string>): string
  {
    if value.Some? then value.value else "undefined"
  }

  /** The request is let through only when its `authorization` header is exactly `Bearer <CRON_SECRET>`. */
  predicate Authorized(authHeader: Option<string>, cronSecret: Option<string>)
  {
    authHeader == Some("Bearer " + EnvString(cronSecret))
  }

  /** With the secret set, only the exact header passes; a missing header never does. */
  lemma AuthorizedExactly(authHeader: Option<string>, secret: string)
    ensures Authorized(authHeader, Some(secret)) <==> authHeader == Some("Bearer " + secret)
    ensures !Authorized(None, Some(secret))
  {
  }

  /** With the secret unset, the literal header `Bearer undefined` passes. */
  lemma UnsetSecretAcceptsLiteral()
    ensures Authorized(Some("Bearer undefined"), None)
  {
    assert "Bearer " + EnvString(None) == "Bearer undefined";
  }

  predicate IsProduction(nodeEnv: Option<string>)
  {
    nodeEnv == Some("production")
  }

  /** The `where` of the selection: no post claims the media and, in production, it is at least a day old. */
  predicate Unused(m: Media, production: bool, now: int)
  {
    m.postId.None? && (production ==> m.createdAt <= now - DayMillis)
  }

  /** Outside production the age of the media is ignored. */
  lemma AgeIgnoredOutsideProduction(m: Media, now: int)
    ensures Unused(m, false, now) <==> m.postId.None?
  {
  }

  function UnusedIds(media: map<Id, Media>, production: bool, now: int): (r: set<Id>)
    ensures forall id :: id in r <==> id in media && Unused(media[id], production, now)
  {
    set id | id in media && Unused(media[id], production, now)
  }

  /** The table after `deleteMany` of the selected ids. */
  function Remaining(media: map<Id, Media>, production: bool, now: int): (r: map<Id, Media>)
    ensures forall id :: id in r <==> id in media && !Unused(media[id], production, now)
    ensures forall id :: id in r ==> r[id] == media[id]
    ensures forall id :: id in media && media[id].postId.Some? ==> id in r
  {
    map id | id in media && !Unused(media[id], production, now) :: media[id]
  }

  /** A second run at the same instant deletes nothing more. */
  lemma RemainingIdempotent(media: map<Id, Media>, production: bool, now: int)
    ensures Remaining(Remaining(media, production, now), production, now) == Remaining(media, production, now)
  {
  }

  /** `s[i..]` begins with `sep`. */
  predicate OccursAt(s: string, sep: string, i: nat)
  {
    i + |sep| <= |s| && s[i..i + |sep|] == sep
  }

  /** The first occurrence of `sep` in `s` at or after `from`. */
  function FindFrom(s: string, sep: string, from: nat): (r: Option<nat>)
    ensures r.None? ==> forall i :: from <= i ==> !OccursAt(s, sep, i)
    ensures r.Some? ==> from <= r.value && OccursAt(s, sep, r.value) && forall i :: from <= i < r.value ==> !OccursAt(s, sep, i)
    decreases |s| - from
  {
    if |s| < from + |sep| then None
    else if s[from..from + |sep|] == sep then Some(from)
    else FindFrom(s, sep, from + 1)
  }

  /** The first occurrence of `sep` in `s`. */
  function Find(s: string, sep: string): (r: Option<nat>)
    ensures r.None? <==> forall i: nat :: !OccursAt(s, sep, i)
    ensures r.Some? ==> OccursAt(s, sep, r.value) && forall i: nat :: i < r.value ==> !OccursAt(s, sep, i)
  {
    FindFrom(s, sep, 0)
  }

  /** The first occurrence in a text is also the first in any extension of it. */
  lemma FindInExtension(a: string, b: string, sep: string, i: nat)
    requires Find(a, sep) == Some(i)
    ensures Find(a + b, sep) == Some(i)
  {
    assert (a + b)[i..i + |sep|] == a[i..i + |sep|];
    assert OccursAt(a + b, sep, i);
    forall j: nat | j < i
      ensures !OccursAt(a + b, sep, j)
    {
      assert !OccursAt(a, sep, j);
      assert (a + b)[j..j + |sep|] == a[j..j + |sep|];
    }
  }

  /** The separator `/a/<APP_ID>/` of the app's upload urls. */
  function Separator(appId: Option<string>): string
  {
    "/a/" + EnvString(appId) + "/"
  }

  /** `url.split(sep)[1]`: the text between the first and second separator, or to the end; none without a separator. */
  function FileKey(url: string, sep: string): (r: Option<string>)
    requires |sep| > 0
    ensures r.None? <==> Find(url, sep).None?
    ensures r.Some? ==> Find(r.value, sep).None?
  {
    match Find(url, sep)
    case None => None
    case Some(i) =>
      var after := url[i + |sep|..];
      match Find(after, sep)
      case None => Some(after)
      case Some(j) =>
        NoEarlierOccurrence(after, sep, j);
        Some(after[..j])
  }

  /** A text cut before the first occurrence of `sep` has none. */
  lemma NoEarlierOccurrence(s: string, sep: string, j: nat)
    requires |sep| > 0
    requires Find(s, sep) == Some(j)
    ensures Find(s[..j], sep).None?
  {
    forall i: nat
      ensures !OccursAt(s[..j], sep, i)
    {
      if i + |sep| <= j {
        assert s[..j][i..i + |sep|] == s[i..i + |sep|];
        assert !OccursAt(s, sep, i);
      }
    }
  }

  /** The key of an upload url is the text after the separator when no further separator follows. */
  lemma FileKeyOfUploadUrl(prefix: string, sep: string, key: string)
    requires |sep| > 0
    requires Find(prefix + sep, sep) == Some(|prefix|)
    requires Find(key, sep).None?
    ensures FileKey(prefix + sep + key, sep) == Some(key)
  {
    FindInExtension(prefix + sep, key, sep, |prefix|);
    assert (prefix + sep + key)[|prefix| + |sep|..] == key;
  }

  /** A second separator ends the key. */
  lemma FileKeyStopsAtSecondSeparator(prefix: string, sep: string, key: string, rest: string)
    requires |sep| > 0
    requires Find(prefix + sep, sep) == Some(|prefix|)
    requires Find(key + sep, sep) == Some(|key|)
    ensures FileKey(prefix + sep + key + sep + rest, sep) == Some(key)
  {
    var url := prefix + sep + key + sep + rest;
    assert url == (prefix + sep) + (key + sep + rest);
    FindInExtension(prefix + sep, key + sep + rest, sep, |prefix|);
    assert url[|prefix| + |sep|..] == (key + sep) + rest;
    FindInExtension(key + sep, rest, sep, |key|);
    assert ((key + sep) + rest)[..|key|] == key;
  }

  /** Where the clean-up can throw. */
  datatype Failure = NoFailure | SelectFails | RemoteDeleteFails | RowDeleteFails

  /**
   * The route: authorization, selection, remote deletion of the selected files (by key), then
   * deletion of their rows. `requested` is the set of file keys sent to the upload service.
   */
  method Clear(db: Store.Database, authHeader: Option<string>, cronSecret: Option<string>, nodeEnv: Option<string>,
               appId: Option<string>, now: int, failure: Failure)
    returns (r: Response<()>, requested: set<Option<string>>)
    requires db.Valid()
    modifies db
    ensures db.Valid()
    ensures db.posts == old(db.posts) && db.comments == old(db.comments) && db.notifications == old(db.notifications)
    ensures !Authorized(authHeader, cronSecret) ==>
      r == ErrorJson(401, InvalidHeader) && requested == {} && db.media == old(db.media)
    ensures Authorized(authHeader, cronSecret) && failure == SelectFails ==>
      r == InternalError() && requested == {} && db.media == old(db.media)
    ensures Authorized(authHeader, cronSecret) && failure != SelectFails ==>
      requested == set id | id in UnusedIds(old(db.media), IsProduction(nodeEnv), now) :: FileKey(old(db.media)[id].url, Separator(appId))
    ensures Authorized(authHeader, cronSecret) && (failure == RemoteDeleteFails || failure == RowDeleteFails) ==>
      r == InternalError() && db.media == old(db.media)
    ensures Authorized(authHeader, cronSecret) && failure == NoFailure ==>
      r == EmptyOk && db.media == Remaining(old(db.media), IsProduction(nodeEnv), now)
    ensures forall id :: id in old(db.media) && old(db.media)[id].postId.Some? ==> id in db.media && db.media[id] == old(db.media)[id]
  {
    requested := {};
    if !Authorized(authHeader, cronSecret) {
      return ErrorJson(401, InvalidHeader), requested;
    }
    if failure == SelectFails {
      return InternalError(), requested;
    }
    var production := IsProduction(nodeEnv);
    var unused := UnusedIds(db.media, production, now);
    requested := set id | id in unused :: FileKey(db.media[id].url, Separator(appId));
    if failure == RemoteDeleteFails || failure == RowDeleteFails {
      return InternalError(), requested;
    }
    db.media := Remaining(db.media, production, now);
    r := EmptyOk;
  }
}
