# A verified model of a Next.js social app's client cache and server handlers

The app is a small social network. Users write posts with up to five media attachments. They
like, bookmark and comment on posts, follow other users, search, and receive notifications.
This project models, in Dafny, the deterministic logic that sits between the app's library
calls, and proves what that logic promises:

- **Client page cache.** The react-query cache holds each feed and comment list as
  `InfiniteData`: the fetched pages plus the page parameter each was fetched with. Creating a
  post prepends it to every "for you" feed. Deleting a post filters it out of every feed.
  Creating a comment appends it to the first fetched page of the comment list, and deleting one
  filters it out. The comment list shows the fetched pages reversed, then flattened. The
  invariant these patches share: page count, cursors and page parameters never change.
- **Optimistic toggles.** Like, follow and bookmark buttons snapshot one cache cell, write the
  toggled value, send the request chosen from the rendered value, and write the snapshot back
  on error.
- **Media attachments.** The upload hook keeps a list of attachments and updates it: append on
  upload start, media ids on completion, purge on error, remove, reset. A new upload is
  admitted only when none is running and the post stays within 5 attachments.
- **Cursor pagination.** The feed, following, bookmarked, notifications and search GET
  handlers fetch 11 rows from an inclusive cursor, return the first 10 and name the 11th as
  the next cursor. Consecutive pages therefore tile the collection. The search handler first
  rewrites its query by joining the space-separated words with `" & "`.
- **Validators.** The zod schemas for sign-up, log-in, posts and profile updates, as string
  predicates over JavaScript's `trim`.
- **Server actions and routes over the database.**
  - Create a comment, plus a notification when the post's owner is someone else.
  - Delete a comment or a post, after session, existence and ownership checks.
  - Submit a post.
  - Mark notifications read, and count unread notifications.
  - The scheduled sweep of media no post claims.

The database is a class `Store.Database` with one map per table, keyed by id. A react-query
client is a class `QueryCache.QueryClient` whose map from query key to cached query the
methods update in place. The upload hook's state is the class `MediaUpload.MediaUploader`.
Sessions, clocks, UUIDs, the full-text matcher, the e-mail check and the comment schema are
parameters. So is a failing query in the route handlers: each takes a flag saying whether its
query throws. The server actions fail only where the store itself refuses a write: a primary
key already taken, or a comment on a post that is no longer stored.

Behaviours of the code worth knowing:

- **Cursor.** The handlers pass the cursor to Prisma without `skip`, so it is inclusive: the
  cursor a page returns names the first row of the next page, a row the page itself left out.
- **Rollback.** A failed toggle writes the snapshot back with `setQueryData`, which ignores
  `undefined`. An absent snapshot therefore leaves the optimistic value in place (see Findings).
- **Data the code never produces.**
  - `submitPost` resolves to nothing, yet the feed patch prepends its result. The cached feed
    slots are therefore optional posts.
  - `submitPost` parses `{content}` with a schema that requires `mediaIds`, so it always
    rejects. The model keeps both facts.

## Model

| member | source | states |
|---|---|---|
| QueryCache.SetData | src/components/comments/mutations.ts:23-46 | `setQueryData` writes the value and clears the invalidation; writing `undefined` changes nothing; other keys keep their queries |
| QueryCache.QueryClient.SetQueryData | src/components/comments/mutations.ts:23-46 | the new cache is `SetData` of the old one |
| QueryCache.QueryClient.SetQueriesData | src/components/posts/editor/mutations.ts:32-55 | every query the key prefix matches gets the updater's result (none when it returns `undefined`); the others and the key set are unchanged |
| QueryCache.QueryClient.TrySetQueriesData | src/components/posts/mutations.ts:27-40 | an updater that throws on some matching query leaves the cache unchanged and reports the error; otherwise every matching query is written |
| QueryCache.QueryClient.InvalidateQueries | src/components/posts/editor/mutations.ts:61-66 | exactly the matching queries that pass the predicate become invalidated; data never changes |
| QueryCache.FilterEachPage | src/components/posts/mutations.ts:31-38 | same page count, cursors and page parameters; each page is the filter of the old page; only failing items are dropped |
| QueryCache.FilterEachPageIdempotent | src/components/posts/mutations.ts:36 | filtering every page twice equals filtering once |
| PostEditorMutations.PrependPost | src/components/posts/editor/mutations.ts:35-54 | defined iff a first page exists; the new post is at index 0 followed by the old first page in order; the shape and the later pages are unchanged |
| PostEditorMutations.OnSuccess | src/components/posts/editor/mutations.ts:26-71 | for-you queries with a first page get the prepend and are not invalidated; dataless ones stay dataless and become invalidated; other keys are untouched; toast "Post created" |
| PostEditorMutations.OnError | src/components/posts/editor/mutations.ts:72-78 | the destructive toast "Failed to post. Please try again." |
| PostEditorMutations.Settle | src/components/posts/editor/mutations.ts:24-78 | on failure the cache is unchanged and the failure toast is shown |
| PostEditorMutations.SubmitPostMutation | src/components/posts/editor/mutations.ts:24-79 | since the action always rejects, the feeds and the post table never change and the failure toast is shown |
| PostMutations.RemovePost | src/components/posts/mutations.ts:27-40 | absent data stays absent; otherwise it throws iff a slot is `undefined`; on success no page holds the deleted id, every other post is kept, and the shape is unchanged |
| PostMutations.RemovePostKeepsOrder | src/components/posts/mutations.ts:36 | each page is the order-preserving filter of the old page |
| PostMutations.RemovePostIdempotent | src/components/posts/mutations.ts:36 | removing the same post twice equals removing it once |
| PostMutations.Redirect | src/components/posts/mutations.ts:46-48 | navigates iff the path is `/posts/<id>`, and then to `/users/<author username>` |
| PostMutations.OnSuccess | src/components/posts/mutations.ts:21-57 | success iff no feed updater throws; then every post-feed query is patched and the redirect decided; otherwise the cache is unchanged, the failure toast is shown and there is no navigation |
| PostMutations.DeletePostMutation | src/components/posts/mutations.ts:18-57 | the post leaves the table iff the caller is signed in and owns a stored post with that id; "Post deleted" iff that holds and no feed updater throws, and then every post feed has lost the post and the redirect is decided; otherwise the failure toast, no navigation and an unchanged cache |
| CommentMutations.AppendComment | src/components/comments/mutations.ts:26-45 | defined iff a first page exists; the comment is last on the first fetched page; the earlier comments, later pages and the shape are unchanged |
| CommentMutations.RemoveComment | src/components/comments/mutations.ts:89-99 | same shape; each page is the order-preserving filter of the old page, so no page holds the deleted id and every other comment stays in place |
| CommentMutations.RemoveCommentIdempotent | src/components/comments/mutations.ts:96 | deleting the same comment twice equals deleting it once |
| CommentMutations.OnSubmitSuccess | src/components/comments/mutations.ts:18-65 | the append is written when there is a first page; matching dataless queries become invalidated; every for-you feed becomes invalidated with its data unchanged |
| CommentMutations.OnDeleteSuccess | src/components/comments/mutations.ts:82-109 | the comment list becomes `RemoveComment` of its old data; every for-you feed becomes invalidated with its data unchanged |
| CommentMutations.SubmitCommentMutation | src/components/comments/mutations.ts:16-73 | "Comment created" iff the action's transaction commits (session, schema, stored post, fresh keys); then the comment list holds the append and the for-you feeds are stale; otherwise the thrown message as a destructive toast and both caches unchanged |
| CommentMutations.DeleteCommentMutation | src/components/comments/mutations.ts:80-117 | "Comment deleted" iff the caller is signed in and owns a stored comment with that id, and exactly that comment leaves the table; then its post's comment list is `RemoveComment` of the old one and the for-you feeds are stale; otherwise both caches are unchanged |
| CommentsView.Select | src/components/comments/Comments.tsx:29-32 | the page count and the parameter count are kept |
| CommentsView.SelectPairsPagesAndParams | src/components/comments/Comments.tsx:29-32 | shown page i is fetched page n-1-i, and so is its page parameter |
| CommentsView.SelectTwice | src/components/comments/Comments.tsx:30-31 | reversing twice gives back the fetched order |
| CommentsView.ShownLength | src/components/comments/Comments.tsx:35 | the flattened list's length is the sum of the page lengths |
| CommentsView.NewCommentShownLast | src/components/comments/Comments.tsx:29-35 | after the submit patch, the new comment is the last comment shown |
| CommentsView.NextPageParam | src/components/comments/Comments.tsx:28-32 | the next page parameter is the cursor of the page `select` shows at the top, so the next request loads the comments before the oldest one shown |
| CommentsView.RequestCursors | src/components/comments/Comments.tsx:24-28 | the first request sends no cursor; a later one sends the latest page's cursor; a missing or empty page parameter sends none, as `Pagination.CursorParam` states |
| CommentsView.NoCommentsMessageIff | src/components/comments/Comments.tsx:50-52 | "No comments yet." is shown iff the query succeeded and every page is empty |
| Optimistic.OnMutate | src/components/posts/LikeButton.tsx:51-63 | returns exactly the value cached before the write, and writes the toggle of that value |
| Optimistic.Rollback | src/components/posts/LikeButton.tsx:65-66 | the cache becomes `SetData` with the snapshot, so an `undefined` snapshot writes nothing |
| Optimistic.DefinedSnapshotRestored | src/components/posts/LikeButton.tsx:65-66 | a failed toggle over a defined snapshot restores that snapshot |
| Optimistic.AbsentSnapshotNotRestored | src/components/posts/LikeButton.tsx:65-66 | a failed toggle over an absent snapshot leaves `toggle(undefined)` cached, which differs from the snapshot |
| Optimistic.RollbackRestoring | src/components/posts/LikeButton.tsx:65-66 | the corrected rollback: afterwards the cell holds the snapshot, or has no data when the snapshot was absent |
| Optimistic.RestoringRollbackRestores | src/components/posts/LikeButton.tsx:65-66 | with the corrected rollback, a failed toggle restores the snapshot in every case |
| LikeButton.LikeInfoKey | src/components/posts/LikeButton.tsx:36 | the key `["like-info", postId]` |
| LikeButton.ToggleFlipsAndCounts | src/components/posts/LikeButton.tsx:56-61 | the flag is negated; the count moves by +1 when it becomes liked and by -1 otherwise (absent counts as 0) |
| LikeButton.ToggleTwice | src/components/posts/LikeButton.tsx:56-61 | toggling a defined state twice returns it |
| LikeButton.ToggleAbsent | src/components/posts/LikeButton.tsx:57-60 | an absent snapshot becomes 1 like, liked |
| LikeButton.ToggleKeepsConsistent | src/components/posts/LikeButton.tsx:56-61 | a state with a non-negative count, and at least one like when liked, stays so |
| LikeButton.ToggledTimesParity | src/components/posts/LikeButton.tsx:56-61 | n toggles equal the state for even n, and one toggle for odd n |
| LikeButton.RequestMatchesOptimisticValue | src/components/posts/LikeButton.tsx:47-50 | POST iff the optimistic value is liked; DELETE iff it is unliked |
| LikeButton.Click | src/components/posts/LikeButton.tsx:46-72 | the request is chosen from the rendered data; success keeps the toggled value; failure restores a defined snapshot, keeps 1 like when it was absent, and toasts the message |
| FollowButton.FollowerInfoKey | src/components/FollowButton.tsx:36 | the key `["follower-info", userId]` |
| FollowButton.ToggleFlipsAndCounts | src/components/FollowButton.tsx:49-54 | the flag is negated; the follower count moves by +1 or -1 in step with it (absent counts as 0) |
| FollowButton.ToggleTwice | src/components/FollowButton.tsx:49-54 | toggling a defined state twice returns it |
| FollowButton.ToggleKeepsConsistent | src/components/FollowButton.tsx:49-54 | a consistent follower state stays consistent |
| FollowButton.LabelNamesRequest | src/components/FollowButton.tsx:69-73 | "Unfollow" iff the request is DELETE, "Follow" iff POST; label and variant flip with the toggle |
| FollowButton.Click | src/components/FollowButton.tsx:39-65 | the request is chosen from the rendered data; success keeps the toggled value; failure restores a defined snapshot and toasts the message |
| BookmarkButton.BookmarkInfoKey | src/components/posts/BookmarkButton.tsx:29 | the key `["bookmark-info", postId]` |
| BookmarkButton.ToggleTwice | src/components/posts/BookmarkButton.tsx:54-56 | toggling twice returns the original flag |
| BookmarkButton.AnnouncementMatchesRequest | src/components/posts/BookmarkButton.tsx:47-49 | "Post unbookmarked" iff the request is DELETE; "Post bookmarked" iff POST, and iff the optimistic value is bookmarked |
| BookmarkButton.Click | src/components/posts/BookmarkButton.tsx:41-67 | the announcement comes first; success keeps the flipped flag; failure restores a defined snapshot and adds the error toast |
| MediaUpload.Extension | src/components/posts/editor/useMediaUpload.ts:25 | a dot-free suffix of the name, preceded by a dot unless it is the whole name |
| MediaUpload.ExtensionAfterDot | src/components/posts/editor/useMediaUpload.ts:25 | the extension of `stem + "." + ext` is `ext` for a dot-free `ext` |
| MediaUpload.RenamedKeepsExtension | src/components/posts/editor/useMediaUpload.ts:24-29 | renaming keeps the file's extension |
| MediaUpload.StemOfRenamed | src/components/posts/editor/useMediaUpload.ts:28 | the renamed file's stem is `attachment_<uuid>` |
| MediaUpload.RenamedNamesDistinct | src/components/posts/editor/useMediaUpload.ts:28 | distinct UUIDs give distinct names |
| MediaUpload.Renamed | src/components/posts/editor/useMediaUpload.ts:24-31 | one renamed file per file, in order, keeping its type |
| MediaUpload.WithNewUploads | src/components/posts/editor/useMediaUpload.ts:32-35 | the old attachments, then one uploading entry without a media id per file |
| MediaUpload.FindResult | src/components/posts/editor/useMediaUpload.ts:43 | the first result with the file's name, or none iff no result has it |
| MediaUpload.Completed | src/components/posts/editor/useMediaUpload.ts:40-52 | same length and files; a reported entry gets the media id and stops uploading; the others are unchanged |
| MediaUpload.CompletedIdempotent | src/components/posts/editor/useMediaUpload.ts:40-52 | applying a report twice equals applying it once |
| MediaUpload.CompletedFinishesReported | src/components/posts/editor/useMediaUpload.ts:40-52 | a report naming every uploading file leaves nothing uploading |
| MediaUpload.WithoutUploading | src/components/posts/editor/useMediaUpload.ts:55-56 | nothing uploading remains; every settled entry is kept |
| MediaUpload.WithoutUploadingIdempotent | src/components/posts/editor/useMediaUpload.ts:56 | purging twice equals purging once |
| MediaUpload.WithoutNamed | src/components/posts/editor/useMediaUpload.ts:81-83 | no entry with the name remains; every other entry is kept |
| MediaUpload.MediaUploader.constructor | src/components/posts/editor/useMediaUpload.ts:17-18 | no attachments, no progress, nothing uploading |
| MediaUpload.MediaUploader.OnBeforeUploadBegin | src/components/posts/editor/useMediaUpload.ts:23-37 | returns the renamed files and appends them as uploading; called within the 5-attachment bound, it keeps that bound |
| MediaUpload.MediaUploader.OnUploadProgress | src/components/posts/editor/useMediaUpload.ts:38 | only the progress changes; the 5-attachment bound is kept |
| MediaUpload.MediaUploader.OnClientUploadComplete | src/components/posts/editor/useMediaUpload.ts:40-53 | the attachments become `Completed`; the 5-attachment bound is kept |
| MediaUpload.MediaUploader.OnUploadError | src/components/posts/editor/useMediaUpload.ts:55-58 | the uploading attachments are dropped and the message is toasted |
| MediaUpload.MediaUploader.HandleStartUpload | src/components/posts/editor/useMediaUpload.ts:62-79 | refused with the wait toast while uploading, or with the limit toast above 5, leaving the attachments unchanged; otherwise the new uploads are appended and the bound holds |
| MediaUpload.MediaUploader.RemoveAttachment | src/components/posts/editor/useMediaUpload.ts:81-83 | the attachments become `WithoutNamed` |
| MediaUpload.MediaUploader.ResetMediaUploads | src/components/posts/editor/useMediaUpload.ts:85-88 | no attachments and no progress |
| Pagination.CursorParam | src/app/api/posts/for-you/route.ts:14 | a missing or empty `cursor` means no cursor |
| Pagination.IndexOf | src/app/api/posts/for-you/route.ts:27 | the first row with the id, or none iff no row has it |
| Pagination.FindMany | src/app/api/posts/for-you/route.ts:23-28 | at most `take` rows; with a cursor the first row is the cursor row; without one the first `min(take, n)` rows |
| Pagination.FindManyAt | src/app/api/posts/for-you/route.ts:23-28 | with distinct ids, a cursor naming row k fetches rows k.. up to `take` of them |
| Pagination.SplitPage | src/app/api/posts/for-you/route.ts:31-36 | a next cursor iff more than 10 rows came back, and then it is the id of row 10 and the page is the first 10 rows |
| Pagination.FindManyWithinRows | src/app/api/posts/for-you/route.ts:23-28 | the fetched rows are consecutive rows of the collection |
| Pagination.PageWithinRows | src/app/api/posts/for-you/route.ts:23-36 | the page is a run of consecutive rows |
| Pagination.CursorNamesRow | src/app/api/posts/for-you/route.ts:31 | a next cursor names a row of the collection |
| Pagination.FirstPage | src/app/api/posts/for-you/route.ts:23-36 | the first page is the first `min(10, n)` rows, with a cursor iff n > 10, naming row 10 |
| Pagination.PageAt | src/app/api/posts/for-you/route.ts:23-36 | a cursor naming row k gives rows k..k+9 and names row k+10 |
| Pagination.PaginateIsCursorWindow | src/app/api/posts/for-you/route.ts:23-36 | every request gets the window its cursor selects: the window at row 0 without a cursor, at the cursor's first row with one, and an empty page when no row has its id |
| Pagination.FirstPageWindow | src/app/api/posts/for-you/route.ts:23-36 | the first page is the window at row 0 |
| Pagination.PagesTileRows | src/app/api/posts/for-you/route.ts:23-36 | following the cursors from the first page returns every row once, in order |
| ListRoute.ListGet | src/app/api/posts/for-you/route.ts:11-42 | 401 without a session, 500 when the query throws, otherwise at most 10 rows: without a cursor the first `min(10, n)` rows with row 10's id as next cursor iff n > 10; in every case the window `CursorWindow` selects |
| ListRoute.ListGetWithinRows | src/app/api/posts/for-you/route.ts:23-36 | the page is a run of consecutive rows of the list |
| ListRoute.ListGetAt | src/app/api/posts/for-you/route.ts:23-36 | a cursor naming row k gives the window at row k |
| FollowingRoute.FollowedPosts | src/app/api/posts/following/route.ts:27-36 | exactly the posts whose author the caller follows |
| FollowingRoute.Get | src/app/api/posts/following/route.ts:12-54 | 401, 500, or at most 10 posts by followed authors: without a cursor the first `min(10, n)` followed posts with the 11th one's id as next cursor iff n > 10; in every case the window of the followed posts the cursor selects |
| NotificationsRoute.Received | src/app/api/notifications/route.ts:21-22 | exactly the notifications whose recipient is the caller |
| NotificationsRoute.Get | src/app/api/notifications/route.ts:11-42 | 401, 500, or at most 10 of the caller's notifications: without a cursor the first `min(10, n)` with the 11th one's id as next cursor iff n > 10; in every case the window the cursor selects |
| BookmarkedRoute.OwnBookmarks | src/app/api/posts/bookmarked/route.ts:23-24 | exactly the caller's bookmarks |
| BookmarkedRoute.PostsOf | src/app/api/posts/bookmarked/route.ts:38 | the bookmarks' posts, in bookmark order |
| BookmarkedRoute.Get | src/app/api/posts/bookmarked/route.ts:11-46 | 401, 500, or the posts of at most 10 own bookmarks: without a cursor those of the first `min(10, n)` own bookmarks, with the 11th own bookmark's id (not a post id) as next cursor iff n > 10; in every case the posts of the window the cursor selects |
| SearchRoute.SplitOnSpace | src/app/api/search/route.ts:20 | at least one part; no part holds a space |
| SearchRoute.SearchQueryReplacesSpaces | src/app/api/search/route.ts:20 | splitting on spaces and joining with `" & "` replaces each space by `" & "` |
| SearchRoute.PartsCount | src/app/api/search/route.ts:20 | there is one more part than there are spaces |
| SearchRoute.NoSpacePassesThrough | src/app/api/search/route.ts:20 | a query without spaces is unchanged |
| SearchRoute.SearchQueryLength | src/app/api/search/route.ts:20 | the query grows by two characters per space |
| SearchRoute.TwoWords | src/app/api/search/route.ts:18-20 | two words with one space are joined by `" & "` |
| SearchRoute.DocumentedExample | src/app/api/search/route.ts:18-20 | `"denis khaskin"` becomes `"denis & khaskin"` |
| SearchRoute.SpaceRunGivesEmptyTerm | src/app/api/search/route.ts:20 | two spaces give an empty term, not one collapsed separator |
| SearchRoute.Found | src/app/api/search/route.ts:33-56 | exactly the posts whose content, author display name or username match |
| SearchRoute.Get | src/app/api/search/route.ts:11-75 | 401, 500, or at most 10 posts matching the rewritten query: without a cursor the first `min(10, n)` matches with the 11th one's id as next cursor iff n > 10; in every case the window the cursor selects |
| Validation.Trim | src/lib/validation.ts:3 | the result is `s` minus a trimmable prefix and suffix, and neither of its ends is trimmable |
| Validation.TrimIdempotent | src/lib/validation.ts:3 | trimming twice equals trimming once |
| Validation.TrimEmptyIff | src/lib/validation.ts:3 | a string trims to empty iff it is all whitespace |
| Validation.RequiredString | src/lib/validation.ts:3 | gives the trimmed value, and the issue "Required" iff it is empty |
| Validation.EmailField | src/lib/validation.ts:5 | accepted iff present, non-empty after trim and an address; the value is trimmed |
| Validation.UsernameField | src/lib/validation.ts:6-9 | accepted iff present and the trimmed value matches `^[a-zA-Z0-9_-]+$` |
| Validation.PasswordField | src/lib/validation.ts:11 | accepted iff present and at least 8 characters long after trim |
| Validation.RequiredField | src/lib/validation.ts:17-18 | accepted iff present and non-empty after trim |
| Validation.SignUpSchema | src/lib/validation.ts:4-12 | succeeds iff all three fields pass; then the values are trimmed |
| Validation.LogInSchema | src/lib/validation.ts:16-19 | succeeds iff both fields are non-empty after trim |
| Validation.PostSchema | src/lib/validation.ts:23-26 | succeeds iff the trimmed content is non-empty and `mediaIds` is present with at most 5 ids; a missing `mediaIds` is an issue |
| Validation.UpdateUserProfileSchema | src/lib/validation.ts:28-31 | succeeds iff the trimmed display name is non-empty and the untrimmed bio has at most 1000 characters |
| CommentActions.CommentNotification | src/components/comments/actions.ts:35-42 | an unread COMMENT notification from the caller to the post's owner about the post |
| CommentActions.SubmitComment | src/components/comments/actions.ts:8-47 | "Unauthorized" without a session; a schema error before any write; a failed foreign key when the post is no longer stored; otherwise the comment, and a notification iff the owner is someone else, are written together; it succeeds iff `SubmitAccepted` held, and the returned comment is the validated one |
| CommentActions.DeleteComment | src/components/comments/actions.ts:49-67 | checks session, existence, ownership in that order, each failure leaving the store unchanged; on success exactly that comment is removed and returned |
| PostActions.DeletePost | src/components/posts/actions.ts:12-29 | "Unauthorized", "Post not found", "Unauthorized" in that order, store unchanged; it succeeds iff `DeleteAccepted`, and then exactly that post is removed and returned |
| PostEditorActions.CreateFromFields | src/components/posts/editor/actions.tsx:7-22 | "Unauthorized" without a session; a schema failure rejects; a taken id fails the primary key; it succeeds iff there is a session, the schema passes and the id is free, and then exactly one post is added, owned by the caller, with the trimmed content |
| PostEditorActions.SubmitPost | src/components/posts/editor/actions.tsx:7-30 | always rejects, because the parsed object has no `mediaIds`; no table changes |
| NotificationCounts.MarkedRead | src/app/api/notifications/mark-as-read/route.ts:14-19 | every notification of the caller is read; the others are unchanged; only `read` changes |
| NotificationCounts.MarkedReadIdempotent | src/app/api/notifications/mark-as-read/route.ts:14-19 | marking twice equals marking once |
| NotificationCounts.OtherCountsUnchanged | src/app/api/notifications/mark-as-read/route.ts:15-18 | other recipients' unread counts are unchanged |
| NotificationCounts.MarkAsRead | src/app/api/notifications/mark-as-read/route.ts:7-25 | 401 or 500 with no update; otherwise an empty 200, the caller's notifications marked read and the other tables unchanged |
| NotificationCounts.UnreadCount | src/app/api/notifications/unread-count/route.ts:15-17 | zero iff every notification of the caller is read; bounded by the table size |
| NotificationCounts.NoneUnreadAfterMarkedRead | src/app/api/notifications/unread-count/route.ts:15-17 | right after marking read, the count is 0 |
| NotificationCounts.GetUnreadCount | src/app/api/notifications/unread-count/route.ts:8-26 | 401, 500, or exactly `UnreadCount` of the caller, which is 0 iff all of the caller's notifications are read |
| ClearUploads.AuthorizedExactly | src/app/api/clear-uploads/route.ts:11-18 | with the secret set, only the exact header `Bearer <secret>` passes; a missing header never does |
| ClearUploads.UnsetSecretAcceptsLiteral | src/app/api/clear-uploads/route.ts:13 | with the secret unset, `Bearer undefined` passes |
| ClearUploads.AgeIgnoredOutsideProduction | src/app/api/clear-uploads/route.ts:23-33 | outside production, media are selected iff no post claims them |
| ClearUploads.UnusedIds | src/app/api/clear-uploads/route.ts:23-38 | exactly the ids of unclaimed media, old enough in production |
| ClearUploads.Remaining | src/app/api/clear-uploads/route.ts:46-52 | exactly the unselected rows remain, unchanged; claimed media always remain |
| ClearUploads.RemainingIdempotent | src/app/api/clear-uploads/route.ts:46-52 | a second sweep at the same instant deletes nothing more |
| ClearUploads.Find | src/app/api/clear-uploads/route.ts:43 | the first occurrence of the separator, or none iff there is none |
| ClearUploads.FileKey | src/app/api/clear-uploads/route.ts:43 | none iff the separator is absent; the key holds no separator |
| ClearUploads.FileKeyOfUploadUrl | src/app/api/clear-uploads/route.ts:43 | the key of `prefix + sep + key` is `key` |
| ClearUploads.FileKeyStopsAtSecondSeparator | src/app/api/clear-uploads/route.ts:43 | a second separator ends the key |
| ClearUploads.Clear | src/app/api/clear-uploads/route.ts:9-57 | 401 "Invalid authorization header" with nothing deleted; the remote deletion comes before the row deletion and a failure in either gives 500 with the rows kept; on success exactly the selected rows go; claimed media are never deleted |

## Left out

- react-query's `cancelQueries`, refetching, retries and races between overlapping mutations
  are not modelled; `cancelQueries` is a no-op here and every mutation runs as one atomic step.
- Each server action and route is one atomic step on the abstract store. Transaction isolation
  between concurrent requests and foreign-key cascades (comments or notifications of a deleted
  post) are not modelled.
- CommentActions.SubmitComment checks the comment's key to its post. The keys to users
  (commenter, notified owner) are not checked, because the user table is not part of this model.
- Sessions are given as a parameter. The session lookup itself and its failures are not
  modelled, and neither is the OAuth flow.
- ClearUploads.UnusedIds reads the route's `created_at` filter as the media row's creation
  time. The Prisma schema is not part of this model. If the media model has only a `createdAt`
  field, Prisma rejects the unknown argument, and every production sweep ends in a 500.
- Prisma's `orderBy createdAt desc` is assumed already applied: the routes receive their rows
  newest first. A cursor id that names no row gives an empty page here. Prisma's own behaviour
  for such a cursor is not modelled.
- Postgres full-text `search`, zod's e-mail pattern and `createCommentSchema` (which
  `src/lib/validation.ts` does not define) are opaque parameters.
- A zod failure is modelled by its issues' fields and messages. The `ZodError` object and its
  formatting are not modelled, and the thrown parse error of the actions is one fixed message.
- Lengths are counted in Dafny characters, not JavaScript UTF-16 code units. They differ only
  for characters outside the Basic Multilingual Plane.
- QueryCache.QueryClient.TrySetQueriesData: when one updater throws, the model writes no query.
  react-query may already have written the queries it visited before the throw.
- ClearUploads.Clear: the keys sent to the upload service are a set, not an ordered array with
  duplicates. The service's own deletion is not modelled.
- MediaUpload.MediaUploader: the upload service's `isUploading` flag is a field here, raised when
  an upload starts and lowered on completion or error. The upload itself, its progress events
  and `startUpload` are not modelled.
- MediaUpload.WithoutUploading and MediaUpload.WithoutNamed state membership in their
  contracts. The order of the kept attachments follows from their definition through
  `Seqs.Filter` and is not stated again.
- Toasts are returned values. Their display, timing and ordering against rendering are not
  modelled.
- UI rendering, dialogs, chat, the trends sidebar, the debounce hook, date formatting, the
  JSON reviver and the unused timer promise in the post-editor mutation are outside this model.

## Findings

| source | as written | input that shows it | evidently intended | confidence | as-written member | corrected member |
|---|---|---|---|---|---|---|
| src/components/posts/LikeButton.tsx:65-66 | `onError` calls `setQueryData(key, context?.previousState)`; when the snapshot was `undefined`, react-query ignores the write and the optimistic value stays (BookmarkButton.tsx:61 does the same) | a like click before the like-info query has data, whose request fails: the cell keeps 1 like, liked | the cell returns to its pre-click state, here no data | not executed | Optimistic.AbsentSnapshotNotRestored | Optimistic.RestoringRollbackRestores |
