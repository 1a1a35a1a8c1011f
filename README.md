# Follow queue, optimistic follow button and client-side post-processing of an Appwrite social client

This is a Dafny model of the client library of a small photo-sharing app, `src/lib/appwrite/api.ts`,
and of its `FollowingButton` component. It covers:

- **`followUser` and the module-level `followQueue`** (modules `Follow`, `FollowProperties`).
  - Each call chains one task onto the queue. The task reads the actor's and the target's
    user documents fresh.
  - It toggles the target in the actor's `following` list and the actor in the target's
    `follower` list. A toggle removes every occurrence when the id is present, and appends it
    otherwise. An absent field reads as `[]`.
  - It then writes the two lists in two separate `updateDocument` calls. A failure rejects the
    task but is swallowed by the queue, so the next task still runs.
  - The user collection is a class `UserStore` holding a map from id to document, plus a log of
    every call, each tagged with its task's number. A task is the method `FollowTask`, proved
    equal to the specification function `RunTask`. The queue is a class `FollowQueue` whose loop
    `Drain` runs the pending requests in order, proved equal to the fold `RunAll`.
  - Every remote call can be made to fail per task (the `Faults` record). A missing document
    fails with `NotFound`.
- **`FollowingButton`** (module `FollowButton`). The `isFollowing` flag is seeded from the
  current user's `following` list. A click flips it, notifies `onFollowChange` and enqueues
  one request without waiting. The result never corrects the flag.
- **Tag parsing** (module `Tags`). In `createPost`/`updatePost` the form's tag string becomes
  `[]` when it is absent or blank; otherwise all spaces are removed and the string is split
  on commas. The module also models `String.prototype.trim`.
- **`searchUsers`** (module `Search`). The listing by name and the listing by username are
  concatenated, and the `reduce` keeps the first hit per `$id`. An empty merge is a failure.
- **`getRecentPosts`** (module `Feed`). The user's own id is pushed onto the followed ids
  when it is absent, and the listed posts are filtered to those creators. A listed post whose
  `creator` is null makes the filter throw, and the feed then fails.
- **`deletePost`, `updatePost` and `updateUser`** (module `Posts`). These run over a `Backend`
  class that holds posts, user documents, saved-post records and stored files. Calls naming an
  unavailable id are rejected.
  - `deletePost` deletes the saved records in order and stops at the first failure. Only then
    does it delete the post, and then its file.
  - The two edits upload the new image first. When the update answers falsy they delete the
    upload again; when it is rejected they leave it. They delete the old image only after a
    successful update.

Modules `Wrappers` (Option, Result), `Seqs` (subsequence) and `Users` (the user document)
are shared.

Where the code and its comments differ, the model follows the code:

- `getDocument` rejects rather than returning a falsy document, so the `if (!currentUser ||
  !targetUser)` check (`src/lib/appwrite/api.ts:725`) never fires on its own. A missing
  document is modelled as the read failing with `NotFound`.
- The queue only makes the final store the toggles applied in call order when no task fails
  between its two writes (`NoHalfUpdateIsFoldOfSuccesses`). Otherwise the half-applied write
  stays, and nothing repairs it (`HalfUpdate`).
- A rejected `updateDocument` in `updatePost`/`updateUser` jumps straight to the `catch`. The
  freshly uploaded file is deleted only for a falsy answer, so a rejection leaves it stored.
  Each `deleteFile` call can also fail on its own, and `deleteFile` swallows that failure. A
  failed clean-up therefore also leaves the upload stored while the edit fails.

## Model

| member | source | states |
|---|---|---|
| `Follow.UserStore.constructor` | src/lib/appwrite/api.ts:713-724 | the collection starts with the given documents and an empty call log |
| `Follow.UserStore.GetDocument` | src/lib/appwrite/api.ts:713-724 | a read is logged for its task and returns the stored document, `NotFound` for a missing id, or a service error when it fails |
| `Follow.UserStore.UpdateFollowing` | src/lib/appwrite/api.ts:745-750 | the write is logged; on success only the `following` field of that one document changes, on failure nothing does |
| `Follow.UserStore.UpdateFollower` | src/lib/appwrite/api.ts:752-757 | the write is logged; on success only the `follower` field of that one document changes, on failure nothing does |
| `Follow.FollowTask` | src/lib/appwrite/api.ts:708-767 | the task body (two fresh reads, both toggles, two separate writes, stops at the first failure) leaves the store, the outcome and the calls given by `RunTask`, its calls tagged with the task number |
| `Follow.FollowQueue.constructor` | src/lib/appwrite/api.ts:701 | the queue starts with nothing pending and nothing settled |
| `Follow.FollowQueue.Enqueue` | src/lib/appwrite/api.ts:708 | a call joins the end of the queue behind every earlier call, and its handle is its position in call order |
| `Follow.FollowQueue.RunNext` | src/lib/appwrite/api.ts:771 | the oldest pending task runs on the current store and its outcome, failure included, is recorded; the queue moves on |
| `Follow.FollowQueue.Drain` | src/lib/appwrite/api.ts:708-775 | draining leaves nothing pending, records every outcome in order, and leaves the store and the call log as the sequential fold `RunAll`/`QueueCalls` over the pending requests |
| `Follow.Remove` | src/lib/appwrite/api.ts:731-740 | `filter(id => id !== x)` on one list, as a recursive function; `RemoveSpec`, `RemoveAbsent` and `RemoveAppended` pin it |
| `Follow.Toggle` | src/lib/appwrite/api.ts:731-742 | one toggle block: filter the id out when the list contains it, else push it; `ToggleSpec` and `ToggleTwice` pin it |
| `Follow.RunTask` | src/lib/appwrite/api.ts:709-767 | the task body as a function of the store and the faults: two fresh reads, both toggles, two separate writes, stopping at the first failure, with its outcome and the calls it issued; the `FollowProperties` lemmas are about it |
| `Follow.RunAll` | src/lib/appwrite/api.ts:701-775 | the queue as a fold: the tasks run one after another in call order, each on the store the previous one left whatever its outcome; `EveryRequestSettles`, `TaskSeesPredecessors` and the fold lemmas are about it |
| `FollowProperties.RemoveSpec` | src/lib/appwrite/api.ts:731-733 | `filter(id => id !== x)` drops every occurrence of `x` and keeps every other element, with its multiplicity and in order |
| `FollowProperties.RemoveAbsent` | src/lib/appwrite/api.ts:731-733 | filtering out an absent id gives the list back |
| `FollowProperties.RemoveAppended` | src/lib/appwrite/api.ts:731-735 | removing an id just appended to a list without it gives the list back |
| `FollowProperties.ToggleSpec` | src/lib/appwrite/api.ts:731-742 | a toggle flips membership: a present id is removed everywhere, the rest kept in order; an absent id is appended |
| `FollowProperties.ToggleTwice` | src/lib/appwrite/api.ts:731-742 | two toggles restore membership and restore the list exactly when the id was absent; otherwise the other ids keep their order and one copy of the id ends the list |
| `FollowProperties.TaskSucceedsIff` | src/lib/appwrite/api.ts:713-762 | a task settles Ok exactly when both documents exist and none of its four calls fails |
| `FollowProperties.SuccessfulTaskToggles` | src/lib/appwrite/api.ts:727-742 | after a successful task the actor's `following` and the target's `follower` are the toggles of their old values (an absent field read as `[]`), so both memberships flip |
| `FollowProperties.WithFollowingFrame` | src/lib/appwrite/api.ts:745-750 | writing `following` of one document keeps every id, every document's attributes and `follower` list, and every other document's `following` |
| `FollowProperties.WithFollowerFrame` | src/lib/appwrite/api.ts:752-757 | writing `follower` of one document keeps every id, every document's attributes and `following` list, and every other document's `follower` |
| `FollowProperties.TaskFrame` | src/lib/appwrite/api.ts:745-757 | whatever the outcome, no document other than the actor's and the target's changes, and only their `following`/`follower` fields can |
| `FollowProperties.ReadFailureWritesNothing` | src/lib/appwrite/api.ts:713-725 | when either document cannot be read the task fails, issues no write and leaves the store unchanged; a missing document fails with `NotFound` |
| `FollowProperties.FailureBeforeSecondWrite` | src/lib/appwrite/api.ts:745-750 | a task that fails before its second write leaves no effect |
| `FollowProperties.HalfUpdate` | src/lib/appwrite/api.ts:745-759 | when the second write fails, the first write stays, the target's `follower` is unchanged, and a consistent pair becomes inconsistent; nothing repairs it |
| `FollowProperties.ToggleTwiceRestores` | src/lib/appwrite/api.ts:731-742 | two successful back-to-back toggles of one pair restore both memberships, and each list exactly when the id was absent from it |
| `FollowProperties.TaggedSpec` | src/lib/appwrite/api.ts:708 | tagging keeps a task's calls in order and stamps each with the task number |
| `FollowProperties.TaskStartsWithRead` | src/lib/appwrite/api.ts:713-718 | every task's first call is a fresh read of the actor's document |
| `FollowProperties.EveryRequestSettles` | src/lib/appwrite/api.ts:771 | every queued request settles, whether or not earlier ones failed |
| `FollowProperties.FoldAppend` | src/lib/appwrite/api.ts:708 | chaining onto the queue is a fold: running `a + b` is running `a` and then `b`, with task numbers continued, on the store `a` left |
| `FollowProperties.RunAllSplit` | src/lib/appwrite/api.ts:708 | running a queue is running its first `j` requests and then the rest on the store they left |
| `FollowProperties.TaskSeesPredecessors` | src/lib/appwrite/api.ts:708-718 | task `j` settles as it would when run alone on the store the tasks before it left, failed or not |
| `FollowProperties.SerialisedCons` | src/lib/appwrite/api.ts:708 | one task's block of calls, started by its actor read, put before a serialised rest gives a serialised log |
| `FollowProperties.CallsSerialised` | src/lib/appwrite/api.ts:708-771 | in the call log of a drained queue, task numbers never decrease and each task's calls start with its own fresh read, so task k+1 reads only after task k settled |
| `FollowProperties.NoHalfUpdateIsFoldOfSuccesses` | src/lib/appwrite/api.ts:708-771 | when no task fails between its writes, the final store is the toggles of the successful requests applied in call order |
| `FollowProperties.AllSucceededIsFoldOfAll` | src/lib/appwrite/api.ts:708-771 | when every task succeeds, the final store is the toggles of all requests in call order |
| `FollowProperties.FollowThenUnfollow` | src/lib/appwrite/api.ts:727-757 | a follow then an unfollow of the same pair leaves both lists empty again |
| `FollowProperties.MissingTargetDoesNotBlock` | src/lib/appwrite/api.ts:771 | a request naming a missing user fails with `NotFound` and writes nothing, and the next request still succeeds |
| `FollowButton.SeededFlag` | src/components/shared/FollowingButton.tsx:22-29 | the seeded flag: whether the current user's `following` (or `[]`) contains the target |
| `FollowButton.Click` | src/components/shared/FollowingButton.tsx:31-50 | one click on the shown state: nothing without a current user, else flip the flag, notify, queue one request; `ClickSpec` and `ClicksSpec` are about it |
| `FollowButton.ClickSpec` | src/components/shared/FollowingButton.tsx:31-50 | with no current user a click changes nothing; otherwise the flag becomes its negation, earlier requests and notifications are kept, that same value goes to `onFollowChange` when given and nothing is notified otherwise, and exactly one request (current user, target) is added |
| `FollowButton.ClicksSpec` | src/components/shared/FollowingButton.tsx:36-60 | after n clicks without a re-seed the flag is the starting flag flipped when n is odd; n identical requests follow the earlier ones; with an observer n notifications follow the earlier ones, the i-th carrying the flag flipped i + 1 times, and without one nothing is notified |
| `FollowButton.Button.constructor` | src/components/shared/FollowingButton.tsx:20-29 | the flag starts false and is seeded at once to whether the current user's `following` (or `[]`) contains the target |
| `FollowButton.Button.Rerender` | src/components/shared/FollowingButton.tsx:22-29 | when the current user or target changes, the flag is re-seeded from the new user's `following`; without a current user it is left alone |
| `FollowButton.Button.HandleClick` | src/components/shared/FollowingButton.tsx:31-50 | the click is the `Click` step on the shown state and appends its one request to the shared queue without waiting; there is no disabled state to check |
| `FollowButton.ClickAndSettle` | src/components/shared/FollowingButton.tsx:43-49 | after a click and the queue draining, the button's flag, notifications and requests are the `Click` step, so the flag holds the optimistic value whatever the requests' outcomes, while the store and the call log are the queue fold over the pending requests and the new one |
| `Tags.Trim` | src/lib/appwrite/api.ts:319-332 | `String.prototype.trim` as leading then trailing whitespace removal; `TrimSpec` pins it |
| `Tags.RemoveSpaces` | src/lib/appwrite/api.ts:320 | `replace(/ /g, "")`; `RemoveSpacesSpec` pins it |
| `Tags.ParseTags` | src/lib/appwrite/api.ts:318-321 | the tags array: `[]` for an absent or blank string, else the string without spaces split on commas; `ParseTagsSpec` is about it |
| `Tags.Split` | src/lib/appwrite/api.ts:155 | `split(sep)` has one piece more than there are separators |
| `Tags.TrimStartSpec` | src/lib/appwrite/api.ts:153-154 | dropping leading whitespace gives a suffix, the dropped prefix is all whitespace, and the suffix is empty exactly for all-whitespace input and otherwise starts with non-whitespace |
| `Tags.TrimEndSpec` | src/lib/appwrite/api.ts:153-154 | dropping trailing whitespace gives a prefix, the dropped suffix is all whitespace, and the prefix is empty exactly for all-whitespace input and otherwise ends with non-whitespace |
| `Tags.TrimSpec` | src/lib/appwrite/api.ts:332 | `trim()` gives a slice of its input with only whitespace cut off on either side, that neither starts nor ends with whitespace, and is empty exactly when the input is all whitespace |
| `Tags.RemoveSpacesSpec` | src/lib/appwrite/api.ts:155 | `replace(/ /g, "")` leaves no space and keeps every other character, in order and with its multiplicity, so every comma is kept |
| `Tags.SplitPieces` | src/lib/appwrite/api.ts:155 | every piece of a split consists of input characters other than the separator |
| `Tags.JoinSplit` | src/lib/appwrite/api.ts:155 | joining the pieces with the separator gives back the split string |
| `Tags.SplitJoin` | src/lib/appwrite/api.ts:155 | splitting a join of separator-free pieces gives back the pieces |
| `Tags.ParseTagsSpec` | src/lib/appwrite/api.ts:318-321 | an absent or all-whitespace tag string gives `[]`; otherwise no tag contains a space or a comma, there is one tag more than commas, and the tags joined by "," are the input without its spaces |
| `Search.Dedup` | src/lib/appwrite/api.ts:673-681 | the `reduce` that pushes a hit only when no kept hit has its id, as a left fold; `DedupSpec` and `DedupEmpty` are about it |
| `Search.DedupSpec` | src/lib/appwrite/api.ts:673-681 | the merge has pairwise-distinct ids and the same ids as its input; each kept hit is the first with its id; the kept hits are in input order and ordered by where their ids first occur |
| `Search.DedupEmpty` | src/lib/appwrite/api.ts:684-689 | the merge is empty exactly when both listings are |
| `Search.SearchUsers` | src/lib/appwrite/api.ts:655-695 | `undefined` when a listing is rejected or both are empty; otherwise the name hits then the username hits, merged by `Dedup`, with `total` the merged length |
| `Feed.FromCreators` | src/lib/appwrite/api.ts:532-534 | the feed filter, keeping posts whose creator is in the id list; `FromCreatorsSpec` pins it |
| `Feed.FromCreatorsSpec` | src/lib/appwrite/api.ts:532-534 | the filter keeps exactly the posts whose creator is listed, each with its multiplicity and in listed order |
| `Feed.FeedCreators` | src/lib/appwrite/api.ts:518-521 | the ids are exactly the followed users plus the user; the followed list stays a prefix, and the user's own id is added only when absent |
| `Feed.GetRecentPosts` | src/lib/appwrite/api.ts:511-543 | fails without a current user, when the listing fails, or when a listed post has a null `creator` (reading `post.creator.$id` throws and the error is rethrown); otherwise keeps exactly, in order and with multiplicity, the listed posts by the user or by someone they follow |
| `Posts.Lower` | src/lib/appwrite/api.ts:625 | `toLowerCase` on the username, ASCII letters only; `LowerSpec` pins it |
| `Posts.LowerSpec` | src/lib/appwrite/api.ts:625 | lower-casing keeps the length, turns each upper-case ASCII letter into its lower-case letter (code point + 32), leaves every other character alone and is idempotent |
| `Posts.DeleteSaves` | src/lib/appwrite/api.ts:372-378 | the saved records deleted one by one in order, stopping at the first failure, with what remains and whether all went; `DeleteSavesSpec` pins it |
| `Posts.DeleteSavesSpec` | src/lib/appwrite/api.ts:372-378 | deleting the saved records in order removes only listed records; it succeeds, removing them all, exactly when each exists, none is unavailable and none is listed twice; on failure it stops at the first failing record, with every record before it deleted and the rest kept |
| `Posts.Backend.constructor` | src/lib/appwrite/api.ts:360-394 | the backend starts with the given posts, users, saved records, files and unavailable ids |
| `Posts.Backend.DeleteSavedPost` | src/lib/appwrite/api.ts:437-451 | deleting a saved record succeeds and removes it exactly when it exists and is available |
| `Posts.Backend.DeletePostDocument` | src/lib/appwrite/api.ts:380-386 | deleting a post succeeds and removes it exactly when it exists and is available |
| `Posts.Backend.DeleteFile` | src/lib/appwrite/api.ts:223-231 | a file is removed unless the call fails (its fault flag, or an unavailable id), and the failure is swallowed |
| `Posts.Backend.UploadFile` | src/lib/appwrite/api.ts:185-197 | the upload stores the file under its fresh id unless the id is taken or unavailable |
| `Posts.Backend.UpdatePostDocument` | src/lib/appwrite/api.ts:324-336 | the update is rejected for a missing or unavailable post, and otherwise answers as the service does; only an `Updated` answer writes the post |
| `Posts.Backend.UpdateUserDocument` | src/lib/appwrite/api.ts:619-629 | the update is rejected for a missing or unavailable user, and otherwise answers as the service does; only an `Updated` answer writes the user |
| `Posts.Backend.DeletePost` | src/lib/appwrite/api.ts:360-394 | nothing happens without post id, image id and saved list; saved records go first and a failure stops before the post; then the post; then the file, whose failure is swallowed and still returns Ok |
| `Posts.Backend.ReplacementImage` | src/lib/appwrite/api.ts:297-316 | with a new file, it is uploaded and its URL taken; when the URL is empty the upload is deleted again, or stays stored when that delete fails; without one the form's image is kept |
| `Posts.Backend.UpdatePost` | src/lib/appwrite/api.ts:292-357 | the upload comes first; a falsy answer deletes it again unless that delete fails; a rejection leaves it stored; the old file is deleted only after success, unless that delete fails; the post gets caption, image, trimmed location and parsed tags |
| `Posts.Backend.UpdateUser` | src/lib/appwrite/api.ts:595-650 | as `UpdatePost` on the user document, writing name, lower-cased username, bio and image and keeping the relationship lists; the old file is deleted only when the form named one |

## Left out

- Authentication and session functions (`createUserAccount`, `signInAccount`, `getAccount`, `getCurrentUser`, `signOutAccount`, `SendRecoveryLink`, `ResetPassword`) are thin SDK wrappers. The signed-in user is a parameter.
- Server-side queries (`Query.search`, `orderDesc`, `limit`, `cursorAfter`) decide which documents a listing returns. Listings are parameters, and only the client-side processing is modelled.
- `searchPosts`, `getInfinitePosts`, `getUserPosts`, `getPostById`, `getUserById`, `followedUser`, `likePost` and `savePost` are single pass-through calls and are not modelled.
- `getUsers` and `getLikedPosts` make two calls each and are not modelled. `getUsers` reads the account and then lists the other users with a `notEqual` query. `getLikedPosts` reads the user document, lists the posts whose `$id` is in its `liked` ids, returns `{ documents: [] }` early when `liked` is absent or empty, and turns any error into `{ documents: [] }`. That client-side logic is left out. `deleteSavedPost` appears only as the step `deletePost` calls.
- `createPost` shares its tag parsing (`Tags.ParseTags`) and its upload with `updatePost`. Its own create-and-cleanup sequence is not modelled.
- Promises and async scheduling: the queue is a list drained by a loop. Interleaving other code with a running task is not modelled, and neither is the task promise handed back to the caller.
- `console.log`/`console.error` output is not modelled.
- The request hook `useFollowUser` in `src/lib/react-query/queries` is not part of this model. The button is assumed to pass its request straight to `followUser`.
- React rendering, `useState` batching and effect scheduling are not modelled. A re-render whose dependencies changed is the explicit `Rerender` call, and the button's class names and label only display the flag.
- Storage internals are not modelled. `ID.unique()` is the `newFileId` parameter. The URL from `getFilePreview` is the `fileUrl` parameter, with "" for a falsy URL. An unavailable id stands for any failing call.
- `followUser`'s two `updateDocument` calls fail only by rejecting. A falsy first write would not stop the second one; only the check after both writes (`src/lib/appwrite/api.ts:759`) would throw. The SDK never answers falsy, so that case is not modelled, the same way as for `getDocument` above.
- `Posts.Backend.UpdatePostDocument`: the SDK never answers falsy. The code still handles a falsy answer, so the model accepts one and treats it as not having written the document.
- `Posts.Lower`: JavaScript's `toLowerCase` maps all of Unicode; the model lower-cases ASCII letters only.
- `Posts.Backend.UpdateUser`: it rethrows where `updatePost` returns `undefined`. Both failures are modelled as `None`.
- `getRecentPosts` mutates the fetched user's `following` array by pushing onto it. That object is fresh from the read and shared with nothing, so the model builds a new list instead.
