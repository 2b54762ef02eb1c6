# PostStats: the like/save state of a post's statistics widget

This project models the local state machine of the `PostStats` widget of a
social-media client, `src/components/shared/PostStats.tsx`. The widget shows a
post's like count and a saved/unsaved icon. It keeps a client-side mirror of
two pieces of server state:

- `likes`: the ids of the users who like the post, seeded from the post's like list.
- `isSaved`: whether the current user has saved the post; it starts false.

A click updates the mirror at once (an optimistic update) and fires a mutation
at the backend. The backend is a foreign service, so it is modelled only as a
request log. `Widget.requests` records, in order, every `LikeRequest`,
`SaveRequest` and `DeleteSavedRequest` the widget fires.

Everything is in one module, `PostStats` (`PostStats.dfy`):

- Pure parts, as functions with lemmas:
  - `LikesList` maps the post's user documents to their ids.
  - `Without` is the `filter` that removes a user.
  - `ToggleLikes` is the list a like click produces.
  - `FirstMatching` and `FindSavedRecord` model the `find` over the current user's saved records.
- Stateful parts, as the class `Widget`:
  - `likes`, `isSaved` and `requests` are fields that its methods reassign.
  - `ToggleLike` models `handleLikePost`.
  - `ToggleSave` models `handleSavePost`.
  - `SyncSaved` models the `useEffect` that re-derives `isSaved`.
  - `Mount`, `LikeTwice`, `SyncTwice` and `SaveTwiceWithSameUserData` are client methods. They prove properties of sequences of events (mount, clicks, effect runs) from the method contracts alone.

Parameters and modelling choices:

- The user id prop and the current user's data (the result of the current-user query) are parameters of the methods that read them.
- The post is fixed when the widget is constructed.
- A saved record whose `post` is missing is `SaveRecord(id, None)`. It never matches, just as `undefined === post.$id` is false in the source.
- The source removes a user with `filter`, which drops every occurrence of that id, so the model keeps duplicates and removes all of them.

A save click does not flip `isSaved`. The branch is chosen by whether the
last-fetched user data holds a saved record for this post
(`PostStats.tsx:50`); the current `isSaved` is never read. `ToggleSave`'s
contract states this: its postcondition does not mention the old `isSaved`.
`SaveTwiceWithSameUserData` shows the result: two clicks rendered with the same
user data both send a save request.

## Model

| member | source | states |
|---|---|---|
| `PostStats.LikesList` | src/components/shared/PostStats.tsx:15 | the seeded like list has one id per user document of the post, in the post's order |
| `PostStats.LikedIffListed` | src/components/shared/PostStats.tsx:15-17 | a user id is in the seeded list exactly when some user document of the post has that id |
| `PostStats.Without` | src/components/shared/PostStats.tsx:37 | after removing `u`, `u` is absent and every other id is present exactly when it was before; a list without `u` is returned unchanged |
| `PostStats.WithoutCount` | src/components/shared/PostStats.tsx:37 | removal keeps the multiplicity of every other id and shortens the list by the number of occurrences of `u` |
| `PostStats.WithoutIsSubsequence` | src/components/shared/PostStats.tsx:37 | the ids that remain keep their original relative order (the result is a subsequence of the old list) |
| `PostStats.WithoutAppend` | src/components/shared/PostStats.tsx:37 | the filter distributes over concatenation, so removing a user looks at each element independently |
| `PostStats.ToggleLikes` | src/components/shared/PostStats.tsx:32-40 | `u` is in the new list exactly when it was not in the old one; other ids keep their membership; if `u` was absent it is appended at the end and the count grows by one; if present, all its occurrences go, the rest keep order and multiplicity, and the count drops by the number of occurrences |
| `PostStats.ToggleLikesTwiceRestores` | src/components/shared/PostStats.tsx:32-42 | from a list without `u`, liking and then unliking restores the original list exactly |
| `PostStats.ToggleLikesTwiceFromLiked` | src/components/shared/PostStats.tsx:32-42 | from a list with `u`, unliking and then liking leaves the other ids in order followed by exactly one `u` |
| `PostStats.FirstMatching` | src/components/shared/PostStats.tsx:26-27 | returns none exactly when no record refers to the post; otherwise returns a record that refers to it and that no earlier record does; a record refers to the post (`RefersTo`, the `find` callback) exactly when its post id is `Some(postId)`, so a record without a post never matches |
| `PostStats.FirstMatchingStep` | src/components/shared/PostStats.tsx:26-27 | a first match in the tail behind a non-matching head is the first match of the whole list, and no match in the tail means none at all |
| `PostStats.FindSavedRecord` | src/components/shared/PostStats.tsx:24-27 | none while the current user is not loaded; otherwise none exactly when none of the user's saves refers to the post, else the first one that does |
| `PostStats.Widget.constructor` | src/components/shared/PostStats.tsx:15-18 | on mount, `likes` is the post's like list, `isSaved` is false and no request has been fired |
| `PostStats.Widget.ToggleLike` | src/components/shared/PostStats.tsx:30-45 | the new `likes` is `ToggleLikes` of the old list; one like request carrying exactly the new list is logged; `isSaved` is unchanged |
| `PostStats.Widget.ToggleSave` | src/components/shared/PostStats.tsx:47-60 | with a matching saved record: `isSaved` becomes false and one delete request with that record's id is logged; without one: `isSaved` becomes true and one save request with the post id and user id is logged; `likes` is unchanged; the old `isSaved` plays no part |
| `PostStats.Widget.SyncSaved` | src/components/shared/PostStats.tsx:62-65 | `isSaved` becomes true exactly when a matching saved record exists, whatever it was before; nothing else changes |
| `PostStats.Mount` | src/components/shared/PostStats.tsx:15-18 | after mounting and the effect's first run (lines 62-65), `likes` is the post's like list, `isSaved` says whether the first render's user data holds a saved record for the post, and no request has been fired |
| `PostStats.LikeTwice` | src/components/shared/PostStats.tsx:30-45 | two like clicks by a user absent from the list restore `likes`, keep `isSaved` and log two like requests: the list with the user appended, then the original list |
| `PostStats.SyncTwice` | src/components/shared/PostStats.tsx:62-65 | running the sync effect twice with the same user data gives the same state as running it once (idempotence) |
| `PostStats.SaveTwiceWithSameUserData` | src/components/shared/PostStats.tsx:47-60 | two save clicks rendered with the same user data that has no record for the post both fire a save request, though the first already set `isSaved` |

## Left out

- `src/components/forms/PostForm.tsx` is not part of this model. It connects a form library and a validation schema defined in a file outside this model to the `createPost`/`updatePost` mutations, followed by navigation or a notification. It holds no local logic to state.
- The backend mutations (`likePost`, `savePost`, `deleteSavedPost`) and the current-user query are foreign network calls. They appear only as logged `Request` values or as a parameter (`currentUser`). Their results and any server-side invariants are not modelled.
- Asynchrony is not modelled. That covers the ordering between optimistic updates and server confirmations, the `isPending` flags and the loader that replaces the save icon while a save or a delete of a saved record is pending. React's scheduling of state updates and of the effect is left out too: each method applies its update at once.
- `checkIsLiked` lives in a file that is not part of this model. Being liked is taken to mean `u in likes`.
- An absent `post` prop is not modelled. With no post, `likes` is undefined and the component already throws while rendering the count (`likes.length`, line 78), before any click can reach a handler. The widget is constructed from a present `Post`.
- Rendering is not modelled: icon choice, the displayed count (which is `|likes|`) and `stopPropagation`.
- A re-render with a different post prop is not modelled. The source reads `post?.$id` afresh on every render (lines 27, 43, 56), while `likes` keeps its first-render value, so a changed post would pair the new id with the old like list. The model fixes the post id at construction.
