/** A model of the local like/save state of the post statistics widget.

    The widget mirrors two pieces of server state on the client: the list of
    user ids that like the post, and whether the current user has saved it.
    Each click updates the mirror at once (an optimistic update) and fires a
    mutation at the backend.  The backend is not modelled: every mutation the
    widget fires is appended, as a `Request` value, to a request log.
 */
module PostStats {

  datatype Option<T> = None | Some(value: T)

  /** A user document as it appears in a post's like list; only its id is read. */
  datatype UserDoc = UserDoc(id: string)

  /** The post shown by the widget: its id and the users that like it. */
  datatype Post = Post(id: string, likes: seq<UserDoc>)

  /** A saved-post record of the current user.  `postId` is the id of the
      referenced post, or `None` when the record carries no post. */
  datatype SaveRecord = SaveRecord(id: string, postId: Option<string>)

  /** The current user as fetched from the backend; only the saves are read. */
  datatype User = User(save: seq<SaveRecord>)

  /** What the widget asks of the backend. */
  datatype Request =
    | LikeRequest(postId: string, likesArray: seq<string>)
    | SaveRequest(postId: string, userId: string)
    | DeleteSavedRequest(savedRecordId: string)

  // ---------------------------------------------------------------------------
  // The like list
  // ---------------------------------------------------------------------------

  /** The ids of the users that like the post, in the post's order. */
  function LikesList(likers: seq<UserDoc>): (r: seq<string>)
    ensures |r| == |likers|
    ensures forall i :: 0 <= i < |r| ==> r[i] == likers[i].id
  {
    if likers == [] then [] else [likers[0].id] + LikesList(likers[1..])
  }

  /** A user likes the post exactly when some user document in it has that id. */
  lemma LikedIffListed(likers: seq<UserDoc>, u: string)
    ensures u in LikesList(likers) <==> exists i :: 0 <= i < |likers| && likers[i].id == u
  {
  }

  /** `s` with every occurrence of `u` removed, the others in their order. */
  function Without(s: seq<string>, u: string): (r: seq<string>)
    ensures u !in r
    ensures forall x :: x != u ==> (x in r <==> x in s)
    ensures u !in s ==> r == s
  {
    if s == [] then [] else (if s[0] == u then [] else [s[0]]) + Without(s[1..], u)
  }

  /** Removal drops exactly the occurrences of `u`: every other id keeps its
      multiplicity, and the list shrinks by the number of `u`s. */
  lemma {:induction false} WithoutCount(s: seq<string>, u: string)
    ensures multiset(Without(s, u)) == multiset(s)[u := 0]
    ensures |Without(s, u)| == |s| - multiset(s)[u]
  {
    if s != [] {
      WithoutCount(s[1..], u);
      assert s == [s[0]] + s[1..];
      assert multiset(s) == multiset{s[0]} + multiset(s[1..]);
    }
  }

  /** `r` is obtained from `s` by deleting some elements, the rest keeping their order. */
  predicate Subsequence(r: seq<string>, s: seq<string>)
  {
    if r == [] then true
    else if s == [] then false
    else if r[0] == s[0] then Subsequence(r[1..], s[1..])
    else Subsequence(r, s[1..])
  }

  /** Removing a user keeps the remaining ids in their original relative order. */
  lemma {:induction false} WithoutIsSubsequence(s: seq<string>, u: string)
    ensures Subsequence(Without(s, u), s)
  {
    if s != [] {
      WithoutIsSubsequence(s[1..], u);
      var rest := Without(s[1..], u);
      if s[0] == u {
        assert Without(s, u) == rest;
        assert rest != [] ==> rest[0] != s[0];
      } else {
        assert Without(s, u) == [s[0]] + rest;
      }
    }
  }

  /** Removal works element by element: it distributes over concatenation. */
  lemma {:induction false} WithoutAppend(a: seq<string>, b: seq<string>, u: string)
    ensures Without(a + b, u) == Without(a, u) + Without(b, u)
  {
    if a == [] {
      assert a + b == b;
    } else {
      var x, t := a[0], a[1..];
      var head := if x == u then [] else [x];
      calc {
        Without(a + b, u);
        { assert (a + b)[0] == x && (a + b)[1..] == t + b; }
        head + Without(t + b, u);
        { WithoutAppend(t, b, u); }
        head + (Without(t, u) + Without(b, u));
        (head + Without(t, u)) + Without(b, u);
        Without(a, u) + Without(b, u);
      }
    }
  }

  /** The like list after the user `u` clicks the like icon. */
  function ToggleLikes(s: seq<string>, u: string): (r: seq<string>)
    ensures u in r <==> u !in s
    ensures forall x :: x != u ==> (x in r <==> x in s)
    ensures u !in s ==> r == s + [u] && |r| == |s| + 1
    ensures u in s ==> multiset(r) == multiset(s)[u := 0] && Subsequence(r, s)
    ensures u in s ==> |r| == |s| - multiset(s)[u] && |r| < |s|
  {
    if u in s then
      WithoutIsSubsequence(s, u);
      WithoutCount(s, u);
      Without(s, u)
    else
      s + [u]
  }

  /** Liking and then unliking a post the user did not like restores the list. */
  lemma ToggleLikesTwiceRestores(s: seq<string>, u: string)
    requires u !in s
    ensures ToggleLikes(ToggleLikes(s, u), u) == s
  {
    WithoutAppend(s, [u], u);
  }

  /** Unliking and then liking again leaves one `u`, at the end of the list. */
  lemma ToggleLikesTwiceFromLiked(s: seq<string>, u: string)
    requires u in s
    ensures ToggleLikes(ToggleLikes(s, u), u) == Without(s, u) + [u]
    ensures multiset(ToggleLikes(ToggleLikes(s, u), u))[u] == 1
  {
  }

  // ---------------------------------------------------------------------------
  // The saved-post record
  // ---------------------------------------------------------------------------

  /** The record refers to the post with id `postId`: it carries a post, and
      that post's id is `postId`. */
  predicate RefersTo(rec: SaveRecord, postId: string)
  {
    rec.postId == Some(postId)
  }

  /** The first of `saves` that refers to `postId`, if any. */
  function FirstMatching(saves: seq<SaveRecord>, postId: string): (r: Option<SaveRecord>)
    ensures r.None? <==> forall i :: 0 <= i < |saves| ==> !RefersTo(saves[i], postId)
    ensures r.Some? ==> exists i :: 0 <= i < |saves| && saves[i] == r.value
                                    && RefersTo(saves[i], postId)
                                    && forall j :: 0 <= j < i ==> !RefersTo(saves[j], postId)
  {
    if saves == [] then None
    else if RefersTo(saves[0], postId) then Some(saves[0])
    else
      var r := FirstMatching(saves[1..], postId);
      FirstMatchingStep(saves, postId, r);
      r
  }

  /** A match found in the tail of `saves`, whose head does not match, is the
      first match of `saves` itself; no match in the tail means none at all. */
  lemma FirstMatchingStep(saves: seq<SaveRecord>, postId: string, r: Option<SaveRecord>)
    requires saves != [] && !RefersTo(saves[0], postId)
    requires r.None? <==> forall i :: 0 <= i < |saves[1..]| ==> !RefersTo(saves[1..][i], postId)
    requires r.Some? ==> exists i :: 0 <= i < |saves[1..]| && saves[1..][i] == r.value
                                     && RefersTo(saves[1..][i], postId)
                                     && forall j :: 0 <= j < i ==> !RefersTo(saves[1..][j], postId)
    ensures r.None? <==> forall i :: 0 <= i < |saves| ==> !RefersTo(saves[i], postId)
    ensures r.Some? ==> exists i :: 0 <= i < |saves| && saves[i] == r.value
                                    && RefersTo(saves[i], postId)
                                    && forall j :: 0 <= j < i ==> !RefersTo(saves[j], postId)
  {
  }

  /** The current user's saved record for the post `postId`: none while the
      user is not loaded, otherwise the first of their saves that refers to it. */
  function FindSavedRecord(currentUser: Option<User>, postId: string): (r: Option<SaveRecord>)
    ensures currentUser.None? ==> r.None?
    ensures currentUser.Some? ==>
      (r.None? <==> forall i :: 0 <= i < |currentUser.value.save| ==>
                                  !RefersTo(currentUser.value.save[i], postId))
    ensures r.Some? ==> currentUser.Some? && RefersTo(r.value, postId)
    ensures r.Some? ==>
      exists i :: 0 <= i < |currentUser.value.save| && currentUser.value.save[i] == r.value
                  && forall j :: 0 <= j < i ==> !RefersTo(currentUser.value.save[j], postId)
  {
    match currentUser
    case None => None
    case Some(user) => FirstMatching(user.save, postId)
  }

  // ---------------------------------------------------------------------------
  // The widget's local state
  // ---------------------------------------------------------------------------

  /** One mounted widget for the post `postId`.  `likes` and `isSaved` are its
      local state; `requests` logs, in order, every mutation it has fired. */
  class Widget {
    const postId: string
    var likes: seq<string>
    var isSaved: bool
    var requests: seq<Request>

    /** Mounting: the like list is seeded from the post, the flag starts false. */
    constructor (post: Post)
      ensures postId == post.id
      ensures likes == LikesList(post.likes)
      ensures !isSaved
      ensures requests == []
    {
      postId := post.id;
      likes := LikesList(post.likes);
      isSaved := false;
      requests := [];
    }

    /** The click on the like icon by the user `userId`. */
    method ToggleLike(userId: string)
      modifies this
      ensures likes == ToggleLikes(old(likes), userId)
      ensures isSaved == old(isSaved)
      ensures requests == old(requests) + [LikeRequest(postId, likes)]
    {
      var newLikes := likes;
      var hasLiked := userId in newLikes;
      if hasLiked {
        newLikes := Without(newLikes, userId);
      } else {
        newLikes := newLikes + [userId];
      }
      likes := newLikes;
      requests := requests + [LikeRequest(postId, newLikes)];
    }

    /** The click on the save icon by the user `userId`, with `currentUser`
        the user data the widget was last rendered with.  The branch depends
        on the looked-up record only, never on the current `isSaved`. */
    method ToggleSave(currentUser: Option<User>, userId: string)
      modifies this
      ensures likes == old(likes)
      ensures match FindSavedRecord(currentUser, postId)
              case Some(rec) =>
                !isSaved && requests == old(requests) + [DeleteSavedRequest(rec.id)]
              case None =>
                isSaved && requests == old(requests) + [SaveRequest(postId, userId)]
    {
      var savedPostRecord := FindSavedRecord(currentUser, postId);
      if savedPostRecord.Some? {
        isSaved := false;
        requests := requests + [DeleteSavedRequest(savedPostRecord.value.id)];
      } else {
        isSaved := true;
        requests := requests + [SaveRequest(postId, userId)];
      }
    }

    /** The effect that runs when the current user's data changes: the flag
        becomes whether a saved record for this post exists. */
    method SyncSaved(currentUser: Option<User>)
      modifies this`isSaved
      ensures isSaved == FindSavedRecord(currentUser, postId).Some?
    {
      isSaved := FindSavedRecord(currentUser, postId).Some?;
    }
  }

  // ---------------------------------------------------------------------------
  // Sequences of events, proved from the methods' contracts alone
  // ---------------------------------------------------------------------------

  /** Two like clicks by a user who did not like the post restore the like
      list and log two like requests: first with the user added, then the
      original list. */
  method LikeTwice(w: Widget, userId: string)
    requires userId !in w.likes
    modifies w
    ensures w.likes == old(w.likes)
    ensures w.isSaved == old(w.isSaved)
    ensures w.requests == old(w.requests) + [LikeRequest(w.postId, old(w.likes) + [userId]),
                                             LikeRequest(w.postId, old(w.likes))]
  {
    w.ToggleLike(userId);
    w.ToggleLike(userId);
    ToggleLikesTwiceRestores(old(w.likes), userId);
  }

  /** Running the sync effect twice with the same user data is the same as
      running it once. */
  method SyncTwice(w: Widget, currentUser: Option<User>)
    modifies w
    ensures w.isSaved == FindSavedRecord(currentUser, w.postId).Some?
    ensures w.likes == old(w.likes) && w.requests == old(w.requests)
  {
    w.SyncSaved(currentUser);
    w.SyncSaved(currentUser);
  }

  /** Mounting the widget: the state is seeded, and then the sync effect runs
      once after the first render, so the flag shows whether a saved record
      for the post exists in the user data of that render. */
  method Mount(post: Post, currentUser: Option<User>) returns (w: Widget)
    ensures fresh(w)
    ensures w.postId == post.id && w.likes == LikesList(post.likes)
    ensures w.isSaved == FindSavedRecord(currentUser, post.id).Some?
    ensures w.requests == []
  {
    w := new Widget(post);
    w.SyncSaved(currentUser);
  }

  /** Two save clicks rendered with the same user data, in which the user has
      no record for the post, fire two save requests: the second click does
      not consult the optimistic flag that the first one set. */
  method SaveTwiceWithSameUserData(w: Widget, currentUser: Option<User>, userId: string)
    requires FindSavedRecord(currentUser, w.postId).None?
    modifies w
    ensures w.isSaved && w.likes == old(w.likes)
    ensures w.requests == old(w.requests) + [SaveRequest(w.postId, userId),
                                             SaveRequest(w.postId, userId)]
  {
    w.ToggleSave(currentUser, userId);
    w.ToggleSave(currentUser, userId);
  }
}
