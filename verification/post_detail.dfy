/** A community post's page: the like toggle and the comment form with the denormalised
    `likes_count` / `comments_count` counters on the post row, the de-duplicated list of
    commenters and the author-name fallback. The counters are computed from the post as
    the page last read it (`cached…`). Each write that the store may refuse has an
    `…Accepted` flag. */
module PostDetail {

  import opened Js
  import Seqs
  import Text
  import Rows
  import Store

  function LikeBy(postId: string, userId: string): Rows.LikeRow -> bool
  {
    (l: Rows.LikeRow) => l.postId == postId && l.userId == userId
  }

  function PostIdIs(id: string): Rows.PostRow -> bool
  {
    (p: Rows.PostRow) => p.id == id
  }

  function SetLikes(n: int): Rows.PostRow -> Rows.PostRow
  {
    (p: Rows.PostRow) => p.(likesCount := Some(n))
  }

  function SetComments(n: int): Rows.PostRow -> Rows.PostRow
  {
    (p: Rows.PostRow) => p.(commentsCount := Some(n))
  }

  /** The user's like rows on the post. */
  function LikesOf(likes: seq<Rows.LikeRow>, postId: string, userId: string): seq<Rows.LikeRow>
  {
    Seqs.Filter(likes, LikeBy(postId, userId))
  }

  /** `userLiked`: the single-row lookup finds a row only when exactly one matches. */
  predicate UserLiked(likes: seq<Rows.LikeRow>, postId: string, userId: string)
  {
    |LikesOf(likes, postId, userId)| == 1
  }

  /** `userLiked` implies a like row of the pair; with at most one such row, it holds
      exactly when there is one. */
  lemma UserLikedIffLikeRow(likes: seq<Rows.LikeRow>, postId: string, userId: string)
    ensures UserLiked(likes, postId, userId) ==> exists l :: l in likes && l.postId == postId && l.userId == userId
    ensures |LikesOf(likes, postId, userId)| <= 1 ==>
              (UserLiked(likes, postId, userId) <==> exists l :: l in likes && l.postId == postId && l.userId == userId)
  {
    var mine := LikesOf(likes, postId, userId);
    assert mine != [] ==> mine[0] in mine;
    assert forall l :: l in likes && l.postId == postId && l.userId == userId ==> l in mine;
  }

  /** At most one like row for the pair: the state the toggle maintains. */
  predicate AtMostOneLike(likes: seq<Rows.LikeRow>, postId: string, userId: string)
  {
    |LikesOf(likes, postId, userId)| <= 1
  }

  /** The counter written by a like: `(likes_count || 0) + 1`. */
  function LikedCount(cached: Option<int>): (r: int)
    ensures IntOr(cached, 0) >= 0 ==> r >= 1
    ensures r == IntOr(cached, 0) + 1
  {
    IntOr(cached, 0) + 1
  }

  /** The counter written by an unlike: `max(0, (likes_count || 1) - 1)`, never negative. */
  function UnlikedCount(cached: Option<int>): (r: int)
    ensures r >= 0
    ensures IntOr(cached, 1) >= 1 ==> r == IntOr(cached, 1) - 1
  {
    if IntOr(cached, 1) - 1 > 0 then IntOr(cached, 1) - 1 else 0
  }

  /** A like followed by an unlike brings a non-negative counter back to where it was
      (a missing counter comes back as 0). */
  lemma LikeThenUnlikeRestores(cached: Option<int>)
    requires IntOr(cached, 0) >= 0
    ensures UnlikedCount(Some(LikedCount(cached))) == IntOr(cached, 0)
  {
  }

  /** The like rows after a toggle: an unlike deletes every row of the pair, a like appends
      one new row. */
  function LikesAfterToggle(likes: seq<Rows.LikeRow>, postId: string, userId: string, newId: string): seq<Rows.LikeRow>
  {
    if UserLiked(likes, postId, userId) then Store.Without(likes, LikeBy(postId, userId))
    else likes + [Rows.LikeRow(newId, postId, userId)]
  }

  /** From a state with at most one like of the pair, a toggle flips `userLiked` and keeps at
      most one like; every other user's and post's likes are kept. */
  lemma {:induction false} ToggleFlipsLike(likes: seq<Rows.LikeRow>, postId: string, userId: string, newId: string)
    requires AtMostOneLike(likes, postId, userId)
    ensures var after := LikesAfterToggle(likes, postId, userId, newId);
      AtMostOneLike(after, postId, userId)
      && (UserLiked(after, postId, userId) <==> !UserLiked(likes, postId, userId))
      && forall l :: l in likes && !LikeBy(postId, userId)(l) ==> l in after
  {
    var p := LikeBy(postId, userId);
    if UserLiked(likes, postId, userId) {
      Seqs.FilterNone(Store.Without(likes, p), p);
    } else {
      Seqs.FilterAppend(likes, Rows.LikeRow(newId, postId, userId), p);
    }
  }

  datatype Outcome = LoginRequired | Skipped | Failed | Done

  /** `likeMutation`: without a user it fails with "Login required"; otherwise it deletes or
      inserts the user's like according to `userLiked`, then overwrites the post's counter
      from the cached value. Refused writes are ignored. */
  method ToggleLike(likes: Store.Table<Rows.LikeRow>, posts: Store.Table<Rows.PostRow>,
                    user: Option<string>, postId: string, cachedLikes: Option<int>, newId: string,
                    likeAccepted: bool, countAccepted: bool)
    returns (outcome: Outcome)
    modifies likes, posts
    ensures user.None? ==>
              outcome == LoginRequired && likes.rows == old(likes.rows) && posts.rows == old(posts.rows)
    ensures user.Some? ==> outcome == Done
    ensures user.Some? ==>
              likes.rows == if likeAccepted then LikesAfterToggle(old(likes.rows), postId, user.value, newId)
                            else old(likes.rows)
    ensures user.Some? ==>
              var count := if UserLiked(old(likes.rows), postId, user.value)
                           then UnlikedCount(cachedLikes) else LikedCount(cachedLikes);
              posts.rows == if countAccepted then Store.Patched(old(posts.rows), PostIdIs(postId), SetLikes(count))
                            else old(posts.rows)
  {
    if user.None? {
      return LoginRequired;
    }
    var userId := user.value;
    if UserLiked(likes.rows, postId, userId) {
      if likeAccepted {
        likes.Delete(LikeBy(postId, userId));
      }
      if countAccepted {
        posts.Update(PostIdIs(postId), SetLikes(UnlikedCount(cachedLikes)));
      }
    } else {
      if likeAccepted {
        likes.Insert(Rows.LikeRow(newId, postId, userId));
      }
      if countAccepted {
        posts.Update(PostIdIs(postId), SetLikes(LikedCount(cachedLikes)));
      }
    }
    outcome := Done;
  }

  /** `commentMutation`: "Login required" without a user; nothing for a blank comment;
      otherwise the trimmed text is inserted, an insert error stops before the counter, and
      the counter becomes `(comments_count || 0) + 1` unless that write is refused. */
  method AddComment(comments: Store.Table<Rows.CommentRow>, posts: Store.Table<Rows.PostRow>,
                    user: Option<string>, postId: string, newComment: string, cachedComments: Option<int>,
                    newId: string, insertAccepted: bool, countAccepted: bool)
    returns (outcome: Outcome)
    modifies comments, posts
    ensures user.None? ==> outcome == LoginRequired
    ensures user.Some? && Text.AllSpace(newComment) ==> outcome == Skipped
    ensures user.Some? && !Text.AllSpace(newComment) && !insertAccepted ==> outcome == Failed
    ensures outcome != Done ==> comments.rows == old(comments.rows) && posts.rows == old(posts.rows)
    ensures outcome == Done ==>
              user.Some? && insertAccepted
              && comments.rows == old(comments.rows) + [Rows.CommentRow(newId, postId, user.value, Text.Trim(newComment))]
              && Text.Trim(newComment) != []
              && posts.rows == if countAccepted
                               then Store.Patched(old(posts.rows), PostIdIs(postId), SetComments(IntOr(cachedComments, 0) + 1))
                               else old(posts.rows)
  {
    if user.None? {
      return LoginRequired;
    }
    var content := Text.Trim(newComment);
    Text.TrimEmptyIffBlank(newComment);
    if content == [] {
      return Skipped;
    }
    if !insertAccepted {
      return Failed;
    }
    comments.Insert(Rows.CommentRow(newId, postId, user.value, content));
    if countAccepted {
      posts.Update(PostIdIs(postId), SetComments(IntOr(cachedComments, 0) + 1));
    }
    outcome := Done;
  }

  function UserIdsOf(comments: seq<Rows.CommentRow>): (r: seq<string>)
    ensures |r| == |comments|
    ensures forall i :: 0 <= i < |comments| ==> r[i] == comments[i].userId
  {
    seq(|comments|, i requires 0 <= i < |comments| => comments[i].userId)
  }

  /** `commentUserIds`: each commenter once, in order of their first comment. */
  function CommentUserIds(comments: seq<Rows.CommentRow>): (r: seq<string>)
    ensures Seqs.NoDuplicates(r)
    ensures forall u :: u in r <==> exists c :: c in comments && c.userId == u
    ensures Seqs.IsSubsequence(r, UserIdsOf(comments))
    ensures forall u :: u in r <==> u in UserIdsOf(comments)
    ensures forall i, j :: 0 <= i < j < |r| ==>
              Seqs.FirstIndex(UserIdsOf(comments), r[i]) < Seqs.FirstIndex(UserIdsOf(comments), r[j])
  {
    var ids := UserIdsOf(comments);
    assert forall u :: u in ids <==> exists c :: c in comments && c.userId == u by {
      forall u ensures u in ids <==> exists c :: c in comments && c.userId == u {
        if u in ids {
          var i :| 0 <= i < |ids| && ids[i] == u;
          assert comments[i] in comments;
        }
        if exists c :: c in comments && c.userId == u {
          var c :| c in comments && c.userId == u;
          var i :| 0 <= i < |comments| && comments[i] == c;
          assert ids[i] == u;
        }
      }
    }
    Seqs.DedupeIsSubsequence(ids);
    Seqs.DedupeFirstOccurrenceOrder(ids);
    Seqs.Dedupe(ids)
  }

  /** The profile the page shows for a user: `Object.fromEntries` keeps the last entry. */
  function ProfileFor(profiles: seq<Rows.Profile>, userId: string): (r: Option<Rows.Profile>)
    ensures r.Some? ==> r.value in profiles && r.value.userId == userId
    ensures r.None? ==> forall p :: p in profiles ==> p.userId != userId
  {
    if profiles == [] then None
    else if profiles[|profiles| - 1].userId == userId then Some(profiles[|profiles| - 1])
    else
      assert forall p :: p in profiles ==> p in profiles[..|profiles| - 1] || p == profiles[|profiles| - 1] by {
        assert profiles == profiles[..|profiles| - 1] + [profiles[|profiles| - 1]];
      }
      ProfileFor(profiles[..|profiles| - 1], userId)
  }

  /** `first last` with missing parts read as empty. */
  function FullName(p: Rows.Profile): string
  {
    StrOr(p.firstName, "") + " " + StrOr(p.lastName, "")
  }

  /** The author or commenter name: the trimmed full name, or "User" when there is no
      profile or the name is blank. */
  function DisplayName(profile: Option<Rows.Profile>): (r: string)
    ensures r != [] && !Text.IsSpace(r[0]) && !Text.IsSpace(r[|r| - 1])
    ensures profile.None? ==> r == "User"
    ensures profile.Some? && Text.AllSpace(FullName(profile.value)) ==> r == "User"
    ensures profile.Some? && !Text.AllSpace(FullName(profile.value)) ==> r == Text.Trim(FullName(profile.value))
  {
    if profile.None? then "User"
    else
      var name := Text.Trim(FullName(profile.value));
      Text.TrimEmptyIffBlank(FullName(profile.value));
      if name == [] then "User" else name
  }

  /** A profile with only a first name shows that name alone, without the separating space. */
  lemma FirstNameAlone(p: Rows.Profile, first: string)
    requires p.firstName == Some(first) && p.lastName.None?
    requires first != [] && !Text.IsSpace(first[0]) && !Text.IsSpace(first[|first| - 1])
    ensures DisplayName(Some(p)) == first
  {
    var full := FullName(p);
    assert full == first + " ";
    assert Text.SkipSpace(full, 0) == 0;
    assert Text.SkipSpaceBack(full, 0, |full|) == |first|;
    assert !Text.AllSpace(full) by {
      assert !Text.IsSpace(full[0]);
    }
  }
}
