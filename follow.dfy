/**
 * Following users (app/api/follow/toggle, check and stats). The `follows` table is
 * meant to hold a set of (follower, following) pairs: toggle adds or removes the
 * caller's pair, check tests it, stats counts pairs on either side.
 */
module Follow {
  import opened Wrappers
  import opened Http
  import opened Query
  import opened Tables

  datatype ToggleResult = ToggleResult(isFollowing: bool, action: string)

  datatype FollowCounts = FollowCounts(followers: nat, following: nat)

  /** `.eq('follower_id', follower).eq('following_id', following)`. */
  function IsPair(follower: string, following: string): FollowRow -> bool
  {
    (f: FollowRow) => f.followerId == follower && f.followingId == following
  }

  /** The existence lookup: its `.single()` finds a row. */
  predicate IsFollowing(follows: seq<FollowRow>, follower: string, following: string): (b: bool)
    ensures b <==> |Filter(follows, IsPair(follower, following))| == 1
    ensures b ==> (follower, following) in Pairs(follows)
  {
    Single(Filter(follows, IsPair(follower, following))).Some?
  }

  /** The pairs the table holds. */
  ghost function Pairs(follows: seq<FollowRow>): set<(string, string)>
  {
    set f | f in follows :: (f.followerId, f.followingId)
  }

  /** The invariant the toggle is written to keep: no pair is stored twice. */
  ghost predicate UniquePairs(follows: seq<FollowRow>)
  {
    forall i, j :: 0 <= i < j < |follows| ==>
      follows[i].followerId != follows[j].followerId || follows[i].followingId != follows[j].followingId
  }

  /** The table after a toggle whose write succeeds. */
  function Toggled(follows: seq<FollowRow>, follower: string, following: string, newId: string): (r: seq<FollowRow>)
    ensures IsFollowing(follows, follower, following) ==>
      forall f :: f in r <==> f in follows && (f.followerId != follower || f.followingId != following)
    ensures !IsFollowing(follows, follower, following) ==>
      r == follows + [FollowRow(newId, follower, following)]
  {
    if IsFollowing(follows, follower, following) then DeleteWhere(follows, IsPair(follower, following))
    else follows + [FollowRow(newId, follower, following)]
  }

  /**
   * POST follow/toggle. `followingId` is `""` when absent. The existence lookup's error is
   * not checked: when `lookupFails` it finds nothing, so the handler follows. `writeFails`
   * says whether the delete or insert returns an error.
   */
  method Toggle(db: Store, user: Option<string>, followingId: string, lookupFails: bool, writeFails: bool,
                newId: string)
    returns (r: Response<ToggleResult>)
    modifies db`follows
    ensures user.None? ==> r == Fail(401, Unauthorized)
    ensures user.Some? && followingId == "" ==> r == Fail(400, "following_id is required")
    ensures user.Some? && followingId != "" && followingId == user.value ==> r == Fail(400, "Cannot follow yourself")
    ensures user.Some? && followingId != "" && followingId != user.value ==>
      var was := !lookupFails && IsFollowing(old(db.follows), user.value, followingId);
      && (writeFails ==> r == Fail(500, if was then "Failed to unfollow" else "Failed to follow"))
      && (!writeFails ==> r == Ok(if was then ToggleResult(false, "unfollowed") else ToggleResult(true, "followed")))
    ensures db.follows ==
      if !(user.Some? && followingId != "" && followingId != user.value) || writeFails then old(db.follows)
      else if lookupFails then old(db.follows) + [FollowRow(newId, user.value, followingId)]
      else Toggled(old(db.follows), user.value, followingId, newId)
  {
    if user.None? {
      return Fail(401, Unauthorized);
    }
    var uid := user.value;
    if followingId == "" {
      return Fail(400, "following_id is required");
    }
    if followingId == uid {
      return Fail(400, "Cannot follow yourself");
    }
    if !lookupFails && IsFollowing(db.follows, uid, followingId) {
      if writeFails {
        return Fail(500, "Failed to unfollow");
      }
      db.follows := DeleteWhere(db.follows, IsPair(uid, followingId));
      r := Ok(ToggleResult(false, "unfollowed"));
    } else {
      if writeFails {
        return Fail(500, "Failed to follow");
      }
      db.follows := db.follows + [FollowRow(newId, uid, followingId)];
      r := Ok(ToggleResult(true, "followed"));
    }
  }

  /** GET follow/check: `is_following` for the caller and `followingId` (`""` when absent). */
  function Check(follows: seq<FollowRow>, user: Option<string>, followingId: string): (r: Response<bool>)
    ensures r.status == 200 <==> user.Some? && followingId != ""
    ensures r.status == 200 ==> r == Ok(IsFollowing(follows, user.value, followingId))
  {
    if user.None? then Fail(401, Unauthorized)
    else if followingId == "" then Fail(400, "following_id is required")
    else Ok(IsFollowing(follows, user.value, followingId))
  }

  /** `.eq('following_id', userId)`. */
  function Follows(userId: string): FollowRow -> bool
  {
    (f: FollowRow) => f.followingId == userId
  }

  /** `.eq('follower_id', userId)`. */
  function FollowedBy(userId: string): FollowRow -> bool
  {
    (f: FollowRow) => f.followerId == userId
  }

  function FollowersOf(follows: seq<FollowRow>, userId: string): nat
  {
    |Filter(follows, Follows(userId))|
  }

  function FollowingOf(follows: seq<FollowRow>, userId: string): nat
  {
    |Filter(follows, FollowedBy(userId))|
  }

  /**
   * GET follow/stats for `userId` (`""` when absent); no authentication. Neither count
   * read is checked: `followersFail` and `followingFails` say which returns an error, and
   * such a count reads as 0.
   */
  function Stats(follows: seq<FollowRow>, userId: string, followersFail: bool, followingFails: bool)
    : (r: Response<FollowCounts>)
    ensures r.status == 200 <==> userId != ""
    ensures r.status == 200 ==>
      r.payload.Body? && r.payload.value.followers <= |follows| && r.payload.value.following <= |follows|
    ensures r.status == 200 && !followersFail ==> r.payload.value.followers == FollowersOf(follows, userId)
    ensures r.status == 200 && !followingFails ==> r.payload.value.following == FollowingOf(follows, userId)
    ensures r.status == 200 && followersFail ==> r.payload.value.followers == 0
    ensures r.status == 200 && !followersFail ==>
      (r.payload.value.followers == 0 <==> forall f :: f in follows ==> f.followingId != userId)
    ensures r.status == 200 && followingFails ==> r.payload.value.following == 0
    ensures r.status == 200 && !followingFails ==>
      (r.payload.value.following == 0 <==> forall f :: f in follows ==> f.followerId != userId)
  {
    if userId == "" then Fail(400, "user_id is required")
    else
      var followers := Filter(follows, Follows(userId));
      var following := Filter(follows, FollowedBy(userId));
      assert followers != [] ==> followers[0] in followers;
      assert following != [] ==> following[0] in following;
      Ok(FollowCounts(CountOrZero(followersFail, FollowersOf(follows, userId)),
                      CountOrZero(followingFails, FollowingOf(follows, userId))))
  }

  // Properties.

  lemma OnePairAtMost(follows: seq<FollowRow>, a: string, b: string)
    requires UniquePairs(follows)
    ensures |Filter(follows, IsPair(a, b))| <= 1
  {
    if follows != [] {
      OnePairAtMost(follows[1..], a, b);
      if IsPair(a, b)(follows[0]) {
        FilterNone(follows[1..], IsPair(a, b));
      }
    }
  }

  /** With no duplicate pairs, the lookup finds a row exactly when the pair is stored. */
  lemma IsFollowingIffPair(follows: seq<FollowRow>, a: string, b: string)
    requires UniquePairs(follows)
    ensures IsFollowing(follows, a, b) <==> (a, b) in Pairs(follows)
  {
    OnePairAtMost(follows, a, b);
    if (a, b) in Pairs(follows) {
      var f :| f in follows && (f.followerId, f.followingId) == (a, b);
      assert f in Filter(follows, IsPair(a, b));
    }
  }

  /** A toggle flips the caller's pair, leaves every other pair alone, and keeps pairs unique. */
  lemma ToggleFlipsOnePair(follows: seq<FollowRow>, a: string, b: string, newId: string)
    requires UniquePairs(follows)
    ensures var after := Toggled(follows, a, b, newId);
      && UniquePairs(after)
      && Pairs(after) == if (a, b) in Pairs(follows) then Pairs(follows) - {(a, b)} else Pairs(follows) + {(a, b)}
  {
    IsFollowingIffPair(follows, a, b);
    if IsFollowing(follows, a, b) {
      DeleteKeepsUnique(follows, IsPair(a, b));
      DeletePairs(follows, a, b);
    } else {
      forall i | 0 <= i < |follows|
        ensures follows[i].followerId != a || follows[i].followingId != b
      {
        assert follows[i] in follows;
      }
    }
  }

  lemma {:induction false} DeleteKeepsUnique(follows: seq<FollowRow>, p: FollowRow -> bool)
    requires UniquePairs(follows)
    ensures UniquePairs(DeleteWhere(follows, p))
  {
    if follows != [] {
      DeleteKeepsUnique(follows[1..], p);
      var rest := DeleteWhere(follows[1..], p);
      assert DeleteWhere(follows, p) == (if !p(follows[0]) then [follows[0]] else []) + rest;
      if !p(follows[0]) {
        forall j | 0 <= j < |rest|
          ensures follows[0].followerId != rest[j].followerId || follows[0].followingId != rest[j].followingId
        {
          assert rest[j] in follows[1..];
          var k :| 0 <= k < |follows[1..]| && follows[1..][k] == rest[j];
          assert follows[k + 1] == rest[j];
        }
      }
    }
  }

  /** Deleting the rows of one pair removes exactly that pair. */
  lemma DeletePairs(follows: seq<FollowRow>, a: string, b: string)
    ensures Pairs(DeleteWhere(follows, IsPair(a, b))) == Pairs(follows) - {(a, b)}
  {
    var after := DeleteWhere(follows, IsPair(a, b));
    forall f | f in follows && (f.followerId, f.followingId) != (a, b)
      ensures f in after
    {
    }
  }

  /**
   * A failed existence lookup is taken for "not following": a pair that is already
   * stored is inserted a second time.
   */
  lemma LookupFailureDuplicatesPair(follows: seq<FollowRow>, a: string, b: string, newId: string)
    requires (a, b) in Pairs(follows)
    ensures !UniquePairs(follows + [FollowRow(newId, a, b)])
  {
    var f :| f in follows && (f.followerId, f.followingId) == (a, b);
    var i :| 0 <= i < |follows| && follows[i] == f;
    var r := follows + [FollowRow(newId, a, b)];
    assert r[i].followerId == r[|follows|].followerId && r[i].followingId == r[|follows|].followingId;
  }

  /** Two successful toggles of the same pair give back the original set of pairs. */
  lemma ToggleTwiceRestores(follows: seq<FollowRow>, a: string, b: string, id1: string, id2: string)
    requires UniquePairs(follows)
    ensures Pairs(Toggled(Toggled(follows, a, b, id1), a, b, id2)) == Pairs(follows)
  {
    ToggleFlipsOnePair(follows, a, b, id1);
    ToggleFlipsOnePair(Toggled(follows, a, b, id1), a, b, id2);
  }

  /** After a toggle, check reports the opposite of what it reported before. */
  lemma CheckAfterToggle(follows: seq<FollowRow>, a: string, b: string, newId: string)
    requires UniquePairs(follows) && a != "" && b != ""
    ensures Check(Toggled(follows, a, b, newId), Some(a), b) == Ok(!IsFollowing(follows, a, b))
  {
    ToggleFlipsOnePair(follows, a, b, newId);
    IsFollowingIffPair(follows, a, b);
    IsFollowingIffPair(Toggled(follows, a, b, newId), a, b);
  }

  /** Removing a stored pair lowers every count that includes it by one. */
  lemma UnfollowCount(follows: seq<FollowRow>, a: string, b: string, q: FollowRow -> bool)
    requires |Filter(follows, IsPair(a, b))| == 1
    requires forall x :: IsPair(a, b)(x) ==> q(x)
    ensures |Filter(DeleteWhere(follows, IsPair(a, b)), q)| + 1 == |Filter(follows, q)|
  {
    DeleteWhereCount(follows, IsPair(a, b), q);
    FilterCongruent(follows, Both(IsPair(a, b), q), IsPair(a, b));
  }

  /** Adding a pair raises every count that includes it by one. */
  lemma FollowCount(follows: seq<FollowRow>, row: FollowRow, q: FollowRow -> bool)
    requires q(row)
    ensures |Filter(follows + [row], q)| == |Filter(follows, q)| + 1
  {
    FilterAppend(follows, [row], q);
    assert Filter([row], q) == [row];
  }

  /** A toggle moves the target's follower count and the caller's following count by one, together. */
  lemma ToggleMovesCounts(follows: seq<FollowRow>, a: string, b: string, newId: string)
    ensures var after := Toggled(follows, a, b, newId);
      var d := if IsFollowing(follows, a, b) then -1 else 1;
      && FollowersOf(after, b) == FollowersOf(follows, b) + d
      && FollowingOf(after, a) == FollowingOf(follows, a) + d
  {
    if IsFollowing(follows, a, b) {
      UnfollowCount(follows, a, b, Follows(b));
      UnfollowCount(follows, a, b, FollowedBy(a));
    } else {
      FollowCount(follows, FollowRow(newId, a, b), Follows(b));
      FollowCount(follows, FollowRow(newId, a, b), FollowedBy(a));
    }
  }
}
