/** The directed follow relation between users: the `followers` association
    table, the `follow` / `unfollow` mutations on a user's `following`
    collection, and the `is_following`, `followers_count` and
    `following_count` queries. */
module FollowGraph {

  /** One row of the `followers` table: `follower` follows `followed`. */
  datatype Edge = Edge(follower: int, followed: int)

  /** The table's composite primary key (follower_id, followed_id): no row
      occurs twice. */
  predicate NoDuplicates(rows: seq<Edge>)
  {
    forall i, j :: 0 <= i < j < |rows| ==> rows[i] != rows[j]
  }

  /** The WHERE clauses the queries put on the table. */
  datatype Where =
    | FollowerIs(follower: int)
    | FollowedIs(followed: int)
    | Pair(follower: int, followed: int)

  predicate Matches(w: Where, e: Edge)
  {
    match w
    case FollowerIs(a) => e.follower == a
    case FollowedIs(b) => e.followed == b
    case Pair(a, b) => e.follower == a && e.followed == b
  }

  /** SQL `COUNT(*)` of the rows that satisfy `w`. */
  function Count(rows: seq<Edge>, w: Where): (n: nat)
    ensures n <= |rows|
    ensures n > 0 <==> exists e :: e in rows && Matches(w, e)
  {
    if rows == [] then 0
    else
      var n := (if Matches(w, rows[0]) then 1 else 0) + Count(rows[1..], w);
      assert forall e :: e in rows <==> e == rows[0] || e in rows[1..];
      n
  }

  /** `is_following`: the rows of `follower`'s `following` collection that
      point at `followed` are counted, and the answer is whether any exist. */
  function IsFollowing(rows: seq<Edge>, follower: int, followed: int): (r: bool)
    ensures r <==> Edge(follower, followed) in rows
  {
    var r := Count(rows, Pair(follower, followed)) > 0;
    assert Matches(Pair(follower, followed), Edge(follower, followed));
    r
  }

  /** `followers_count`: rows whose followed_id is `user` (the in-degree).
      Its value under the primary key is FollowersCountIsDistinctFollowers. */
  function FollowersCount(rows: seq<Edge>, user: int): (n: nat)
    ensures n <= |rows|
    ensures n > 0 <==> exists follower :: Edge(follower, user) in rows
  {
    var n := Count(rows, FollowedIs(user));
    assert n > 0 ==> exists follower :: Edge(follower, user) in rows by {
      if n > 0 {
        var e :| e in rows && Matches(FollowedIs(user), e);
        assert Edge(e.follower, user) == e;
      }
    }
    assert (exists follower :: Edge(follower, user) in rows) ==> n > 0 by {
      if exists follower :: Edge(follower, user) in rows {
        var follower :| Edge(follower, user) in rows;
        assert Matches(FollowedIs(user), Edge(follower, user));
      }
    }
    n
  }

  /** `following_count`: rows whose follower_id is `user` (the out-degree).
      Its value under the primary key is FollowingCountIsDistinctFollowed. */
  function FollowingCount(rows: seq<Edge>, user: int): (n: nat)
    ensures n <= |rows|
    ensures n > 0 <==> exists followed :: Edge(user, followed) in rows
  {
    var n := Count(rows, FollowerIs(user));
    assert n > 0 ==> exists followed :: Edge(user, followed) in rows by {
      if n > 0 {
        var e :| e in rows && Matches(FollowerIs(user), e);
        assert Edge(user, e.followed) == e;
      }
    }
    assert (exists followed :: Edge(user, followed) in rows) ==> n > 0 by {
      if exists followed :: Edge(user, followed) in rows {
        var followed :| Edge(user, followed) in rows;
        assert Matches(FollowerIs(user), Edge(user, followed));
      }
    }
    n
  }

  /** The users that follow `user`, as a set. */
  function FollowersOf(rows: seq<Edge>, user: int): set<int>
  {
    set e | e in rows && e.followed == user :: e.follower
  }

  /** The users that `user` follows, as a set. */
  function FollowedBy(rows: seq<Edge>, user: int): set<int>
  {
    set e | e in rows && e.follower == user :: e.followed
  }

  /** `rows` with every occurrence of `e` deleted. */
  function Without(rows: seq<Edge>, e: Edge): (r: seq<Edge>)
    ensures forall x :: x in r <==> x in rows && x != e
    ensures |r| <= |rows|
    ensures NoDuplicates(rows) ==> NoDuplicates(r)
    ensures e !in rows ==> r == rows
  {
    if rows == [] then []
    else
      assert forall x :: x in rows <==> x == rows[0] || x in rows[1..];
      assert NoDuplicates(rows) ==> NoDuplicates(rows[1..]) && rows[0] !in rows[1..] by {
        if NoDuplicates(rows) { NoDuplicatesTail(rows); }
      }
      if rows[0] == e then Without(rows[1..], e)
      else
        var tail := Without(rows[1..], e);
        [rows[0]] + tail
  }

  /** The rows after `follow(follower, followed)`: a row is appended only when
      `is_following` says there is none yet. */
  function AfterFollow(rows: seq<Edge>, follower: int, followed: int): (r: seq<Edge>)
    ensures IsFollowing(r, follower, followed)
    ensures forall e :: e in r <==> e in rows || e == Edge(follower, followed)
    ensures NoDuplicates(rows) ==> NoDuplicates(r)
    ensures IsFollowing(rows, follower, followed) ==> r == rows
  {
    if IsFollowing(rows, follower, followed) then rows
    else rows + [Edge(follower, followed)]
  }

  /** The rows after `unfollow(follower, followed)`: the row is deleted only
      when `is_following` says it is there. */
  function AfterUnfollow(rows: seq<Edge>, follower: int, followed: int): (r: seq<Edge>)
    ensures !IsFollowing(r, follower, followed)
    ensures forall e :: e in r <==> e in rows && e != Edge(follower, followed)
    ensures NoDuplicates(rows) ==> NoDuplicates(r)
    ensures !IsFollowing(rows, follower, followed) ==> r == rows
  {
    if IsFollowing(rows, follower, followed) then Without(rows, Edge(follower, followed))
    else rows
  }

  // ---------------------------------------------------------------------
  // Counting lemmas

  lemma {:induction false} NoDuplicatesTail(rows: seq<Edge>)
    requires NoDuplicates(rows) && rows != []
    ensures NoDuplicates(rows[1..]) && rows[0] !in rows[1..]
  {
    forall i, j | 0 <= i < j < |rows[1..]| ensures rows[1..][i] != rows[1..][j] {
      assert rows[1..][i] == rows[i + 1] && rows[1..][j] == rows[j + 1];
    }
  }

  /** Appending a row raises a count by one exactly when the row matches. */
  lemma {:induction false} CountAppend(rows: seq<Edge>, e: Edge, w: Where)
    ensures Count(rows + [e], w) == Count(rows, w) + (if Matches(w, e) then 1 else 0)
  {
    if rows == [] {
      assert [] + [e] == [e];
    } else {
      assert (rows + [e])[1..] == rows[1..] + [e];
      CountAppend(rows[1..], e, w);
    }
  }

  /** Deleting a row of a keyed table lowers a count by one exactly when the
      row was there and matches. */
  lemma {:induction false} CountWithout(rows: seq<Edge>, e: Edge, w: Where)
    requires NoDuplicates(rows)
    ensures Count(Without(rows, e), w) + (if e in rows && Matches(w, e) then 1 else 0) == Count(rows, w)
  {
    if rows != [] {
      NoDuplicatesTail(rows);
      if rows[0] != e {
        var tail := Without(rows[1..], e);
        assert ([rows[0]] + tail)[1..] == tail;
        CountWithout(rows[1..], e, w);
      }
    }
  }

  /** The primary key makes the count in `is_following` zero or one. */
  lemma {:induction false} EdgeCountAtMostOne(rows: seq<Edge>, follower: int, followed: int)
    requires NoDuplicates(rows)
    ensures Count(rows, Pair(follower, followed)) <= 1
  {
    if rows != [] {
      NoDuplicatesTail(rows);
      EdgeCountAtMostOne(rows[1..], follower, followed);
      if Matches(Pair(follower, followed), rows[0]) {
        assert rows[0] == Edge(follower, followed);
        assert !IsFollowing(rows[1..], follower, followed);
      }
    }
  }

  /** Because of the primary key, `followers_count` counts distinct
      followers, not merely rows. */
  lemma {:induction false} FollowersCountIsDistinctFollowers(rows: seq<Edge>, user: int)
    requires NoDuplicates(rows)
    ensures FollowersCount(rows, user) == |FollowersOf(rows, user)|
  {
    if rows == [] {
      assert FollowersOf(rows, user) == {};
    } else {
      var r0, rest := rows[0], rows[1..];
      NoDuplicatesTail(rows);
      FollowersCountIsDistinctFollowers(rest, user);
      assert forall x :: x in rows <==> x == r0 || x in rest;
      if r0.followed == user {
        assert FollowersOf(rows, user) == {r0.follower} + FollowersOf(rest, user);
        assert r0.follower !in FollowersOf(rest, user);
      } else {
        assert FollowersOf(rows, user) == FollowersOf(rest, user);
      }
    }
  }

  /** Because of the primary key, `following_count` counts distinct followed
      users, not merely rows. */
  lemma {:induction false} FollowingCountIsDistinctFollowed(rows: seq<Edge>, user: int)
    requires NoDuplicates(rows)
    ensures FollowingCount(rows, user) == |FollowedBy(rows, user)|
  {
    if rows == [] {
      assert FollowedBy(rows, user) == {};
    } else {
      var r0, rest := rows[0], rows[1..];
      NoDuplicatesTail(rows);
      FollowingCountIsDistinctFollowed(rest, user);
      assert forall x :: x in rows <==> x == r0 || x in rest;
      if r0.follower == user {
        assert FollowedBy(rows, user) == {r0.followed} + FollowedBy(rest, user);
        assert r0.followed !in FollowedBy(rest, user);
      } else {
        assert FollowedBy(rows, user) == FollowedBy(rest, user);
      }
    }
  }

  // ---------------------------------------------------------------------
  // Properties of follow and unfollow

  /** `follow` is idempotent: a second call changes nothing. */
  lemma FollowIdempotent(rows: seq<Edge>, follower: int, followed: int)
    ensures AfterFollow(AfterFollow(rows, follower, followed), follower, followed)
         == AfterFollow(rows, follower, followed)
  {
  }

  /** `follow(a, b)` raises `followers_count(b)` and `following_count(a)` by
      one when the edge was absent and by zero otherwise; every other user's
      counts stay as they were. */
  lemma FollowCounts(rows: seq<Edge>, a: int, b: int, user: int)
    ensures FollowersCount(AfterFollow(rows, a, b), user)
         == FollowersCount(rows, user) + (if user == b && !IsFollowing(rows, a, b) then 1 else 0)
    ensures FollowingCount(AfterFollow(rows, a, b), user)
         == FollowingCount(rows, user) + (if user == a && !IsFollowing(rows, a, b) then 1 else 0)
  {
    if !IsFollowing(rows, a, b) {
      CountAppend(rows, Edge(a, b), FollowedIs(user));
      CountAppend(rows, Edge(a, b), FollowerIs(user));
    }
  }

  /** `unfollow(a, b)` lowers `followers_count(b)` and `following_count(a)` by
      one when the edge was present and by zero otherwise; every other user's
      counts stay as they were. */
  lemma UnfollowCounts(rows: seq<Edge>, a: int, b: int, user: int)
    requires NoDuplicates(rows)
    ensures FollowersCount(AfterUnfollow(rows, a, b), user) + (if user == b && IsFollowing(rows, a, b) then 1 else 0)
         == FollowersCount(rows, user)
    ensures FollowingCount(AfterUnfollow(rows, a, b), user) + (if user == a && IsFollowing(rows, a, b) then 1 else 0)
         == FollowingCount(rows, user)
  {
    if IsFollowing(rows, a, b) {
      CountWithout(rows, Edge(a, b), FollowedIs(user));
      CountWithout(rows, Edge(a, b), FollowerIs(user));
    }
  }

  lemma {:induction false} WithoutConcat(xs: seq<Edge>, ys: seq<Edge>, e: Edge)
    ensures Without(xs + ys, e) == Without(xs, e) + Without(ys, e)
  {
    if xs == [] {
      assert xs + ys == ys;
    } else {
      assert (xs + ys)[1..] == xs[1..] + ys;
      WithoutConcat(xs[1..], ys, e);
    }
  }

  /** Starting without the edge a→b, `follow(a, b)` then `unfollow(a, b)`
      restores the table, and with it every count. */
  lemma FollowThenUnfollowRestores(rows: seq<Edge>, a: int, b: int, user: int)
    requires !IsFollowing(rows, a, b)
    ensures AfterUnfollow(AfterFollow(rows, a, b), a, b) == rows
    ensures FollowersCount(AfterUnfollow(AfterFollow(rows, a, b), a, b), user) == FollowersCount(rows, user)
    ensures FollowingCount(AfterUnfollow(AfterFollow(rows, a, b), a, b), user) == FollowingCount(rows, user)
  {
    var e := Edge(a, b);
    WithoutConcat(rows, [e], e);
    assert Without([e], e) == [];
  }

  /** Following the same user twice from an empty table leaves exactly one
      row and a follower count of one. */
  lemma FollowTwiceKeepsOneEdge(a: int, b: int)
    ensures AfterFollow(AfterFollow([], a, b), a, b) == [Edge(a, b)]
    ensures FollowersCount(AfterFollow(AfterFollow([], a, b), a, b), b) == 1
  {
    assert Count([Edge(a, b)], FollowedIs(b)) == 1 + Count([], FollowedIs(b));
  }

  // ---------------------------------------------------------------------
  // The table as mutable state

  /** The `followers` table. `follow` and `unfollow` on a user append to and
      remove from that user's `following` collection, which is a view of
      these rows. */
  class FollowersTable {
    var rows: seq<Edge>

    ghost predicate Valid()
      reads this
    {
      NoDuplicates(rows)
    }

    constructor ()
      ensures Valid() && rows == []
    {
      rows := [];
    }

    /** `follower.follow(followed)`. */
    method Follow(follower: int, followed: int)
      requires Valid()
      modifies this
      ensures Valid()
      ensures rows == AfterFollow(old(rows), follower, followed)
      ensures IsFollowing(rows, follower, followed)
    {
      if !IsFollowing(rows, follower, followed) {
        rows := rows + [Edge(follower, followed)];
      }
    }

    /** `follower.unfollow(followed)`. */
    method Unfollow(follower: int, followed: int)
      requires Valid()
      modifies this
      ensures Valid()
      ensures rows == AfterUnfollow(old(rows), follower, followed)
      ensures !IsFollowing(rows, follower, followed)
    {
      if IsFollowing(rows, follower, followed) {
        rows := Without(rows, Edge(follower, followed));
      }
    }
  }
}
