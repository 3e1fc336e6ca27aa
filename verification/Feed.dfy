/** Feed assembly: `User.following_posts`, the posts of the users a user
    follows together with the user's own posts, newest first. */
module Feed {
  import opened FollowGraph

  /** A row of the `post` table. The body text is not modelled; `timestamp`
      stands for the DateTime column, compared as an integer. */
  datatype Post = Post(id: int, timestamp: int, userId: int)

  /** The primary key of the `post` table: no id occurs twice. */
  predicate UniqueIds(posts: seq<Post>)
  {
    forall i, j :: 0 <= i < j < |posts| ==> posts[i].id != posts[j].id
  }

  /** `ORDER BY timestamp DESC`: timestamps never increase along the list. */
  predicate NewestFirst(s: seq<Post>)
  {
    forall i, j :: 0 <= i < j < |s| ==> s[i].timestamp >= s[j].timestamp
  }

  /** The `followed` select: `post JOIN followers ON followed_id = user_id
      WHERE follower_id = viewer`. A post is produced once per matching row
      of the followers table. */
  function FollowedSelect(posts: seq<Post>, rows: seq<Edge>, viewer: int): (r: seq<Post>)
    ensures forall p :: p in r <==> p in posts && IsFollowing(rows, viewer, p.userId)
  {
    if posts == [] then []
    else
      var p := posts[0];
      var joined := seq(Count(rows, Pair(viewer, p.userId)), _ => p);
      assert forall q :: q in joined <==> q == p && IsFollowing(rows, viewer, p.userId) by {
        if IsFollowing(rows, viewer, p.userId) { assert joined[0] == p; }
      }
      assert forall q :: q in posts <==> q == p || q in posts[1..];
      joined + FollowedSelect(posts[1..], rows, viewer)
  }

  /** The `own` select: `post WHERE user_id = viewer`. */
  function OwnSelect(posts: seq<Post>, viewer: int): (r: seq<Post>)
    ensures forall p :: p in r <==> p in posts && p.userId == viewer
  {
    if posts == [] then []
    else
      assert forall q :: q in posts <==> q == posts[0] || q in posts[1..];
      (if posts[0].userId == viewer then [posts[0]] else []) + OwnSelect(posts[1..], viewer)
  }

  lemma UniqueIdsTail(s: seq<Post>)
    requires UniqueIds(s) && s != []
    ensures UniqueIds(s[1..])
    ensures forall q :: q in s[1..] ==> q.id != s[0].id
  {
    forall i, j | 0 <= i < j < |s[1..]| ensures s[1..][i].id != s[1..][j].id {
      assert s[1..][i] == s[i + 1] && s[1..][j] == s[j + 1];
    }
    forall q | q in s[1..] ensures q.id != s[0].id {
      var k :| 0 <= k < |s[1..]| && s[1..][k] == q;
      assert s[k + 1] == q;
    }
  }

  lemma UniqueIdsCons(p: Post, s: seq<Post>)
    requires UniqueIds(s) && forall q :: q in s ==> q.id != p.id
    ensures UniqueIds([p] + s)
  {
    forall i, j | 0 <= i < j < |[p] + s| ensures ([p] + s)[i].id != ([p] + s)[j].id {
      if i == 0 { assert ([p] + s)[j] in s; }
      else { assert ([p] + s)[i] == s[i - 1] && ([p] + s)[j] == s[j - 1]; }
    }
  }

  lemma NewestFirstHead(s: seq<Post>)
    requires NewestFirst(s) && s != []
    ensures NewestFirst(s[1..])
    ensures forall q :: q in s ==> q.timestamp <= s[0].timestamp
  {
    forall q | q in s ensures q.timestamp <= s[0].timestamp {
      var k :| 0 <= k < |s| && s[k] == q;
      assert k == 0 || s[0].timestamp >= s[k].timestamp;
    }
  }

  lemma NewestFirstCons(p: Post, s: seq<Post>)
    requires NewestFirst(s) && forall q :: q in s ==> q.timestamp <= p.timestamp
    ensures NewestFirst([p] + s)
  {
    forall i, j | 0 <= i < j < |[p] + s| ensures ([p] + s)[i].timestamp >= ([p] + s)[j].timestamp {
      if i == 0 { assert ([p] + s)[j] in s; }
      else { assert ([p] + s)[i] == s[i - 1] && ([p] + s)[j] == s[j - 1]; }
    }
  }

  /** `post JOIN (union) ON post.id = union.id`: the rows of `post` whose id
      occurs in the union, each once, in table order. */
  function JoinById(posts: seq<Post>, ids: set<int>): (r: seq<Post>)
    ensures forall p :: p in r <==> p in posts && p.id in ids
    ensures UniqueIds(posts) ==> UniqueIds(r)
  {
    if posts == [] then []
    else
      var p, rest := posts[0], posts[1..];
      var tail := JoinById(rest, ids);
      assert forall q :: q in posts <==> q == p || q in rest;
      if p.id in ids then
        assert UniqueIds(posts) ==> UniqueIds([p] + tail) by {
          if UniqueIds(posts) {
            UniqueIdsTail(posts);
            UniqueIdsCons(p, tail);
          }
        }
        [p] + tail
      else
        assert UniqueIds(posts) ==> UniqueIds(tail) by {
          if UniqueIds(posts) { UniqueIdsTail(posts); }
        }
        tail
  }

  /** Putting `head` in front of a newest-first list `tail` that holds only
      `p` and posts of `rest`, where `[head] + rest` is newest first and
      `p` is older than `head`, keeps the list newest first. */
  lemma InsertStep(p: Post, head: Post, rest: seq<Post>, tail: seq<Post>)
    requires NewestFirst([head] + rest) && NewestFirst(tail)
    requires p.timestamp < head.timestamp
    requires multiset(tail) == multiset(rest) + multiset{p}
    ensures NewestFirst([head] + tail)
  {
    NewestFirstHead([head] + rest);
    assert ([head] + rest)[1..] == rest;
    forall q | q in tail ensures q.timestamp <= head.timestamp {
      assert q in multiset(tail);
      if q != p {
        assert q in multiset(rest);
        assert q in [head] + rest;
      }
    }
    NewestFirstCons(head, tail);
  }

  /** Places `p` into a newest-first list; where timestamps tie, `p` goes
      first (one of the orders `ORDER BY timestamp DESC` allows). */
  function InsertNewestFirst(p: Post, s: seq<Post>): (r: seq<Post>)
    requires NewestFirst(s)
    ensures NewestFirst(r)
    ensures multiset(r) == multiset(s) + multiset{p}
    ensures UniqueIds(s) && (forall q :: q in s ==> q.id != p.id) ==> UniqueIds(r)
  {
    if s == [] || s[0].timestamp <= p.timestamp then
      assert NewestFirst([p] + s) by {
        if s != [] { NewestFirstHead(s); }
        NewestFirstCons(p, s);
      }
      assert UniqueIds(s) && (forall q :: q in s ==> q.id != p.id) ==> UniqueIds([p] + s) by {
        if UniqueIds(s) && (forall q :: q in s ==> q.id != p.id) { UniqueIdsCons(p, s); }
      }
      [p] + s
    else
      var head, rest := s[0], s[1..];
      assert s == [head] + rest;
      assert NewestFirst(rest) by { NewestFirstHead(s); }
      var tail := InsertNewestFirst(p, rest);
      assert NewestFirst([head] + tail) by { InsertStep(p, head, rest, tail); }
      assert UniqueIds(s) && (forall q :: q in s ==> q.id != p.id) ==> UniqueIds([head] + tail) by {
        if UniqueIds(s) && (forall q :: q in s ==> q.id != p.id) {
          UniqueIdsTail(s);
          forall q | q in tail ensures q.id != head.id {
            assert q in multiset(tail);
            if q != p { assert q in multiset(rest); }
          }
          UniqueIdsCons(head, tail);
        }
      }
      [head] + tail
  }

  /** `ORDER BY timestamp DESC` over a list of posts. */
  function SortNewestFirst(s: seq<Post>): (r: seq<Post>)
    ensures NewestFirst(r)
    ensures multiset(r) == multiset(s)
    ensures UniqueIds(s) ==> UniqueIds(r)
  {
    if s == [] then []
    else
      var rest := s[1..];
      assert s == [s[0]] + rest;
      var sorted := SortNewestFirst(rest);
      assert forall q :: q in sorted ==> q in rest by {
        forall q | q in sorted ensures q in rest {
          assert q in multiset(sorted);
        }
      }
      assert UniqueIds(s) ==> UniqueIds(rest) && forall q :: q in sorted ==> q.id != s[0].id by {
        if UniqueIds(s) { UniqueIdsTail(s); }
      }
      InsertNewestFirst(s[0], sorted)
  }

  /** `following_posts(viewer)`: the UNION of the followed and own selects
      (a set, so duplicates vanish), joined back to `post` by id and ordered
      by timestamp, newest first. */
  function FollowingPosts(posts: seq<Post>, rows: seq<Edge>, viewer: int): (feed: seq<Post>)
    ensures NewestFirst(feed)
  {
    var union := set p | p in FollowedSelect(posts, rows, viewer) + OwnSelect(posts, viewer);
    var ids := set p | p in union :: p.id;
    SortNewestFirst(JoinById(posts, ids))
  }

  // ---------------------------------------------------------------------
  // Properties of the feed

  /** The feed holds every post of `viewer` and every post of a user that
      `viewer` follows, whatever the rest of the tables hold. */
  lemma FeedIncludesOwnAndFollowed(posts: seq<Post>, rows: seq<Edge>, viewer: int, p: Post)
    requires p in posts
    requires p.userId == viewer || IsFollowing(rows, viewer, p.userId)
    ensures p in FollowingPosts(posts, rows, viewer)
  {
    var selected := FollowedSelect(posts, rows, viewer) + OwnSelect(posts, viewer);
    var union: set<Post> := set q | q in selected;
    assert p in selected;
    assert p in union;
    var ids := set q | q in union :: q.id;
    assert p.id in ids;
    var joined := JoinById(posts, ids);
    assert p in multiset(joined);
    assert p in multiset(SortNewestFirst(joined));
  }

  /** The feed holds nothing but posts of `viewer` and of users that
      `viewer` follows; a post id names one post, as the `post` table's
      primary key guarantees. */
  lemma FeedOnlyOwnAndFollowed(posts: seq<Post>, rows: seq<Edge>, viewer: int, p: Post)
    requires UniqueIds(posts)
    requires p in FollowingPosts(posts, rows, viewer)
    ensures p in posts
    ensures p.userId == viewer || IsFollowing(rows, viewer, p.userId)
  {
    var selected := FollowedSelect(posts, rows, viewer) + OwnSelect(posts, viewer);
    var union: set<Post> := set q | q in selected;
    var ids := set q | q in union :: q.id;
    var joined := JoinById(posts, ids);
    assert p in multiset(SortNewestFirst(joined));
    assert p in joined;
    var q: Post :| q in union && q.id == p.id;
    assert q in posts;
    var i :| 0 <= i < |posts| && posts[i] == p;
    var j :| 0 <= j < |posts| && posts[j] == q;
    assert i == j;
  }

  /** No post id appears twice in the feed, even when `viewer` follows
      itself and both selects produce the same post. */
  lemma FeedNoDuplicateIds(posts: seq<Post>, rows: seq<Edge>, viewer: int)
    requires UniqueIds(posts)
    ensures UniqueIds(FollowingPosts(posts, rows, viewer))
  {
  }

  /** A user who follows only itself and has one post sees that post once. */
  lemma SelfFollowListsPostOnce(p: Post)
    ensures FollowingPosts([p], [Edge(p.userId, p.userId)], p.userId) == [p]
  {
    var posts, rows, viewer := [p], [Edge(p.userId, p.userId)], p.userId;
    var selected := FollowedSelect(posts, rows, viewer) + OwnSelect(posts, viewer);
    var union: set<Post> := set q | q in selected;
    assert union == {p};
    var ids := set q | q in union :: q.id;
    assert ids == {p.id};
    assert JoinById(posts, ids) == [p];
  }

  // ---------------------------------------------------------------------
  // The feed is determined up to the order of posts with equal timestamps

  /** The timestamps of a list of posts, in list order. */
  function Timestamps(s: seq<Post>): (t: seq<int>)
    ensures |t| == |s|
    ensures forall i :: 0 <= i < |s| ==> t[i] == s[i].timestamp
  {
    seq(|s|, i requires 0 <= i < |s| => s[i].timestamp)
  }

  lemma TimestampsConcat(a: seq<Post>, b: seq<Post>)
    ensures Timestamps(a + b) == Timestamps(a) + Timestamps(b)
  {
  }

  /** Taking the post at position `k` out of a list takes one copy of it
      out of the list's multiset and one copy of its timestamp out of the
      timestamps' multiset. */
  lemma RemoveAt(b: seq<Post>, k: nat)
    requires k < |b|
    ensures multiset(b[..k] + b[k + 1..]) == multiset(b) - multiset{b[k]}
    ensures multiset(Timestamps(b)) == multiset(Timestamps(b[..k] + b[k + 1..])) + multiset{b[k].timestamp}
  {
    var before, after := b[..k], b[k + 1..];
    assert b == before + [b[k]] + after;
    TimestampsConcat(before + [b[k]], after);
    TimestampsConcat(before, [b[k]]);
    TimestampsConcat(before, after);
    assert Timestamps([b[k]]) == [b[k].timestamp];
  }

  lemma {:induction false} TimestampsOfPermutation(a: seq<Post>, b: seq<Post>)
    requires multiset(a) == multiset(b)
    ensures multiset(Timestamps(a)) == multiset(Timestamps(b))
  {
    if a == [] {
      assert |b| == |multiset(b)| == 0;
    } else {
      var a0, rest := a[0], a[1..];
      assert a == [a0] + rest;
      assert a0 in multiset(b);
      var k :| 0 <= k < |b| && b[k] == a0;
      RemoveAt(b, k);
      RemoveAt(a, 0);
      assert a[..0] + a[1..] == rest;
      TimestampsOfPermutation(rest, b[..k] + b[k + 1..]);
    }
  }

  lemma HeadIsLargest(x: seq<int>, v: int)
    requires forall i, j :: 0 <= i < j < |x| ==> x[i] >= x[j]
    requires v in multiset(x)
    ensures x != [] && v <= x[0]
  {
    var i :| 0 <= i < |x| && x[i] == v;
    assert i == 0 || x[0] >= x[i];
  }

  lemma {:induction false} SortedTimestampsUnique(x: seq<int>, y: seq<int>)
    requires forall i, j :: 0 <= i < j < |x| ==> x[i] >= x[j]
    requires forall i, j :: 0 <= i < j < |y| ==> y[i] >= y[j]
    requires multiset(x) == multiset(y)
    ensures x == y
  {
    if x == [] {
      assert |y| == |multiset(y)| == 0;
    } else {
      assert x[0] in multiset(x);
      HeadIsLargest(y, x[0]);
      assert y[0] in multiset(y);
      HeadIsLargest(x, y[0]);
      var x', y' := x[1..], y[1..];
      assert x == [x[0]] + x' && y == [y[0]] + y';
      assert x[0] == y[0];
      assert multiset(x) == multiset{x[0]} + multiset(x');
      assert multiset(y) == multiset{y[0]} + multiset(y');
      assert multiset(x') == multiset(x) - multiset{x[0]};
      assert multiset(x') == multiset(y');
      SortedTimestampsUnique(x', y');
    }
  }

  /** Two newest-first lists of the same posts carry the same timestamps at
      every position: they can differ only where timestamps tie. */
  lemma OrderDeterminedUpToTies(a: seq<Post>, b: seq<Post>)
    requires NewestFirst(a) && NewestFirst(b)
    requires multiset(a) == multiset(b)
    ensures Timestamps(a) == Timestamps(b)
  {
    TimestampsOfPermutation(a, b);
    SortedTimestampsUnique(Timestamps(a), Timestamps(b));
  }

  lemma {:induction false} DistinctMultiset(s: seq<Post>)
    requires UniqueIds(s)
    ensures forall x :: multiset(s)[x] == if x in s then 1 else 0
  {
    if s != [] {
      UniqueIdsTail(s);
      DistinctMultiset(s[1..]);
      assert s == [s[0]] + s[1..];
      assert s[0] !in s[1..];
    }
  }

  /** Any list that holds exactly the posts the feed must hold, with no id
      twice and newest first, has the feed's timestamps at every position:
      the properties above pin the feed down except among equal timestamps. */
  lemma FeedDeterminedUpToTies(posts: seq<Post>, rows: seq<Edge>, viewer: int, other: seq<Post>)
    requires UniqueIds(posts)
    requires forall p :: p in other <==> p in posts && (p.userId == viewer || IsFollowing(rows, viewer, p.userId))
    requires UniqueIds(other) && NewestFirst(other)
    ensures Timestamps(other) == Timestamps(FollowingPosts(posts, rows, viewer))
  {
    var feed := FollowingPosts(posts, rows, viewer);
    forall p ensures p in feed <==> p in other {
      if p in feed { FeedOnlyOwnAndFollowed(posts, rows, viewer, p); }
      if p in other { FeedIncludesOwnAndFollowed(posts, rows, viewer, p); }
    }
    FeedNoDuplicateIds(posts, rows, viewer);
    DistinctMultiset(feed);
    DistinctMultiset(other);
    assert multiset(feed) == multiset(other);
    OrderDeterminedUpToTies(other, feed);
  }

  /** A viewer with no posts follows an author with posts at times 10 and 20
      and has one post at time 15: the feed interleaves them newest first. */
  lemma FeedScenario()
    ensures
      var viewer, author := 1, 2;
      var p1, p2, p3 := Post(1, 10, author), Post(2, 20, author), Post(3, 15, viewer);
      FollowingPosts([p1, p2, p3], [Edge(viewer, author)], viewer) == [p2, p3, p1]
  {
    var viewer, author := 1, 2;
    var p1, p2, p3 := Post(1, 10, author), Post(2, 20, author), Post(3, 15, viewer);
    var posts, rows := [p1, p2, p3], [Edge(viewer, author)];
    var selected := FollowedSelect(posts, rows, viewer) + OwnSelect(posts, viewer);
    var union: set<Post> := set q | q in selected;
    assert p1 in selected && p2 in selected && p3 in selected;
    var ids := set q | q in union :: q.id;
    assert 1 in ids && 2 in ids && 3 in ids;
    assert [p3][1..] == [] && [p2, p3][1..] == [p3] && posts[1..] == [p2, p3];
    assert JoinById([p3], ids) == [p3];
    assert JoinById([p2, p3], ids) == [p2, p3];
    assert JoinById(posts, ids) == posts;
    ScenarioSort(p1, p2, p3);
  }

  lemma ScenarioSort(p1: Post, p2: Post, p3: Post)
    requires p1.timestamp == 10 && p2.timestamp == 20 && p3.timestamp == 15
    ensures SortNewestFirst([p1, p2, p3]) == [p2, p3, p1]
  {
    assert [p1, p2, p3][1..] == [p2, p3];
    ScenarioSortTail(p2, p3);
    ScenarioInsert(p1, p2, p3);
  }

  lemma ScenarioSortTail(p2: Post, p3: Post)
    requires p2.timestamp == 20 && p3.timestamp == 15
    ensures SortNewestFirst([p2, p3]) == [p2, p3]
  {
    assert [p2, p3][1..] == [p3] && [p3][1..] == [];
    assert SortNewestFirst([p3]) == [p3];
  }

  lemma ScenarioInsert(p1: Post, p2: Post, p3: Post)
    requires p1.timestamp == 10 && p2.timestamp == 20 && p3.timestamp == 15
    ensures InsertNewestFirst(p1, [p2, p3]) == [p2, p3, p1]
  {
    assert [p2, p3][1..] == [p3] && [p3][1..] == [];
    assert InsertNewestFirst(p1, [p3]) == [p3] + InsertNewestFirst(p1, []) == [p3, p1];
  }

}
