# Follow graph and feed of a Flask microblog, in Dafny

This project models the logic at the heart of a small Flask microblog:

- the `followers` association table, a directed graph of who follows whom;
- `User.follow` and `User.unfollow`, which change that table;
- the queries `is_following`, `followers_count` and `following_count`;
- `User.following_posts`, the feed;
- the guard in `User.check_password` that rejects every password while no hash is stored.

The database is modelled as plain values. The `followers` table is a `seq<Edge>` of rows. The `post` table is a `seq<Post>`.

- **`FollowGraph`** (`FollowGraph.dfy`) is the follow graph. `FollowersTable` is a class whose `rows` field `Follow` and `Unfollow` change in place. Its invariant `Valid()` is the table's composite primary key (`NoDuplicates`). Each query is a function that mirrors the SQL: a `Count` of the rows that satisfy a `Where` clause. The effect of each mutation is specified by a function (`AfterFollow`, `AfterUnfollow`), and lemmas about those functions give the properties: idempotence, the exact change in each count, the follow/unfollow round trip, and that counts count distinct users.
- **`Feed`** (`Feed.dfy`) models `following_posts` as a function that follows the query's stages:
  1. the `followed` join select, which yields a post once per matching follow row;
  2. the `own` select;
  3. the SQL `UNION`, which is a set, so duplicates vanish;
  4. the join back to `post` by id;
  5. `ORDER BY timestamp DESC`, as an insertion sort.

  Lemmas prove five things: the feed holds exactly the viewer's own posts and the posts of users the viewer follows; it is newest first; no post id appears twice; any other list with these properties has the same timestamp at every position; and the worked example (a viewer following one author) gives the expected order.
- **`Identity`** (`Identity.dfy`) models the credential part of `User` as a class. `SetPassword` stores a hash. `CheckPassword` rejects every password while the stored hash is absent. The salted hashing library appears only as function parameters: `generate` produces a hash and `verify` gives its verdict.

The code does not stop a user from following itself, so the model allows it. The code orders the feed only by timestamp, so the model adds no secondary sort key.

User ids and post ids are `int`, like the `sa.Integer` columns. Timestamps are `int`. The model relies only on timestamps being totally ordered.

## Model

| member | source | states |
|---|---|---|
| FollowGraph.NoDuplicates | app/models.py:16-23 | The composite primary key (follower_id, followed_id): no row of the followers table occurs twice. It is the invariant of `FollowersTable`, and the lemmas below use it. |
| FollowGraph.FollowersCount | app/models.py:78-79 | `followers_count(u)` is at most the number of rows, and it is positive exactly when some user follows u. Its exact value under the primary key is given by `FollowersCountIsDistinctFollowers`. |
| FollowGraph.FollowingCount | app/models.py:81-82 | `following_count(u)` is at most the number of rows, and it is positive exactly when u follows some user. Its exact value under the primary key is given by `FollowingCountIsDistinctFollowed`. |
| FollowGraph.Count | app/models.py:75-82 | A SQL `COUNT` of the matching rows never exceeds the number of rows, and it is positive exactly when some row matches the WHERE clause. |
| FollowGraph.IsFollowing | app/models.py:74-76 | `is_following(a, b)` is true exactly when the row (a, b) is in the followers table. |
| FollowGraph.EdgeCountAtMostOne | app/models.py:16-23 | Because of the composite primary key, the count taken by `is_following` is 0 or 1. |
| FollowGraph.FollowersCountIsDistinctFollowers | app/models.py:78-79 | Because of the primary key, `followers_count(u)` equals the number of distinct users who follow u. |
| FollowGraph.FollowingCountIsDistinctFollowed | app/models.py:81-82 | Because of the primary key, `following_count(u)` equals the number of distinct users u follows. |
| FollowGraph.Without | app/models.py:70-72 | Deleting a row leaves every other row and no copy of the deleted one. It keeps the table duplicate-free, and it changes nothing when the row is absent. |
| FollowGraph.AfterFollow | app/models.py:66-68 | After `follow(a, b)` the edge a→b exists. The rows are the old ones plus that edge. The primary key still holds. The table is unchanged if the edge already existed. |
| FollowGraph.AfterUnfollow | app/models.py:70-72 | After `unfollow(a, b)` the edge a→b is gone. Every other row remains. The primary key still holds. The table is unchanged if the edge was absent. |
| FollowGraph.FollowIdempotent | app/models.py:66-68 | Calling `follow(a, b)` a second time changes nothing. |
| FollowGraph.FollowCounts | app/models.py:66-82 | `follow(a, b)` raises `followers_count(b)` and `following_count(a)` by exactly 1 when the edge was absent and by 0 otherwise. No other user's counts change. |
| FollowGraph.UnfollowCounts | app/models.py:70-82 | `unfollow(a, b)` lowers `followers_count(b)` and `following_count(a)` by exactly 1 when the edge was present and by 0 otherwise. No other user's counts change. |
| FollowGraph.FollowThenUnfollowRestores | app/models.py:66-72 | Starting without the edge a→b, `follow(a, b)` then `unfollow(a, b)` restores the table exactly, and with it every follower and following count. |
| FollowGraph.FollowTwiceKeepsOneEdge | app/models.py:66-68 | Two calls to `follow(a, b)` on an empty table leave exactly one row, and the follower count of b is 1. |
| FollowGraph.FollowersTable.constructor | app/models.py:16-23 | A new followers table is empty and satisfies the primary-key invariant. |
| FollowGraph.FollowersTable.Follow | app/models.py:66-68 | The method keeps the primary-key invariant, leaves the rows `AfterFollow` gives, and after it the user follows the target. |
| FollowGraph.FollowersTable.Unfollow | app/models.py:70-72 | The method keeps the primary-key invariant, leaves the rows `AfterUnfollow` gives, and after it the user no longer follows the target. |
| Feed.UniqueIds | app/models.py:103-104 | The primary key of the `post` table: no post id occurs twice. The lemmas about membership and duplicate ids assume it of the `post` table. |
| Feed.FollowedSelect | app/models.py:86-91 | The join select yields exactly the posts whose author the viewer follows. |
| Feed.OwnSelect | app/models.py:93 | The own select yields exactly the posts whose author is the viewer. |
| Feed.JoinById | app/models.py:97-98 | Joining `post` to the union by id keeps exactly the posts whose id occurs in the union, and it creates no duplicate ids. |
| Feed.InsertNewestFirst | app/models.py:99 | Inserting a post into a newest-first list gives a newest-first list with the same posts plus the new one. No duplicate id is introduced. |
| Feed.SortNewestFirst | app/models.py:99 | `ORDER BY timestamp DESC` returns a permutation of its input with non-increasing timestamps, and it creates no duplicate ids. |
| Feed.FollowingPosts | app/models.py:85-99 | The feed's timestamps never increase from one post to the next. |
| Feed.FeedIncludesOwnAndFollowed | app/models.py:86-98 | Every post by the viewer is in the feed. So is every post by a user the viewer follows. |
| Feed.FeedOnlyOwnAndFollowed | app/models.py:86-98 | Every post in the feed is a post of the table, and its author is the viewer or a user the viewer follows. |
| Feed.FeedNoDuplicateIds | app/models.py:95-98 | No post id appears twice in the feed. This holds whatever the follow rows are, including a self-follow. |
| Feed.SelfFollowListsPostOnce | app/models.py:95 | A user who follows itself sees its own post once: both selects return the post, and the `UNION` merges the two copies. |
| Feed.OrderDeterminedUpToTies | app/models.py:99 | Two newest-first lists of the same posts have equal timestamps at every position. They can differ only among posts with equal timestamps. |
| Feed.FeedDeterminedUpToTies | app/models.py:85-99 | Take any list with the feed's three properties: the right members, no repeated id, newest first. It has the feed's timestamp at every position. |
| Feed.FeedScenario | app/models.py:85-99 | A viewer follows an author whose posts are at times 10 and 20, and owns a post at time 15. The feed is [t=20, t=15, t=10]. |
| Identity.User.constructor | app/models.py:27-31 | A new user has no password hash. |
| Identity.User.SetPassword | app/models.py:52-53 | `set_password` stores the hash generated for the given password. It leaves username and email unchanged. |
| Identity.User.CheckPassword | app/models.py:55-58 | `check_password` returns false while no hash is stored. Otherwise it returns true exactly when the hashing library accepts the password for the stored hash. |
| Identity.SetThenCheck | app/models.py:52-58 | After `set_password(p)`, a check of any password q returns the library's verdict on q against the hash of p. |
| Identity.FreshUserRejects | app/models.py:55-57 | A user whose password was never set rejects every password. |

## Left out

- Password hashing and verification (`generate_password_hash`, `check_password_hash`) are calls into a third-party library. They are function parameters. Salting, randomness and constant-time comparison are not modelled.
- `avatar` depends on MD5 and on Python's Unicode `str.lower`. It is not modelled. Its result depends only on the lower-cased email and the size.
- The password-reset token functions (`get_reset_password_token`, `verify_reset_password_token`) are JWT encoding with HMAC-SHA256 and wall-clock expiry. They are not modelled. In the source they are defined at module level rather than on `User`, and the verify function swallows every error.
- `load_user`, the `db.session` plumbing, the lazy `dynamic` relationships, and the `datetime.now` column defaults are persistence and clock I/O. The model works on the tables' contents instead.
- `app/routes.py` renders fixed data through a template and holds no logic.
- The fields `about_me` and `last_seen`, the post `body`, and `__repr__` carry no behaviour here. They are not modelled.
- Feed.JoinById: the join back to `post` is modelled as a filter by the set of ids in the union. It agrees with SQL whenever post ids are unique. If the `post` table held two different rows with the same id, SQL would repeat a post and the model would not.
- Feed.SortNewestFirst: the source defines no order among posts with equal timestamps, so the insertion sort's choice is one permitted order. No lemma relies on it, and `FeedDeterminedUpToTies` shows that only the order among ties is left open.
- Feed.FollowingPosts: the source returns an unexecuted `select` that a caller could still paginate or limit. The model returns the whole executed list.
- Feed.Post: `timestamp` and `user_id` are nullable columns in the source. Where NULL timestamps fall under `ORDER BY timestamp DESC` depends on the database. The model's `int` fields cannot be NULL, so it does not capture posts without a timestamp or an author.
- Concurrency: two racing `follow` calls could both pass the `is_following` check, and the database's primary key would then reject the second insert. The model runs each call atomically, so it does not capture this.
