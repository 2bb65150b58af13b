/**
 * The post store: post documents kept in an in-memory collection keyed by
 * post id, the read-only feed and per-author queries over it, and the
 * handlers that create, edit, delete, like and comment on a post.
 *
 * Ids are handed out in increasing order, and the collection's natural
 * order is taken to be id order.
 */
module Posts {

  import opened Http
  import opened Lists

  type PostId = nat

  datatype Comment = Comment(user: UserId, text: string)

  datatype Post = Post(
    id: PostId,
    author: UserId,
    text: string,
    likes: seq<UserId>,
    comments: seq<Comment>,
    createdAt: int)

  const DefaultPage: nat := 1
  const DefaultLimit: nat := 10

  /** Every post is stored under its own id, and every id is below `nextId`. */
  ghost predicate WellKeyed(posts: map<PostId, Post>, nextId: nat)
  {
    forall k :: k in posts ==> k < nextId && posts[k].id == k
  }

  /** `p` is one of the stored posts with an id below `n`. */
  ghost predicate StoredBelow(posts: map<PostId, Post>, n: nat, p: Post)
  {
    exists k :: k < n && k in posts && posts[k] == p
  }

  // ---------------------------------------------------------------------
  // Likes

  /**
   * The like toggle: a user who already likes the post is pulled out of
   * `likes` (every occurrence), any other user is pushed once at the end.
   */
  function ToggleLike(likes: seq<UserId>, user: UserId): (r: seq<UserId>)
    ensures user in r <==> user !in likes
    ensures Remove(r, user) == Remove(likes, user)
    ensures user !in likes ==> r == likes + [user]
  {
    if user in likes then
      RemoveIdempotent(likes, user);
      Remove(likes, user)
    else
      RemoveConcat(likes, [user], user);
      likes + [user]
  }

  /** Toggling twice gives back whether the user likes the post, and leaves every other like alone. */
  lemma ToggleTwiceRestoresMembership(likes: seq<UserId>, user: UserId)
    ensures var twice := ToggleLike(ToggleLike(likes, user), user);
      (user in twice <==> user in likes) && Remove(twice, user) == Remove(likes, user)
  {
  }

  /** Starting from a post the user does not like, liking twice restores the like list exactly. */
  lemma ToggleTwiceFromUnliked(likes: seq<UserId>, user: UserId)
    requires user !in likes
    ensures ToggleLike(ToggleLike(likes, user), user) == likes
  {
    AppendThenRemove(likes, user);
  }

  /** A like list without repeated users keeps that shape through a toggle. */
  lemma ToggleKeepsNoDuplicates(likes: seq<UserId>, user: UserId)
    requires NoDuplicates(likes)
    ensures NoDuplicates(ToggleLike(likes, user))
  {
    if user in likes {
      RemoveKeepsNoDuplicates(likes, user);
    } else {
      AppendKeepsNoDuplicates(likes, user);
    }
  }

  // ---------------------------------------------------------------------
  // Natural order, newest-first order and the feed

  /** The stored posts whose ids are below `n`, in id order. */
  function Listing(posts: map<PostId, Post>, n: nat): (r: seq<Post>)
    ensures forall p :: p in r ==> StoredBelow(posts, n, p)
    ensures forall k :: k < n && k in posts ==> posts[k] in r
  {
    if n == 0 then []
    else Listing(posts, n - 1) + (if n - 1 in posts then [posts[n - 1]] else [])
  }

  /** When every post is stored under its own id, the listing holds no post twice. */
  lemma {:induction false} ListingNoRepeats(posts: map<PostId, Post>, n: nat)
    requires forall k :: k in posts ==> posts[k].id == k
    ensures NoDuplicates(Listing(posts, n))
    ensures forall p :: p in Listing(posts, n) ==> p.id < n
  {
    if n > 0 {
      ListingNoRepeats(posts, n - 1);
      var prefix := Listing(posts, n - 1);
      if n - 1 in posts {
        var s := prefix + [posts[n - 1]];
        forall i, j | 0 <= i < j < |s| ensures s[i] != s[j] {
          if j < |prefix| {
            assert s[i] == prefix[i] && s[j] == prefix[j];
          } else {
            assert s[i] == prefix[i];
            assert s[i] in prefix;
          }
        }
      }
    }
  }

  ghost predicate NewestFirst(s: seq<Post>)
  {
    forall i, j :: 0 <= i < j < |s| ==> s[i].createdAt >= s[j].createdAt
  }

  /** Putting a post no older than the head in front keeps a list newest first. */
  lemma PrependNewest(p: Post, s: seq<Post>)
    requires NewestFirst(s)
    requires s == [] || p.createdAt >= s[0].createdAt
    ensures NewestFirst([p] + s)
  {
    var r := [p] + s;
    forall i, j | 0 <= i < j < |r| ensures r[i].createdAt >= r[j].createdAt {
      if i == 0 {
        assert r[j] == s[j - 1];
        assert s[0].createdAt >= s[j - 1].createdAt || j == 1;
      } else {
        assert r[i] == s[i - 1] && r[j] == s[j - 1];
      }
    }
  }

  /** Dropping the head of a newest-first list keeps it newest first. */
  lemma TailNewestFirst(s: seq<Post>)
    requires NewestFirst(s) && s != []
    ensures NewestFirst(s[1..])
  {
    forall i, j | 0 <= i < j < |s| - 1 ensures s[1..][i].createdAt >= s[1..][j].createdAt {
      assert s[1..][i] == s[i + 1] && s[1..][j] == s[j + 1];
    }
  }

  /** Inserts `p` into a newest-first list, ahead of every post that is not newer. */
  function Insert(p: Post, s: seq<Post>): (r: seq<Post>)
    requires NewestFirst(s)
    ensures NewestFirst(r)
    ensures |r| == |s| + 1
    ensures r[0] == p || (s != [] && r[0] == s[0])
  {
    if s == [] || p.createdAt >= s[0].createdAt then
      PrependNewest(p, s);
      [p] + s
    else
      TailNewestFirst(s);
      var rest := Insert(p, s[1..]);
      assert rest[0].createdAt <= s[0].createdAt by {
        if rest[0] != p {
          assert s[1..][0] == s[1];
        }
      }
      PrependNewest(s[0], rest);
      [s[0]] + rest
  }

  /** Insertion adds exactly the one post: the result is a permutation of `[p] + s`. */
  lemma {:induction false} InsertPermutes(p: Post, s: seq<Post>)
    requires NewestFirst(s)
    ensures multiset(Insert(p, s)) == multiset(s) + multiset{p}
  {
    if s != [] && p.createdAt < s[0].createdAt {
      TailNewestFirst(s);
      InsertPermutes(p, s[1..]);
      assert s == [s[0]] + s[1..];
      assert Insert(p, s) == [s[0]] + Insert(p, s[1..]);
    }
  }

  lemma HeadTailMultiset(s: seq<Post>)
    requires s != []
    ensures multiset(s) == multiset(s[1..]) + multiset{s[0]}
  {
    assert s == [s[0]] + s[1..];
  }

  /** Mongo's `sort({ createdAt: -1 })`: newest first, a permutation of its input. */
  function SortNewestFirst(s: seq<Post>): (r: seq<Post>)
    ensures NewestFirst(r)
    ensures multiset(r) == multiset(s)
  {
    if s == [] then []
    else
      var sorted := SortNewestFirst(s[1..]);
      InsertPermutes(s[0], sorted);
      HeadTailMultiset(s);
      Insert(s[0], sorted)
  }

  lemma {:induction false} NoRepeatsCountsOnce(s: seq<Post>, x: Post)
    requires NoDuplicates(s)
    ensures multiset(s)[x] <= 1
  {
    if s != [] {
      assert s == [s[0]] + s[1..];
      assert NoDuplicates(s[1..]) by {
        forall i, j | 0 <= i < j < |s[1..]| ensures s[1..][i] != s[1..][j] {
          assert s[1..][i] == s[i + 1] && s[1..][j] == s[j + 1];
        }
      }
      NoRepeatsCountsOnce(s[1..], x);
      if x == s[0] {
        assert x !in s[1..];
      }
    }
  }

  /** A permutation of a list without repeats has no repeats either. */
  lemma PermutationNoRepeats(s: seq<Post>, t: seq<Post>)
    requires NoDuplicates(s) && multiset(s) == multiset(t)
    ensures NoDuplicates(t)
  {
    forall i, j | 0 <= i < j < |t| ensures t[i] != t[j] {
      if t[i] == t[j] {
        assert t == t[..j] + t[j..];
        assert t[i] in t[..j];
        assert t[j] in t[j..];
        assert multiset(t)[t[i]] == multiset(t[..j])[t[i]] + multiset(t[j..])[t[i]];
        NoRepeatsCountsOnce(s, t[i]);
        assert false;
      }
    }
  }

  /** Every stored post, newest first: what `Post.find().sort({ createdAt: -1 })` yields. */
  function Timeline(posts: map<PostId, Post>, n: nat): (r: seq<Post>)
    ensures NewestFirst(r)
    ensures forall p :: p in r <==> StoredBelow(posts, n, p)
  {
    var listed := Listing(posts, n);
    var r := SortNewestFirst(listed);
    assert forall p :: p in r <==> p in multiset(listed);
    r
  }

  /** When every post is stored under its own id, the timeline shows each post once. */
  lemma TimelineNoRepeats(posts: map<PostId, Post>, n: nat)
    requires forall k :: k in posts ==> posts[k].id == k
    ensures NoDuplicates(Timeline(posts, n))
  {
    ListingNoRepeats(posts, n);
    PermutationNoRepeats(Listing(posts, n), Timeline(posts, n));
  }

  /** The part of `s` that skips `skip` elements and takes at most `count` more. */
  function Window(s: seq<Post>, skip: nat, count: nat): (r: seq<Post>)
    ensures |r| == (if skip >= |s| then 0 else if skip + count <= |s| then count else |s| - skip)
    ensures forall i :: 0 <= i < |r| ==> skip + i < |s| && r[i] == s[skip + i]
  {
    if skip >= |s| then []
    else if skip + count <= |s| then s[skip..skip + count]
    else s[skip..]
  }

  /** A window of a newest-first list is newest first and takes nothing from outside it. */
  lemma WindowKeepsOrder(s: seq<Post>, skip: nat, count: nat)
    requires NewestFirst(s)
    ensures NewestFirst(Window(s, skip, count))
    ensures forall p :: p in Window(s, skip, count) ==> p in s
  {
    var r := Window(s, skip, count);
    forall i, j | 0 <= i < j < |r| ensures r[i].createdAt >= r[j].createdAt {
      assert r[i] == s[skip + i] && r[j] == s[skip + j];
    }
    forall p | p in r ensures p in s {
      var i :| 0 <= i < |r| && r[i] == p;
      assert s[skip + i] == p;
    }
  }

  /**
   * One page of the feed: the window of the newest-first timeline that
   * skips `(page - 1) * limit` posts and takes at most `limit` more.
   */
  function Feed(posts: map<PostId, Post>, n: nat, page: int, limit: int): (r: seq<Post>)
    requires page >= 1 && limit >= 1
    ensures |r| <= limit
    ensures NewestFirst(r)
    ensures forall p :: p in r ==> StoredBelow(posts, n, p)
  {
    var all, skip := Timeline(posts, n), Skip(page, limit);
    WindowKeepsOrder(all, skip, limit);
    Window(all, skip, limit)
  }

  /** A feed page is the slice of the newest-first timeline that starts after `(page - 1) * limit` posts. */
  lemma FeedIsSlice(posts: map<PostId, Post>, n: nat, page: int, limit: int)
    requires page >= 1 && limit >= 1
    ensures (page - 1) * limit >= 0
    ensures Feed(posts, n, page, limit) == Window(Timeline(posts, n), (page - 1) * limit, limit)
  {
    SkipIsProduct(page, limit);
  }

  /**
   * How many posts of the timeline come before page `page`: `limit` for
   * each earlier page.
   */
  function Skip(page: int, limit: int): (skip: nat)
    requires page >= 1 && limit >= 1
    ensures skip >= page - 1
    decreases page
  {
    if page == 1 then 0 else Skip(page - 1, limit) + limit
  }

  /** The skip count is the handler's `(page - 1) * limit`. */
  lemma {:induction false} SkipIsProduct(page: int, limit: int)
    requires page >= 1 && limit >= 1
    ensures Skip(page, limit) == (page - 1) * limit
    decreases page
  {
    if page > 1 {
      SkipIsProduct(page - 1, limit);
      assert (page - 1) * limit == (page - 2) * limit + limit;
    }
  }

  /** Two windows that meet end to start join into one window. */
  lemma WindowsJoin(s: seq<Post>, skip: nat, count1: nat, count2: nat)
    ensures Window(s, skip, count1) + Window(s, skip + count1, count2) == Window(s, skip, count1 + count2)
  {
    var w1, w2, w := Window(s, skip, count1), Window(s, skip + count1, count2), Window(s, skip, count1 + count2);
    assert |w1 + w2| == |w|;
    forall i | 0 <= i < |w| ensures (w1 + w2)[i] == w[i] {
      if i >= |w1| {
        assert (w1 + w2)[i] == w2[i - count1];
      }
    }
  }

  /** Consecutive pages with the same limit are contiguous: together they are the window of twice the limit. */
  lemma ConsecutivePages(posts: map<PostId, Post>, n: nat, page: int, limit: int)
    requires page >= 1 && limit >= 1
    ensures Feed(posts, n, page, limit) + Feed(posts, n, page + 1, limit)
         == Window(Timeline(posts, n), Skip(page, limit), limit + limit)
  {
    var all, skip := Timeline(posts, n), Skip(page, limit);
    WindowsJoin(all, skip, limit, limit);
  }

  /** Pages one and two with the same limit are the first page of twice that limit. */
  lemma FirstTwoPages(posts: map<PostId, Post>, n: nat, limit: int)
    requires limit >= 1
    ensures Feed(posts, n, 1, limit) + Feed(posts, n, 2, limit) == Feed(posts, n, 1, 2 * limit)
  {
    ConsecutivePages(posts, n, 1, limit);
  }

  /** A later page starts at or after the end of an earlier one. */
  lemma {:induction false} LaterPageSkipsMore(page1: int, page2: int, limit: int)
    requires 1 <= page1 < page2 && limit >= 1
    ensures Skip(page1, limit) + limit <= Skip(page2, limit)
  {
    if page1 < page2 - 1 {
      LaterPageSkipsMore(page1, page2 - 1, limit);
    }
  }

  /** Two different pages with the same limit share no post. */
  lemma PagesDisjoint(posts: map<PostId, Post>, n: nat, page1: int, page2: int, limit: int)
    requires forall k :: k in posts ==> posts[k].id == k
    requires page1 >= 1 && page2 >= 1 && limit >= 1 && page1 != page2
    ensures forall p :: p in Feed(posts, n, page1, limit) ==> p !in Feed(posts, n, page2, limit)
  {
    var all := Timeline(posts, n);
    TimelineNoRepeats(posts, n);
    var skip1, skip2 := Skip(page1, limit), Skip(page2, limit);
    var r1, r2 := Window(all, skip1, limit), Window(all, skip2, limit);
    if page1 < page2 {
      LaterPageSkipsMore(page1, page2, limit);
    } else {
      LaterPageSkipsMore(page2, page1, limit);
    }
    forall i, j | 0 <= i < |r1| && 0 <= j < |r2| ensures r1[i] != r2[j] {
      assert skip1 + i != skip2 + j;
    }
  }

  /** When `n` bounds every stored id, the posts stored below `n` are all the stored posts. */
  lemma StoredBelowIsStored(posts: map<PostId, Post>, n: nat)
    requires forall k :: k in posts ==> k < n
    ensures forall p :: StoredBelow(posts, n, p) <==> p in posts.Values
  {
    forall p | p in posts.Values ensures StoredBelow(posts, n, p) {
      var k :| k in posts && posts[k] == p;
    }
  }

  /** `getFeedPosts`: page and limit default to 1 and 10 when missing, non-numeric or 0. */
  function GetFeedPosts(posts: map<PostId, Post>, n: nat, pageQuery: Option<int>, limitQuery: Option<int>)
    : (reply: Reply<seq<Post>>)
    requires forall k :: k in posts ==> k < n
    requires pageQuery.None? || pageQuery.value >= 0
    requires limitQuery.None? || limitQuery.value >= 0
    ensures reply.status == StatusOk && reply.body.Doc?
    ensures var page, limit := NumberOr(pageQuery, DefaultPage), NumberOr(limitQuery, DefaultLimit);
      page >= 1 && limit >= 1 && reply.body.doc == Feed(posts, n, page, limit)
    ensures forall p :: p in reply.body.doc ==> p in posts.Values
  {
    StoredBelowIsStored(posts, n);
    Reply(StatusOk, Doc(Feed(posts, n, NumberOr(pageQuery, DefaultPage), NumberOr(limitQuery, DefaultLimit))))
  }

  /** A request that gives neither page nor limit (or gives 0) gets the ten newest posts. */
  lemma FeedDefaults(posts: map<PostId, Post>, n: nat, pageQuery: Option<int>, limitQuery: Option<int>)
    requires forall k :: k in posts ==> k < n
    requires pageQuery == None || pageQuery == Some(0)
    requires limitQuery == None || limitQuery == Some(0)
    ensures var all := Timeline(posts, n);
      GetFeedPosts(posts, n, pageQuery, limitQuery).body.doc == all[..if |all| < 10 then |all| else 10]
  {
  }

  /** The posts of `s` written by `author`, in their order in `s`. */
  function ByAuthor(s: seq<Post>, author: UserId): (r: seq<Post>)
    ensures forall p :: p in r <==> p in s && p.author == author
  {
    if s == [] then []
    else if s[0].author == author then [s[0]] + ByAuthor(s[1..], author)
    else ByAuthor(s[1..], author)
  }

  /** `getUserPosts`: exactly the stored posts of one author, newest first. */
  function GetUserPosts(posts: map<PostId, Post>, n: nat, userId: UserId): (reply: Reply<seq<Post>>)
    requires forall k :: k in posts ==> k < n
    ensures reply.status == StatusOk && reply.body.Doc?
    ensures NewestFirst(reply.body.doc)
    ensures forall p :: p in reply.body.doc <==> p in posts.Values && p.author == userId
  {
    StoredBelowIsStored(posts, n);
    var mine := ByAuthor(Listing(posts, n), userId);
    var r := SortNewestFirst(mine);
    assert forall p :: p in r <==> p in multiset(mine);
    Reply(StatusOk, Doc(r))
  }

  /** When every post is stored under its own id, an author's posts are listed once each. */
  lemma UserPostsNoRepeats(posts: map<PostId, Post>, n: nat, userId: UserId)
    requires forall k :: k in posts ==> k < n
    requires forall k :: k in posts ==> posts[k].id == k
    ensures NoDuplicates(GetUserPosts(posts, n, userId).body.doc)
  {
    var mine := ByAuthor(Listing(posts, n), userId);
    ListingNoRepeats(posts, n);
    ByAuthorNoRepeats(Listing(posts, n), userId);
    PermutationNoRepeats(mine, SortNewestFirst(mine));
  }

  lemma {:induction false} ByAuthorNoRepeats(s: seq<Post>, author: UserId)
    requires NoDuplicates(s)
    ensures NoDuplicates(ByAuthor(s, author))
  {
    if s != [] {
      assert NoDuplicates(s[1..]) by {
        forall i, j | 0 <= i < j < |s[1..]| ensures s[1..][i] != s[1..][j] {
          assert s[1..][i] == s[i + 1] && s[1..][j] == s[j + 1];
        }
      }
      ByAuthorNoRepeats(s[1..], author);
      if s[0].author == author {
        var rest := ByAuthor(s[1..], author);
        assert s[0] !in s[1..];
        forall i, j | 0 <= i < j < |[s[0]] + rest| ensures ([s[0]] + rest)[i] != ([s[0]] + rest)[j] {
          if i > 0 {
            assert ([s[0]] + rest)[i] == rest[i - 1];
          }
          assert ([s[0]] + rest)[j] == rest[j - 1];
        }
      }
    }
  }

  // ---------------------------------------------------------------------
  // The store and its mutating handlers

  class PostStore {
    var posts: map<PostId, Post>
    var nextId: nat

    ghost predicate Valid()
      reads this
    {
      WellKeyed(posts, nextId)
    }

    constructor ()
      ensures Valid() && posts == map[]
    {
      posts := map[];
      nextId := 0;
    }

    /** `createPost`: stores one new post by the requesting user; `now` is the clock. */
    method CreatePost(user: UserId, text: string, now: int) returns (reply: Reply<Post>)
      requires Valid()
      modifies this
      ensures Valid()
      ensures reply.status == StatusCreated && reply.body.Doc?
      ensures var p := reply.body.doc;
        && p.id !in old(posts) && posts == old(posts)[p.id := p]
        && p.author == user && p.text == text && p.likes == [] && p.comments == [] && p.createdAt == now
    {
      var post := Post(nextId, user, text, [], [], now);
      posts := posts[nextId := post];
      nextId := nextId + 1;
      reply := Reply(StatusCreated, Doc(post));
    }

    /** `updatePost`: only the author may replace the text; likes and comments stay. */
    method UpdatePost(id: PostId, user: UserId, text: string) returns (reply: Reply<Post>)
      requires Valid()
      modifies this
      ensures Valid() && nextId == old(nextId)
      ensures id !in old(posts) ==>
        reply == Reply(StatusNotFound, Msg("Post not found")) && posts == old(posts)
      ensures id in old(posts) && old(posts)[id].author != user ==>
        reply == Reply(StatusUnauthorized, Msg("User not authorized")) && posts == old(posts)
      ensures id in old(posts) && old(posts)[id].author == user ==>
        var edited := old(posts)[id].(text := text);
        posts == old(posts)[id := edited] && reply == Reply(StatusOk, Doc(edited))
    {
      if id !in posts {
        return Reply(StatusNotFound, Msg("Post not found"));
      }
      var post := posts[id];
      if post.author != user {
        return Reply(StatusUnauthorized, Msg("User not authorized"));
      }
      post := post.(text := text);
      posts := posts[id := post];
      reply := Reply(StatusOk, Doc(post));
    }

    /** `deletePost`: only the author may remove the post, and only that post goes. */
    method DeletePost(id: PostId, user: UserId) returns (reply: Reply<Post>)
      requires Valid()
      modifies this
      ensures Valid() && nextId == old(nextId)
      ensures id !in old(posts) ==>
        reply == Reply(StatusNotFound, Msg("Post not found")) && posts == old(posts)
      ensures id in old(posts) && old(posts)[id].author != user ==>
        reply == Reply(StatusUnauthorized, Msg("User not authorized")) && posts == old(posts)
      ensures id in old(posts) && old(posts)[id].author == user ==>
        reply == Reply(StatusOk, Msg("Post removed")) && posts == old(posts) - {id}
    {
      if id !in posts {
        return Reply(StatusNotFound, Msg("Post not found"));
      }
      if posts[id].author != user {
        return Reply(StatusUnauthorized, Msg("User not authorized"));
      }
      posts := posts - {id};
      reply := Reply(StatusOk, Msg("Post removed"));
    }

    /** `likePost`: toggles the user's like; nothing else in the post changes. */
    method LikePost(id: PostId, user: UserId) returns (reply: Reply<Post>)
      requires Valid()
      modifies this
      ensures Valid() && nextId == old(nextId)
      ensures id !in old(posts) ==>
        reply == Reply(StatusNotFound, Msg("Post not found")) && posts == old(posts)
      ensures id in old(posts) ==>
        var toggled := old(posts)[id].(likes := ToggleLike(old(posts)[id].likes, user));
        posts == old(posts)[id := toggled] && reply == Reply(StatusOk, Doc(toggled))
    {
      if id !in posts {
        return Reply(StatusNotFound, Msg("Post not found"));
      }
      var post := posts[id];
      var isLiked := user in post.likes;
      if isLiked {
        post := post.(likes := Remove(post.likes, user));
      } else {
        post := post.(likes := post.likes + [user]);
      }
      posts := posts[id := post];
      reply := Reply(StatusOk, Doc(post));
    }

    /** `commentOnPost`: appends one comment at the end; earlier comments stay as they were. */
    method CommentOnPost(id: PostId, user: UserId, text: string) returns (reply: Reply<Post>)
      requires Valid()
      modifies this
      ensures Valid() && nextId == old(nextId)
      ensures id !in old(posts) ==>
        reply == Reply(StatusNotFound, Msg("Post not found")) && posts == old(posts)
      ensures id in old(posts) ==>
        var commented := old(posts)[id].(comments := old(posts)[id].comments + [Comment(user, text)]);
        posts == old(posts)[id := commented] && reply == Reply(StatusCreated, Doc(commented))
    {
      if id !in posts {
        return Reply(StatusNotFound, Msg("Post not found"));
      }
      var post := posts[id];
      var comment := Comment(user, text);
      post := post.(comments := post.comments + [comment]);
      posts := posts[id := post];
      reply := Reply(StatusCreated, Doc(post));
    }
  }

  /**
   * Two likes in a row by the same user, from a post the user did not like,
   * leave the store exactly as it was.
   */
  method LikeTwice(store: PostStore, id: PostId, user: UserId) returns (first: Reply<Post>, second: Reply<Post>)
    requires store.Valid()
    requires id in store.posts && user !in store.posts[id].likes
    modifies store
    ensures store.Valid()
    ensures first.status == StatusOk && second.status == StatusOk
    ensures store.posts == old(store.posts)
  {
    first := store.LikePost(id, user);
    second := store.LikePost(id, user);
    ToggleTwiceFromUnliked(old(store.posts)[id].likes, user);
    assert store.posts[id] == old(store.posts)[id];
  }
}
