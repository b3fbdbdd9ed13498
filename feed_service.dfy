/** `FeedService`: one page of a user's news feed. The page size is clamped, the
    ids come from the user's sorted set (rebuilt once from the database when the
    first read is empty), and each id becomes a post DTO taken from the post cache
    or, on a miss, from the database, which then fills the cache. */
module FeedServices {
  import opened Base
  import opened Seqs
  import opened Text
  import opened PostModel
  import opened PostStore
  import opened CacheModel
  import opened CommentStore
  import opened CommentMapping
  import opened CommentServices
  import opened FeedZSet

  const MAX_PAGE_SIZE := 20

  /** `AuthorDTO`, with only the id filled in. */
  datatype AuthorDto = AuthorDto(id: Option<int>)

  /** `ProjectDto`, with only the id filled in; the id is a primitive `long`. */
  datatype ProjectDto = ProjectDto(id: int)

  /** `PostDTO`. */
  datatype PostDto = PostDto(
    id: Option<int>,
    content: Option<string>,
    author: Option<AuthorDto>,
    project: Option<ProjectDto>,
    likesCount: Option<int>,
    commentsCount: Option<int>,
    lastComments: seq<CommentDto>,
    publishedAt: Option<Time>,
    updatedAt: Option<Time>,
    verified: bool,
    visibility: Option<PostVisibility>)

  /** `FeedResponse`. */
  datatype FeedResponse = FeedResponse(posts: seq<PostDto>, hasMore: bool, lastPostId: Option<int>)

  // ---------------------------------------------------------------------------
  // Pure parts
  // ---------------------------------------------------------------------------

  /** `validateAndAdjustPageSize`: the requested size, but never above
      MAX_PAGE_SIZE; a size of zero or below is passed on as it is. */
  function AdjustPageSize(pageSize: int): (r: int)
    ensures r <= MAX_PAGE_SIZE && r <= pageSize
    ensures r == pageSize || r == MAX_PAGE_SIZE
  {
    if pageSize < MAX_PAGE_SIZE then pageSize else MAX_PAGE_SIZE
  }

  /** The fields of a cached comment that a `CommentDto` needs as primitive `long`s. */
  predicate HasIds(c: CommentCache)
  {
    c.id.Some? && c.authorId.Some? && c.postId.Some?
  }

  /** `mapCommentToDTO`: the ids are unboxed into primitive fields, so a null id,
      author or post is a NullPointerException; the like ids stay null. */
  function MapCommentToDto(c: CommentCache): (r: Outcome<CommentDto>)
    ensures r.Ok? <==> HasIds(c)
    ensures r.Thrown? ==> r.exception == NullPointer
    ensures r.Ok? ==> r.value.id == c.id.value && r.value.authorId == c.authorId.value
                      && r.value.postId == c.postId.value && r.value.content == c.content
                      && r.value.createdAt == c.createdAt && r.value.likeIds.None?
  {
    if !HasIds(c) then Thrown(NullPointer)
    else Ok(CommentDto(c.id.value, c.content, c.authorId.value, c.postId.value, None, c.createdAt))
  }

  /** The comments of a set, one DTO each, in order; the first comment without its
      ids ends the mapping with its exception. */
  function MapCommentList(cs: seq<CommentCache>): (r: Outcome<seq<CommentDto>>)
    ensures r.Ok? <==> forall i :: 0 <= i < |cs| ==> HasIds(cs[i])
    ensures r.Thrown? ==> r.exception == NullPointer
    ensures r.Ok? ==> |r.value| == |cs| && forall i :: 0 <= i < |cs| ==> Ok(r.value[i]) == MapCommentToDto(cs[i])
    decreases |cs|
  {
    if cs == [] then Ok([])
    else
      var d :- MapCommentToDto(cs[0]);
      var rest :- MapCommentList(cs[1..]);
      assert forall i :: 0 < i < |cs| ==> cs[i] == cs[1..][i - 1];
      Ok([d] + rest)
  }

  /** `mapComments`: a null set gives an empty list. */
  function MapComments(comments: Option<seq<CommentCache>>): (r: Outcome<seq<CommentDto>>)
    ensures comments.None? ==> r == Ok([])
    ensures comments.Some? ==> r == MapCommentList(comments.value)
  {
    if comments.None? then Ok([]) else MapCommentList(comments.value)
  }

  /** `mapToDTO`: the post's fields, an author when the post has one, otherwise a
      project when it has one, and its last comments mapped in order. */
  function MapToDto(post: PostCache): (r: Outcome<PostDto>)
    ensures r.Thrown? <==> MapComments(post.lastComments).Thrown?
    ensures r.Ok? ==>
              var d := r.value;
              d.author == (if post.authorId.Some? then Some(AuthorDto(post.authorId)) else None)
              && d.project == (if post.authorId.None? && post.projectId.Some? then Some(ProjectDto(post.projectId.value)) else None)
              && (d.author.None? || d.project.None?)
              && d.lastComments == MapComments(post.lastComments).value
              && d.id == post.id && d.content == post.content && d.verified == post.verified
              && d.likesCount == post.likesCount && d.commentsCount == post.commentsCount
              && d.publishedAt == post.publishedAt && d.updatedAt == post.updatedAt
              && d.visibility == post.visibility
  {
    var author := if post.authorId.Some? then Some(AuthorDto(post.authorId)) else None;
    var project := if post.authorId.None? && post.projectId.Some? then Some(ProjectDto(post.projectId.value)) else None;
    var comments :- MapComments(post.lastComments);
    Ok(PostDto(post.id, post.content, author, project, post.likesCount, post.commentsCount, comments,
               post.publishedAt, post.updatedAt, post.verified, post.visibility))
  }

  /** `buildFeedResponse`: more posts may follow when the page came back full; the
      cursor for the next page is the last post's id. */
  function BuildFeedResponse(posts: seq<PostDto>, pageSize: int): (r: FeedResponse)
    ensures r.posts == posts
    ensures r.hasMore <==> |posts| >= pageSize
    ensures posts != [] ==> r.lastPostId == posts[|posts| - 1].id
    ensures posts == [] ==> r.lastPostId.None?
  {
    FeedResponse(posts, |posts| >= pageSize, if posts == [] then None else posts[|posts| - 1].id)
  }

  /** `createPostCache`: the post's fields, `PUBLIC` when the post is visible at
      `now` and `PRIVATE` otherwise; the creation time is not copied and the
      comment set is the builder's empty one. */
  function CreatePostCache(p: Post, now: Time): (c: PostCache)
    ensures c.id == p.id && c.authorId == p.authorId && c.projectId == p.projectId && c.content == p.content
    ensures c.updatedAt == p.updatedAt && c.publishedAt == p.publishedAt && c.verified == p.verified
    ensures c.likesCount == p.likesCount && c.commentsCount == p.commentsCount
    ensures c.visibility == Some(if IsVisible(p, now) then PUBLIC else PRIVATE)
    ensures c.createdAt.None? && !c.published && c.lastComments == Some([])
  {
    EmptyPostCache().(id := p.id, authorId := p.authorId, projectId := p.projectId, content := p.content,
                      updatedAt := p.updatedAt, publishedAt := p.publishedAt, verified := p.verified,
                      visibility := Some(if IsVisible(p, now) then PUBLIC else PRIVATE),
                      likesCount := p.likesCount, commentsCount := p.commentsCount)
  }

  // ---------------------------------------------------------------------------
  // Rebuilding a feed from the database
  // ---------------------------------------------------------------------------

  /** A post that `addPostToFeed` can write: it has an id and a creation time. */
  predicate Stamped(p: Post)
  {
    p.id.Some? && p.createdAt.Some?
  }

  /** The posts `loadUserFeedFromDatabase` writes: the FEED_SIZE newest posts of the
      user that may enter feeds, newest first. */
  function RebuildSource(rows: seq<Post>, userId: Option<int>): (r: seq<Post>)
    requires AllStamped(rows)
    ensures |r| <= FEED_SIZE && AllStamped(r)
    ensures forall p :: p in r ==> p in rows && CanBeAddedToFeed(p) && userId.Some? && p.authorId == userId
  {
    var latest := FindLatestPostsForUser(rows, userId, FEED_SIZE);
    var r := Filter(latest, CanBeAddedToFeed);
    assert forall i :: 0 <= i < |r| ==> r[i] in rows;
    r
  }

  predicate AllStamped(posts: seq<Post>)
  {
    forall i :: 0 <= i < |posts| ==> Stamped(posts[i])
  }

  /** The feed after each post was added in turn. */
  function LoadedFeed(feed: seq<Entry>, posts: seq<Post>): seq<Entry>
    requires AllStamped(posts)
    decreases |posts|
  {
    if posts == [] then feed
    else
      var n := |posts| - 1;
      var p := posts[n];
      assert Stamped(p);
      AddedFeed(LoadedFeed(feed, posts[..n]), LongToString(p.id.value), p.createdAt.value)
  }

  /** The feeds after the posts were added to the feed at `key`; with no post the key
      is not even created. */
  function WithLoadedFeed(feeds: map<string, seq<Entry>>, key: string, posts: seq<Post>): map<string, seq<Entry>>
    requires AllStamped(posts)
  {
    if posts == [] then feeds else feeds[key := LoadedFeed(FeedIn(feeds, key), posts)]
  }

  /** Proof helper: one more post adds it to the feed at `key`. */
  lemma WithLoadedFeedStep(feeds: map<string, seq<Entry>>, key: string, posts: seq<Post>, i: nat)
    requires AllStamped(posts) && i < |posts|
    ensures var before := WithLoadedFeed(feeds, key, posts[..i]);
            WithLoadedFeed(feeds, key, posts[..i + 1])
            == before[key := AddedFeed(FeedIn(before, key), LongToString(posts[i].id.value), posts[i].createdAt.value)]
  {
    assert posts[..i + 1][..i] == posts[..i];
  }

  /** Adding posts keeps the feed a well-formed sorted set of at most FEED_SIZE
      entries. */
  lemma {:induction false} LoadedFeedIsBounded(feed: seq<Entry>, posts: seq<Post>)
    requires WellFormed(feed)
    requires AllStamped(posts)
    ensures WellFormed(LoadedFeed(feed, posts))
    ensures posts != [] ==> |LoadedFeed(feed, posts)| <= FEED_SIZE
    decreases |posts|
  {
    if posts != [] {
      var n := |posts| - 1;
      var p := posts[n];
      assert Stamped(p);
      LoadedFeedIsBounded(feed, posts[..n]);
      AddedFeedIsBoundedTop(LoadedFeed(feed, posts[..n]), LongToString(p.id.value), p.createdAt.value);
    }
  }

  /** Every entry the feed gains is one of the posts, scored by its creation time. */
  lemma {:induction false} LoadedFeedEntries(feed: seq<Entry>, posts: seq<Post>)
    requires WellFormed(feed)
    requires AllStamped(posts)
    ensures forall e :: e in LoadedFeed(feed, posts) ==>
              e in feed || exists p :: p in posts && e == Entry(LongToString(p.id.value), p.createdAt.value)
    decreases |posts|
  {
    if posts != [] {
      var n := |posts| - 1;
      var p := posts[n];
      assert Stamped(p);
      var before := LoadedFeed(feed, posts[..n]);
      LoadedFeedIsBounded(feed, posts[..n]);
      LoadedFeedEntries(feed, posts[..n]);
      var m, s := LongToString(p.id.value), p.createdAt.value;
      AddedFeedIsBoundedTop(before, m, s);
      InsertEntryElements(before, Entry(m, s));
      forall e | e in LoadedFeed(feed, posts)
        ensures e in feed || exists q :: q in posts && e == Entry(LongToString(q.id.value), q.createdAt.value)
      {
        assert e in AddIfAbsent(before, m, s);
        if e in before && e !in feed {
          var q :| q in posts[..n] && e == Entry(LongToString(q.id.value), q.createdAt.value);
          assert q in posts;
        } else if e !in before {
          assert e == Entry(m, s) && p in posts;
        }
      }
    }
  }

  /** Each post adds at most one entry. */
  lemma {:induction false} LoadedFeedGrowth(feed: seq<Entry>, posts: seq<Post>)
    requires WellFormed(feed)
    requires AllStamped(posts)
    ensures |LoadedFeed(feed, posts)| <= |feed| + |posts|
    decreases |posts|
  {
    if posts != [] {
      var n := |posts| - 1;
      var p := posts[n];
      assert Stamped(p);
      LoadedFeedGrowth(feed, posts[..n]);
      var before := LoadedFeed(feed, posts[..n]);
      var m, s := LongToString(p.id.value), p.createdAt.value;
      LoadedFeedIsBounded(feed, posts[..n]);
      AddedFeedIsBoundedTop(before, m, s);
      InsertEntryElements(before, Entry(m, s));
    }
  }

  /** Rebuilding an empty feed from at most FEED_SIZE posts puts every one of them
      in the feed: nothing is trimmed. */
  lemma {:induction false} RebuildHoldsEveryPost(posts: seq<Post>, p: Post)
    requires AllStamped(posts)
    requires |posts| <= FEED_SIZE
    requires p in posts
    ensures Stamped(p) && ScoreOf(LoadedFeed([], posts), LongToString(p.id.value)).Some?
    decreases |posts|
  {
    var n := |posts| - 1;
    var last := posts[n];
    assert Stamped(last);
    var before := LoadedFeed([], posts[..n]);
    var m, score := LongToString(last.id.value), last.createdAt.value;
    LoadedFeedLast([], posts);
    GrowthBelowCap(posts[..n]);
    if p == last {
      RoomyAddKeeps(before, m, score);
    } else {
      assert p in posts[..n];
      RebuildHoldsEveryPost(posts[..n], p);
      RoomyAddKeepsMember(before, m, score, LongToString(p.id.value));
    }
  }

  /** Proof helper: the last post is added last. */
  lemma LoadedFeedLast(feed: seq<Entry>, posts: seq<Post>)
    requires AllStamped(posts) && posts != []
    ensures Stamped(posts[|posts| - 1])
    ensures LoadedFeed(feed, posts)
            == AddedFeed(LoadedFeed(feed, posts[..|posts| - 1]),
                         LongToString(posts[|posts| - 1].id.value), posts[|posts| - 1].createdAt.value)
  {
    assert Stamped(posts[|posts| - 1]);
  }

  /** Proof helper: fewer than FEED_SIZE posts leave room in a feed rebuilt from nothing. */
  lemma GrowthBelowCap(posts: seq<Post>)
    requires AllStamped(posts) && |posts| < FEED_SIZE
    ensures WellFormed(LoadedFeed([], posts)) && |LoadedFeed([], posts)| < FEED_SIZE
  {
    LoadedFeedIsBounded([], posts);
    LoadedFeedGrowth([], posts);
  }

  /** Proof helper: adding to a feed with room keeps every member already in it. */
  lemma RoomyAddKeepsMember(s: seq<Entry>, member: string, score: int, other: string)
    requires WellFormed(s) && |s| < FEED_SIZE
    requires ScoreOf(s, other).Some?
    ensures ScoreOf(AddedFeed(s, member, score), other).Some?
  {
    RoomyAddKeeps(s, member, score);
    MemberKept(s, AddedFeed(s, member, score), other);
  }

  /** Adding to a feed with room keeps every entry and holds the member afterwards. */
  lemma RoomyAddKeeps(s: seq<Entry>, member: string, score: int)
    requires WellFormed(s) && |s| < FEED_SIZE
    ensures ScoreOf(AddedFeed(s, member, score), member).Some?
    ensures forall x :: x in s ==> x in AddedFeed(s, member, score)
    ensures |AddedFeed(s, member, score)| <= |s| + 1
  {
    if ScoreOf(s, member).Some? {
      AddExistingKeepsFeed(s, member, score);
    } else {
      AddNewEntersFeed(s, member, score);
    }
  }

  /** Proof helper: a member of a feed is still a member of a feed holding all its entries. */
  lemma MemberKept(s: seq<Entry>, t: seq<Entry>, member: string)
    requires ScoreOf(s, member).Some?
    requires forall x :: x in s ==> x in t
    ensures ScoreOf(t, member).Some?
  {
    var k :| 0 <= k < |s| && s[k].member == member;
    assert s[k] in t;
    var j :| 0 <= j < |t| && t[j] == s[k];
  }

  // ---------------------------------------------------------------------------
  // Choosing between the cache and the database
  // ---------------------------------------------------------------------------

  /** The database post with that id, when it may enter feeds. */
  function EligiblePost(rows: seq<Post>, id: int): (r: Option<Post>)
    ensures r.Some? ==> r.value in rows && r.value.id == Some(id) && CanBeAddedToFeed(r.value)
    ensures r.None? ==> RowWithId(rows, id).None? || !CanBeAddedToFeed(RowWithId(rows, id).value)
  {
    match RowWithId(rows, id)
    case None => None
    case Some(p) => if CanBeAddedToFeed(p) then Some(p) else None
  }

  /** `cachePost`'s entry: the post's cache entry with its latest comments. */
  function FreshEntry(p: Post, posts: seq<Post>, comments: seq<Comment>, latestCount: int, now: Time): PostCache
  {
    CreatePostCache(p, now).(lastComments := Some(FetchLatestComments(posts, comments, p.id, latestCount)))
  }

  /** The cache entry `getPost` maps for an id: the cached one when the database post
      exists and may enter feeds (`getCachedPost`); else, on a miss, a fresh entry
      for such a post (`getDatabasePost`); else none. A cached post whose database
      row is gone or not eligible any more falls through to the database, which has
      nothing either. */
  function ServedEntry(cache: map<int, PostCache>, posts: seq<Post>, comments: seq<Comment>, latestCount: int,
                       id: int, now: Time): (r: Option<PostCache>)
    ensures r.Some? <==> EligiblePost(posts, id).Some?
    ensures r.Some? && id in cache ==> r.value == cache[id]
    ensures r.Some? && id !in cache ==> r.value == FreshEntry(EligiblePost(posts, id).value, posts, comments, latestCount, now)
  {
    match EligiblePost(posts, id)
    case None => None
    case Some(p) => if id in cache then Some(cache[id]) else Some(FreshEntry(p, posts, comments, latestCount, now))
  }

  /** The cache after `getPost`: only a miss for an eligible post writes, and it
      writes that post's fresh entry. */
  function CacheAfterGet(cache: map<int, PostCache>, posts: seq<Post>, comments: seq<Comment>, latestCount: int,
                         id: int, now: Time): (r: map<int, PostCache>)
    ensures id in cache || EligiblePost(posts, id).None? ==> r == cache
    ensures id !in cache && EligiblePost(posts, id).Some? ==>
              r == cache[id := FreshEntry(EligiblePost(posts, id).value, posts, comments, latestCount, now)]
  {
    if id !in cache && EligiblePost(posts, id).Some? then
      cache[id := FreshEntry(EligiblePost(posts, id).value, posts, comments, latestCount, now)]
    else cache
  }

  /** The DTO `getPost` returns: none for an id without an eligible post, else the
      served entry mapped. */
  function ServedDto(cache: map<int, PostCache>, posts: seq<Post>, comments: seq<Comment>, latestCount: int,
                     id: int, now: Time): (r: Outcome<Option<PostDto>>)
  {
    match ServedEntry(cache, posts, comments, latestCount, id, now)
    case None => Ok(None)
    case Some(c) =>
      var d :- MapToDto(c);
      Ok(Some(d))
  }

  /** The state of `fetchAndMapPosts` after some of the ids: the cache and the posts
      collected, or the exception that ended the stream. */
  datatype FetchState = FetchState(cache: map<int, PostCache>, posts: Outcome<seq<PostDto>>)

  /** `fetchAndMapPosts` over the ids in order; a failed mapping ends the stream, but
      a cache write made for that id stays. */
  function Fetch(cache: map<int, PostCache>, posts: seq<Post>, comments: seq<Comment>, latestCount: int,
                 ids: seq<int>, now: Time): FetchState
    decreases |ids|
  {
    if ids == [] then FetchState(cache, Ok([]))
    else
      var n := |ids| - 1;
      var prev := Fetch(cache, posts, comments, latestCount, ids[..n], now);
      if prev.posts.Thrown? then prev
      else
        var next := CacheAfterGet(prev.cache, posts, comments, latestCount, ids[n], now);
        match ServedDto(prev.cache, posts, comments, latestCount, ids[n], now)
        case Thrown(e) => FetchState(next, Thrown(e))
        case Ok(None) => FetchState(next, prev.posts)
        case Ok(Some(d)) => FetchState(next, Ok(prev.posts.value + [d]))
  }

  /** Once the stream has failed, later ids change nothing. */
  lemma {:induction false} FetchStopsAtFailure(cache: map<int, PostCache>, posts: seq<Post>, comments: seq<Comment>,
                                               latestCount: int, ids: seq<int>, k: nat, now: Time)
    requires k <= |ids|
    requires Fetch(cache, posts, comments, latestCount, ids[..k], now).posts.Thrown?
    ensures Fetch(cache, posts, comments, latestCount, ids, now) == Fetch(cache, posts, comments, latestCount, ids[..k], now)
    decreases |ids|
  {
    if k < |ids| {
      var n := |ids| - 1;
      assert ids[..n][..k] == ids[..k];
      FetchStopsAtFailure(cache, posts, comments, latestCount, ids[..n], k, now);
    } else {
      assert ids[..k] == ids;
    }
  }

  /** A cache in which every entry is stored under its own id. */
  predicate KeyedById(cache: map<int, PostCache>)
  {
    forall k :: k in cache ==> cache[k].id == Some(k)
  }

  function DtoIds(ds: seq<PostDto>): (r: seq<Option<int>>)
    ensures |r| == |ds|
    ensures forall i :: 0 <= i < |ds| ==> r[i] == ds[i].id
  {
    seq(|ds|, i requires 0 <= i < |ds| => ds[i].id)
  }

  function SomeIds(ids: seq<int>): (r: seq<Option<int>>)
    ensures |r| == |ids|
    ensures forall i :: 0 <= i < |ids| ==> r[i] == Some(ids[i])
  {
    seq(|ids|, i requires 0 <= i < |ids| => Some(ids[i]))
  }

  /** Serving from a cache keyed by id gives a post with that id and keeps the
      cache keyed by id. */
  lemma ServedKeepsIds(cache: map<int, PostCache>, posts: seq<Post>, comments: seq<Comment>, latestCount: int,
                       id: int, now: Time)
    requires KeyedById(cache)
    ensures KeyedById(CacheAfterGet(cache, posts, comments, latestCount, id, now))
    ensures var d := ServedDto(cache, posts, comments, latestCount, id, now);
            d.Ok? ==> (d.value.Some? <==> EligiblePost(posts, id).Some?)
                      && (d.value.Some? ==> d.value.value.id == Some(id))
  {
  }

  /** Proof helper: one more id: the ids of the posts and the filtered feed ids grow alike. */
  lemma FetchStep(prevPosts: seq<PostDto>, ids: seq<int>, id: int, served: Option<PostDto>, p: int -> bool)
    requires DtoIds(prevPosts) == SomeIds(Filter(ids, p))
    requires served.Some? <==> p(id)
    requires served.Some? ==> served.value.id == Some(id)
    ensures DtoIds(prevPosts + (if served.Some? then [served.value] else []))
            == SomeIds(Filter(ids + [id], p))
  {
    FilterAppend(ids, [id], p);
    assert Filter([id], p) == (if p(id) then [id] else []) + Filter([], p);
  }

  /** The returned posts follow the order of the feed ids: exactly the ids with an
      eligible database post, each once per occurrence, while the cache stays keyed
      by id. */
  lemma {:induction false} FetchKeepsFeedOrder(cache: map<int, PostCache>, posts: seq<Post>, comments: seq<Comment>,
                                               latestCount: int, ids: seq<int>, now: Time)
    requires KeyedById(cache)
    ensures KeyedById(Fetch(cache, posts, comments, latestCount, ids, now).cache)
    ensures var f := Fetch(cache, posts, comments, latestCount, ids, now);
            f.posts.Ok? ==> DtoIds(f.posts.value) == SomeIds(Filter(ids, (id: int) => EligiblePost(posts, id).Some?))
    decreases |ids|
  {
    if ids != [] {
      var n := |ids| - 1;
      var p := (id: int) => EligiblePost(posts, id).Some?;
      FetchKeepsFeedOrder(cache, posts, comments, latestCount, ids[..n], now);
      var prev := Fetch(cache, posts, comments, latestCount, ids[..n], now);
      assert ids == ids[..n] + [ids[n]];
      if prev.posts.Ok? {
        ServedKeepsIds(prev.cache, posts, comments, latestCount, ids[n], now);
        var d := ServedDto(prev.cache, posts, comments, latestCount, ids[n], now);
        if d.Ok? {
          FetchStep(prev.posts.value, ids[..n], ids[n], d.value, p);
        }
      }
    }
  }

  /** The ids of one page and the feeds after reading it: when the first read of the
      page is empty, the feed is rebuilt from the database and read once more. */
  function FeedsAfterRead(feeds: map<string, seq<Entry>>, posts: seq<Post>, userId: Option<int>,
                          lastPostId: Option<int>, pageSize: int): map<string, seq<Entry>>
    requires AllStamped(posts)
  {
    var key := FeedKey(userId);
    if FeedPage(FeedIn(feeds, key), lastPostId, pageSize) != [] then feeds
    else WithLoadedFeed(feeds, key, RebuildSource(posts, userId))
  }

  function PageIds(feeds: map<string, seq<Entry>>, posts: seq<Post>, userId: Option<int>,
                   lastPostId: Option<int>, pageSize: int): seq<int>
    requires AllStamped(posts)
  {
    FeedPage(FeedIn(FeedsAfterRead(feeds, posts, userId, lastPostId, pageSize), FeedKey(userId)), lastPostId, pageSize)
  }

  /** A page that the first read fills is never rebuilt; an empty one is rebuilt
      from the user's eligible posts, and only the user's own feed changes. */
  lemma ReadRebuildsOnlyEmptyPages(feeds: map<string, seq<Entry>>, posts: seq<Post>, userId: Option<int>,
                                   lastPostId: Option<int>, pageSize: int, other: string)
    requires AllStamped(posts)
    requires other != FeedKey(userId)
    ensures FeedPage(FeedIn(feeds, FeedKey(userId)), lastPostId, pageSize) != []
            ==> PageIds(feeds, posts, userId, lastPostId, pageSize) == FeedPage(FeedIn(feeds, FeedKey(userId)), lastPostId, pageSize)
    ensures FeedIn(FeedsAfterRead(feeds, posts, userId, lastPostId, pageSize), other) == FeedIn(feeds, other)
  {
  }

  // ---------------------------------------------------------------------------
  // The service
  // ---------------------------------------------------------------------------

  class FeedService {
    const cache: PostCacheRepository
    const posts: PostRepository
    const comments: CommentRepository
    const feeds: UserFeedZSetService
    /** `spring.data.cache.comments.latest-count`. */
    const latestCount: int

    constructor(cache: PostCacheRepository, posts: PostRepository, comments: CommentRepository,
                feeds: UserFeedZSetService, latestCount: int)
      ensures this.cache == cache && this.posts == posts && this.comments == comments
      ensures this.feeds == feeds && this.latestCount == latestCount
    {
      this.cache := cache;
      this.posts := posts;
      this.comments := comments;
      this.feeds := feeds;
      this.latestCount := latestCount;
    }

    /** `getFeed`. */
    method GetFeed(userId: Option<int>, lastPostId: Option<int>, pageSize: int, now: Time)
      returns (r: Outcome<FeedResponse>)
      requires cache.Valid() && posts.Valid() && feeds.Valid()
      modifies cache, feeds
      ensures cache.Valid() && feeds.Valid()
      ensures var size := AdjustPageSize(pageSize);
              var ids := PageIds(old(feeds.feeds), posts.rows, userId, lastPostId, size);
              var f := Fetch(old(cache.entries), posts.rows, comments.rows, latestCount, ids, now);
              feeds.feeds == FeedsAfterRead(old(feeds.feeds), posts.rows, userId, lastPostId, size)
              && cache.entries == f.cache
              && (r.Thrown? <==> f.posts.Thrown?)
              && (r.Thrown? ==> r.exception == f.posts.exception)
              && (r.Ok? ==> r.value == BuildFeedResponse(f.posts.value, size))
    {
      var size := AdjustPageSize(pageSize);
      var ids := GetPostIdsForFeed(userId, lastPostId, size);
      var fetched := FetchAndMapPosts(ids, now);
      if fetched.Thrown? {
        return Thrown(fetched.exception);
      }
      r := Ok(BuildFeedResponse(fetched.value, size));
    }

    /** `getPostIdsForFeed`: one read, and when it is empty a rebuild and exactly one
        more read. */
    method GetPostIdsForFeed(userId: Option<int>, lastPostId: Option<int>, pageSize: int) returns (ids: seq<int>)
      requires posts.Valid() && feeds.Valid()
      modifies feeds
      ensures feeds.Valid()
      ensures feeds.feeds == FeedsAfterRead(old(feeds.feeds), posts.rows, userId, lastPostId, pageSize)
      ensures ids == PageIds(old(feeds.feeds), posts.rows, userId, lastPostId, pageSize)
    {
      ids := feeds.GetFeedPosts(userId, lastPostId, pageSize);
      if ids == [] {
        LoadUserFeedFromDatabase(userId);
        ids := feeds.GetFeedPosts(userId, lastPostId, pageSize);
      }
    }

    /** `loadUserFeedFromDatabase`: the user's newest eligible posts are added to the
        feed one by one, each scored by its creation time. Stored posts always
        have an id and a creation time, so no write fails. */
    method LoadUserFeedFromDatabase(userId: Option<int>)
      requires posts.Valid() && feeds.Valid()
      modifies feeds
      ensures feeds.Valid()
      ensures feeds.feeds == WithLoadedFeed(old(feeds.feeds), FeedKey(userId), RebuildSource(posts.rows, userId))
    {
      var source := RebuildSource(posts.rows, userId);
      var key := FeedKey(userId);
      for i := 0 to |source|
        invariant feeds.Valid()
        invariant feeds.feeds == WithLoadedFeed(old(feeds.feeds), key, source[..i])
      {
        var p := source[i];
        assert Stamped(p);
        WithLoadedFeedStep(old(feeds.feeds), key, source, i);
        var written := feeds.AddPostToFeed(userId, p.id, p.createdAt);
      }
      assert source[..|source|] == source;
    }

    /** `fetchAndMapPosts`: each id in turn through `getPost`, keeping the posts
        found. */
    method FetchAndMapPosts(ids: seq<int>, now: Time) returns (r: Outcome<seq<PostDto>>)
      requires cache.Valid() && posts.Valid()
      modifies cache
      ensures cache.Valid()
      ensures Fetch(old(cache.entries), posts.rows, comments.rows, latestCount, ids, now) == FetchState(cache.entries, r)
    {
      var out: seq<PostDto> := [];
      for i := 0 to |ids|
        invariant cache.Valid()
        invariant Fetch(old(cache.entries), posts.rows, comments.rows, latestCount, ids[..i], now)
                  == FetchState(cache.entries, Ok(out))
      {
        assert ids[..i + 1][..i] == ids[..i];
        var d := GetPost(ids[i], now);
        if d.Thrown? {
          FetchStopsAtFailure(old(cache.entries), posts.rows, comments.rows, latestCount, ids, i + 1, now);
          return Thrown(d.exception);
        }
        if d.value.Some? {
          out := out + [d.value.value];
        }
      }
      assert ids[..|ids|] == ids;
      r := Ok(out);
    }

    /** `getPost`: `getCachedPost`, or else `getDatabasePost`, which caches the post
        through `cachePost` before mapping it. */
    method GetPost(postId: int, now: Time) returns (r: Outcome<Option<PostDto>>)
      requires cache.Valid() && posts.Valid()
      modifies cache
      ensures cache.Valid()
      ensures r == ServedDto(old(cache.entries), posts.rows, comments.rows, latestCount, postId, now)
      ensures cache.entries == CacheAfterGet(old(cache.entries), posts.rows, comments.rows, latestCount, postId, now)
    {
      var cached := cache.FindById(Some(postId));
      var eligible := EligiblePost(posts.rows, postId);
      if cached.value.Some? && eligible.Some? {
        var d :- MapToDto(cached.value.value);
        return Ok(Some(d));
      }
      if eligible.None? {
        return Ok(None);
      }
      var saved := CachePost(eligible.value, now);
      var d :- MapToDto(saved);
      r := Ok(Some(d));
    }

    /** `cachePost`: the post's entry, with its latest comments, saved under its id. */
    method CachePost(p: Post, now: Time) returns (saved: PostCache)
      requires cache.Valid() && p.id.Some?
      modifies cache
      ensures cache.Valid()
      ensures saved == FreshEntry(p, posts.rows, comments.rows, latestCount, now)
      ensures cache.entries == old(cache.entries)[p.id.value := saved]
    {
      var entry := CreatePostCache(p, now);
      entry := entry.(lastComments := Some(FetchLatestComments(posts.rows, comments.rows, p.id, latestCount)));
      saved := cache.Save(entry);
    }
  }
}
