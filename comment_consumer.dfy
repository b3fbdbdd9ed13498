/** `KafkaCommentConsumer`: a new comment bumps the post's comment counter in the
    database and, when the post is cached, its cached counter and its window of
    the last three verified comments. */
module CommentConsumer {
  import opened Base
  import opened Seqs
  import opened PostModel
  import opened CacheModel
  import opened Events
  import opened PostStore

  /** The cached window holds at most this many comments. */
  const LAST_COMMENTS_SIZE := 3

  /** `createCommentCache`: the event's fields, field by field. */
  function CommentCacheOf(e: NewCommentEvent): CommentCache
  {
    CommentCache(e.id, e.content, e.authorId, e.postId, e.createdAt, e.updatedAt)
  }

  /** Sort key for "largest id first" (only read where every id is present). */
  function IdDescending(c: CommentCache): int
  {
    if c.id.Some? then -c.id.value else 0
  }

  predicate AllHaveIds(s: seq<CommentCache>)
  {
    forall i :: 0 <= i < |s| ==> s[i].id.Some?
  }

  /** The set after `comments.add(newComment)`, a null set read as empty. */
  function WithComment(comments: Option<seq<CommentCache>>, c: CommentCache): seq<CommentCache>
  {
    AppendIfAbsent(comments.GetOr([]), c)
  }

  /** `updateLastComments`: add the comment; a set grown past three is sorted by
      descending id and cut to three. Comparing a null id is a NullPointerException. */
  function UpdateLastComments(comments: Option<seq<CommentCache>>, c: CommentCache): (r: Outcome<seq<CommentCache>>)
    ensures r.Ok? ==> |r.value| <= LAST_COMMENTS_SIZE
    ensures r.Thrown? <==> |WithComment(comments, c)| > LAST_COMMENTS_SIZE && !AllHaveIds(WithComment(comments, c))
    ensures r.Thrown? ==> r.exception == NullPointer
  {
    var s := WithComment(comments, c);
    if |s| <= LAST_COMMENTS_SIZE then Ok(s)
    else if !AllHaveIds(s) then Thrown(NullPointer)
    else
      SortBySorts(s, IdDescending);
      Ok(SortBy(s, IdDescending)[..LAST_COMMENTS_SIZE])
  }

  /** While the window stays within three, the old comments keep their order and
      the new one is appended unless an equal comment is already there. */
  lemma SmallWindowAppends(comments: Option<seq<CommentCache>>, c: CommentCache)
    requires |WithComment(comments, c)| <= LAST_COMMENTS_SIZE
    ensures UpdateLastComments(comments, c).Ok?
    ensures var r := UpdateLastComments(comments, c).value;
            var old_ := comments.GetOr([]);
            c in r && r[..|old_|] == old_ && (c in old_ ==> r == old_)
            && (c !in old_ ==> |r| == |old_| + 1)
  {
  }

  /** A window grown past three keeps the three comments with the largest ids, in
      descending id order, with no duplicates. */
  lemma {:induction false} LargeWindowKeepsNewestThree(comments: Option<seq<CommentCache>>, c: CommentCache)
    requires NoDuplicates(comments.GetOr([]))
    requires |WithComment(comments, c)| > LAST_COMMENTS_SIZE
    requires AllHaveIds(WithComment(comments, c))
    ensures UpdateLastComments(comments, c).Ok?
    ensures var s := WithComment(comments, c);
            var r := UpdateLastComments(comments, c).value;
            |r| == LAST_COMMENTS_SIZE
            && NoDuplicates(r)
            && (forall i :: 0 <= i < |r| ==> r[i] in s)
            && (forall i :: 0 <= i < |r| ==> r[i].id.Some?)
            && (forall i, j :: 0 <= i < j < |r| ==> r[i].id.value >= r[j].id.value)
            && (forall y, i :: y in s && y !in r && 0 <= i < |r| ==> y.id.value <= r[i].id.value)
  {
    var s := WithComment(comments, c);
    AppendIfAbsentProperties(comments.GetOr([]), c);
    var sorted := SortBy(s, IdDescending);
    SortBySorts(s, IdDescending);
    PermutationKeepsNoDuplicates(s, sorted);
    assert |sorted| == |multiset(sorted)| == |s|;
    assert sorted[..LAST_COMMENTS_SIZE] == UpdateLastComments(comments, c).value;
    SortedWindowIsTop(s, sorted);
  }

  /** Proof helper: the first three of the comments sorted by descending id come from them,
      keep that order, and have ids no smaller than any comment left out. */
  lemma SortedWindowIsTop(s: seq<CommentCache>, sorted: seq<CommentCache>)
    requires AllHaveIds(s) && |s| > LAST_COMMENTS_SIZE
    requires |sorted| == |s| && multiset(sorted) == multiset(s) && SortedBy(sorted, IdDescending)
    ensures var r := sorted[..LAST_COMMENTS_SIZE];
            (forall i :: 0 <= i < |r| ==> r[i] in s && r[i].id.Some?)
            && (forall i, j :: 0 <= i < j < |r| ==> r[i].id.value >= r[j].id.value)
            && (forall y, i :: y in s && y !in r && 0 <= i < |r| ==> y.id.value <= r[i].id.value)
  {
    var r := sorted[..LAST_COMMENTS_SIZE];
    forall k | 0 <= k < |sorted| ensures sorted[k] in s && sorted[k].id.Some? {
      assert sorted[k] in multiset(sorted);
      var m :| 0 <= m < |s| && s[m] == sorted[k];
    }
    forall i, j | 0 <= i < j < |r| ensures r[i].id.value >= r[j].id.value {
      assert IdDescending(sorted[i]) <= IdDescending(sorted[j]);
    }
    forall y, i | y in s && y !in r && 0 <= i < |r| ensures y.id.value <= r[i].id.value {
      assert y in multiset(s);
      var k :| 0 <= k < |sorted| && sorted[k] == y;
      assert k >= LAST_COMMENTS_SIZE;
      assert IdDescending(sorted[i]) <= IdDescending(sorted[k]);
      var m :| 0 <= m < |s| && s[m] == y;
    }
  }

  /** `updatePostCacheComments`: the counter becomes old + 1 (null read as 0), and a
      verified event's comment enters the window; nothing else changes. */
  function CommentedPostCache(p: PostCache, e: NewCommentEvent): (r: Outcome<PostCache>)
    ensures r.Ok? ==> r.value.commentsCount == Some(p.commentsCount.GetOr(0) + 1)
    ensures r.Ok? ==> r.value.(commentsCount := p.commentsCount, lastComments := p.lastComments) == p
    ensures !IsVerified(e) ==> r.Ok? && r.value.lastComments == p.lastComments
    ensures IsVerified(e) ==>
              (r.Ok? <==> UpdateLastComments(p.lastComments, CommentCacheOf(e)).Ok?)
              && (r.Ok? ==> r.value.lastComments == Some(UpdateLastComments(p.lastComments, CommentCacheOf(e)).value))
  {
    var counted := p.(commentsCount := Some(p.commentsCount.GetOr(0) + 1));
    if IsVerified(e) then
      var window :- UpdateLastComments(p.lastComments, CommentCacheOf(e));
      Ok(counted.(lastComments := Some(window)))
    else Ok(counted)
  }

  /** The cache after a comment event: a null post id fails the lookup, a post that
      is not cached is left alone, a cached one is updated in place. */
  function CacheAfterComment(entries: map<int, PostCache>, e: NewCommentEvent): (r: Outcome<map<int, PostCache>>)
    ensures e.postId.None? ==> r.Thrown?
    ensures r.Ok? ==> r.value.Keys == entries.Keys
    ensures r.Ok? ==> forall id :: id in entries && Some(id) != e.postId ==> r.value[id] == entries[id]
    ensures r.Ok? && e.postId.Some? && e.postId.value in entries ==>
              r.value[e.postId.value].commentsCount == Some(entries[e.postId.value].commentsCount.GetOr(0) + 1)
  {
    if e.postId.None? then Thrown(IllegalArgument("The given id must not be null"))
    else if e.postId.value !in entries then Ok(entries)
    else
      var updated :- CommentedPostCache(entries[e.postId.value], e);
      Ok(entries[e.postId.value := updated])
  }

  /** An unverified comment never touches the cached window. */
  lemma UnverifiedCommentKeepsWindow(entries: map<int, PostCache>, e: NewCommentEvent, id: int)
    requires !IsVerified(e) && e.postId == Some(id) && id in entries
    ensures CacheAfterComment(entries, e).Ok?
    ensures CacheAfterComment(entries, e).value[id].lastComments == entries[id].lastComments
  {
  }

  class KafkaCommentConsumer {
    const posts: PostRepository
    const cache: PostCacheRepository

    constructor(posts: PostRepository, cache: PostCacheRepository)
      ensures this.posts == posts && this.cache == cache
    {
      this.posts := posts;
      this.cache := cache;
    }

    /** `handleNewComment`: one transaction; on success the message is acknowledged,
        on any failure the database change is rolled back, nothing is acknowledged
        and a KafkaException is raised. */
    method HandleNewComment(event: NewCommentEvent) returns (r: Outcome<Unit>, acknowledged: bool)
      requires posts.Valid() && cache.Valid()
      modifies posts, cache
      ensures posts.Valid() && cache.Valid()
      ensures acknowledged <==> r.Ok?
      ensures r.Ok? <==> CacheAfterComment(old(cache.entries), event).Ok?
      ensures r.Thrown? ==> r.exception == KafkaFailure("Failed to process comment event")
      ensures r.Thrown? ==> posts.rows == old(posts.rows) && cache.entries == old(cache.entries)
      ensures r.Ok? ==> posts.rows == IncrementComments(old(posts.rows), event.postId)
      ensures r.Ok? ==> cache.entries == CacheAfterComment(old(cache.entries), event).value
    {
      var before := posts.rows;
      assert forall id :: id in cache.entries ==> cache.entries[id].id == Some(id);
      posts.IncrementCommentsCount(event.postId);
      var found := cache.FindById(event.postId);
      if found.Thrown? {
        posts.rows := before;  // the transaction rolls back
        return Thrown(KafkaFailure("Failed to process comment event")), false;
      }
      if found.value.Some? {
        var updated := CommentedPostCache(found.value.value, event);
        if updated.Thrown? {
          posts.rows := before;
          return Thrown(KafkaFailure("Failed to process comment event")), false;
        }
        assert updated.value.id == found.value.value.id == event.postId;
        var saved := cache.Save(updated.value);
      }
      return Ok(Unit), true;
    }
  }
}
