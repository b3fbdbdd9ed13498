/** `KafkaLikeConsumer`: a like or an unlike moves the post's like counter in the
    database and, when the post is cached, its cached counter (floored at 0). */
module LikeConsumer {
  import opened Base
  import opened PostModel
  import opened CacheModel
  import opened Events
  import opened PostStore

  /** `updatePostCacheLikes`: old + 1 for a like, max(0, old - 1) otherwise, a null
      count read as 0; nothing else changes. */
  function LikedPostCache(p: PostCache, e: NewLikeEvent): (r: PostCache)
    ensures r.(likesCount := p.likesCount) == p
    ensures r.likesCount.Some?
    ensures IsLike(e) ==> r.likesCount.value == p.likesCount.GetOr(0) + 1
    ensures !IsLike(e) ==> r.likesCount.value == (if p.likesCount.GetOr(0) - 1 > 0 then p.likesCount.GetOr(0) - 1 else 0)
  {
    var current := p.likesCount.GetOr(0);
    p.(likesCount := Some(if IsLike(e) then current + 1 else if current - 1 > 0 then current - 1 else 0))
  }

  /** The cached counter of a post whose count was not negative is never negative
      after any sequence of events, and an unlike right after a like restores it. */
  lemma {:induction false} CachedLikesStayNonNegative(p: PostCache, events: seq<NewLikeEvent>)
    requires p.likesCount.GetOr(0) >= 0
    ensures ApplyLikes(p, events).likesCount.GetOr(0) >= 0
    decreases |events|
  {
    if events != [] {
      var next := LikedPostCache(p, events[0]);
      assert next.likesCount.GetOr(0) >= 0;
      CachedLikesStayNonNegative(next, events[1..]);
    }
  }

  lemma UnlikeUndoesLike(p: PostCache, like: NewLikeEvent, unlike: NewLikeEvent)
    requires IsLike(like) && !IsLike(unlike) && p.likesCount.GetOr(0) >= 0
    ensures LikedPostCache(LikedPostCache(p, like), unlike).likesCount == Some(p.likesCount.GetOr(0))
  {
  }

  /** The cached post after a run of events, each applied in turn. */
  function ApplyLikes(p: PostCache, events: seq<NewLikeEvent>): PostCache
    decreases |events|
  {
    if events == [] then p else ApplyLikes(LikedPostCache(p, events[0]), events[1..])
  }

  /** The database counter after an event: `incrementLikesCount` for a like,
      `decrementLikesCount` for any other type or none. */
  function RowsAfterLike(rows: seq<Post>, e: NewLikeEvent): seq<Post>
  {
    if IsLike(e) then IncrementLikes(rows, e.postId) else DecrementLikes(rows, e.postId)
  }

  /** The cache after a like event: a null post id fails the lookup, a post that is
      not cached is left alone, a cached one is updated in place. */
  function CacheAfterLike(entries: map<int, PostCache>, e: NewLikeEvent): (r: Outcome<map<int, PostCache>>)
    ensures r.Thrown? <==> e.postId.None?
    ensures r.Ok? ==> r.value.Keys == entries.Keys
    ensures r.Ok? ==> forall id :: id in entries && Some(id) != e.postId ==> r.value[id] == entries[id]
    ensures r.Ok? && e.postId.value in entries ==>
              r.value[e.postId.value] == LikedPostCache(entries[e.postId.value], e)
  {
    if e.postId.None? then Thrown(IllegalArgument("The given id must not be null"))
    else if e.postId.value !in entries then Ok(entries)
    else Ok(entries[e.postId.value := LikedPostCache(entries[e.postId.value], e)])
  }

  class KafkaLikeConsumer {
    const posts: PostRepository
    const cache: PostCacheRepository

    constructor(posts: PostRepository, cache: PostCacheRepository)
      ensures this.posts == posts && this.cache == cache
    {
      this.posts := posts;
      this.cache := cache;
    }

    /** `handleNewLike`: one transaction; acknowledged on success, rolled back and
        raised as a KafkaException on failure. */
    method HandleNewLike(event: NewLikeEvent) returns (r: Outcome<Unit>, acknowledged: bool)
      requires posts.Valid() && cache.Valid()
      modifies posts, cache
      ensures posts.Valid() && cache.Valid()
      ensures acknowledged <==> r.Ok?
      ensures r.Thrown? <==> event.postId.None?
      ensures r.Thrown? ==> r.exception == KafkaFailure("Failed to process like event")
      ensures r.Thrown? ==> posts.rows == old(posts.rows) && cache.entries == old(cache.entries)
      ensures r.Ok? ==> posts.rows == RowsAfterLike(old(posts.rows), event)
      ensures r.Ok? ==> cache.entries == CacheAfterLike(old(cache.entries), event).value
    {
      var before := posts.rows;
      assert forall id :: id in cache.entries ==> cache.entries[id].id == Some(id);
      if event.likeType == Some(LIKE) {
        posts.IncrementLikesCount(event.postId);
      } else {
        posts.DecrementLikesCount(event.postId);
      }
      var found := cache.FindById(event.postId);
      if found.Thrown? {
        posts.rows := before;  // the transaction rolls back
        return Thrown(KafkaFailure("Failed to process like event")), false;
      }
      if found.value.Some? {
        var updated := LikedPostCache(found.value.value, event);
        assert updated.id == found.value.value.id == event.postId;
        var saved := cache.Save(updated);
      }
      return Ok(Unit), true;
    }
  }
}
