/** `KafkaPostConsumer`: a published post that may enter feeds is cached with fresh
    counters and added to the feed of every subscriber, in batches of 1000. A
    subscriber whose feed write fails is skipped; the others still get the post. */
module PostConsumer {
  import opened Base
  import opened Text
  import opened Seqs
  import opened PostModel
  import opened CacheModel
  import opened Events
  import opened PostStore
  import opened FeedZSet
  import opened Subscription

  const FEED_BATCH_SIZE := 1000

  /** `cachePost`: id, author, project, content and the flags copied, both counters
      0 and no comments yet; the dates are left unset. */
  function NewPostCache(p: Post): (c: PostCache)
    ensures c.likesCount == Some(0) && c.commentsCount == Some(0) && c.lastComments == Some([])
    ensures c.id == p.id && c.authorId == p.authorId && c.projectId == p.projectId && c.content == p.content
    ensures c.verified == p.verified && c.published == p.published && c.visibility == Some(p.visibility)
    ensures c.createdAt.None? && c.updatedAt.None? && c.publishedAt.None?
  {
    EmptyPostCache().(id := p.id, authorId := p.authorId, projectId := p.projectId, content := p.content,
                      verified := p.verified, published := p.published, visibility := Some(p.visibility))
  }

  /** One subscriber's `addPostToFeed`: a failed write changes nothing. */
  function FanOutStep(feeds: map<string, seq<Entry>>, subscriber: int, member: string, score: int,
                      fails: int -> bool): map<string, seq<Entry>>
  {
    if fails(subscriber) then feeds
    else
      var key := FeedKey(Some(subscriber));
      feeds[key := AddedFeed(FeedIn(feeds, key), member, score)]
  }

  /** The feeds after the post reached `subscribers`, one after the other. */
  function FanOut(feeds: map<string, seq<Entry>>, subscribers: seq<int>, member: string, score: int,
                  fails: int -> bool): map<string, seq<Entry>>
  {
    if subscribers == [] then feeds
    else
      var n := |subscribers| - 1;
      FanOutStep(FanOut(feeds, subscribers[..n], member, score, fails), subscribers[n], member, score, fails)
  }

  /** Only subscribers' feeds change: the feed of any other user is as it was. */
  lemma {:induction false} FanOutLeavesOthers(feeds: map<string, seq<Entry>>, subscribers: seq<int>,
                                               member: string, score: int, fails: int -> bool, user: int)
    requires IsLong(user) && user !in subscribers
    requires forall i :: 0 <= i < |subscribers| ==> IsLong(subscribers[i])
    ensures FeedIn(FanOut(feeds, subscribers, member, score, fails), FeedKey(Some(user))) == FeedIn(feeds, FeedKey(Some(user)))
  {
    if subscribers != [] {
      var n := |subscribers| - 1;
      assert subscribers[..n] + [subscribers[n]] == subscribers;
      FanOutLeavesOthers(feeds, subscribers[..n], member, score, fails, user);
      if FeedKey(Some(subscribers[n])) == FeedKey(Some(user)) {
        FeedKeyInjective(Some(subscribers[n]), Some(user));
      }
    }
  }

  /** A subscriber whose write fails keeps its feed, whatever happens to the others. */
  lemma {:induction false} FailedSubscriberKeepsFeed(feeds: map<string, seq<Entry>>, subscribers: seq<int>,
                                                      member: string, score: int, fails: int -> bool, user: int)
    requires IsLong(user) && fails(user)
    requires forall i :: 0 <= i < |subscribers| ==> IsLong(subscribers[i])
    ensures FeedIn(FanOut(feeds, subscribers, member, score, fails), FeedKey(Some(user))) == FeedIn(feeds, FeedKey(Some(user)))
  {
    if subscribers != [] {
      var n := |subscribers| - 1;
      FailedSubscriberKeepsFeed(feeds, subscribers[..n], member, score, fails, user);
      if subscribers[n] != user && FeedKey(Some(subscribers[n])) == FeedKey(Some(user)) {
        FeedKeyInjective(Some(subscribers[n]), Some(user));
      }
    }
  }

  /** A subscriber whose write succeeds has the post in its feed afterwards, unless
      its feed was already full; later writes to other users do not undo it. */
  lemma {:induction false} SubscriberReceivesPost(feeds: map<string, seq<Entry>>, subscribers: seq<int>,
                                                   member: string, score: int, fails: int -> bool, k: nat)
    requires k < |subscribers| && NoDuplicates(subscribers) && !fails(subscribers[k])
    requires forall i :: 0 <= i < |subscribers| ==> IsLong(subscribers[i])
    requires forall key :: key in feeds ==> WellFormed(feeds[key]) && |feeds[key]| < FEED_SIZE
    ensures ScoreOf(FeedIn(FanOut(feeds, subscribers, member, score, fails), FeedKey(Some(subscribers[k]))), member).Some?
  {
    var user := subscribers[k];
    var key := FeedKey(Some(user));
    var n := |subscribers| - 1;
    var prefix := FanOut(feeds, subscribers[..n], member, score, fails);
    assert FanOut(feeds, subscribers, member, score, fails) == FanOutStep(prefix, subscribers[n], member, score, fails);
    if k == n {
      assert user !in subscribers[..n] by {
        forall i | 0 <= i < n ensures subscribers[..n][i] != user {
          assert subscribers[i] != subscribers[n];
        }
      }
      FanOutLeavesOthers(feeds, subscribers[..n], member, score, fails, user);
      var before := FeedIn(feeds, key);
      assert FeedIn(FanOutStep(prefix, user, member, score, fails), key) == AddedFeed(before, member, score);
      if ScoreOf(before, member).Some? {
        AddExistingKeepsFeed(before, member, score);
      } else {
        AddNewEntersFeed(before, member, score);
      }
    } else {
      assert subscribers[..n][k] == user;
      assert NoDuplicates(subscribers[..n]);
      SubscriberReceivesPost(feeds, subscribers[..n], member, score, fails, k);
      assert subscribers[n] != user;
      StepLeavesOtherFeed(prefix, subscribers[n], member, score, fails, user);
    }
  }

  /** Proof helper: one subscriber's write leaves every other user's feed as it was. */
  lemma StepLeavesOtherFeed(feeds: map<string, seq<Entry>>, subscriber: int, member: string, score: int,
                            fails: int -> bool, user: int)
    requires IsLong(subscriber) && IsLong(user) && subscriber != user
    ensures FeedIn(FanOutStep(feeds, subscriber, member, score, fails), FeedKey(Some(user)))
            == FeedIn(feeds, FeedKey(Some(user)))
  {
    if FeedKey(Some(subscriber)) == FeedKey(Some(user)) {
      FeedKeyInjective(Some(subscriber), Some(user));
    }
  }

  /** Proof helper: reaching `a` and then `b` is reaching `a + b`. */
  lemma {:induction false} FanOutAppend(feeds: map<string, seq<Entry>>, a: seq<int>, b: seq<int>,
                                         member: string, score: int, fails: int -> bool)
    ensures FanOut(feeds, a + b, member, score, fails)
            == FanOut(FanOut(feeds, a, member, score, fails), b, member, score, fails)
  {
    if b == [] {
      assert a + b == a;
    } else {
      var n := |b| - 1;
      assert (a + b)[..|a + b| - 1] == a + b[..n];
      FanOutAppend(feeds, a, b[..n], member, score, fails);
    }
  }

  /** Proof helper: reaching the first `i` subscribers and then those up to `end` is reaching the
      first `end`. */
  lemma FanOutExtends(feeds: map<string, seq<Entry>>, list: seq<int>, i: nat, end: nat,
                      member: string, score: int, fails: int -> bool)
    requires i <= end <= |list|
    ensures FanOut(feeds, list[..end], member, score, fails)
            == FanOut(FanOut(feeds, list[..i], member, score, fails), list[i..end], member, score, fails)
  {
    assert list[..i] + list[i..end] == list[..end];
    FanOutAppend(feeds, list[..i], list[i..end], member, score, fails);
  }

  /** The subscriber lists the batch events carry. */
  function SubscriberBatches(events: seq<FeedUpdateEvent>): (r: seq<seq<int>>)
    ensures |r| == |events|
  {
    seq(|events|, k requires 0 <= k < |events| => events[k].subscriberIds.GetOr([]))
  }

  /** The feed-update event of each batch: the post, its author and the batch. */
  function BatchEvents(post: Post, parts: seq<seq<int>>): (r: seq<FeedUpdateEvent>)
    ensures |r| == |parts|
    ensures forall k :: 0 <= k < |r| ==> r[k] == FeedUpdateEvent(post.id, post.authorId, None, Some(parts[k]))
  {
    seq(|parts|, k requires 0 <= k < |parts| => FeedUpdateEvent(post.id, post.authorId, None, Some(parts[k])))
  }

  /** Proof helper. */
  lemma BatchEventsAppend(post: Post, parts: seq<seq<int>>, batch: seq<int>)
    ensures BatchEvents(post, parts + [batch])
            == BatchEvents(post, parts) + [FeedUpdateEvent(post.id, post.authorId, None, Some(batch))]
  {
  }

  function Min(a: int, b: int): int
  {
    if a < b then a else b
  }

  class KafkaPostConsumer {
    const posts: PostRepository
    const cache: PostCacheRepository
    const feeds: UserFeedZSetService

    constructor(posts: PostRepository, cache: PostCacheRepository, feeds: UserFeedZSetService)
      ensures this.posts == posts && this.cache == cache && this.feeds == feeds
    {
      this.posts := posts;
      this.cache := cache;
      this.feeds := feeds;
    }

    /** `handleNewPost`. `now` is the feed score of every write, `fails` tells which
        subscribers' feed writes fail, and the user service lookups feed
        `getSubscriberIds`. The returned events are the batches processed. */
    method HandleNewPost(event: NewPostEvent, now: Time, fails: int -> bool,
                         userSubscribers: int -> Outcome<seq<int>>,
                         projectSubscribers: int -> Outcome<seq<int>>)
      returns (r: Outcome<Unit>, acknowledged: bool, batches: seq<FeedUpdateEvent>)
      requires posts.Valid() && cache.Valid() && feeds.Valid()
      modifies cache, feeds
      ensures cache.Valid() && feeds.Valid()
      ensures acknowledged <==> r.Ok?
      ensures var found := posts.FindById(event.postId);
              && (r.Thrown? <==> found.Thrown? || found.value.None?)
              && (r.Thrown? ==> r.exception == KafkaFailure("Failed to process new post event"))
              && (r.Thrown? || !CanBeAddedToFeed(found.value.value) ==>
                    cache.entries == old(cache.entries) && feeds.feeds == old(feeds.feeds) && batches == [])
              && (r.Ok? && CanBeAddedToFeed(found.value.value) ==>
                    var p := found.value.value;
                    var subscribers := GetSubscriberIds(p, userSubscribers, projectSubscribers);
                    var list := Flatten(SubscriberBatches(batches));
                    p.id.Some?
                    && cache.entries == old(cache.entries)[p.id.value := NewPostCache(p)]
                    && NoDuplicates(list) && (forall x :: x in list <==> x in subscribers)
                    && |batches| == CeilDiv(|subscribers|, FEED_BATCH_SIZE)
                    && (forall k :: 0 <= k < |batches| ==>
                          batches[k].postId == p.id && batches[k].authorId == p.authorId
                          && batches[k].subscriberIds.Some?
                          && 0 < |batches[k].subscriberIds.value| <= FEED_BATCH_SIZE)
                    && feeds.feeds == FanOut(old(feeds.feeds), list, LongToString(p.id.value), now, fails))
    {
      batches := [];
      var found := posts.FindById(event.postId);
      if found.Thrown? || found.value.None? {
        // EntityNotFoundException("Post not found: " + id), rethrown as a KafkaException
        return Thrown(KafkaFailure("Failed to process new post event")), false, [];
      }
      var post := found.value.value;
      if !CanBeAddedToFeed(post) {
        return Ok(Unit), true, [];
      }
      var saved := cache.Save(NewPostCache(post));
      var subscriberIds := GetSubscriberIds(post, userSubscribers, projectSubscribers);
      var list := SetToSeq(subscriberIds);
      batches := ProcessFeedUpdates(post, list, now, fails);
      PartitionCount(list, FEED_BATCH_SIZE);
      PartitionFlattens(list, FEED_BATCH_SIZE);
      PartitionSizes(list, FEED_BATCH_SIZE);
      assert SubscriberBatches(batches) == Partition(list, FEED_BATCH_SIZE);
      return Ok(Unit), true, batches;
    }

    /** `processFeedUpdates` over the subscriber list: consecutive batches of
        FEED_BATCH_SIZE, each handed to `processIndividualFeedUpdate`. */
    method ProcessFeedUpdates(post: Post, list: seq<int>, now: Time, fails: int -> bool)
      returns (batches: seq<FeedUpdateEvent>)
      requires feeds.Valid() && post.id.Some?
      modifies feeds
      ensures feeds.Valid()
      ensures batches == BatchEvents(post, Partition(list, FEED_BATCH_SIZE))
      ensures feeds.feeds == FanOut(old(feeds.feeds), list, LongToString(post.id.value), now, fails)
    {
      var member := LongToString(post.id.value);
      var n := |list|;
      batches := [];
      ghost var parts: seq<seq<int>> := [];
      var i := 0;
      while i < n
        invariant 0 <= i <= n
        invariant feeds.Valid()
        invariant Partition(list, FEED_BATCH_SIZE) == parts + Partition(list[i..], FEED_BATCH_SIZE)
        invariant batches == BatchEvents(post, parts)
        invariant feeds.feeds == FanOut(old(feeds.feeds), list[..i], member, now, fails)
      {
        var end := Min(i + FEED_BATCH_SIZE, n);
        var batchEvent := FeedUpdateEvent(post.id, post.authorId, None, Some(list[i..end]));
        ProcessIndividualFeedUpdate(batchEvent, now, fails);
        PartitionAdvance(list, i, FEED_BATCH_SIZE, parts);
        FanOutExtends(old(feeds.feeds), list, i, end, member, now, fails);
        BatchEventsAppend(post, parts, list[i..end]);
        parts := parts + [list[i..end]];
        batches := batches + [batchEvent];
        // the source steps `i` by FEED_BATCH_SIZE; past the end that also leaves the loop
        i := end;
      }
      assert list[..n] == list && list[n..] == [];
    }

    /** `processIndividualFeedUpdate`: each subscriber of the batch in turn; a failed
        write is logged and the loop goes on. */
    method ProcessIndividualFeedUpdate(batchEvent: FeedUpdateEvent, now: Time, fails: int -> bool)
      requires feeds.Valid() && batchEvent.postId.Some? && batchEvent.subscriberIds.Some?
      modifies feeds
      ensures feeds.Valid()
      ensures feeds.feeds == FanOut(old(feeds.feeds), batchEvent.subscriberIds.value,
                                    LongToString(batchEvent.postId.value), now, fails)
    {
      var batch := batchEvent.subscriberIds.value;
      ghost var member := LongToString(batchEvent.postId.value);
      for j := 0 to |batch|
        invariant feeds.Valid()
        invariant feeds.feeds == FanOut(old(feeds.feeds), batch[..j], member, now, fails)
      {
        var subscriber := batch[j];
        assert batch[..j + 1][..j] == batch[..j];
        if !fails(subscriber) {
          var written := feeds.AddPostToFeed(Some(subscriber), batchEvent.postId, Some(now));
        }
      }
      assert batch[..|batch|] == batch;
    }
  }
}
