/** The Kafka event payloads of the post service. */
module Events {
  import opened Base
  import opened PostModel

  /** A comment was written. `verified` is the raw flag; `IsVerified` is what the
      consumer reads. */
  datatype NewCommentEvent = NewCommentEvent(
    id: Option<int>,
    postId: Option<int>,
    authorId: Option<int>,
    content: Option<string>,
    createdAt: Option<Time>,
    updatedAt: Option<Time>,
    verified: bool)

  /** `NewCommentEvent.isVerified()`: the flag is set and the content, author and
      post are all present. */
  predicate IsVerified(e: NewCommentEvent)
  {
    e.verified && e.content.Some? && e.authorId.Some? && e.postId.Some?
  }

  /** The flag alone is not enough, and each missing field on its own makes an
      event unverified. */
  lemma IsVerifiedNeedsEveryField(e: NewCommentEvent)
    ensures IsVerified(e) <==> e.verified && e.content.Some? && e.authorId.Some? && e.postId.Some?
    ensures !e.verified ==> !IsVerified(e)
    ensures e.content.None? || e.authorId.None? || e.postId.None? ==> !IsVerified(e)
    ensures IsVerified(e) ==> IsVerified(e.(id := None, createdAt := None, updatedAt := None))
  {
  }

  /** `LikeType`: only LIKE is told apart by the consumer; every other type, and
      a missing one, counts as an unlike. */
  datatype LikeType = LIKE | UNLIKE

  /** A like or an unlike of a post. */
  datatype NewLikeEvent = NewLikeEvent(
    postId: Option<int>,
    userId: Option<int>,
    createdAt: Option<Time>,
    likeType: Option<LikeType>)

  predicate IsLike(e: NewLikeEvent)
  {
    e.likeType == Some(LIKE)
  }

  /** A post was published. */
  datatype NewPostEvent = NewPostEvent(
    postId: Option<int>,
    authorId: Option<int>,
    projectId: Option<int>,
    content: Option<string>,
    publishedAt: Option<Time>,
    followerIds: Option<seq<int>>)

  /** A batch of subscribers whose feeds should receive a post. */
  datatype FeedUpdateEvent = FeedUpdateEvent(
    postId: Option<int>,
    authorId: Option<int>,
    projectId: Option<int>,
    subscriberIds: Option<seq<int>>)
}
