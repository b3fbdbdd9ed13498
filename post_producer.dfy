/** `KafkaPostProducer`: a published post goes to the "new-posts" topic, then its
    subscribers go to "feed-updates" in consecutive batches. The topics are a log
    of sent messages; the user service is a pair of lookups. */
module PostProducer {
  import opened Base
  import opened Seqs
  import opened Events

  const NEW_POSTS := "new-posts"
  const FEED_UPDATES := "feed-updates"

  datatype Payload = PostPayload(post: NewPostEvent) | FeedPayload(feed: FeedUpdateEvent)
  datatype Message = Message(topic: string, payload: Payload)

  /** `getSubscribers`: the author's subscribers when the event has an author, else
      the project's when it has a project, else none; a failed lookup is rethrown. */
  function GetSubscribers(event: NewPostEvent, userSubscribers: int -> Outcome<seq<int>>,
                          projectSubscribers: int -> Outcome<seq<int>>): (r: Outcome<seq<int>>)
    ensures event.authorId.Some? ==> r == userSubscribers(event.authorId.value)
    ensures event.authorId.None? && event.projectId.Some? ==> r == projectSubscribers(event.projectId.value)
    ensures event.authorId.None? && event.projectId.None? ==> r == Ok([])
  {
    if event.authorId.Some? then userSubscribers(event.authorId.value)
    else if event.projectId.Some? then projectSubscribers(event.projectId.value)
    else Ok([])
  }

  /** `sendFeedUpdateEvent`: the post and author of the event and exactly one batch. */
  function FeedMessage(event: NewPostEvent, batch: seq<int>): Message
  {
    Message(FEED_UPDATES, FeedPayload(FeedUpdateEvent(event.postId, event.authorId, None, Some(batch))))
  }

  function FeedMessages(event: NewPostEvent, batches: seq<seq<int>>): (r: seq<Message>)
    ensures |r| == |batches|
    ensures forall k :: 0 <= k < |r| ==> r[k] == FeedMessage(event, batches[k])
  {
    seq(|batches|, k requires 0 <= k < |batches| => FeedMessage(event, batches[k]))
  }

  /** The batches carried by feed messages. */
  function BatchesOf(messages: seq<Message>): seq<seq<int>>
  {
    seq(|messages|, k requires 0 <= k < |messages| =>
      if messages[k].payload.FeedPayload? then messages[k].payload.feed.subscriberIds.GetOr([]) else [])
  }

  /** The feed messages for `subscribers` number ceil(n / batchSize); their batches,
      laid end to end, are the subscribers in order, each batch non-empty and at most
      `batchSize` long; every message names the event's post and author. */
  lemma {:induction false} FeedMessagesCoverSubscribers(event: NewPostEvent, subscribers: seq<int>, batchSize: nat)
    requires batchSize > 0
    ensures var m := FeedMessages(event, Partition(subscribers, batchSize));
            |m| == CeilDiv(|subscribers|, batchSize)
            && Flatten(BatchesOf(m)) == subscribers
            && (forall k :: 0 <= k < |m| ==> 0 < |BatchesOf(m)[k]| <= batchSize)
            && (forall k :: 0 <= k < |m| ==>
                  m[k].topic == FEED_UPDATES && m[k].payload.feed.postId == event.postId
                  && m[k].payload.feed.authorId == event.authorId)
  {
    var batches := Partition(subscribers, batchSize);
    var m := FeedMessages(event, batches);
    PartitionCount(subscribers, batchSize);
    PartitionFlattens(subscribers, batchSize);
    PartitionSizes(subscribers, batchSize);
    assert BatchesOf(m) == batches;
  }

  /** Five subscribers in batches of two give batches of 2, 2 and 1. */
  lemma FiveSubscribersInBatchesOfTwo(event: NewPostEvent)
    ensures var m := FeedMessages(event, Partition([1, 2, 3, 4, 5], 2));
            |m| == 3 && BatchesOf(m) == [[1, 2], [3, 4], [5]]
  {
    var s := [1, 2, 3, 4, 5];
    assert s[..2] == [1, 2] && s[2..] == [3, 4, 5];
    assert s[2..][..2] == [3, 4] && s[2..][2..] == [5];
    var last := s[2..][2..];
    assert last[..1] == [5] && last[1..] == [];
    assert Partition(last, 2) == [[5]];
    assert Partition(s, 2) == [[1, 2], [3, 4], [5]];
  }

  class KafkaPostProducer {
    var sent: seq<Message>

    constructor()
      ensures sent == []
    {
      sent := [];
    }

    /** `sendPostCreatedEvent`: the post event first, then one feed-update event per
        batch. A failed subscriber lookup is rethrown after the post event is sent;
        a batch size below 1 is rejected by `Lists.partition`. */
    method SendPostCreatedEvent(event: NewPostEvent, batchSize: int,
                                userSubscribers: int -> Outcome<seq<int>>,
                                projectSubscribers: int -> Outcome<seq<int>>) returns (r: Outcome<Unit>)
      modifies this
      ensures var subscribers := GetSubscribers(event, userSubscribers, projectSubscribers);
              && (subscribers.Thrown? ==> r == Thrown(subscribers.exception))
              && (subscribers.Ok? && batchSize <= 0 ==> r.Thrown? && r.exception.IllegalArgument?)
              && (r.Thrown? ==> sent == old(sent) + [Message(NEW_POSTS, PostPayload(event))])
              && (subscribers.Ok? && batchSize > 0 ==>
                    r.Ok? && sent == old(sent) + [Message(NEW_POSTS, PostPayload(event))]
                                    + FeedMessages(event, Partition(subscribers.value, batchSize)))
    {
      sent := sent + [Message(NEW_POSTS, PostPayload(event))];
      var subscribers := GetSubscribers(event, userSubscribers, projectSubscribers);
      if subscribers.Thrown? {
        return Thrown(subscribers.exception);
      }
      if batchSize <= 0 {
        return Thrown(IllegalArgument(""));
      }
      var batches := Partition(subscribers.value, batchSize);
      ghost var start := sent;
      for i := 0 to |batches|
        invariant sent == start + FeedMessages(event, batches[..i])
      {
        sent := sent + [FeedMessage(event, batches[i])];
        assert batches[..i + 1] == batches[..i] + [batches[i]];
      }
      assert batches[..|batches|] == batches;
      return Ok(Unit);
    }
  }

  /** With no subscribers only the post event is sent. */
  lemma NoSubscribersOnlyPostEvent(event: NewPostEvent, batchSize: nat)
    requires batchSize > 0
    ensures FeedMessages(event, Partition([], batchSize)) == []
  {
  }
}
