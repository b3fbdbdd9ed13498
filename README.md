# Post service — a Dafny model of its rules

The post service is the part of a social network that keeps posts (drafts,
publishing, soft deletion), their comments, likes and albums. It also keeps a
bounded news feed per user in Redis, which Kafka events about new posts, comments
and likes keep up to date. This project models the rules underneath that plumbing
and proves what they promise:

- the bounded, score-ordered feed and its cursor paging;
- feed assembly with one rebuild-and-retry;
- the Kafka consumers that update counters and the last-comments window;
- subscriber selection and batching;
- album visibility, ownership and filters;
- the post lifecycle, with its queries and the ban threshold;
- comment validation, moderation and caching;
- like uniqueness;
- upload checks and the image-size decision;
- the bounded Redis start-up check.

Modelling choices:

- Stores are modelled as follows:
  - database tables (posts, comments, likes, albums) are classes holding a `seq` of rows that their methods reassign;
  - the Redis post cache is a `map` from id to entry;
  - the feeds are a `map` from key to a score-ordered `seq`.
- The user service, S3, the uuid source, the image decoder, resizer and encoder, and Redis probes are oracle parameters.
- Timestamps are integer epoch seconds, and "now" is a parameter.
- A Java `null` is `None` of an `Option`.
- A thrown exception is `Thrown(e)` of an `Outcome`. Its message is the source's constant.
- `long` ids are unbounded integers.
- Java's `String.split("\\W+")`, `Long.parseLong` and `Long.toString` are written out over `seq<char>`, a sequence of Unicode code points. Java strings are UTF-16, and the two places where that shows are listed under "## Left out".

Modules, one or more per source class:

- `Base` (Option, Outcome, exceptions), `Seqs` and `Text`: generic sequence and string facts.
- `PostModel`, `PostStore`, `PostDtos`, `PostMapping`, `PostValidation` and `PostServices`: posts.
- `CommentStore`, `CommentValidation`, `CommentMapping`, `CommentServices` and `Moderation`: comments.
- `LikeServices`: likes.
- `AlbumModel`, `AlbumFilters` and `AlbumServices`: albums.
- `CacheModel`, `FeedZSet` and `FeedServices`: the feed.
- `Events`, `PostProducer`, `PostConsumer`, `CommentConsumer`, `LikeConsumer` and `Subscription`: the event flow.
- `FileChecks` and `ImageProcessing`: uploads.
- `RedisStartup`: the start-up check.

## Model

| member | source | states |
|---|---|---|
| AlbumFilters.Apply | src/main/java/faang/school/postservice/service/album/filter/AlbumCreatedAtFilter.java:11-24 | an applicable filter keeps exactly the input albums that meet its criterion, in input order (an order-preserving subsequence) |
| AlbumFilters.CreatedAtFilterKeepsWindow | src/main/java/faang/school/postservice/service/album/filter/AlbumCreatedAtFilter.java:18-24 | the albums kept are exactly the input albums created strictly inside the window |
| AlbumFilters.TitleFilterKeepsMatches | src/main/java/faang/school/postservice/service/album/filter/AlbumTitleFilter.java:16-19 | the albums kept are exactly the input albums whose title contains the pattern |
| AlbumFilters.DescriptionFilterKeepsMatches | src/main/java/faang/school/postservice/service/album/filter/AlbumDescriptionFilter.java:16-19 | the albums kept are exactly the input albums whose description contains the pattern |
| AlbumFilters.AuthorFilterKeepsAuthor | src/main/java/faang/school/postservice/service/album/filter/AlbumAuthorFilter.java:16-19 | the albums kept are exactly the input albums by the filter's author |
| AlbumFilters.ApplyIsIdempotent | src/main/java/faang/school/postservice/service/album/filter/AlbumTitleFilter.java:18 | applying any of the four filters twice gives what applying it once gives |
| AlbumFilters.ContainsEmpty | src/main/java/faang/school/postservice/service/album/filter/AlbumDescriptionFilter.java:18 | every string contains the empty pattern |
| AlbumFilters.EmptyPatternKeepsAll | src/main/java/faang/school/postservice/service/album/filter/AlbumTitleFilter.java:18 | an empty title or description pattern keeps every album, in order |
| AlbumFilters.CreatedAtBoundsAreExclusive | src/main/java/faang/school/postservice/service/album/filter/AlbumCreatedAtFilter.java:23 | an album created exactly at the lower or the upper bound is dropped |
| AlbumFilters.ApplyFiltersIsConjunction | src/main/java/faang/school/postservice/service/album/AlbumServiceImpl.java:194-203 | running the applicable filters one after another in list order equals one filter by the conjunction of their criteria |
| AlbumFilters.ApplyFiltersKeepsExactly | src/main/java/faang/school/postservice/service/album/AlbumServiceImpl.java:194-203 | an album is in the chained result iff it is an input album that passes every applicable filter |
| AlbumServices.VisibilityTable | src/main/java/faang/school/postservice/service/album/AlbumServiceImpl.java:205-229 | ALL: always visible; SUBSCRIBERS: visible iff subscriber or author; FAVORITES: visible iff favourite or author; OWNER: visible iff author |
| AlbumServices.VisibilityOfAuthorAndStrangers | src/main/java/faang/school/postservice/service/album/AlbumServiceImpl.java:205-217 | the author always sees the album; a user who is neither author, subscriber nor favourite sees it iff it is open to ALL |
| AlbumServices.AddToFavorites | src/main/java/faang/school/postservice/service/album/AlbumServiceImpl.java:271-278 | the id is in the result, nothing else is added, and a list already holding the id comes back unchanged |
| AlbumServices.RemoveFromFavorites | src/main/java/faang/school/postservice/service/album/AlbumServiceImpl.java:280-287 | the result's multiset is the input's minus one occurrence of the id; a list without the id comes back unchanged |
| AlbumServices.AddToFavoritesIsIdempotent | src/main/java/faang/school/postservice/service/album/AlbumServiceImpl.java:271-278 | adding a user twice equals adding it once |
| AlbumServices.RemoveUndoesAdd | src/main/java/faang/school/postservice/service/album/AlbumServiceImpl.java:271-287 | removing a user just added to a list without it gives the list back |
| AlbumServices.FavoritesStayDistinct | src/main/java/faang/school/postservice/service/album/AlbumServiceImpl.java:271-287 | on a repeat-free list, adding keeps it repeat-free and a removed user is gone |
| AlbumServices.AlbumWithId | src/main/java/faang/school/postservice/service/album/AlbumServiceImpl.java:95-99 | some album is found iff a row has the id, and the one found is that row |
| AlbumServices.FindAlbum | src/main/java/faang/school/postservice/service/album/AlbumServiceImpl.java:95-99 | a null id is rejected, an unknown id is EntityNotFoundException "Album does not exist", otherwise the stored album with that id |
| AlbumServices.Replaced | src/main/java/faang/school/postservice/service/album/AlbumServiceImpl.java:75 | saving a stored album replaces exactly the rows with its id and keeps the rest in place |
| AlbumServices.AlbumRepository.constructor | src/main/java/faang/school/postservice/service/album/AlbumServiceImpl.java:58 | the album table starts empty, with unique ids |
| AlbumServices.AlbumRepository.Insert | src/main/java/faang/school/postservice/service/album/AlbumServiceImpl.java:58 | a new album is appended and ids stay unique |
| AlbumServices.AlbumRepository.Update | src/main/java/faang/school/postservice/service/album/AlbumServiceImpl.java:75 | the stored row is replaced and ids stay unique |
| AlbumServices.AlbumRepository.Delete | src/main/java/faang/school/postservice/service/album/AlbumServiceImpl.java:82 | exactly the album's row goes and ids stay unique |
| AlbumServices.ValidateUser | src/main/java/faang/school/postservice/service/album/AlbumServiceImpl.java:265-269 | passes iff the user service finds the user; a null answer is EntityNotFoundException "User with ID n not found" |
| AlbumServices.CreatedAlbum | src/main/java/faang/school/postservice/service/album/AlbumServiceImpl.java:48-61 | fails iff the author already has the title or the user is unknown, title first; the new album has the caller as author, OWNER visibility, no favourites and no posts |
| AlbumServices.AddKeepsTitlesUnique | src/main/java/faang/school/postservice/service/album/AlbumServiceImpl.java:257-263 | adding an album whose title is new for its author keeps titles unique per author |
| AlbumServices.ViewedAlbum | src/main/java/faang/school/postservice/service/album/AlbumServiceImpl.java:85-93 | the user must exist and the album must exist; then it is returned iff it is visible to the user, else "Sorry, you have no access to this album" |
| AlbumServices.CheckOwner | src/main/java/faang/school/postservice/service/album/AlbumServiceImpl.java:242-246 | passes iff the author id equals the caller; otherwise "Only owner can add or delete post from this album" |
| AlbumServices.UpdateAsWritten | src/main/java/faang/school/postservice/service/album/AlbumServiceImpl.java:63-76 | as written: a null dto author is an NPE; a dto author other than the caller throws "Only owner can add or delete post from this album"; succeeds iff the dto names the caller, the caller has no album with the title (its own included) and the album exists, and the result is the stored album edited |
| AlbumServices.UpdateAsWrittenLetsStrangerEdit | src/main/java/faang/school/postservice/service/album/AlbumServiceImpl.java:64-65 | a user who names themselves as author in the dto edits an album they do not own |
| AlbumServices.UpdateAsWrittenRejectsOwnTitle | src/main/java/faang/school/postservice/service/album/AlbumServiceImpl.java:66 | the owner cannot keep an album's own title while changing its description |
| AlbumServices.UpdateAsWrittenBreaksUniqueTitles | src/main/java/faang/school/postservice/service/album/AlbumServiceImpl.java:248-255 | the stranger's edit gives the real author two albums with the same title |
| AlbumServices.UpdatedAlbum | src/main/java/faang/school/postservice/service/album/AlbumServiceImpl.java:63-76 | succeeds iff the album exists, the caller is its stored author and no other album of that author has the title; the result takes over title, description, favourites and visibility |
| AlbumServices.UpdatedAlbumKeepsTitlesUnique | src/main/java/faang/school/postservice/service/album/AlbumServiceImpl.java:248-255 | the owner may keep the album's own title |
| AlbumServices.UpdatedAlbumPreservesUniqueTitles | src/main/java/faang/school/postservice/service/album/AlbumServiceImpl.java:63-76 | a successful update keeps titles unique per author |
| AlbumServices.RemoveAsWritten | src/main/java/faang/school/postservice/service/album/AlbumServiceImpl.java:78-83 | as written: a dto author other than the caller throws "Only owner can add or delete post from this album"; succeeds iff the dto names the caller and the album exists, and the result is that stored album |
| AlbumServices.RemoveAsWrittenLetsStrangerDelete | src/main/java/faang/school/postservice/service/album/AlbumServiceImpl.java:80 | anyone deletes any album by naming themselves as its author |
| AlbumServices.RemovedAlbum | src/main/java/faang/school/postservice/service/album/AlbumServiceImpl.java:78-83 | succeeds iff the album exists and the caller is its stored author |
| AlbumServices.AlbumWithPost | src/main/java/faang/school/postservice/service/album/AlbumServiceImpl.java:120-128 | succeeds iff album and post exist and the caller owns the album (album, then post, then owner), a missing post or another owner throwing its message; the post is appended to the album's posts |
| AlbumServices.AlbumWithoutPost | src/main/java/faang/school/postservice/service/album/AlbumServiceImpl.java:130-138 | same checks and exceptions; every entry of the post leaves the album's posts and the rest keep their order |
| AlbumServices.ReplacedIsFound | src/main/java/faang/school/postservice/service/album/AlbumServiceImpl.java:75 | after a save over a stored row, looking the album up finds the saved album |
| AlbumServices.RemovePostUndoesAdd | src/main/java/faang/school/postservice/service/album/AlbumServiceImpl.java:120-138 | removing a post just added to an album without it restores the album |
| AlbumServices.WithFavorite | src/main/java/faang/school/postservice/service/album/AlbumServiceImpl.java:174-192 | succeeds iff the caller may view the album; the favourites become the add or remove of the user |
| AlbumServices.AllAlbumsWithFilters | src/main/java/faang/school/postservice/service/album/AlbumServiceImpl.java:167-172 | exactly the albums visible to the user that pass every applicable filter, in table order |
| AlbumServices.UserAlbumsWithFilters | src/main/java/faang/school/postservice/service/album/AlbumServiceImpl.java:146-151 | exactly the user's own albums that pass every applicable filter |
| AlbumServices.AlbumService.constructor | src/main/java/faang/school/postservice/service/album/AlbumServiceImpl.java:31-35 | the service holds the album and post tables it is given |
| AlbumServices.AlbumService.Add | src/main/java/faang/school/postservice/service/album/AlbumServiceImpl.java:48-61 | returns CreatedAlbum; on success the album is appended, on failure nothing changes |
| AlbumServices.AlbumService.Update | src/main/java/faang/school/postservice/service/album/AlbumServiceImpl.java:63-76 | returns what the program computes (UpdateAsWritten); on success the album's row is replaced, on failure nothing changes |
| AlbumServices.AlbumService.Remove | src/main/java/faang/school/postservice/service/album/AlbumServiceImpl.java:78-83 | succeeds iff the program's checks pass (RemoveAsWritten), throwing their exception otherwise; then exactly the row with the dto's id goes, otherwise nothing changes |
| AlbumServices.AlbumService.EditPosts | src/main/java/faang/school/postservice/service/album/AlbumServiceImpl.java:120-138 | returns AlbumWithPost or AlbumWithoutPost and saves it over its row only on success |
| AlbumServices.AlbumService.EditFavorites | src/main/java/faang/school/postservice/service/album/AlbumServiceImpl.java:174-192 | returns WithFavorite and saves it over its row only on success |
| CacheModel.EmptyPostCache | src/main/java/faang/school/postservice/redis/entities/PostCache.java:28-39 | a built PostCache has both counters 0, an empty comment set and no id |
| CacheModel.PostCacheRepository.constructor | src/main/java/faang/school/postservice/repository/redis/PostCacheRepository.java:7-9 | the cache starts empty |
| CacheModel.PostCacheRepository.FindById | src/main/java/faang/school/postservice/repository/redis/PostCacheRepository.java:7-9 | a null id throws; otherwise the entry stored under the id, if any |
| CacheModel.PostCacheRepository.Save | src/main/java/faang/school/postservice/repository/redis/PostCacheRepository.java:7-9 | stores the entry under its id, replacing an earlier one and touching no other |
| CommentConsumer.UpdateLastComments | src/main/java/faang/school/postservice/kafka/consumer/KafkaCommentConsumer.java:70-84 | the window never exceeds 3; it fails (a null id dereferenced by the sort) iff it grew past 3 with a comment lacking an id |
| CommentConsumer.SmallWindowAppends | src/main/java/faang/school/postservice/kafka/consumer/KafkaCommentConsumer.java:71-76 | within 3, the old comments keep their order and the new one is appended, unless an equal one is already there |
| CommentConsumer.LargeWindowKeepsNewestThree | src/main/java/faang/school/postservice/kafka/consumer/KafkaCommentConsumer.java:77-82 | past 3, exactly 3 distinct comments stay: those with the largest ids, in descending id order |
| CommentConsumer.CommentedPostCache | src/main/java/faang/school/postservice/kafka/consumer/KafkaCommentConsumer.java:49-57 | commentsCount becomes old + 1 with null read as 0; only a verified event's comment enters the window; no other field changes |
| CommentConsumer.CacheAfterComment | src/main/java/faang/school/postservice/kafka/consumer/KafkaCommentConsumer.java:40-47 | a null post id throws; an uncached post gets no entry; only the event's post entry changes, its count going up by one |
| CommentConsumer.UnverifiedCommentKeepsWindow | src/main/java/faang/school/postservice/kafka/consumer/KafkaCommentConsumer.java:53-56 | an unverified event never changes the cached window |
| CommentConsumer.KafkaCommentConsumer.constructor | src/main/java/faang/school/postservice/kafka/consumer/KafkaCommentConsumer.java:22-24 | the consumer holds the post table and the post cache |
| CommentConsumer.KafkaCommentConsumer.HandleNewComment | src/main/java/faang/school/postservice/kafka/consumer/KafkaCommentConsumer.java:26-38 | acknowledged iff it succeeds; success bumps the database counter and updates the cache as CacheAfterComment says; a failure is a KafkaException and rolls back both |
| CommentMapping.GetLikeIds | src/main/java/faang/school/postservice/mapper/comment/CommentMapper.java:30-38 | null or empty gives an empty list; otherwise the like ids one to one, in order |
| CommentMapping.LikeIdsAppend | src/main/java/faang/school/postservice/mapper/comment/CommentMapper.java:35-37 | mapping two lists end to end maps each in turn |
| CommentMapping.LikeIdsExample | src/main/java/faang/school/postservice/mapper/comment/CommentMapper.java:35-37 | likes 1 and 2 give [1, 2] |
| CommentMapping.ToResponseDto | src/main/java/faang/school/postservice/mapper/comment/CommentMapper.java:24-26 | the response copies the comment's fields, takes post.id as postId, and maps likes through GetLikeIds |
| LikeConsumer.LikedPostCache | src/main/java/faang/school/postservice/kafka/consumer/KafkaLikeConsumer.java:52-56 | likesCount becomes old + 1 for LIKE and max(0, old - 1) otherwise, null read as 0; no other field changes |
| LikeConsumer.CachedLikesStayNonNegative | src/main/java/faang/school/postservice/kafka/consumer/KafkaLikeConsumer.java:55 | after any run of events, a cached count that started non-negative is non-negative |
| LikeConsumer.UnlikeUndoesLike | src/main/java/faang/school/postservice/kafka/consumer/KafkaLikeConsumer.java:52-56 | an unlike right after a like restores the cached count |
| LikeConsumer.CacheAfterLike | src/main/java/faang/school/postservice/kafka/consumer/KafkaLikeConsumer.java:46-49 | fails iff the post id is null; an uncached post gets no entry; only the event's post entry changes |
| LikeConsumer.KafkaLikeConsumer.constructor | src/main/java/faang/school/postservice/kafka/consumer/KafkaLikeConsumer.java:19-21 | the consumer holds the post table and the post cache |
| LikeConsumer.KafkaLikeConsumer.HandleNewLike | src/main/java/faang/school/postservice/kafka/consumer/KafkaLikeConsumer.java:23-50 | acknowledged iff it succeeds; LIKE increments and any other type decrements the database counter, then the cache updates; a failure is a KafkaException and rolls back both |
| PostConsumer.NewPostCache | src/main/java/faang/school/postservice/kafka/consumer/KafkaPostConsumer.java:94-110 | id, author, project, content, flags and visibility copied; counters 0; an empty comment window |
| PostConsumer.FanOutLeavesOthers | src/main/java/faang/school/postservice/kafka/consumer/KafkaPostConsumer.java:79-92 | the feed of a user who is not a subscriber is unchanged |
| PostConsumer.FailedSubscriberKeepsFeed | src/main/java/faang/school/postservice/kafka/consumer/KafkaPostConsumer.java:87-90 | a subscriber whose write fails keeps its feed, whatever happens to the others |
| PostConsumer.SubscriberReceivesPost | src/main/java/faang/school/postservice/kafka/consumer/KafkaPostConsumer.java:80-86 | a subscriber whose write succeeds (and whose feed had room) has the post afterwards |
| PostConsumer.SubscriberBatches | src/main/java/faang/school/postservice/kafka/consumer/KafkaPostConsumer.java:66 | one subscriber list per batch event |
| PostConsumer.BatchEvents | src/main/java/faang/school/postservice/kafka/consumer/KafkaPostConsumer.java:63-67 | batch k carries the post's id, its author and exactly batch k |
| PostConsumer.KafkaPostConsumer.constructor | src/main/java/faang/school/postservice/kafka/consumer/KafkaPostConsumer.java:29-33 | the consumer holds the post table, the cache and the feeds |
| PostConsumer.KafkaPostConsumer.HandleNewPost | src/main/java/faang/school/postservice/kafka/consumer/KafkaPostConsumer.java:35-55 | fails (KafkaException, unacknowledged) iff the post is not found; an ineligible post is acknowledged with nothing cached or written; an eligible one is cached and reaches every subscriber exactly once in ceil(n/1000) batches of at most 1000 |
| PostConsumer.KafkaPostConsumer.ProcessFeedUpdates | src/main/java/faang/school/postservice/kafka/consumer/KafkaPostConsumer.java:57-77 | the batches are the consecutive 1000-partition of the list, and the feeds are those after each subscriber in list order |
| PostConsumer.KafkaPostConsumer.ProcessIndividualFeedUpdate | src/main/java/faang/school/postservice/kafka/consumer/KafkaPostConsumer.java:79-92 | each subscriber of the batch in turn; a failed write changes nothing and the loop goes on |
| PostProducer.GetSubscribers | src/main/java/faang/school/postservice/kafka/producer/KafkaPostProducer.java:64-78 | the author's subscribers when the event has an author, else the project's, else none; a failed lookup is rethrown |
| PostProducer.FeedMessages | src/main/java/faang/school/postservice/kafka/producer/KafkaPostProducer.java:42-48 | one feed-update message per batch, message k carrying the post, its author and batch k |
| PostProducer.FeedMessagesCoverSubscribers | src/main/java/faang/school/postservice/kafka/producer/KafkaPostProducer.java:34-39 | ceil(n / batchSize) messages whose batches, laid end to end, are the subscribers in order, each non-empty and at most batchSize long |
| PostProducer.FiveSubscribersInBatchesOfTwo | src/main/java/faang/school/postservice/kafka/producer/KafkaPostProducer.java:34-35 | five subscribers in batches of two give batches of 2, 2 and 1 |
| PostProducer.KafkaPostProducer.constructor | src/main/java/faang/school/postservice/kafka/producer/KafkaPostProducer.java:22-23 | nothing has been sent yet |
| PostProducer.KafkaPostProducer.SendPostCreatedEvent | src/main/java/faang/school/postservice/kafka/producer/KafkaPostProducer.java:29-40 | the post event to "new-posts" first; then a failed lookup is rethrown, and otherwise one "feed-updates" message per batch, in order |
| PostProducer.NoSubscribersOnlyPostEvent | src/main/java/faang/school/postservice/kafka/producer/KafkaPostProducer.java:34-35 | with no subscribers no feed-update message is sent |
| Subscription.GetSubscriberIds | src/main/java/faang/school/postservice/service/subscription/SubscriptionService.java:74-99 | the union of the author's subscribers (when there is an author) and the project's (when there is a project); any failed lookup gives the empty set |
| Subscription.SubscriberUnionExample | src/main/java/faang/school/postservice/service/subscription/SubscriptionService.java:76-88 | {1, 2} from the author and {2, 3} from the project give {1, 2, 3} |
| Subscription.RecentAuthorIds | src/main/java/faang/school/postservice/service/subscription/SubscriptionService.java:33-38 | the author ids of recently published posts, each once |
| Subscription.RecentAuthorsAreRecentPublishers | src/main/java/faang/school/postservice/service/subscription/SubscriptionService.java:33-38 | an id is a recent author iff one of their posts was published after the cutoff |
| Subscription.GetAuthorIds | src/main/java/faang/school/postservice/service/subscription/SubscriptionService.java:30-54 | succeeds iff no lookup fails; then exactly the recent authors the user service still knows; a failure is some recent author's lookup failure, rethrown |
| Subscription.GetProjectIds | src/main/java/faang/school/postservice/service/subscription/SubscriptionService.java:56-72 | exactly the project ids of posts published after the cutoff |
| Events.IsVerifiedNeedsEveryField | src/main/java/faang/school/postservice/kafka/event/NewCommentEvent.java:24-29 | verified iff the flag is set and content, author and post are all present; a false flag or any missing field makes it unverified |
| FeedZSet.ScoreOf | src/main/java/faang/school/postservice/service/feed/UserFeedZSetService.java:37 | ZSCORE gives a score iff the member is in the set, and it is that member's score |
| FeedZSet.RemoveRangeByRank | src/main/java/faang/school/postservice/service/feed/UserFeedZSetService.java:27 | ZREMRANGEBYRANK never adds entries |
| FeedZSet.TrimKeepsTop | src/main/java/faang/school/postservice/service/feed/UserFeedZSetService.java:27 | the trim removeRange(key, 0, -501) keeps exactly the 500 highest entries, and a feed of at most 500 is untouched |
| FeedZSet.AddedFeedIsBoundedTop | src/main/java/faang/school/postservice/service/feed/UserFeedZSetService.java:22-28 | after addPostToFeed the feed is a well-formed sorted set of at most 500 entries, and every entry the trim dropped ranks below every survivor |
| FeedZSet.AddExistingKeepsFeed | src/main/java/faang/school/postservice/service/feed/UserFeedZSetService.java:25-27 | adding a post already in the feed keeps its stored score and changes nothing |
| FeedZSet.AddNewEntersFeed | src/main/java/faang/school/postservice/service/feed/UserFeedZSetService.java:22-28 | a new post added to a feed with room is in it afterwards with its timestamp as score, and every earlier entry stays |
| FeedZSet.FeedKey | src/main/java/faang/school/postservice/service/feed/UserFeedZSetService.java:66-68 | every key starts with "feed:" |
| FeedZSet.FeedKeyInjective | src/main/java/faang/school/postservice/service/feed/UserFeedZSetService.java:66-68 | different users (a null one included) have different feed keys |
| FeedZSet.ReverseRange | src/main/java/faang/school/postservice/service/feed/UserFeedZSetService.java:35 | ZREVRANGE takes ranks from the top, with Redis's negative-index and empty-window rules |
| FeedZSet.AtOrBelow | src/main/java/faang/school/postservice/service/feed/UserFeedZSetService.java:39-40 | exactly the entries scored at most the bound, in feed order |
| FeedZSet.ReverseRangeByScore | src/main/java/faang/school/postservice/service/feed/UserFeedZSetService.java:39-40 | at most count entries (none for 0, no limit when negative), all from the set and scored at most the bound |
| FeedZSet.ParsedIdsOfOne | src/main/java/faang/school/postservice/service/feed/UserFeedZSetService.java:50-53 | a member that is not a long is dropped; a long is kept as its value |
| FeedZSet.ParsedIdsAppend | src/main/java/faang/school/postservice/service/feed/UserFeedZSetService.java:50-53 | parsing goes entry by entry, so the surviving ids keep their order |
| FeedZSet.ParsedIdsFromPage | src/main/java/faang/school/postservice/service/feed/UserFeedZSetService.java:50-64 | every returned id is the parse of a page member, and there are no more ids than entries |
| FeedZSet.ParsedIdsOfCanonical | src/main/java/faang/school/postservice/service/feed/UserFeedZSetService.java:50-53 | a page of printed longs, the only members addPostToFeed writes, loses nothing to parsing |
| FeedZSet.NoCursorPageIsTop | src/main/java/faang/school/postservice/service/feed/UserFeedZSetService.java:34-35 | with no cursor and a positive page size, the page is the top pageSize entries in descending order |
| FeedZSet.ZeroPageSizeIsWholeFeed | src/main/java/faang/school/postservice/service/feed/UserFeedZSetService.java:35 | a page size of 0 reads ZREVRANGE 0 -1, the whole feed |
| FeedZSet.UnknownCursorGivesNothing | src/main/java/faang/school/postservice/service/feed/UserFeedZSetService.java:37-43 | a cursor that is not in the feed gives an empty list |
| FeedZSet.CursorPage | src/main/java/faang/school/postservice/service/feed/UserFeedZSetService.java:36-41 | with a cursor in the feed: at most pageSize entries scored at most the cursor's score, in descending order, starting at that score, so the cursor and its ties come back again |
| FeedZSet.PageIsSortedSlice | src/main/java/faang/school/postservice/service/feed/UserFeedZSetService.java:30-54 | whatever the cursor, the page is sorted, drawn from the feed, and no longer than a positive pageSize |
| FeedZSet.UserFeedZSetService.constructor | src/main/java/faang/school/postservice/service/feed/UserFeedZSetService.java:18-20 | no feed is stored yet |
| FeedZSet.UserFeedZSetService.AddPostToFeed | src/main/java/faang/school/postservice/service/feed/UserFeedZSetService.java:22-28 | a null post id or timestamp throws and writes nothing; otherwise only this user's feed becomes add-if-absent then trim, and the post is in it unless the feed was already full |
| FeedZSet.UserFeedZSetService.GetFeedPosts | src/main/java/faang/school/postservice/service/feed/UserFeedZSetService.java:30-54 | at most pageSize ids; none for a cursor not in the feed; each id is the parse of a member of the feed |
| FeedZSet.OtherFeedsUntouched | src/main/java/faang/school/postservice/service/feed/UserFeedZSetService.java:66-68 | writing one user's feed leaves every other user's feed as it was |
| FeedServices.AdjustPageSize | src/main/java/faang/school/postservice/service/feed/FeedService.java:45-47 | the effective page size is min(requested, 20) |
| FeedServices.MapCommentToDto | src/main/java/faang/school/postservice/service/feed/FeedService.java:154-165 | a comment maps iff its id, author and post are present (they are unboxed); its fields are copied |
| FeedServices.MapCommentList | src/main/java/faang/school/postservice/service/feed/FeedService.java:149-151 | all comments map, one to one and in order, or the first one that cannot ends the mapping |
| FeedServices.MapComments | src/main/java/faang/school/postservice/service/feed/FeedService.java:145-152 | a null comment set maps to an empty list; otherwise the comments one to one, in order |
| FeedServices.MapToDto | src/main/java/faang/school/postservice/service/feed/FeedService.java:116-143 | an author when the post has one, otherwise a project when it has one, never both; the other fields copied and the comments mapped in order |
| FeedServices.BuildFeedResponse | src/main/java/faang/school/postservice/service/feed/FeedService.java:167-173 | hasMore iff at least pageSize posts came back; lastPostId is the last post's id, or null when there is none |
| FeedServices.CreatePostCache | src/main/java/faang/school/postservice/service/feed/FeedService.java:101-114 | the post's fields copied, PUBLIC iff the post is visible now and PRIVATE otherwise, no creation time, an empty comment set |
| FeedServices.RebuildSource | src/main/java/faang/school/postservice/service/feed/FeedService.java:58-61 | at most 500 of the user's own posts, all of them feed-eligible |
| FeedServices.LoadedFeedIsBounded | src/main/java/faang/school/postservice/service/feed/FeedService.java:62-63 | adding the posts one by one keeps the feed a sorted set of at most 500 entries |
| FeedServices.LoadedFeedEntries | src/main/java/faang/school/postservice/service/feed/FeedService.java:62-63 | every entry the feed gains is one of the posts, scored by its creation time |
| FeedServices.LoadedFeedGrowth | src/main/java/faang/school/postservice/service/feed/FeedService.java:62-63 | each post adds at most one entry |
| FeedServices.RebuildHoldsEveryPost | src/main/java/faang/school/postservice/service/feed/FeedService.java:58-64 | rebuilding an empty feed from at most 500 posts puts every one of them in the feed |
| FeedServices.RoomyAddKeeps | src/main/java/faang/school/postservice/service/feed/UserFeedZSetService.java:22-28 | adding to a feed with room keeps every entry and holds the member afterwards |
| FeedServices.EligiblePost | src/main/java/faang/school/postservice/service/feed/FeedService.java:82-83 | a database post with the id that may enter feeds, or none when there is no such post |
| FeedServices.ServedEntry | src/main/java/faang/school/postservice/service/feed/FeedService.java:74-93 | an entry is served iff the database post exists and is eligible; a cached entry wins, otherwise a fresh one from the database |
| FeedServices.CacheAfterGet | src/main/java/faang/school/postservice/service/feed/FeedService.java:89-99 | only a cache miss for an eligible post writes the cache, and it writes that post's fresh entry |
| FeedServices.FetchStopsAtFailure | src/main/java/faang/school/postservice/service/feed/FeedService.java:66-72 | once mapping a post has failed, the later ids change nothing |
| FeedServices.ServedKeepsIds | src/main/java/faang/school/postservice/service/feed/FeedService.java:74-99 | a served post has the id asked for, and the cache stays keyed by id |
| FeedServices.FetchKeepsFeedOrder | src/main/java/faang/school/postservice/service/feed/FeedService.java:66-72 | the returned posts follow the order of the feed ids: exactly the ids with an eligible database post, each once per occurrence |
| FeedServices.ReadRebuildsOnlyEmptyPages | src/main/java/faang/school/postservice/service/feed/FeedService.java:49-56 | a page that the first read fills is returned as it is; only the user's own feed is ever rebuilt |
| FeedServices.FeedService.constructor | src/main/java/faang/school/postservice/service/feed/FeedService.java:29-36 | the service holds the cache, the post and comment tables, the feeds and the latest-comments count |
| FeedServices.FeedService.GetFeed | src/main/java/faang/school/postservice/service/feed/FeedService.java:38-43 | the page size is clamped, the ids are read (with one rebuild), the posts are fetched in id order, and the response is built from them; a mapping failure is rethrown |
| FeedServices.FeedService.GetPostIdsForFeed | src/main/java/faang/school/postservice/service/feed/FeedService.java:49-56 | one read; when it is empty, a rebuild and exactly one more read |
| FeedServices.FeedService.LoadUserFeedFromDatabase | src/main/java/faang/school/postservice/service/feed/FeedService.java:58-64 | the user's newest eligible posts are added to the user's feed one by one, each scored by its creation time |
| FeedServices.FeedService.FetchAndMapPosts | src/main/java/faang/school/postservice/service/feed/FeedService.java:66-72 | each id in turn through getPost, keeping the posts found, as Fetch says |
| FeedServices.FeedService.GetPost | src/main/java/faang/school/postservice/service/feed/FeedService.java:74-93 | returns the served DTO, and the cache changes only on a miss for an eligible post |
| FeedServices.FeedService.CachePost | src/main/java/faang/school/postservice/service/feed/FeedService.java:95-99 | saves the post's fresh entry, with its latest comments, under its id |
| CommentStore.FindAllByPostId | src/main/java/faang/school/postservice/repository/CommentRepository.java:14-15 | exactly the comments of the post, in table order |
| CommentStore.FindAllUnChecked | src/main/java/faang/school/postservice/repository/CommentRepository.java:17-18 | exactly the comments whose verified flag is null |
| CommentStore.FindLatestByPostId | src/main/java/faang/school/postservice/repository/CommentRepository.java:20-22 | a page size below one is rejected; otherwise at most limit verified comments of the post, newest first |
| CommentStore.NewestComments | src/main/java/faang/school/postservice/repository/CommentRepository.java:20-22 | every verified comment of the post, newest first |
| CommentStore.LatestCommentsAreTheNewest | src/main/java/faang/school/postservice/repository/CommentRepository.java:20-22 | a candidate left out of the page means the page is full and holds only comments at least as new |
| CommentStore.CommentWithId | src/main/java/faang/school/postservice/repository/CommentRepository.java:12 | a row with the id is found iff the table has one |
| CommentStore.CommentRepository.constructor | src/main/java/faang/school/postservice/repository/CommentRepository.java:12 | an empty table |
| CommentStore.CommentRepository.FindById | src/main/java/faang/school/postservice/repository/CommentRepository.java:12 | a null id is rejected; otherwise the row with the id, present iff one exists |
| CommentStore.CommentRepository.ExistsById | src/main/java/faang/school/postservice/repository/CommentRepository.java:12 | true iff a row has the id |
| CommentStore.CommentRepository.DeleteById | src/main/java/faang/school/postservice/repository/CommentRepository.java:12 | exactly the rows with the id are removed, the rest kept in order; ids stay unique |
| CommentStore.CommentRepository.Save | src/main/java/faang/school/postservice/repository/CommentRepository.java:12 | a new comment gets the next id and its creation time and is appended; an existing one keeps its id; the other fields as given, updatedAt stamped |
| CommentServices.GetPost | src/main/java/faang/school/postservice/service/comment/CommentService.java:128-131 | the post with the id, or "Такого поста не существует" when there is none; a null id is rejected |
| CommentServices.OldestFirst | src/main/java/faang/school/postservice/service/comment/CommentService.java:96 | the comments sorted by creation time, a permutation of the input |
| CommentServices.ResponseDtos | src/main/java/faang/school/postservice/service/comment/CommentService.java:97 | one response per comment, in order |
| CommentServices.GetCommentsByPostId | src/main/java/faang/school/postservice/service/comment/CommentService.java:91-99 | a missing post or one without comments is rejected; otherwise one response per comment, oldest first |
| CommentServices.CommentsByPostIdArePermutation | src/main/java/faang/school/postservice/service/comment/CommentService.java:91-99 | the responses are those of the post's comments, each as often as it occurs |
| CommentServices.VerifiedIds | src/main/java/faang/school/postservice/service/comment/CommentService.java:110-113 | the ids of exactly the verified comments |
| CommentServices.GetCommentIdsByPostId | src/main/java/faang/school/postservice/service/comment/CommentService.java:101-114 | missing post and no comments rejected; nothing for an unpublished post; a null verified flag throws; otherwise the ids of exactly the verified comments |
| CommentServices.GetLatestCommentsByPostId | src/main/java/faang/school/postservice/service/comment/CommentService.java:182-199 | any failure or an unpublished post gives nothing; otherwise at most limit verified comments of the post, newest first |
| CommentServices.VerifiedFilterKeepsAll | src/main/java/faang/school/postservice/service/comment/CommentService.java:193 | the verified filter after the query removes nothing |
| CommentServices.CreateCommentCache | src/main/java/faang/school/postservice/service/cash/CommentCacheService.java:35-44 | the comment's id, author, content, post id and times copied |
| CommentServices.CommentCaches | src/main/java/faang/school/postservice/service/cash/CommentCacheService.java:27 | one cache entry per comment, in order |
| CommentServices.FetchLatestComments | src/main/java/faang/school/postservice/service/cash/CommentCacheService.java:23-33 | a duplicate-free set holding exactly the cache entries of the latest comments |
| CommentServices.FetchLatestCommentsKeepsOrder | src/main/java/faang/school/postservice/service/cash/CommentCacheService.java:23-33 | with distinct ids, the set is the entries of the latest comments in query order, none merged |
| CommentServices.LatestHasNoDuplicates | src/main/java/faang/school/postservice/service/comment/CommentService.java:190-194 | the latest comments are distinct rows |
| CommentServices.NewestCommentsNoDuplicates | src/main/java/faang/school/postservice/repository/CommentRepository.java:20-22 | the newest-first selection holds no row twice |
| CommentServices.ModeratedAsWritten | src/main/java/faang/school/postservice/service/comment/CommentService.java:173-175 | the verified flag is set to whether the text holds a curse word, and verifiedAt to now |
| CommentServices.ModerationAsWrittenIsInverted | src/main/java/faang/school/postservice/service/comment/CommentService.java:174 | a comment holding a listed word is marked verified |
| CommentServices.Moderated | src/main/java/faang/school/postservice/service/comment/CommentService.java:173-175 | verified iff the text holds no curse word, verifiedAt now, other fields kept |
| CommentServices.ModerationRejectsCurseWords | src/main/java/faang/school/postservice/service/comment/CommentService.java:174 | a comment holding a listed word is never verified |
| CommentServices.ModerateBatch | src/main/java/faang/school/postservice/service/comment/CommentService.java:171-180 | every comment of the batch moderated with the chosen verdict (the program's or the intended one) and saved, the others kept; a null text or an unbuilt dictionary leaves the table as it was |
| CommentServices.ModerateAll | src/main/java/faang/school/postservice/service/comment/CommentService.java:164-166 | the batches applied in turn with the chosen verdict, the table keeping its length |
| CommentServices.ModerateAllMarksBatched | src/main/java/faang/school/postservice/service/comment/CommentService.java:164-166 | for either verdict, batches of unchecked comments moderate exactly the comments they hold, each once |
| CommentServices.ModerationCoversUnchecked | src/main/java/faang/school/postservice/service/comment/CommentService.java:156-168 | for either verdict, every unchecked comment is moderated and every other row kept, whatever the batch size |
| CommentServices.CommentService.constructor | src/main/java/faang/school/postservice/service/comment/CommentService.java:38-47 | the service holds the comment and post tables and the dictionary |
| CommentServices.CommentService.AddComment | src/main/java/faang/school/postservice/service/comment/CommentService.java:49-81 | an absent author gives "Юзера с id %d не существует!", a missing post is rejected, both before any write; otherwise one comment stored under the current user, one event sent and a response without likes |
| CommentServices.CommentService.UpdateComment | src/main/java/faang/school/postservice/service/comment/CommentService.java:83-89 | an unknown id is "Комментарий не найден"; the update succeeds iff the validator allows it, and then only the content and updatedAt of that row change |
| CommentServices.CommentService.DeleteComment | src/main/java/faang/school/postservice/service/comment/CommentService.java:116-119 | an unknown id is "Такого комментария не существует" and nothing changes; otherwise exactly the rows with the id are removed |
| CommentServices.CommentService.VerifyComments | src/main/java/faang/school/postservice/service/comment/CommentService.java:155-168 | nothing to do without unchecked comments; a batch size below one is rejected; otherwise the table is the unchecked comments moderated batch by batch with the program's verdict (verified iff the text holds a curse word) |
| CommentValidation.ValideComment | src/main/java/faang/school/postservice/validator/comment/CommentValidator.java:13-31 | succeeds iff ids and post match, the new content is non-null and differs, and the author matches; the first failing check gives its message; null id, post or author throws |
| CommentValidation.IdCheckComesFirst | src/main/java/faang/school/postservice/validator/comment/CommentValidator.java:22-24 | a wrong id is reported as "Данные не верны" whatever else is wrong |
| CommentValidation.SameContentIsRejected | src/main/java/faang/school/postservice/validator/comment/CommentValidator.java:25-27 | resubmitting the stored content always fails |
| CommentValidation.ValidPostComments | src/main/java/faang/school/postservice/validator/comment/CommentValidator.java:33-37 | succeeds iff the post's comment list is non-null and non-empty, otherwise "У поста еще нет комментариев" |
| Moderation.WordPrefixLength | src/main/java/faang/school/postservice/config/moderation/ModerationDictionary.java:39-41 | the length of the run of word characters at the start, ended by a separator or the end |
| Moderation.WordRunsAreTheWords | src/main/java/faang/school/postservice/config/moderation/ModerationDictionary.java:39-41 | the runs are non-empty words and together they are exactly the text's word characters, in order |
| Moderation.SplitShape | src/main/java/faang/school/postservice/config/moderation/ModerationDictionary.java:39-41 | every piece but a leading empty one is a word; the words are the text's word characters; a text of separators only has no pieces |
| Moderation.SplitSentence | src/main/java/faang/school/postservice/config/moderation/ModerationDictionary.java:40 | "Hi, yo!" splits into "Hi" and "yo" |
| Moderation.SplitLeadingSeparator | src/main/java/faang/school/postservice/config/moderation/ModerationDictionary.java:40 | ",a" splits into "" and "a" |
| Moderation.SplitSeparatorsOnly | src/main/java/faang/school/postservice/config/moderation/ModerationDictionary.java:40 | "!!!" and a Cyrillic word split into nothing |
| Moderation.ToLower | src/main/java/faang/school/postservice/config/moderation/ModerationDictionary.java:32 | the same length, ASCII upper-case letters lowered and everything else kept |
| Moderation.BuildDictionary | src/main/java/faang/school/postservice/config/moderation/ModerationDictionary.java:29-33 | exactly the lower-cased pieces of the lines |
| Moderation.SplitOfWord | src/main/java/faang/school/postservice/config/moderation/ModerationDictionary.java:40 | a single word splits into itself |
| Moderation.DictionaryOfOneWord | src/main/java/faang/school/postservice/config/moderation/ModerationDictionary.java:29-33 | a one-word file gives that word, lower-cased |
| Moderation.DictionaryOfBad | src/main/java/faang/school/postservice/config/moderation/ModerationDictionary.java:29-33 | "bad" and "BAD" both give the dictionary {"bad"} |
| Moderation.UpperCaseSlipsThrough | src/main/java/faang/school/postservice/config/moderation/ModerationDictionary.java:43-45 | an upper-case entry still catches the lower-case word; an upper-case word in a comment is not caught |
| Moderation.BlankLineFlagsLeadingSeparator | src/main/java/faang/school/postservice/config/moderation/ModerationDictionary.java:29-45 | a blank line in the file flags every text that starts with a separator and has a word |
| Moderation.ModerationDictionary.constructor | src/main/java/faang/school/postservice/config/moderation/ModerationDictionary.java:19-25 | no dictionary before init |
| Moderation.ModerationDictionary.Init | src/main/java/faang/school/postservice/config/moderation/ModerationDictionary.java:27-37 | the dictionary is built from the lines; a read failure leaves it as it was |
| Moderation.ModerationDictionary.CheckCurseWordsInComment | src/main/java/faang/school/postservice/config/moderation/ModerationDictionary.java:43-45 | a null text or an unbuilt dictionary throws; otherwise true iff some piece of the text is in the dictionary |
| PostDtos.IsAuthorOrProjectIsExclusiveOr | src/main/java/faang/school/postservice/dto/post/PostDraftCreateDto.java:41-44 | the owner rule holds iff exactly one of author and project is present |
| PostDtos.Check | src/main/java/faang/school/postservice/dto/post/PostDraftCreateDto.java:22-36 | a constraint contributes its message iff it fails |
| PostDtos.Violations | src/main/java/faang/school/postservice/dto/post/PostDraftCreateDto.java:21-45 | no violation iff the content is non-blank and 1 to 4096 code points, the ids are positive or null, the id lists are null or non-empty with positive ids, and the owner rule holds; a null content is reported as blank |
| PostDtos.ValidDraftHasOnePositiveOwner | src/main/java/faang/school/postservice/dto/post/PostDraftCreateDto.java:21-45 | a valid draft names exactly one owner with a positive id, and its content has a non-blank character |
| PostDtos.WithFilesIgnoresContent | src/main/java/faang/school/postservice/dto/post/PostDraftWithFilesCreateDto.java:19-29 | the draft with files is judged by the owner rule alone, whatever its content |
| PostMapping.MapAlbumsToIds | src/main/java/faang/school/postservice/mapper/post/PostMapper.java:37-40 | a null list throws; otherwise the album ids one to one, in order |
| PostMapping.MapResourcesToIds | src/main/java/faang/school/postservice/mapper/post/PostMapper.java:42-45 | a null list throws; otherwise the resource ids one to one, in order |
| PostMapping.MapAlbumsToIdsAppend | src/main/java/faang/school/postservice/mapper/post/PostMapper.java:37-40 | mapping album ids distributes over concatenation |
| PostMapping.ConvertVisibility | src/main/java/faang/school/postservice/mapper/post/PostMapper.java:52-54 | PUBLIC iff the post is visible now |
| PostMapping.PublicMeansPublished | src/main/java/faang/school/postservice/mapper/post/PostMapper.java:52-54 | a post marked PUBLIC is published, not deleted, PUBLIC and not scheduled for later |
| PostMapping.ToDraftDtoFromPost | src/main/java/faang/school/postservice/mapper/post/PostMapper.java:29-31 | throws iff the album or resource list is null; otherwise the scalar fields copied and the lists mapped to ids |
| PostMapping.StoredPostsMap | src/main/java/faang/school/postservice/mapper/post/PostMapper.java:29-31 | every stored post, and every post after the persist hook, maps without failure |
| PostMapping.ToPostCache | src/main/java/faang/school/postservice/mapper/post/PostMapper.java:49-50 | id, author, project, content, both counters, the three timestamps, `verified` and `published` copied; visibility PUBLIC iff the post is visible at `now`; an empty comment set |
| PostModel.NewPost | src/main/java/faang/school/postservice/model/Post.java:36-113 | the builder's defaults: null references, false flags, PUBLIC visibility |
| PostModel.PrePersist | src/main/java/faang/school/postservice/model/Post.java:115-122 | every null collection becomes empty, everything else kept |
| PostModel.PrePersistInitialisesAndIsIdempotent | src/main/java/faang/school/postservice/model/Post.java:115-122 | afterwards no collection is null, a second run changes nothing, and a post without null collections is unchanged |
| PostModel.HiddenPostsAreNotVisible | src/main/java/faang/school/postservice/model/Post.java:124-128 | deleted, unpublished, non-PUBLIC or not-yet-due posts are not visible; due means strictly before now |
| PostModel.FeedEligibilityIgnoresLifecycle | src/main/java/faang/school/postservice/model/Post.java:130-132 | feed eligibility is the verified flag alone, whatever the publication and deletion state |
| PostValidation.ValidateDto | src/main/java/faang/school/postservice/validator/post/PostValidator.java:9-13 | succeeds iff the DTO is present, otherwise "User or project not found" |
| PostValidation.ValidatePost | src/main/java/faang/school/postservice/validator/post/PostValidator.java:15-22 | succeeds iff the post exists and has no publication time; each failure has its message with the id |
| PostValidation.ValidatePostMessagesNameThePost | src/main/java/faang/school/postservice/validator/post/PostValidator.java:15-22 | different ids give different messages |
| PostStore.OrderedSelection | src/main/java/faang/school/postservice/repository/PostRepository.java:30-48 | an ordered query returns exactly the matching rows, each as often as stored, newest first |
| PostStore.Take | src/main/java/faang/school/postservice/repository/PostRepository.java:60 | the first limit rows of the selection, or all of them when there are fewer |
| PostStore.FindByAuthorId | src/main/java/faang/school/postservice/repository/PostRepository.java:17 | exactly the author's posts, in table order |
| PostStore.FindByProjectId | src/main/java/faang/school/postservice/repository/PostRepository.java:19 | exactly the project's posts, in table order |
| PostStore.FindReadyToPublish | src/main/java/faang/school/postservice/repository/PostRepository.java:27-28 | exactly the unpublished, undeleted posts scheduled at or before now; unscheduled drafts never |
| PostStore.FindDraftsByAuthor | src/main/java/faang/school/postservice/repository/PostRepository.java:30-33 | exactly the author's unpublished, undeleted posts, newest first, each row as often as the table holds it (the same multiset) |
| PostStore.FindDraftsByProject | src/main/java/faang/school/postservice/repository/PostRepository.java:35-38 | exactly the project's unpublished, undeleted posts, newest first, each row as often as the table holds it (the same multiset) |
| PostStore.FindPublishedByAuthor | src/main/java/faang/school/postservice/repository/PostRepository.java:40-43 | exactly the author's published, undeleted posts, newest first, each row as often as the table holds it (the same multiset) |
| PostStore.FindPublishedByProject | src/main/java/faang/school/postservice/repository/PostRepository.java:45-48 | exactly the project's published, undeleted posts, newest first, each row as often as the table holds it (the same multiset) |
| PostStore.DraftsAndPublishedAreDisjoint | src/main/java/faang/school/postservice/repository/PostRepository.java:30-43 | no post is both among an author's drafts and among their published posts |
| PostStore.FindByNotPublished | src/main/java/faang/school/postservice/repository/PostRepository.java:50-52 | exactly the unpublished posts, deleted ones included |
| PostStore.FindByNotVerified | src/main/java/faang/school/postservice/repository/PostRepository.java:54-56 | exactly the unverified posts |
| PostStore.FindLatestPostsForUser | src/main/java/faang/school/postservice/repository/PostRepository.java:58-60 | at most limit posts, all by the user; a null user matches nothing |
| PostStore.LatestPostsShape | src/main/java/faang/school/postservice/repository/PostRepository.java:58-60 | the page holds only the user's posts, newest first, and nothing for a null user |
| PostStore.LatestPostsAreTheNewest | src/main/java/faang/school/postservice/repository/PostRepository.java:58-60 | a post of the user left out of the page is no newer than any post in it |
| PostStore.FindRecentPublishedWithAuthor | src/main/java/faang/school/postservice/repository/PostRepository.java:74 | exactly the published posts with an author created after the cutoff |
| PostStore.FindRecentPublishedWithProject | src/main/java/faang/school/postservice/repository/PostRepository.java:76 | exactly the published posts with a project created after the cutoff |
| PostStore.IncrementLikes | src/main/java/faang/school/postservice/repository/PostRepository.java:62-64 | the matching row's like count becomes its old value (null read as 0) plus one; every other column and row kept |
| PostStore.DecrementLikes | src/main/java/faang/school/postservice/repository/PostRepository.java:66-68 | the matching row's like count drops by one, a null count stays null; everything else kept |
| PostStore.IncrementComments | src/main/java/faang/school/postservice/repository/PostRepository.java:70-72 | the matching row's comment count becomes its old value (null read as 0) plus one; everything else kept |
| PostStore.DecrementUndoesIncrement | src/main/java/faang/school/postservice/repository/PostRepository.java:62-68 | an unlike after a like restores every row, except that a null count ends as 0 |
| PostStore.DecrementCanGoNegative | src/main/java/faang/school/postservice/repository/PostRepository.java:66-68 | a count of 0 decremented is stored as -1 |
| PostStore.RowWithId | src/main/java/faang/school/postservice/repository/PostRepository.java:15 | a row with the id is found iff the table has one |
| PostStore.PostRepository.constructor | src/main/java/faang/school/postservice/repository/PostRepository.java:15 | an empty table |
| PostStore.PostRepository.FindById | src/main/java/faang/school/postservice/repository/PostRepository.java:15 | a null id is rejected; otherwise the row with the id, present iff one exists |
| PostStore.PostRepository.ExistsById | src/main/java/faang/school/postservice/repository/PostRepository.java:15 | true iff a row has the id |
| PostStore.PostRepository.Save | src/main/java/faang/school/postservice/repository/PostRepository.java:15 | the persist hook runs and updatedAt is stamped; a new post gets the next id and its creation time and is appended, an existing one is replaced in place |
| PostStore.PostRepository.IncrementLikesCount | src/main/java/faang/school/postservice/repository/PostRepository.java:62-64 | the table becomes IncrementLikes of the old one |
| PostStore.PostRepository.DecrementLikesCount | src/main/java/faang/school/postservice/repository/PostRepository.java:66-68 | the table becomes DecrementLikes of the old one |
| PostStore.PostRepository.IncrementCommentsCount | src/main/java/faang/school/postservice/repository/PostRepository.java:70-72 | the table becomes IncrementComments of the old one |
| PostServices.GetPostById | src/main/java/faang/school/postservice/service/post/PostService.java:220-222 | the stored post with the id, present iff one exists, otherwise "Post not found" |
| PostServices.FindPostById | src/main/java/faang/school/postservice/service/post/PostService.java:137-141 | a null id fails the id validator; otherwise the post with the id, present iff one exists, otherwise an EntityNotFoundException "Comment not found" |
| PostServices.ExistsPost | src/main/java/faang/school/postservice/service/post/PostService.java:147-150 | a null id fails the id validator; otherwise true iff a post has the id |
| PostServices.LookupsAgree | src/main/java/faang/school/postservice/service/post/PostService.java:137-150 | the three lookups agree on which posts exist and return the same post |
| PostServices.Published | src/main/java/faang/school/postservice/service/post/PostService.java:99-104 | a published post is refused with "Post is already published"; otherwise it becomes published at now, nothing else changed |
| PostServices.PublishIsOnce | src/main/java/faang/school/postservice/service/post/PostService.java:100-102 | publishing a published post again is refused |
| PostServices.PublishMakesVisible | src/main/java/faang/school/postservice/service/post/PostService.java:98-106 | publishing makes an undeleted, unscheduled PUBLIC post visible and leaves feed eligibility alone |
| PostServices.WithContent | src/main/java/faang/school/postservice/service/post/PostService.java:110 | only the content changes |
| PostServices.ContentUpdateKeepsLifecycle | src/main/java/faang/school/postservice/service/post/PostService.java:108-112 | a content update keeps visibility and feed eligibility, and repeating it changes nothing |
| PostServices.SoftDeleted | src/main/java/faang/school/postservice/service/post/PostService.java:133 | only the deleted flag is set |
| PostServices.DeletedPostIsHidden | src/main/java/faang/school/postservice/service/post/PostService.java:131-135 | a deleted post is never visible, and deleting twice is deleting once |
| PostServices.FoundRowIsTheRow | src/main/java/faang/school/postservice/service/post/PostService.java:220-222 | in a table with unique ids, the lookup returns the row with the id |
| PostServices.CountOfPresentAuthor | src/main/java/faang/school/postservice/service/post/PostService.java:213 | an author with a post has a count of at least one |
| PostServices.Authors | src/main/java/faang/school/postservice/service/post/PostService.java:213 | exactly the author ids the posts carry |
| PostServices.BannedUsersAsWritten | src/main/java/faang/school/postservice/service/post/PostService.java:210-218 | throws iff some post has no author; otherwise the authors with at least the threshold of posts |
| PostServices.ProjectPostStopsBanCheck | src/main/java/faang/school/postservice/service/post/PostService.java:213 | one project post among the unverified posts makes the whole ban check throw |
| PostServices.BannedUsers | src/main/java/faang/school/postservice/service/post/PostService.java:210-218 | only authors with at least the threshold (and at least one) posts |
| PostServices.BannedUsersAreExactlyTheHeavyAuthors | src/main/java/faang/school/postservice/service/post/PostService.java:210-218 | an author is banned iff their count reaches the threshold; where the written version succeeds, it gives the same set |
| PostServices.BanMessage | src/main/java/faang/school/postservice/service/post/PostService.java:191-203 | no message when nobody is banned; otherwise a non-empty set, and an author is in it iff their unverified posts number at least the threshold (and at least one); posts without an author are not counted |
| PostServices.BanMessageAsWritten | src/main/java/faang/school/postservice/service/post/PostService.java:191-203 | throws a NullPointerException iff some unverified post has no author; otherwise the same message as BanMessage |
| PostServices.AllVerifiedMeansNoBan | src/main/java/faang/school/postservice/service/post/PostService.java:191-198 | when every post is verified no message is sent |
| PostServices.ValidateUserOrProject | src/main/java/faang/school/postservice/service/post/PostService.java:224-231 | a present user must be found, then a present project; the first failure decides, and absent ids are not checked |
| PostServices.AuthorDraftSkipsProjects | src/main/java/faang/school/postservice/service/post/PostService.java:228-230 | without a project id the project service is never consulted |
| PostServices.Folder | src/main/java/faang/school/postservice/service/post/PostService.java:235 | the folder starts with the author id, or "null", followed by ":files:" |
| PostServices.AuthorFolder | src/main/java/faang/school/postservice/service/post/PostService.java:235 | a user's post without a project stores under "<userId>:files:null" |
| PostServices.UploadAndAddFiles | src/main/java/faang/school/postservice/service/post/PostService.java:233-243 | the stored resources are kept and one resource per file is appended in order, under a fresh key in the folder, and each file is uploaded under that key |
| PostServices.UploadedKeysLieInFolder | src/main/java/faang/school/postservice/service/post/PostService.java:237 | every key lies in the post's folder |
| PostServices.Irrelevant | src/main/java/faang/school/postservice/service/post/PostService.java:246-247 | exactly the stored resources that the new list does not contain |
| PostServices.RemoveIrrelevantResources | src/main/java/faang/school/postservice/service/post/PostService.java:245-251 | the keys deleted are those of the irrelevant resources, in order |
| PostServices.RemovalDeletesExactlyTheDropped | src/main/java/faang/school/postservice/service/post/PostService.java:245-251 | every dropped resource's key is deleted, and keeping every resource deletes nothing |
| PostServices.PostService.constructor | src/main/java/faang/school/postservice/service/post/PostService.java:48-63 | the service holds the post table |
| PostServices.PostService.PublishPost | src/main/java/faang/school/postservice/service/post/PostService.java:98-106 | a missing or already published post is refused and nothing is saved; otherwise the stored row becomes the published post, stamped by the save |
| PostServices.PostService.UpdatePost | src/main/java/faang/school/postservice/service/post/PostService.java:108-112 | a missing post is refused; otherwise only the content of the stored row changes |
| PostServices.PostService.DeletePost | src/main/java/faang/school/postservice/service/post/PostService.java:131-135 | a missing post is refused; otherwise the stored row is marked deleted and the table keeps its size |
| PostServices.PostService.Resave | src/main/java/faang/school/postservice/service/post/PostService.java:105 | the saved copy replaces the stored row, keeping its id and creation time |
| PostServices.PostService.CheckingPostForErrors | src/main/java/faang/school/postservice/service/post/PostService.java:176-188 | the unpublished posts go to the corrector in consecutive batches of five; the table ends as the run over those batches leaves it, and the call throws iff a batch failed, with that batch's exception |
| PostServices.PostService.CheckingGroupPost | src/main/java/faang/school/postservice/service/post/PostService.java:205-208 | a batch the corrector fails on throws its exception and saves nothing; otherwise the corrected copies are saved in order |
| PostServices.CorrectedPost | src/main/java/faang/school/postservice/sheduler/postcorrector/ginger/GingerCorrector.java:23-36 | throws iff the post has no text (NullPointerException) or the grammar service fails on it; otherwise the same post with the service's answer as its text |
| PostServices.CorrectedBatch | src/main/java/faang/school/postservice/sheduler/postcorrector/ginger/GingerCorrector.java:21-39 | succeeds iff every post corrects, giving the corrected copies position by position; otherwise throws the exception of the first post that fails |
| PostServices.Correct | src/main/java/faang/school/postservice/sheduler/postcorrector/ginger/GingerCorrector.java:21-39 | the corrector's loop gives exactly CorrectedBatch |
| PostServices.SavedAllKeepsKeys | src/main/java/faang/school/postservice/service/post/PostService.java:207 | saveAll keeps every row's id and creation time |
| PostServices.RunKeepsKeys | src/main/java/faang/school/postservice/service/post/PostService.java:176-188 | a run of the corrector keeps every row's id and creation time |
| PostServices.FailureIsFinal | src/main/java/faang/school/postservice/service/post/PostService.java:182-187 | after a batch has thrown, later batches change nothing |
| PostServices.SavedAllFixes | src/main/java/faang/school/postservice/service/post/PostService.java:205-208 | saving a batch's corrected copies turns exactly the batch's rows into their corrected rows, every other row kept |
| PostServices.CorrectorFixesUnpublished | src/main/java/faang/school/postservice/service/post/PostService.java:176-208 | when every unpublished post has text the service corrects, the run does not fail, every unpublished row gets the corrected text and a new update time, and every published row stays as it was |
| PostServices.CorrectorBatchesCoverUnpublished | src/main/java/faang/school/postservice/service/post/PostService.java:180-187 | the batches cover every unpublished post once, in order; none is empty or holds more than five; there are ceil(n / 5) of them |
| LikeServices.UserDtoExists | src/main/java/faang/school/postservice/service/like/LikeService.java:109-113 | succeeds iff the user id is present and the user service finds the user; a null id throws on unboxing, an absent user is "User not found" |
| LikeServices.FindCommentById | src/main/java/faang/school/postservice/service/comment/CommentService.java:144-148 | a null id fails the id validator; otherwise the comment with the id, present iff one exists, otherwise an EntityNotFoundException "Post not found" |
| LikeServices.IsExits | src/main/java/faang/school/postservice/service/comment/CommentService.java:150-153 | a null id fails the id validator; otherwise true iff a comment has the id |
| LikeServices.PostLike | src/main/java/faang/school/postservice/service/like/LikeService.java:40-60 | the user check, then the post lookup, then the earlier like decide in that order; the like is refused iff the user already likes the post, and the new like names the user and the post |
| LikeServices.CommentLike | src/main/java/faang/school/postservice/service/like/LikeService.java:81-99 | the user check, then the comment lookup, then the earlier like decide in that order; the like is refused iff the user already likes the comment, and the new like names the user and the comment |
| LikeServices.WithoutPostLike | src/main/java/faang/school/postservice/service/like/LikeService.java:77-78 | exactly the user's likes of the post are gone, every other row kept |
| LikeServices.WithoutCommentLike | src/main/java/faang/school/postservice/service/like/LikeService.java:106 | exactly the user's likes of the comment are gone, every other row kept |
| LikeServices.SecondPostLikeIsRefused | src/main/java/faang/school/postservice/service/like/LikeService.java:45-48 | a post like just given is refused the second time |
| LikeServices.SecondCommentLikeIsRefused | src/main/java/faang/school/postservice/service/like/LikeService.java:86-89 | a comment like just given is refused the second time |
| LikeServices.UnlikeUndoesLike | src/main/java/faang/school/postservice/service/like/LikeService.java:40-79 | unliking a post right after liking it restores the table |
| LikeServices.LikeRepository.constructor | src/main/java/faang/school/postservice/service/like/LikeService.java:31 | an empty table |
| LikeServices.LikeRepository.Insert | src/main/java/faang/school/postservice/service/like/LikeService.java:55 | the like is appended, and no user likes the same post or comment twice |
| LikeServices.LikeRepository.DeleteByPostIdAndUserId | src/main/java/faang/school/postservice/service/like/LikeService.java:77-78 | the table becomes WithoutPostLike of the old one |
| LikeServices.LikeRepository.DeleteByCommentIdAndUserId | src/main/java/faang/school/postservice/service/like/LikeService.java:106 | the table becomes WithoutCommentLike of the old one |
| LikeServices.LikeService.constructor | src/main/java/faang/school/postservice/service/like/LikeService.java:30-38 | the service holds the like, post and comment tables |
| LikeServices.LikeService.AddLikeByPost | src/main/java/faang/school/postservice/service/like/LikeService.java:40-70 | the outcome is PostLike; a refusal saves nothing and sends nothing; a like is appended and one event names the post's author, the liker and the time |
| LikeServices.LikeService.DeleteLikeFromPost | src/main/java/faang/school/postservice/service/like/LikeService.java:72-79 | a null id fails the id validator; a missing post is "Post not found" and nothing changes; otherwise the user's likes of the post are removed |
| LikeServices.LikeService.AddLikeByComment | src/main/java/faang/school/postservice/service/like/LikeService.java:81-99 | the outcome is CommentLike; a refusal saves nothing; a like is appended |
| LikeServices.LikeService.DeleteLikeFromComment | src/main/java/faang/school/postservice/service/like/LikeService.java:101-107 | a null id fails the id validator; a missing comment is "Comment not found" and nothing changes; otherwise the user's likes of the comment are removed |
| FileChecks.TypesAreExclusive | src/main/java/faang/school/postservice/validator/file/FileValidation.java:66-76 | no content type is of two of the image, video and audio kinds at once |
| FileChecks.ContentIsImage | src/main/java/faang/school/postservice/validator/file/FileValidation.java:26-30 | a null file or a null content type throws; otherwise true iff the type starts with "image/" |
| FileChecks.FileFault | src/main/java/faang/school/postservice/validator/file/FileValidation.java:44-63 | a null file throws, a null type is "File is empty", and a file over the limit of its own kind is "File too large" |
| FileChecks.FirstFault | src/main/java/faang/school/postservice/validator/file/FileValidation.java:44-63 | the first fault in array order, which is a null dereference or a file error |
| FileChecks.FirstFaultIsFirst | src/main/java/faang/school/postservice/validator/file/FileValidation.java:44-63 | the reported fault belongs to some file and no earlier file has one; no fault iff every file passes |
| FileChecks.CheckFiles | src/main/java/faang/school/postservice/validator/file/FileValidation.java:39-64 | the count check first, then the files in order until the first one that fails |
| FileChecks.CheckFilesAcceptsExactly | src/main/java/faang/school/postservice/validator/file/FileValidation.java:39-64 | accepts iff the count check passes and every file passes; too many files is "Error processing file", ahead of any file error |
| FileChecks.SizeLimitIsInclusive | src/main/java/faang/school/postservice/validator/file/FileValidation.java:49-51 | an image exactly at its limit passes, one byte more fails |
| FileChecks.OtherTypesPass | src/main/java/faang/school/postservice/validator/file/FileValidation.java:48-58 | a file of no checked kind passes at any size |
| FileChecks.CheckingTotalOfFilesAsWritten | src/main/java/faang/school/postservice/validator/file/FileValidation.java:32-37 | fails iff the file count exceeds the image size limit in bytes |
| FileChecks.TotalOfFilesAsWrittenIgnoresCount | src/main/java/faang/school/postservice/validator/file/FileValidation.java:32-37 | the written check accepts a total iff it is at most the image size limit: with the limits as injected, only no files at all, so one file the count limit allows is refused; with the documented limits, eleven files pass the written check and fail the intended one |
| FileChecks.CheckingTotalOfFiles | src/main/java/faang/school/postservice/validator/file/FileValidation.java:32-37 | fails with "Incorrect number of files" iff the files and stored resources exceed the file-count limit |
| FileChecks.AsInjected | src/main/java/faang/school/postservice/validator/file/FileValidation.java:14-24 | the count limit is configured; the static size limits stay 0 |
| FileChecks.InjectedLimitsRejectEveryImage | src/main/java/faang/school/postservice/validator/file/FileValidation.java:14-21 | with the limits as injected, every non-empty image is "File too large" |
| FileChecks.ConfiguredLimitsAcceptSmallImage | src/main/java/faang/school/postservice/validator/file/FileValidation.java:14-24 | with the configured limits, an image within its limit is accepted |
| ImageProcessing.SquareIsHorizontal | src/main/java/faang/school/postservice/service/amazons3/processing/ImageProcessingService.java:54-56 | vertical means strictly taller than wide, so a square is horizontal |
| ImageProcessing.BoundsFor | src/main/java/faang/school/postservice/service/amazons3/processing/ImageProcessingService.java:39-47 | the vertical bounds for a vertical image, the horizontal bounds for every other one |
| ImageProcessing.Adjusted | src/main/java/faang/school/postservice/service/amazons3/processing/ImageProcessingService.java:37-47 | resized to its bounds iff it exceeds them in width or height, otherwise unchanged |
| ImageProcessing.OptimizeImage | src/main/java/faang/school/postservice/service/amazons3/processing/ImageProcessingService.java:30-52 | an undecodable input is "File is empty"; otherwise the adjusted image, encoded |
| ImageProcessing.WithinBoundsIsNotResized | src/main/java/faang/school/postservice/service/amazons3/processing/ImageProcessingService.java:39-47 | an image within its bounds is encoded as decoded, whatever the resizer does |
| ImageProcessing.OrientationPicksBounds | src/main/java/faang/school/postservice/service/amazons3/processing/ImageProcessingService.java:39-47 | a too-tall vertical image gets the vertical bounds; a too-wide square gets the horizontal bounds |
| ImageProcessing.ToByteArray | src/main/java/faang/school/postservice/service/amazons3/processing/ImageProcessingService.java:65-73 | the result is every chunk read, appended in order |
| ImageProcessing.ChunksInReadOrder | src/main/java/faang/school/postservice/service/amazons3/processing/ImageProcessingService.java:69-71 | each chunk sits right after the bytes of the chunks read before it |
| RedisStartup.IsRedisConnected | src/main/java/faang/school/postservice/service/cash/RedisStartupListener.java:61-71 | connected iff the ping does not throw |
| RedisStartup.IsRedisCacheEmpty | src/main/java/faang/school/postservice/service/cash/RedisStartupListener.java:73-82 | empty iff the size is present and 0; a null size or a failure reads as not empty |
| RedisStartup.RunFromShape | src/main/java/faang/school/postservice/service/cash/RedisStartupListener.java:34-59 | every attempt before the last one failed to connect and slept; at most three checks; a warm-up only when the last attempt connected to an empty cache; an interrupt only after a failed connection |
| RedisStartup.StartupBounds | src/main/java/faang/school/postservice/service/cash/RedisStartupListener.java:34-59 | one to three checks, and a warm-up only after an attempt that connected and read size 0 |
| RedisStartup.ConnectedNonEmptyCacheIsLeftAlone | src/main/java/faang/school/postservice/service/cash/RedisStartupListener.java:42-48 | connected at once to a non-empty cache: one check, no warm-up |
| RedisStartup.NeverConnectedNeverWarms | src/main/java/faang/school/postservice/service/cash/RedisStartupListener.java:34-59 | never connected: no warm-up, and either all three checks or an interrupt |
| RedisStartup.CacheWarmer.constructor | src/main/java/faang/school/postservice/service/cash/RedisStartupListener.java:18 | no warm-ups yet |
| RedisStartup.CacheWarmer.WarmUpCache | src/main/java/faang/school/postservice/service/cash/RedisStartupListener.java:44 | one warm-up more |
| RedisStartup.CheckRedisAndWarmUp | src/main/java/faang/school/postservice/service/cash/RedisStartupListener.java:34-59 | the run is StartupRun, and the warmer is asked once iff the run warms up |
| Seqs.PartitionFlattens | src/main/java/faang/school/postservice/service/comment/CommentService.java:163 | the batches of ListUtils.partition, laid end to end, are the input |
| Seqs.PartitionSizes | src/main/java/faang/school/postservice/service/comment/CommentService.java:163 | no batch is empty; every batch but the last holds exactly the batch size, the last at most that |
| Seqs.PartitionCount | src/main/java/faang/school/postservice/service/comment/CommentService.java:163 | there are ceil(n / size) batches |
| Seqs.SortBySorts | src/main/java/faang/school/postservice/service/comment/CommentService.java:95-96 | the stable sort yields an ordered permutation of its input |
| Text.LongToString | src/main/java/faang/school/postservice/service/feed/UserFeedZSetService.java:26 | Long.toString: a non-empty decimal text |
| Text.ParseLong | src/main/java/faang/school/postservice/service/feed/UserFeedZSetService.java:56-64 | Long.parseLong over ASCII digits: a parsed value lies in the 64-bit range, and a text that starts with neither a sign nor an ASCII digit never parses |
| Text.ParseLongRoundTrip | src/main/java/faang/school/postservice/service/feed/UserFeedZSetService.java:50-53 | every 64-bit id written as text parses back to itself |
| Text.LongToStringInjective | src/main/java/faang/school/postservice/service/feed/UserFeedZSetService.java:26 | different 64-bit ids are written as different texts |

## Left out

- Kafka, Redis, S3, Feign, HTTP and the web layer are not modelled. Sends, acknowledgements and store calls appear as values the operations return, or as the tables and maps they change.
- `LocalDateTime.now()` is a parameter. The Redis score, a `double`, is taken as integer epoch seconds.
- The `@Async` executors, `CompletableFuture`, `CacheWarmerService`, the schedulers that only trigger modelled operations, and the retry sleep's delay are not modelled. Concurrency is outside a sequential model.
- CommentServices.CommentService.VerifyComments: the asynchronous moderation tasks are taken to have finished when the call returns, in batch order. A failing task, whose exception the caller never sees, leaves its batch unchanged.
- Text.ParseLong: accepts ASCII digits only. `Long.parseLong` reads digits through `Character.digit`, so other Unicode decimal digits ("٣", "１２") also parse there. The feed stores only `Long.toString` output, which is ASCII, so a feed written by the service never holds such a member.
- PostDtos.Violations: the 1..4096 content bound counts code points. `@Size` counts UTF-16 units, so a text with characters outside the Basic Multilingual Plane can pass the model's bound and fail validation.
- PostServices.PostService.UpdatePost: its content-length requires counts code points, not the UTF-16 units `@Size` counts (as for PostDtos.Violations).
- PostServices.PostService.PublishPost, PostServices.PostService.UpdatePost, PostServices.PostService.DeletePost: the `@Positive` id and `@NotNull @Valid` DTO constraints of the `@Validated` service are preconditions. Every caller in the source is the `@Validated` controller with the same constraints, so the `ConstraintViolationException` path is not modelled.
- PostServices.BanMessage: counts only the unverified posts that have an author. The program throws instead when one has none; that is PostServices.BanMessageAsWritten.
- AlbumFilters.Apply: the created-at bounds are taken already parsed. A malformed bound, which `LocalDateTime.parse` rejects with a `DateTimeParseException`, is not modelled.
- PostServices.CorrectedPost: the grammar service is the oracle `answer`, the reply to a text or the exception the call throws (`IOException`, `InterruptedException`). The request's URL and headers are not modelled.
- PostServices.PostService.CheckingPostForErrors: the corrector edits the loaded `Post` objects in place. A batch that fails part-way leaves its earlier posts changed in memory only; the model keeps the table, which nothing saved.
- The Jackson serialisation of ban messages, analytics events and album favourites is not modelled. Favourites are a list of ids, and the event or message is returned as a value.
- RedisStartup.CacheWarmer.WarmUpCache: only counts warm-ups. What the warmer loads is not modelled, and neither is a warm-up failure, which `checkRedisAndWarmUp` would catch and log.
- `ImageIO.read`, Thumbnailator's resize and the JPEG encoder are oracle parameters of ImageProcessing.OptimizeImage. A stream's `read` is given as its sequence of chunks.
- KeyKeeper's random keys are a fresh-name oracle. A database identity value is a parameter that no stored row uses.
- `Resource.java`, `Album.java`, `Comment.java`, `LikeType`, `LikeRepository` and the album filter DTO are not part of this model. Their fields are inferred from how the modelled code uses them.
- AlbumFilters.AuthorFilterKeepsAuthor: the author filter's `==` on ids is taken as value equality. It would compare references if both sides were boxed `Long`s.
- The PostRepository queries `findByProjectIdWithLikes` and `findByAuthorIdWithLikes` (PostRepository.java:21-25) select the same rows as `findByProjectId` and `findByAuthorId`. Their fetch join only loads the likes, which a model value carries anyway.
- Spring Data's built-in `findById`, `existsById`, `save`, `deleteById` and `saveAll` are modelled by what they do to the table. In the `@Query` and native queries with `= :param` (PostStore.FindLatestPostsForUser, CommentStore.FindLatestByPostId), a null parameter matches no row; a null argument of a derived query would become `IS NULL`, and the model's derived queries are not given null ids.
- `createDraftPost`, `createDraftPostWithFiles`, `updatePostWithFiles` and the four list getters of `PostService` are not modelled as operations. What they do is modelled through their parts: the owner and Bean Validation checks (PostServices.ValidateUserOrProject, PostDtos.Violations), the file checks (FileChecks), the upload and resource diff (PostServices.UploadAndAddFiles, PostServices.RemoveIrrelevantResources), the saves (PostStore.PostRepository.Save) and the mapping (PostMapping.ToDraftDtoFromPost).
- `FileValidator`, which `PostService` calls, is not part of this model. `FileValidation` is modelled on its own.
- `UserDtoValidator`, `ProjectDtoValidator`, `PostIdValidator` and `CommentIdValidator` are folded into their callers as the error they raise.
- `AlbumServiceImpl.getAlbumsByIds`, `addAlbumToFavorites`, `removeAlbumFromFavorites`, `getUserFavoriteAlbumsWithFilters` and `getFavoriteAlbumsByUserId` are not modelled. They are single repository calls whose native queries are not part of this model.
- The MapStruct-generated mappings are taken field by field: `toDto`, `toEntity*`, `toDtoFromPost`, and `postCacheToPostDTO`. The exception is `CommentMapper.toEntity`, whose `id` and `createdAt` are dropped in AddComment (next line).
- CommentServices.CommentService.AddComment: always inserts a new comment. `toEntity` copies the DTO's primitive `id` and its `createdAt`, so a DTO with a non-zero id makes `save` merge into that row. What the merge does depends on `Comment.java`'s id and timestamp mappings, which are not part of this model.
- LikeServices.LikeService.AddLikeByPost and LikeServices.LikeService.AddLikeByComment: return the saved `Like` rather than the mapped `ResponseLikeDto`.
- Java `long` and `int` overflow is not modelled. Ids and counters are unbounded integers, apart from the 64-bit range that `Long.parseLong` checks.
- `Post.isVisible` reads the clock itself; here "now" is an argument.
- `PostService.findPostById` reports a missing post as "Comment not found", and `CommentService.findCommentById` reports a missing comment as "Post not found". Both messages are modelled as written.

## Findings

The service classes do what the program does: they use the as-written members. Each corrected member stands beside them, with the intended property proved about it.

| source | as written | input that shows it | evidently intended | confidence | as-written member | corrected member |
|---|---|---|---|---|---|---|
| src/main/java/faang/school/postservice/service/post/PostService.java:210-218 | `groupingBy(Post::getAuthorId)` throws a NullPointerException on a post without an author, so the ban check fails as a whole | unverified posts: two by user 1 and one by a project, threshold 1 | count only the posts that have an author and ban every author at or over the threshold | not executed | PostServices.ProjectPostStopsBanCheck | PostServices.BannedUsersAreExactlyTheHeavyAuthors |
| src/main/java/faang/school/postservice/validator/file/FileValidation.java:32-37 | the number of files is compared with `maxImageSize`, a size in bytes, which as injected is 0. The defect is latent: the only caller of `FileValidation` uses `contentIsImage` alone (Amazons3ServiceImpl.java:42), and `PostService` checks files through `FileValidator` | one new file and no stored resources, the limits as injected and a limit of 10 files | compare with `maxCountFiles` | not executed | FileChecks.TotalOfFilesAsWrittenIgnoresCount | FileChecks.CheckingTotalOfFiles |
| src/main/java/faang/school/postservice/validator/file/FileValidation.java:14-21 | `@Value` on `static` fields is never injected, so the three size limits stay 0. The defect is latent: `contentIsImage`, the only method called, does not read them | one `image/png` file of 1 byte | the configured limits apply | not executed | FileChecks.InjectedLimitsRejectEveryImage | FileChecks.ConfiguredLimitsAcceptSmallImage |
| src/main/java/faang/school/postservice/service/album/AlbumServiceImpl.java:66 | the title check counts the album being edited, so keeping its title is refused | the owner changes only the description of album "Trip" | reject only a title used by another album of the author | not executed | AlbumServices.UpdateAsWrittenRejectsOwnTitle | AlbumServices.UpdatedAlbumKeepsTitlesUnique |
| src/main/java/faang/school/postservice/service/album/AlbumServiceImpl.java:64-65 | `update` authorises the author id the request names, not the stored album's author | user 2 sends album 7 of user 1 with author id 2 | the caller must be the stored album's author | not executed | AlbumServices.UpdateAsWrittenLetsStrangerEdit | AlbumServices.UpdatedAlbum |
| src/main/java/faang/school/postservice/service/album/AlbumServiceImpl.java:80 | `remove` authorises the author id the request names, not the stored album's author | user 2 sends album 7 of user 1 with author id 2 | the caller must be the stored album's author | not executed | AlbumServices.RemoveAsWrittenLetsStrangerDelete | AlbumServices.RemovedAlbum |
| src/main/java/faang/school/postservice/service/comment/CommentService.java:174 | `verified` is set to "the text contains a curse word", so offensive comments are shown and clean ones hidden | a comment "so bad" with "bad" in the dictionary | verified iff the text holds no curse word | not executed | CommentServices.ModerationAsWrittenIsInverted | CommentServices.ModerationRejectsCurseWords |
