/** `CommentService` and `CommentCacheService`: reading, writing and moderating
    comments. The reads are functions over the post and comment tables; the writes
    are methods of the service, which changes the comment table. */
module CommentServices {
  import opened Base
  import opened Seqs
  import opened Text
  import opened PostModel
  import opened PostStore
  import opened CacheModel
  import opened Events
  import opened CommentStore
  import opened CommentMapping
  import opened CommentValidation
  import opened Moderation

  const POST_MISSING := "Такого поста не существует"
  const COMMENT_MISSING := "Комментарий не найден"
  const COMMENT_ABSENT := "Такого комментария не существует"
  const PARTITION_SIZE_INVALID := "Size must be greater than 0"

  function UserMissing(userId: int): string
  {
    "Юзера с id " + LongToString(userId) + " не существует!"
  }

  /** `getPost`: a null id fails the repository call; an unknown id is an
      EntityNotFoundException. */
  function GetPost(rows: seq<Post>, postId: Option<int>): (r: Outcome<Post>)
    ensures postId.None? ==> r.Thrown? && r.exception.IllegalArgument?
    ensures postId.Some? ==> (r.Ok? <==> exists i :: 0 <= i < |rows| && rows[i].id == postId)
    ensures postId.Some? && r.Thrown? ==> r.exception == EntityNotFound(POST_MISSING)
    ensures r.Ok? ==> r.value in rows && r.value.id == postId
  {
    if postId.None? then Thrown(IllegalArgument("The given id must not be null"))
    else
      match RowWithId(rows, postId.value)
      case None => Thrown(EntityNotFound(POST_MISSING))
      case Some(p) => Ok(p)
  }

  // ---------------------------------------------------------------------------
  // Reads
  // ---------------------------------------------------------------------------

  function CreatedAtKey(c: Comment): int
  {
    c.createdAt
  }

  /** The comments oldest first; comments created at the same time keep their
      order. */
  function OldestFirst(comments: seq<Comment>): (r: seq<Comment>)
    ensures SortedBy(r, CreatedAtKey)
    ensures multiset(r) == multiset(comments)
  {
    SortBySorts(comments, CreatedAtKey);
    SortBy(comments, CreatedAtKey)
  }

  function ResponseDtos(comments: seq<Comment>): (r: seq<ResponseCommentDto>)
    ensures |r| == |comments|
    ensures forall i :: 0 <= i < |r| ==> r[i] == ToResponseDto(comments[i])
  {
    Map(comments, ToResponseDto)
  }

  /** `getCommentsByPostId`: one response per comment of the post, oldest first. A
      missing post, or a post without comments, is rejected. */
  function GetCommentsByPostId(rows: seq<Post>, postId: Option<int>): (r: Outcome<seq<ResponseCommentDto>>)
    ensures GetPost(rows, postId).Thrown? ==> r == Thrown(GetPost(rows, postId).exception)
    ensures GetPost(rows, postId).Ok? ==>
              var comments := GetPost(rows, postId).value.comments;
              (r.Thrown? <==> comments.None? || comments.value == [])
              && (r.Thrown? ==> r.exception == PostFailure(NO_COMMENTS))
              && (r.Ok? ==> |r.value| == |comments.value|
                            && (forall i, j :: 0 <= i < j < |r.value| ==> r.value[i].createdAt <= r.value[j].createdAt)
                            && r.value == ResponseDtos(OldestFirst(comments.value)))
  {
    var post :- GetPost(rows, postId);
    var _ :- ValidPostComments(post);
    var sorted := OldestFirst(post.comments.value);
    assert |sorted| == |multiset(sorted)|;
    assert forall i, j :: 0 <= i < j < |sorted| ==> CreatedAtKey(sorted[i]) <= CreatedAtKey(sorted[j]);
    Ok(ResponseDtos(sorted))
  }

  /** Every comment of the post has exactly as many responses as it has copies. */
  lemma CommentsByPostIdArePermutation(rows: seq<Post>, postId: Option<int>)
    requires GetCommentsByPostId(rows, postId).Ok?
    ensures var comments := GetPost(rows, postId).value.comments.value;
            multiset(GetCommentsByPostId(rows, postId).value) == multiset(ResponseDtos(comments))
  {
    var comments := GetPost(rows, postId).value.comments.value;
    var sorted := OldestFirst(comments);
    MapPermutation(sorted, comments, ToResponseDto);
  }

  /** The ids of the verified comments, in their order. */
  function VerifiedIds(comments: seq<Comment>): (r: seq<Option<int>>)
    ensures forall id :: id in r <==> exists c :: c in comments && c.verified == Some(true) && c.id == id
    decreases |comments|
  {
    if comments == [] then []
    else
      var rest := VerifiedIds(comments[1..]);
      assert forall c :: c in comments <==> c == comments[0] || c in comments[1..];
      (if comments[0].verified == Some(true) then [comments[0].id] else []) + rest
  }

  /** `getCommentIdsByPostId`: nothing for an unpublished post, else the ids of the
      verified comments in their order. Filtering on a null `verified` flag unboxes
      null: a NullPointerException. */
  function GetCommentIdsByPostId(rows: seq<Post>, postId: Option<int>): (r: Outcome<seq<Option<int>>>)
    ensures GetPost(rows, postId).Thrown? ==> r == Thrown(GetPost(rows, postId).exception)
    ensures GetPost(rows, postId).Ok? ==>
              var post := GetPost(rows, postId).value;
              (ValidPostComments(post).Thrown? ==> r == Thrown(PostFailure(NO_COMMENTS)))
              && (ValidPostComments(post).Ok? && !post.published ==> r == Ok([]))
              && (ValidPostComments(post).Ok? && post.published ==>
                    (r.Thrown? <==> exists i :: 0 <= i < |post.comments.value| && post.comments.value[i].verified.None?)
                    && (r.Thrown? ==> r.exception == NullPointer)
                    && (r.Ok? ==> forall id :: id in r.value <==>
                          exists c :: c in post.comments.value && c.verified == Some(true) && c.id == id))
  {
    var post :- GetPost(rows, postId);
    var _ :- ValidPostComments(post);
    if !post.published then Ok([])
    else if exists i :: 0 <= i < |post.comments.value| && post.comments.value[i].verified.None? then Thrown(NullPointer)
    else Ok(VerifiedIds(post.comments.value))
  }

  /** `getLatestCommentsByPostId`: the newest `limit` verified comments of a
      published post; an unpublished post, and any failure (a missing post, a
      limit below one), give nothing. */
  function GetLatestCommentsByPostId(posts: seq<Post>, comments: seq<Comment>, postId: Option<int>, limit: int)
    : (r: seq<Comment>)
    ensures |r| <= if limit < 0 then 0 else limit
    ensures forall x :: x in r ==> x in comments && LatestCandidate(x, postId)
    ensures SortedBy(r, NewestCommentFirstKey)
    ensures GetPost(posts, postId).Thrown? || !GetPost(posts, postId).value.published || limit < 1 ==> r == []
    ensures GetPost(posts, postId).Ok? && GetPost(posts, postId).value.published && limit >= 1
            ==> r == FindLatestByPostId(comments, postId, limit).value
  {
    match GetPost(posts, postId)
    case Thrown(_) => []
    case Ok(post) =>
      if !post.published then []
      else
        match FindLatestByPostId(comments, postId, limit)
        case Thrown(_) => []
        case Ok(latest) =>
          VerifiedFilterKeepsAll(latest, postId);
          Filter(latest, (c: Comment) => c.verified == Some(true))
  }

  /** The verified filter after the query keeps everything: the query already
      selects verified comments only. */
  lemma {:induction false} VerifiedFilterKeepsAll(s: seq<Comment>, postId: Option<int>)
    requires forall x :: x in s ==> LatestCandidate(x, postId)
    ensures Filter(s, (c: Comment) => c.verified == Some(true)) == s
    decreases |s|
  {
    if s != [] {
      assert s[0] in s;
      assert forall x :: x in s[1..] ==> x in s;
      VerifiedFilterKeepsAll(s[1..], postId);
      assert s == [s[0]] + s[1..];
    }
  }

  /** `createCommentCache`: the comment's fields and its post's id. */
  function CreateCommentCache(c: Comment): (r: CommentCache)
    ensures r.id == c.id && r.authorId == c.authorId && r.content == c.content
    ensures r.postId == c.postId && r.createdAt == Some(c.createdAt) && r.updatedAt == c.updatedAt
  {
    CommentCache(c.id, c.content, c.authorId, c.postId, Some(c.createdAt), c.updatedAt)
  }

  function CommentCaches(comments: seq<Comment>): (r: seq<CommentCache>)
    ensures |r| == |comments|
    ensures forall i :: 0 <= i < |r| ==> r[i] == CreateCommentCache(comments[i])
  {
    seq(|comments|, i requires 0 <= i < |comments| => CreateCommentCache(comments[i]))
  }

  /** `fetchLatestComments`: the latest comments (`latestCount` of them asked for)
      as cache entries, collected into an insertion-ordered set. The latest
      comments all belong to the post, so reading their post's id cannot fail. */
  function FetchLatestComments(posts: seq<Post>, comments: seq<Comment>, postId: Option<int>, latestCount: int)
    : (r: seq<CommentCache>)
    ensures NoDuplicates(r)
    ensures |r| <= |GetLatestCommentsByPostId(posts, comments, postId, latestCount)|
    ensures forall x :: x in r <==>
              exists c :: c in GetLatestCommentsByPostId(posts, comments, postId, latestCount) && x == CreateCommentCache(c)
  {
    var latest := GetLatestCommentsByPostId(posts, comments, postId, latestCount);
    var caches := CommentCaches(latest);
    assert forall x :: x in caches <==> exists c :: c in latest && x == CreateCommentCache(c) by {
      forall x | x in caches ensures exists c :: c in latest && x == CreateCommentCache(c) {
        var i :| 0 <= i < |caches| && caches[i] == x;
        assert latest[i] in latest;
      }
      forall c | c in latest ensures CreateCommentCache(c) in caches {
        var i :| 0 <= i < |latest| && latest[i] == c;
        assert caches[i] == CreateCommentCache(c);
      }
    }
    Distinct(caches)
  }

  /** When the stored comments have distinct ids, the cache entries are exactly the
      latest comments, one each, in the order the query returned them. */
  lemma FetchLatestCommentsKeepsOrder(posts: seq<Post>, comments: seq<Comment>, postId: Option<int>, latestCount: int)
    requires forall i, j :: 0 <= i < j < |comments| ==> comments[i].id != comments[j].id
    ensures FetchLatestComments(posts, comments, postId, latestCount)
            == CommentCaches(GetLatestCommentsByPostId(posts, comments, postId, latestCount))
  {
    var caches := CommentCaches(GetLatestCommentsByPostId(posts, comments, postId, latestCount));
    LatestCachesAreDistinct(posts, comments, postId, latestCount);
    assert [] + caches == caches;
    DistinctOfDistinct([], caches);
  }

  /** Proof helper: with distinct ids, the cache entries of the latest comments are distinct. */
  lemma LatestCachesAreDistinct(posts: seq<Post>, comments: seq<Comment>, postId: Option<int>, latestCount: int)
    requires forall i, j :: 0 <= i < j < |comments| ==> comments[i].id != comments[j].id
    ensures NoDuplicates(CommentCaches(GetLatestCommentsByPostId(posts, comments, postId, latestCount)))
  {
    var latest := GetLatestCommentsByPostId(posts, comments, postId, latestCount);
    var caches := CommentCaches(latest);
    assert NoDuplicates(comments);
    forall i, j | 0 <= i < j < |caches| ensures caches[i] != caches[j] {
      LatestHasNoDuplicates(posts, comments, postId, latestCount, i, j);
      CachesOfDistinctRowsDiffer(comments, latest[i], latest[j]);
    }
  }

  /** Proof helper: two different rows of a table with distinct ids have different cache
      entries. */
  lemma CachesOfDistinctRowsDiffer(comments: seq<Comment>, x: Comment, y: Comment)
    requires forall i, j :: 0 <= i < j < |comments| ==> comments[i].id != comments[j].id
    requires x in comments && y in comments && x != y
    ensures CreateCommentCache(x) != CreateCommentCache(y)
  {
    var a :| 0 <= a < |comments| && comments[a] == x;
    var b :| 0 <= b < |comments| && comments[b] == y;
    assert a != b;
    assert x.id != y.id by {
      if a < b { } else { }
    }
  }

  /** The latest comments are distinct rows. */
  lemma LatestHasNoDuplicates(posts: seq<Post>, comments: seq<Comment>, postId: Option<int>, latestCount: int,
                              i: int, j: int)
    requires NoDuplicates(comments)
    requires 0 <= i < j < |GetLatestCommentsByPostId(posts, comments, postId, latestCount)|
    ensures GetLatestCommentsByPostId(posts, comments, postId, latestCount)[i]
            != GetLatestCommentsByPostId(posts, comments, postId, latestCount)[j]
  {
    var latest := GetLatestCommentsByPostId(posts, comments, postId, latestCount);
    assert GetPost(posts, postId).Ok? && GetPost(posts, postId).value.published && latestCount >= 1;
    var all := NewestComments(comments, postId);
    assert latest == (if |all| <= latestCount then all else all[..latestCount]);
    NewestCommentsNoDuplicates(comments, postId);
    assert latest[i] == all[i] && latest[j] == all[j];
  }

  lemma NewestCommentsNoDuplicates(comments: seq<Comment>, postId: Option<int>)
    requires NoDuplicates(comments)
    ensures NoDuplicates(NewestComments(comments, postId))
  {
    var f := Filter(comments, (x: Comment) => LatestCandidate(x, postId));
    FilterNoDuplicates(comments, (x: Comment) => LatestCandidate(x, postId));
    SortBySorts(f, NewestCommentFirstKey);
    PermutationKeepsNoDuplicates(f, SortBy(f, NewestCommentFirstKey));
  }

  // ---------------------------------------------------------------------------
  // Moderation
  // ---------------------------------------------------------------------------

  /** `verifyComment` on one comment, as written: `verified` is set to whether the
      text contains a curse word. */
  function ModeratedAsWritten(c: Comment, words: set<string>, now: Time): (r: Comment)
    requires c.content.Some?
    ensures r.verified == Some(ContainsCurseWord(words, c.content.value))
    ensures r.(verified := c.verified, verifiedAt := c.verifiedAt) == c && r.verifiedAt == Some(now)
  {
    c.(verified := Some(ContainsCurseWord(words, c.content.value)), verifiedAt := Some(now))
  }

  /** As written, a comment with a listed word is approved and a clean one is
      rejected. */
  lemma ModerationAsWrittenIsInverted(c: Comment, now: Time)
    requires c.content == Some("so bad")
    ensures ModeratedAsWritten(c, BuildDictionary(["BAD"]), now).verified == Some(true)
  {
    UpperCaseSlipsThrough();
  }

  /** `verifyComment` on one comment, as intended: a comment is verified exactly
      when its text holds no curse word. */
  function Moderated(c: Comment, words: set<string>, now: Time): (r: Comment)
    requires c.content.Some?
    ensures r.verified == Some(!ContainsCurseWord(words, c.content.value))
    ensures r.(verified := c.verified, verifiedAt := c.verifiedAt) == c && r.verifiedAt == Some(now)
  {
    c.(verified := Some(!ContainsCurseWord(words, c.content.value)), verifiedAt := Some(now))
  }

  /** With the intended moderation, a comment with a listed word is never shown as
      verified. */
  lemma ModerationRejectsCurseWords(c: Comment, words: set<string>, now: Time)
    requires c.content.Some? && ContainsCurseWord(words, c.content.value)
    ensures Moderated(c, words, now).verified == Some(false)
  {
  }

  /** Which verdict a moderation run stores: the program's (`ModeratedAsWritten`)
      or the intended one (`Moderated`). */
  datatype Verdict = AsWritten | Intended

  /** One comment moderated with the given verdict. */
  function Moderate(v: Verdict, c: Comment, words: set<string>, now: Time): Comment
    requires c.content.Some?
  {
    match v
    case AsWritten => ModeratedAsWritten(c, words, now)
    case Intended => Moderated(c, words, now)
  }

  /** One batch: every comment of it moderated and saved together. A null text, or
      a dictionary that was never built, makes the asynchronous task fail before
      `saveAll`, and the batch changes nothing. */
  function ModerateBatch(v: Verdict, rows: seq<Comment>, batch: seq<Comment>, words: Option<set<string>>, now: Time)
    : (r: seq<Comment>)
    ensures |r| == |rows|
    ensures forall i :: 0 <= i < |rows| ==> r[i].id == rows[i].id
  {
    if words.None? || exists c :: c in batch && c.content.None? then rows
    else seq(|rows|, i requires 0 <= i < |rows| =>
           if rows[i] in batch then Moderate(v, rows[i], words.value, now) else rows[i])
  }

  /** The batches processed in order. */
  function ModerateAll(v: Verdict, rows: seq<Comment>, batches: seq<seq<Comment>>, words: Option<set<string>>, now: Time)
    : (r: seq<Comment>)
    ensures |r| == |rows|
    decreases |batches|
  {
    if batches == [] then rows
    else ModerateBatch(v, ModerateAll(v, rows, batches[..|batches| - 1], words, now), batches[|batches| - 1], words, now)
  }

  /** Batches of unchecked comments, all with text, moderate exactly the comments
      they hold, each once: a moderated comment is checked and so is never in a
      later batch. */
  lemma {:induction false} ModerateAllMarksBatched(v: Verdict, rows: seq<Comment>, batches: seq<seq<Comment>>,
                                                   words: set<string>, now: Time)
    requires forall c :: c in Flatten(batches) ==> c.verified.None? && c.content.Some?
    ensures forall i :: 0 <= i < |rows| ==>
              ModerateAll(v, rows, batches, Some(words), now)[i]
              == if rows[i] in Flatten(batches) then Moderate(v, rows[i], words, now) else rows[i]
    decreases |batches|
  {
    if batches != [] {
      var init := batches[..|batches| - 1];
      var last := batches[|batches| - 1];
      assert batches == init + [last];
      FlattenAppend(init, [last]);
      assert Flatten([last]) == last + Flatten([]);
      assert Flatten(batches) == Flatten(init) + last;
      assert forall c :: c in Flatten(init) ==> c in Flatten(batches);
      assert forall c :: c in last ==> c in Flatten(batches);
      ModerateAllMarksBatched(v, rows, init, words, now);
      var mid := ModerateAll(v, rows, init, Some(words), now);
      assert !(exists c :: c in last && c.content.None?);
      forall i | 0 <= i < |rows|
        ensures ModerateAll(v, rows, batches, Some(words), now)[i]
                == if rows[i] in Flatten(batches) then Moderate(v, rows[i], words, now) else rows[i]
      {
        if rows[i] in Flatten(init) {
          assert mid[i] == Moderate(v, rows[i], words, now);
          assert mid[i] !in last;
        }
      }
    }
  }

  /** `verifyComments`, as a whole: when every unchecked comment has text and the
      dictionary is built, every unchecked comment is moderated and every other
      row stays as it was, whatever the batch size. */
  lemma ModerationCoversUnchecked(v: Verdict, rows: seq<Comment>, size: nat, words: set<string>, now: Time)
    requires size > 0
    requires forall c :: c in rows && c.verified.None? ==> c.content.Some?
    ensures var unchecked := FindAllUnChecked(rows);
            forall i :: 0 <= i < |rows| ==>
              ModerateAll(v, rows, Partition(unchecked, size), Some(words), now)[i]
              == if rows[i].verified.None? then Moderate(v, rows[i], words, now) else rows[i]
  {
    var unchecked := FindAllUnChecked(rows);
    var batches := Partition(unchecked, size);
    PartitionFlattens(unchecked, size);
    ModerateAllMarksBatched(v, rows, batches, words, now);
  }

  // ---------------------------------------------------------------------------
  // The service
  // ---------------------------------------------------------------------------

  class CommentService {
    const comments: CommentRepository
    const posts: PostRepository
    const moderator: ModerationDictionary

    constructor(comments: CommentRepository, posts: PostRepository, moderator: ModerationDictionary)
      ensures this.comments == comments && this.posts == posts && this.moderator == moderator
    {
      this.comments := comments;
      this.posts := posts;
      this.moderator := moderator;
    }

    /** `addComment`: the DTO's author must exist in the user service and the post
        in the database. The comment is stored under the current user, whatever
        author the DTO names, a `NewCommentEvent` is sent, and the response has no
        likes. `nextId` is the identity value the database assigns. */
    method AddComment(postId: Option<int>, dto: CommentDto, currentUser: int, findUser: int -> Outcome<bool>,
                      now: Time, nextId: int) returns (r: Outcome<ResponseCommentDto>, sent: Option<NewCommentEvent>)
      requires comments.Valid()
      requires forall i :: 0 <= i < |comments.rows| ==> comments.rows[i].id != Some(nextId)
      modifies comments
      ensures comments.Valid()
      ensures findUser(dto.authorId).Thrown? ==> r == Thrown(findUser(dto.authorId).exception)
      ensures findUser(dto.authorId) == Ok(false) ==> r == Thrown(EntityNotFound(UserMissing(dto.authorId)))
      ensures findUser(dto.authorId) == Ok(true) && GetPost(posts.rows, postId).Thrown?
              ==> r == Thrown(GetPost(posts.rows, postId).exception)
      ensures r.Thrown? ==> comments.rows == old(comments.rows) && sent == None
      ensures r.Ok? <==> findUser(dto.authorId) == Ok(true) && GetPost(posts.rows, postId).Ok?
      ensures r.Ok? ==>
                var saved := Comment(Some(nextId), dto.content, Some(currentUser), postId, None, None, None, now, Some(now));
                comments.rows == old(comments.rows) + [saved]
                && r.value == ResponseCommentDto(Some(nextId), dto.content, Some(currentUser), [], postId, now, Some(now))
                && sent == Some(NewCommentEvent(Some(nextId), postId, Some(currentUser), dto.content, Some(now), None, false))
    {
      var user := findUser(dto.authorId);
      if user.Thrown? {
        return Thrown(user.exception), None;
      }
      if !user.value {
        return Thrown(EntityNotFound(UserMissing(dto.authorId))), None;
      }
      var post := GetPost(posts.rows, postId);
      if post.Thrown? {
        return Thrown(post.exception), None;
      }
      var comment := Comment(None, dto.content, Some(currentUser), post.value.id, None, None, None, now, None);
      var saved := comments.Save(comment, now, nextId);
      sent := Some(NewCommentEvent(saved.id, postId, saved.authorId, saved.content, Some(saved.createdAt), None, false));
      r := Ok(ResponseCommentDto(saved.id, saved.content, saved.authorId, [], saved.postId, saved.createdAt, saved.updatedAt));
    }

    /** `updateComment`: the stored comment must exist and the update pass the
        validator; then only its content changes (and the save stamps
        `updatedAt`). */
    method UpdateComment(dto: CommentDto, now: Time) returns (r: Outcome<ResponseCommentDto>)
      requires comments.Valid()
      modifies comments
      ensures comments.Valid()
      ensures (forall i :: 0 <= i < |old(comments.rows)| ==> old(comments.rows)[i].id != Some(dto.id))
              ==> r == Thrown(EntityNotFound(COMMENT_MISSING))
      ensures r.Thrown? ==> comments.rows == old(comments.rows)
      ensures r.Ok? <==> exists i :: 0 <= i < |old(comments.rows)| && old(comments.rows)[i].id == Some(dto.id)
                                     && UpdateAllowed(old(comments.rows)[i], dto)
      ensures r.Ok? ==> exists i :: 0 <= i < |old(comments.rows)| && old(comments.rows)[i].id == Some(dto.id)
                          && comments.rows == old(comments.rows)[i := old(comments.rows)[i].(content := dto.content, updatedAt := Some(now))]
                          && r.value == ToResponseDto(comments.rows[i])
    {
      var found := comments.FindById(Some(dto.id));
      if found.value.None? {
        return Thrown(EntityNotFound(COMMENT_MISSING));
      }
      var actual := found.value.value;
      var checked := ValideComment(actual, dto);
      if checked.Thrown? {
        ghost var k :| 0 <= k < |comments.rows| && comments.rows[k] == actual;
        assert forall i :: 0 <= i < |comments.rows| && comments.rows[i].id == Some(dto.id) ==> i == k;
        return Thrown(checked.exception);
      }
      var saved := comments.Save(actual.(content := dto.content), now, 0);
      r := Ok(ToResponseDto(saved));
    }

    /** `deleteComment`: an unknown id is an EntityNotFoundException and nothing is
        deleted. */
    method DeleteComment(commentId: Option<int>) returns (r: Outcome<Unit>)
      requires comments.Valid()
      modifies comments
      ensures comments.Valid()
      ensures commentId.None? ==> r.Thrown? && r.exception.IllegalArgument?
      ensures commentId.Some? ==> (r.Ok? <==> exists i :: 0 <= i < |old(comments.rows)| && old(comments.rows)[i].id == commentId)
      ensures commentId.Some? && r.Thrown? ==> r.exception == EntityNotFound(COMMENT_ABSENT)
      ensures r.Thrown? ==> comments.rows == old(comments.rows)
      ensures r.Ok? ==> forall x :: x in comments.rows <==> x in old(comments.rows) && x.id != commentId
    {
      var exists_ := comments.ExistsById(commentId);
      if exists_.Thrown? {
        return Thrown(exists_.exception);
      }
      if !exists_.value {
        return Thrown(EntityNotFound(COMMENT_ABSENT));
      }
      r := comments.DeleteById(commentId);
    }

    /** `verifyComments`: nothing to do without unchecked comments; otherwise the
        unchecked comments are moderated batch by batch with the program's verdict
        (`ModeratedAsWritten`). `ListUtils.partition`
        rejects a batch size below one. The asynchronous batches are taken to have
        finished when the call returns. */
    method VerifyComments(subListSize: int, now: Time) returns (r: Outcome<Unit>)
      requires comments.Valid()
      modifies comments
      ensures comments.Valid()
      ensures r.Thrown? <==> FindAllUnChecked(old(comments.rows)) != [] && subListSize <= 0
      ensures r.Thrown? ==> r.exception == IllegalArgument(PARTITION_SIZE_INVALID)
      ensures r.Thrown? || FindAllUnChecked(old(comments.rows)) == [] ==> comments.rows == old(comments.rows)
      ensures r.Ok? && FindAllUnChecked(old(comments.rows)) != [] ==>
                comments.rows == ModerateAll(AsWritten, old(comments.rows), Partition(FindAllUnChecked(old(comments.rows)), subListSize),
                                             moderator.curseWords, now)
    {
      var unchecked := FindAllUnChecked(comments.rows);
      if unchecked == [] {
        return Ok(Unit);
      }
      if subListSize <= 0 {
        return Thrown(IllegalArgument(PARTITION_SIZE_INVALID));
      }
      var batches := Partition(unchecked, subListSize);
      ghost var start := comments.rows;
      for i := 0 to |batches|
        invariant comments.rows == ModerateAll(AsWritten, start, batches[..i], moderator.curseWords, now)
        invariant comments.Valid()
      {
        assert batches[..i + 1][..i] == batches[..i];
        comments.rows := ModerateBatch(AsWritten, comments.rows, batches[i], moderator.curseWords, now);
      }
      assert batches[..|batches|] == batches;
      r := Ok(Unit);
    }
  }
}
