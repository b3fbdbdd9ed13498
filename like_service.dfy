/** `LikeService`: likes of posts and of comments. A user likes a post or a
    comment at most once; a post like also sends an analytics event to the post's
    author. The like table is a `LikeRepository`; the user service is a lookup
    parameter. */
module LikeServices {
  import opened Base
  import opened Seqs
  import opened PostModel
  import opened PostStore
  import opened CommentStore
  import PostServices

  const POST_ALREADY_LIKED := "User has already liked this post"
  const COMMENT_ALREADY_LIKED := "User has already liked this comment"
  const USER_NOT_FOUND := "User not found"
  const POST_NOT_FOUND := "Post not found"
  const COMMENT_NOT_FOUND := "Comment not found"
  const COMMENT_ID_NULL := "commentId cannot be null"

  /** The request of a post like. */
  datatype LikeDtoForPost = LikeDtoForPost(userId: Option<int>, postId: Option<int>)

  /** The request of a comment like. */
  datatype LikeDtoForComment = LikeDtoForComment(userId: Option<int>, commentId: Option<int>)

  /** The analytics message of a post like: who liked, whose post, when. */
  datatype AnalyticsEvent = AnalyticsEvent(receiverId: Option<int>, actorId: int, receivedAt: Time)

  /** The user already likes the post. */
  predicate LikedPost(likes: seq<Like>, postId: int, userId: Option<int>)
  {
    exists i :: 0 <= i < |likes| && likes[i].postId == Some(postId) && likes[i].userId == userId
  }

  /** The user already likes the comment. */
  predicate LikedComment(likes: seq<Like>, commentId: int, userId: Option<int>)
  {
    exists i :: 0 <= i < |likes| && likes[i].commentId == Some(commentId) && likes[i].userId == userId
  }

  /** Two rows of the like table may stand together: distinct ids, and not the
      same user on the same post or on the same comment. */
  predicate Apart(a: Like, b: Like)
  {
    a.id != b.id
    && (a.postId.Some? && a.postId == b.postId ==> a.userId != b.userId)
    && (a.commentId.Some? && a.commentId == b.commentId ==> a.userId != b.userId)
  }

  /** `userDtoExists`: the user id is unboxed (null throws), then the user service
      must find the user. */
  function UserDtoExists(userId: Option<int>, findUser: int -> Outcome<bool>): (r: Outcome<Unit>)
    ensures r.Ok? <==> userId.Some? && findUser(userId.value) == Ok(true)
    ensures userId.None? ==> r == Thrown(NullPointer)
    ensures userId.Some? && findUser(userId.value) == Ok(false) ==> r == Thrown(EntityNotFound(USER_NOT_FOUND))
  {
    if userId.None? then Thrown(NullPointer)
    else match findUser(userId.value)
      case Thrown(e) => Thrown(e)
      case Ok(found) => if found then Ok(Unit) else Thrown(EntityNotFound(USER_NOT_FOUND))
  }

  /** `CommentService.findCommentById`: a null id fails the validator; an unknown
      id is an EntityNotFoundException whose message speaks of a post. */
  function FindCommentById(rows: seq<Comment>, commentId: Option<int>): (r: Outcome<Comment>)
    ensures commentId.None? ==> r == Thrown(IllegalArgument(COMMENT_ID_NULL))
    ensures commentId.Some? ==> (r.Ok? <==> exists i :: 0 <= i < |rows| && rows[i].id == commentId)
    ensures commentId.Some? && r.Thrown? ==> r.exception == EntityNotFound(POST_NOT_FOUND)
    ensures r.Ok? ==> r.value in rows && r.value.id == commentId
  {
    if commentId.None? then Thrown(IllegalArgument(COMMENT_ID_NULL))
    else
      match CommentWithId(rows, commentId.value)
      case None => Thrown(EntityNotFound(POST_NOT_FOUND))
      case Some(c) => Ok(c)
  }

  /** `CommentService.isExits`: a null id fails the validator. */
  function IsExits(rows: seq<Comment>, commentId: Option<int>): (r: Outcome<bool>)
    ensures commentId.None? ==> r == Thrown(IllegalArgument(COMMENT_ID_NULL))
    ensures commentId.Some? ==> r.Ok? && (r.value <==> FindCommentById(rows, commentId).Ok?)
  {
    if commentId.None? then Thrown(IllegalArgument(COMMENT_ID_NULL))
    else Ok(CommentWithId(rows, commentId.value).Some?)
  }

  /** `addLikeByPost` decided on the tables: the user first, then the post, then
      the earlier like; the new row names the user and the post. */
  function PostLike(likes: seq<Like>, posts: seq<Post>, dto: LikeDtoForPost,
                    findUser: int -> Outcome<bool>, nextId: int): (r: Outcome<Like>)
    ensures r.Ok? <==> UserDtoExists(dto.userId, findUser).Ok? && PostServices.FindPostById(posts, dto.postId).Ok?
                       && !LikedPost(likes, dto.postId.value, dto.userId)
    ensures UserDtoExists(dto.userId, findUser).Thrown? ==> r == Thrown(UserDtoExists(dto.userId, findUser).exception)
    ensures UserDtoExists(dto.userId, findUser).Ok? && PostServices.FindPostById(posts, dto.postId).Thrown?
            ==> r == Thrown(PostServices.FindPostById(posts, dto.postId).exception)
    ensures (UserDtoExists(dto.userId, findUser).Ok? && PostServices.FindPostById(posts, dto.postId).Ok?
             && LikedPost(likes, dto.postId.value, dto.userId)) ==> r == Thrown(IllegalArgument(POST_ALREADY_LIKED))
    ensures r.Ok? ==> r.value == Like(Some(nextId), dto.userId, dto.postId, None, None)
  {
    var _ :- UserDtoExists(dto.userId, findUser);
    var post :- PostServices.FindPostById(posts, dto.postId);
    if LikedPost(likes, post.id.value, dto.userId) then Thrown(IllegalArgument(POST_ALREADY_LIKED))
    else Ok(Like(Some(nextId), dto.userId, post.id, None, None))
  }

  /** `addLikeByComment` decided on the tables: the user, then the comment, then
      the earlier like. */
  function CommentLike(likes: seq<Like>, comments: seq<Comment>, dto: LikeDtoForComment,
                       findUser: int -> Outcome<bool>, nextId: int): (r: Outcome<Like>)
    ensures r.Ok? <==> UserDtoExists(dto.userId, findUser).Ok? && FindCommentById(comments, dto.commentId).Ok?
                       && !LikedComment(likes, dto.commentId.value, dto.userId)
    ensures UserDtoExists(dto.userId, findUser).Thrown? ==> r == Thrown(UserDtoExists(dto.userId, findUser).exception)
    ensures UserDtoExists(dto.userId, findUser).Ok? && FindCommentById(comments, dto.commentId).Thrown?
            ==> r == Thrown(FindCommentById(comments, dto.commentId).exception)
    ensures (UserDtoExists(dto.userId, findUser).Ok? && FindCommentById(comments, dto.commentId).Ok?
             && LikedComment(likes, dto.commentId.value, dto.userId)) ==> r == Thrown(IllegalArgument(COMMENT_ALREADY_LIKED))
    ensures r.Ok? ==> r.value == Like(Some(nextId), dto.userId, None, dto.commentId, None)
  {
    var _ :- UserDtoExists(dto.userId, findUser);
    var comment :- FindCommentById(comments, dto.commentId);
    if LikedComment(likes, comment.id.value, dto.userId) then Thrown(IllegalArgument(COMMENT_ALREADY_LIKED))
    else Ok(Like(Some(nextId), dto.userId, None, comment.id, None))
  }

  /** The rows that survive `deleteByPostIdAndUserId`. */
  function WithoutPostLike(likes: seq<Like>, postId: int, userId: Option<int>): (r: seq<Like>)
    ensures !LikedPost(r, postId, userId)
    ensures forall x :: x in r <==> x in likes && !(x.postId == Some(postId) && x.userId == userId)
  {
    Filter(likes, (x: Like) => !(x.postId == Some(postId) && x.userId == userId))
  }

  /** The rows that survive `deleteByCommentIdAndUserId`. */
  function WithoutCommentLike(likes: seq<Like>, commentId: int, userId: Option<int>): (r: seq<Like>)
    ensures !LikedComment(r, commentId, userId)
    ensures forall x :: x in r <==> x in likes && !(x.commentId == Some(commentId) && x.userId == userId)
  {
    Filter(likes, (x: Like) => !(x.commentId == Some(commentId) && x.userId == userId))
  }

  /** A like that was just given is refused a second time. */
  lemma SecondPostLikeIsRefused(likes: seq<Like>, posts: seq<Post>, dto: LikeDtoForPost,
                                findUser: int -> Outcome<bool>, nextId: int, laterId: int)
    requires PostLike(likes, posts, dto, findUser, nextId).Ok?
    ensures PostLike(likes + [PostLike(likes, posts, dto, findUser, nextId).value], posts, dto, findUser, laterId)
            == Thrown(IllegalArgument(POST_ALREADY_LIKED))
  {
    var added := likes + [PostLike(likes, posts, dto, findUser, nextId).value];
    assert added[|likes|].postId == dto.postId && added[|likes|].userId == dto.userId;
  }

  /** A comment like that was just given is refused a second time. */
  lemma SecondCommentLikeIsRefused(likes: seq<Like>, comments: seq<Comment>, dto: LikeDtoForComment,
                                   findUser: int -> Outcome<bool>, nextId: int, laterId: int)
    requires CommentLike(likes, comments, dto, findUser, nextId).Ok?
    ensures CommentLike(likes + [CommentLike(likes, comments, dto, findUser, nextId).value], comments, dto, findUser, laterId)
            == Thrown(IllegalArgument(COMMENT_ALREADY_LIKED))
  {
    var added := likes + [CommentLike(likes, comments, dto, findUser, nextId).value];
    assert added[|likes|].commentId == dto.commentId && added[|likes|].userId == dto.userId;
  }

  /** Unliking a post right after liking it restores the table. */
  lemma {:induction false} UnlikeUndoesLike(likes: seq<Like>, posts: seq<Post>, dto: LikeDtoForPost,
                                            findUser: int -> Outcome<bool>, nextId: int)
    requires PostLike(likes, posts, dto, findUser, nextId).Ok?
    ensures WithoutPostLike(likes + [PostLike(likes, posts, dto, findUser, nextId).value], dto.postId.value, dto.userId)
            == likes
  {
    var like := PostLike(likes, posts, dto, findUser, nextId).value;
    var keep := (x: Like) => !(x.postId == dto.postId && x.userId == dto.userId);
    FilterAppend(likes, [like], keep);
    assert Filter([like], keep) == [] by {
      assert Filter([like], keep) == (if keep(like) then [like] else []) + Filter([like][1..], keep);
    }
    forall i | 0 <= i < |likes| ensures keep(likes[i]) {
    }
    FilterAll(likes, keep);
    assert likes + [like] + [] == likes + [like];
  }

  /** The like table. */
  class LikeRepository {
    var rows: seq<Like>

    /** Every row has an id, and no two rows clash. */
    ghost predicate Valid()
      reads this
    {
      (forall i :: 0 <= i < |rows| ==> rows[i].id.Some?) && Pairwise(rows, Apart)
    }

    constructor()
      ensures rows == [] && Valid()
    {
      rows := [];
    }

    /** `save` of a new like: it is appended. */
    method Insert(like: Like)
      requires Valid()
      requires like.id.Some? && forall i :: 0 <= i < |rows| ==> rows[i].id != like.id
      requires like.postId.Some? ==> !LikedPost(rows, like.postId.value, like.userId)
      requires like.commentId.Some? ==> !LikedComment(rows, like.commentId.value, like.userId)
      modifies this
      ensures Valid()
      ensures rows == old(rows) + [like]
    {
      rows := rows + [like];
      assert forall i :: 0 <= i < |rows| - 1 ==> Apart(rows[i], like);
    }

    /** `deleteByPostIdAndUserId`. */
    method DeleteByPostIdAndUserId(postId: int, userId: Option<int>)
      requires Valid()
      modifies this
      ensures Valid()
      ensures rows == WithoutPostLike(old(rows), postId, userId)
    {
      FilterPairwise(rows, (x: Like) => !(x.postId == Some(postId) && x.userId == userId), Apart);
      rows := WithoutPostLike(rows, postId, userId);
    }

    /** `deleteByCommentIdAndUserId`. */
    method DeleteByCommentIdAndUserId(commentId: int, userId: Option<int>)
      requires Valid()
      modifies this
      ensures Valid()
      ensures rows == WithoutCommentLike(old(rows), commentId, userId)
    {
      FilterPairwise(rows, (x: Like) => !(x.commentId == Some(commentId) && x.userId == userId), Apart);
      rows := WithoutCommentLike(rows, commentId, userId);
    }
  }

  class LikeService {
    const likes: LikeRepository
    const posts: PostRepository
    const comments: CommentRepository

    constructor(likes: LikeRepository, posts: PostRepository, comments: CommentRepository)
      ensures this.likes == likes && this.posts == posts && this.comments == comments
    {
      this.likes := likes;
      this.posts := posts;
      this.comments := comments;
    }

    /** `addLikeByPost`: the like is saved only when `PostLike` allows it, and then
        one analytics event goes to the post's author. */
    method AddLikeByPost(dto: LikeDtoForPost, findUser: int -> Outcome<bool>, nextId: int, now: Time)
      returns (r: Outcome<Like>, event: Option<AnalyticsEvent>)
      requires likes.Valid()
      requires forall i :: 0 <= i < |likes.rows| ==> likes.rows[i].id != Some(nextId)
      modifies likes
      ensures likes.Valid()
      ensures r == PostLike(old(likes.rows), posts.rows, dto, findUser, nextId)
      ensures r.Thrown? ==> likes.rows == old(likes.rows) && event == None
      ensures r.Ok? ==> likes.rows == old(likes.rows) + [r.value]
                        && event == Some(AnalyticsEvent(PostServices.FindPostById(posts.rows, dto.postId).value.authorId,
                                                        dto.userId.value, now))
    {
      r := PostLike(likes.rows, posts.rows, dto, findUser, nextId);
      if r.Thrown? {
        return r, None;
      }
      likes.Insert(r.value);
      var post := PostServices.FindPostById(posts.rows, dto.postId).value;
      event := Some(AnalyticsEvent(post.authorId, dto.userId.value, now));
    }

    /** `deleteLikeFromPost`: the post must exist; then the user's like of it, if
        any, is removed. */
    method DeleteLikeFromPost(dto: LikeDtoForPost) returns (r: Outcome<Unit>)
      requires likes.Valid()
      modifies likes
      ensures likes.Valid()
      ensures dto.postId.None? ==> r == Thrown(IllegalArgument(PostServices.INVALID_POST_ID))
      ensures dto.postId.Some? ==> (r.Ok? <==> PostServices.ExistsPost(posts.rows, dto.postId) == Ok(true))
      ensures dto.postId.Some? && r.Thrown? ==> r.exception == EntityNotFound(POST_NOT_FOUND)
      ensures r.Thrown? ==> likes.rows == old(likes.rows)
      ensures r.Ok? ==> likes.rows == WithoutPostLike(old(likes.rows), dto.postId.value, dto.userId)
    {
      var exists_ := PostServices.ExistsPost(posts.rows, dto.postId);
      if exists_.Thrown? {
        return Thrown(exists_.exception);
      }
      if !exists_.value {
        return Thrown(EntityNotFound(POST_NOT_FOUND));
      }
      likes.DeleteByPostIdAndUserId(dto.postId.value, dto.userId);
      r := Ok(Unit);
    }

    /** `addLikeByComment`: the like is saved only when `CommentLike` allows it. */
    method AddLikeByComment(dto: LikeDtoForComment, findUser: int -> Outcome<bool>, nextId: int)
      returns (r: Outcome<Like>)
      requires likes.Valid()
      requires forall i :: 0 <= i < |likes.rows| ==> likes.rows[i].id != Some(nextId)
      modifies likes
      ensures likes.Valid()
      ensures r == CommentLike(old(likes.rows), comments.rows, dto, findUser, nextId)
      ensures r.Thrown? ==> likes.rows == old(likes.rows)
      ensures r.Ok? ==> likes.rows == old(likes.rows) + [r.value]
    {
      r := CommentLike(likes.rows, comments.rows, dto, findUser, nextId);
      if r.Ok? {
        likes.Insert(r.value);
      }
    }

    /** `deleteLikeFromComment`: the comment must exist; then the user's like of
        it, if any, is removed. */
    method DeleteLikeFromComment(dto: LikeDtoForComment) returns (r: Outcome<Unit>)
      requires likes.Valid()
      modifies likes
      ensures likes.Valid()
      ensures dto.commentId.None? ==> r == Thrown(IllegalArgument(COMMENT_ID_NULL))
      ensures dto.commentId.Some? ==> (r.Ok? <==> FindCommentById(comments.rows, dto.commentId).Ok?)
      ensures dto.commentId.Some? && r.Thrown? ==> r.exception == IllegalArgument(COMMENT_NOT_FOUND)
      ensures r.Thrown? ==> likes.rows == old(likes.rows)
      ensures r.Ok? ==> likes.rows == WithoutCommentLike(old(likes.rows), dto.commentId.value, dto.userId)
    {
      var found := IsExits(comments.rows, dto.commentId);
      if found.Thrown? {
        return Thrown(found.exception);
      }
      if !found.value {
        return Thrown(IllegalArgument(COMMENT_NOT_FOUND));
      }
      likes.DeleteByCommentIdAndUserId(dto.commentId.value, dto.userId);
      r := Ok(Unit);
    }
  }
}
