/** `CommentMapper`: the comment DTOs and the mapping of a comment to its response,
    whose like ids come from the hand-written `getLikeIds`. */
module CommentMapping {
  import opened Base
  import opened PostModel

  /** `CommentDto`: the ids are primitive `long`s and so never null. */
  datatype CommentDto = CommentDto(
    id: int,
    content: Option<string>,
    authorId: int,
    postId: int,
    likeIds: Option<seq<int>>,
    createdAt: Option<Time>)

  /** `ResponseCommentDto`. */
  datatype ResponseCommentDto = ResponseCommentDto(
    id: Option<int>,
    content: Option<string>,
    authorId: Option<int>,
    likeIds: seq<Option<int>>,
    postId: Option<int>,
    createdAt: Time,
    updatedAt: Option<Time>)

  /** `getLikeIds`: a null or empty list gives an empty list; otherwise the id of
      every like, in order (a like without an id gives a null element). */
  function GetLikeIds(likes: Option<seq<Like>>): (r: seq<Option<int>>)
    ensures likes.None? ==> r == []
    ensures likes.Some? ==> |r| == |likes.value|
                            && forall i :: 0 <= i < |r| ==> r[i] == likes.value[i].id
  {
    if likes.None? || likes.value == [] then []
    else seq(|likes.value|, i requires 0 <= i < |likes.value| => likes.value[i].id)
  }

  /** Mapping the likes of two lists laid end to end maps each list in turn. */
  lemma LikeIdsAppend(a: seq<Like>, b: seq<Like>)
    ensures GetLikeIds(Some(a + b)) == GetLikeIds(Some(a)) + GetLikeIds(Some(b))
  {
  }

  /** Likes 1 and 2 give [1, 2]. */
  lemma LikeIdsExample(createdAt: Option<Time>)
    ensures GetLikeIds(Some([Like(Some(1), None, None, None, createdAt), Like(Some(2), None, None, None, createdAt)]))
            == [Some(1), Some(2)]
  {
  }

  /** `toResponseDto`: the comment's own fields, `post.id` as the post id and the
      like ids through `getLikeIds`. */
  function ToResponseDto(c: Comment): (r: ResponseCommentDto)
    ensures r.id == c.id && r.content == c.content && r.authorId == c.authorId
    ensures r.postId == c.postId && r.createdAt == c.createdAt && r.updatedAt == c.updatedAt
    ensures r.likeIds == GetLikeIds(c.likes)
  {
    ResponseCommentDto(c.id, c.content, c.authorId, GetLikeIds(c.likes), c.postId, c.createdAt, c.updatedAt)
  }
}
