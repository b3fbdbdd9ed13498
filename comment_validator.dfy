/** `CommentValidator`: the checks an update of a comment must pass, and the check
    that a post has comments at all. */
module CommentValidation {
  import opened Base
  import opened Text
  import opened PostModel
  import opened CommentMapping

  const DATA_MISMATCH := "Данные не верны"
  const UPDATE_REJECTED := "Обновить комментарий не получилось"
  const NO_COMMENTS := "У поста еще нет комментариев"

  /** "Автора с id %d не найден" with the requested author id. */
  function AuthorNotFound(authorId: int): string
  {
    "Автора с id " + LongToString(authorId) + " не найден"
  }

  /** The update may go ahead: it names the stored comment and its post, brings new
      content, and comes from the comment's author. */
  predicate UpdateAllowed(actual: Comment, dto: CommentDto)
  {
    actual.id == Some(dto.id) && actual.postId == Some(dto.postId)
    && dto.content.Some? && dto.content != actual.content
    && actual.authorId == Some(dto.authorId)
  }

  /** `valideComment`: the id and post checks first, then the content check, then
      the author check; the first that fails decides. Unboxing the stored comment's
      null id, or reading the id of its null post, and calling `equals` on its null
      author are NullPointerExceptions. */
  function ValideComment(actual: Comment, dto: CommentDto): (r: Outcome<Unit>)
    ensures r.Ok? <==> UpdateAllowed(actual, dto)
    ensures actual.id.None? || actual.postId.None? ==> r == Thrown(NullPointer)
    ensures actual.id.Some? && actual.postId.Some?
            && (actual.id.value != dto.id || actual.postId.value != dto.postId)
            ==> r == Thrown(PostFailure(DATA_MISMATCH))
    ensures actual.id == Some(dto.id) && actual.postId == Some(dto.postId)
            && (dto.content.None? || dto.content == actual.content)
            ==> r == Thrown(PostFailure(UPDATE_REJECTED))
    ensures actual.id == Some(dto.id) && actual.postId == Some(dto.postId)
            && dto.content.Some? && dto.content != actual.content
            && actual.authorId.Some? && actual.authorId.value != dto.authorId
            ==> r == Thrown(PostFailure(AuthorNotFound(dto.authorId)))
  {
    if actual.id.None? || actual.postId.None? then Thrown(NullPointer)
    else if dto.id != actual.id.value || dto.postId != actual.postId.value then Thrown(PostFailure(DATA_MISMATCH))
    else if dto.content.None? || dto.content == actual.content then Thrown(PostFailure(UPDATE_REJECTED))
    else if actual.authorId.None? then Thrown(NullPointer)
    else if actual.authorId.value != dto.authorId then Thrown(PostFailure(AuthorNotFound(dto.authorId)))
    else Ok(Unit)
  }

  /** A mismatched id is reported as such even when the content and author are
      wrong as well: the checks run in order. */
  lemma IdCheckComesFirst(actual: Comment, dto: CommentDto)
    requires actual.id.Some? && actual.postId.Some? && actual.id.value != dto.id
    ensures ValideComment(actual, dto) == Thrown(PostFailure(DATA_MISMATCH))
    ensures ValideComment(actual, dto.(content := None, authorId := dto.authorId + 1))
            == Thrown(PostFailure(DATA_MISMATCH))
  {
  }

  /** Resubmitting the stored content is always rejected. */
  lemma SameContentIsRejected(actual: Comment, dto: CommentDto)
    requires dto.content == actual.content
    ensures ValideComment(actual, dto).Thrown?
  {
  }

  /** `validPostComments`: a post whose comment list is null or empty is rejected. */
  function ValidPostComments(post: Post): (r: Outcome<Unit>)
    ensures r.Ok? <==> post.comments.Some? && post.comments.value != []
    ensures r.Thrown? ==> r.exception == PostFailure(NO_COMMENTS)
  {
    if post.comments.None? || post.comments.value == [] then Thrown(PostFailure(NO_COMMENTS))
    else Ok(Unit)
  }
}
