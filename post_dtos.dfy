/** The request bodies for creating a draft post, with their Bean Validation
    constraints (`PostDraftCreateDto`) and the author-or-project rule both share. */
module PostDtos {
  import opened Base
  import opened Text
  import opened PostModel

  const MAX_CONTENT_LENGTH: nat := 4096

  /** The constraint messages. */
  const CONTENT_BLANK := "Content should not be blank"
  const CONTENT_LENGTH := "Content should be between 1 and 4096 characters"
  const AUTHOR_ID := "Author ID must be a positive number or null"
  const PROJECT_ID := "Project ID must be a positive number or null"
  const RESOURCES_EMPTY := "Resources ID should not be empty"
  const ALBUMS_EMPTY := "Albums ID should not be empty"
  const AUTHOR_OR_PROJECT := "The author of a post can be either a user or a project"

  datatype PostDraftCreateDto = PostDraftCreateDto(
    content: Option<string>,
    authorId: Option<int>,
    projectId: Option<int>,
    resourcesId: Option<seq<Option<int>>>,
    albumsId: Option<seq<Option<int>>>,
    scheduledAt: Option<Time>)

  datatype PostDraftWithFilesCreateDto = PostDraftWithFilesCreateDto(
    content: Option<string>,
    authorId: Option<int>,
    projectId: Option<int>,
    albumsId: Option<seq<int>>)

  /** `isAuthorOrProject()` of both DTOs:
      `authorId != null && projectId == null || authorId == null && projectId != null`. */
  predicate IsAuthorOrProject(authorId: Option<int>, projectId: Option<int>)
  {
    (authorId.Some? && projectId.None?) || (authorId.None? && projectId.Some?)
  }

  /** The rule is an exclusive or: exactly one of the two ids is present. */
  lemma IsAuthorOrProjectIsExclusiveOr(authorId: Option<int>, projectId: Option<int>)
    ensures IsAuthorOrProject(authorId, projectId) <==> (authorId.Some? != projectId.Some?)
    ensures authorId.Some? && projectId.Some? ==> !IsAuthorOrProject(authorId, projectId)
    ensures authorId.None? && projectId.None? ==> !IsAuthorOrProject(authorId, projectId)
  {
  }

  /** `@Positive` on a nullable number: null passes. */
  predicate PositiveOrNull(n: Option<int>)
  {
    n.None? || n.value > 0
  }

  /** `@Size(min = 1)` on a nullable list of `@NotNull @Positive` ids. */
  predicate IdListValid(ids: Option<seq<Option<int>>>)
  {
    ids.None? || (|ids.value| >= 1 && forall i :: 0 <= i < |ids.value| ==> ids.value[i].Some? && ids.value[i].value > 0)
  }

  /** The message of one constraint when it fails, nothing when it holds. */
  function Check(holds: bool, message: string): (r: seq<string>)
    ensures |r| == 0 <==> holds
    ensures !holds ==> r == [message]
  {
    if holds then [] else [message]
  }

  /** The messages of the constraints `dto` violates, in declaration order (Bean
      Validation reports them as an unordered set; `@Positive` and `@NotNull` use
      their own names where the source gives no message). A bad element of an id
      list is folded into that list's one message, where Bean Validation reports
      one violation per bad element. */
  function Violations(dto: PostDraftCreateDto): (r: seq<string>)
    ensures |r| == 0 <==>
      NotBlank(dto.content)
      && 1 <= |dto.content.value| <= MAX_CONTENT_LENGTH
      && PositiveOrNull(dto.authorId) && PositiveOrNull(dto.projectId)
      && IdListValid(dto.resourcesId) && IdListValid(dto.albumsId)
      && IsAuthorOrProject(dto.authorId, dto.projectId)
    ensures dto.content.None? ==> |r| > 0 && r[0] == CONTENT_BLANK
  {
    Check(NotBlank(dto.content), CONTENT_BLANK)
    + Check(dto.content.None? || 1 <= |dto.content.value| <= MAX_CONTENT_LENGTH, CONTENT_LENGTH)
    + Check(PositiveOrNull(dto.authorId), AUTHOR_ID)
    + Check(PositiveOrNull(dto.projectId), PROJECT_ID)
    + Check(IdListValid(dto.resourcesId), RESOURCES_EMPTY)
    + Check(IdListValid(dto.albumsId), ALBUMS_EMPTY)
    + Check(IsAuthorOrProject(dto.authorId, dto.projectId), AUTHOR_OR_PROJECT)
  }

  /** A draft that passes validation names exactly one owner, whose id is positive,
      and its content holds a non-blank character. */
  lemma ValidDraftHasOnePositiveOwner(dto: PostDraftCreateDto)
    requires Violations(dto) == []
    ensures (dto.authorId.Some? && dto.authorId.value > 0 && dto.projectId.None?)
         || (dto.projectId.Some? && dto.projectId.value > 0 && dto.authorId.None?)
    ensures exists i :: 0 <= i < |dto.content.value| && dto.content.value[i] > ' '
  {
  }

  /** The draft with files only checks the owner rule. */
  predicate WithFilesValid(dto: PostDraftWithFilesCreateDto)
  {
    IsAuthorOrProject(dto.authorId, dto.projectId)
  }

  /** Blank, empty or missing content does not stop a draft with files. */
  lemma WithFilesIgnoresContent(dto: PostDraftWithFilesCreateDto, other: Option<string>)
    ensures WithFilesValid(dto) == WithFilesValid(dto.(content := other))
  {
  }
}
