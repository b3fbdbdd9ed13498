/** `PostMapper`: the hand-written parts of the MapStruct mapper (album and resource
    ids, the visibility conversion) and the mappings that use them. */
module PostMapping {
  import opened Base
  import opened PostModel
  import opened CacheModel
  import PostStore

  /** `PostDraftResponseDto`. */
  datatype PostDraftResponseDto = PostDraftResponseDto(
    id: Option<int>,
    content: Option<string>,
    authorId: Option<int>,
    projectId: Option<int>,
    albumsIds: seq<Option<int>>,
    resourcesIds: seq<Option<int>>,
    published: bool,
    deleted: bool,
    createdAt: Option<Time>)

  /** `mapAlbumsToIds`: the id of every album, in order; a null list is a
      NullPointerException (`albums.stream()`). */
  function MapAlbumsToIds(albums: Option<seq<AlbumRef>>): (r: Outcome<seq<Option<int>>>)
    ensures r.Thrown? <==> albums.None?
    ensures r.Thrown? ==> r.exception == NullPointer
    ensures r.Ok? ==> |r.value| == |albums.value|
                      && forall i :: 0 <= i < |albums.value| ==> r.value[i] == albums.value[i].id
  {
    if albums.None? then Thrown(NullPointer)
    else Ok(seq(|albums.value|, i requires 0 <= i < |albums.value| => albums.value[i].id))
  }

  /** `mapResourcesToIds`: the id of every resource, in order. */
  function MapResourcesToIds(resources: Option<seq<Resource>>): (r: Outcome<seq<Option<int>>>)
    ensures r.Thrown? <==> resources.None?
    ensures r.Thrown? ==> r.exception == NullPointer
    ensures r.Ok? ==> |r.value| == |resources.value|
                      && forall i :: 0 <= i < |resources.value| ==> r.value[i] == resources.value[i].id
  {
    if resources.None? then Thrown(NullPointer)
    else Ok(seq(|resources.value|, i requires 0 <= i < |resources.value| => resources.value[i].id))
  }

  /** Mapping ids distributes over concatenation: a post that gains an album at the
      end gains its id at the end. */
  lemma MapAlbumsToIdsAppend(a: seq<AlbumRef>, b: seq<AlbumRef>)
    ensures MapAlbumsToIds(Some(a + b)).value == MapAlbumsToIds(Some(a)).value + MapAlbumsToIds(Some(b)).value
  {
  }

  /** `convertVisibility`: PUBLIC exactly for a post visible now. */
  function ConvertVisibility(p: Post, now: Time): (v: PostVisibility)
    ensures v == PUBLIC <==> IsVisible(p, now)
  {
    if IsVisible(p, now) then PUBLIC else PRIVATE
  }

  /** A post the cache marks PUBLIC is published, not deleted and not scheduled
      later than `now`. */
  lemma PublicMeansPublished(p: Post, now: Time)
    requires ConvertVisibility(p, now) == PUBLIC
    ensures p.published && !p.deleted && p.visibility == PUBLIC
    ensures p.scheduledAt.None? || p.scheduledAt.value < now
  {
  }

  /** `toDraftDtoFromPost`: the scalar fields copied, the album and resource lists
      mapped to ids. */
  function ToDraftDtoFromPost(p: Post): (r: Outcome<PostDraftResponseDto>)
    ensures r.Thrown? <==> p.albums.None? || p.resources.None?
    ensures r.Ok? ==> r.value.id == p.id && r.value.content == p.content
                      && r.value.authorId == p.authorId && r.value.projectId == p.projectId
                      && r.value.published == p.published && r.value.deleted == p.deleted
                      && r.value.createdAt == p.createdAt
                      && Ok(r.value.albumsIds) == MapAlbumsToIds(p.albums)
                      && Ok(r.value.resourcesIds) == MapResourcesToIds(p.resources)
  {
    var albumsIds :- MapAlbumsToIds(p.albums);
    var resourcesIds :- MapResourcesToIds(p.resources);
    Ok(PostDraftResponseDto(p.id, p.content, p.authorId, p.projectId, albumsIds, resourcesIds,
                            p.published, p.deleted, p.createdAt))
  }

  /** A post read from or written to the table always maps. */
  lemma StoredPostsMap(p: Post)
    requires PostStore.Stored(p)
    ensures ToDraftDtoFromPost(p).Ok?
    ensures ToDraftDtoFromPost(PrePersist(p)).Ok?
  {
  }

  /** `toPostCache`: the fields of the same name copied, visibility converted, and
      the builder's empty comment set. */
  function ToPostCache(p: Post, now: Time): (c: PostCache)
    ensures c.id == p.id && c.authorId == p.authorId && c.projectId == p.projectId
    ensures c.content == p.content
    ensures c.likesCount == p.likesCount && c.commentsCount == p.commentsCount
    ensures c.createdAt == p.createdAt && c.updatedAt == p.updatedAt && c.publishedAt == p.publishedAt
    ensures c.verified == p.verified && c.published == p.published
    ensures c.visibility == Some(if IsVisible(p, now) then PUBLIC else PRIVATE)
    ensures c.lastComments == Some([])
  {
    PostCache(p.id, p.authorId, p.projectId, p.content, p.likesCount, p.commentsCount,
              p.createdAt, p.updatedAt, p.publishedAt, p.verified, p.published,
              Some(ConvertVisibility(p, now)), Some([]))
  }
}
