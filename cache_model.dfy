/** The Redis hash entities of the feed (`PostCache`, `CommentCache`) and the
    repository that stores cached posts by id. */
module CacheModel {
  import opened Base
  import opened PostModel

  /** A cached comment; every field may be null. */
  datatype CommentCache = CommentCache(
    id: Option<int>,
    content: Option<string>,
    authorId: Option<int>,
    postId: Option<int>,
    createdAt: Option<Time>,
    updatedAt: Option<Time>)

  /** A cached post. `lastComments` is an insertion-ordered set (a `LinkedHashSet`),
      `None` when the field was set to null. */
  datatype PostCache = PostCache(
    id: Option<int>,
    authorId: Option<int>,
    projectId: Option<int>,
    content: Option<string>,
    likesCount: Option<int>,
    commentsCount: Option<int>,
    createdAt: Option<Time>,
    updatedAt: Option<Time>,
    publishedAt: Option<Time>,
    verified: bool,
    published: bool,
    visibility: Option<PostVisibility>,
    lastComments: Option<seq<CommentCache>>)

  /** `PostCache.builder().build()`: both counters 0, an empty comment set, every
      other field null or false. */
  function EmptyPostCache(): (c: PostCache)
    ensures c.likesCount == Some(0) && c.commentsCount == Some(0) && c.lastComments == Some([])
    ensures c.id == None && !c.verified && !c.published && c.visibility == None
  {
    PostCache(None, None, None, None, Some(0), Some(0), None, None, None, false, false, None, Some([]))
  }

  /** `PostCacheRepository`: cached posts by id (the time-to-live is not modelled). */
  class PostCacheRepository {
    var entries: map<int, PostCache>

    /** Every entry is stored under its own id. */
    ghost predicate Valid()
      reads this
    {
      forall id :: id in entries ==> entries[id].id == Some(id)
    }

    constructor()
      ensures entries == map[] && Valid()
    {
      entries := map[];
    }

    /** `findById`: a null id is an IllegalArgumentException. */
    function FindById(id: Option<int>): (r: Outcome<Option<PostCache>>)
      reads this
      ensures r.Thrown? <==> id.None?
      ensures r.Ok? ==> (r.value.Some? <==> id.value in entries)
      ensures r.Ok? && r.value.Some? ==> r.value.value == entries[id.value]
    {
      if id.None? then Thrown(IllegalArgument("The given id must not be null"))
      else if id.value in entries then Ok(Some(entries[id.value]))
      else Ok(None)
    }

    /** `save`: stores the entry under its id, replacing any earlier one. */
    method Save(c: PostCache) returns (saved: PostCache)
      requires Valid()
      requires c.id.Some?
      modifies this
      ensures Valid()
      ensures saved == c
      ensures entries == old(entries)[c.id.value := c]
    {
      entries := entries[c.id.value := c];
      saved := c;
    }
  }
}
