/** The JPA entities of the post service as values: posts, their comments, likes and
    file resources. Timestamps are epoch seconds; `now` is always a parameter. */
module PostModel {
  import opened Base

  /** Epoch seconds (UTC). */
  type Time = int

  /** `PostVisibility`: only whether a post is PUBLIC matters to the modelled code. */
  datatype PostVisibility = PUBLIC | PRIVATE

  /** A like row: by a user, on a post or on a comment. */
  datatype Like = Like(id: Option<int>, userId: Option<int>, postId: Option<int>,
                       commentId: Option<int>, createdAt: Option<Time>)

  /** A stored file of a post; `key` is its object-storage key. */
  datatype Resource = Resource(id: Option<int>, name: Option<string>, key: string,
                               size: int, contentType: Option<string>)

  /** An album a post belongs to, as far as a post sees it. */
  datatype AlbumRef = AlbumRef(id: Option<int>)

  /** A comment. `postId` is the id of the owning post, `None` when the comment has no
      post; `verified` is `None` until moderation has run. `createdAt` is assigned by
      the database on insert and is therefore always present. */
  datatype Comment = Comment(
    id: Option<int>,
    content: Option<string>,
    authorId: Option<int>,
    postId: Option<int>,
    likes: Option<seq<Like>>,
    verified: Option<bool>,
    verifiedAt: Option<Time>,
    createdAt: Time,
    updatedAt: Option<Time>)

  /** A post. Collections are `None` while Hibernate has not initialised them. */
  datatype Post = Post(
    id: Option<int>,
    content: Option<string>,
    authorId: Option<int>,
    projectId: Option<int>,
    likes: Option<seq<Like>>,
    comments: Option<seq<Comment>>,
    albums: Option<seq<AlbumRef>>,
    resources: Option<seq<Resource>>,
    published: bool,
    visibility: PostVisibility,
    publishedAt: Option<Time>,
    scheduledAt: Option<Time>,
    deleted: bool,
    createdAt: Option<Time>,
    updatedAt: Option<Time>,
    verified: bool,
    commentsCount: Option<int>,
    likesCount: Option<int>)

  /** The builder's defaults: every reference null, every flag false, visibility PUBLIC. */
  function NewPost(): (p: Post)
    ensures p.visibility == PUBLIC
    ensures !p.published && !p.deleted && !p.verified
    ensures p.id == None && p.likes == None && p.comments == None && p.albums == None && p.resources == None
  {
    Post(None, None, None, None, None, None, None, None, false, PUBLIC, None, None, false,
         None, None, false, None, None)
  }

  /** `@PrePersist`/`@PreUpdate`: every null collection becomes an empty list. */
  function PrePersist(p: Post): (r: Post)
    ensures r.likes == (if p.likes == None then Some([]) else p.likes)
    ensures r.comments == (if p.comments == None then Some([]) else p.comments)
    ensures r.albums == (if p.albums == None then Some([]) else p.albums)
    ensures r.resources == (if p.resources == None then Some([]) else p.resources)
    ensures r.(likes := p.likes, comments := p.comments, albums := p.albums, resources := p.resources) == p
  {
    p.(likes := if p.likes == None then Some([]) else p.likes,
       comments := if p.comments == None then Some([]) else p.comments,
       albums := if p.albums == None then Some([]) else p.albums,
       resources := if p.resources == None then Some([]) else p.resources)
  }

  /** After the hook no collection is null, and running it again changes nothing. */
  lemma PrePersistInitialisesAndIsIdempotent(p: Post)
    ensures PrePersist(p).likes.Some? && PrePersist(p).comments.Some?
    ensures PrePersist(p).albums.Some? && PrePersist(p).resources.Some?
    ensures PrePersist(PrePersist(p)) == PrePersist(p)
    ensures p.likes.Some? && p.comments.Some? && p.albums.Some? && p.resources.Some? ==> PrePersist(p) == p
  {
  }

  /** `Post.isVisible()`: published, not deleted, not scheduled for later, and PUBLIC. */
  predicate IsVisible(p: Post, now: Time)
  {
    p.published && !p.deleted
    && (p.scheduledAt == None || p.scheduledAt.value < now)
    && p.visibility == PUBLIC
  }

  /** `Post.canBeAddedToFeed()`: exactly the verified flag. */
  predicate CanBeAddedToFeed(p: Post)
  {
    p.verified
  }

  /** A deleted or unpublished post is never visible, and a post scheduled at `now`
      or later is not visible yet (the comparison with `now` is strict). */
  lemma HiddenPostsAreNotVisible(p: Post, now: Time)
    ensures p.deleted || !p.published ==> !IsVisible(p, now)
    ensures p.scheduledAt.Some? && p.scheduledAt.value >= now ==> !IsVisible(p, now)
    ensures p.visibility != PUBLIC ==> !IsVisible(p, now)
  {
  }

  /** Feed eligibility ignores publication and deletion: a deleted or unpublished post
      that is verified can still be added to a feed. */
  lemma FeedEligibilityIgnoresLifecycle(p: Post)
    ensures CanBeAddedToFeed(p) == CanBeAddedToFeed(p.(published := false, deleted := true))
  {
  }
}
