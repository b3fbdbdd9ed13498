/** `PostService`: the lifecycle of a post (publish once, content update, soft
    delete), the lookups other services use, the ban threshold over unverified
    posts, the batches handed to the grammar corrector, and the bookkeeping of a
    post's files. The post table is a `PostRepository`; the user and project
    services, the object store and the key generator are parameters. */
module PostServices {
  import opened Base
  import opened Seqs
  import opened Text
  import opened PostModel
  import opened PostStore
  import opened FileChecks

  const POST_NOT_FOUND := "Post not found"
  const ALREADY_PUBLISHED := "Post is already published"
  const INVALID_POST_ID := "Invalid post ID"
  const FIND_MISSING := "Comment not found"
  const USER_NOT_FOUND := "User not found"
  const PROJECT_NOT_FOUND := "Project not found"
  const CORRECTOR_BATCH_SIZE: nat := 5

  // ---------------------------------------------------------------------------
  // Lookups
  // ---------------------------------------------------------------------------

  /** `getPostById`: the stored post, or "Post not found". */
  function GetPostById(rows: seq<Post>, postId: int): (r: Outcome<Post>)
    ensures r.Ok? <==> exists i :: 0 <= i < |rows| && rows[i].id == Some(postId)
    ensures r.Thrown? ==> r.exception == IllegalArgument(POST_NOT_FOUND)
    ensures r.Ok? ==> r.value in rows && r.value.id == Some(postId)
  {
    match RowWithId(rows, postId)
    case None => Thrown(IllegalArgument(POST_NOT_FOUND))
    case Some(p) => Ok(p)
  }

  /** `findPostById`: a null id fails the id validator; an unknown id is an
      EntityNotFoundException, whose message speaks of a comment. */
  function FindPostById(rows: seq<Post>, postId: Option<int>): (r: Outcome<Post>)
    ensures postId.None? ==> r == Thrown(IllegalArgument(INVALID_POST_ID))
    ensures postId.Some? ==> (r.Ok? <==> exists i :: 0 <= i < |rows| && rows[i].id == postId)
    ensures postId.Some? && r.Thrown? ==> r.exception == EntityNotFound(FIND_MISSING)
    ensures r.Ok? ==> r.value in rows && r.value.id == postId
  {
    if postId.None? then Thrown(IllegalArgument(INVALID_POST_ID))
    else
      match RowWithId(rows, postId.value)
      case None => Thrown(EntityNotFound(FIND_MISSING))
      case Some(p) => Ok(p)
  }

  /** `existsPost`: a null id fails the id validator. */
  function ExistsPost(rows: seq<Post>, postId: Option<int>): (r: Outcome<bool>)
    ensures postId.None? ==> r == Thrown(IllegalArgument(INVALID_POST_ID))
    ensures postId.Some? ==> r.Ok? && (r.value <==> exists i :: 0 <= i < |rows| && rows[i].id == postId)
  {
    if postId.None? then Thrown(IllegalArgument(INVALID_POST_ID))
    else Ok(RowWithId(rows, postId.value).Some?)
  }

  /** The three lookups agree on which posts exist. */
  lemma LookupsAgree(rows: seq<Post>, postId: int)
    ensures FindPostById(rows, Some(postId)).Ok? <==> ExistsPost(rows, Some(postId)) == Ok(true)
    ensures FindPostById(rows, Some(postId)).Ok? <==> GetPostById(rows, postId).Ok?
    ensures GetPostById(rows, postId).Ok? ==> FindPostById(rows, Some(postId)) == GetPostById(rows, postId)
  {
  }

  // ---------------------------------------------------------------------------
  // Lifecycle
  // ---------------------------------------------------------------------------

  /** `publishPost` on the loaded post: a published post is refused; otherwise it
      becomes published at `now` and nothing else about it changes. */
  function Published(p: Post, now: Time): (r: Outcome<Post>)
    ensures r.Ok? <==> !p.published
    ensures r.Thrown? ==> r.exception == IllegalArgument(ALREADY_PUBLISHED)
    ensures r.Ok? ==> r.value.published && r.value.publishedAt == Some(now)
                      && r.value.(published := p.published, publishedAt := p.publishedAt) == p
  {
    if p.published then Thrown(IllegalArgument(ALREADY_PUBLISHED))
    else Ok(p.(published := true, publishedAt := Some(now)))
  }

  /** A post is published at most once: publishing the result again is refused,
      and the first publication time stays. */
  lemma PublishIsOnce(p: Post, now: Time, later: Time)
    requires Published(p, now).Ok?
    ensures Published(Published(p, now).value, later) == Thrown(IllegalArgument(ALREADY_PUBLISHED))
  {
  }

  /** Publishing makes an undeleted, unscheduled PUBLIC post visible, and never
      changes whether it can go into feeds. */
  lemma PublishMakesVisible(p: Post, now: Time, at: Time)
    requires Published(p, now).Ok?
    ensures !p.deleted && p.scheduledAt.None? && p.visibility == PUBLIC ==> IsVisible(Published(p, now).value, at)
    ensures CanBeAddedToFeed(Published(p, now).value) == CanBeAddedToFeed(p)
  {
  }

  /** `updatePost` on the loaded post: only the content changes. */
  function WithContent(p: Post, content: string): (r: Post)
    ensures r.content == Some(content)
    ensures r.(content := p.content) == p
  {
    p.(content := Some(content))
  }

  /** A content update changes neither visibility nor feed eligibility, and a
      second update with the same content changes nothing more. */
  lemma ContentUpdateKeepsLifecycle(p: Post, content: string, now: Time)
    ensures IsVisible(WithContent(p, content), now) == IsVisible(p, now)
    ensures CanBeAddedToFeed(WithContent(p, content)) == CanBeAddedToFeed(p)
    ensures WithContent(WithContent(p, content), content) == WithContent(p, content)
  {
  }

  /** `deletePost` on the loaded post: only the deleted flag is set; the row
      stays. */
  function SoftDeleted(p: Post): (r: Post)
    ensures r.deleted
    ensures r.(deleted := p.deleted) == p
  {
    p.(deleted := true)
  }

  /** A soft-deleted post is never visible, whatever else holds, and deleting it
      again changes nothing. */
  lemma DeletedPostIsHidden(p: Post, now: Time)
    ensures !IsVisible(SoftDeleted(p), now)
    ensures SoftDeleted(SoftDeleted(p)) == SoftDeleted(p)
  {
    HiddenPostsAreNotVisible(SoftDeleted(p), now);
  }

  /** The row of a valid table that has a given id is the one `GetPostById`
      returns. */
  lemma FoundRowIsTheRow(rows: seq<Post>, postId: int, i: int)
    requires forall a, b :: 0 <= a < b < |rows| ==> rows[a].id != rows[b].id
    requires 0 <= i < |rows| && rows[i].id == Some(postId)
    ensures GetPostById(rows, postId) == Ok(rows[i])
  {
    var p := GetPostById(rows, postId).value;
    var j :| 0 <= j < |rows| && rows[j] == p;
    assert i == j;
  }

  // ---------------------------------------------------------------------------
  // Ban threshold
  // ---------------------------------------------------------------------------

  /** Number of the posts written by `authorId`. */
  function PostCount(posts: seq<Post>, authorId: int): nat
  {
    |Filter(posts, (p: Post) => p.authorId == Some(authorId))|
  }

  /** A post by `authorId` makes the author's count positive. */
  lemma {:induction false} CountOfPresentAuthor(posts: seq<Post>, authorId: int)
    requires exists i :: 0 <= i < |posts| && posts[i].authorId == Some(authorId)
    ensures PostCount(posts, authorId) >= 1
  {
    var i :| 0 <= i < |posts| && posts[i].authorId == Some(authorId);
    assert posts[i] in Filter(posts, (p: Post) => p.authorId == Some(authorId));
  }

  /** The authors of the posts that have one. */
  function Authors(posts: seq<Post>): (r: set<int>)
    ensures forall a :: a in r <==> exists i :: 0 <= i < |posts| && posts[i].authorId == Some(a)
  {
    set i | 0 <= i < |posts| && posts[i].authorId.Some? :: posts[i].authorId.value
  }

  /** `getBannedUsers` as written: grouping by author id throws on the first post
      without an author (a project's post); otherwise the authors whose posts
      number at least the threshold. */
  function BannedUsersAsWritten(posts: seq<Post>, threshold: int): (r: Outcome<set<int>>)
    ensures r.Thrown? <==> exists i :: 0 <= i < |posts| && posts[i].authorId.None?
    ensures r.Thrown? ==> r.exception == NullPointer
  {
    if exists i :: 0 <= i < |posts| && posts[i].authorId.None? then Thrown(NullPointer)
    else Ok(set a | a in Authors(posts) && PostCount(posts, a) >= threshold)
  }

  /** One unverified project post is enough to stop the ban check for every author. */
  lemma ProjectPostStopsBanCheck(author: Post, project: Post)
    requires author.authorId.Some? && project.authorId.None?
    ensures BannedUsersAsWritten([author, author, project], 1) == Thrown(NullPointer)
  {
    assert [author, author, project][2].authorId.None?;
  }

  /** `getBannedUsers`, counting only the posts that have an author. */
  function BannedUsers(posts: seq<Post>, threshold: int): (r: set<int>)
    ensures forall a :: a in r ==> PostCount(posts, a) >= threshold && PostCount(posts, a) >= 1
  {
    set a | a in Authors(posts) && PostCount(posts, a) >= threshold :: (CountOfPresentAuthor(posts, a); a)
  }

  /** Exactly the authors with at least `threshold` (and at least one) posts are
      banned, and where every post has an author the corrected count agrees with
      the written one. */
  lemma BannedUsersAreExactlyTheHeavyAuthors(posts: seq<Post>, threshold: int, a: int)
    ensures a in BannedUsers(posts, threshold) <==> PostCount(posts, a) >= threshold && PostCount(posts, a) >= 1
    ensures BannedUsersAsWritten(posts, threshold).Ok? ==> BannedUsersAsWritten(posts, threshold) == Ok(BannedUsers(posts, threshold))
  {
    forall b ensures b in BannedUsers(posts, threshold) <==> b in Authors(posts) && PostCount(posts, b) >= threshold {
      if b in Authors(posts) && PostCount(posts, b) >= threshold {
        CountOfPresentAuthor(posts, b);
      }
    }
    assert BannedUsers(posts, threshold) == set b | b in Authors(posts) && PostCount(posts, b) >= threshold;
    if PostCount(posts, a) >= 1 {
      var i :| 0 <= i < |Filter(posts, (p: Post) => p.authorId == Some(a))|;
      assert Filter(posts, (p: Post) => p.authorId == Some(a))[i] in posts;
    }
  }

  /** `checkPostsForVerification`, with the intended count: the ids of the authors
      to ban among the unverified posts; no message at all when there are none. */
  function BanMessage(rows: seq<Post>, threshold: int): (r: Option<set<int>>)
    ensures r.Some? ==> r.value != {}
    ensures forall a :: r.Some? && a in r.value <==>
              PostCount(FindByNotVerified(rows), a) >= threshold && PostCount(FindByNotVerified(rows), a) >= 1
  {
    var unverified := FindByNotVerified(rows);
    var banned := BannedUsers(unverified, threshold);
    assert forall a :: a in banned <==> PostCount(unverified, a) >= threshold && PostCount(unverified, a) >= 1 by {
      forall a ensures a in banned <==> PostCount(unverified, a) >= threshold && PostCount(unverified, a) >= 1 {
        BannedUsersAreExactlyTheHeavyAuthors(unverified, threshold, a);
      }
    }
    if banned == {} then None else Some(banned)
  }

  /** `checkPostsForVerification` as written: an unverified post without an author
      makes the grouping throw and no message is sent; otherwise the message is the
      intended one. */
  function BanMessageAsWritten(rows: seq<Post>, threshold: int): (r: Outcome<Option<set<int>>>)
    ensures r.Thrown? <==> exists x :: x in rows && !x.verified && x.authorId.None?
    ensures r.Thrown? ==> r.exception == NullPointer
    ensures r.Ok? ==> r.value == BanMessage(rows, threshold)
  {
    var unverified := FindByNotVerified(rows);
    BannedUsersAreExactlyTheHeavyAuthors(unverified, threshold, 0);
    assert (exists i :: 0 <= i < |unverified| && unverified[i].authorId.None?)
           <==> exists x :: x in rows && !x.verified && x.authorId.None? by {
      if exists x :: x in rows && !x.verified && x.authorId.None? {
        var x :| x in rows && !x.verified && x.authorId.None?;
        assert x in unverified;
      }
    }
    var banned :- BannedUsersAsWritten(unverified, threshold);
    Ok(if banned == {} then None else Some(banned))
  }

  /** A table whose posts are all verified sends no ban message. */
  lemma AllVerifiedMeansNoBan(rows: seq<Post>, threshold: int)
    requires forall i :: 0 <= i < |rows| ==> rows[i].verified
    ensures BanMessage(rows, threshold) == None
  {
    var unverified := FindByNotVerified(rows);
    assert Authors(unverified) == {};
  }

  // ---------------------------------------------------------------------------
  // Users and projects
  // ---------------------------------------------------------------------------

  /** `validateUserOrProject`: a present user id must name a user, then a present
      project id must name a project. A lookup answers whether the service found
      the entity, or fails. */
  function ValidateUserOrProject(userId: Option<int>, projectId: Option<int>,
                                 findUser: int -> Outcome<bool>, findProject: int -> Outcome<bool>): (r: Outcome<Unit>)
    ensures r.Ok? <==> (userId.None? || findUser(userId.value) == Ok(true))
                       && (projectId.None? || findProject(projectId.value) == Ok(true))
    ensures userId.Some? && findUser(userId.value) == Ok(false) ==> r == Thrown(EntityNotFound(USER_NOT_FOUND))
    ensures userId.Some? && findUser(userId.value).Thrown? ==> r == Thrown(findUser(userId.value).exception)
    ensures (userId.None? || findUser(userId.value) == Ok(true)) && projectId.Some? && findProject(projectId.value) == Ok(false)
            ==> r == Thrown(EntityNotFound(PROJECT_NOT_FOUND))
  {
    var _ :- if userId.None? then Ok(Unit)
             else match findUser(userId.value)
                  case Thrown(e) => Thrown(e)
                  case Ok(found) => if found then Ok(Unit) else Thrown(EntityNotFound(USER_NOT_FOUND));
    if projectId.None? then Ok(Unit)
    else match findProject(projectId.value)
         case Thrown(e) => Thrown(e)
         case Ok(found) => if found then Ok(Unit) else Thrown(EntityNotFound(PROJECT_NOT_FOUND))
  }

  /** A draft owned by a user alone never consults the project service. */
  lemma AuthorDraftSkipsProjects(userId: int, findUser: int -> Outcome<bool>,
                                 projects1: int -> Outcome<bool>, projects2: int -> Outcome<bool>)
    ensures ValidateUserOrProject(Some(userId), None, findUser, projects1)
            == ValidateUserOrProject(Some(userId), None, findUser, projects2)
  {
  }

  // ---------------------------------------------------------------------------
  // Files
  // ---------------------------------------------------------------------------

  /** `%d` of a `Long`: null prints as "null". */
  function FormatLong(n: Option<int>): string
  {
    if n.None? then "null" else LongToString(n.value)
  }

  /** The object-store folder of a post: `<authorId>:files:<projectId>`. */
  function Folder(post: Post): (r: string)
    ensures StartsWith(r, FormatLong(post.authorId) + ":files:")
  {
    var prefix := FormatLong(post.authorId) + ":files:";
    assert (prefix + FormatLong(post.projectId))[..|prefix|] == prefix;
    prefix + FormatLong(post.projectId)
  }

  /** A user's post (no project) stores its files under `<userId>:files:null`. */
  lemma AuthorFolder(post: Post, userId: int)
    requires post.authorId == Some(userId) && post.projectId.None?
    ensures Folder(post) == LongToString(userId) + ":files:null"
  {
  }

  /** The resource stored for the `k`-th uploaded file under `key`. */
  function UploadedResource(file: MultipartFile, key: string, id: int): Resource
  {
    Resource(Some(id), file.originalFilename, key, file.size, file.contentType)
  }

  /** `uploadAndAddFiles`: each file gets a fresh key under the post's folder (the
      `k`-th fresh name is `uuid(k)`), is uploaded under it, and its stored
      resource (with identity value `ids(k)`) is appended to the list, in file
      order. The returned keys are the uploads, in order. */
  method UploadAndAddFiles(resources: seq<Resource>, files: seq<MultipartFile>, post: Post,
                           uuid: nat -> string, ids: nat -> int)
    returns (r: seq<Resource>, uploaded: seq<string>)
    ensures |r| == |resources| + |files| && r[..|resources|] == resources
    ensures |uploaded| == |files|
    ensures forall k :: 0 <= k < |files| ==>
              uploaded[k] == Folder(post) + "/" + uuid(k)
              && r[|resources| + k] == UploadedResource(files[k], uploaded[k], ids(k))
  {
    var folder := Folder(post);
    r := resources;
    uploaded := [];
    for k := 0 to |files|
      invariant |r| == |resources| + k && r[..|resources|] == resources
      invariant |uploaded| == k
      invariant forall j :: 0 <= j < k ==>
                  uploaded[j] == folder + "/" + uuid(j)
                  && r[|resources| + j] == UploadedResource(files[j], uploaded[j], ids(j))
    {
      var key := folder + "/" + uuid(k);
      uploaded := uploaded + [key];
      r := r + [UploadedResource(files[k], key, ids(k))];
    }
  }

  /** Every uploaded key lies in the post's folder. */
  lemma UploadedKeysLieInFolder(post: Post, uuid: nat -> string, k: nat)
    ensures StartsWith(Folder(post) + "/" + uuid(k), Folder(post) + "/")
  {
    var f := Folder(post) + "/";
    assert (f + uuid(k))[..|f|] == f;
  }

  /** The stored resources that the new list no longer holds. */
  function Irrelevant(fromDb: seq<Resource>, toUpdate: seq<Resource>): (r: seq<Resource>)
    ensures forall x :: x in r <==> x in fromDb && x !in toUpdate
  {
    Filter(fromDb, (x: Resource) => x !in toUpdate)
  }

  /** The object-store keys of the stored resources the new list drops. */
  function IrrelevantKeys(fromDb: seq<Resource>, toUpdate: seq<Resource>): seq<string>
  {
    Map(Irrelevant(fromDb, toUpdate), (x: Resource) => x.key)
  }

  /** Proof helper: one more stored resource adds its key to the deleted ones exactly when the
      new list does not hold it. */
  lemma IrrelevantKeysStep(prefix: seq<Resource>, x: Resource, toUpdate: seq<Resource>)
    ensures IrrelevantKeys(prefix + [x], toUpdate)
            == IrrelevantKeys(prefix, toUpdate) + (if x !in toUpdate then [x.key] else [])
  {
    FilterAppend(prefix, [x], (y: Resource) => y !in toUpdate);
    MapAppend(Irrelevant(prefix, toUpdate), Filter([x], (y: Resource) => y !in toUpdate), (x: Resource) => x.key);
  }

  /** `removeIrrelevantResourcesFromMinio`: walks the stored resources and deletes
      from the object store the key of each one the new list does not contain;
      the result is the deleted keys, in order. */
  method RemoveIrrelevantResources(fromDb: seq<Resource>, toUpdate: seq<Resource>) returns (deleted: seq<string>)
    ensures deleted == IrrelevantKeys(fromDb, toUpdate)
  {
    deleted := [];
    for i := 0 to |fromDb|
      invariant deleted == IrrelevantKeys(fromDb[..i], toUpdate)
    {
      assert fromDb[..i + 1] == fromDb[..i] + [fromDb[i]];
      IrrelevantKeysStep(fromDb[..i], fromDb[i], toUpdate);
      if fromDb[i] !in toUpdate {
        deleted := deleted + [fromDb[i].key];
      }
    }
    assert fromDb[..|fromDb|] == fromDb;
  }

  /** Exactly the dropped resources lose their key: a kept resource is never
      deleted for its own sake, and keeping every resource deletes nothing. */
  lemma RemovalDeletesExactlyTheDropped(fromDb: seq<Resource>, toUpdate: seq<Resource>)
    ensures forall x :: x in fromDb && x !in toUpdate ==> x.key in IrrelevantKeys(fromDb, toUpdate)
    ensures (forall x :: x in fromDb ==> x in toUpdate) ==> IrrelevantKeys(fromDb, toUpdate) == []
  {
    var dropped := Irrelevant(fromDb, toUpdate);
    forall x | x in fromDb && x !in toUpdate
      ensures x.key in IrrelevantKeys(fromDb, toUpdate)
    {
      var k :| 0 <= k < |dropped| && dropped[k] == x;
      assert IrrelevantKeys(fromDb, toUpdate)[k] == x.key;
    }
  }

  // ---------------------------------------------------------------------------
  // The service
  // ---------------------------------------------------------------------------

  class PostService {
    const posts: PostRepository

    constructor(posts: PostRepository)
      ensures this.posts == posts
    {
      this.posts := posts;
    }

    /** `publishPost`: a missing post or a published one is refused and nothing is
        saved; otherwise the row becomes the published post, stamped by the save. */
    method PublishPost(postId: int, now: Time) returns (r: Outcome<Post>)
      requires postId > 0
      requires posts.Valid()
      modifies posts
      ensures posts.Valid()
      ensures GetPostById(old(posts.rows), postId).Thrown? ==> r == Thrown(IllegalArgument(POST_NOT_FOUND))
      ensures r.Ok? <==> GetPostById(old(posts.rows), postId).Ok? && !GetPostById(old(posts.rows), postId).value.published
      ensures r.Thrown? ==> posts.rows == old(posts.rows)
      ensures r.Ok? ==> r.value == Published(GetPostById(old(posts.rows), postId).value, now).value.(updatedAt := Some(now))
                        && exists i :: 0 <= i < |old(posts.rows)| && old(posts.rows)[i].id == Some(postId)
                                       && posts.rows == old(posts.rows)[i := r.value]
    {
      var found := GetPostById(posts.rows, postId);
      if found.Thrown? {
        return Thrown(found.exception);
      }
      var changed := Published(found.value, now);
      if changed.Thrown? {
        return Thrown(changed.exception);
      }
      r := Resave(found.value, changed.value, now);
    }

    /** `updatePost`: only the content of the stored post changes. */
    method UpdatePost(postId: int, content: string, now: Time) returns (r: Outcome<Post>)
      requires postId > 0
      requires NotBlank(Some(content)) && |content| <= 4096
      requires posts.Valid()
      modifies posts
      ensures posts.Valid()
      ensures r.Ok? <==> GetPostById(old(posts.rows), postId).Ok?
      ensures r.Thrown? ==> r == Thrown(IllegalArgument(POST_NOT_FOUND)) && posts.rows == old(posts.rows)
      ensures r.Ok? ==> r.value == WithContent(GetPostById(old(posts.rows), postId).value, content).(updatedAt := Some(now))
                        && exists i :: 0 <= i < |old(posts.rows)| && old(posts.rows)[i].id == Some(postId)
                                       && posts.rows == old(posts.rows)[i := r.value]
    {
      var found := GetPostById(posts.rows, postId);
      if found.Thrown? {
        return Thrown(found.exception);
      }
      r := Resave(found.value, WithContent(found.value, content), now);
    }

    /** `deletePost`: the stored post is marked deleted and kept. */
    method DeletePost(postId: int, now: Time) returns (r: Outcome<Post>)
      requires postId > 0
      requires posts.Valid()
      modifies posts
      ensures posts.Valid()
      ensures r.Ok? <==> GetPostById(old(posts.rows), postId).Ok?
      ensures r.Thrown? ==> r == Thrown(IllegalArgument(POST_NOT_FOUND)) && posts.rows == old(posts.rows)
      ensures |posts.rows| == |old(posts.rows)|
      ensures r.Ok? ==> r.value == SoftDeleted(GetPostById(old(posts.rows), postId).value).(updatedAt := Some(now))
                        && exists i :: 0 <= i < |old(posts.rows)| && old(posts.rows)[i].id == Some(postId)
                                       && posts.rows == old(posts.rows)[i := r.value]
    {
      var found := GetPostById(posts.rows, postId);
      if found.Thrown? {
        return Thrown(found.exception);
      }
      r := Resave(found.value, SoftDeleted(found.value), now);
    }

    /** Saves a changed copy of a stored row: the save keeps its id and creation
        time, and stamps `updatedAt`. */
    method Resave(stored: Post, changed: Post, now: Time) returns (r: Outcome<Post>)
      requires posts.Valid()
      requires stored in posts.rows
      requires changed.(content := stored.content, published := stored.published, publishedAt := stored.publishedAt,
                        deleted := stored.deleted) == stored
      modifies posts
      ensures posts.Valid()
      ensures r == Ok(changed.(updatedAt := Some(now)))
      ensures exists i :: 0 <= i < |old(posts.rows)| && old(posts.rows)[i] == stored
                          && posts.rows == old(posts.rows)[i := r.value]
    {
      ghost var before := posts.rows;
      assert Stored(stored);
      var saved := posts.Save(changed, now, 0);
      ghost var i :| 0 <= i < |before| && before[i].id == changed.id && saved.createdAt == before[i].createdAt
               && posts.rows == before[i := saved];
      ghost var j :| 0 <= j < |before| && before[j] == stored;
      assert before[j].id == before[i].id;
      assert i == j;
      r := Ok(saved);
    }

    /** `checkingPostForErrors`: the unpublished posts in consecutive batches of
        five, the last one possibly shorter; each batch is corrected and saved
        before the next is taken, and the first failure ends the run. */
    method CheckingPostForErrors(answer: string -> Outcome<string>, now: Time) returns (r: Outcome<Unit>)
      requires posts.Valid()
      modifies posts
      ensures posts.Valid()
      ensures var run := RunCorrector(old(posts.rows), Partition(FindByNotPublished(old(posts.rows)), CORRECTOR_BATCH_SIZE),
                                      answer, now);
              posts.rows == run.rows && (r.Thrown? <==> run.failure.Some?)
              && (r.Thrown? ==> run.failure == Some(r.exception))
    {
      ghost var start := posts.rows;
      var list := FindByNotPublished(posts.rows);
      var total := |list|;
      ghost var batches: seq<seq<Post>> := [];
      var i := 0;
      while i < total
        invariant 0 <= i <= total
        invariant Partition(list, CORRECTOR_BATCH_SIZE) == batches + Partition(list[i..], CORRECTOR_BATCH_SIZE)
        invariant posts.Valid()
        invariant RunCorrector(start, batches, answer, now) == CorrectionRun(posts.rows, None)
      {
        var end := if i + CORRECTOR_BATCH_SIZE < total then i + CORRECTOR_BATCH_SIZE else total;
        var batch := list[i..end];
        RunKeepsKeys(start, batches, answer, now);
        BatchRowsAreStored(start, posts.rows, list, i, end);
        ghost var before := posts.rows;
        var done := CheckingGroupPost(batch, answer, now);
        CorrectorLoopStep(start, list, batches, i, end, before, posts.rows, done, answer, now);
        batches := batches + [batch];
        if done.Thrown? {
          return done;
        }
        i := end;
      }
      assert list[i..] == [] && batches + [] == batches;
      assert Partition(list, CORRECTOR_BATCH_SIZE) == batches;
      r := Ok(Unit);
    }

    /** `checkingGroupPost`: the corrector's copies of the batch, saved one by one
        (`saveAll`); a failed correction saves nothing. */
    method CheckingGroupPost(batch: seq<Post>, answer: string -> Outcome<string>, now: Time) returns (r: Outcome<Unit>)
      requires posts.Valid()
      requires forall p :: p in batch ==> p.id.Some? && exists k :: 0 <= k < |posts.rows| && posts.rows[k].id == p.id
      modifies posts
      ensures posts.Valid()
      ensures CorrectedBatch(batch, answer).Thrown? ==>
                r == Thrown(CorrectedBatch(batch, answer).exception) && posts.rows == old(posts.rows)
      ensures CorrectedBatch(batch, answer).Ok? ==>
                r.Ok? && posts.rows == SavedAll(old(posts.rows), CorrectedBatch(batch, answer).value, now)
    {
      var checked := Correct(batch, answer);
      if checked.Thrown? {
        return Thrown(checked.exception);
      }
      var copies := checked.value;
      ghost var before := posts.rows;
      CopiesAreStored(before, batch, copies, answer);
      for j := 0 to |copies|
        invariant posts.Valid()
        invariant posts.rows == SavedAll(before, copies[..j], now)
      {
        SavedAllFindsId(before, copies, j, now);
        ghost var current := posts.rows;
        var saved := posts.Save(copies[j], now, 0);
        SaveExtendsSavedAll(before, copies, j, current, posts.rows, saved, now);
      }
      assert copies[..|copies|] == copies;
      r := Ok(Unit);
    }
  }

  // ---------------------------------------------------------------------------
  // Grammar corrector
  // ---------------------------------------------------------------------------

  /** `GingerCorrector.correct` on one post: its text goes to the grammar service
      and the answer replaces it. `answer` is the service's reply to a text (a
      failed call throws); a null text cannot be sent. */
  function CorrectedPost(p: Post, answer: string -> Outcome<string>): (r: Outcome<Post>)
    ensures r.Thrown? <==> p.content.None? || answer(p.content.value).Thrown?
    ensures p.content.None? ==> r == Thrown(NullPointer)
    ensures r.Thrown? && p.content.Some? ==> r == Thrown(answer(p.content.value).exception)
    ensures r.Ok? ==> r.value.content == Some(answer(p.content.value).value) && r.value.(content := p.content) == p
  {
    if p.content.None? then Thrown(NullPointer)
    else
      var text :- answer(p.content.value);
      Ok(p.(content := Some(text)))
  }

  /** `GingerCorrector.correct` on a batch: every post corrected in turn; the first
      failure ends it. */
  function CorrectedBatch(batch: seq<Post>, answer: string -> Outcome<string>): (r: Outcome<seq<Post>>)
    ensures r.Ok? <==> forall i :: 0 <= i < |batch| ==> CorrectedPost(batch[i], answer).Ok?
    ensures r.Ok? ==> |r.value| == |batch| && forall i :: 0 <= i < |batch| ==> CorrectedPost(batch[i], answer) == Ok(r.value[i])
    ensures r.Thrown? ==> exists i :: 0 <= i < |batch| && CorrectedPost(batch[i], answer) == Thrown(r.exception)
                                      && forall j :: 0 <= j < i ==> CorrectedPost(batch[j], answer).Ok?
    decreases |batch|
  {
    if batch == [] then Ok([])
    else
      assert forall i :: 1 <= i < |batch| ==> batch[i] == batch[1..][i - 1];
      var head :- CorrectedPost(batch[0], answer);
      var tail :- CorrectedBatch(batch[1..], answer);
      Ok([head] + tail)
  }

  /** The corrector's loop: the posts in order, each replaced by its corrected copy,
      the first failure thrown. */
  method Correct(batch: seq<Post>, answer: string -> Outcome<string>) returns (r: Outcome<seq<Post>>)
    ensures r == CorrectedBatch(batch, answer)
  {
    var copies: seq<Post> := [];
    for j := 0 to |batch|
      invariant |copies| == j
      invariant forall i :: 0 <= i < j ==> CorrectedPost(batch[i], answer) == Ok(copies[i])
    {
      var copy := CorrectedPost(batch[j], answer);
      if copy.Thrown? {
        FirstFailureIsThrown(batch, j, answer);
        return Thrown(copy.exception);
      }
      copies := copies + [copy.value];
    }
    assert CorrectedBatch(batch, answer).Ok?;
    assert CorrectedBatch(batch, answer).value == copies;
    return Ok(copies);
  }

  /** Proof helper: the batch fails with the exception of its first failing post. */
  lemma FirstFailureIsThrown(batch: seq<Post>, j: nat, answer: string -> Outcome<string>)
    requires j < |batch| && CorrectedPost(batch[j], answer).Thrown?
    requires forall i :: 0 <= i < j ==> CorrectedPost(batch[i], answer).Ok?
    ensures CorrectedBatch(batch, answer) == Thrown(CorrectedPost(batch[j], answer).exception)
  {
    var r := CorrectedBatch(batch, answer);
    var i :| 0 <= i < |batch| && CorrectedPost(batch[i], answer) == Thrown(r.exception)
             && forall m :: 0 <= m < i ==> CorrectedPost(batch[m], answer).Ok?;
    if i < j {
    } else if j < i {
    }
  }

  /** What `save` does to the table for a post whose id is stored: that row becomes
      the post, with the stored creation time and `updatedAt` stamped. */
  function ReplaceById(rows: seq<Post>, p: Post, now: Time): (r: seq<Post>)
    ensures |r| == |rows|
    ensures forall k :: 0 <= k < |rows| ==> r[k].id == rows[k].id && r[k].createdAt == rows[k].createdAt
  {
    seq(|rows|, k requires 0 <= k < |rows| =>
          if rows[k].id == p.id then PrePersist(p).(id := rows[k].id, createdAt := rows[k].createdAt, updatedAt := Some(now))
          else rows[k])
  }

  /** `saveAll`: the posts saved in list order. */
  function SavedAll(rows: seq<Post>, posts: seq<Post>, now: Time): (r: seq<Post>)
    ensures |r| == |rows|
    decreases |posts|
  {
    if posts == [] then rows
    else ReplaceById(SavedAll(rows, posts[..|posts| - 1], now), posts[|posts| - 1], now)
  }

  /** How a run of the corrector ended: the table, and the exception that stopped
      it, if any. */
  datatype CorrectionRun = CorrectionRun(rows: seq<Post>, failure: Option<Exception>)

  /** The batches corrected and saved in order; after a failure nothing more is
      saved. */
  function RunCorrector(rows: seq<Post>, batches: seq<seq<Post>>, answer: string -> Outcome<string>, now: Time)
    : (r: CorrectionRun)
    ensures |r.rows| == |rows|
    decreases |batches|
  {
    if batches == [] then CorrectionRun(rows, None)
    else
      var before := RunCorrector(rows, batches[..|batches| - 1], answer, now);
      if before.failure.Some? then before
      else match CorrectedBatch(batches[|batches| - 1], answer)
        case Thrown(e) => CorrectionRun(before.rows, Some(e))
        case Ok(copies) => CorrectionRun(SavedAll(before.rows, copies, now), None)
  }

  /** Saving keeps every row's id and creation time. */
  lemma {:induction false} SavedAllKeepsKeys(rows: seq<Post>, posts: seq<Post>, now: Time)
    ensures forall k :: 0 <= k < |rows| ==>
              SavedAll(rows, posts, now)[k].id == rows[k].id && SavedAll(rows, posts, now)[k].createdAt == rows[k].createdAt
    decreases |posts|
  {
    if posts != [] {
      SavedAllKeepsKeys(rows, posts[..|posts| - 1], now);
    }
  }

  /** A run of the corrector keeps every row's id and creation time. */
  lemma {:induction false} RunKeepsKeys(rows: seq<Post>, batches: seq<seq<Post>>, answer: string -> Outcome<string>, now: Time)
    ensures forall k :: 0 <= k < |rows| ==>
              RunCorrector(rows, batches, answer, now).rows[k].id == rows[k].id
              && RunCorrector(rows, batches, answer, now).rows[k].createdAt == rows[k].createdAt
    decreases |batches|
  {
    if batches != [] {
      var init := batches[..|batches| - 1];
      RunKeepsKeys(rows, init, answer, now);
      var before := RunCorrector(rows, init, answer, now);
      if before.failure.None? && CorrectedBatch(batches[|batches| - 1], answer).Ok? {
        SavedAllKeepsKeys(before.rows, CorrectedBatch(batches[|batches| - 1], answer).value, now);
      }
    }
  }

  /** Once a batch has failed, later batches change nothing. */
  lemma {:induction false} FailureIsFinal(rows: seq<Post>, batches: seq<seq<Post>>, more: seq<seq<Post>>,
                                          answer: string -> Outcome<string>, now: Time)
    requires RunCorrector(rows, batches, answer, now).failure.Some?
    ensures RunCorrector(rows, batches + more, answer, now) == RunCorrector(rows, batches, answer, now)
    decreases |more|
  {
    if more == [] {
      assert batches + more == batches;
    } else {
      var n := |more| - 1;
      FailureIsFinal(rows, batches, more[..n], answer, now);
      assert (batches + more)[..|batches + more| - 1] == batches + more[..n];
    }
  }

  /** Proof helper: one more batch after a run without failure. */
  lemma RunCorrectorStep(rows: seq<Post>, batches: seq<seq<Post>>, batch: seq<Post>,
                         answer: string -> Outcome<string>, now: Time)
    requires RunCorrector(rows, batches, answer, now).failure == None
    ensures var before := RunCorrector(rows, batches, answer, now);
            RunCorrector(rows, batches + [batch], answer, now)
            == match CorrectedBatch(batch, answer)
                 case Thrown(e) => CorrectionRun(before.rows, Some(e))
                 case Ok(copies) => CorrectionRun(SavedAll(before.rows, copies, now), None)
  {
    assert (batches + [batch])[..|batches|] == batches;
  }

  /** Proof helper: one pass of the corrector's loop, after the batch at `i` was
      corrected and saved (or failed) and the table went from `before` to `after`. */
  lemma CorrectorLoopStep(start: seq<Post>, list: seq<Post>, batches: seq<seq<Post>>, i: nat, end: nat,
                          before: seq<Post>, after: seq<Post>, done: Outcome<Unit>,
                          answer: string -> Outcome<string>, now: Time)
    requires i < |list| && end == (if i + CORRECTOR_BATCH_SIZE < |list| then i + CORRECTOR_BATCH_SIZE else |list|)
    requires Partition(list, CORRECTOR_BATCH_SIZE) == batches + Partition(list[i..], CORRECTOR_BATCH_SIZE)
    requires RunCorrector(start, batches, answer, now) == CorrectionRun(before, None)
    requires CorrectedBatch(list[i..end], answer).Thrown? ==>
               done == Thrown(CorrectedBatch(list[i..end], answer).exception) && after == before
    requires CorrectedBatch(list[i..end], answer).Ok? ==>
               done.Ok? && after == SavedAll(before, CorrectedBatch(list[i..end], answer).value, now)
    ensures Partition(list, CORRECTOR_BATCH_SIZE) == (batches + [list[i..end]]) + Partition(list[end..], CORRECTOR_BATCH_SIZE)
    ensures done.Ok? ==> RunCorrector(start, batches + [list[i..end]], answer, now) == CorrectionRun(after, None)
    ensures done.Thrown? ==> RunCorrector(start, Partition(list, CORRECTOR_BATCH_SIZE), answer, now)
                             == CorrectionRun(after, Some(done.exception))
  {
    PartitionAdvance(list, i, CORRECTOR_BATCH_SIZE, batches);
    RunCorrectorStep(start, batches, list[i..end], answer, now);
    if done.Thrown? {
      FailureIsFinal(start, batches + [list[i..end]], Partition(list[end..], CORRECTOR_BATCH_SIZE), answer, now);
    }
  }

  /** Proof helper: the posts of a batch of unpublished rows have ids the table
      still holds. */
  lemma BatchRowsAreStored(start: seq<Post>, cur: seq<Post>, list: seq<Post>, i: nat, end: nat)
    requires StoredTable(start)
    requires list == FindByNotPublished(start) && i <= end <= |list|
    requires |cur| == |start| && forall k :: 0 <= k < |start| ==> cur[k].id == start[k].id
    ensures forall p :: p in list[i..end] ==> p.id.Some? && exists k :: 0 <= k < |cur| && cur[k].id == p.id
  {
    forall p | p in list[i..end] ensures p.id.Some? && exists k :: 0 <= k < |cur| && cur[k].id == p.id {
      assert p in list;
      var k :| 0 <= k < |start| && start[k] == p;
      assert cur[k].id == p.id;
    }
  }

  /** The row a successful correction leaves: the corrected text, `updatedAt`
      stamped, everything else as stored. */
  function Fixed(p: Post, answer: string -> Outcome<string>, now: Time): Post
    requires CorrectedPost(p, answer).Ok?
  {
    CorrectedPost(p, answer).value.(updatedAt := Some(now))
  }

  /** Proof helper: the save of a post whose id is stored, in a table with distinct ids, is
      `ReplaceById`. */
  lemma SaveReplacesById(before: seq<Post>, after: seq<Post>, p: Post, saved: Post, now: Time)
    requires forall i, j :: 0 <= i < j < |before| ==> before[i].id != before[j].id
    requires saved.(id := p.id, createdAt := p.createdAt, updatedAt := p.updatedAt) == PrePersist(p)
    requires saved.id == p.id && saved.updatedAt == Some(now)
    requires exists i :: 0 <= i < |before| && before[i].id == p.id
                         && saved.createdAt == before[i].createdAt && after == before[i := saved]
    ensures after == ReplaceById(before, p, now)
  {
    var i :| 0 <= i < |before| && before[i].id == p.id && saved.createdAt == before[i].createdAt && after == before[i := saved];
    assert saved == PrePersist(p).(id := before[i].id, createdAt := before[i].createdAt, updatedAt := Some(now));
    forall k | 0 <= k < |before| ensures after[k] == ReplaceById(before, p, now)[k] {
      if k != i {
        assert before[k].id != p.id by {
          if k < i { } else { }
        }
      }
    }
  }

  /** Proof helper: the corrector's copies have the ids of the posts it was given. */
  lemma CopiesAreStored(rows: seq<Post>, batch: seq<Post>, copies: seq<Post>, answer: string -> Outcome<string>)
    requires forall p :: p in batch ==> p.id.Some? && exists k :: 0 <= k < |rows| && rows[k].id == p.id
    requires CorrectedBatch(batch, answer) == Ok(copies)
    ensures forall j :: 0 <= j < |copies| ==> copies[j].id.Some? && exists k :: 0 <= k < |rows| && rows[k].id == copies[j].id
  {
    forall j | 0 <= j < |copies| ensures copies[j].id.Some? && exists k :: 0 <= k < |rows| && rows[k].id == copies[j].id {
      assert CorrectedPost(batch[j], answer) == Ok(copies[j]) && batch[j] in batch;
    }
  }

  /** Proof helper: the next copy to save still has a row. */
  lemma SavedAllFindsId(rows: seq<Post>, copies: seq<Post>, j: nat, now: Time)
    requires j < |copies|
    requires forall i :: 0 <= i < |copies| ==> copies[i].id.Some? && exists k :: 0 <= k < |rows| && rows[k].id == copies[i].id
    ensures copies[j].id.Some?
    ensures exists k :: 0 <= k < |SavedAll(rows, copies[..j], now)| && SavedAll(rows, copies[..j], now)[k].id == copies[j].id
  {
    assert copies[j].id.Some? && exists k :: 0 <= k < |rows| && rows[k].id == copies[j].id;
    var k :| 0 <= k < |rows| && rows[k].id == copies[j].id;
    SavedAllKeepsKeys(rows, copies[..j], now);
    assert SavedAll(rows, copies[..j], now)[k].id == copies[j].id;
  }

  /** Proof helper: one more `save` of `saveAll`. */
  lemma SaveExtendsSavedAll(rows: seq<Post>, copies: seq<Post>, j: nat, current: seq<Post>, after: seq<Post>,
                            saved: Post, now: Time)
    requires j < |copies| && current == SavedAll(rows, copies[..j], now)
    requires forall i, m :: 0 <= i < m < |current| ==> current[i].id != current[m].id
    requires saved.(id := copies[j].id, createdAt := copies[j].createdAt, updatedAt := copies[j].updatedAt) == PrePersist(copies[j])
    requires saved.id == copies[j].id && saved.updatedAt == Some(now)
    requires exists i :: 0 <= i < |current| && current[i].id == copies[j].id
                         && saved.createdAt == current[i].createdAt && after == current[i := saved]
    ensures after == SavedAll(rows, copies[..j + 1], now)
  {
    SaveReplacesById(current, after, copies[j], saved, now);
    assert copies[..j + 1][..j] == copies[..j];
  }

  /** Proof helper: saving the corrected copy of one stored post turns exactly its row into the
      fixed row. */
  lemma ReplaceFixes(orig: seq<Post>, cur: seq<Post>, p: Post, answer: string -> Outcome<string>, now: Time)
    requires StoredTable(orig)
    requires |cur| == |orig|
    requires forall k :: 0 <= k < |orig| ==> cur[k].id == orig[k].id && cur[k].createdAt == orig[k].createdAt
    requires p in orig && CorrectedPost(p, answer).Ok?
    ensures forall k :: 0 <= k < |orig| ==>
              ReplaceById(cur, CorrectedPost(p, answer).value, now)[k] == if orig[k] == p then Fixed(p, answer, now) else cur[k]
  {
    var m :| 0 <= m < |orig| && orig[m] == p;
    forall k | 0 <= k < |orig|
      ensures ReplaceById(cur, CorrectedPost(p, answer).value, now)[k] == if orig[k] == p then Fixed(p, answer, now) else cur[k]
    {
      if k != m {
        assert orig[k].id != orig[m].id by {
          if k < m { } else { }
        }
      }
    }
  }

  /** Saving a batch's corrected copies fixes exactly the batch's rows. */
  lemma {:induction false} SavedAllFixes(orig: seq<Post>, cur: seq<Post>, batch: seq<Post>, copies: seq<Post>,
                                         answer: string -> Outcome<string>, now: Time)
    requires StoredTable(orig)
    requires |cur| == |orig|
    requires forall k :: 0 <= k < |orig| ==> cur[k].id == orig[k].id && cur[k].createdAt == orig[k].createdAt
    requires forall p :: p in batch ==> p in orig
    requires |copies| == |batch| && forall j :: 0 <= j < |batch| ==> CorrectedPost(batch[j], answer) == Ok(copies[j])
    ensures forall k :: 0 <= k < |orig| ==>
              SavedAll(cur, copies, now)[k] == if orig[k] in batch then Fixed(orig[k], answer, now) else cur[k]
    decreases |batch|
  {
    if batch != [] {
      var n := |batch| - 1;
      SavedAllFixes(orig, cur, batch[..n], copies[..n], answer, now);
      var mid := SavedAll(cur, copies[..n], now);
      SavedAllKeepsKeys(cur, copies[..n], now);
      assert copies[..|copies| - 1] == copies[..n];
      ReplaceFixes(orig, mid, batch[n], answer, now);
      assert batch == batch[..n] + [batch[n]];
      forall k | 0 <= k < |orig|
        ensures SavedAll(cur, copies, now)[k] == if orig[k] in batch then Fixed(orig[k], answer, now) else cur[k]
      {
        if orig[k] in batch[..n] && orig[k] == batch[n] {
        }
      }
    }
  }

  /** Proof helper: batches of stored posts that all correct fix exactly the posts they hold. */
  lemma {:induction false} RunFixesBatched(orig: seq<Post>, batches: seq<seq<Post>>,
                                           answer: string -> Outcome<string>, now: Time)
    requires StoredTable(orig)
    requires forall p :: p in Flatten(batches) ==> p in orig && CorrectedPost(p, answer).Ok?
    ensures RunCorrector(orig, batches, answer, now).failure == None
    ensures forall k :: 0 <= k < |orig| ==>
              RunCorrector(orig, batches, answer, now).rows[k]
              == if orig[k] in Flatten(batches) then Fixed(orig[k], answer, now) else orig[k]
    decreases |batches|
  {
    if batches != [] {
      var init := batches[..|batches| - 1];
      var last := batches[|batches| - 1];
      assert batches == init + [last];
      FlattenAppend(init, [last]);
      assert Flatten([last]) == last + Flatten([]);
      assert Flatten(batches) == Flatten(init) + last;
      RunFixesBatched(orig, init, answer, now);
      var before := RunCorrector(orig, init, answer, now);
      RunKeepsKeys(orig, init, answer, now);
      assert forall i :: 0 <= i < |last| ==> last[i] in Flatten(batches);
      var copies := CorrectedBatch(last, answer).value;
      SavedAllFixes(orig, before.rows, last, copies, answer, now);
    }
  }

  /** A run over a table whose unpublished posts all have text the service
      corrects: every unpublished post gets the corrected text and a new
      `updatedAt`, and every other row stays as it was. */
  lemma CorrectorFixesUnpublished(rows: seq<Post>, answer: string -> Outcome<string>, now: Time)
    requires StoredTable(rows)
    requires forall p :: p in rows && !p.published ==> p.content.Some? && answer(p.content.value).Ok?
    ensures var run := RunCorrector(rows, Partition(FindByNotPublished(rows), CORRECTOR_BATCH_SIZE), answer, now);
            run.failure == None
            && forall k :: 0 <= k < |rows| ==>
                 run.rows[k] == if rows[k].published then rows[k]
                                else rows[k].(content := Some(answer(rows[k].content.value).value), updatedAt := Some(now))
  {
    var unpublished := FindByNotPublished(rows);
    PartitionFlattens(unpublished, CORRECTOR_BATCH_SIZE);
    RunFixesBatched(rows, Partition(unpublished, CORRECTOR_BATCH_SIZE), answer, now);
  }

  /** The corrector's batches cover every unpublished post exactly once, in table
      order; none is empty, none holds more than five, and there are
      ceil(n / 5) of them. */
  lemma CorrectorBatchesCoverUnpublished(rows: seq<Post>)
    ensures var batches := Partition(FindByNotPublished(rows), CORRECTOR_BATCH_SIZE);
            Flatten(batches) == FindByNotPublished(rows)
            && |batches| == CeilDiv(|FindByNotPublished(rows)|, CORRECTOR_BATCH_SIZE)
            && forall k :: 0 <= k < |batches| ==> 0 < |batches[k]| <= CORRECTOR_BATCH_SIZE
  {
    PartitionFlattens(FindByNotPublished(rows), CORRECTOR_BATCH_SIZE);
    PartitionCount(FindByNotPublished(rows), CORRECTOR_BATCH_SIZE);
    PartitionSizes(FindByNotPublished(rows), CORRECTOR_BATCH_SIZE);
  }
}
