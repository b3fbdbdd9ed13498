/** `PostRepository`: the post table and the queries the services run on it. The
    select queries are filters of the table, sorted newest first where the query
    says `ORDER BY createdAt DESC`; the `@Modifying` queries rewrite one counter
    column of the matching row. */
module PostStore {
  import opened Base
  import opened Seqs
  import opened PostModel

  /** Sort key for `ORDER BY createdAt DESC`: ascending on the negated time. Rows
      of the table always have a creation time (`@CreationTimestamp`). */
  function NewestFirstKey(p: Post): int
  {
    if p.createdAt.Some? then -p.createdAt.value else 0
  }

  /** A selection sorted newest first; rows created at the same time keep table order. */
  function NewestFirst(s: seq<Post>): seq<Post>
  {
    SortBy(s, NewestFirstKey)
  }

  /** An ordered query returns exactly the matching rows, newest first. */
  lemma OrderedSelection(rows: seq<Post>, p: Post -> bool)
    ensures SortedBy(NewestFirst(Filter(rows, p)), NewestFirstKey)
    ensures multiset(NewestFirst(Filter(rows, p))) == multiset(Filter(rows, p))
    ensures forall x :: x in NewestFirst(Filter(rows, p)) <==> x in rows && p(x)
  {
    var f := Filter(rows, p);
    SortBySorts(f, NewestFirstKey);
    forall x ensures x in NewestFirst(f) <==> x in rows && p(x) {
      assert x in NewestFirst(f) <==> x in multiset(NewestFirst(f));
      assert x in f <==> x in multiset(f);
      if x in rows && p(x) {
        var i :| 0 <= i < |rows| && rows[i] == x;
      }
      if x in f {
        var i :| 0 <= i < |f| && f[i] == x;
      }
    }
  }

  /** The first `limit` rows of a selection (`PageRequest.of(0, limit)`). */
  function Take(s: seq<Post>, limit: nat): (r: seq<Post>)
    ensures |r| <= limit && |r| <= |s|
    ensures r == s[..|r|]
    ensures |s| <= limit ==> r == s
  {
    if |s| <= limit then s else s[..limit]
  }

  /** `findByAuthorId`: the posts of an author, in table order. */
  function FindByAuthorId(rows: seq<Post>, authorId: int): (r: seq<Post>)
    ensures forall x :: x in r <==> x in rows && x.authorId == Some(authorId)
    ensures IsSubsequence(r, rows)
  {
    FilterIsSubsequence(rows, (x: Post) => x.authorId == Some(authorId));
    Filter(rows, (x: Post) => x.authorId == Some(authorId))
  }

  /** `findByProjectId`: the posts of a project, in table order. */
  function FindByProjectId(rows: seq<Post>, projectId: int): (r: seq<Post>)
    ensures forall x :: x in r <==> x in rows && x.projectId == Some(projectId)
    ensures IsSubsequence(r, rows)
  {
    FilterIsSubsequence(rows, (x: Post) => x.projectId == Some(projectId));
    Filter(rows, (x: Post) => x.projectId == Some(projectId))
  }

  /** `findReadyToPublish`: unpublished, undeleted posts scheduled at or before `now`;
      a null schedule never compares true in SQL, so unscheduled drafts are left out. */
  function FindReadyToPublish(rows: seq<Post>, now: Time): (r: seq<Post>)
    ensures forall x :: x in r <==>
              x in rows && !x.published && !x.deleted && x.scheduledAt.Some? && x.scheduledAt.value <= now
  {
    Filter(rows, (x: Post) => !x.published && !x.deleted && x.scheduledAt.Some? && x.scheduledAt.value <= now)
  }

  /** The drafts of an author, newest first. */
  function FindDraftsByAuthor(rows: seq<Post>, authorId: int): (r: seq<Post>)
    ensures forall x :: x in r <==> x in rows && !x.published && !x.deleted && x.authorId == Some(authorId)
    ensures SortedBy(r, NewestFirstKey)
    ensures multiset(r) == multiset(Filter(rows, (x: Post) => !x.published && !x.deleted && x.authorId == Some(authorId)))
  {
    var p := (x: Post) => !x.published && !x.deleted && x.authorId == Some(authorId);
    OrderedSelection(rows, p);
    NewestFirst(Filter(rows, p))
  }

  /** The drafts of a project, newest first. */
  function FindDraftsByProject(rows: seq<Post>, projectId: int): (r: seq<Post>)
    ensures forall x :: x in r <==> x in rows && !x.published && !x.deleted && x.projectId == Some(projectId)
    ensures SortedBy(r, NewestFirstKey)
    ensures multiset(r) == multiset(Filter(rows, (x: Post) => !x.published && !x.deleted && x.projectId == Some(projectId)))
  {
    var p := (x: Post) => !x.published && !x.deleted && x.projectId == Some(projectId);
    OrderedSelection(rows, p);
    NewestFirst(Filter(rows, p))
  }

  /** The published, undeleted posts of an author, newest first. */
  function FindPublishedByAuthor(rows: seq<Post>, authorId: int): (r: seq<Post>)
    ensures forall x :: x in r <==> x in rows && x.published && !x.deleted && x.authorId == Some(authorId)
    ensures SortedBy(r, NewestFirstKey)
    ensures multiset(r) == multiset(Filter(rows, (x: Post) => x.published && !x.deleted && x.authorId == Some(authorId)))
  {
    var p := (x: Post) => x.published && !x.deleted && x.authorId == Some(authorId);
    OrderedSelection(rows, p);
    NewestFirst(Filter(rows, p))
  }

  /** The published, undeleted posts of a project, newest first. */
  function FindPublishedByProject(rows: seq<Post>, projectId: int): (r: seq<Post>)
    ensures forall x :: x in r <==> x in rows && x.published && !x.deleted && x.projectId == Some(projectId)
    ensures SortedBy(r, NewestFirstKey)
    ensures multiset(r) == multiset(Filter(rows, (x: Post) => x.published && !x.deleted && x.projectId == Some(projectId)))
  {
    var p := (x: Post) => x.published && !x.deleted && x.projectId == Some(projectId);
    OrderedSelection(rows, p);
    NewestFirst(Filter(rows, p))
  }

  /** A post is never both a draft and published: the two queries of an author are
      disjoint. */
  lemma DraftsAndPublishedAreDisjoint(rows: seq<Post>, authorId: int, x: Post)
    ensures !(x in FindDraftsByAuthor(rows, authorId) && x in FindPublishedByAuthor(rows, authorId))
  {
  }

  /** `findByNotPublished`, table order; deleted posts are included. */
  function FindByNotPublished(rows: seq<Post>): (r: seq<Post>)
    ensures forall x :: x in r <==> x in rows && !x.published
    ensures IsSubsequence(r, rows)
  {
    FilterIsSubsequence(rows, (x: Post) => !x.published);
    Filter(rows, (x: Post) => !x.published)
  }

  /** `findByNotVerified`, table order. */
  function FindByNotVerified(rows: seq<Post>): (r: seq<Post>)
    ensures forall x :: x in r <==> x in rows && !x.verified
    ensures IsSubsequence(r, rows)
  {
    FilterIsSubsequence(rows, (x: Post) => !x.verified);
    Filter(rows, (x: Post) => !x.verified)
  }

  /** `findLatestPostsForUser(userId, PageRequest.of(0, limit))`: the newest `limit`
      posts written by the user; `author_id = NULL` matches nothing. */
  function FindLatestPostsForUser(rows: seq<Post>, userId: Option<int>, limit: nat): (r: seq<Post>)
    ensures |r| <= limit
    ensures forall x :: x in r ==> x in rows && userId.Some? && x.authorId == userId
    ensures SortedBy(r, NewestFirstKey)
    ensures userId.None? ==> r == []
  {
    LatestPostsShape(rows, userId, limit);
    Take(NewestFirst(Filter(rows, (x: Post) => userId.Some? && x.authorId == userId)), limit)
  }

  lemma LatestPostsShape(rows: seq<Post>, userId: Option<int>, limit: nat)
    ensures var r := Take(NewestFirst(Filter(rows, (x: Post) => userId.Some? && x.authorId == userId)), limit);
            (forall x :: x in r ==> x in rows && userId.Some? && x.authorId == userId)
            && SortedBy(r, NewestFirstKey)
            && (userId.None? ==> r == [])
  {
    var p := (x: Post) => userId.Some? && x.authorId == userId;
    OrderedSelection(rows, p);
    var all := NewestFirst(Filter(rows, p));
    var r := Take(all, limit);
    assert forall x :: x in r ==> x in all;
    assert SortedBy(r, NewestFirstKey) by {
      forall i, j | 0 <= i < j < |r| ensures NewestFirstKey(r[i]) <= NewestFirstKey(r[j]) {
        assert r[i] == all[i] && r[j] == all[j];
      }
    }
  }

  /** The latest-posts query leaves out only rows older than every row it returns,
      when it is cut short by the limit. */
  lemma LatestPostsAreTheNewest(rows: seq<Post>, userId: Option<int>, limit: nat, x: Post, y: Post)
    requires x in rows && userId.Some? && x.authorId == userId
    requires x !in FindLatestPostsForUser(rows, userId, limit)
    requires y in FindLatestPostsForUser(rows, userId, limit)
    ensures NewestFirstKey(y) <= NewestFirstKey(x)
  {
    var p := (x: Post) => userId.Some? && x.authorId == userId;
    OrderedSelection(rows, p);
    var all := NewestFirst(Filter(rows, p));
    var r := Take(all, limit);
    assert x in all;
    var i :| 0 <= i < |all| && all[i] == x;
    var j :| 0 <= j < |r| && r[j] == y;
    assert all[j] == y;
  }

  /** The author ids of recently published posts:
      `findByAuthorIdIsNotNullAndCreatedAtAfterAndPublishedTrue(cutoff)`. */
  function FindRecentPublishedWithAuthor(rows: seq<Post>, cutoff: Time): (r: seq<Post>)
    ensures forall x :: x in r <==>
              x in rows && x.authorId.Some? && x.createdAt.Some? && x.createdAt.value > cutoff && x.published
  {
    Filter(rows, (x: Post) => x.authorId.Some? && x.createdAt.Some? && x.createdAt.value > cutoff && x.published)
  }

  /** `findByProjectIdIsNotNullAndCreatedAtAfterAndPublishedTrue(cutoff)`. */
  function FindRecentPublishedWithProject(rows: seq<Post>, cutoff: Time): (r: seq<Post>)
    ensures forall x :: x in r <==>
              x in rows && x.projectId.Some? && x.createdAt.Some? && x.createdAt.value > cutoff && x.published
  {
    Filter(rows, (x: Post) => x.projectId.Some? && x.createdAt.Some? && x.createdAt.value > cutoff && x.published)
  }

  /** `WHERE p.id = :postId`: a null parameter matches no row. */
  predicate RowMatches(p: Post, postId: Option<int>)
  {
    postId.Some? && p.id == postId
  }

  /** `SET likesCount = COALESCE(likesCount, 0) + 1`. */
  function IncrementLikes(rows: seq<Post>, postId: Option<int>): (r: seq<Post>)
    ensures |r| == |rows|
    ensures forall i :: 0 <= i < |r| ==> r[i].(likesCount := rows[i].likesCount) == rows[i]
    ensures forall i :: 0 <= i < |r| && RowMatches(rows[i], postId) ==>
              r[i].likesCount == Some(rows[i].likesCount.GetOr(0) + 1)
    ensures forall i :: 0 <= i < |r| && !RowMatches(rows[i], postId) ==> r[i] == rows[i]
  {
    seq(|rows|, i requires 0 <= i < |rows| =>
      if RowMatches(rows[i], postId) then rows[i].(likesCount := Some(rows[i].likesCount.GetOr(0) + 1))
      else rows[i])
  }

  /** `SET likesCount = likesCount - 1`: a null count stays null, and nothing stops
      the count from going below zero. */
  function DecrementLikes(rows: seq<Post>, postId: Option<int>): (r: seq<Post>)
    ensures |r| == |rows|
    ensures forall i :: 0 <= i < |r| ==> r[i].(likesCount := rows[i].likesCount) == rows[i]
    ensures forall i :: 0 <= i < |r| && RowMatches(rows[i], postId) ==>
              r[i].likesCount == (if rows[i].likesCount.Some? then Some(rows[i].likesCount.value - 1) else None)
    ensures forall i :: 0 <= i < |r| && !RowMatches(rows[i], postId) ==> r[i] == rows[i]
  {
    seq(|rows|, i requires 0 <= i < |rows| =>
      if RowMatches(rows[i], postId) && rows[i].likesCount.Some?
      then rows[i].(likesCount := Some(rows[i].likesCount.value - 1))
      else rows[i])
  }

  /** `SET commentsCount = COALESCE(commentsCount, 0) + 1`. */
  function IncrementComments(rows: seq<Post>, postId: Option<int>): (r: seq<Post>)
    ensures |r| == |rows|
    ensures forall i :: 0 <= i < |r| ==> r[i].(commentsCount := rows[i].commentsCount) == rows[i]
    ensures forall i :: 0 <= i < |r| && RowMatches(rows[i], postId) ==>
              r[i].commentsCount == Some(rows[i].commentsCount.GetOr(0) + 1)
    ensures forall i :: 0 <= i < |r| && !RowMatches(rows[i], postId) ==> r[i] == rows[i]
  {
    seq(|rows|, i requires 0 <= i < |rows| =>
      if RowMatches(rows[i], postId) then rows[i].(commentsCount := Some(rows[i].commentsCount.GetOr(0) + 1))
      else rows[i])
  }

  /** An unlike undoes a like on a row whose count was set; on a row whose count
      was null the pair leaves 0 where there was null. */
  lemma DecrementUndoesIncrement(rows: seq<Post>, postId: Option<int>)
    ensures var r := DecrementLikes(IncrementLikes(rows, postId), postId);
            |r| == |rows|
            && forall i :: 0 <= i < |rows| ==>
                 r[i] == (if RowMatches(rows[i], postId) && rows[i].likesCount.None?
                          then rows[i].(likesCount := Some(0)) else rows[i])
  {
    var m := IncrementLikes(rows, postId);
    var r := DecrementLikes(m, postId);
    forall i | 0 <= i < |rows|
      ensures r[i] == (if RowMatches(rows[i], postId) && rows[i].likesCount.None?
                       then rows[i].(likesCount := Some(0)) else rows[i])
    {
      assert m[i].id == rows[i].id;
    }
  }

  /** Decrementing a row whose count is 0 stores -1 in the database. */
  lemma DecrementCanGoNegative(p: Post)
    requires p.id.Some? && p.likesCount == Some(0)
    ensures DecrementLikes([p], p.id)[0].likesCount == Some(-1)
  {
  }

  /** The post table. */
  class PostRepository {
    var rows: seq<Post>

    /** Every stored row has an id, unique in the table, a creation time, and
        initialised collections. */
    ghost predicate Valid()
      reads this
    {
      StoredTable(rows)
    }

    constructor()
      ensures rows == [] && Valid()
    {
      rows := [];
    }

    /** `findById`: a null id is an IllegalArgumentException; otherwise the row with
        that id, if any. */
    function FindById(id: Option<int>): (r: Outcome<Option<Post>>)
      reads this
      ensures id.None? <==> r.Thrown?
      ensures r.Thrown? ==> r.exception.IllegalArgument?
      ensures r.Ok? ==> (r.value.Some? <==> exists i :: 0 <= i < |rows| && rows[i].id == id)
      ensures r.Ok? && r.value.Some? ==> r.value.value in rows && r.value.value.id == id
    {
      if id.None? then Thrown(IllegalArgument("The given id must not be null"))
      else Ok(RowWithId(rows, id.value))
    }

    /** `existsById`. */
    function ExistsById(id: Option<int>): (r: Outcome<bool>)
      reads this
      ensures id.None? <==> r.Thrown?
      ensures r.Ok? ==> (r.value <==> exists i :: 0 <= i < |rows| && rows[i].id == id)
    {
      var found :- FindById(id);
      Ok(found.Some?)
    }

    /** `save`: Hibernate runs the `@PrePersist`/`@PreUpdate` hook and stamps
        `updatedAt`; a new post also gets the next identity value and its creation
        time, an existing one keeps its creation time and is replaced in place. The
        identity value is a parameter that no stored row uses. */
    method Save(p: Post, now: Time, nextId: int) returns (saved: Post)
      requires Valid()
      requires p.id.None? ==> forall i :: 0 <= i < |rows| ==> rows[i].id != Some(nextId)
      requires p.id.Some? ==> exists i :: 0 <= i < |rows| && rows[i].id == p.id
      modifies this
      ensures Valid()
      ensures Stored(saved)
      ensures saved.updatedAt == Some(now)
      ensures saved.(id := p.id, createdAt := p.createdAt, updatedAt := p.updatedAt) == PrePersist(p)
      ensures p.id.None? ==> saved.id == Some(nextId) && saved.createdAt == Some(now)
                             && rows == old(rows) + [saved]
      ensures p.id.Some? ==> saved.id == p.id
                             && exists i :: (0 <= i < |old(rows)| && old(rows)[i].id == p.id
                                  && saved.createdAt == old(rows)[i].createdAt && rows == old(rows)[i := saved])
    {
      var hooked := PrePersist(p);
      if p.id.None? {
        saved := hooked.(id := Some(nextId), createdAt := Some(now), updatedAt := Some(now));
        rows := rows + [saved];
      } else {
        var i :| 0 <= i < |rows| && rows[i].id == p.id;
        saved := hooked.(createdAt := rows[i].createdAt, updatedAt := Some(now));
        rows := rows[i := saved];
      }
    }

    /** `incrementLikesCount`. */
    method IncrementLikesCount(postId: Option<int>)
      requires Valid()
      modifies this
      ensures Valid()
      ensures rows == IncrementLikes(old(rows), postId)
    {
      rows := IncrementLikes(rows, postId);
    }

    /** `decrementLikesCount`. */
    method DecrementLikesCount(postId: Option<int>)
      requires Valid()
      modifies this
      ensures Valid()
      ensures rows == DecrementLikes(old(rows), postId)
    {
      rows := DecrementLikes(rows, postId);
    }

    /** `incrementCommentsCount`. */
    method IncrementCommentsCount(postId: Option<int>)
      requires Valid()
      modifies this
      ensures Valid()
      ensures rows == IncrementComments(old(rows), postId)
    {
      rows := IncrementComments(rows, postId);
    }
  }

  /** A row as the database holds it. */
  predicate Stored(p: Post)
  {
    p.id.Some? && p.createdAt.Some?
    && p.likes.Some? && p.comments.Some? && p.albums.Some? && p.resources.Some?
  }

  /** A table as the database holds it: every row stored, ids distinct. */
  predicate StoredTable(rows: seq<Post>)
  {
    (forall i :: 0 <= i < |rows| ==> Stored(rows[i]))
    && (forall i, j :: 0 <= i < j < |rows| ==> rows[i].id != rows[j].id)
  }

  /** The first row with the given id. */
  function RowWithId(rows: seq<Post>, id: int): (r: Option<Post>)
    ensures r.Some? <==> exists i :: 0 <= i < |rows| && rows[i].id == Some(id)
    ensures r.Some? ==> r.value in rows && r.value.id == Some(id)
  {
    if |rows| == 0 then None
    else if rows[0].id == Some(id) then Some(rows[0])
    else
      var r := RowWithId(rows[1..], id);
      assert forall i :: 0 < i < |rows| ==> rows[i] == rows[1..][i - 1];
      r
  }
}
