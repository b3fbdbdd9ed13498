/** The comment table (`CommentRepository`): its JPQL selections as functions over
    the rows, and the table itself as a class whose Crud operations change it. */
module CommentStore {
  import opened Base
  import opened Seqs
  import opened PostModel

  /** Sort key for `ORDER BY c.createdAt DESC`. */
  function NewestCommentFirstKey(c: Comment): int
  {
    -c.createdAt
  }

  /** `findAllByPostId`: the comments of a post, in table order. */
  function FindAllByPostId(rows: seq<Comment>, postId: int): (r: seq<Comment>)
    ensures forall x :: x in r <==> x in rows && x.postId == Some(postId)
    ensures IsSubsequence(r, rows)
  {
    FilterIsSubsequence(rows, (x: Comment) => x.postId == Some(postId));
    Filter(rows, (x: Comment) => x.postId == Some(postId))
  }

  /** `findAllUnCheckedComments`: the comments moderation has not seen
      (`verified is null`), in table order. */
  function FindAllUnChecked(rows: seq<Comment>): (r: seq<Comment>)
    ensures forall x :: x in r <==> x in rows && x.verified.None?
    ensures IsSubsequence(r, rows)
  {
    FilterIsSubsequence(rows, (x: Comment) => x.verified.None?);
    Filter(rows, (x: Comment) => x.verified.None?)
  }

  /** The rows `findLatestByPostId` chooses from: verified comments of the post;
      `c.post.id = NULL` matches nothing. */
  predicate LatestCandidate(c: Comment, postId: Option<int>)
  {
    postId.Some? && c.postId == postId && c.verified == Some(true)
  }

  /** `findLatestByPostId(postId, PageRequest.of(0, limit))`: the `limit` newest
      verified comments of the post (rows created at the same time keep table
      order). `PageRequest.of` rejects a page size below one. */
  function FindLatestByPostId(rows: seq<Comment>, postId: Option<int>, limit: int): (r: Outcome<seq<Comment>>)
    ensures r.Thrown? <==> limit < 1
    ensures r.Thrown? ==> r.exception == IllegalArgument("Page size must not be less than one")
    ensures r.Ok? ==> |r.value| <= limit
    ensures r.Ok? ==> forall x :: x in r.value ==> x in rows && LatestCandidate(x, postId)
    ensures r.Ok? ==> SortedBy(r.value, NewestCommentFirstKey)
  {
    if limit < 1 then Thrown(IllegalArgument("Page size must not be less than one"))
    else
      var all := NewestComments(rows, postId);
      Ok(if |all| <= limit then all else all[..limit])
  }

  /** Every candidate, newest first. */
  function NewestComments(rows: seq<Comment>, postId: Option<int>): (r: seq<Comment>)
    ensures SortedBy(r, NewestCommentFirstKey)
    ensures forall x :: x in r <==> x in rows && LatestCandidate(x, postId)
  {
    var f := Filter(rows, (x: Comment) => LatestCandidate(x, postId));
    SortBySorts(f, NewestCommentFirstKey);
    var r := SortBy(f, NewestCommentFirstKey);
    assert forall x :: x in r <==> x in multiset(r);
    assert forall x :: x in f <==> x in multiset(f);
    r
  }

  /** A candidate the query leaves out was dropped by the limit: the page is full
      and no returned comment is older than it. */
  lemma LatestCommentsAreTheNewest(rows: seq<Comment>, postId: Option<int>, limit: int, x: Comment)
    requires limit >= 1
    requires x in rows && LatestCandidate(x, postId)
    requires x !in FindLatestByPostId(rows, postId, limit).value
    ensures |FindLatestByPostId(rows, postId, limit).value| == limit
    ensures forall y :: y in FindLatestByPostId(rows, postId, limit).value ==> y.createdAt >= x.createdAt
  {
    var all := NewestComments(rows, postId);
    var i :| 0 <= i < |all| && all[i] == x;
    assert |all| > limit;
    forall y | y in all[..limit] ensures y.createdAt >= x.createdAt {
      var j :| 0 <= j < limit && all[j] == y;
      assert j < i;
    }
  }

  /** The comment table. */
  class CommentRepository {
    var rows: seq<Comment>

    /** Every stored comment has an id, unique in the table. */
    ghost predicate Valid()
      reads this
    {
      (forall i :: 0 <= i < |rows| ==> rows[i].id.Some?)
      && (forall i, j :: 0 <= i < j < |rows| ==> rows[i].id != rows[j].id)
    }

    constructor()
      ensures rows == [] && Valid()
    {
      rows := [];
    }

    /** `findById`: a null id is an IllegalArgumentException. */
    function FindById(id: Option<int>): (r: Outcome<Option<Comment>>)
      reads this
      ensures r.Thrown? <==> id.None?
      ensures r.Thrown? ==> r.exception.IllegalArgument?
      ensures r.Ok? ==> (r.value.Some? <==> exists i :: 0 <= i < |rows| && rows[i].id == id)
      ensures r.Ok? && r.value.Some? ==> r.value.value in rows && r.value.value.id == id
    {
      if id.None? then Thrown(IllegalArgument("The given id must not be null"))
      else Ok(CommentWithId(rows, id.value))
    }

    /** `existsById`. */
    function ExistsById(id: Option<int>): (r: Outcome<bool>)
      reads this
      ensures r.Thrown? <==> id.None?
      ensures r.Ok? ==> (r.value <==> exists i :: 0 <= i < |rows| && rows[i].id == id)
    {
      var found :- FindById(id);
      Ok(found.Some?)
    }

    /** `deleteById`: removes the row with that id, if any. */
    method DeleteById(id: Option<int>) returns (r: Outcome<Unit>)
      requires Valid()
      modifies this
      ensures Valid()
      ensures r.Thrown? <==> id.None?
      ensures r.Thrown? ==> rows == old(rows)
      ensures r.Ok? ==> rows == Filter(old(rows), (x: Comment) => x.id != id)
      ensures r.Ok? ==> forall x :: x in rows <==> x in old(rows) && x.id != id
    {
      if id.None? {
        return Thrown(IllegalArgument("The given id must not be null"));
      }
      FilterIsSubsequence(rows, (x: Comment) => x.id != id);
      ghost var before := rows;
      rows := Filter(rows, (x: Comment) => x.id != id);
      SubsequenceKeepsDistinctIds(rows, before);
      r := Ok(Unit);
    }

    /** `save`: a comment without an id is inserted with the next identity value and
        its creation time; one with an id replaces the stored row and keeps its
        creation time. `updatedAt` is stamped either way. The identity value is a
        parameter that no stored row uses. */
    method Save(c: Comment, now: Time, nextId: int) returns (saved: Comment)
      requires Valid()
      requires c.id.None? ==> forall i :: 0 <= i < |rows| ==> rows[i].id != Some(nextId)
      requires c.id.Some? ==> exists i :: 0 <= i < |rows| && rows[i].id == c.id
      modifies this
      ensures Valid()
      ensures saved.(id := c.id, createdAt := c.createdAt, updatedAt := c.updatedAt) == c
      ensures saved.updatedAt == Some(now)
      ensures c.id.None? ==> saved.id == Some(nextId) && saved.createdAt == now && rows == old(rows) + [saved]
      ensures c.id.Some? ==> saved.id == c.id
                             && exists i :: (0 <= i < |old(rows)| && old(rows)[i].id == c.id
                                  && saved.createdAt == old(rows)[i].createdAt && rows == old(rows)[i := saved])
    {
      if c.id.None? {
        saved := c.(id := Some(nextId), createdAt := now, updatedAt := Some(now));
        rows := rows + [saved];
      } else {
        var i :| 0 <= i < |rows| && rows[i].id == c.id;
        saved := c.(createdAt := rows[i].createdAt, updatedAt := Some(now));
        rows := rows[i := saved];
      }
    }
  }

  /** The first row with the given id. */
  function CommentWithId(rows: seq<Comment>, id: int): (r: Option<Comment>)
    ensures r.Some? <==> exists i :: 0 <= i < |rows| && rows[i].id == Some(id)
    ensures r.Some? ==> r.value in rows && r.value.id == Some(id)
  {
    if |rows| == 0 then None
    else if rows[0].id == Some(id) then Some(rows[0])
    else
      var r := CommentWithId(rows[1..], id);
      assert forall i :: 0 < i < |rows| ==> rows[i] == rows[1..][i - 1];
      r
  }

  /** Proof helper: deleting rows keeps every id present and unique. */
  lemma {:induction false} SubsequenceKeepsDistinctIds(a: seq<Comment>, b: seq<Comment>)
    requires IsSubsequence(a, b)
    requires forall i :: 0 <= i < |b| ==> b[i].id.Some?
    requires forall i, j :: 0 <= i < j < |b| ==> b[i].id != b[j].id
    ensures forall i :: 0 <= i < |a| ==> a[i].id.Some?
    ensures forall i, j :: 0 <= i < j < |a| ==> a[i].id != a[j].id
    decreases |b|
  {
    if a != [] && b != [] {
      assert forall i, j :: 0 <= i < j < |b[1..]| ==> b[1..][i].id != b[1..][j].id by {
        forall i, j | 0 <= i < j < |b[1..]| ensures b[1..][i].id != b[1..][j].id {
          assert b[1..][i] == b[i + 1] && b[1..][j] == b[j + 1];
        }
      }
      if a[0] == b[0] && IsSubsequence(a[1..], b[1..]) {
        SubsequenceKeepsDistinctIds(a[1..], b[1..]);
        SubsequenceElements(a[1..], b[1..]);
        forall i, j | 0 <= i < j < |a| ensures a[i].id != a[j].id {
          if i == 0 {
            assert a[j] == a[1..][j - 1];
            var k :| 0 <= k < |b[1..]| && b[1..][k] == a[j];
            assert b[k + 1].id != b[0].id;
          } else {
            assert a[i] == a[1..][i - 1] && a[j] == a[1..][j - 1];
          }
        }
        forall i | 0 <= i < |a| ensures a[i].id.Some? {
          if i > 0 {
            assert a[i] == a[1..][i - 1];
          }
        }
      } else {
        SubsequenceKeepsDistinctIds(a, b[1..]);
      }
    }
  }

  /** Proof helper: every element of a subsequence is an element of the whole. */
  lemma {:induction false} SubsequenceElements<T>(a: seq<T>, b: seq<T>)
    requires IsSubsequence(a, b)
    ensures forall i :: 0 <= i < |a| ==> exists k :: 0 <= k < |b| && b[k] == a[i]
    decreases |b|
  {
    if a != [] && b != [] {
      if a[0] == b[0] && IsSubsequence(a[1..], b[1..]) {
        SubsequenceElements(a[1..], b[1..]);
        forall i | 0 < i < |a| ensures exists k :: 0 <= k < |b| && b[k] == a[i] {
          assert a[i] == a[1..][i - 1];
          var k :| 0 <= k < |b[1..]| && b[1..][k] == a[i];
          assert b[k + 1] == a[i];
        }
        assert b[0] == a[0];
      } else {
        SubsequenceElements(a, b[1..]);
        forall i | 0 <= i < |a| ensures exists k :: 0 <= k < |b| && b[k] == a[i] {
          var k :| 0 <= k < |b[1..]| && b[1..][k] == a[i];
          assert b[k + 1] == a[i];
        }
      }
    }
  }
}
