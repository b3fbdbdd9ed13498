/** `SubscriptionService`: who receives a post in their feed, and which authors and
    projects have posted recently. The user service is a pair of lookups passed in
    as functions; a failed call is a `Thrown` outcome. */
module Subscription {
  import opened Base
  import opened Seqs
  import opened PostModel
  import opened PostStore

  /** `getSubscriberIds`: the union of the author's subscribers (when the post has
      an author) and the project's subscribers (when it has a project); any failed
      lookup gives the empty set. */
  function GetSubscriberIds(post: Post, userSubscribers: int -> Outcome<seq<int>>,
                            projectSubscribers: int -> Outcome<seq<int>>): (r: set<int>)
    ensures (post.authorId.Some? && userSubscribers(post.authorId.value).Thrown?)
            || (post.projectId.Some? && projectSubscribers(post.projectId.value).Thrown?)
            ==> r == {}
    ensures (post.authorId.None? || userSubscribers(post.authorId.value).Ok?)
            && (post.projectId.None? || projectSubscribers(post.projectId.value).Ok?)
            ==> forall x :: x in r <==>
                  (post.authorId.Some? && x in userSubscribers(post.authorId.value).value)
                  || (post.projectId.Some? && x in projectSubscribers(post.projectId.value).value)
  {
    var fromAuthor := if post.authorId.Some? then userSubscribers(post.authorId.value) else Ok([]);
    var fromProject := if post.projectId.Some? then projectSubscribers(post.projectId.value) else Ok([]);
    if fromAuthor.Thrown? || fromProject.Thrown? then {}
    else (set x | x in fromAuthor.value) + (set x | x in fromProject.value)
  }

  /** {1, 2} from the author and {2, 3} from the project give {1, 2, 3}. */
  lemma SubscriberUnionExample(post: Post, userSubscribers: int -> Outcome<seq<int>>,
                               projectSubscribers: int -> Outcome<seq<int>>)
    requires post.authorId.Some? && userSubscribers(post.authorId.value) == Ok([1, 2])
    requires post.projectId.Some? && projectSubscribers(post.projectId.value) == Ok([2, 3])
    ensures forall x :: x in GetSubscriberIds(post, userSubscribers, projectSubscribers) <==> 1 <= x <= 3
  {
  }

  /** The author ids of the recently published posts
      (`findByAuthorIdIsNotNullAndCreatedAtAfterAndPublishedTrue`), each once, in
      order of first appearance. */
  function RecentAuthorIds(rows: seq<Post>, cutoff: Time): (r: seq<int>)
    ensures NoDuplicates(r)
  {
    var recent := FindRecentPublishedWithAuthor(rows, cutoff);
    Distinct(seq(|recent|, i requires 0 <= i < |recent| => assert recent[i] in recent; recent[i].authorId.value))
  }

  function RecentAuthors(rows: seq<Post>, cutoff: Time): set<int>
  {
    set a | a in RecentAuthorIds(rows, cutoff)
  }

  /** An author is recent exactly when one of their posts was published after the
      cutoff. */
  lemma RecentAuthorsAreRecentPublishers(rows: seq<Post>, cutoff: Time, a: int)
    ensures a in RecentAuthors(rows, cutoff) <==>
              exists p :: p in rows && p.authorId == Some(a) && p.published
                          && p.createdAt.Some? && p.createdAt.value > cutoff
  {
    var recent := FindRecentPublishedWithAuthor(rows, cutoff);
    var ids := seq(|recent|, i requires 0 <= i < |recent| => assert recent[i] in recent; recent[i].authorId.value);
    assert RecentAuthorIds(rows, cutoff) == Distinct(ids);
    if a in RecentAuthors(rows, cutoff) {
      var i :| 0 <= i < |ids| && ids[i] == a;
      assert recent[i] in recent;
    }
    if exists p :: p in rows && p.authorId == Some(a) && p.published
                   && p.createdAt.Some? && p.createdAt.value > cutoff {
      var p :| p in rows && p.authorId == Some(a) && p.published
               && p.createdAt.Some? && p.createdAt.value > cutoff;
      var i :| 0 <= i < |recent| && recent[i] == p;
      assert ids[i] == a;
    }
  }

  /** `getAuthorIds`: every recent author the user service still knows; the first
      failed lookup is rethrown. `cutoff` is now minus the configured number of
      months. */
  method GetAuthorIds(rows: seq<Post>, cutoff: Time, findUser: int -> Outcome<bool>) returns (r: Outcome<set<int>>)
    ensures r.Ok? <==> forall a :: a in RecentAuthors(rows, cutoff) ==> findUser(a).Ok?
    ensures r.Ok? ==> r.value == set a | a in RecentAuthors(rows, cutoff) && findUser(a) == Ok(true)
    ensures r.Thrown? ==> exists a :: a in RecentAuthors(rows, cutoff) && findUser(a) == Thrown(r.exception)
  {
    var authorIds := RecentAuthorIds(rows, cutoff);
    var existing: set<int> := {};
    for i := 0 to |authorIds|
      invariant forall k :: 0 <= k < i ==> findUser(authorIds[k]).Ok?
      invariant existing == KnownAmong(authorIds[..i], findUser)
    {
      var found := findUser(authorIds[i]);
      if found.Thrown? {
        var a := authorIds[i];
        assert a in RecentAuthors(rows, cutoff) && findUser(a) == Thrown(found.exception);
        return Thrown(found.exception);
      }
      KnownAmongStep(authorIds, i, findUser);
      if found.value {
        existing := existing + {authorIds[i]};
      }
    }
    assert authorIds[..|authorIds|] == authorIds;
    return Ok(existing);
  }

  /** The ids of `ids` that the user service reports as existing. */
  ghost function KnownAmong(ids: seq<int>, findUser: int -> Outcome<bool>): set<int>
  {
    set a | a in ids && findUser(a) == Ok(true)
  }

  /** Proof helper: looking up one more id adds it exactly when the user exists. */
  lemma KnownAmongStep(ids: seq<int>, i: nat, findUser: int -> Outcome<bool>)
    requires i < |ids|
    ensures KnownAmong(ids[..i + 1], findUser)
            == KnownAmong(ids[..i], findUser) + (if findUser(ids[i]) == Ok(true) then {ids[i]} else {})
  {
    assert ids[..i + 1] == ids[..i] + [ids[i]];
  }

  /** `getProjectIds`: the distinct project ids of the recently published posts. */
  function GetProjectIds(rows: seq<Post>, cutoff: Time): (r: set<int>)
    ensures forall q :: q in r <==>
              exists p :: p in rows && p.projectId == Some(q) && p.published
                          && p.createdAt.Some? && p.createdAt.value > cutoff
  {
    var recent := FindRecentPublishedWithProject(rows, cutoff);
    var r := set p | p in recent :: p.projectId.value;
    assert forall q :: q in r ==> exists p :: p in recent && p.projectId == Some(q);
    r
  }
}
