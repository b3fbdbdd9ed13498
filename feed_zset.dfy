/** `UserFeedZSetService`: one Redis sorted set per user holding the ids of the posts
    in that user's news feed, scored by the post's creation time in epoch seconds.

    A sorted set is modelled as the sequence of its entries in the order
    `ZREVRANGE` returns them: descending score, and for equal scores descending
    byte order of the member. Members are unique. */
module FeedZSet {
  import opened Base
  import opened Text

  /** The number of entries a feed keeps after every insertion. */
  const FEED_SIZE: nat := 500

  /** One member of a sorted set with its score. */
  datatype Entry = Entry(member: string, score: int)

  /** `a` comes before `b` in reverse rank order. */
  predicate Above(a: Entry, b: Entry)
  {
    a.score > b.score || (a.score == b.score && LexLess(b.member, a.member))
  }

  /** Proof helper. */
  lemma AboveTransitive(a: Entry, b: Entry, c: Entry)
    requires Above(a, b) && Above(b, c)
    ensures Above(a, c)
  {
    if a.score == b.score && b.score == c.score {
      LexLessTransitive(c.member, b.member, a.member);
    }
  }

  /** Proof helper: two entries with different members are ordered one way or the other. */
  lemma AboveTotal(a: Entry, b: Entry)
    requires a.member != b.member
    ensures Above(a, b) || Above(b, a)
  {
    if a.score == b.score {
      LexLessTotal(a.member, b.member);
    }
  }

  /** A Redis sorted set in reverse rank order: strictly descending, unique members. */
  predicate WellFormed(s: seq<Entry>)
  {
    (forall i, j :: 0 <= i < j < |s| ==> Above(s[i], s[j]))
    && (forall i, j :: 0 <= i < j < |s| ==> s[i].member != s[j].member)
  }

  /** `ZSCORE`: the score of `member`, `None` (a Java null) when it is absent. */
  function ScoreOf(s: seq<Entry>, member: string): (r: Option<int>)
    ensures r.Some? <==> exists i :: 0 <= i < |s| && s[i].member == member
    ensures r.Some? ==> exists i :: 0 <= i < |s| && s[i] == Entry(member, r.value)
  {
    if |s| == 0 then None
    else if s[0].member == member then Some(s[0].score)
    else
      var r := ScoreOf(s[1..], member);
      assert forall i :: 0 < i < |s| ==> s[i] == s[1..][i - 1];
      r
  }

  /** Inserting an entry at its rank. */
  function InsertEntry(s: seq<Entry>, e: Entry): seq<Entry>
  {
    if |s| == 0 then [e]
    else if Above(e, s[0]) then [e] + s
    else [s[0]] + InsertEntry(s[1..], e)
  }

  /** Proof helper. */
  lemma {:induction false} InsertEntryElements(s: seq<Entry>, e: Entry)
    ensures |InsertEntry(s, e)| == |s| + 1
    ensures forall x :: x in InsertEntry(s, e) <==> x in s || x == e
  {
    if |s| > 0 && !Above(e, s[0]) {
      InsertEntryElements(s[1..], e);
      assert s == [s[0]] + s[1..];
    }
  }

  /** Proof helper. */
  lemma {:induction false} InsertEntryWellFormed(s: seq<Entry>, e: Entry)
    requires WellFormed(s)
    requires ScoreOf(s, e.member) == None
    ensures WellFormed(InsertEntry(s, e))
  {
    if |s| == 0 {
    } else if Above(e, s[0]) {
      var r := [e] + s;
      forall i, j | 0 <= i < j < |r|
        ensures Above(r[i], r[j]) && r[i].member != r[j].member
      {
        if i == 0 && j > 1 {
          AboveTransitive(e, s[0], s[j - 1]);
        }
      }
    } else {
      var t := s[1..];
      assert ScoreOf(t, e.member) == None;
      InsertEntryWellFormed(t, e);
      InsertEntryElements(t, e);
      AboveTotal(s[0], e);
      var rest := InsertEntry(t, e);
      var r := [s[0]] + rest;
      forall j | 0 <= j < |rest|
        ensures Above(s[0], rest[j]) && s[0].member != rest[j].member
      {
        assert rest[j] in rest;
        if rest[j] != e {
          assert rest[j] in t;
          var k :| 0 <= k < |t| && t[k] == rest[j];
          assert s[k + 1] == rest[j];
        }
      }
      forall i, j | 0 <= i < j < |r|
        ensures Above(r[i], r[j]) && r[i].member != r[j].member
      {
        if i == 0 {
          assert r[j] == rest[j - 1];
        } else {
          assert r[i] == rest[i - 1] && r[j] == rest[j - 1];
        }
      }
    }
  }

  /** `ZADD key NX score member`: a member already present keeps its score. */
  function AddIfAbsent(s: seq<Entry>, member: string, score: int): seq<Entry>
  {
    if ScoreOf(s, member).Some? then s else InsertEntry(s, Entry(member, score))
  }

  /** `ZREMRANGEBYRANK key start stop`, with ranks counted in ascending order
      (rank 0 is the lowest entry, the last of the sequence); negative indexes
      count from the top, and an empty or out-of-range window removes nothing. */
  function RemoveRangeByRank(s: seq<Entry>, start: int, stop: int): (r: seq<Entry>)
    ensures |r| <= |s|
  {
    var n := |s|;
    var first := if start < 0 then start + n else start;
    var last := if stop < 0 then stop + n else stop;
    var first' := if first < 0 then 0 else first;
    if first' > last || first' >= n then s
    else
      var last' := if last >= n then n - 1 else last;
      s[..n - 1 - last'] + s[n - first'..]
  }

  /** The trim `removeRange(key, 0, -FEED_SIZE - 1)` keeps the FEED_SIZE highest
      entries and removes nothing from a feed that is not longer. */
  lemma TrimKeepsTop(s: seq<Entry>)
    ensures RemoveRangeByRank(s, 0, -(FEED_SIZE as int) - 1)
            == if |s| > FEED_SIZE then s[..FEED_SIZE] else s
  {
    var n := |s|;
    if n > FEED_SIZE {
      assert s[n..] == [];
      assert s[..FEED_SIZE] + [] == s[..FEED_SIZE];
    }
  }

  /** The feed after `addPostToFeed`: add if absent, then trim. */
  function AddedFeed(s: seq<Entry>, member: string, score: int): seq<Entry>
  {
    RemoveRangeByRank(AddIfAbsent(s, member, score), 0, -(FEED_SIZE as int) - 1)
  }

  /** Proof helper. */
  lemma PrefixWellFormed(s: seq<Entry>, k: nat)
    requires WellFormed(s) && k <= |s|
    ensures WellFormed(s[..k])
  {
    assert forall i :: 0 <= i < k ==> s[..k][i] == s[i];
  }

  /** A feed stays a well-formed sorted set of at most FEED_SIZE entries, and the
      entries the trim drops are all below every entry it keeps. */
  lemma AddedFeedIsBoundedTop(s: seq<Entry>, member: string, score: int)
    requires WellFormed(s)
    ensures WellFormed(AddedFeed(s, member, score))
    ensures |AddedFeed(s, member, score)| <= FEED_SIZE
    ensures var t := AddIfAbsent(s, member, score);
            var r := AddedFeed(s, member, score);
            r == t[..|r|]
            && forall i, j :: 0 <= i < |r| <= j < |t| ==> Above(t[i], t[j])
  {
    var t := AddIfAbsent(s, member, score);
    if ScoreOf(s, member) == None {
      InsertEntryWellFormed(s, Entry(member, score));
    }
    TrimKeepsTop(t);
    PrefixWellFormed(t, if |t| > FEED_SIZE then FEED_SIZE else |t|);
  }

  /** Adding a post that is already in a feed of at most FEED_SIZE entries changes
      nothing: the stored score is kept and nothing is trimmed. */
  lemma AddExistingKeepsFeed(s: seq<Entry>, member: string, score: int)
    requires |s| <= FEED_SIZE
    requires ScoreOf(s, member).Some?
    ensures AddedFeed(s, member, score) == s
    ensures ScoreOf(AddedFeed(s, member, score), member) == ScoreOf(s, member)
  {
    TrimKeepsTop(s);
  }

  /** A post added to a feed with room for it is in the feed afterwards, with the
      given score, and every earlier entry is still there. */
  lemma AddNewEntersFeed(s: seq<Entry>, member: string, score: int)
    requires WellFormed(s)
    requires |s| < FEED_SIZE
    requires ScoreOf(s, member) == None
    ensures ScoreOf(AddedFeed(s, member, score), member) == Some(score)
    ensures forall x :: x in s ==> x in AddedFeed(s, member, score)
    ensures |AddedFeed(s, member, score)| == |s| + 1
  {
    var t := InsertEntry(s, Entry(member, score));
    InsertEntryElements(s, Entry(member, score));
    InsertEntryWellFormed(s, Entry(member, score));
    TrimKeepsTop(t);
    assert Entry(member, score) in t;
    var k :| 0 <= k < |t| && t[k] == Entry(member, score);
    MemberScoreUnique(t, member, score, k);
  }

  /** Proof helper: in a sequence where the only entry for `member` is at `k`, its score is found. */
  lemma {:induction false} MemberScoreUnique(t: seq<Entry>, member: string, score: int, k: nat)
    requires k < |t| && t[k] == Entry(member, score)
    requires forall i :: 0 <= i < |t| && i != k ==> t[i].member != member
    ensures ScoreOf(t, member) == Some(score)
  {
    if k > 0 {
      MemberScoreUnique(t[1..], member, score, k - 1);
    }
  }

  /** `"feed:" + userId`, where a null id prints as "null". */
  function FeedKey(userId: Option<int>): (key: string)
    ensures StartsWith(key, "feed:")
  {
    "feed:" + (if userId.Some? then LongToString(userId.value) else "null")
  }

  /** Proof helper: a printed number never starts like "null". */
  lemma LongToStringIsNotNull(n: int)
    ensures LongToString(n)[0] != 'n'
  {
  }

  /** Different users have different feed keys. */
  lemma FeedKeyInjective(a: Option<int>, b: Option<int>)
    requires a.Some? ==> IsLong(a.value)
    requires b.Some? ==> IsLong(b.value)
    requires FeedKey(a) == FeedKey(b)
    ensures a == b
  {
    var sa := FeedKey(a)[5..];
    var sb := FeedKey(b)[5..];
    assert sa == sb;
    if a.Some? {
      assert sa == LongToString(a.value);
      LongToStringIsNotNull(a.value);
    }
    if b.Some? {
      assert sb == LongToString(b.value);
      LongToStringIsNotNull(b.value);
    }
    if a.Some? && b.Some? {
      assert sa == LongToString(a.value) && sb == LongToString(b.value);
      LongToStringInjective(a.value, b.value);
    }
  }

  /** `ZREVRANGE key start stop`: ranks counted from the highest entry; negative
      indexes count from the bottom and an empty window gives nothing. */
  function ReverseRange(s: seq<Entry>, start: int, stop: int): (r: seq<Entry>)
    ensures |r| <= |s|
  {
    var n := |s|;
    var first := if start < 0 then start + n else start;
    var last := if stop < 0 then stop + n else stop;
    var first' := if first < 0 then 0 else first;
    if first' > last || first' >= n then []
    else
      var last' := if last >= n then n - 1 else last;
      s[first'..last' + 1]
  }

  /** The entries scored at most `max`, in the sequence's order. */
  function AtOrBelow(s: seq<Entry>, max: int): (r: seq<Entry>)
    ensures |r| <= |s|
    ensures forall x :: x in r <==> x in s && x.score <= max
  {
    if |s| == 0 then []
    else
      var rest := AtOrBelow(s[1..], max);
      assert forall x :: x in s <==> x == s[0] || x in s[1..];
      if s[0].score <= max then [s[0]] + rest else rest
  }

  /** `ZREVRANGEBYSCORE key max -inf LIMIT 0 count`: the entries scored at most `max`
      in reverse rank order, at most `count` of them; a negative count means no limit
      and a zero count returns nothing. */
  function ReverseRangeByScore(s: seq<Entry>, max: int, count: int): (r: seq<Entry>)
    ensures count >= 0 ==> |r| <= count
    ensures forall x :: x in r ==> x in s && x.score <= max
  {
    var f := AtOrBelow(s, max);
    if count < 0 || count >= |f| then f else f[..count]
  }

  /** The raw page of `getFeedPosts`: from the top without a cursor, otherwise from
      the cursor's score down (the bound is inclusive); a cursor that is not in the
      feed gives nothing. */
  function PageEntries(feed: seq<Entry>, lastPostId: Option<int>, pageSize: int): seq<Entry>
  {
    match lastPostId
    case None => ReverseRange(feed, 0, pageSize - 1)
    case Some(cursor) =>
      match ScoreOf(feed, LongToString(cursor))
      case None => []
      case Some(score) => ReverseRangeByScore(feed, score, pageSize)
  }

  /** `isValidLong` and `Long::valueOf` over the page: members that do not parse as a
      `long` are dropped, the others become ids, in order. */
  function ParsedIds(page: seq<Entry>): seq<int>
  {
    if |page| == 0 then []
    else
      (match ParseLong(page[0].member)
       case Some(id) => [id]
       case None => [])
      + ParsedIds(page[1..])
  }

  /** The ids `getFeedPosts` returns for one feed. */
  function FeedPage(feed: seq<Entry>, lastPostId: Option<int>, pageSize: int): seq<int>
  {
    ParsedIds(PageEntries(feed, lastPostId, pageSize))
  }

  /** Parsing distributes over concatenation: the surviving ids keep their order. */
  lemma {:induction false} ParsedIdsAppend(a: seq<Entry>, b: seq<Entry>)
    ensures ParsedIds(a + b) == ParsedIds(a) + ParsedIds(b)
  {
    if |a| > 0 {
      assert (a + b)[0] == a[0];
      assert (a + b)[1..] == a[1..] + b;
      ParsedIdsAppend(a[1..], b);
    } else {
      assert a + b == b;
    }
  }

  /** A member that is not a number contributes nothing; a number contributes itself. */
  lemma ParsedIdsOfOne(e: Entry)
    ensures ParsedIds([e]) == (if ParseLong(e.member).Some? then [ParseLong(e.member).value] else [])
  {
    assert [e][1..] == [];
  }

  /** Every returned id is the parse of some member of the page, and there are no
      more ids than entries. */
  lemma {:induction false} ParsedIdsFromPage(page: seq<Entry>)
    ensures |ParsedIds(page)| <= |page|
    ensures forall id :: id in ParsedIds(page) ==>
              exists e :: e in page && ParseLong(e.member) == Some(id)
  {
    if |page| > 0 {
      ParsedIdsFromPage(page[1..]);
      forall id | id in ParsedIds(page)
        ensures exists e :: e in page && ParseLong(e.member) == Some(id)
      {
        if id !in ParsedIds(page[1..]) {
          assert ParseLong(page[0].member) == Some(id);
        } else {
          var e :| e in page[1..] && ParseLong(e.member) == Some(id);
          assert e in page;
        }
      }
    }
  }

  /** A feed whose members are all printed longs (the only members `addPostToFeed`
      writes) loses nothing to parsing: every entry yields its own id. */
  lemma {:induction false} ParsedIdsOfCanonical(page: seq<Entry>, ids: seq<int>)
    requires |ids| == |page|
    requires forall i :: 0 <= i < |page| ==> IsLong(ids[i]) && page[i].member == LongToString(ids[i])
    ensures ParsedIds(page) == ids
  {
    if |page| > 0 {
      ParseLongRoundTrip(ids[0]);
      ParsedIdsOfCanonical(page[1..], ids[1..]);
      assert ids == [ids[0]] + ids[1..];
    }
  }

  /** Without a cursor and with a positive page size, the page is the top of the
      feed: its first `pageSize` entries, or all of them. */
  lemma NoCursorPageIsTop(feed: seq<Entry>, pageSize: int)
    requires pageSize > 0
    ensures PageEntries(feed, None, pageSize)
            == feed[..if pageSize < |feed| then pageSize else |feed|]
  {
  }

  /** A page size of zero has no upper bound: `ZREVRANGE key 0 -1` is the whole feed. */
  lemma ZeroPageSizeIsWholeFeed(feed: seq<Entry>)
    ensures PageEntries(feed, None, 0) == feed
  {
  }

  /** A cursor that is not in the feed gives an empty page. */
  lemma UnknownCursorGivesNothing(feed: seq<Entry>, cursor: int, pageSize: int)
    requires ScoreOf(feed, LongToString(cursor)) == None
    ensures FeedPage(feed, Some(cursor), pageSize) == []
  {
  }

  /** Proof helper. */
  lemma {:induction false} AtOrBelowSorted(s: seq<Entry>, max: int)
    requires WellFormed(s)
    ensures WellFormed(AtOrBelow(s, max))
  {
    if |s| > 0 {
      var rest := AtOrBelow(s[1..], max);
      assert WellFormed(s[1..]) by {
        assert forall i :: 0 <= i < |s| - 1 ==> s[1..][i] == s[i + 1];
      }
      AtOrBelowSorted(s[1..], max);
      if s[0].score <= max {
        forall e | e in rest ensures Above(s[0], e) && s[0].member != e.member {
          var k :| 0 <= k < |s[1..]| && s[1..][k] == e;
          assert s[k + 1] == e;
        }
        ConsWellFormed(s[0], rest);
      }
    }
  }

  /** Proof helper: an entry above every entry of a sorted feed, and sharing no member with
      them, can go in front of it. */
  lemma ConsWellFormed(x: Entry, rest: seq<Entry>)
    requires WellFormed(rest)
    requires forall e :: e in rest ==> Above(x, e) && x.member != e.member
    ensures WellFormed([x] + rest)
  {
    var r := [x] + rest;
    forall i, j | 0 <= i < j < |r| ensures Above(r[i], r[j]) && r[i].member != r[j].member {
      assert r[j] == rest[j - 1];
      if i > 0 {
        assert r[i] == rest[i - 1];
      }
    }
  }

  /** Proof helper: the entries of a sorted feed scored at most the top score below `max` start
      with the highest such score. */
  lemma {:induction false} AtOrBelowStartsAtMax(s: seq<Entry>, max: int, k: nat)
    requires WellFormed(s)
    requires k < |s| && s[k].score == max
    ensures |AtOrBelow(s, max)| > 0 && AtOrBelow(s, max)[0].score == max
  {
    if s[0].score > max {
      assert k > 0;
      assert WellFormed(s[1..]) by {
        assert forall i :: 0 <= i < |s| - 1 ==> s[1..][i] == s[i + 1];
      }
      AtOrBelowStartsAtMax(s[1..], max, k - 1);
    }
  }

  /** With a cursor in the feed, the page holds at most `pageSize` entries of the
      feed (all of them when the size is negative), in descending order, none scored
      above the cursor; with a positive size it starts at the cursor's own score, so
      the cursor and its ties come back again. */
  lemma CursorPage(feed: seq<Entry>, cursor: int, pageSize: int)
    requires WellFormed(feed)
    requires ScoreOf(feed, LongToString(cursor)).Some?
    ensures var score := ScoreOf(feed, LongToString(cursor)).value;
            var page := PageEntries(feed, Some(cursor), pageSize);
            WellFormed(page)
            && (pageSize >= 0 ==> |page| <= pageSize)
            && (forall x :: x in page ==> x in feed && x.score <= score)
            && (pageSize > 0 ==> |page| > 0 && page[0].score == score)
            && (pageSize < 0 ==> forall x :: x in feed && x.score <= score ==> x in page)
  {
    var score := ScoreOf(feed, LongToString(cursor)).value;
    var f := AtOrBelow(feed, score);
    AtOrBelowSorted(feed, score);
    var k :| 0 <= k < |feed| && feed[k] == Entry(LongToString(cursor), score);
    AtOrBelowStartsAtMax(feed, score, k);
    if 0 <= pageSize < |f| {
      PrefixWellFormed(f, pageSize);
    }
  }

  /** The page is sorted and bounded whatever the cursor: never more than a positive
      `pageSize` entries, all taken from the feed. */
  lemma PageIsSortedSlice(feed: seq<Entry>, lastPostId: Option<int>, pageSize: int)
    requires WellFormed(feed)
    ensures WellFormed(PageEntries(feed, lastPostId, pageSize))
    ensures pageSize > 0 ==> |PageEntries(feed, lastPostId, pageSize)| <= pageSize
    ensures pageSize > 0 ==> |FeedPage(feed, lastPostId, pageSize)| <= pageSize
    ensures forall x :: x in PageEntries(feed, lastPostId, pageSize) ==> x in feed
  {
    var page := PageEntries(feed, lastPostId, pageSize);
    ParsedIdsFromPage(page);
    match lastPostId
    case None =>
      var r := ReverseRange(feed, 0, pageSize - 1);
      if r != [] {
        var n := |feed|;
        var last := if pageSize - 1 < 0 then pageSize - 1 + n else pageSize - 1;
        var last' := if last >= n then n - 1 else last;
        assert r == feed[..last' + 1];
        PrefixWellFormed(feed, last' + 1);
      }
    case Some(cursor) =>
      if ScoreOf(feed, LongToString(cursor)).Some? {
        CursorPage(feed, cursor, pageSize);
      }
  }

  /** The Redis side of the feed: one sorted set per key. */
  /** The sorted set stored at `key`; a missing key reads as an empty set. */
  function FeedIn(feeds: map<string, seq<Entry>>, key: string): seq<Entry>
  {
    if key in feeds then feeds[key] else []
  }

  class UserFeedZSetService {
    var feeds: map<string, seq<Entry>>

    /** Every stored feed is a well-formed sorted set of at most FEED_SIZE entries. */
    ghost predicate Valid()
      reads this
    {
      forall key :: key in feeds ==> WellFormed(feeds[key]) && |feeds[key]| <= FEED_SIZE
    }

    constructor()
      ensures feeds == map[] && Valid()
    {
      feeds := map[];
    }

    /** The sorted set at `key`; a missing key is an empty set. */
    function Feed(key: string): seq<Entry>
      reads this
    {
      FeedIn(feeds, key)
    }

    /** `addPostToFeed`: the post id, printed, is added with the timestamp as score if
        it is not in the user's feed yet, then the feed is trimmed to FEED_SIZE. A null
        post id or timestamp is a NullPointerException and nothing is written. */
    method AddPostToFeed(userId: Option<int>, postId: Option<int>, timestamp: Option<int>)
      returns (r: Outcome<Unit>)
      requires Valid()
      modifies this
      ensures Valid()
      ensures r.Thrown? <==> postId.None? || timestamp.None?
      ensures r.Thrown? ==> r.exception == NullPointer && feeds == old(feeds)
      ensures r.Ok? ==> feeds == old(feeds)[FeedKey(userId) :=
                AddedFeed(old(Feed(FeedKey(userId))), LongToString(postId.value), timestamp.value)]
      ensures r.Ok? ==> ScoreOf(Feed(FeedKey(userId)), LongToString(postId.value)).Some?
                        || |old(Feed(FeedKey(userId)))| >= FEED_SIZE
    {
      var key := FeedKey(userId);
      if timestamp.None? {
        return Thrown(NullPointer);
      }
      var score := timestamp.value;
      if postId.None? {
        return Thrown(NullPointer);
      }
      var member := LongToString(postId.value);
      var before := Feed(key);
      AddedFeedIsBoundedTop(before, member, score);
      var after := AddedFeed(before, member, score);
      if |before| < FEED_SIZE {
        if ScoreOf(before, member).Some? {
          AddExistingKeepsFeed(before, member, score);
        } else {
          AddNewEntersFeed(before, member, score);
        }
      }
      feeds := feeds[key := after];
      r := Ok(Unit);
    }

    /** `getFeedPosts`: one page of the user's feed, as ids. */
    function GetFeedPosts(userId: Option<int>, lastPostId: Option<int>, pageSize: int): (r: seq<int>)
      reads this
      requires Valid()
      ensures pageSize > 0 ==> |r| <= pageSize
      ensures lastPostId.Some? && ScoreOf(Feed(FeedKey(userId)), LongToString(lastPostId.value)) == None
              ==> r == []
      ensures forall id :: id in r ==>
                exists e :: e in Feed(FeedKey(userId)) && ParseLong(e.member) == Some(id)
    {
      var feed := Feed(FeedKey(userId));
      PageIsSortedSlice(feed, lastPostId, pageSize);
      ParsedIdsFromPage(PageEntries(feed, lastPostId, pageSize));
      FeedPage(feed, lastPostId, pageSize)
    }
  }

  /** Adding to one user's feed leaves every other user's feed as it was. */
  lemma OtherFeedsUntouched(feeds: map<string, seq<Entry>>, userId: Option<int>, other: Option<int>,
                            s: seq<Entry>)
    requires userId.Some? ==> IsLong(userId.value)
    requires other.Some? ==> IsLong(other.value)
    requires userId != other
    ensures var after := feeds[FeedKey(userId) := s];
            (FeedKey(other) in after <==> FeedKey(other) in feeds)
            && (FeedKey(other) in feeds ==> after[FeedKey(other)] == feeds[FeedKey(other)])
  {
    if FeedKey(userId) == FeedKey(other) {
      FeedKeyInjective(userId, other);
    }
  }
}
