/** `AlbumServiceImpl`: who may see an album, owner-only changes, one title per
    author, the favourite-user list, and the filtered album queries. The user
    service is a parameter: `findUser(id)` is whether it knows the user (or the
    exception the call throws), and `subscribersOf(id)` the ids of a user's
    subscribers. */
module AlbumServices {
  import opened Base
  import opened Seqs
  import opened Text
  import opened PostModel
  import opened PostStore
  import opened AlbumModel
  import opened AlbumFilters

  const ALBUM_MISSING: string := "Album does not exist"
  const POST_MISSING: string := "Post does not exist"
  const ONLY_OWNER: string := "Only owner can add or delete post from this album"
  const NO_ACCESS: string := "Sorry, you have no access to this album"

  function TitleInUse(authorId: int, title: string): string
  {
    "User with ID " + LongToString(authorId) + " already has album with Title " + title
  }

  function UserNotFound(userId: int): string
  {
    "User with ID " + LongToString(userId) + " not found"
  }

  // ---------------------------------------------------------------------------
  // Visibility
  // ---------------------------------------------------------------------------

  /** `isVisible`: whether `userId` may see the album, given the ids of the album
      author's subscribers. */
  predicate IsVisible(a: Album, userId: int, subscribers: seq<int>)
  {
    match a.visibility
    case ALL => true
    case SUBSCRIBERS => userId in subscribers || a.authorId == userId
    case FAVORITES => userId in a.favorites || a.authorId == userId
    case OWNER => a.authorId == userId
  }

  /** The decision table, case by case, in both directions. */
  lemma VisibilityTable(a: Album, userId: int, subscribers: seq<int>)
    ensures a.visibility == ALL ==> IsVisible(a, userId, subscribers)
    ensures a.visibility == SUBSCRIBERS ==>
              (IsVisible(a, userId, subscribers) <==> userId in subscribers || userId == a.authorId)
    ensures a.visibility == FAVORITES ==>
              (IsVisible(a, userId, subscribers) <==> userId in a.favorites || userId == a.authorId)
    ensures a.visibility == OWNER ==> (IsVisible(a, userId, subscribers) <==> userId == a.authorId)
  {
  }

  /** The author always sees the album, and a stranger (neither subscriber nor
      favourite) sees it only when it is open to all. */
  lemma VisibilityOfAuthorAndStrangers(a: Album, userId: int, subscribers: seq<int>)
    ensures IsVisible(a, a.authorId, subscribers)
    ensures userId != a.authorId && userId !in subscribers && userId !in a.favorites
            ==> (IsVisible(a, userId, subscribers) <==> a.visibility == ALL)
  {
  }

  // ---------------------------------------------------------------------------
  // The favourite-user list
  // ---------------------------------------------------------------------------

  /** `addToFavoriteUsers`: the id is appended when it is absent. */
  function AddToFavorites(favorites: seq<int>, id: int): (r: seq<int>)
    ensures id in r
    ensures forall x :: x in favorites ==> x in r
    ensures forall x :: x in r ==> x in favorites || x == id
    ensures id in favorites ==> r == favorites
    ensures |r| <= |favorites| + 1
  {
    if id in favorites then favorites else favorites + [id]
  }

  /** `removerFromFavoriteUsers`: `List.remove(Object)` drops the first
      occurrence of the id, when there is one. */
  function RemoveFromFavorites(favorites: seq<int>, id: int): (r: seq<int>)
    ensures multiset(r) == multiset(favorites) - multiset{id}
    ensures id !in favorites ==> r == favorites
    decreases |favorites|
  {
    if favorites == [] then []
    else
      assert favorites == [favorites[0]] + favorites[1..];
      if favorites[0] == id then favorites[1..]
      else [favorites[0]] + RemoveFromFavorites(favorites[1..], id)
  }

  /** Adding a user twice is adding it once. */
  lemma AddToFavoritesIsIdempotent(favorites: seq<int>, id: int)
    ensures AddToFavorites(AddToFavorites(favorites, id), id) == AddToFavorites(favorites, id)
  {
  }

  /** Removing a user that was just added restores the list. */
  lemma {:induction false} RemoveUndoesAdd(favorites: seq<int>, id: int)
    requires id !in favorites
    ensures RemoveFromFavorites(AddToFavorites(favorites, id), id) == favorites
    decreases |favorites|
  {
    if favorites != [] {
      var rest := favorites[1..];
      assert favorites + [id] == [favorites[0]] + (rest + [id]);
      RemoveUndoesAdd(rest, id);
    }
  }

  /** In a list without repeats, which is all `addToFavoriteUsers` builds, a
      removed user is gone and adding keeps the list free of repeats. */
  lemma FavoritesStayDistinct(favorites: seq<int>, id: int)
    requires NoDuplicates(favorites)
    ensures NoDuplicates(AddToFavorites(favorites, id))
    ensures id !in RemoveFromFavorites(favorites, id)
  {
    var r := RemoveFromFavorites(favorites, id);
    if id in favorites {
      NoDuplicatesCounts(favorites);
      assert multiset(r)[id] == 0;
    }
    assert id !in multiset(r);
  }

  // ---------------------------------------------------------------------------
  // The album table
  // ---------------------------------------------------------------------------

  function AlbumId(a: Album): int
  {
    a.id
  }

  /** The album with that id. */
  function AlbumWithId(rows: seq<Album>, id: int): (r: Option<Album>)
    ensures r.Some? <==> exists i :: 0 <= i < |rows| && rows[i].id == id
    ensures r.Some? ==> r.value in rows && r.value.id == id
    decreases |rows|
  {
    if rows == [] then None
    else if rows[0].id == id then Some(rows[0])
    else
      assert forall i :: 0 < i < |rows| ==> rows[i] == rows[1..][i - 1];
      AlbumWithId(rows[1..], id)
  }

  /** `findAlbumById`: a null id is rejected by the repository, a missing album
      is an EntityNotFoundException. */
  function FindAlbum(rows: seq<Album>, id: Option<int>): (r: Outcome<Album>)
    ensures r.Thrown? <==> id.None? || AlbumWithId(rows, id.value).None?
    ensures id.None? ==> r.Thrown? && r.exception.IllegalArgument?
    ensures id.Some? && r.Thrown? ==> r.exception == EntityNotFound(ALBUM_MISSING)
    ensures r.Ok? ==> r.value in rows && Some(r.value.id) == id
  {
    if id.None? then Thrown(IllegalArgument("The given id must not be null"))
    else
      match AlbumWithId(rows, id.value)
      case None => Thrown(EntityNotFound(ALBUM_MISSING))
      case Some(a) => Ok(a)
  }

  /** `existsByTitleAndAuthorId`. */
  predicate TitleTaken(rows: seq<Album>, title: string, authorId: int)
  {
    exists i :: 0 <= i < |rows| && rows[i].title == title && rows[i].authorId == authorId
  }

  /** Some other album of the author already has the title. */
  predicate TitleTakenByOther(rows: seq<Album>, title: string, authorId: int, id: int)
  {
    exists i :: 0 <= i < |rows| && rows[i].title == title && rows[i].authorId == authorId && rows[i].id != id
  }

  /** No author has two albums with the same title. */
  predicate UniqueTitles(rows: seq<Album>)
  {
    forall i, j :: 0 <= i < j < |rows| && rows[i].authorId == rows[j].authorId ==> rows[i].title != rows[j].title
  }

  /** The table after `save` of an album already stored: its row is replaced. */
  function Replaced(rows: seq<Album>, a: Album): (r: seq<Album>)
    ensures |r| == |rows|
    ensures forall i :: 0 <= i < |rows| ==> r[i] == if rows[i].id == a.id then a else rows[i]
  {
    Map(rows, (x: Album) => if x.id == a.id then a else x)
  }

  /** The table holding the albums, keyed by a unique id. */
  class AlbumRepository {
    var rows: seq<Album>

    ghost predicate Valid()
      reads this
    {
      DistinctKeys(rows, AlbumId)
    }

    constructor()
      ensures rows == [] && Valid()
    {
      rows := [];
    }

    /** `save` of a new album: it is appended. */
    method Insert(a: Album)
      requires Valid() && AlbumWithId(rows, a.id).None?
      modifies this
      ensures Valid()
      ensures rows == old(rows) + [a]
    {
      rows := rows + [a];
    }

    /** `save` of a stored album: its row is replaced. */
    method Update(a: Album)
      requires Valid()
      modifies this
      ensures Valid()
      ensures rows == Replaced(old(rows), a)
    {
      rows := Replaced(rows, a);
    }

    /** `delete`: the album's row goes. */
    method Delete(id: int)
      requires Valid()
      modifies this
      ensures Valid()
      ensures rows == Filter(old(rows), (x: Album) => x.id != id)
    {
      FilterDistinctKeys(rows, (x: Album) => x.id != id, AlbumId);
      rows := Filter(rows, (x: Album) => x.id != id);
    }
  }

  // ---------------------------------------------------------------------------
  // The service's decisions
  // ---------------------------------------------------------------------------

  /** `validateUser`: the user service must know the user. */
  function ValidateUser(userId: int, findUser: int -> Outcome<bool>): (r: Outcome<Unit>)
    ensures r.Ok? <==> findUser(userId) == Ok(true)
    ensures findUser(userId) == Ok(false) ==> r == Thrown(EntityNotFound(UserNotFound(userId)))
  {
    var found :- findUser(userId);
    if found then Ok(Unit) else Thrown(EntityNotFound(UserNotFound(userId)))
  }

  /** `add`: the album the service creates. The title must be new for the user,
      and the user must exist; the album belongs to the user, is visible to the
      owner only, and starts with no favourites and no posts. */
  function CreatedAlbum(rows: seq<Album>, dto: AlbumCreateDto, userId: int, findUser: int -> Outcome<bool>,
                        nextId: int, now: Time): (r: Outcome<Album>)
    ensures TitleTaken(rows, dto.title, userId) ==> r == Thrown(DataValidation(TitleInUse(userId, dto.title)))
    ensures r.Ok? <==> !TitleTaken(rows, dto.title, userId) && findUser(userId) == Ok(true)
    ensures r.Ok? ==> r.value == Album(nextId, dto.title, dto.description, userId, OWNER, [], [], now, None)
  {
    if TitleTaken(rows, dto.title, userId) then Thrown(DataValidation(TitleInUse(userId, dto.title)))
    else
      var _ :- ValidateUser(userId, findUser);
      Ok(Album(nextId, dto.title, dto.description, userId, OWNER, [], [], now, None))
  }

  /** Adding an album whose title is new for its author keeps titles unique. */
  lemma AddKeepsTitlesUnique(rows: seq<Album>, a: Album)
    requires UniqueTitles(rows) && !TitleTaken(rows, a.title, a.authorId)
    ensures UniqueTitles(rows + [a])
  {
    var r := rows + [a];
    forall i, j | 0 <= i < j < |r| && r[i].authorId == r[j].authorId ensures r[i].title != r[j].title {
      if j == |rows| {
        assert r[i] == rows[i];
      }
    }
  }

  /** `getAlbumById`: the user must exist, the album must exist, and the user
      must be allowed to see it. */
  function ViewedAlbum(rows: seq<Album>, userId: int, id: int, findUser: int -> Outcome<bool>,
                       subscribersOf: int -> seq<int>): (r: Outcome<Album>)
    ensures r.Ok? <==> findUser(userId) == Ok(true) && AlbumWithId(rows, id).Some?
                       && IsVisible(AlbumWithId(rows, id).value, userId, subscribersOf(AlbumWithId(rows, id).value.authorId))
    ensures r.Ok? ==> r.value in rows && r.value.id == id
    ensures findUser(userId) == Ok(true) && AlbumWithId(rows, id).Some? && r.Thrown?
            ==> r.exception == DataValidation(NO_ACCESS)
  {
    var _ :- ValidateUser(userId, findUser);
    var a :- FindAlbum(rows, Some(id));
    if !IsVisible(a, userId, subscribersOf(a.authorId)) then Thrown(DataValidation(NO_ACCESS))
    else Ok(a)
  }

  /** `validateUserAccess`. */
  function CheckOwner(authorId: int, userId: int): (r: Outcome<Unit>)
    ensures r.Ok? <==> authorId == userId
    ensures r.Thrown? ==> r.exception == DataValidation(ONLY_OWNER)
  {
    if authorId != userId then Thrown(DataValidation(ONLY_OWNER)) else Ok(Unit)
  }

  /** The album with the dto's fields: title, description, favourites and
      visibility are taken over and the change is stamped. */
  function Edited(a: Album, dto: AlbumDto, now: Time): Album
  {
    a.(title := dto.title, description := dto.description, favorites := dto.favorites,
       visibility := dto.visibility, updatedAt := Some(now))
  }

  /** `update` as written: the owner check compares the caller with the author id
      the client put in the dto, and the title check counts the album being
      updated as a clash. */
  function UpdateAsWritten(rows: seq<Album>, userId: int, dto: AlbumDto, now: Time): (r: Outcome<Album>)
    ensures dto.authorId.None? ==> r == Thrown(NullPointer)
    ensures dto.authorId.Some? && dto.authorId.value != userId ==> r == Thrown(DataValidation(ONLY_OWNER))
    ensures dto.authorId.Some? && TitleTaken(rows, dto.title, dto.authorId.value) ==> r.Thrown?
    ensures r.Ok? <==> dto.authorId == Some(userId) && !TitleTaken(rows, dto.title, userId)
                       && dto.id.Some? && AlbumWithId(rows, dto.id.value).Some?
    ensures r.Ok? ==> r.value == Edited(AlbumWithId(rows, dto.id.value).value, dto, now)
  {
    if dto.authorId.None? then Thrown(NullPointer)
    else
      var _ :- CheckOwner(dto.authorId.value, userId);
      if TitleTaken(rows, dto.title, dto.authorId.value) then
        Thrown(DataValidation(TitleInUse(dto.authorId.value, dto.title)))
      else
        var a :- FindAlbum(rows, dto.id);
        Ok(Edited(a, dto, now))
  }

  /** A user who is not the author edits someone else's album by naming
      themselves as the author in the dto. */
  lemma UpdateAsWrittenLetsStrangerEdit()
    ensures var rows := [Album(7, "Trip", "summer", 1, OWNER, [], [], 0, None)];
            var dto := AlbumDto(Some(7), "Mine", "taken over", Some(2), [], ALL);
            UpdateAsWritten(rows, 2, dto, 5) == Ok(Edited(rows[0], dto, 5)) && rows[0].authorId != 2
  {
    var rows := [Album(7, "Trip", "summer", 1, OWNER, [], [], 0, None)];
    assert !TitleTaken(rows, "Mine", 2);
    assert AlbumWithId(rows, 7) == Some(rows[0]);
  }

  /** The owner cannot change an album's description without renaming it: the
      album's own title counts as taken. */
  lemma UpdateAsWrittenRejectsOwnTitle()
    ensures var rows := [Album(7, "Trip", "summer", 1, OWNER, [], [], 0, None)];
            UpdateAsWritten(rows, 1, AlbumDto(Some(7), "Trip", "winter", Some(1), [], OWNER), 5)
            == Thrown(DataValidation(TitleInUse(1, "Trip")))
  {
    var rows := [Album(7, "Trip", "summer", 1, OWNER, [], [], 0, None)];
    assert rows[0].title == "Trip" && rows[0].authorId == 1;
  }

  /** Because the title is checked against the dto's author, the stranger's edit
      can give the real author two albums with the same title. */
  lemma UpdateAsWrittenBreaksUniqueTitles()
    ensures var rows := [Album(7, "Trip", "a", 1, OWNER, [], [], 0, None), Album(8, "Home", "b", 1, OWNER, [], [], 0, None)];
            var r := UpdateAsWritten(rows, 2, AlbumDto(Some(7), "Home", "c", Some(2), [], OWNER), 5);
            UniqueTitles(rows) && r.Ok? && !UniqueTitles(Replaced(rows, r.value))
  {
    var rows := [Album(7, "Trip", "a", 1, OWNER, [], [], 0, None), Album(8, "Home", "b", 1, OWNER, [], [], 0, None)];
    var dto := AlbumDto(Some(7), "Home", "c", Some(2), [], OWNER);
    assert !TitleTaken(rows, "Home", 2);
    assert AlbumWithId(rows, 7) == Some(rows[0]);
    var t := Replaced(rows, Edited(rows[0], dto, 5));
    assert t[0].title == t[1].title && t[0].authorId == t[1].authorId;
  }

  /** `update` as intended: the stored album must exist, the caller must be its
      author, and the new title must not be used by another album of the
      author. */
  function UpdatedAlbum(rows: seq<Album>, userId: int, dto: AlbumDto, now: Time): (r: Outcome<Album>)
    ensures r.Ok? <==> dto.id.Some? && AlbumWithId(rows, dto.id.value).Some?
                       && AlbumWithId(rows, dto.id.value).value.authorId == userId
                       && !TitleTakenByOther(rows, dto.title, userId, dto.id.value)
    ensures r.Ok? ==> r.value == Edited(AlbumWithId(rows, dto.id.value).value, dto, now)
    ensures dto.id.Some? && AlbumWithId(rows, dto.id.value).Some? && AlbumWithId(rows, dto.id.value).value.authorId != userId
            ==> r == Thrown(DataValidation(ONLY_OWNER))
  {
    var a :- FindAlbum(rows, dto.id);
    var _ :- CheckOwner(a.authorId, userId);
    if TitleTakenByOther(rows, dto.title, a.authorId, a.id) then Thrown(DataValidation(TitleInUse(a.authorId, dto.title)))
    else Ok(Edited(a, dto, now))
  }

  /** The owner may keep the title, and a successful update keeps titles unique
      per author. */
  lemma UpdatedAlbumKeepsTitlesUnique(rows: seq<Album>, userId: int, dto: AlbumDto, now: Time)
    requires DistinctKeys(rows, AlbumId) && UniqueTitles(rows)
    requires dto.id.Some? && AlbumWithId(rows, dto.id.value).Some?
    requires AlbumWithId(rows, dto.id.value).value.authorId == userId
    requires dto.title == AlbumWithId(rows, dto.id.value).value.title
    ensures UpdatedAlbum(rows, userId, dto, now).Ok?
  {
    var a := AlbumWithId(rows, dto.id.value).value;
    var k :| 0 <= k < |rows| && rows[k] == a;
    forall i | 0 <= i < |rows| && rows[i].title == a.title && rows[i].authorId == a.authorId
      ensures rows[i].id == a.id
    {
    }
  }

  /** Replacing an album by an edit whose title no other album of the author
      uses keeps titles unique. */
  lemma UpdatedAlbumPreservesUniqueTitles(rows: seq<Album>, userId: int, dto: AlbumDto, now: Time)
    requires DistinctKeys(rows, AlbumId) && UniqueTitles(rows)
    requires UpdatedAlbum(rows, userId, dto, now).Ok?
    ensures UniqueTitles(Replaced(rows, UpdatedAlbum(rows, userId, dto, now).value))
  {
    var e := UpdatedAlbum(rows, userId, dto, now).value;
    var t := Replaced(rows, e);
    forall i, j | 0 <= i < j < |t| && t[i].authorId == t[j].authorId ensures t[i].title != t[j].title {
      assert t[i] == if rows[i].id == e.id then e else rows[i];
      assert t[j] == if rows[j].id == e.id then e else rows[j];
      assert rows[i].id != rows[j].id;
    }
  }

  /** `remove` as written: the owner check uses the dto's author id. */
  function RemoveAsWritten(rows: seq<Album>, userId: int, dto: AlbumDto): (r: Outcome<Album>)
    ensures dto.authorId.Some? && dto.authorId.value != userId ==> r == Thrown(DataValidation(ONLY_OWNER))
    ensures r.Ok? <==> dto.authorId == Some(userId) && dto.id.Some? && AlbumWithId(rows, dto.id.value).Some?
    ensures r.Ok? ==> AlbumWithId(rows, dto.id.value) == Some(r.value)
  {
    if dto.authorId.None? then Thrown(NullPointer)
    else
      var _ :- CheckOwner(dto.authorId.value, userId);
      FindAlbum(rows, dto.id)
  }

  /** Anyone can delete any album by naming themselves as its author. */
  lemma RemoveAsWrittenLetsStrangerDelete()
    ensures var rows := [Album(7, "Trip", "summer", 1, OWNER, [], [], 0, None)];
            RemoveAsWritten(rows, 2, AlbumDto(Some(7), "", "", Some(2), [], OWNER)) == Ok(rows[0])
            && rows[0].authorId != 2
  {
    var rows := [Album(7, "Trip", "summer", 1, OWNER, [], [], 0, None)];
    assert AlbumWithId(rows, 7) == Some(rows[0]);
  }

  /** `remove` as intended: the stored album's author must be the caller. */
  function RemovedAlbum(rows: seq<Album>, userId: int, dto: AlbumDto): (r: Outcome<Album>)
    ensures r.Ok? <==> dto.id.Some? && AlbumWithId(rows, dto.id.value).Some?
                       && AlbumWithId(rows, dto.id.value).value.authorId == userId
    ensures r.Ok? ==> AlbumWithId(rows, dto.id.value) == Some(r.value)
  {
    var a :- FindAlbum(rows, dto.id);
    var _ :- CheckOwner(a.authorId, userId);
    Ok(a)
  }

  /** `addPost`: the album and the post must exist and the caller must own the
      album; the post is appended to the album's posts. */
  function AlbumWithPost(rows: seq<Album>, posts: seq<Post>, albumId: int, postId: int, userId: int): (r: Outcome<Album>)
    ensures r.Ok? <==> AlbumWithId(rows, albumId).Some? && RowWithId(posts, postId).Some?
                       && AlbumWithId(rows, albumId).value.authorId == userId
    ensures r.Ok? ==> var a := AlbumWithId(rows, albumId).value;
                      r.value == a.(postIds := a.postIds + [postId])
    ensures AlbumWithId(rows, albumId).Some? && RowWithId(posts, postId).None? ==> r == Thrown(EntityNotFound(POST_MISSING))
    ensures AlbumWithId(rows, albumId).Some? && RowWithId(posts, postId).Some? && AlbumWithId(rows, albumId).value.authorId != userId
            ==> r == Thrown(DataValidation(ONLY_OWNER))
  {
    var a :- FindAlbum(rows, Some(albumId));
    if RowWithId(posts, postId).None? then Thrown(EntityNotFound(POST_MISSING))
    else
      var _ :- CheckOwner(a.authorId, userId);
      Ok(a.(postIds := a.postIds + [postId]))
  }

  /** `removePost`: same checks; every entry of the post leaves the album. */
  function AlbumWithoutPost(rows: seq<Album>, posts: seq<Post>, albumId: int, postId: int, userId: int): (r: Outcome<Album>)
    ensures r.Ok? <==> AlbumWithId(rows, albumId).Some? && RowWithId(posts, postId).Some?
                       && AlbumWithId(rows, albumId).value.authorId == userId
    ensures r.Ok? ==> var a := AlbumWithId(rows, albumId).value;
                      r.value.(postIds := a.postIds) == a
                      && postId !in r.value.postIds
                      && forall x :: x in r.value.postIds <==> x in a.postIds && x != postId
    ensures AlbumWithId(rows, albumId).Some? && RowWithId(posts, postId).None? ==> r == Thrown(EntityNotFound(POST_MISSING))
    ensures AlbumWithId(rows, albumId).Some? && RowWithId(posts, postId).Some? && AlbumWithId(rows, albumId).value.authorId != userId
            ==> r == Thrown(DataValidation(ONLY_OWNER))
  {
    var a :- FindAlbum(rows, Some(albumId));
    if RowWithId(posts, postId).None? then Thrown(EntityNotFound(POST_MISSING))
    else
      var _ :- CheckOwner(a.authorId, userId);
      Ok(a.(postIds := Filter(a.postIds, (x: int) => x != postId)))
  }

  /** After an album is saved over its stored row, looking it up finds the saved
      album. */
  lemma ReplacedIsFound(rows: seq<Album>, a: Album)
    requires AlbumWithId(rows, a.id).Some?
    ensures AlbumWithId(Replaced(rows, a), a.id) == Some(a)
  {
    var t := Replaced(rows, a);
    var k :| 0 <= k < |rows| && rows[k].id == a.id;
    assert t[k] == a;
    var found := AlbumWithId(t, a.id).value;
    var j :| 0 <= j < |t| && t[j] == found;
  }

  /** Proof helper: dropping an id that was appended to a list without it gives the list back. */
  lemma DropAppended(s: seq<int>, x: int)
    requires x !in s
    ensures Filter(s + [x], (y: int) => y != x) == s
  {
    var p := (y: int) => y != x;
    FilterAppend(s, [x], p);
    FilterAll(s, p);
    assert Filter([x], p) == [];
  }

  /** Removing a post that was just added restores the album. */
  lemma RemovePostUndoesAdd(rows: seq<Album>, posts: seq<Post>, albumId: int, postId: int, userId: int)
    requires AlbumWithPost(rows, posts, albumId, postId, userId).Ok?
    requires postId !in AlbumWithId(rows, albumId).value.postIds
    ensures AlbumWithoutPost(Replaced(rows, AlbumWithPost(rows, posts, albumId, postId, userId).value),
                             posts, albumId, postId, userId)
            == Ok(AlbumWithId(rows, albumId).value)
  {
    var a := AlbumWithId(rows, albumId).value;
    var added := AlbumWithPost(rows, posts, albumId, postId, userId).value;
    assert added == a.(postIds := a.postIds + [postId]);
    ReplacedIsFound(rows, added);
    DropAppended(a.postIds, postId);
  }

  /** `addFavoriteUser` and `removeFavoriteUser`: the caller must be allowed to
      see the album; then the favourite user is added or removed. */
  function WithFavorite(rows: seq<Album>, albumId: int, favoriteUserId: int, userId: int, add: bool,
                        findUser: int -> Outcome<bool>, subscribersOf: int -> seq<int>): (r: Outcome<Album>)
    ensures r.Ok? <==> ViewedAlbum(rows, userId, albumId, findUser, subscribersOf).Ok?
    ensures r.Ok? ==> var a := AlbumWithId(rows, albumId).value;
                      r.value.(favorites := a.favorites) == a
                      && (add ==> favoriteUserId in r.value.favorites)
                      && r.value.favorites == if add then AddToFavorites(a.favorites, favoriteUserId)
                                              else RemoveFromFavorites(a.favorites, favoriteUserId)
  {
    var a :- ViewedAlbum(rows, userId, albumId, findUser, subscribersOf);
    Ok(a.(favorites := if add then AddToFavorites(a.favorites, favoriteUserId)
                       else RemoveFromFavorites(a.favorites, favoriteUserId)))
  }

  // ---------------------------------------------------------------------------
  // Queries
  // ---------------------------------------------------------------------------

  /** `getAllAlbumsWithFilters`: the albums the user may see that pass every
      applicable filter, in table order. */
  function AllAlbumsWithFilters(rows: seq<Album>, userId: int, subscribersOf: int -> seq<int>,
                                filters: seq<AlbumFilter>, dto: AlbumFilterDto): (r: seq<Album>)
    ensures forall a :: a in r <==> a in rows && IsVisible(a, userId, subscribersOf(a.authorId)) && PassesAll(filters, dto, a)
    ensures IsSubsequence(r, rows)
  {
    var visible := Filter(rows, (a: Album) => IsVisible(a, userId, subscribersOf(a.authorId)));
    var r := ApplyFilters(filters, visible, dto);
    forall a ensures a in r <==> a in visible && PassesAll(filters, dto, a) {
      ApplyFiltersKeepsExactly(filters, visible, dto, a);
    }
    var both := (a: Album) => IsVisible(a, userId, subscribersOf(a.authorId)) && PassesAll(filters, dto, a);
    ApplyFiltersIsConjunction(filters, visible, dto);
    FilterFusion(rows, (a: Album) => IsVisible(a, userId, subscribersOf(a.authorId)),
                 (a: Album) => PassesAll(filters, dto, a), both);
    FilterIsSubsequence(rows, both);
    r
  }

  /** `getUserAlbumsWithFilters`: the user's own albums that pass every
      applicable filter, in table order. */
  function UserAlbumsWithFilters(rows: seq<Album>, userId: int, filters: seq<AlbumFilter>, dto: AlbumFilterDto): (r: seq<Album>)
    ensures forall a :: a in r <==> a in rows && a.authorId == userId && PassesAll(filters, dto, a)
  {
    var own := Filter(rows, (a: Album) => a.authorId == userId);
    var r := ApplyFilters(filters, own, dto);
    forall a ensures a in r <==> a in own && PassesAll(filters, dto, a) {
      ApplyFiltersKeepsExactly(filters, own, dto, a);
    }
    r
  }

  // ---------------------------------------------------------------------------
  // The service
  // ---------------------------------------------------------------------------

  class AlbumService {
    const albums: AlbumRepository
    const posts: PostRepository

    constructor(albums: AlbumRepository, posts: PostRepository)
      ensures this.albums == albums && this.posts == posts
    {
      this.albums := albums;
      this.posts := posts;
    }

    /** `add`: stores the created album, whose id `nextId` no stored album uses. */
    method Add(dto: AlbumCreateDto, userId: int, findUser: int -> Outcome<bool>, nextId: int, now: Time)
      returns (r: Outcome<Album>)
      requires albums.Valid() && AlbumWithId(albums.rows, nextId).None?
      modifies albums
      ensures albums.Valid()
      ensures r == CreatedAlbum(old(albums.rows), dto, userId, findUser, nextId, now)
      ensures r.Ok? ==> albums.rows == old(albums.rows) + [r.value]
      ensures r.Thrown? ==> albums.rows == old(albums.rows)
    {
      r := CreatedAlbum(albums.rows, dto, userId, findUser, nextId, now);
      if r.Ok? {
        albums.Insert(r.value);
      }
    }

    /** `update`: the owner check takes the author id the dto names, and the
        title check counts the album being edited. */
    method Update(userId: int, dto: AlbumDto, now: Time) returns (r: Outcome<Album>)
      requires albums.Valid()
      modifies albums
      ensures albums.Valid()
      ensures r == UpdateAsWritten(old(albums.rows), userId, dto, now)
      ensures r.Ok? ==> albums.rows == Replaced(old(albums.rows), r.value)
      ensures r.Thrown? ==> albums.rows == old(albums.rows)
    {
      r := UpdateAsWritten(albums.rows, userId, dto, now);
      if r.Ok? {
        albums.Update(r.value);
      }
    }

    /** `remove`: the owner check takes the author id the dto names; the album
        with the dto's id is deleted. */
    method Remove(userId: int, dto: AlbumDto) returns (r: Outcome<Unit>)
      requires albums.Valid()
      modifies albums
      ensures albums.Valid()
      ensures r.Ok? <==> RemoveAsWritten(old(albums.rows), userId, dto).Ok?
      ensures r.Thrown? ==> r.exception == RemoveAsWritten(old(albums.rows), userId, dto).exception
      ensures r.Ok? ==> albums.rows == Filter(old(albums.rows), (x: Album) => x.id != dto.id.value)
      ensures r.Thrown? ==> albums.rows == old(albums.rows)
    {
      var removed := RemoveAsWritten(albums.rows, userId, dto);
      if removed.Thrown? {
        return Thrown(removed.exception);
      }
      albums.Delete(removed.value.id);
      r := Ok(Unit);
    }

    /** `addPost` and `removePost`. */
    method EditPosts(albumId: int, postId: int, userId: int, add: bool) returns (r: Outcome<Album>)
      requires albums.Valid()
      modifies albums
      ensures albums.Valid()
      ensures r == if add then AlbumWithPost(old(albums.rows), posts.rows, albumId, postId, userId)
                   else AlbumWithoutPost(old(albums.rows), posts.rows, albumId, postId, userId)
      ensures r.Ok? ==> albums.rows == Replaced(old(albums.rows), r.value)
      ensures r.Thrown? ==> albums.rows == old(albums.rows)
    {
      r := if add then AlbumWithPost(albums.rows, posts.rows, albumId, postId, userId)
           else AlbumWithoutPost(albums.rows, posts.rows, albumId, postId, userId);
      if r.Ok? {
        albums.Update(r.value);
      }
    }

    /** `addFavoriteUser` and `removeFavoriteUser`. */
    method EditFavorites(albumId: int, favoriteUserId: int, userId: int, add: bool,
                         findUser: int -> Outcome<bool>, subscribersOf: int -> seq<int>) returns (r: Outcome<Album>)
      requires albums.Valid()
      modifies albums
      ensures albums.Valid()
      ensures r == WithFavorite(old(albums.rows), albumId, favoriteUserId, userId, add, findUser, subscribersOf)
      ensures r.Ok? ==> albums.rows == Replaced(old(albums.rows), r.value)
      ensures r.Thrown? ==> albums.rows == old(albums.rows)
    {
      r := WithFavorite(albums.rows, albumId, favoriteUserId, userId, add, findUser, subscribersOf);
      if r.Ok? {
        albums.Update(r.value);
      }
    }
  }
}
