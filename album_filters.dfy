/** The album search filters (`AlbumFilter` and its four components) and the chain
    `getAlbumsWithFilter` runs them in. */
module AlbumFilters {
  import opened Base
  import opened Seqs
  import opened Text
  import opened AlbumModel

  /** The filter components, in the order they are registered. */
  datatype AlbumFilter = CreatedAtFilter | TitleFilter | DescriptionFilter | AuthorFilter

  /** `isApplicable`: the criterion the filter reads is present; the time window
      needs both bounds. */
  predicate IsApplicable(f: AlbumFilter, dto: AlbumFilterDto)
  {
    match f
    case CreatedAtFilter => dto.createdAtFrom.Some? && dto.createdAtTo.Some?
    case TitleFilter => dto.titlePattern.Some?
    case DescriptionFilter => dto.descriptionPattern.Some?
    case AuthorFilter => dto.authorId.Some?
  }

  /** The test `apply` puts each album to: strictly inside the time window, title
      or description containing the pattern, or written by the author. */
  predicate Keeps(f: AlbumFilter, dto: AlbumFilterDto, a: Album)
    requires IsApplicable(f, dto)
  {
    match f
    case CreatedAtFilter => dto.createdAtFrom.value < a.createdAt < dto.createdAtTo.value
    case TitleFilter => Contains(a.title, dto.titlePattern.value)
    case DescriptionFilter => Contains(a.description, dto.descriptionPattern.value)
    case AuthorFilter => a.authorId == dto.authorId.value
  }

  /** `apply`: the albums the filter keeps, in stream order. */
  function Apply(f: AlbumFilter, albums: seq<Album>, dto: AlbumFilterDto): (r: seq<Album>)
    requires IsApplicable(f, dto)
    ensures forall a :: a in r <==> a in albums && Keeps(f, dto, a)
    ensures IsSubsequence(r, albums)
  {
    FilterIsSubsequence(albums, (a: Album) => Keeps(f, dto, a));
    Filter(albums, (a: Album) => Keeps(f, dto, a))
  }

  /** The created-at filter keeps the albums created strictly between the bounds. */
  lemma CreatedAtFilterKeepsWindow(albums: seq<Album>, dto: AlbumFilterDto)
    requires dto.createdAtFrom.Some? && dto.createdAtTo.Some?
    ensures forall a :: a in Apply(CreatedAtFilter, albums, dto) <==>
              a in albums && dto.createdAtFrom.value < a.createdAt < dto.createdAtTo.value
  {
  }

  /** The title filter keeps the albums whose title contains the pattern. */
  lemma TitleFilterKeepsMatches(albums: seq<Album>, dto: AlbumFilterDto)
    requires dto.titlePattern.Some?
    ensures forall a :: a in Apply(TitleFilter, albums, dto) <==>
              a in albums && Contains(a.title, dto.titlePattern.value)
  {
  }

  /** The description filter keeps the albums whose description contains the
      pattern. */
  lemma DescriptionFilterKeepsMatches(albums: seq<Album>, dto: AlbumFilterDto)
    requires dto.descriptionPattern.Some?
    ensures forall a :: a in Apply(DescriptionFilter, albums, dto) <==>
              a in albums && Contains(a.description, dto.descriptionPattern.value)
  {
  }

  /** The author filter keeps the albums written by the author. */
  lemma AuthorFilterKeepsAuthor(albums: seq<Album>, dto: AlbumFilterDto)
    requires dto.authorId.Some?
    ensures forall a :: a in Apply(AuthorFilter, albums, dto) <==>
              a in albums && a.authorId == dto.authorId.value
  {
  }

  /** Filtering the result again changes nothing. */
  lemma ApplyIsIdempotent(f: AlbumFilter, albums: seq<Album>, dto: AlbumFilterDto)
    requires IsApplicable(f, dto)
    ensures Apply(f, Apply(f, albums, dto), dto) == Apply(f, albums, dto)
  {
    FilterIdempotent(albums, (a: Album) => Keeps(f, dto, a));
  }

  /** Every string contains the empty string. */
  lemma ContainsEmpty(s: string)
    ensures Contains(s, "")
  {
    assert StartsWith(s, "");
  }

  /** An empty title or description pattern keeps every album. */
  lemma EmptyPatternKeepsAll(f: AlbumFilter, albums: seq<Album>, dto: AlbumFilterDto)
    requires f == TitleFilter || f == DescriptionFilter
    requires IsApplicable(f, dto)
    requires f == TitleFilter ==> dto.titlePattern == Some("")
    requires f == DescriptionFilter ==> dto.descriptionPattern == Some("")
    ensures Apply(f, albums, dto) == albums
  {
    forall i | 0 <= i < |albums| ensures Keeps(f, dto, albums[i]) {
      ContainsEmpty(albums[i].title);
      ContainsEmpty(albums[i].description);
    }
    FilterAll(albums, (a: Album) => Keeps(f, dto, a));
  }

  /** Both ends of the time window are exclusive. */
  lemma CreatedAtBoundsAreExclusive(a: Album, dto: AlbumFilterDto)
    requires IsApplicable(CreatedAtFilter, dto)
    requires a.createdAt == dto.createdAtFrom.value || a.createdAt == dto.createdAtTo.value
    ensures !Keeps(CreatedAtFilter, dto, a)
  {
  }

  /** `getAlbumsWithFilter`: starting from the albums, each applicable filter in
      list order narrows the previous result (a sequential `reduce`). */
  function ApplyFilters(filters: seq<AlbumFilter>, albums: seq<Album>, dto: AlbumFilterDto): seq<Album>
    decreases |filters|
  {
    if filters == [] then albums
    else
      var n := |filters| - 1;
      var before := ApplyFilters(filters[..n], albums, dto);
      if IsApplicable(filters[n], dto) then Apply(filters[n], before, dto) else before
  }

  /** An album passes every applicable filter of the list. */
  predicate PassesAll(filters: seq<AlbumFilter>, dto: AlbumFilterDto, a: Album)
  {
    forall i :: 0 <= i < |filters| ==> IsApplicable(filters[i], dto) ==> Keeps(filters[i], dto, a)
  }

  /** The chain is one filter by the conjunction of the applicable criteria: the
      result keeps the input order, inapplicable filters have no effect, and the
      order of the filters does not matter. */
  lemma {:induction false} ApplyFiltersIsConjunction(filters: seq<AlbumFilter>, albums: seq<Album>, dto: AlbumFilterDto)
    ensures ApplyFilters(filters, albums, dto) == Filter(albums, (a: Album) => PassesAll(filters, dto, a))
    decreases |filters|
  {
    if filters == [] {
      FilterAll(albums, (a: Album) => PassesAll(filters, dto, a));
    } else {
      var n := |filters| - 1;
      var f := filters[n];
      var prefix := filters[..n];
      ApplyFiltersIsConjunction(prefix, albums, dto);
      var p := (a: Album) => PassesAll(prefix, dto, a);
      var all := (a: Album) => PassesAll(filters, dto, a);
      forall a: Album ensures all(a) == (p(a) && (IsApplicable(f, dto) ==> Keeps(f, dto, a))) {
        assert forall i :: 0 <= i < n ==> prefix[i] == filters[i];
      }
      if IsApplicable(f, dto) {
        FilterFusion(albums, p, (a: Album) => Keeps(f, dto, a), all);
      } else {
        FilterFusion(albums, p, (a: Album) => true, all);
        FilterAll(Filter(albums, p), (a: Album) => true);
      }
    }
  }

  /** A result album is an input album that passes every applicable filter, and
      every such album is kept. */
  lemma ApplyFiltersKeepsExactly(filters: seq<AlbumFilter>, albums: seq<Album>, dto: AlbumFilterDto, a: Album)
    ensures a in ApplyFilters(filters, albums, dto) <==> a in albums && PassesAll(filters, dto, a)
  {
    ApplyFiltersIsConjunction(filters, albums, dto);
  }
}
