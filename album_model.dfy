/** Albums: a user's named collection of posts, with a visibility rule and a list
    of favourite users. */
module AlbumModel {
  import opened Base
  import opened PostModel

  /** Who may see an album. */
  datatype Visibility = ALL | SUBSCRIBERS | FAVORITES | OWNER

  /** A stored album. The favourite users, kept as a JSON array string in the
      table, are held as the parsed list of user ids, and the album's posts as
      their ids. */
  datatype Album = Album(
    id: int,
    title: string,
    description: string,
    authorId: int,
    visibility: Visibility,
    favorites: seq<int>,
    postIds: seq<int>,
    createdAt: Time,
    updatedAt: Option<Time>)

  /** The album-creation request: only a title and a description. */
  datatype AlbumCreateDto = AlbumCreateDto(title: string, description: string)

  /** The album a client sends back for `update` and `remove`. */
  datatype AlbumDto = AlbumDto(
    id: Option<int>,
    title: string,
    description: string,
    authorId: Option<int>,
    favorites: seq<int>,
    visibility: Visibility)

  /** The optional search criteria; the creation-time bounds are already parsed
      from their `yyyy-MM-dd HH:mm:ss` form. */
  datatype AlbumFilterDto = AlbumFilterDto(
    titlePattern: Option<string>,
    descriptionPattern: Option<string>,
    authorId: Option<int>,
    createdAtFrom: Option<Time>,
    createdAtTo: Option<Time>)
}
