/**
 * The records the client receives from the server: a track as the track
 * serializer renders it, and a generated playlist with its items.
 */
module Catalog {
  import opened Wrappers

  /** A track row as the client sees it (`id`, `title`, `url`, `cover_url`, `times_selected`, `tags`). */
  datatype Track = Track(
    id: int,
    title: string,
    url: Option<string>,
    coverUrl: Option<string>,
    timesSelected: int,
    tags: seq<string>)

  /** One entry of a generated mix: its position key, its weight and the track. */
  datatype PlaylistItem = PlaylistItem(order: int, weight: real, track: Track)

  /** A generated mix (`id`, `name`, `prompt`, `items`). */
  datatype Playlist = Playlist(id: int, name: string, prompt: string, items: seq<PlaylistItem>)
}
