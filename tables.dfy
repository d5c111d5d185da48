/**
 * The rows of the server's four tables (tracks, tags, playlists and their
 * items), with the fields the views read and write. A track's many-to-many
 * link to its tags is the set of the linked tags' ids.
 */
module Tables {
  import opened Wrappers

  /** A stored file, known by its name. */
  datatype FileRef = FileRef(name: string)

  /** A `Track` row; `tagIds` holds the ids of the linked `Tag` rows. */
  datatype TrackRow = TrackRow(
    id: nat,
    title: string,
    file: FileRef,
    cover: Option<FileRef>,
    timesSelected: int,
    tagIds: set<nat>)

  /** A `Tag` row; names are unique across the table. */
  datatype TagRow = TagRow(id: nat, name: string)

  /** A `Playlist` row. */
  datatype PlaylistRow = PlaylistRow(id: nat, name: string, prompt: string)

  /** A `PlaylistItem` row, pointing at its playlist and its track. */
  datatype ItemRow = ItemRow(playlistId: nat, trackId: nat, order: int, weight: real)

  /** The ids of a table in primary-key order: strictly increasing, hence distinct. */
  predicate IncreasingTrackIds(rows: seq<TrackRow>) {
    forall i, j :: 0 <= i < j < |rows| ==> rows[i].id < rows[j].id
  }

  predicate IncreasingTagIds(rows: seq<TagRow>) {
    forall i, j :: 0 <= i < j < |rows| ==> rows[i].id < rows[j].id
  }

  predicate IncreasingPlaylistIds(rows: seq<PlaylistRow>) {
    forall i, j :: 0 <= i < j < |rows| ==> rows[i].id < rows[j].id
  }

  /** `Tag.name` is `unique=True`. */
  predicate UniqueTagNames(rows: seq<TagRow>) {
    forall i, j :: 0 <= i < j < |rows| ==> rows[i].name != rows[j].name
  }

  predicate HasTrack(rows: seq<TrackRow>, id: nat) {
    exists i :: 0 <= i < |rows| && rows[i].id == id
  }

  predicate HasTag(rows: seq<TagRow>, id: nat) {
    exists i :: 0 <= i < |rows| && rows[i].id == id
  }

  predicate HasPlaylist(rows: seq<PlaylistRow>, id: nat) {
    exists i :: 0 <= i < |rows| && rows[i].id == id
  }
}
