/**
 * The server's tables and the views that change them: `UploadTrackView.post`
 * (create a track and link its tags), `GenerateMixView.post` (pick tracks,
 * store the playlist and its items, bump the selection counters) and
 * `TrackDetailView.delete`; the read-only views are queries over the tables.
 * Rows are kept in primary-key order; ids come from per-table counters.
 */
module Store {
  import opened Wrappers
  import opened Text
  import opened Tables
  import opened TagParsing
  import opened Queries

  /** One element of the `playlist_items` list: `id`, `order` and `weight`, each possibly absent. */
  datatype MixItem = MixItem(id: Option<int>, order: Option<int>, weight: Option<real>)

  /** The index of the tag with a given name, if there is one. */
  function TagIndex(rows: seq<TagRow>, name: string): (r: Option<nat>)
    ensures r.Some? ==> r.value < |rows| && rows[r.value].name == name
    ensures r.None? <==> forall i :: 0 <= i < |rows| ==> rows[i].name != name
  {
    if rows == [] then None
    else if rows[0].name == name then Some(0)
    else
      match TagIndex(rows[1..], name)
      case None =>
        assert forall i :: 1 <= i < |rows| ==> rows[i] == rows[1..][i - 1];
        None
      case Some(k) => Some(k + 1)
  }

  /** The ids of the tags whose names are among `names`. */
  function TagIdsNamed(rows: seq<TagRow>, names: seq<string>): set<nat> {
    set i | 0 <= i < |rows| && rows[i].name in names :: rows[i].id
  }

  /** The set of tag ids of a table. */
  function TagIds(rows: seq<TagRow>): set<nat> {
    set i | 0 <= i < |rows| :: rows[i].id
  }

  /** `request.data.get('title') or file.name`. */
  function TitleOf(title: Option<string>, file: FileRef): (r: string)
    ensures title.Some? && title.value != [] ==> r == title.value
    ensures title == None || title == Some([]) ==> r == file.name
  {
    if title.Some? && title.value != [] then title.value else file.name
  }

  /** `f"Mix: {prompt}"[:255]`. */
  function MixName(prompt: string): (r: string)
    ensures |r| <= 255
    ensures r <= "Mix: " + prompt
    ensures |prompt| <= 250 ==> r == "Mix: " + prompt
  {
    Queries.Take("Mix: " + prompt, 255)
  }

  /** `Track.objects.get(id=item['id'])` succeeds: the item has an id and a track has that id. */
  predicate Resolves(tracks: seq<TrackRow>, item: MixItem) {
    item.id.Some? && item.id.value >= 0 && HasTrack(tracks, item.id.value as nat)
  }

  /** The `PlaylistItem` rows created for `picked`: one per resolving item, in order. */
  function ItemsFor(pid: nat, picked: seq<MixItem>, tracks: seq<TrackRow>): (r: seq<ItemRow>)
    ensures |r| <= |picked|
    ensures forall k :: 0 <= k < |r| ==> r[k].playlistId == pid && HasTrack(tracks, r[k].trackId)
    ensures forall it :: it in r <==>
              exists k :: 0 <= k < |picked| && Resolves(tracks, picked[k]) &&
                          it == ItemRow(pid, picked[k].id.value as nat, picked[k].order.GetOr(0), picked[k].weight.GetOr(1.0))
  {
    if picked == [] then []
    else
      var last := picked[|picked| - 1];
      var init := picked[..|picked| - 1];
      var rest := ItemsFor(pid, init, tracks);
      assert forall k :: 0 <= k < |init| ==> init[k] == picked[k];
      if Resolves(tracks, last)
      then rest + [ItemRow(pid, last.id.value as nat, last.order.GetOr(0), last.weight.GetOr(1.0))]
      else rest
  }

  /** The `selected_ids` list: the ids of the resolving items, in order. */
  function SelectedIds(picked: seq<MixItem>, tracks: seq<TrackRow>): (r: seq<nat>)
    ensures forall x :: x in r ==> HasTrack(tracks, x)
    ensures forall x :: x in r <==> exists k :: 0 <= k < |picked| && Resolves(tracks, picked[k]) && picked[k].id.value == x
  {
    if picked == [] then []
    else
      var last := picked[|picked| - 1];
      var init := picked[..|picked| - 1];
      var rest := SelectedIds(init, tracks);
      assert forall k :: 0 <= k < |init| ==> init[k] == picked[k];
      if Resolves(tracks, last) then rest + [last.id.value as nat] else rest
  }

  /** `filter(id__in=ids).update(times_selected=F('times_selected') + 1)`. */
  function Bump(tracks: seq<TrackRow>, ids: seq<nat>): (r: seq<TrackRow>)
    ensures |r| == |tracks|
  {
    seq(|tracks|, i requires 0 <= i < |tracks| =>
      if tracks[i].id in ids then tracks[i].(timesSelected := tracks[i].timesSelected + 1) else tracks[i])
  }

  /**
   * Each track named in `ids` gains exactly one selection, however often it is
   * named; every other field and every other track stays as it was.
   */
  lemma BumpOncePerTrack(tracks: seq<TrackRow>, ids: seq<nat>)
    ensures forall i :: 0 <= i < |tracks| ==>
              Bump(tracks, ids)[i].(timesSelected := 0) == tracks[i].(timesSelected := 0) &&
              Bump(tracks, ids)[i].timesSelected == tracks[i].timesSelected + (if tracks[i].id in ids then 1 else 0)
    ensures forall i :: 0 <= i < |tracks| && tracks[i].id !in ids ==> Bump(tracks, ids)[i] == tracks[i]
  {
  }

  /** What `random.sample(tracks, min(5, len(tracks)))` and the item loop may produce. */
  predicate FallbackShape(picked: seq<MixItem>, candidates: seq<TrackRow>) {
    |picked| == (if |candidates| < 5 then |candidates| else 5) &&
    (forall k :: 0 <= k < |picked| ==> PickedFrom(picked[k], k, candidates)) &&
    (forall k, l :: 0 <= k < l < |picked| ==> picked[k].id != picked[l].id)
  }

  /** The fallback picks candidates, so every item resolves: the mix holds one row per pick, in pick order. */
  lemma {:induction false} FallbackAllResolve(pid: nat, picked: seq<MixItem>, candidates: seq<TrackRow>, tracks: seq<TrackRow>)
    requires forall k :: 0 <= k < |picked| ==>
               picked[k].id.Some? && exists c :: c in candidates && c.id == picked[k].id.value
    requires forall c :: c in candidates ==> c in tracks
    ensures |ItemsFor(pid, picked, tracks)| == |picked|
    ensures forall k :: 0 <= k < |picked| ==>
              ItemsFor(pid, picked, tracks)[k].trackId == picked[k].id.value &&
              ItemsFor(pid, picked, tracks)[k].order == picked[k].order.GetOr(0) &&
              ItemsFor(pid, picked, tracks)[k].weight == picked[k].weight.GetOr(1.0)
  {
    if picked != [] {
      var init := picked[..|picked| - 1];
      FallbackAllResolve(pid, init, candidates, tracks);
      var last := picked[|picked| - 1];
      var c :| c in candidates && c.id == last.id.value;
      var j :| 0 <= j < |tracks| && tracks[j] == c;
      assert Resolves(tracks, last);
      var r := ItemsFor(pid, picked, tracks);
      assert r == ItemsFor(pid, init, tracks) + [ItemRow(pid, last.id.value as nat, last.order.GetOr(0), last.weight.GetOr(1.0))];
      forall k | 0 <= k < |picked|
        ensures r[k].trackId == picked[k].id.value && r[k].order == picked[k].order.GetOr(0) &&
                r[k].weight == picked[k].weight.GetOr(1.0)
      {
        if k < |init| {
          assert picked[k] == init[k];
        }
      }
    }
  }

  /**
   * The fallback mix: `min(5, N)` distinct candidates in random order, with
   * `order` 0, 1, … and a weight between 0.5 and 1.0.
   */
  method SampleFallback(candidates: seq<TrackRow>) returns (picked: seq<MixItem>)
    requires IncreasingTrackIds(candidates)
    ensures FallbackShape(picked, candidates)
  {
    var k := if |candidates| < 5 then |candidates| else 5;
    var remaining := candidates;
    picked := [];
    while |picked| < k
      invariant |picked| <= k
      invariant |remaining| == |candidates| - |picked|
      invariant IncreasingTrackIds(remaining)
      invariant forall c :: c in remaining ==> c in candidates
      invariant forall n :: 0 <= n < |picked| ==> PickedFrom(picked[n], n, candidates)
      invariant forall n, c :: 0 <= n < |picked| && c in remaining ==> picked[n].id != Some(c.id)
      invariant forall n, m :: 0 <= n < m < |picked| ==> picked[n].id != picked[m].id
      decreases k - |picked|
    {
      assert |remaining| > 0;
      var j :| 0 <= j < |remaining|;
      assert WeightInRange(0.75);
      var w: real :| WeightInRange(w) && 0.5 <= w <= 1.0;
      var t := remaining[j];
      RemoveOne(remaining, j);
      var item := MixItem(Some(t.id), Some(|picked|), Some(w));
      assert t in remaining && t in candidates;
      assert item.order == Some(|picked|);
      assert item.id.Some? && item.id.value == t.id;
      assert item.weight.Some? && 0.5 <= item.weight.value <= 1.0;
      assert PickedFrom(item, |picked|, candidates);
      picked := picked + [item];
      remaining := remaining[..j] + remaining[j + 1..];
    }
  }

  /** The `n`-th fallback item: position `n`, a candidate's id and a weight in range. */
  predicate PickedFrom(item: MixItem, n: nat, candidates: seq<TrackRow>) {
    item.order == Some(n) &&
    item.id.Some? && (exists c :: c in candidates && c.id == item.id.value) &&
    item.weight.Some? && 0.5 <= item.weight.value <= 1.0
  }

  /** Drawing row `j` out of rows with increasing ids leaves increasing rows, none with its id. */
  lemma RemoveOne(rows: seq<TrackRow>, j: nat)
    requires j < |rows| && IncreasingTrackIds(rows)
    ensures var rest := rows[..j] + rows[j + 1..];
            IncreasingTrackIds(rest) &&
            (forall c :: c in rest ==> c in rows && c.id != rows[j].id) &&
            |rest| == |rows| - 1
  {
    var rest := rows[..j] + rows[j + 1..];
    assert forall i :: 0 <= i < |rest| ==> rest[i] == rows[if i < j then i else i + 1];
    forall c | c in rest ensures c in rows && c.id != rows[j].id {
      var i :| 0 <= i < |rest| && rest[i] == c;
    }
  }

  /** The range `random.uniform(0.5, 1.0)` draws from. */
  predicate WeightInRange(w: real) {
    0.5 <= w <= 1.0
  }

  /** Track ids increase and stay below the next id. */
  predicate TracksOk(tracks: seq<TrackRow>, next: nat) {
    IncreasingTrackIds(tracks) && forall i :: 0 <= i < |tracks| ==> tracks[i].id < next
  }

  /** Tag ids increase and stay below the next id, and names are unique. */
  predicate TagsOk(tags: seq<TagRow>, next: nat) {
    IncreasingTagIds(tags) && (forall i :: 0 <= i < |tags| ==> tags[i].id < next) && UniqueTagNames(tags)
  }

  predicate PlaylistsOk(playlists: seq<PlaylistRow>, next: nat) {
    IncreasingPlaylistIds(playlists) && forall i :: 0 <= i < |playlists| ==> playlists[i].id < next
  }

  /** Every tag a track is linked to exists. */
  predicate LinksOk(tracks: seq<TrackRow>, tags: seq<TagRow>) {
    forall i :: 0 <= i < |tracks| ==> tracks[i].tagIds <= TagIds(tags)
  }

  /** Every playlist item points at an existing track and an existing playlist. */
  predicate ItemsOk(items: seq<ItemRow>, tracks: seq<TrackRow>, playlists: seq<PlaylistRow>) {
    forall k :: 0 <= k < |items| ==> HasTrack(tracks, items[k].trackId) && HasPlaylist(playlists, items[k].playlistId)
  }

  /** Two track tables with the same ids, row by row. */
  predicate SameTrackIds(a: seq<TrackRow>, b: seq<TrackRow>) {
    |a| == |b| && forall i :: 0 <= i < |a| ==> a[i].id == b[i].id
  }

  /** Replacing rows without changing their ids keeps the table's keys and what points at them. */
  lemma SameTrackIdsKeep(a: seq<TrackRow>, b: seq<TrackRow>, next: nat, items: seq<ItemRow>, playlists: seq<PlaylistRow>)
    requires SameTrackIds(a, b)
    requires TracksOk(a, next) && ItemsOk(items, a, playlists)
    ensures TracksOk(b, next) && ItemsOk(items, b, playlists)
  {
    forall k | 0 <= k < |items| ensures HasTrack(b, items[k].trackId) {
      var j :| 0 <= j < |a| && a[j].id == items[k].trackId;
      assert b[j].id == items[k].trackId;
    }
  }

  /** A new track with the next id keeps the table's keys and what points at them. */
  lemma TrackAppendKeep(a: seq<TrackRow>, row: TrackRow, next: nat, items: seq<ItemRow>, playlists: seq<PlaylistRow>)
    requires TracksOk(a, next) && ItemsOk(items, a, playlists) && row.id == next
    ensures TracksOk(a + [row], next + 1) && ItemsOk(items, a + [row], playlists)
  {
    var b := a + [row];
    forall k | 0 <= k < |items| ensures HasTrack(b, items[k].trackId) {
      var j :| 0 <= j < |a| && a[j].id == items[k].trackId;
      assert b[j] == a[j];
    }
  }

  /** Linking an existing tag to track `i` keeps every link pointing at a tag. */
  lemma LinkOne(tracks: seq<TrackRow>, tags: seq<TagRow>, i: nat, id: nat)
    requires i < |tracks| && LinksOk(tracks, tags)
    requires exists j :: 0 <= j < |tags| && tags[j].id == id
    ensures LinksOk(tracks[i := tracks[i].(tagIds := tracks[i].tagIds + {id})], tags)
    ensures SameTrackIds(tracks, tracks[i := tracks[i].(tagIds := tracks[i].tagIds + {id})])
  {
  }

  /** Every name in `names` has a tag. */
  predicate AllNamed(rows: seq<TagRow>, names: seq<string>) {
    forall n :: n in names ==> TagIndex(rows, n).Some?
  }

  /** `rows` extends `before`, and every row it adds carries one of `names`. */
  predicate NewRowsNamed(before: seq<TagRow>, rows: seq<TagRow>, names: seq<string>) {
    before <= rows && forall i :: |before| <= i < |rows| ==> rows[i].name in names
  }

  lemma AllNamedStep(rows: seq<TagRow>, done: seq<string>, n: string)
    requires AllNamed(rows, done) && TagIndex(rows, n).Some?
    ensures AllNamed(rows, done + [n])
  {
  }

  lemma NewRowsNamedTrans(a: seq<TagRow>, b: seq<TagRow>, c: seq<TagRow>, done: seq<string>, n: string)
    requires NewRowsNamed(a, b, done) && NewRowsNamed(b, c, [n])
    ensures NewRowsNamed(a, c, done + [n])
  {
    forall i | |a| <= i < |c| ensures c[i].name in done + [n] {
      if i < |b| {
        assert c[i] == b[i];
      }
    }
  }

  /** Tags only ever get appended, so every tag id stays. */
  lemma TagIdsGrow(a: seq<TagRow>, b: seq<TagRow>)
    requires a <= b
    ensures TagIds(a) <= TagIds(b)
  {
    forall x | x in TagIds(a) ensures x in TagIds(b) {
      var i :| 0 <= i < |a| && a[i].id == x;
      assert b[i] == a[i];
    }
  }

  /** The library: one sequence of rows per table, and the next id of each. */
  class Database {
    var tracks: seq<TrackRow>
    var tags: seq<TagRow>
    var playlists: seq<PlaylistRow>
    var items: seq<ItemRow>
    var nextTrackId: nat
    var nextTagId: nat
    var nextPlaylistId: nat

    /** Keys are increasing and below their counter, tag names are unique, and every reference resolves. */
    ghost predicate Valid()
      reads this
    {
      TracksOk(tracks, nextTrackId) && TagsOk(tags, nextTagId) && PlaylistsOk(playlists, nextPlaylistId) &&
      LinksOk(tracks, tags) && ItemsOk(items, tracks, playlists)
    }

    /** An empty library. */
    constructor ()
      ensures Valid()
      ensures tracks == [] && tags == [] && playlists == [] && items == []
    {
      tracks := [];
      tags := [];
      playlists := [];
      items := [];
      nextTrackId := 1;
      nextTagId := 1;
      nextPlaylistId := 1;
    }

    /** `Tag.objects.get_or_create(name=name)`: the existing tag, or a new one at the end. */
    method GetOrCreateTag(name: string) returns (id: nat)
      requires Valid()
      modifies this`tags, this`nextTagId
      ensures Valid()
      ensures match TagIndex(old(tags), name)
              case Some(i) => id == old(tags)[i].id && tags == old(tags) && nextTagId == old(nextTagId)
              case None => id == old(nextTagId) && tags == old(tags) + [TagRow(id, name)] && nextTagId == id + 1
    {
      match TagIndex(tags, name)
      case Some(i) =>
        id := tags[i].id;
      case None =>
        id := nextTagId;
        TagIdsGrow(tags, tags + [TagRow(id, name)]);
        tags := tags + [TagRow(id, name)];
        nextTagId := nextTagId + 1;
    }

    /**
     * The loop of `UploadTrackView.post` over the stored names: `get_or_create`
     * each tag and collect it for `track.tags.add`. The collected ids are
     * exactly the tags now named by `stored`; tags are only appended, each new
     * one carrying one of the names.
     */
    method LinkTags(stored: seq<string>) returns (linked: set<nat>)
      requires Valid()
      modifies this`tags, this`nextTagId
      ensures Valid()
      ensures linked == TagIdsNamed(tags, stored) && linked <= TagIds(tags)
      ensures AllNamed(tags, stored) && NewRowsNamed(old(tags), tags, stored)
    {
      linked := {};
      var k := 0;
      assert stored[..0] == [];
      while k < |stored|
        invariant 0 <= k <= |stored|
        invariant Valid()
        invariant linked == TagIdsNamed(tags, stored[..k]) && linked <= TagIds(tags)
        invariant AllNamed(tags, stored[..k]) && NewRowsNamed(old(tags), tags, stored[..k])
      {
        ghost var before := tags;
        linked := LinkName(stored[..k], stored[k], linked);
        assert stored[..k + 1] == stored[..k] + [stored[k]];
        NewRowsNamedTrans(old(tags), before, tags, stored[..k], stored[k]);
        k := k + 1;
      }
      assert stored[..k] == stored;
    }

    /** One step of that loop: `get_or_create` the tag named `n` and add it to the collected ids. */
    method LinkName(ghost done: seq<string>, n: string, linked: set<nat>) returns (linked': set<nat>)
      requires Valid()
      requires linked == TagIdsNamed(tags, done) && linked <= TagIds(tags) && AllNamed(tags, done)
      modifies this`tags, this`nextTagId
      ensures Valid()
      ensures linked' == TagIdsNamed(tags, done + [n]) && linked' <= TagIds(tags)
      ensures AllNamed(tags, done + [n]) && NewRowsNamed(old(tags), tags, [n])
    {
      ghost var before := tags;
      var tagId := GetOrCreateTag(n);
      match TagIndex(before, n) {
        case Some(i) =>
          TagIdsNamedStep(tags, done, i);
          AllNamedStep(tags, done, n);
        case None =>
          LinkNew(before, done, n, tagId);
      }
      TagIdsGrow(before, tags);
      linked' := linked + {tagId};
    }

    /**
     * `UploadTrackView.post`. Without a file: 400 and nothing stored. Otherwise
     * a new track at the end (title falling back to the file name, no
     * selections yet) linked to exactly the tags named by the lower-cased parsed
     * names, creating the tags that did not exist yet: 201. The view creates the
     * track before its tags; here the tags are settled first and the track is
     * appended with its links, which leaves the same tables.
     */
    method UploadTrack(file: Option<FileRef>, cover: Option<FileRef>, title: Option<string>,
                       tagValues: seq<string>, loads: string -> Option<Json>)
      returns (status: int, id: Option<nat>)
      requires Valid()
      modifies this`tracks, this`nextTrackId, this`tags, this`nextTagId
      ensures Valid()
      ensures file == None ==>
                status == 400 && id == None &&
                tracks == old(tracks) && tags == old(tags) &&
                nextTrackId == old(nextTrackId) && nextTagId == old(nextTagId)
      ensures file.Some? ==>
                var stored := StoredNames(ParseTagNames(RawTagsOf(tagValues), loads));
                status == 201 && id == Some(old(nextTrackId)) &&
                tracks == old(tracks) + [TrackRow(old(nextTrackId), TitleOf(title, file.value), file.value, cover, 0,
                                                  TagIdsNamed(tags, stored))] &&
                old(tags) <= tags &&
                (forall n :: n in stored ==> TagIndex(tags, n).Some?) &&
                (forall i :: |old(tags)| <= i < |tags| ==> tags[i].name in stored)
    {
      if file == None {
        return 400, None;
      }
      var stored := StoredNames(ParseTagNames(RawTagsOf(tagValues), loads));
      var linked := LinkTags(stored);
      var tid := nextTrackId;
      var row := TrackRow(tid, TitleOf(title, file.value), file.value, cover, 0, linked);
      TrackAppendKeep(tracks, row, nextTrackId, items, playlists);
      tracks := tracks + [row];
      nextTrackId := nextTrackId + 1;
      return 201, Some(tid);
    }

    /**
     * `GenerateMixView.post`. An absent or empty prompt, or no candidate track:
     * 400 and nothing stored. Otherwise the mix is the model's items, or the
     * fallback sample when there are none; a new playlist named after the prompt
     * holds one item per resolving entry, and each selected track's counter goes
     * up by one: 200.
     */
    method GenerateMix(prompt: Option<string>, modelItems: seq<MixItem>)
      returns (status: int, picked: seq<MixItem>)
      requires Valid()
      modifies this`tracks, this`playlists, this`items, this`nextPlaylistId
      ensures Valid()
      ensures prompt == None || prompt == Some([]) ||
              CandidatesOrAll(old(tracks), old(tags), Words(Lower(prompt.value))) == [] ==>
                status == 400 && picked == [] &&
                tracks == old(tracks) && playlists == old(playlists) && items == old(items) &&
                nextPlaylistId == old(nextPlaylistId)
      ensures prompt.Some? && prompt.value != [] &&
              CandidatesOrAll(old(tracks), old(tags), Words(Lower(prompt.value))) != [] ==>
                var pid := old(nextPlaylistId);
                status == 200 &&
                (modelItems != [] ==> picked == modelItems) &&
                (modelItems == [] ==> FallbackShape(picked, CandidatesOrAll(old(tracks), old(tags), Words(Lower(prompt.value))))) &&
                playlists == old(playlists) + [PlaylistRow(pid, MixName(prompt.value), prompt.value)] &&
                items == old(items) + ItemsFor(pid, picked, old(tracks)) &&
                tracks == Bump(old(tracks), SelectedIds(picked, old(tracks))) &&
                nextPlaylistId == pid + 1
    {
      if prompt == None || prompt == Some([]) {
        return 400, [];
      }
      var p := prompt.value;
      var tokens := Words(Lower(p));
      var candidates := CandidatesOrAll(tracks, tags, tokens);
      if candidates == [] {
        return 400, [];
      }
      picked := modelItems;
      if picked == [] {
        CandidatesOrAllIncreasing(tracks, tags, tokens);
        picked := SampleFallback(candidates);
      }
      var pid := nextPlaylistId;
      var row := PlaylistRow(pid, MixName(p), p);
      PlaylistAppendKeep(playlists, row, nextPlaylistId, items, tracks);
      playlists := playlists + [row];
      nextPlaylistId := nextPlaylistId + 1;
      var selected := StoreItems(pid, picked);
      if selected != [] {
        BumpCounters(selected);
      } else {
        assert Bump(tracks, selected) == tracks;
      }
      status := 200;
    }

    /**
     * The item loop of `GenerateMixView.post`: one `PlaylistItem` for each item
     * whose id names a track (the others are skipped), with `order` 0 and
     * `weight` 1.0 when absent, and the ids collected as `selected_ids`.
     */
    method StoreItems(pid: nat, picked: seq<MixItem>) returns (selected: seq<nat>)
      requires Valid() && HasPlaylist(playlists, pid)
      modifies this`items
      ensures Valid()
      ensures items == old(items) + ItemsFor(pid, picked, tracks)
      ensures selected == SelectedIds(picked, tracks)
    {
      selected := [];
      var added: seq<ItemRow> := [];
      var k := 0;
      while k < |picked|
        invariant 0 <= k <= |picked|
        invariant added == ItemsFor(pid, picked[..k], tracks)
        invariant selected == SelectedIds(picked[..k], tracks)
      {
        var item := picked[k];
        assert picked[..k + 1][..k] == picked[..k];
        if Resolves(tracks, item) {
          added := added + [ItemRow(pid, item.id.value as nat, item.order.GetOr(0), item.weight.GetOr(1.0))];
          selected := selected + [item.id.value as nat];
        }
        k := k + 1;
      }
      assert picked[..k] == picked;
      ItemsAppendKeep(items, added, tracks, playlists, pid);
      items := items + added;
    }

    /** The bulk update of `times_selected`, row by row. */
    method BumpCounters(ids: seq<nat>)
      requires Valid()
      modifies this`tracks
      ensures Valid()
      ensures tracks == Bump(old(tracks), ids)
    {
      var i := 0;
      while i < |tracks|
        invariant 0 <= i <= |tracks| == |old(tracks)|
        invariant forall j :: 0 <= j < i ==> tracks[j] == Bump(old(tracks), ids)[j]
        invariant forall j :: i <= j < |tracks| ==> tracks[j] == old(tracks)[j]
      {
        if tracks[i].id in ids {
          tracks := tracks[i := tracks[i].(timesSelected := tracks[i].timesSelected + 1)];
        }
        i := i + 1;
      }
      assert tracks == Bump(old(tracks), ids);
      BumpKeeps(old(tracks), ids, tags);
      SameTrackIdsKeep(old(tracks), tracks, nextTrackId, items, playlists);
    }

    /** `TrackDetailView.delete`: 404 and no change for an unknown id; otherwise the track and its playlist items go: 204. */
    method DeleteTrack(pk: nat) returns (status: int)
      requires Valid()
      modifies this`tracks, this`items
      ensures Valid()
      ensures !HasTrack(old(tracks), pk) ==> status == 404 && tracks == old(tracks) && items == old(items)
      ensures HasTrack(old(tracks), pk) ==>
                status == 204 &&
                tracks == WithoutTrack(old(tracks), pk) &&
                items == WithoutItemsOf(old(items), pk)
    {
      if !HasTrack(tracks, pk) {
        return 404;
      }
      var newTracks := WithoutTrack(tracks, pk);
      var newItems := WithoutItemsOf(items, pk);
      DeleteKeeps(tracks, items, playlists, tags, nextTrackId, pk);
      tracks := newTracks;
      items := newItems;
      return 204;
    }

    /** The tag names in table order. */
    function TagNames(): (r: seq<string>)
      reads this
      ensures |r| == |tags| && forall i :: 0 <= i < |tags| ==> r[i] == tags[i].name
    {
      seq(|tags|, i requires 0 <= i < |tags| reads this => tags[i].name)
    }

    /** `TagListView.list`. */
    function TagList(q: Option<string>): seq<string>
      reads this
    {
      TagListQuery(TagNames(), q)
    }

    /**
     * The tag autocomplete answer: at most 50 names of stored tags matching
     * `q`, in name order and each once (names are unique); a matching tag left
     * out sorts after every name shown.
     */
    lemma TagListMeaning(q: Option<string>)
      requires Valid()
      ensures var r := TagList(q);
              |r| <= 50 &&
              (forall i, j :: 0 <= i < j < |r| ==> LexLe(r[i], r[j]) && r[i] != r[j]) &&
              (forall x :: x in r ==> Kept(x, q) && exists k :: 0 <= k < |tags| && tags[k].name == x) &&
              (forall k :: 0 <= k < |tags| && Kept(tags[k].name, q) && tags[k].name !in r ==>
                 |r| == 50 && forall y :: y in r ==> LexLe(y, tags[k].name))
    {
      TagListOfTable(tags, TagNames(), q);
    }

    /** `TopTracksView.get`, without its cache. */
    function TopTracksList(): seq<TrackRow>
      reads this
    {
      TopTracks(tracks)
    }
  }

  /** `TagListView.list` over a tag table, whose names are `names` row by row. */
  lemma TagListOfTable(tags: seq<TagRow>, names: seq<string>, q: Option<string>)
    requires UniqueTagNames(tags)
    requires |names| == |tags| && forall i :: 0 <= i < |tags| ==> names[i] == tags[i].name
    ensures var r := TagListQuery(names, q);
            |r| <= 50 &&
            (forall i, j :: 0 <= i < j < |r| ==> LexLe(r[i], r[j]) && r[i] != r[j]) &&
            (forall x :: x in r ==> Kept(x, q) && exists k :: 0 <= k < |tags| && tags[k].name == x) &&
            (forall k :: 0 <= k < |tags| && Kept(tags[k].name, q) && tags[k].name !in r ==>
               |r| == 50 && forall y :: y in r ==> LexLe(y, tags[k].name))
  {
    var r := TagListQuery(names, q);
    TagListQueryMeaning(names, q);
    forall x | x in r ensures exists k :: 0 <= k < |tags| && tags[k].name == x {
      var k :| 0 <= k < |names| && names[k] == x;
      assert tags[k].name == x;
    }
    forall k | 0 <= k < |tags| && Kept(tags[k].name, q) && tags[k].name !in r
      ensures |r| == 50 && forall y :: y in r ==> LexLe(y, tags[k].name)
    {
      assert names[k] in names;
    }
    forall i, j | 0 <= i < j < |r| ensures r[i] != r[j] {
      if r[i] == r[j] {
        TwiceCounted(r, i, j);
        DistinctCountedOnce(names, r[i]);
        assert false;
      }
    }
  }

  /** A value at two positions of a sequence is counted at least twice. */
  lemma TwiceCounted<T>(s: seq<T>, i: nat, j: nat)
    requires i < j < |s| && s[i] == s[j]
    ensures multiset(s)[s[i]] >= 2
  {
    assert s == s[..j] + s[j..];
    assert s[i] == s[..j][i] && s[j] == s[j..][0];
    assert multiset(s) == multiset(s[..j]) + multiset(s[j..]);
  }

  /** In a sequence without repeats every value is counted at most once. */
  lemma {:induction false} DistinctCountedOnce<T>(s: seq<T>, x: T)
    requires forall i, j :: 0 <= i < j < |s| ==> s[i] != s[j]
    ensures multiset(s)[x] <= 1
  {
    if s != [] {
      assert s == [s[0]] + s[1..];
      DistinctCountedOnce(s[1..], x);
      if s[0] == x {
        assert x !in s[1..] by {
          forall k | 0 <= k < |s[1..]| ensures s[1..][k] != x {
            assert s[1..][k] == s[k + 1];
          }
        }
      }
    }
  }

  /** The tracks without the one with id `pk`. */
  function WithoutTrack(tracks: seq<TrackRow>, pk: nat): (r: seq<TrackRow>)
    ensures forall t :: t in r <==> t in tracks && t.id != pk
    ensures !HasTrack(r, pk)
  {
    if tracks == [] then []
    else
      var rest := WithoutTrack(tracks[1..], pk);
      assert tracks == [tracks[0]] + tracks[1..];
      if tracks[0].id == pk then rest else [tracks[0]] + rest
  }

  /** The items without those of track `pk` (`on_delete=CASCADE`). */
  function WithoutItemsOf(items: seq<ItemRow>, pk: nat): (r: seq<ItemRow>)
    ensures forall it :: it in r <==> it in items && it.trackId != pk
  {
    if items == [] then []
    else
      var rest := WithoutItemsOf(items[1..], pk);
      assert items == [items[0]] + items[1..];
      if items[0].trackId == pk then rest else [items[0]] + rest
  }

  /** Deleting a row keeps the others in order, with their ids below the counter. */
  lemma {:induction false} WithoutTrackKeeps(tracks: seq<TrackRow>, pk: nat)
    requires IncreasingTrackIds(tracks)
    ensures IncreasingTrackIds(WithoutTrack(tracks, pk))
  {
    if tracks != [] {
      IncreasingTail(tracks);
      WithoutTrackKeeps(tracks[1..], pk);
      if tracks[0].id != pk {
        IncreasingCons(tracks[0], WithoutTrack(tracks[1..], pk));
      }
    }
  }

  /** Deleting a track with its items keeps the keys, the links and every remaining item valid. */
  lemma DeleteKeeps(tracks: seq<TrackRow>, items: seq<ItemRow>, playlists: seq<PlaylistRow>, tags: seq<TagRow>, next: nat, pk: nat)
    requires TracksOk(tracks, next) && LinksOk(tracks, tags) && ItemsOk(items, tracks, playlists)
    ensures TracksOk(WithoutTrack(tracks, pk), next) && LinksOk(WithoutTrack(tracks, pk), tags)
    ensures ItemsOk(WithoutItemsOf(items, pk), WithoutTrack(tracks, pk), playlists)
  {
    var newTracks := WithoutTrack(tracks, pk);
    var newItems := WithoutItemsOf(items, pk);
    WithoutTrackKeeps(tracks, pk);
    forall i | 0 <= i < |newTracks| ensures newTracks[i].id < next && newTracks[i].tagIds <= TagIds(tags) {
      assert newTracks[i] in tracks;
    }
    forall k | 0 <= k < |newItems|
      ensures HasTrack(newTracks, newItems[k].trackId) && HasPlaylist(playlists, newItems[k].playlistId)
    {
      var it := newItems[k];
      assert it in items;
      var m :| 0 <= m < |items| && items[m] == it;
      var j :| 0 <= j < |tracks| && tracks[j].id == it.trackId;
      assert tracks[j] in newTracks;
    }
  }

  /** The cascade keeps every item of another track, in order: it is the items of `pk` taken out. */
  lemma {:induction false} WithoutItemsOfKeeps(items: seq<ItemRow>, pk: nat, k: nat)
    requires k < |items| && items[k].trackId != pk
    ensures items[k] in WithoutItemsOf(items, pk)
    ensures WithoutItemsOf(items, pk) == WithoutItemsOf(items[..k], pk) + [items[k]] + WithoutItemsOf(items[k + 1..], pk)
  {
    WithoutItemsOfAppend(items[..k], items[k..], pk);
    assert items[..k] + items[k..] == items;
    assert items[k..] == [items[k]] + items[k + 1..];
    assert WithoutItemsOf(items[k..], pk) == [items[k]] + WithoutItemsOf(items[k + 1..], pk);
  }

  /** The cascade distributes over concatenation. */
  lemma {:induction false} WithoutItemsOfAppend(a: seq<ItemRow>, b: seq<ItemRow>, pk: nat)
    ensures WithoutItemsOf(a + b, pk) == WithoutItemsOf(a, pk) + WithoutItemsOf(b, pk)
  {
    if a == [] {
      assert a + b == b;
    } else {
      assert (a + b)[0] == a[0] && (a + b)[1..] == a[1..] + b;
      WithoutItemsOfAppend(a[1..], b, pk);
    }
  }

  /** Bumping counters changes no id and no link. */
  lemma BumpKeeps(tracks: seq<TrackRow>, ids: seq<nat>, tags: seq<TagRow>)
    ensures SameTrackIds(tracks, Bump(tracks, ids))
    ensures LinksOk(tracks, tags) ==> LinksOk(Bump(tracks, ids), tags)
  {
  }

  /** A new playlist with the next id keeps the table's keys and what points at them. */
  lemma PlaylistAppendKeep(rows: seq<PlaylistRow>, row: PlaylistRow, next: nat, items: seq<ItemRow>, tracks: seq<TrackRow>)
    requires PlaylistsOk(rows, next) && ItemsOk(items, tracks, rows) && row.id == next
    ensures PlaylistsOk(rows + [row], next + 1) && ItemsOk(items, tracks, rows + [row])
    ensures HasPlaylist(rows + [row], next)
  {
    PlaylistsGrow(rows, row);
    assert (rows + [row])[|rows|] == row;
  }

  /** New items for an existing playlist whose tracks exist keep every item pointing at rows. */
  lemma ItemsAppendKeep(items: seq<ItemRow>, added: seq<ItemRow>, tracks: seq<TrackRow>, playlists: seq<PlaylistRow>, pid: nat)
    requires ItemsOk(items, tracks, playlists) && HasPlaylist(playlists, pid)
    requires forall k :: 0 <= k < |added| ==> added[k].playlistId == pid && HasTrack(tracks, added[k].trackId)
    ensures ItemsOk(items + added, tracks, playlists)
  {
    var r := items + added;
    forall k | 0 <= k < |r| ensures HasTrack(tracks, r[k].trackId) && HasPlaylist(playlists, r[k].playlistId) {
      if k < |items| {
        assert r[k] == items[k];
      } else {
        assert r[k] == added[k - |items|];
      }
    }
  }

  lemma PlaylistsGrow(rows: seq<PlaylistRow>, row: PlaylistRow)
    requires IncreasingPlaylistIds(rows)
    requires forall i :: 0 <= i < |rows| ==> rows[i].id < row.id
    ensures IncreasingPlaylistIds(rows + [row])
    ensures forall id :: HasPlaylist(rows, id) ==> HasPlaylist(rows + [row], id)
  {
    var r := rows + [row];
    forall id | HasPlaylist(rows, id) ensures HasPlaylist(r, id) {
      var i :| 0 <= i < |rows| && rows[i].id == id;
      assert r[i] == rows[i];
    }
  }

  /** A tag created during the upload's loop: the linked set gains exactly its id. */
  lemma LinkNew(before: seq<TagRow>, done: seq<string>, n: string, id: nat)
    requires UniqueTagNames(before + [TagRow(id, n)])
    requires AllNamed(before, done)
    requires TagIndex(before, n).None?
    ensures TagIdsNamed(before + [TagRow(id, n)], done + [n]) == TagIdsNamed(before, done) + {id}
    ensures AllNamed(before + [TagRow(id, n)], done + [n])
  {
    var after := before + [TagRow(id, n)];
    assert n !in done;
    assert after[|before|] == TagRow(id, n);
    TagIdsNamedStep(after, done, |before|);
    TagIdsNamedGrow(before, done, TagRow(id, n));
    forall m | m in done + [n] ensures TagIndex(after, m).Some? {
      if m != n {
        var k := TagIndex(before, m).value;
        assert after[k] == before[k];
      }
    }
  }

  /** Linking one more name whose tag is row `i` adds that row's id. */
  lemma TagIdsNamedStep(rows: seq<TagRow>, done: seq<string>, i: nat)
    requires i < |rows| && UniqueTagNames(rows)
    ensures TagIdsNamed(rows, done + [rows[i].name]) == TagIdsNamed(rows, done) + {rows[i].id}
  {
    var n := rows[i].name;
    forall x | x in TagIdsNamed(rows, done + [n]) ensures x in TagIdsNamed(rows, done) + {rows[i].id} {
      var k :| 0 <= k < |rows| && rows[k].name in done + [n] && rows[k].id == x;
      if rows[k].name !in done {
        assert k == i;
      }
    }
  }

  /** A new row whose name is not linked yet changes no linked set. */
  lemma TagIdsNamedGrow(rows: seq<TagRow>, done: seq<string>, row: TagRow)
    requires row.name !in done
    ensures TagIdsNamed(rows + [row], done) == TagIdsNamed(rows, done)
  {
    var r := rows + [row];
    forall x | x in TagIdsNamed(r, done) ensures x in TagIdsNamed(rows, done) {
      var k :| 0 <= k < |r| && r[k].name in done && r[k].id == x;
      assert k < |rows| && r[k] == rows[k];
    }
    forall x | x in TagIdsNamed(rows, done) ensures x in TagIdsNamed(r, done) {
      var k :| 0 <= k < |rows| && rows[k].name in done && rows[k].id == x;
      assert r[k] == rows[k];
    }
  }
}
