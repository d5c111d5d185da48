/**
 * The state of the single-page client: the React `useState` slots the queue,
 * the favourites, the tag editor and the upload and mix forms live in, and the
 * handlers that update them. A server response is a parameter of the handler
 * that receives it (`None` when the request failed); `Math.random` is a
 * nondeterministic choice.
 */
module Client {
  import opened Wrappers
  import opened Text
  import opened Catalog
  import opened Transport
  import opened Favorites
  import opened TagInput

  /** The keys `onTagsKeyDown` tells apart. */
  datatype Key = ArrowDown | ArrowUp | Enter | Escape | OtherKey

  /** The form `upload` posts: the audio file, the cover, the title and, when there are tags, the tag list. */
  datatype UploadForm = UploadForm(file: string, cover: Option<string>, title: string, tags: Option<seq<string>>)

  /** The `tags` field of the upload form: attached only when the tag list is non-empty. */
  function TagsField(tagsInput: string): (r: Option<seq<string>>)
    ensures r.Some? <==> TagList(tagsInput) != []
    ensures r.Some? ==> r.value == TagList(tagsInput) && forall i :: 0 <= i < |r.value| ==> WellFormedTag(r.value[i])
  {
    var tagList := TagList(tagsInput);
    if tagList == [] then None else Some(tagList)
  }

  /** `if (t.url)`: a url that is present and non-empty (JavaScript treats `null` and `""` as false). */
  predicate HasUrl(t: Track) {
    t.url.Some? && t.url.value != []
  }

  /** The ids of the tracks with a `url`: the tracks whose duration gets probed. */
  function ProbedIds(tracks: seq<Track>): (r: seq<int>)
    ensures |r| <= |tracks|
    ensures forall id :: id in r <==> exists i :: 0 <= i < |tracks| && HasUrl(tracks[i]) && tracks[i].id == id
  {
    if tracks == [] then []
    else
      var last := tracks[|tracks| - 1];
      var init := tracks[..|tracks| - 1];
      var rest := ProbedIds(init);
      assert forall i :: 0 <= i < |init| ==> init[i] == tracks[i];
      if HasUrl(last) then rest + [last.id] else rest
  }

  class AppState {
    var tracks: seq<Track>
    var durations: map<int, real>
    var file: Option<string>
    var title: string
    var coverFile: Option<string>
    var tagsInput: string
    var tagSuggestions: seq<string>
    var showTagSuggestions: bool
    var highlightedSuggestion: int
    var prompt: string
    var playlist: Option<Playlist>
    var currentIndex: JsNumber
    var shuffle: bool
    var favorites: seq<Track>
    var loading: bool
    var error: Option<string>

    /**
     * Favourites never hold two entries for one track, the highlight is never
     * below "none" (-1), and while a non-empty playlist is loaded the current
     * index is one of its positions.
     */
    ghost predicate Valid()
      reads this
    {
      UniqueIds(favorites) && highlightedSuggestion >= -1 &&
      (playlist.Some? && |playlist.value.items| > 0 ==> InRange(currentIndex, |playlist.value.items|))
    }

    /** The initial state of the component. */
    constructor ()
      ensures Valid()
      ensures tracks == [] && durations == map[] && file == None && title == [] && coverFile == None
      ensures tagsInput == [] && tagSuggestions == [] && !showTagSuggestions && highlightedSuggestion == -1
      ensures prompt == [] && playlist == None && currentIndex == Finite(0) && !shuffle
      ensures favorites == [] && !loading && error == None
    {
      tracks := [];
      durations := map[];
      file := None;
      title := [];
      coverFile := None;
      tagsInput := [];
      tagSuggestions := [];
      showTagSuggestions := false;
      highlightedSuggestion := -1;
      prompt := [];
      playlist := None;
      currentIndex := Finite(0);
      shuffle := false;
      favorites := [];
      loading := false;
      error := None;
    }

    /**
     * `nextTrack`: nothing without a playlist; with shuffle on, any position of
     * the playlist (0 for an empty one, as `Math.floor(Math.random() * 0)`);
     * otherwise the circular successor.
     */
    method NextTrack()
      requires Valid()
      modifies this`currentIndex
      ensures Valid()
      ensures playlist == None ==> currentIndex == old(currentIndex)
      ensures playlist.Some? && shuffle ==>
                InRange(currentIndex, |playlist.value.items|) || (playlist.value.items == [] && currentIndex == Finite(0))
      ensures playlist.Some? && !shuffle ==> currentIndex == NextIndex(old(currentIndex), |playlist.value.items|)
    {
      if playlist == None {
        return;
      }
      var n := |playlist.value.items|;
      if shuffle {
        if n == 0 {
          currentIndex := Finite(0);
        } else {
          var idx: int :| 0 <= idx < n;
          currentIndex := Finite(idx);
        }
        return;
      }
      currentIndex := NextIndex(currentIndex, n);
    }

    /** `prevTrack`: nothing without a playlist; otherwise the circular predecessor, shuffle or not. */
    method PrevTrack()
      requires Valid()
      modifies this`currentIndex
      ensures Valid()
      ensures playlist == None ==> currentIndex == old(currentIndex)
      ensures playlist.Some? ==> currentIndex == PrevIndex(old(currentIndex), |playlist.value.items|)
    {
      if playlist == None {
        return;
      }
      currentIndex := PrevIndex(currentIndex, |playlist.value.items|);
    }

    /** `onEnded`: the end of a track advances the queue exactly as Next does. */
    method OnEnded()
      requires Valid()
      modifies this`currentIndex
      ensures Valid()
      ensures playlist == None ==> currentIndex == old(currentIndex)
      ensures playlist.Some? && shuffle ==>
                InRange(currentIndex, |playlist.value.items|) || (playlist.value.items == [] && currentIndex == Finite(0))
      ensures playlist.Some? && !shuffle ==> currentIndex == NextIndex(old(currentIndex), |playlist.value.items|)
    {
      NextTrack();
    }

    /** The shuffle button: `setShuffle(s => !s)`. */
    method ToggleShuffle()
      modifies this`shuffle
      ensures shuffle == !old(shuffle)
    {
      shuffle := !shuffle;
    }

    /** `toggleFavorite`: prepend the track when no entry has its id, else drop every entry with it. */
    method ToggleFavorite(track: Track)
      requires Valid()
      modifies this`favorites
      ensures Valid()
      ensures favorites == Toggle(old(favorites), track)
      ensures IsFavorite(track.id) == !old(HasId(favorites, track.id))
    {
      ToggleKeepsUnique(favorites, track);
      ToggleFlips(favorites, track, track.id);
      favorites := Toggle(favorites, track);
    }

    /** `isFavorite`: some entry has that id. */
    function IsFavorite(trackId: int): (r: bool)
      reads this
      ensures r <==> exists i :: 0 <= i < |favorites| && favorites[i].id == trackId
    {
      HasId(favorites, trackId)
    }

    /**
     * `onTagsInputChange` with its debounced lookup: the input is stored, the
     * dropdown shown and the highlight cleared; the result is the key to ask
     * the server about, and a blank key clears the suggestions instead.
     */
    method OnTagsInputChange(v: string) returns (lookup: Option<string>)
      requires Valid()
      modifies this`tagsInput, this`showTagSuggestions, this`highlightedSuggestion, this`tagSuggestions
      ensures Valid()
      ensures tagsInput == v && showTagSuggestions && highlightedSuggestion == -1
      ensures lookup == LookupKey(v)
      ensures lookup == None ==> tagSuggestions == []
      ensures lookup.Some? ==> tagSuggestions == old(tagSuggestions)
    {
      tagsInput := v;
      showTagSuggestions := true;
      highlightedSuggestion := -1;
      lookup := LookupKey(v);
      if lookup == None {
        tagSuggestions := [];
      }
    }

    /** The lookup's answer (`res.data || []`, or `[]` on failure) replaces the suggestions; the highlight stays. */
    method SuggestionsArrived(response: Option<seq<string>>)
      modifies this`tagSuggestions
      ensures tagSuggestions == response.GetOr([])
    {
      tagSuggestions := response.GetOr([]);
    }

    /**
     * `onTagsKeyDown`. Nothing happens while the dropdown is hidden or empty.
     * ArrowDown and ArrowUp move the highlight and leave it on a suggestion;
     * Enter picks the highlighted suggestion when there is one; Escape hides the
     * dropdown and keeps the input.
     */
    method OnTagsKeyDown(key: Key)
      requires Valid()
      modifies this`highlightedSuggestion, this`tagsInput, this`tagSuggestions, this`showTagSuggestions
      ensures Valid()
      ensures !old(showTagSuggestions) || old(tagSuggestions) == [] || key == OtherKey ||
              (key == Enter && !(0 <= old(highlightedSuggestion) < |old(tagSuggestions)|)) ==>
                highlightedSuggestion == old(highlightedSuggestion) && tagsInput == old(tagsInput) &&
                tagSuggestions == old(tagSuggestions) && showTagSuggestions == old(showTagSuggestions)
      ensures old(showTagSuggestions) && old(tagSuggestions) != [] && (key == ArrowDown || key == ArrowUp) ==>
                0 <= highlightedSuggestion < |tagSuggestions| &&
                highlightedSuggestion == (if key == ArrowDown then HighlightDown(old(highlightedSuggestion), |tagSuggestions|)
                                          else HighlightUp(old(highlightedSuggestion), |tagSuggestions|)) &&
                tagsInput == old(tagsInput) && tagSuggestions == old(tagSuggestions) && showTagSuggestions
      ensures old(showTagSuggestions) && key == Enter && 0 <= old(highlightedSuggestion) < |old(tagSuggestions)| ==>
                tagsInput == PickedInput(old(tagsInput), old(tagSuggestions)[old(highlightedSuggestion)]) &&
                tagSuggestions == [] && !showTagSuggestions && highlightedSuggestion == old(highlightedSuggestion)
      ensures old(showTagSuggestions) && old(tagSuggestions) != [] && key == Escape ==>
                !showTagSuggestions && tagsInput == old(tagsInput) &&
                tagSuggestions == old(tagSuggestions) && highlightedSuggestion == old(highlightedSuggestion)
    {
      if !showTagSuggestions || tagSuggestions == [] {
        return;
      }
      match key {
        case ArrowDown =>
          highlightedSuggestion := HighlightDown(highlightedSuggestion, |tagSuggestions|);
        case ArrowUp =>
          highlightedSuggestion := HighlightUp(highlightedSuggestion, |tagSuggestions|);
        case Enter =>
          if 0 <= highlightedSuggestion < |tagSuggestions| {
            PickSuggestion(tagSuggestions[highlightedSuggestion]);
          }
        case Escape =>
          showTagSuggestions := false;
        case OtherKey =>
      }
    }

    /**
     * `pickSuggestion(s)`: the current parts, `s` pushed when absent, joined
     * with `", "`; the dropdown is cleared and hidden. For a well-formed
     * suggestion the new input lists the old tags in order and then holds `s`.
     */
    method PickSuggestion(s: string)
      modifies this`tagsInput, this`tagSuggestions, this`showTagSuggestions
      ensures tagsInput == PickedInput(old(tagsInput), s)
      ensures tagSuggestions == [] && !showTagSuggestions
      ensures WellFormedTag(s) ==> TagList(old(tagsInput)) <= TagList(tagsInput) && s in TagList(tagsInput)
    {
      var parts := TagList(tagsInput);
      if s !in parts {
        parts := parts + [s];
      }
      if WellFormedTag(s) {
        PickedInputTags(tagsInput, s);
      }
      tagsInput := Join(parts, ", ");
      tagSuggestions := [];
      showTagSuggestions := false;
    }

    /**
     * The first half of `upload`: nothing without a file; otherwise the form to
     * post, carrying the tag list only when it is non-empty, and a busy,
     * error-free state.
     */
    method Upload() returns (form: Option<UploadForm>)
      modifies this`loading, this`error
      ensures file == None ==> form == None && loading == old(loading) && error == old(error)
      ensures file.Some? ==>
                form == Some(UploadForm(file.value, coverFile, title, TagsField(tagsInput))) &&
                loading && error == None
    {
      if file == None {
        return None;
      }
      loading := true;
      error := None;
      form := Some(UploadForm(file.value, coverFile, title, TagsField(tagsInput)));
    }

    /** The second half of `upload`: success clears the form, failure reports it; either way the client is idle. */
    method UploadDone(succeeded: bool)
      modifies this`file, this`title, this`tagsInput, this`coverFile, this`loading, this`error
      ensures succeeded ==>
                file == None && title == [] && tagsInput == [] && coverFile == None && error == old(error)
      ensures !succeeded ==>
                error == Some("Upload failed") &&
                file == old(file) && title == old(title) && tagsInput == old(tagsInput) && coverFile == old(coverFile)
      ensures !loading
    {
      if succeeded {
        file := None;
        title := [];
        tagsInput := [];
        coverFile := None;
      } else {
        error := Some("Upload failed");
      }
      loading := false;
    }

    /** The first half of `generateMix`: nothing for an empty prompt; otherwise the prompt to post. */
    method GenerateMix() returns (request: Option<string>)
      modifies this`loading, this`error
      ensures prompt == [] ==> request == None && loading == old(loading) && error == old(error)
      ensures prompt != [] ==> request == Some(prompt) && loading && error == None
    {
      if prompt == [] {
        return None;
      }
      loading := true;
      error := None;
      request := Some(prompt);
    }

    /** The second half of `generateMix`: a mix replaces the queue and playing starts from its first item. */
    method MixArrived(response: Option<Playlist>)
      requires Valid()
      modifies this`playlist, this`currentIndex, this`loading, this`error
      ensures Valid()
      ensures response.Some? ==> playlist == response && currentIndex == Finite(0) && error == old(error)
      ensures response == None ==>
                playlist == old(playlist) && currentIndex == old(currentIndex) && error == Some("Failed to generate mix")
      ensures !loading
    {
      if response.Some? {
        playlist := response;
        currentIndex := Finite(0);
      } else {
        error := Some("Failed to generate mix");
      }
      loading := false;
    }

    /**
     * `fetchTracks`: the list replaces `tracks` and every track with a `url`
     * gets a duration probe; a failed request only reports it.
     */
    method FetchTracks(response: Option<seq<Track>>) returns (probes: seq<int>)
      modifies this`tracks, this`error
      ensures response.Some? ==> tracks == response.value && probes == ProbedIds(response.value) && error == old(error)
      ensures response == None ==> tracks == old(tracks) && probes == [] && error == Some("Failed to fetch tracks")
    {
      if response == None {
        error := Some("Failed to fetch tracks");
        return [];
      }
      var data := response.value;
      tracks := data;
      probes := [];
      var i := 0;
      while i < |data|
        invariant 0 <= i <= |data|
        invariant probes == ProbedIds(data[..i])
      {
        assert data[..i + 1][..i] == data[..i];
        if HasUrl(data[i]) {
          probes := probes + [data[i].id];
        }
        i := i + 1;
      }
      assert data[..i] == data;
    }

    /** A probe's `loadedmetadata`: the track's duration is recorded; durations only ever gain keys. */
    method DurationLoaded(id: int, duration: real)
      modifies this`durations
      ensures durations == old(durations)[id := duration]
      ensures durations.Keys == old(durations).Keys + {id}
    {
      durations := durations[id := duration];
    }
  }
}
