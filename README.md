# Mood-mix music app: client queue and tag editor, server tag parsing and mix bookkeeping

This project models the logic core of a small music-upload and mood-mix
application, and proves properties about it. The application has two halves.

**The single-page client (`frontend/src/App.jsx`).** Its state lives in React
`useState` slots, which the handlers update:
- the queue of a generated mix: current index, shuffle, Next, Prev and end-of-track;
- the favourites list;
- the tag editor: the comma-separated input, the autocomplete dropdown and its
  keyboard highlight, and picking a suggestion;
- the upload and mix forms, with their guards;
- the `m:ss` duration labels.

The slots become the fields of the class `Client.AppState`, and each handler
becomes a method. The pure pieces are functions in their own modules:
`TimeFormat`, `Transport`, `Favorites` and `TagInput`.

**The Django views (`backend/music/views.py`).**
- Uploading a track parses its `tags` value: a JSON array, a comma-separated
  text or repeated form values, stripped, blanks dropped, lower-cased, and
  `get_or_create`d.
- Generating a mix picks the candidate tracks from the prompt's `\w+` tokens
  (with the corrected fallback of the second row under "## Findings"),
  falls back to a random sample of at most five, stores the playlist and its
  items while skipping unknown ids, and bumps each selected track's
  `times_selected` once.
- Listing tags sorts them by name, filters them by case-insensitive substring
  and keeps at most 50.
- Listing the top tracks orders them by `times_selected` descending and keeps
  at most 10.
- Deleting a track answers 404 for an unknown id.

The tables of `backend/music/models.py` are sequences of rows in primary-key
order, with per-table id counters (`Tables`). The views change them through the
class `Store.Database`, whose invariant `Valid` requires:
- increasing ids, each below its counter;
- unique tag names;
- every link and every playlist item pointing at existing rows.

The queries are functions (`Queries`, `TagParsing`).

Shared string primitives are in `Text`: trim/strip, split, join, ASCII
lower-casing, substring search and `\w+` tokens. `Wrappers` holds `Option`.
`Catalog` holds the records the client receives.

Library calls and I/O become parameters:
- A server response is a parameter of the client method that receives it
  (`None` for a failed request).
- `json.loads` is a function parameter `loads` of the tag parser.
- The LLM's answer is the parameter `modelItems`.
- `Math.random` and `random.sample`/`random.uniform` are nondeterministic
  choices (`:|`) within the stated bounds.

## Model

| member | source | states |
|---|---|---|
| TimeFormat.FormatTime | frontend/src/App.jsx:8-13 | `"0:00"` for an absent or zero duration; otherwise digits, `:`, then exactly two digits whose first is 0-5 |
| TimeFormat.SecondsPart | frontend/src/App.jsx:11 | the seconds part `s % 60` is below 60 |
| TimeFormat.Decimal | frontend/src/App.jsx:12 | the decimal rendering is a non-empty digit string, one digit exactly below 10, no leading zero |
| TimeFormat.DecimalRoundTrip | frontend/src/App.jsx:12 | reading the rendered digits back gives the number |
| TimeFormat.PadStart2 | frontend/src/App.jsx:12 | `padStart(2, '0')` puts leading `'0'`s before a shorter string to make it two long, and leaves a longer one alone |
| TimeFormat.TensDigit | frontend/src/App.jsx:11-12 | the padded seconds part is two digits, the first 0 to 5 |
| TimeFormat.TwoDigitValue | frontend/src/App.jsx:11-12 | the padded seconds part is two digits whose value is the seconds |
| TimeFormat.FormatTimeRoundTrip | frontend/src/App.jsx:8-13 | the label of every duration `s` reads back as `60 * floor(s/60) + s % 60 == s` |
| Transport.TruncRem | frontend/src/App.jsx:298 | JavaScript `%`: the remainder is strictly between `-n` and `n`, takes the dividend's sign and differs from it by a multiple of `n` |
| Transport.JsRem | frontend/src/App.jsx:298 | `NaN` exactly when the index is `NaN` or the playlist is empty; the Euclidean remainder for a non-negative index |
| Transport.NextIndex | frontend/src/App.jsx:298 | from a position in range, the circular successor; from an index at least -1, a position in range; `NaN` for an empty playlist |
| Transport.PrevIndex | frontend/src/App.jsx:303 | from a position in range, the circular predecessor; in range from any index at least `1-n`; `NaN` for an empty playlist |
| Transport.PrevAfterNext | frontend/src/App.jsx:298-303 | Prev after Next returns to the same position |
| Transport.NextAfterPrev | frontend/src/App.jsx:298-303 | Next after Prev returns to the same position |
| Transport.PrevFromFirst | frontend/src/App.jsx:303 | Prev from position 0 gives the last position `n-1` |
| Transport.NegativeIndexStaysOutside | frontend/src/App.jsx:298 | a negative restored index is not wrapped: Next from -5 in a 3-item playlist gives -1 |
| Transport.EmptyPlaylistLosesIndex | frontend/src/App.jsx:298-303 | an empty playlist turns the index into `NaN` and `NaN` stays `NaN` |
| Transport.ForwardIsRotation | frontend/src/App.jsx:298 | `k` presses of Next from position `i` land on `(i + k) mod n` |
| Transport.ForwardFullCircle | frontend/src/App.jsx:298 | `n` presses of Next come back to the start |
| Favorites.HasId | frontend/src/App.jsx:154-156 | true exactly when some entry has the id |
| Favorites.WithoutId | frontend/src/App.jsx:147 | the filter leaves no entry with the id and keeps exactly the entries with another id |
| Favorites.WithoutAbsentId | frontend/src/App.jsx:147 | filtering an absent id leaves the list as it is |
| Favorites.WithoutIdAppend | frontend/src/App.jsx:147 | filtering distributes over concatenation |
| Favorites.ToggleFlips | frontend/src/App.jsx:143-152 | a toggle flips membership of the toggled id and no other |
| Favorites.ToggleTwiceAbsent | frontend/src/App.jsx:143-152 | toggling an absent track twice restores the original list |
| Favorites.ToggleTwicePresent | frontend/src/App.jsx:143-152 | toggling a present track twice leaves it once, at the front, with every other entry in order |
| Favorites.ToggleKeepsUnique | frontend/src/App.jsx:143-152 | toggling keeps "no two entries with one id" |
| Favorites.WithoutIdUnique | frontend/src/App.jsx:147 | filtering keeps "no two entries with one id" |
| TagInput.TagList | frontend/src/App.jsx:170 | every entry of the tag list is non-empty, trimmed and comma-free |
| TagInput.BlankDroppedDuplicateKept | frontend/src/App.jsx:170 | for any tags `a`, `b`, `"a, b,,a"` gives `[a, b, a]`: blanks dropped, order and duplicates kept |
| TagInput.ExampleSplit | frontend/src/App.jsx:170 | the split of that input is `[a, " b", "", a]` |
| TagInput.ListRoundTrip | frontend/src/App.jsx:255-258 | joining a list of tags with `", "` and splitting back gives the list |
| TagInput.ListRoundTripAfter | frontend/src/App.jsx:255-258 | the same with whitespace in front |
| TagInput.LookupKey | frontend/src/App.jsx:227-230 | the key looked up is a non-empty trimmed comma-free fragment |
| TagInput.LookupKeyIsLastFragment | frontend/src/App.jsx:227-230 | the key is the trimmed text after the last comma, and no key when that is blank |
| TagInput.BlankFragment | frontend/src/App.jsx:227 | a blank input has a blank last fragment |
| TagInput.PickedInputTags | frontend/src/App.jsx:255-258 | after picking a well-formed `s`, the input lists the old tags in order and then `s` when it was missing |
| TagInput.PickIdempotent | frontend/src/App.jsx:255-258 | picking the same suggestion twice gives the input of picking it once |
| TagInput.HighlightDown | frontend/src/App.jsx:241 | ArrowDown moves one down, never off the list, and stays on the last suggestion from there or beyond |
| TagInput.HighlightUpAsWritten | frontend/src/App.jsx:244 | ArrowUp as written: never negative, one up from 1 or more, 0 from 1 or less |
| TagInput.HighlightUp | frontend/src/App.jsx:244 | the corrected ArrowUp: always on the list, one up when the highlight was at most one past it, 0 from 1 or less, the last suggestion from further past |
| TagInput.HighlightUpAgrees | frontend/src/App.jsx:244 | the two agree whenever the highlight is at most one past the list |
| TagInput.HighlightUpLeavesList | frontend/src/App.jsx:224-244 | counterexample: the written ArrowUp leaves a highlight of 4 on a two-entry list |
| Client.TagsField | frontend/src/App.jsx:170-171 | the `tags` field is attached exactly when the tag list is non-empty, and then it is that list |
| Client.ProbedIds | frontend/src/App.jsx:112-113 | the probed ids are exactly those of the tracks whose `url` is present and non-empty (`if (t.url)`) |
| Client.AppState.NextTrack | frontend/src/App.jsx:291-299 | no playlist: no change; shuffle: some position of the playlist (0 when empty); otherwise `NextIndex`; keeps the index on the playlist |
| Client.AppState.PrevTrack | frontend/src/App.jsx:301-304 | no playlist: no change; otherwise `PrevIndex`, shuffle or not; keeps the index on the playlist |
| Client.AppState.OnEnded | frontend/src/App.jsx:306-308 | exactly Next's contract |
| Client.AppState.ToggleShuffle | frontend/src/App.jsx:430 | shuffle flips |
| Client.AppState.ToggleFavorite | frontend/src/App.jsx:143-152 | favourites become `Toggle`; the id's membership flips; unique ids preserved |
| Client.AppState.IsFavorite | frontend/src/App.jsx:154-156 | true exactly when some favourite has the id |
| Client.AppState.OnTagsInputChange | frontend/src/App.jsx:221-234 | input stored, dropdown shown, highlight -1; the key requested is `LookupKey`; no key clears the suggestions |
| Client.AppState.SuggestionsArrived | frontend/src/App.jsx:232-233 | the suggestions become the answer or `[]`; the highlight is untouched |
| Client.AppState.OnTagsKeyDown | frontend/src/App.jsx:237-253 | hidden or empty dropdown: no change; arrows leave the highlight on a suggestion; Enter picks only when `0 <= h < len`; Escape hides and keeps the input |
| Client.AppState.PickSuggestion | frontend/src/App.jsx:255-261 | input becomes `PickedInput`, keeping the old tags as a prefix and containing `s`; suggestions cleared and hidden |
| Client.AppState.Upload | frontend/src/App.jsx:158-171 | no file: no form and no change; otherwise the form with the tag list only when non-empty, busy and error cleared |
| Client.AppState.UploadDone | frontend/src/App.jsx:181-191 | success clears file, title, tags and cover; failure sets "Upload failed" and keeps the form; idle either way |
| Client.AppState.GenerateMix | frontend/src/App.jsx:263-267 | empty prompt: no request and no change; otherwise the prompt is requested, busy and error cleared |
| Client.AppState.MixArrived | frontend/src/App.jsx:269-279 | a mix replaces the playlist and the index becomes 0, a position of any non-empty mix; failure sets "Failed to generate mix" and keeps the queue |
| Client.AppState.FetchTracks | frontend/src/App.jsx:107-128 | the list replaces `tracks` and the probes are `ProbedIds` of it; failure reports and changes no track |
| Client.AppState.DurationLoaded | frontend/src/App.jsx:116-118 | the duration is recorded; durations only gain keys |
| Text.Trim | frontend/src/App.jsx:170 | the result has no whitespace at either end and is no longer |
| Text.TrimChars | backend/music/views.py:42 | trimming adds no character |
| Text.TrimEmptyIffAllSpace | backend/music/views.py:42 | trimming leaves nothing exactly when the text is all whitespace |
| Text.TrimmedIsFixed | backend/music/views.py:47 | trimming a trimmed text changes nothing |
| Text.TrimLeadingSpace | frontend/src/App.jsx:256 | leading whitespace before a trimmed word is exactly what trimming removes |
| Text.Split | frontend/src/App.jsx:170 | at least one piece, none containing the separator, two or more when it occurs |
| Text.JoinSplit | frontend/src/App.jsx:170 | joining the pieces with the separator gives the text back |
| Text.AfterLast | frontend/src/App.jsx:229 | the text after the last comma contains no comma |
| Text.AfterLastSuffix | frontend/src/App.jsx:229 | it is a suffix, preceded by the separator when shorter than the text |
| Text.LastPieceAfterLast | frontend/src/App.jsx:229 | `split(',').pop()` is the text after the last comma |
| Text.SplitAtFirst | frontend/src/App.jsx:170 | a separator after a separator-free prefix cuts off exactly that prefix |
| Text.CleanPieces | backend/music/views.py:42-51 | every kept entry is trimmed and non-empty; an entry is kept exactly when it is the non-blank strip of some input piece |
| Text.CleanPiecesOne | backend/music/views.py:42-51 | one piece gives its stripped text when that is not blank, and nothing otherwise |
| Text.CleanPiecesAppend | backend/music/views.py:42 | cleaning distributes over concatenation |
| Text.CleanPiecesFixed | backend/music/views.py:47 | cleaning a list of trimmed non-empty names keeps it as it is |
| Text.Lower | backend/music/views.py:54 | same length, each letter lowered, no capital left |
| Text.LowerIdempotent | backend/music/views.py:54 | lower-casing twice is lower-casing once |
| Text.IsInfixAt | backend/music/views.py:208 | the substring search holds exactly when the pattern occurs at some position |
| Text.WordRun | backend/music/views.py:72 | the run is the longest prefix of word characters |
| Text.Words | backend/music/views.py:72 | every token is a non-empty run of word characters |
| Text.WordsCoverWordChars | backend/music/views.py:72 | the tokens, run together, are exactly the word characters of the prompt, in order |
| Text.WordRunStops | backend/music/views.py:72 | a run of word characters ends at the first non-word character, whatever follows it |
| Text.WordsOfWord | backend/music/views.py:72 | a non-empty run of word characters is a single token, whole |
| Text.WordsSplitAt | backend/music/views.py:72 | a non-word character separates tokens: the text on each side is tokenised on its own |
| Text.WordsExample | backend/music/views.py:72 | the prompt `calm focus` gives exactly the tokens `calm` and `focus` |
| TagParsing.ParseTagNames | backend/music/views.py:38-51 | every parsed name is non-empty and stripped |
| TagParsing.StoredNames | backend/music/views.py:54 | each stored name is the lower-cased parsed name, non-empty |
| TagParsing.StoredNamesStable | backend/music/views.py:54 | storing an already stored name finds the same tag |
| TagParsing.NoValuesNoNames | backend/music/views.py:39 | no `tags` value, or only empty ones, gives no names |
| TagParsing.FallbackMatchesClient | backend/music/views.py:44-51 | a text that is not a JSON array is split exactly as the client's tag list |
| TagParsing.ClientListSurvives | backend/music/views.py:45-47 | the client's JSON-encoded list parses back to the same list |
| Queries.Insert | backend/music/views.py:191 | insertion adds the element to the multiset |
| Queries.InsertSorted | backend/music/views.py:191 | inserting into a sorted list keeps it sorted |
| Queries.Sort | backend/music/views.py:191 | the result is sorted and a permutation of the input |
| Queries.Take | backend/music/views.py:209 | a slice `[:k]` is a prefix of length `min(k, n)` |
| Queries.TopOfSorted | backend/music/views.py:191 | the first `k` sorted rows: sorted, a sub-multiset of the input, and every row left out comes no earlier than any row kept |
| Queries.LexTotal | backend/music/views.py:203 | the name order is total |
| Queries.LexTransitive | backend/music/views.py:203 | the name order is transitive |
| Queries.LexAntisymmetric | backend/music/views.py:203 | the name order is antisymmetric |
| Queries.ByName | backend/music/views.py:203 | `order_by('name')` is a total preorder, the lexicographic one |
| Queries.MostSelectedFirst | backend/music/views.py:191 | `order_by('-times_selected')` is a total preorder |
| Queries.FilterNames | backend/music/views.py:205-208 | a name is kept exactly when it contains `q` ignoring case, or `q` is absent or empty; no name is repeated more often than in the table |
| Queries.TagListQueryMeaning | backend/music/views.py:201-209 | at most 50 names, in name order, a sub-multiset of the matching tag names; a matching tag left out sorts after all shown |
| Queries.TopTracksMeaning | backend/music/views.py:182-198 | `min(10, N)` tracks, most selected first, a sub-multiset of the table; a track left out was selected no more often than any shown |
| Queries.MatchedTagIds | backend/music/views.py:73 | exactly the ids of tags whose name is a token |
| Queries.TracksWithAnyTag | backend/music/views.py:75 | exactly the tracks carrying a matched tag, each once |
| Queries.Candidates | backend/music/views.py:72-77 | as written: the tracks with a matched tag, or every track when no tag matches |
| Queries.TracksWithAnyTagIncreasing | backend/music/views.py:75 | the filter keeps table order, hence distinct increasing ids |
| Queries.UnlinkedTagHidesLibrary | backend/music/views.py:73-81 | counterexample: a token naming a tag no track carries yields no candidate although a track exists |
| Queries.CandidatesOrAll | backend/music/views.py:73-81 | corrected: candidates are stored tracks, and empty exactly when there are no tracks |
| Queries.CandidatesOrAllIncreasing | backend/music/views.py:75-79 | the candidates keep increasing ids |
| Queries.CandidatesOrAllAgrees | backend/music/views.py:73-77 | where the written rule finds candidates the corrected rule gives the same ones |
| Store.TagIndex | backend/music/views.py:54 | the index of the tag with the name, and none exactly when no tag has it |
| Store.TitleOf | backend/music/views.py:26 | the given non-empty title, else the file's name |
| Store.MixName | backend/music/views.py:134 | at most 255 characters, a prefix of `"Mix: " + prompt`, all of it for prompts up to 250 |
| Store.ItemsFor | backend/music/views.py:135-147 | at most one row per item, each for the new playlist and an existing track; a row is stored exactly for each resolving item, with its id, its `order` or 0 and its `weight` or 1.0 |
| Store.SelectedIds | backend/music/views.py:135-147 | an id is selected exactly when some item with it resolves to a track |
| Store.BumpOncePerTrack | backend/music/views.py:149-151 | each track named gains exactly one selection however often it is named; nothing else changes |
| Store.FallbackAllResolve | backend/music/views.py:124-147 | the fallback items all resolve: one row per pick with the pick's track, order and weight |
| Store.SampleFallback | backend/music/views.py:124-131 | `min(5, N)` picks of distinct candidates with orders `0..k-1` and weights in `[0.5, 1.0]` |
| Store.RemoveOne | backend/music/views.py:128 | drawing one candidate leaves the others, still increasing |
| Store.SameTrackIdsKeep | backend/music/models.py:34-38 | rewriting rows without changing ids keeps the keys and the items pointing at them |
| Store.TrackAppendKeep | backend/music/views.py:33-35 | a new track with the next id keeps the keys and the items |
| Store.LinkOne | backend/music/views.py:55 | linking an existing tag keeps every link valid |
| Store.TagIdsGrow | backend/music/views.py:54 | tags are only appended, so every tag id stays |
| Store.TagIdsNamedStep | backend/music/views.py:53-55 | linking one more name adds its one tag's id; a repeated name adds nothing new |
| Store.TagIdsNamedGrow | backend/music/views.py:54 | a new tag whose name is not linked yet changes no link set |
| Store.LinkNew | backend/music/views.py:54-55 | creating a missing tag and linking it adds exactly its id |
| Store.NewRowsNamedTrans | backend/music/views.py:53-54 | every tag the loop creates carries one of the names |
| Store.Database.GetOrCreateTag | backend/music/views.py:54 | the existing tag with no change, or a new tag at the end with the next id |
| Store.Database.LinkName | backend/music/views.py:53-55 | one step of the tag loop: the collected ids grow by the tag of the new name |
| Store.Database.LinkTags | backend/music/views.py:53-55 | collected ids are exactly the tags named; every name has a tag; tags only appended, each new one named |
| Store.Database.UploadTrack | backend/music/views.py:20-57 | no file: 400 and no change; otherwise 201, a new last track with the title rule, no selections, linked exactly to the tags named, and only those tags created |
| Store.Database.GenerateMix | backend/music/views.py:65-159 | empty prompt or no candidate: 400 and no change; otherwise 200, a new playlist named by `MixName`, the resolving items appended, the selected counters bumped |
| Store.Database.StoreItems | backend/music/views.py:135-147 | the items appended are `ItemsFor`, and the ids collected are `SelectedIds` |
| Store.Database.BumpCounters | backend/music/views.py:149-151 | the track table becomes `Bump` of the ids |
| Store.Database.DeleteTrack | backend/music/views.py:162-179 | unknown id: 404 and no change; otherwise 204, the track and, by cascade, its items removed |
| Store.TagListOfTable | backend/music/views.py:201-209 | over a table with unique names: at most 50 names of stored tags matching `q`, in name order, no name twice; a matching tag left out sorts after every name shown |
| Store.Database.TagListMeaning | backend/music/views.py:201-209 | the same for the database's own tag table, whose names are unique by its invariant |
| Store.WithoutTrack | backend/music/views.py:173 | the track is gone, every other track kept |
| Store.WithoutItemsOf | backend/music/models.py:36 | the cascade: items of the track gone, the others kept |
| Store.WithoutTrackKeeps | backend/music/views.py:173 | deleting keeps ids increasing |
| Store.DeleteKeeps | backend/music/views.py:173 | deleting a track with its items keeps the keys, the links and every remaining item valid |
| Store.WithoutItemsOfKeeps | backend/music/models.py:36 | the cascade keeps every item of another track, in its place between the items kept before and after it |
| Store.WithoutItemsOfAppend | backend/music/models.py:36 | the cascade distributes over concatenation |
| Store.BumpKeeps | backend/music/views.py:151 | counters change no id and no link |
| Store.PlaylistAppendKeep | backend/music/views.py:134 | a new playlist with the next id keeps keys and items, and exists |
| Store.ItemsAppendKeep | backend/music/views.py:141-146 | new items for an existing playlist and existing tracks keep every item valid |
| Store.PlaylistsGrow | backend/music/views.py:134 | appending a larger id keeps the ids increasing and every playlist |

## Left out

- The JSX rendering, styling, modals and the now-playing bar.
- The `<audio>` element, playback, volume and progress. These are browser media.
- `playing`, `currentTrack` and `topTracks` in the client. They only mirror the media element and a fetched list.
- The upload progress percentage. It is floating point and comes from network events.
- HTTP, `axios` and the 250 ms debounce. The handler and its timer are merged into `OnTagsInputChange`, and the answer arrives as `SuggestionsArrived`. The client's `upload`, `generateMix` and `fetchTracks` are split at the `await` into a request half and a response half.
- `localStorage`: restoring the queue, the index and the favourites, and the theme toggle. The effect of a restored negative index is stated in `Transport.NegativeIndexStaysOutside`.
- Hovering a suggestion, mouse picks and clicking a queue entry. These only set a field to a given value.
- `Client.AppState.FetchTracks`: the duration probe itself is a browser event. The method returns the ids to probe, and `DurationLoaded` records one answer.
- `Client.AppState.NextTrack`: a `playlist` whose `items` field is missing is not modelled. The `Catalog.Playlist` record always has items.
- Whitespace, case and `\w` are ASCII only. JavaScript `trim` and Python `strip` also remove some non-ASCII whitespace, and their sets differ in a few code points, for example `\x1c`-`\x1f` for Python. `lower()` and `\w` also cover non-ASCII letters.
- `json.loads` and `str()` on decoded elements are library calls. The parser takes the decoded value as the parameter `loads`.
- The tag name order of `order_by('name')` is taken as code-point order. The database collation is not modelled.
- `Queries.TopTracksMeaning`: ties in `times_selected` are broken by table order. The database leaves their order open.
- The OpenAI call and `_extract_json_from_text`. The model's items are the parameter `modelItems`, which is empty when the call fails or is not configured.
- `Store.Database.GenerateMix`: an item whose `order` or `weight` is present but `null` is not represented. Neither column is nullable, so such an item makes the insert fail in the view; the model can only express absent, which takes the default. Weights are `real` and are not rounded to two places.
- `TagSuggestView`, `TrackListView`, the serializers, the URL routes and the response bodies are not part of this model.
- Caching (`cache.get/set/delete`) and deleting the stored file. These are storage side effects.
- The `max_length` limits of the schema. Only the 255-character mix name is modelled.
- `Store.Database.UploadTrack`: a title over 255 characters is stored as given.
- `Client.AppState.OnTagsKeyDown`: ArrowUp uses the corrected `HighlightUp` of the first row under "## Findings", not the written `Math.max(i - 1, 0)`. After a stale suggestion answer, the written rule can leave the highlight past the end of the list, and the method does not reproduce that.
- `Store.Database.GenerateMix`: candidates come from the corrected `CandidatesOrAll` of the second row under "## Findings". The view answers 400 when a prompt token names a tag that no track carries; the method instead falls back to the whole library.
- `TagInput.PickIdempotent`: proved only for a suggestion that is stripped, non-empty and comma-free. A stored tag can contain a comma when it came from a JSON array. Picking such a tag splits it apart again, and that case is not covered.

## Findings

| source | as written | input that shows it | evidently intended | confidence | as-written member | corrected member |
|---|---|---|---|---|---|---|
| frontend/src/App.jsx:244 | ArrowUp sets the highlight to `max(h-1, 0)` with no upper bound | six suggestions shown; typing one more character resets the highlight while those six stay until the debounced answer; ArrowDown six times gives 5; the answer lists two suggestions; ArrowUp gives 4, past the two-entry list | the highlight stays on a suggestion after either arrow key, as ArrowDown's `min(…, len-1)` does | medium, not executed | TagInput.HighlightUpAsWritten, TagInput.HighlightUpLeavesList | TagInput.HighlightUp |
| backend/music/views.py:73-81 | candidates are the tracks carrying a tag named by a token whenever such a tag exists | one track with no tags, a tag "calm" left over from a deleted track, prompt "calm": no candidate, so 400 "no tracks uploaded" | fall back to the whole library when no track carries a matched tag | medium, not executed | Queries.Candidates, Queries.UnlinkedTagHidesLibrary | Queries.CandidatesOrAll |
