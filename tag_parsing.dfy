/**
 * How `UploadTrackView.post` turns the `tags` form field into tag names: the
 * last value when it is non-empty, otherwise the list of all values; a list is
 * taken element by element, a text is decoded as JSON and, when that gives no
 * array, split on commas; every name is stripped and blanks are dropped.
 * Names are stored lower-cased.
 */
module TagParsing {
  import opened Wrappers
  import opened Text
  import opened TagInput

  /**
   * What `json.loads` gives, as far as the view looks at it: an array, with each
   * element already passed through `str()`, or any other value.
   */
  datatype Json = JArray(elements: seq<string>) | JOther

  /** The raw `tags` value: one text, or the list of all submitted values. */
  datatype RawTags = Text(text: string) | List(values: seq<string>)

  /**
   * `request.data.get('tags') or request.data.getlist('tags')` on form data:
   * `get` gives the last submitted value, which wins when non-empty.
   */
  function RawTagsOf(values: seq<string>): (r: RawTags)
    ensures r.Text? ==> values != [] && r.text == values[|values| - 1] && r.text != []
    ensures r.List? ==> r.values == values && (values == [] || values[|values| - 1] == [])
  {
    if values != [] && values[|values| - 1] != [] then Text(values[|values| - 1]) else List(values)
  }

  /** `[p.strip() for p in xs if p.strip()]`. */
  predicate GoodName(t: string) {
    t != [] && IsTrimmed(t)
  }

  /**
   * The parsed tag names. `loads` stands for `json.loads`: `None` when the text
   * is not JSON (the `except` branch).
   */
  function ParseTagNames(raw: RawTags, loads: string -> Option<Json>): (r: seq<string>)
    ensures forall i :: 0 <= i < |r| ==> GoodName(r[i])
  {
    match raw
    case List(values) => CleanPieces(values)
    case Text(text) =>
      match loads(text)
      case Some(JArray(elements)) => CleanPieces(elements)
      case _ => CleanPieces(Split(text, ','))
  }

  /** `name.lower()` for each parsed name: the names `get_or_create` stores. */
  function StoredNames(names: seq<string>): (r: seq<string>)
    ensures |r| == |names|
    ensures forall i :: 0 <= i < |r| ==> r[i] == Lower(names[i])
    ensures forall i :: 0 <= i < |names| && GoodName(names[i]) ==> r[i] != []
  {
    seq(|names|, i requires 0 <= i < |names| => Lower(names[i]))
  }

  /** Lower-casing twice changes nothing: storing an already stored name finds the same tag. */
  lemma StoredNamesStable(names: seq<string>)
    ensures StoredNames(StoredNames(names)) == StoredNames(names)
  {
    forall i | 0 <= i < |names| ensures Lower(Lower(names[i])) == Lower(names[i]) {
      LowerIdempotent(names[i]);
    }
  }

  /** When no `tags` field was sent, or every value sent is empty, the track gets no tags. */
  lemma NoValuesNoNames(values: seq<string>, loads: string -> Option<Json>)
    requires forall i :: 0 <= i < |values| ==> values[i] == []
    ensures ParseTagNames(RawTagsOf(values), loads) == []
  {
    CleanPiecesBlank(values);
  }

  lemma {:induction false} CleanPiecesBlank(pieces: seq<string>)
    requires forall i :: 0 <= i < |pieces| ==> Trim(pieces[i]) == []
    ensures CleanPieces(pieces) == []
  {
    if pieces != [] {
      CleanPiecesBlank(pieces[1..]);
    }
  }

  /** A text that is not JSON is split on commas exactly as the client splits its input. */
  lemma FallbackMatchesClient(text: string, loads: string -> Option<Json>)
    requires text != []
    requires loads(text) == None || loads(text) == Some(JOther)
    ensures ParseTagNames(RawTagsOf([text]), loads) == TagList(text)
  {
  }

  /**
   * The client's upload sends `JSON.stringify(tagList)`: given that it decodes to
   * that array, the server parses back exactly the client's list.
   */
  lemma ClientListSurvives(input: string, encoded: string, loads: string -> Option<Json>)
    requires encoded != []
    requires loads(encoded) == Some(JArray(TagList(input)))
    ensures ParseTagNames(RawTagsOf([encoded]), loads) == TagList(input)
  {
    CleanPiecesFixed(TagList(input));
  }
}
