/**
 * The client's tag-editing logic: the tag list the upload form sends, the
 * lookup key of the autocomplete request, picking a suggestion, and moving the
 * highlighted suggestion with the arrow keys.
 */
module TagInput {
  import opened Wrappers
  import opened Text

  /** What a single tag of a comma-separated list can be: non-empty, trimmed, comma-free. */
  predicate WellFormedTag(t: string) {
    t != [] && IsTrimmed(t) && ',' !in t
  }

  /** `tagsInput.split(',').map(s => s.trim()).filter(Boolean)`. */
  function TagList(input: string): (r: seq<string>)
    ensures forall i :: 0 <= i < |r| ==> WellFormedTag(r[i])
  {
    var pieces := Split(input, ',');
    CleanPiecesAvoid(pieces, ',');
    CleanPieces(pieces)
  }

  /**
   * The upload form's example in general form (`"calm, focus,,calm"`): the blank
   * between two commas is dropped, and order and duplicates are kept.
   */
  lemma BlankDroppedDuplicateKept(a: string, b: string)
    requires WellFormedTag(a) && WellFormedTag(b)
    ensures TagList(a + ", " + b + ",," + a) == [a, b, a]
  {
    var pieces := [a, " " + b, [], a];
    ExampleSplit(a, b);
    assert CleanPieces(pieces) == [a, b, a] by {
      TrimmedIsFixed(a);
      TrimLeadingSpace(" ", b);
      var p3: seq<string> := [a];
      var p2: seq<string> := [[]] + p3;
      var p1 := [" " + b] + p2;
      assert CleanPieces(p3) == [a] by { assert p3[1..] == []; }
      assert CleanPieces(p2) == [a] by { assert p2[1..] == p3; }
      assert CleanPieces(p1) == [b, a] by { assert p1[1..] == p2; }
      assert pieces == [a] + p1;
      assert pieces[1..] == p1;
    }
  }

  lemma ExampleSplit(a: string, b: string)
    requires WellFormedTag(a) && WellFormedTag(b)
    ensures Split(a + ", " + b + ",," + a, ',') == [a, " " + b, [], a]
  {
    var x2 := [','] + a;
    var x1 := " " + b + [','] + x2;
    assert a + ", " + b + ",," + a == a + [','] + x1;
    assert x2 == [] + [','] + a;
    SplitNoSep(a, ',');
    SplitAtFirst([], ',', a);
    assert ',' !in " " + b;
    SplitAtFirst(" " + b, ',', x2);
    SplitAtFirst(a, ',', x1);
  }

  /** A list of well-formed tags joined with `", "` splits back into the same list. */
  lemma ListRoundTrip(parts: seq<string>)
    requires forall i :: 0 <= i < |parts| ==> WellFormedTag(parts[i])
    ensures TagList(Join(parts, ", ")) == parts
  {
    assert [] + Join(parts, ", ") == Join(parts, ", ");
    ListRoundTripAfter([], parts);
  }

  lemma {:induction false} ListRoundTripAfter(w: string, parts: seq<string>)
    requires AllSpace(w)
    requires forall i :: 0 <= i < |parts| ==> WellFormedTag(parts[i])
    ensures CleanPieces(Split(w + Join(parts, ", "), ',')) == parts
    decreases |parts|
  {
    assert ',' !in w;
    if |parts| == 0 {
      assert w + [] == w;
      SplitNoSep(w, ',');
      TrimEmptyIffAllSpace(w);
    } else if |parts| == 1 {
      var p := parts[0];
      assert ',' !in w + p;
      SplitNoSep(w + p, ',');
      TrimLeadingSpace(w, p);
      assert parts == [p];
    } else {
      var p := parts[0];
      var more := parts[1..];
      var rest := Join(more, ", ");
      var tail := Split(" " + rest, ',');
      assert Split(w + Join(parts, ", "), ',') == [w + p] + tail by {
        assert w + Join(parts, ", ") == (w + p) + [','] + (" " + rest);
        assert ',' !in w + p;
        SplitAtFirst(w + p, ',', " " + rest);
      }
      assert CleanPieces([w + p] + tail) == [p] + CleanPieces(tail) by {
        TrimLeadingSpace(w, p);
        assert ([w + p] + tail)[1..] == tail;
      }
      ListRoundTripAfter(" ", more);
      HeadTail(parts);
    }
  }

  /**
   * The key the autocomplete looks up (`onTagsInputChange`): `None` when the input is
   * blank or the text after the last comma is, otherwise that text trimmed.
   */
  function LookupKey(v: string): (r: Option<string>)
    ensures r.Some? ==> WellFormedTag(r.value)
  {
    if Trim(v) == [] then None
    else
      var pieces := Split(v, ',');
      var last := Trim(pieces[|pieces| - 1]);
      TrimChars(pieces[|pieces| - 1]);
      if last == [] then None else Some(last)
  }

  /** The key is exactly the trimmed text after the last comma; a blank key means no request. */
  lemma LookupKeyIsLastFragment(v: string)
    ensures var f := Trim(AfterLast(v, ','));
            LookupKey(v) == if f == [] then None else Some(f)
  {
    LastPieceAfterLast(v, ',');
    if Trim(v) == [] {
      BlankFragment(v);
    }
  }

  lemma BlankFragment(v: string)
    requires Trim(v) == []
    ensures Trim(AfterLast(v, ',')) == []
  {
    var a := AfterLast(v, ',');
    TrimEmptyIffAllSpace(v);
    AfterLastSuffix(v, ',');
    assert forall i :: 0 <= i < |a| ==> a[i] == v[|v| - |a| + i];
    TrimEmptyIffAllSpace(a);
  }

  /** The parts after `pickSuggestion(s)`: the existing parts, and `s` at the end when it was absent. */
  function PickedParts(input: string, s: string): seq<string> {
    var parts := TagList(input);
    if s in parts then parts else parts + [s]
  }

  /** `tagsInput` after `pickSuggestion(s)`: the picked parts joined with `", "`. */
  function PickedInput(input: string, s: string): string {
    Join(PickedParts(input, s), ", ")
  }

  /** For a well-formed suggestion, the new input lists the old tags in order, then `s` if it was missing. */
  lemma PickedInputTags(input: string, s: string)
    requires WellFormedTag(s)
    ensures TagList(PickedInput(input, s)) == PickedParts(input, s)
    ensures s in TagList(PickedInput(input, s))
  {
    var parts := TagList(input);
    var picked := PickedParts(input, s);
    assert forall i :: 0 <= i < |picked| ==> WellFormedTag(picked[i]) by {
      if s !in parts {
        assert picked == parts + [s];
      }
    }
    ListRoundTrip(picked);
    assert s in picked;
  }

  /** Picking the same well-formed suggestion twice leaves the input as picking it once. */
  lemma PickIdempotent(input: string, s: string)
    requires WellFormedTag(s)
    ensures PickedInput(PickedInput(input, s), s) == PickedInput(input, s)
  {
    PickedInputTags(input, s);
  }

  /** ArrowDown: `Math.min((i === -1 ? -1 : i) + 1, tagSuggestions.length - 1)`. */
  function HighlightDown(h: int, count: nat): (r: int)
    ensures count > 0 && h >= -1 ==> 0 <= r < count
    ensures count > 0 && -1 <= h < count - 1 ==> r == h + 1
    ensures count > 0 && h >= count - 1 ==> r == count - 1
  {
    var i := if h == -1 then -1 else h;
    if i + 1 < count - 1 then i + 1 else count - 1
  }

  /** ArrowUp as the source writes it: `Math.max(i - 1, 0)`. */
  function HighlightUpAsWritten(h: int): (r: int)
    ensures r >= 0
    ensures h >= 1 ==> r == h - 1
    ensures h <= 1 ==> r == 0
  {
    if h - 1 > 0 then h - 1 else 0
  }

  /** ArrowUp kept within the list: one up, but never above the first or below the last suggestion. */
  function HighlightUp(h: int, count: nat): (r: int)
    ensures count > 0 ==> 0 <= r < count
    ensures 1 <= h <= count ==> r == h - 1
    ensures count > 0 && h <= 1 ==> r == 0
    ensures count > 0 && h > count ==> r == count - 1
  {
    var up := HighlightUpAsWritten(h);
    if up < count - 1 then up else count - 1
  }

  /** The two agree whenever the highlight is no further than one past the list. */
  lemma HighlightUpAgrees(h: int, count: nat)
    requires 0 < count && h <= count
    ensures HighlightUp(h, count) == HighlightUpAsWritten(h)
  {
  }

  /**
   * Six suggestions are shown; the user types one more character (the
   * highlight resets, the six stay until the debounced answer comes) and moves
   * the highlight down to the last of them; the answer then lists two
   * suggestions. ArrowUp as written moves the highlight to 4, outside the
   * two-entry list; the corrected rule lands on the last suggestion.
   */
  lemma HighlightUpLeavesList()
    ensures HighlightDown(4, 6) == 5
    ensures HighlightUpAsWritten(5) == 4 && !(0 <= HighlightUpAsWritten(5) < 2)
    ensures HighlightUp(5, 2) == 1
  {
  }
}
