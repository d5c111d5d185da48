/**
 * The read-only queries of the server: the tag autocomplete list
 * (`TagListView`: by name, optionally filtered by a case-insensitive
 * substring, at most 50) and the top tracks (`TopTracksView`: by
 * `times_selected`, highest first, at most 10), and the candidate tracks
 * `GenerateMixView` picks from the tokens of a prompt.
 */
module Queries {
  import opened Wrappers
  import opened Text
  import opened Tables

  // ---------------------------------------------------------------------------
  // Ordering and sorting

  /** The order an `order_by` uses: `le(a, b)` when `a` may come before `b`. */
  ghost predicate TotalPreorder<T(!new)>(le: (T, T) -> bool) {
    (forall a, b :: le(a, b) || le(b, a)) &&
    (forall a, b, c :: le(a, b) && le(b, c) ==> le(a, c))
  }

  predicate SortedBy<T>(s: seq<T>, le: (T, T) -> bool) {
    forall i, j :: 0 <= i < j < |s| ==> le(s[i], s[j])
  }

  /** Puts `x` into a sorted sequence: in front of the first element it may precede. */
  function Insert<T>(x: T, s: seq<T>, le: (T, T) -> bool): (r: seq<T>)
    ensures multiset(r) == multiset(s) + multiset{x}
  {
    if s == [] then [x]
    else if le(x, s[0]) then [x] + s
    else
      assert s == [s[0]] + s[1..];
      [s[0]] + Insert(x, s[1..], le)
  }

  lemma SortedTail<T>(s: seq<T>, le: (T, T) -> bool)
    requires s != [] && SortedBy(s, le)
    ensures SortedBy(s[1..], le)
  {
    var tail := s[1..];
    forall i, j | 0 <= i < j < |tail| ensures le(tail[i], tail[j]) {
      assert tail[i] == s[i + 1] && tail[j] == s[j + 1];
    }
  }

  /** A sequence is sorted when its head precedes every later element and its tail is sorted. */
  lemma SortedCons<T>(x: T, s: seq<T>, le: (T, T) -> bool)
    requires SortedBy(s, le)
    requires forall y :: y in s ==> le(x, y)
    ensures SortedBy([x] + s, le)
  {
    var r := [x] + s;
    forall i, j | 0 <= i < j < |r| ensures le(r[i], r[j]) {
      assert r[j] == s[j - 1];
      if i > 0 {
        assert r[i] == s[i - 1];
      }
    }
  }

  /** Inserting into a sorted sequence keeps it sorted. */
  lemma {:induction false} InsertSorted<T(!new)>(x: T, s: seq<T>, le: (T, T) -> bool)
    requires TotalPreorder(le) && SortedBy(s, le)
    ensures SortedBy(Insert(x, s, le), le)
  {
    if s == [] {
    } else if le(x, s[0]) {
      forall y | y in s ensures le(x, y) {
        var k :| 0 <= k < |s| && s[k] == y;
        if k > 0 {
          assert le(s[0], s[k]);
        }
      }
      SortedCons(x, s, le);
    } else {
      var tail := s[1..];
      SortedTail(s, le);
      InsertSorted(x, tail, le);
      var rest := Insert(x, tail, le);
      forall y | y in rest ensures le(s[0], y) {
        assert y in multiset(rest);
        if y != x {
          assert y in multiset(tail);
          var k :| 0 <= k < |tail| && tail[k] == y;
          assert s[k + 1] == y;
        }
      }
      SortedCons(s[0], rest, le);
    }
  }

  /** Insertion sort: a sorted permutation of `s`. */
  function Sort<T(!new)>(s: seq<T>, le: (T, T) -> bool): (r: seq<T>)
    requires TotalPreorder(le)
    ensures SortedBy(r, le)
    ensures multiset(r) == multiset(s)
  {
    if s == [] then []
    else
      assert s == [s[0]] + s[1..];
      var rest := Sort(s[1..], le);
      InsertSorted(s[0], rest, le);
      Insert(s[0], rest, le)
  }

  /** `qs[:k]`: the first `k` rows, or all of them when there are fewer. */
  function Take<T>(s: seq<T>, k: nat): (r: seq<T>)
    ensures |r| == if |s| < k then |s| else k
    ensures r <= s
  {
    if |s| < k then s else s[..k]
  }

  /**
   * The first `k` of the sorted rows: sorted, at most `k` of them, all taken from
   * `s`, and every row of `s` left out comes no earlier than any row kept.
   */
  lemma {:induction false} TopOfSorted<T(!new)>(s: seq<T>, k: nat, le: (T, T) -> bool)
    requires TotalPreorder(le)
    ensures var r := Take(Sort(s, le), k);
            |r| == (if |s| < k then |s| else k) &&
            SortedBy(r, le) &&
            multiset(r) <= multiset(s) &&
            (forall t :: t in r ==> t in s) &&
            (forall t :: t in s && t !in r ==> |r| == k && forall u :: u in r ==> le(u, t))
  {
    var sorted := Sort(s, le);
    var r := Take(sorted, k);
    assert |sorted| == |s| by {
      assert |multiset(sorted)| == |multiset(s)|;
    }
    assert sorted == r + sorted[|r|..];
    assert multiset(sorted) == multiset(r) + multiset(sorted[|r|..]);
    forall t | t in r ensures t in s {
      assert t in multiset(sorted);
    }
    forall t | t in s && t !in r
      ensures |r| == k && forall u :: u in r ==> le(u, t)
    {
      assert t in multiset(sorted);
      var j :| 0 <= j < |sorted| && sorted[j] == t;
      assert j >= |r|;
      forall u | u in r ensures le(u, t) {
        var i :| 0 <= i < |r| && r[i] == u;
        assert sorted[i] == u;
      }
    }
  }

  /** Lexicographic order on character codes: the order of `order_by('name')`. */
  predicate LexLe(a: string, b: string) {
    a == [] || (b != [] && (a[0] < b[0] || (a[0] == b[0] && LexLe(a[1..], b[1..]))))
  }

  lemma {:induction false} LexTotal(a: string, b: string)
    ensures LexLe(a, b) || LexLe(b, a)
  {
    if a != [] && b != [] && a[0] == b[0] {
      LexTotal(a[1..], b[1..]);
    }
  }

  lemma {:induction false} LexTransitive(a: string, b: string, c: string)
    requires LexLe(a, b) && LexLe(b, c)
    ensures LexLe(a, c)
  {
    if a != [] && b != [] && c != [] && a[0] == b[0] && b[0] == c[0] {
      LexTransitive(a[1..], b[1..], c[1..]);
    }
  }

  /** Two names each no later than the other are the same name. */
  lemma {:induction false} LexAntisymmetric(a: string, b: string)
    requires LexLe(a, b) && LexLe(b, a)
    ensures a == b
  {
    if a != [] && b != [] {
      LexAntisymmetric(a[1..], b[1..]);
      assert a == [a[0]] + a[1..] && b == [b[0]] + b[1..];
    }
  }

  function ByName(): (le: (string, string) -> bool)
    ensures TotalPreorder(le)
    ensures forall a, b :: le(a, b) <==> LexLe(a, b)
  {
    var le := (a: string, b: string) => LexLe(a, b);
    assert TotalPreorder(le) by {
      forall a: string, b: string ensures le(a, b) || le(b, a) {
        LexTotal(a, b);
      }
      forall a: string, b: string, c: string | le(a, b) && le(b, c) ensures le(a, c) {
        LexTransitive(a, b, c);
      }
    }
    le
  }

  /** `order_by('-times_selected')`: more often selected first. */
  function MostSelectedFirst(): (le: (TrackRow, TrackRow) -> bool)
    ensures TotalPreorder(le)
    ensures forall a, b :: le(a, b) <==> a.timesSelected >= b.timesSelected
  {
    (a: TrackRow, b: TrackRow) => a.timesSelected >= b.timesSelected
  }

  // ---------------------------------------------------------------------------
  // TagListView

  /** `name__icontains=q`, with ASCII case folding. */
  predicate ContainsIgnoringCase(name: string, q: string) {
    IsInfix(Lower(q), Lower(name))
  }

  /** Whether `if q: qs = qs.filter(name__icontains=q)` keeps a name; an absent or empty `q` keeps all. */
  predicate Kept(name: string, q: Option<string>) {
    q == None || q == Some("") || ContainsIgnoringCase(name, q.value)
  }

  /** The names the filter keeps, in table order. */
  function FilterNames(names: seq<string>, q: Option<string>): (r: seq<string>)
    ensures forall x :: x in r <==> x in names && Kept(x, q)
    ensures |r| <= |names|
    ensures multiset(r) <= multiset(names)
  {
    if names == [] then []
    else
      var rest := FilterNames(names[1..], q);
      assert names == [names[0]] + names[1..];
      if Kept(names[0], q) then [names[0]] + rest
      else rest
  }

  /** `TagListView.list`: the names of the tags, by name, filtered by `q`, the first 50. */
  function TagListQuery(names: seq<string>, q: Option<string>): seq<string> {
    Take(Sort(FilterNames(names, q), ByName()), 50)
  }

  /**
   * The tag list holds at most 50 names, in name order, each a stored tag that
   * matches `q`; and every matching tag left out comes after all of those shown.
   */
  lemma TagListQueryMeaning(names: seq<string>, q: Option<string>)
    ensures var r := TagListQuery(names, q);
            |r| <= 50 &&
            (forall i, j :: 0 <= i < j < |r| ==> LexLe(r[i], r[j])) &&
            multiset(r) <= multiset(names) &&
            (forall x :: x in r ==> x in names && Kept(x, q)) &&
            (forall x :: x in names && Kept(x, q) && x !in r ==>
               |r| == 50 && forall y :: y in r ==> LexLe(y, x))
  {
    var f := FilterNames(names, q);
    TopOfSorted(f, 50, ByName());
    var r := TagListQuery(names, q);
    assert forall x :: x in names && Kept(x, q) ==> x in f;
  }

  // ---------------------------------------------------------------------------
  // TopTracksView

  /** `Track.objects.order_by('-times_selected')[:10]`. */
  function TopTracks(tracks: seq<TrackRow>): seq<TrackRow> {
    Take(Sort(tracks, MostSelectedFirst()), 10)
  }

  /**
   * At most ten tracks, highest `times_selected` first, all of them stored; a
   * stored track left out was selected no more often than any track shown.
   */
  lemma TopTracksMeaning(tracks: seq<TrackRow>)
    ensures var r := TopTracks(tracks);
            |r| == (if |tracks| < 10 then |tracks| else 10) &&
            (forall i, j :: 0 <= i < j < |r| ==> r[i].timesSelected >= r[j].timesSelected) &&
            multiset(r) <= multiset(tracks) &&
            (forall t :: t in r ==> t in tracks) &&
            (forall t :: t in tracks && t !in r ==> forall u :: u in r ==> u.timesSelected >= t.timesSelected)
  {
    TopOfSorted(tracks, 10, MostSelectedFirst());
  }

  // ---------------------------------------------------------------------------
  // GenerateMixView: candidates

  /** The ids in `Tag.objects.filter(name__in=tokens)`. */
  function MatchedTagIds(tags: seq<TagRow>, tokens: seq<string>): (r: set<nat>)
    ensures forall id :: id in r <==> exists i :: 0 <= i < |tags| && tags[i].id == id && tags[i].name in tokens
  {
    if tags == [] then {}
    else
      var rest := MatchedTagIds(tags[1..], tokens);
      assert forall i :: 0 < i < |tags| ==> tags[i] == tags[1..][i - 1];
      if tags[0].name in tokens then {tags[0].id} + rest else rest
  }

  /** The tracks linked to at least one of `tagIds`, in table order, each once. */
  function TracksWithAnyTag(tracks: seq<TrackRow>, tagIds: set<nat>): (r: seq<TrackRow>)
    ensures forall t :: t in r <==> t in tracks && t.tagIds * tagIds != {}
    ensures |r| <= |tracks|
  {
    if tracks == [] then []
    else
      var rest := TracksWithAnyTag(tracks[1..], tagIds);
      assert tracks == [tracks[0]] + tracks[1..];
      if tracks[0].tagIds * tagIds != {} then [tracks[0]] + rest else rest
  }

  /**
   * The candidate tracks: those tagged with a tag named by a token, or every
   * track when no token names a tag.
   */
  function Candidates(tracks: seq<TrackRow>, tags: seq<TagRow>, tokens: seq<string>): (r: seq<TrackRow>)
    ensures var m := MatchedTagIds(tags, tokens);
            forall t :: t in r <==> t in tracks && (m == {} || t.tagIds * m != {})
  {
    var m := MatchedTagIds(tags, tokens);
    if m != {} then TracksWithAnyTag(tracks, m) else tracks
  }

  lemma IncreasingTail(tracks: seq<TrackRow>)
    requires tracks != [] && IncreasingTrackIds(tracks)
    ensures IncreasingTrackIds(tracks[1..])
    ensures forall t :: t in tracks[1..] ==> tracks[0].id < t.id
  {
    var tail := tracks[1..];
    forall i, j | 0 <= i < j < |tail| ensures tail[i].id < tail[j].id {
      assert tail[i] == tracks[i + 1] && tail[j] == tracks[j + 1];
    }
    forall t | t in tail ensures tracks[0].id < t.id {
      var k :| 0 <= k < |tail| && tail[k] == t;
      assert tracks[k + 1] == t;
    }
  }

  lemma IncreasingCons(t: TrackRow, rest: seq<TrackRow>)
    requires IncreasingTrackIds(rest)
    requires forall u :: u in rest ==> t.id < u.id
    ensures IncreasingTrackIds([t] + rest)
  {
    var r := [t] + rest;
    forall i, j | 0 <= i < j < |r| ensures r[i].id < r[j].id {
      assert r[j] == rest[j - 1];
      if i > 0 {
        assert r[i] == rest[i - 1];
      }
    }
  }

  /** Filtering keeps the table order, so the candidates keep strictly increasing ids. */
  lemma {:induction false} TracksWithAnyTagIncreasing(tracks: seq<TrackRow>, tagIds: set<nat>)
    requires IncreasingTrackIds(tracks)
    ensures IncreasingTrackIds(TracksWithAnyTag(tracks, tagIds))
  {
    if tracks != [] {
      var tail := tracks[1..];
      IncreasingTail(tracks);
      TracksWithAnyTagIncreasing(tail, tagIds);
      if tracks[0].tagIds * tagIds != {} {
        IncreasingCons(tracks[0], TracksWithAnyTag(tail, tagIds));
      }
    }
  }

  /**
   * As written, a token naming a tag that no remaining track carries (its tracks
   * were deleted; tags stay) selects no candidate although tracks exist, and the
   * view answers "no tracks uploaded".
   */
  lemma UnlinkedTagHidesLibrary()
    ensures var t := TrackRow(2, "Song", FileRef("song.mp3"), None, 0, {});
            Candidates([t], [TagRow(1, "calm")], ["calm"]) == []
  {
    var t := TrackRow(2, "Song", FileRef("song.mp3"), None, 0, {});
    var m := MatchedTagIds([TagRow(1, "calm")], ["calm"]);
    assert 1 in m;
    assert t !in Candidates([t], [TagRow(1, "calm")], ["calm"]);
  }

  /**
   * The candidates as the fallback intends them: the tagged tracks when there are
   * any, otherwise the whole library.
   */
  function CandidatesOrAll(tracks: seq<TrackRow>, tags: seq<TagRow>, tokens: seq<string>): (r: seq<TrackRow>)
    ensures forall t :: t in r ==> t in tracks
    ensures r == [] <==> tracks == []
  {
    var c := Candidates(tracks, tags, tokens);
    if c == [] then tracks else c
  }

  /** The candidates keep the table order, hence its strictly increasing ids. */
  lemma CandidatesOrAllIncreasing(tracks: seq<TrackRow>, tags: seq<TagRow>, tokens: seq<string>)
    requires IncreasingTrackIds(tracks)
    ensures IncreasingTrackIds(CandidatesOrAll(tracks, tags, tokens))
  {
    TracksWithAnyTagIncreasing(tracks, MatchedTagIds(tags, tokens));
  }

  /** Wherever the written rule finds a candidate, the corrected rule agrees with it. */
  lemma CandidatesOrAllAgrees(tracks: seq<TrackRow>, tags: seq<TagRow>, tokens: seq<string>)
    requires Candidates(tracks, tags, tokens) != []
    ensures CandidatesOrAll(tracks, tags, tokens) == Candidates(tracks, tags, tokens)
  {
  }
}
