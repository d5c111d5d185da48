/**
 * The favourites list of the client: `isFavorite` tests for an entry with a
 * given id, and the `toggleFavorite` updater either removes every entry with
 * the track's id or puts the track in front.
 */
module Favorites {
  import opened Catalog

  /** `favorites.some(t => t.id === id)`. */
  function HasId(favs: seq<Track>, id: int): (r: bool)
    ensures r <==> exists i :: 0 <= i < |favs| && favs[i].id == id
  {
    if favs == [] then false
    else favs[0].id == id || HasId(favs[1..], id)
  }

  /** `favorites.filter(t => t.id !== id)`. */
  function WithoutId(favs: seq<Track>, id: int): (r: seq<Track>)
    ensures |r| <= |favs|
    ensures !HasId(r, id)
    ensures forall t :: t in r <==> t in favs && t.id != id
  {
    if favs == [] then []
    else if favs[0].id == id then WithoutId(favs[1..], id)
    else [favs[0]] + WithoutId(favs[1..], id)
  }

  /** The favourites after `toggleFavorite(track)`. */
  function Toggle(favs: seq<Track>, track: Track): seq<Track> {
    if HasId(favs, track.id) then WithoutId(favs, track.id) else [track] + favs
  }

  /** No two entries share an id. */
  predicate UniqueIds(favs: seq<Track>) {
    forall i, j :: 0 <= i < j < |favs| ==> favs[i].id != favs[j].id
  }

  /** Removing an id that is not there leaves the list as it was. */
  lemma {:induction false} WithoutAbsentId(favs: seq<Track>, id: int)
    requires !HasId(favs, id)
    ensures WithoutId(favs, id) == favs
  {
    if favs != [] {
      WithoutAbsentId(favs[1..], id);
      assert [favs[0]] + favs[1..] == favs;
    }
  }

  /** `WithoutId` keeps the order of the remaining entries: it is an order-preserving filter. */
  lemma {:induction false} WithoutIdAppend(a: seq<Track>, b: seq<Track>, id: int)
    ensures WithoutId(a + b, id) == WithoutId(a, id) + WithoutId(b, id)
  {
    if a == [] {
      assert a + b == b;
    } else {
      assert (a + b)[1..] == a[1..] + b;
      WithoutIdAppend(a[1..], b, id);
    }
  }

  /** Toggling flips whether the track's id is a favourite, and no other id's. */
  lemma ToggleFlips(favs: seq<Track>, track: Track, id: int)
    ensures HasId(Toggle(favs, track), track.id) == !HasId(favs, track.id)
    ensures id != track.id ==> HasId(Toggle(favs, track), id) == HasId(favs, id)
  {
    var r := Toggle(favs, track);
    if id != track.id && HasId(favs, track.id) {
      if HasId(favs, id) {
        var i :| 0 <= i < |favs| && favs[i].id == id;
        assert favs[i] in r;
      }
    }
  }

  /** Toggling a track that is not a favourite, then toggling it again, restores the list. */
  lemma ToggleTwiceAbsent(favs: seq<Track>, track: Track)
    requires !HasId(favs, track.id)
    ensures Toggle(Toggle(favs, track), track) == favs
  {
    var once := [track] + favs;
    assert HasId(once, track.id) by { assert once[0].id == track.id; }
    assert once[1..] == favs;
    WithoutAbsentId(favs, track.id);
  }

  /** Toggling a favourite off and on again brings the given version of the track to the front. */
  lemma ToggleTwicePresent(favs: seq<Track>, track: Track)
    requires HasId(favs, track.id)
    ensures Toggle(Toggle(favs, track), track) == [track] + WithoutId(favs, track.id)
  {
  }

  /** Toggling keeps the ids of the favourites distinct. */
  lemma ToggleKeepsUnique(favs: seq<Track>, track: Track)
    requires UniqueIds(favs)
    ensures UniqueIds(Toggle(favs, track))
  {
    if HasId(favs, track.id) {
      WithoutIdUnique(favs, track.id);
    } else {
      var r := [track] + favs;
      forall i, j | 0 <= i < j < |r|
        ensures r[i].id != r[j].id
      {
        if i == 0 {
          assert r[j] == favs[j - 1];
        } else {
          assert r[i] == favs[i - 1] && r[j] == favs[j - 1];
        }
      }
    }
  }

  lemma {:induction false} WithoutIdUnique(favs: seq<Track>, id: int)
    requires UniqueIds(favs)
    ensures UniqueIds(WithoutId(favs, id))
  {
    if favs != [] {
      var tail := favs[1..];
      assert UniqueIds(tail) by {
        forall i, j | 0 <= i < j < |tail|
          ensures tail[i].id != tail[j].id
        {
          assert tail[i] == favs[i + 1] && tail[j] == favs[j + 1];
        }
      }
      WithoutIdUnique(tail, id);
      if favs[0].id != id {
        var rest := WithoutId(tail, id);
        var r := [favs[0]] + rest;
        assert !HasId(tail, favs[0].id) by {
          forall k | 0 <= k < |tail|
            ensures tail[k].id != favs[0].id
          {
            assert tail[k] == favs[k + 1];
          }
        }
        forall i, j | 0 <= i < j < |r|
          ensures r[i].id != r[j].id
        {
          assert r[j] == rest[j - 1];
          assert r[j] in tail;
          if i > 0 {
            assert r[i] == rest[i - 1];
          }
        }
      }
    }
  }
}
