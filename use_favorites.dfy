/** The lookups of the `useFavorites` hook (client/src/hooks/useFavorites.ts) over the
    favourites map from movie id to flag. */
module UseFavorites {
  /** `favorites[movieId] || false`. */
  function IsFavorite(favorites: map<int, bool>, movieId: int): (r: bool)
    ensures r <==> movieId in favorites && favorites[movieId]
    ensures movieId !in favorites ==> !r
  {
    if movieId in favorites then favorites[movieId] else false
  }

  /** The ids whose stored flag is true. */
  function TrueIds(favorites: map<int, bool>): set<int>
  {
    set id | id in favorites && favorites[id]
  }

  lemma {:induction false} LeastExists(s: set<int>)
    requires s != {}
    ensures exists k :: k in s && forall j :: j in s ==> k <= j
  {
    if forall y :: y !in s {
      assert false;
    }
    var x :| x in s;
    var rest := s - {x};
    if rest == {} {
      forall j | j in s ensures x <= j {
        assert j !in rest;
      }
    } else {
      LeastExists(rest);
      var k :| k in rest && forall j :: j in rest ==> k <= j;
      var m := if x < k then x else k;
      forall j | j in s ensures m <= j {
        if j != x { assert j in rest; }
      }
      assert m in s;
    }
  }

  /** The members of a finite set of ids in increasing order. */
  ghost function Ascending(s: set<int>): (r: seq<int>)
    ensures forall i, j :: 0 <= i < j < |r| ==> r[i] < r[j]
    ensures forall x :: x in r <==> x in s
    decreases |s|
  {
    if s == {} then []
    else
      LeastExists(s);
      var k :| k in s && forall j :: j in s ==> k <= j;
      [k] + Ascending(s - {k})
  }

  /** The integer keys `Object.keys` lists first, in increasing order: the array indices
      0 <= k < 2^32 - 1. Any other key follows them, in insertion order. */
  predicate IsArrayIndex(id: int)
  {
    0 <= id < 0xFFFF_FFFF
  }

  /** `getFavoriteIds`: the keys with a true flag, each once, the array-index keys first and
      in increasing order. A map holds no insertion order, so the model lists the remaining
      keys in increasing order too, but promises only that they come last. */
  ghost function GetFavoriteIds(favorites: map<int, bool>): (r: seq<int>)
    ensures forall id :: id in r <==> id in favorites && favorites[id]
    ensures forall i, j :: 0 <= i < j < |r| ==> r[i] != r[j]
    ensures forall i, j :: 0 <= i < j < |r| && IsArrayIndex(r[j]) ==> IsArrayIndex(r[i]) && r[i] < r[j]
  {
    var indices := Ascending(set id | id in TrueIds(favorites) && IsArrayIndex(id));
    var others := Ascending(set id | id in TrueIds(favorites) && !IsArrayIndex(id));
    var r := indices + others;
    forall i | 0 <= i < |r|
      ensures IsArrayIndex(r[i]) <==> i < |indices|
    {
      if i < |indices| {
        assert r[i] == indices[i] && indices[i] in indices;
      } else {
        assert r[i] == others[i - |indices|] && others[i - |indices|] in others;
      }
    }
    r
  }

  /** The listed ids are exactly the ids `isFavorite` accepts. */
  lemma FavoriteIdsAgreeWithIsFavorite(favorites: map<int, bool>, id: int)
    ensures id in GetFavoriteIds(favorites) <==> IsFavorite(favorites, id)
  {
  }

  /** Movie ids are array indices, and then the whole list is in increasing order. */
  lemma FavoriteIdsAscending(favorites: map<int, bool>)
    requires forall id :: id in favorites ==> IsArrayIndex(id)
    ensures forall i, j :: 0 <= i < j < |GetFavoriteIds(favorites)| ==>
              GetFavoriteIds(favorites)[i] < GetFavoriteIds(favorites)[j]
  {
    var r := GetFavoriteIds(favorites);
    forall i, j | 0 <= i < j < |r| ensures r[i] < r[j] {
      assert r[j] in r;
    }
  }

  /** Clearing a flag removes exactly that id from the list. */
  lemma UnflagRemovesId(favorites: map<int, bool>, movieId: int, id: int)
    ensures id in GetFavoriteIds(favorites[movieId := false]) <==> id != movieId && id in GetFavoriteIds(favorites)
  {
  }
}
