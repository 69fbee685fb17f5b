/** Lookup and removal by id over a list of movies: the client store's `findIndex` and
    `filter` by id, and the server's `WHERE id = $1` over the movies table, whose rows are
    kept in creation order. */
module MovieLists {
  import opened Wrappers
  import opened Models
  import opened Seqs

  /** `movies.findIndex(m => m.id === id)`, with `None` for -1. */
  function FindIndexById(ms: seq<Movie>, id: int): (k: Option<nat>)
    ensures k.Some? ==> k.value < |ms| && ms[k.value].id == id
    ensures k.Some? ==> forall j :: 0 <= j < k.value ==> ms[j].id != id
    ensures k.None? ==> forall j :: 0 <= j < |ms| ==> ms[j].id != id
  {
    if ms == [] then None
    else if ms[0].id == id then Some(0)
    else
      match FindIndexById(ms[1..], id)
      case None => None
      case Some(k) => Some(k + 1)
  }

  /** Overwriting an entry with one of the same id keeps it the first with that id. */
  lemma FindIndexAfterWrite(ms: seq<Movie>, k: nat, x: Movie)
    requires FindIndexById(ms, x.id) == Some(k)
    ensures FindIndexById(ms[k := x], x.id) == Some(k)
  {
    var ms' := ms[k := x];
    assert ms'[k].id == x.id;
    assert forall j :: 0 <= j < k ==> ms'[j] == ms[j];
    var r := FindIndexById(ms', x.id);
    assert r.Some?;
    assert !(r.value < k) && !(r.value > k);
  }

  function KeepOtherId(id: int): Movie -> bool
  {
    (m: Movie) => m.id != id
  }

  /** The movies whose id differs from the given one, in their original order. */
  function WithoutId(ms: seq<Movie>, id: int): seq<Movie>
  {
    Filter(ms, KeepOtherId(id))
  }

  /** Deleting by id keeps exactly the movies with another id, and none with that id is left. */
  lemma WithoutIdContents(ms: seq<Movie>, id: int, x: Movie)
    ensures x in WithoutId(ms, id) <==> x in ms && x.id != id
    ensures FindIndexById(WithoutId(ms, id), id).None?
  {
    FilterMembership(ms, KeepOtherId(id), x);
  }

  /** Deleting by id keeps the order of the rest and splits over concatenation. */
  lemma WithoutIdConcat(a: seq<Movie>, b: seq<Movie>, id: int)
    ensures WithoutId(a + b, id) == WithoutId(a, id) + WithoutId(b, id)
  {
    FilterConcat(a, b, KeepOtherId(id));
  }

  /** A list with no movie of that id is left as it is by a delete. */
  lemma WithoutAbsentId(ms: seq<Movie>, id: int)
    requires FindIndexById(ms, id).None?
    ensures WithoutId(ms, id) == ms
  {
    FilterAllPass(ms, KeepOtherId(id));
  }
}
