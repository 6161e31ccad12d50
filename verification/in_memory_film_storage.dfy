/**
 * `InMemoryFilmStorage`: films in a hash map keyed by id, ids drawn from a
 * counter, and each film's likes kept as a set of user ids inside the film.
 */
module FilmStorage {
  import opened Wrappers
  import opened Model
  import opened Seqs
  import opened Popularity

  const FilmNotFoundMessage: string := "Фильм с таким id не найден"

  /** The film map after `addLike(filmId, userId)`. */
  function WithLike(films: map<int, Film>, filmId: int, userId: int): (r: map<int, Film>)
    ensures r.Keys == films.Keys
    ensures forall id :: id in films && id != filmId ==> r[id] == films[id]
    ensures filmId in films ==> r[filmId] == films[filmId].(likes := films[filmId].likes + {userId})
  {
    if filmId in films then films[filmId := films[filmId].(likes := films[filmId].likes + {userId})]
    else films
  }

  /** The film map after `removeLike(filmId, userId)`. */
  function WithoutLike(films: map<int, Film>, filmId: int, userId: int): (r: map<int, Film>)
    ensures r.Keys == films.Keys
    ensures forall id :: id in films && id != filmId ==> r[id] == films[id]
    ensures filmId in films ==> r[filmId] == films[filmId].(likes := films[filmId].likes - {userId})
  {
    if filmId in films then films[filmId := films[filmId].(likes := films[filmId].likes - {userId})]
    else films
  }

  /** A like is a set member, not a counter: liking twice is liking once,
      and one removal then undoes it. */
  lemma LikeIsSetMembership(films: map<int, Film>, f: int, u: int)
    requires f in films
    ensures WithLike(WithLike(films, f, u), f, u) == WithLike(films, f, u)
    ensures u in WithLike(films, f, u)[f].likes
    ensures u !in WithoutLike(WithLike(WithLike(films, f, u), f, u), f, u)[f].likes
    ensures |WithLike(films, f, u)[f].likes| == |films[f].likes| + (if u in films[f].likes then 0 else 1)
  {
    var likes := films[f].likes;
    if u in likes {
      assert likes + {u} == likes;
    } else {
      assert |likes + {u}| == |likes| + |{u}|;
    }
  }

  /** Removing a like that is not there, or from a film that is not there,
      changes nothing. */
  lemma RemoveAbsentLikeIsNoOp(films: map<int, Film>, f: int, u: int)
    requires f !in films || u !in films[f].likes
    ensures WithoutLike(films, f, u) == films
  {
    if f in films {
      assert films[f].likes - {u} == films[f].likes;
      assert films[f].(likes := films[f].likes) == films[f];
    }
  }

  class InMemoryFilmStorage {
    var films: map<int, Film>
    var idCounter: int

    /** Every film is stored under its own id, and every id is below the counter. */
    ghost predicate Valid()
      reads this
    {
      && idCounter >= 1
      && forall id :: id in films ==> 1 <= id < idCounter && films[id].id == id
    }

    constructor()
      ensures Valid()
      ensures films == map[] && idCounter == 1
    {
      films := map[];
      idCounter := 1;
    }

    /** `create`: the film gets the next id, overwriting any id it came with. */
    method Create(film: Film) returns (r: Film)
      requires Valid()
      modifies this
      ensures Valid()
      ensures r == film.(id := old(idCounter))
      ensures forall id :: id in old(films) ==> id < r.id
      ensures films == old(films)[r.id := r]
      ensures idCounter == old(idCounter) + 1
    {
      r := film.(id := idCounter);
      idCounter := idCounter + 1;
      films := films[r.id := r];
    }

    /** `update`: replaces the whole record stored under the film's id. */
    method Update(film: Film) returns (r: Result<Film, Error>)
      requires Valid()
      modifies this
      ensures Valid() && idCounter == old(idCounter)
      ensures film.id !in old(films) ==> r == Failure(NoSuchElementException(FilmNotFoundMessage)) && films == old(films)
      ensures film.id in old(films) ==> r == Success(film) && films == old(films)[film.id := film]
    {
      if film.id !in films {
        return Failure(NoSuchElementException(FilmNotFoundMessage));
      }
      films := films[film.id := film];
      r := Success(film);
    }

    /** `getById`. */
    method GetById(id: int) returns (r: Option<Film>)
      requires Valid()
      ensures r.Some? <==> id in films
      ensures r.Some? ==> r.value == films[id] && r.value.id == id
    {
      r := if id in films then Some(films[id]) else None;
    }

    /** `findAll`: every stored film once, in hash order. */
    method FindAll() returns (r: seq<Film>)
      requires Valid()
      ensures Enumerates(r, films, films.Keys)
    {
      KeyedByIdIsInjective(films, (x: Film) => x.id);
      r := SelectValues(films, films.Keys);
      assert films.Keys * films.Keys == films.Keys;
    }

    /** `addLike`: no check that the user exists at this layer. */
    method AddLike(filmId: int, userId: int)
      requires Valid()
      modifies this
      ensures Valid() && idCounter == old(idCounter)
      ensures films == WithLike(old(films), filmId, userId)
    {
      if filmId in films {
        var film := films[filmId];
        films := films[filmId := film.(likes := film.likes + {userId})];
      }
    }

    method RemoveLike(filmId: int, userId: int)
      requires Valid()
      modifies this
      ensures Valid() && idCounter == old(idCounter)
      ensures films == WithoutLike(old(films), filmId, userId)
    {
      if filmId in films {
        var film := films[filmId];
        films := films[filmId := film.(likes := film.likes - {userId})];
      }
    }

    /**
     * `getPopularFilms`: `min(count, number of films)` distinct stored films,
     * most liked first, and no film left out has more likes than one
     * returned. A negative count makes `Stream.limit` throw.
     */
    method GetPopularFilms(count: int) returns (r: Result<seq<Film>, Error>)
      requires Valid()
      ensures count < 0 ==> r == Failure(IllegalArgumentException)
      ensures count >= 0 ==> r.Success?
      ensures r.Success? ==>
        && |r.value| == (if count < |films| then count else |films|)
        && NoDuplicates(r.value)
        && (forall i :: 0 <= i < |r.value| ==> r.value[i].id in films && films[r.value[i].id] == r.value[i])
        && NonIncreasing(r.value)
        && (forall id, i :: id in films && films[id] !in r.value && 0 <= i < |r.value| ==>
              Likes(films[id]) <= Likes(r.value[i]))
    {
      if count < 0 {
        return Failure(IllegalArgumentException);
      }
      var all := FindAll();
      var top := Top(all, count);
      TopNoDuplicates(all, count);
      forall i | 0 <= i < |top| ensures top[i].id in films && films[top[i].id] == top[i] {
        assert top[i] in multiset(all);
        var k :| k in films && films[k] == top[i];
      }
      r := Success(top);
    }
  }
}
