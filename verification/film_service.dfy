/**
 * `FilmService`: validates a film, fills in the defaults for genres and the
 * MPA rating, and checks that films and users exist before the film store
 * is changed.
 */
module FilmServices {
  import opened Wrappers
  import opened JavaText
  import opened Model
  import opened Seqs
  import opened Popularity
  import MpaRatings
  import FilmStorage
  import UserStorage

  /** The earliest release date accepted: 28 December 1895. */
  const MinReleaseDate: Date := Date(1895, 12, 28)
  const MaxDescriptionLength: nat := 200

  const NameMessage: string := "Название фильма не может быть пустым"
  const DescriptionMessage: string := "Описание не должно превышать 200 символов"
  const ReleaseDateMessage: string := "Дата релиза не раньше 28 декабря 1895 года"
  const DurationMessage: string := "Продолжительность должна быть положительным числом"

  predicate NameOk(f: Film)
  {
    f.name.Some? && !IsBlank(f.name.value)
  }

  /** A missing description is accepted; the limit counts UTF-16 code units. */
  predicate DescriptionOk(f: Film)
  {
    f.description.None? || Utf16Length(f.description.value) <= MaxDescriptionLength
  }

  predicate ReleaseDateOk(f: Film)
  {
    f.releaseDate.Some? && !IsBefore(f.releaseDate.value, MinReleaseDate)
  }

  predicate DurationOk(f: Film)
  {
    f.duration > 0
  }

  /** The film passes every rule the service enforces. */
  predicate IsValidFilm(f: Film)
  {
    NameOk(f) && DescriptionOk(f) && ReleaseDateOk(f) && DurationOk(f)
  }

  /** `validate`: passes exactly the valid films; otherwise the first broken
      rule, in the order name, description, release date, duration, decides
      the message. */
  function Validate(f: Film): (r: Outcome<Error>)
    ensures r.Pass? <==> IsValidFilm(f)
    ensures !NameOk(f) ==> r == Fail(ValidationException(NameMessage))
    ensures NameOk(f) && !DescriptionOk(f) ==> r == Fail(ValidationException(DescriptionMessage))
    ensures NameOk(f) && DescriptionOk(f) && !ReleaseDateOk(f) ==> r == Fail(ValidationException(ReleaseDateMessage))
    ensures NameOk(f) && DescriptionOk(f) && ReleaseDateOk(f) && !DurationOk(f) ==> r == Fail(ValidationException(DurationMessage))
  {
    if f.name.None? || IsBlank(f.name.value) then Fail(ValidationException(NameMessage))
    else if f.description.Some? && Utf16Length(f.description.value) > 200 then Fail(ValidationException(DescriptionMessage))
    else if f.releaseDate.None? || IsBefore(f.releaseDate.value, MinReleaseDate) then Fail(ValidationException(ReleaseDateMessage))
    else if f.duration <= 0 then Fail(ValidationException(DurationMessage))
    else Pass
  }

  /** The release-date rule is inclusive: the day of the first public
      screening passes, the day before does not. */
  lemma ReleaseDateBoundary(f: Film)
    ensures ReleaseDateOk(f.(releaseDate := Some(Date(1895, 12, 28))))
    ensures !ReleaseDateOk(f.(releaseDate := Some(Date(1895, 12, 27))))
    ensures !ReleaseDateOk(f.(releaseDate := None))
  {
  }

  /** A description of exactly 200 characters of the Basic Multilingual
      Plane passes; one more such character fails. */
  lemma DescriptionBoundary(f: Film, d: string, c: char)
    requires |d| == 200 && (forall i :: 0 <= i < |d| ==> d[i] as int <= 0xFFFF) && c as int <= 0xFFFF
    ensures DescriptionOk(f.(description := Some(d)))
    ensures !DescriptionOk(f.(description := Some(d + [c])))
  {
    assert forall i :: 0 <= i < |d + [c]| ==> (d + [c])[i] as int <= 0xFFFF;
  }

  /** The rating `initializeDefaults` puts on a film that has none: G. */
  function DefaultMpa(): (m: Mpa)
    ensures MpaRatings.FromId(m.id) == Success(MpaRatings.MpaRating.G)
    ensures m.name == Some(MpaRatings.MpaRating.G.NameWithDash())
  {
    MpaRatings.FromIdRoundTrip(MpaRatings.MpaRating.G);
    Mpa(MpaRatings.MpaRating.G.Id(), Some(MpaRatings.MpaRating.G.NameWithDash()))
  }

  /** `initializeDefaults`: a film without genres gets an empty genre set and
      a film without a rating gets G; a value already present is kept and
      nothing else changes. */
  function InitializeDefaults(f: Film): (r: Film)
    ensures r.genres.Some? && r.mpa.Some?
    ensures f.genres.Some? ==> r.genres == f.genres
    ensures f.genres.None? ==> r.genres == Some([])
    ensures f.mpa.Some? ==> r.mpa == f.mpa
    ensures f.mpa.None? ==> r.mpa == Some(DefaultMpa())
    ensures r.(genres := f.genres, mpa := f.mpa) == f
  {
    var withGenres := if f.genres.None? then f.(genres := Some([])) else f;
    if withGenres.mpa.None? then withGenres.(mpa := Some(DefaultMpa())) else withGenres
  }

  /** Filling in the defaults twice is filling them in once, and it never
      changes whether the film is valid. */
  lemma InitializeDefaultsIdempotent(f: Film)
    ensures InitializeDefaults(InitializeDefaults(f)) == InitializeDefaults(f)
    ensures Validate(InitializeDefaults(f)) == Validate(f)
  {
  }

  class FilmService {
    const filmStorage: FilmStorage.InMemoryFilmStorage
    const userStorage: UserStorage.InMemoryUserStorage

    ghost predicate Valid()
      reads this, filmStorage, userStorage
    {
      filmStorage.Valid() && userStorage.Valid()
    }

    constructor(films: FilmStorage.InMemoryFilmStorage, users: UserStorage.InMemoryUserStorage)
      ensures filmStorage == films && userStorage == users
    {
      filmStorage := films;
      userStorage := users;
    }

    /** `create`: a valid film is stored, with its defaults, under the next id;
        an invalid one is refused and nothing changes. */
    method Create(film: Film) returns (r: Result<Film, Error>)
      requires Valid()
      modifies filmStorage
      ensures Valid()
      ensures Validate(film).Fail? ==>
        r == Failure(Validate(film).error) && filmStorage.films == old(filmStorage.films)
        && filmStorage.idCounter == old(filmStorage.idCounter)
      ensures Validate(film).Pass? ==>
        && r == Success(InitializeDefaults(film).(id := old(filmStorage.idCounter)))
        && filmStorage.films == old(filmStorage.films)[r.value.id := r.value]
        && r.value.id !in old(filmStorage.films)
        && filmStorage.idCounter == old(filmStorage.idCounter) + 1
    {
      var v := Validate(film);
      if v.Fail? {
        return Failure(v.error);
      }
      var created := filmStorage.Create(InitializeDefaults(film));
      r := Success(created);
    }

    /** `update`: validation comes first, then the existence check; the stored
        record is replaced by the film with its defaults. */
    method Update(film: Film) returns (r: Result<Film, Error>)
      requires Valid()
      modifies filmStorage
      ensures Valid() && filmStorage.idCounter == old(filmStorage.idCounter)
      ensures Validate(film).Fail? ==> r == Failure(Validate(film).error) && filmStorage.films == old(filmStorage.films)
      ensures Validate(film).Pass? && film.id !in old(filmStorage.films) ==>
        r == Failure(NoSuchElementException(FilmStorage.FilmNotFoundMessage)) && filmStorage.films == old(filmStorage.films)
      ensures Validate(film).Pass? && film.id in old(filmStorage.films) ==>
        r == Success(InitializeDefaults(film)) && filmStorage.films == old(filmStorage.films)[film.id := InitializeDefaults(film)]
    {
      var v := Validate(film);
      if v.Fail? {
        return Failure(v.error);
      }
      var withDefaults := InitializeDefaults(film);
      var existing := filmStorage.GetById(withDefaults.id);
      if existing.None? {
        return Failure(NoSuchElementException(FilmStorage.FilmNotFoundMessage));
      }
      r := filmStorage.Update(withDefaults);
    }

    method FindAll() returns (r: seq<Film>)
      requires Valid()
      ensures Enumerates(r, filmStorage.films, filmStorage.films.Keys)
    {
      r := filmStorage.FindAll();
    }

    /** `getById`: the stored film, or NoSuchElementException. */
    method GetById(id: int) returns (r: Result<Film, Error>)
      requires Valid()
      ensures id in filmStorage.films <==> r.Success?
      ensures r.Success? ==> r.value == filmStorage.films[id]
      ensures r.Failure? ==> r.error == NoSuchElementException(FilmStorage.FilmNotFoundMessage)
    {
      var found := filmStorage.GetById(id);
      if found.None? {
        return Failure(NoSuchElementException(FilmStorage.FilmNotFoundMessage));
      }
      r := Success(found.value);
    }

    /** `addLike`: the film is looked up before the user; only when both
        exist does the film gain the like. */
    method AddLike(filmId: int, userId: int) returns (r: Outcome<Error>)
      requires Valid()
      modifies filmStorage
      ensures Valid() && filmStorage.idCounter == old(filmStorage.idCounter)
      ensures filmId !in old(filmStorage.films) ==>
        r == Fail(NoSuchElementException(FilmStorage.FilmNotFoundMessage)) && filmStorage.films == old(filmStorage.films)
      ensures filmId in old(filmStorage.films) && userId !in userStorage.users ==>
        r == Fail(NoSuchElementException(UserStorage.UserNotFoundMessage)) && filmStorage.films == old(filmStorage.films)
      ensures filmId in old(filmStorage.films) && userId in userStorage.users ==>
        r == Pass && filmStorage.films == FilmStorage.WithLike(old(filmStorage.films), filmId, userId)
    {
      var film := filmStorage.GetById(filmId);
      if film.None? {
        return Fail(NoSuchElementException(FilmStorage.FilmNotFoundMessage));
      }
      var user := userStorage.GetById(userId);
      if user.None? {
        return Fail(NoSuchElementException(UserStorage.UserNotFoundMessage));
      }
      filmStorage.AddLike(filmId, userId);
      r := Pass;
    }

    /** `removeLike`: the same checks as `addLike`, then the like is dropped. */
    method RemoveLike(filmId: int, userId: int) returns (r: Outcome<Error>)
      requires Valid()
      modifies filmStorage
      ensures Valid() && filmStorage.idCounter == old(filmStorage.idCounter)
      ensures filmId !in old(filmStorage.films) ==>
        r == Fail(NoSuchElementException(FilmStorage.FilmNotFoundMessage)) && filmStorage.films == old(filmStorage.films)
      ensures filmId in old(filmStorage.films) && userId !in userStorage.users ==>
        r == Fail(NoSuchElementException(UserStorage.UserNotFoundMessage)) && filmStorage.films == old(filmStorage.films)
      ensures filmId in old(filmStorage.films) && userId in userStorage.users ==>
        r == Pass && filmStorage.films == FilmStorage.WithoutLike(old(filmStorage.films), filmId, userId)
    {
      var film := filmStorage.GetById(filmId);
      if film.None? {
        return Fail(NoSuchElementException(FilmStorage.FilmNotFoundMessage));
      }
      var user := userStorage.GetById(userId);
      if user.None? {
        return Fail(NoSuchElementException(UserStorage.UserNotFoundMessage));
      }
      filmStorage.RemoveLike(filmId, userId);
      r := Pass;
    }

    /** `getPopularFilms`: handed to the store unchecked. */
    method GetPopularFilms(count: int) returns (r: Result<seq<Film>, Error>)
      requires Valid()
      ensures count < 0 <==> r == Failure(IllegalArgumentException)
      ensures count >= 0 ==> r.Success?
      ensures r.Success? ==>
        && |r.value| == (if count < |filmStorage.films| then count else |filmStorage.films|)
        && NoDuplicates(r.value)
        && (forall i :: 0 <= i < |r.value| ==> r.value[i].id in filmStorage.films && filmStorage.films[r.value[i].id] == r.value[i])
        && NonIncreasing(r.value)
        && (forall id, i :: id in filmStorage.films && filmStorage.films[id] !in r.value && 0 <= i < |r.value| ==>
              Likes(filmStorage.films[id]) <= Likes(r.value[i]))
    {
      r := filmStorage.GetPopularFilms(count);
    }
  }
}
