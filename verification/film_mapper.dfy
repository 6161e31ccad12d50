/**
 * `mapper/FilmMapper.java`: builds a film from a request (MPA id looked up
 * in the rating table, genre ids turned into genre references) and a
 * response from a film.
 */
module FilmMappers {
  import opened Wrappers
  import opened Model
  import opened Seqs
  import opened Dto
  import MpaRatings
  import GenreMappers

  /** The rating reference built from a table entry. */
  function MpaOf(rating: MpaRatings.MpaRating): Mpa
  {
    Mpa(rating.Id(), Some(rating.NameWithDash()))
  }

  /** `new Genre(id, null)` for each id; unboxing a null id throws. */
  function GenreRefs(ids: seq<Option<int>>): (r: Result<seq<Genre>, Error>)
    ensures r.Failure? <==> None in ids
    ensures r.Failure? ==> r.error == NullPointerException
    ensures r.Success? ==> |r.value| == |ids| && forall i :: 0 <= i < |ids| ==> r.value[i] == Genre(ids[i].value, None)
  {
    if ids == [] then Success([])
    else if ids[0].None? then Failure(NullPointerException)
    else
      match GenreRefs(ids[1..])
      case Failure(e) => assert None in ids[1..]; Failure(e)
      case Success(rest) => Success([Genre(ids[0].value, None)] + rest)
  }

  /** Distinct ids give distinct genre references. */
  lemma RefsOfDistinctIds(ids: seq<Option<int>>, refs: seq<Genre>)
    requires NoDuplicates(ids) && None !in ids
    requires |refs| == |ids| && forall i :: 0 <= i < |ids| ==> refs[i] == Genre(ids[i].value, None)
    ensures NoDuplicates(refs)
  {
    forall i, j | 0 <= i < j < |refs| ensures refs[i] != refs[j] {
      assert ids[i] in ids && ids[j] in ids;
      assert ids[i] != ids[j];
    }
  }

  /** The request's MPA id is absent or names a rating in the table. */
  predicate MpaIdKnown(req: FilmRequestDto)
  {
    req.mpa.None? || 1 <= req.mpa.value.id <= 5
  }

  /** The request carries a non-empty genre set. */
  predicate HasGenres(req: FilmRequestDto)
  {
    req.genres.Some? && req.genres.value != []
  }

  /** The ids the request's genres are turned into. */
  function RequestedGenreIds(req: FilmRequestDto): seq<Option<int>>
  {
    if req.genres.Some? then GetGenreIds(req).value else []
  }

  /** The rating step: null stays null, an unknown id throws. */
  function MpaFromRequest(req: FilmRequestDto): (r: Result<Option<Mpa>, Error>)
    ensures r.Success? <==> MpaIdKnown(req)
    ensures r.Failure? ==> r.error == NotFoundException(MpaRatings.UnknownIdMessage(req.mpa.value.id))
    ensures r.Success? && req.mpa.None? ==> r.value.None?
    ensures r.Success? && req.mpa.Some? ==>
      r.value == Some(Mpa(req.mpa.value.id, Some(MpaRatings.FromId(req.mpa.value.id).value.NameWithDash())))
  {
    match req.mpa
    case None => Success(None)
    case Some(m) =>
      match MpaRatings.FromId(m.id)
      case Failure(e) => Failure(e)
      case Success(rating) => Success(Some(MpaOf(rating)))
  }

  /** The genre step: none or an empty set gives an empty genre set. */
  function GenresFromRequest(req: FilmRequestDto): (r: Result<seq<Genre>, Error>)
    ensures r.Failure? <==> HasGenres(req) && None in RequestedGenreIds(req)
    ensures r.Failure? ==> r.error == NullPointerException
    ensures !HasGenres(req) ==> r == Success([])
    ensures r.Success? ==>
      && NoDuplicates(r.value)
      && |r.value| == |RequestedGenreIds(req)|
      && forall i :: 0 <= i < |r.value| ==> r.value[i] == Genre(RequestedGenreIds(req)[i].value, None)
  {
    if HasGenres(req) then
      var ids := GetGenreIds(req).value;
      match GenreRefs(ids)
      case Failure(e) => Failure(e)
      case Success(refs) =>
        RefsOfDistinctIds(ids, refs);
        DedupOfDistinct(refs);
        Success(Dedup(refs))
    else Success([])
  }

  /**
   * `fromRequestDto`: null gives null. The scalar fields are copied, an
   * absent id becomes 0, the MPA id is looked up first (an unknown one
   * throws NotFoundException), then each distinct genre id becomes a genre
   * reference without a name, in request order.
   */
  function FromRequestDto(d: Option<FilmRequestDto>): (r: Result<Option<Film>, Error>)
    ensures d.None? ==> r == Success(None)
    ensures d.Some? && !MpaIdKnown(d.value) ==>
      r == Failure(NotFoundException(MpaRatings.UnknownIdMessage(d.value.mpa.value.id)))
    ensures d.Some? && MpaIdKnown(d.value) && HasGenres(d.value) && None in RequestedGenreIds(d.value) ==>
      r == Failure(NullPointerException)
    ensures d.Some? ==>
      (r.Success? <==> MpaIdKnown(d.value) && !(HasGenres(d.value) && None in RequestedGenreIds(d.value)))
    ensures d.Some? && r.Success? ==>
      r.value == Some(Film(
        if d.value.id.Some? then d.value.id.value else 0,
        d.value.name, d.value.description, d.value.releaseDate, d.value.duration,
        {}, Some(GenresFromRequest(d.value).value), MpaFromRequest(d.value).value))
  {
    match d
    case None => Success(None)
    case Some(req) =>
      match MpaFromRequest(req)
      case Failure(e) => Failure(e)
      case Success(mpa) =>
        match GenresFromRequest(req)
        case Failure(e) => Failure(e)
        case Success(genres) =>
          Success(Some(Film(
            if req.id.Some? then req.id.value else 0,
            req.name, req.description, req.releaseDate, req.duration,
            {}, Some(genres), mpa)))
  }

  /** The DTO of each genre, position by position. */
  function DtosOf(gs: seq<Genre>): (r: seq<GenreDto>)
    ensures |r| == |gs|
    ensures forall i :: 0 <= i < |gs| ==> r[i] == GenreDto(gs[i].id, gs[i].name)
  {
    if gs == [] then [] else [GenreMappers.DtoOf(gs[0])] + DtosOf(gs[1..])
  }

  /**
   * `toResponseDto`: null gives null. The scalar fields and the MPA object
   * are copied, and the genres become DTOs collected into a `LinkedHashSet`
   * (an absent genre set gives an empty one).
   */
  function ToResponseDto(f: Option<Film>): (r: Option<FilmResponseDto>)
    ensures r.None? <==> f.None?
    ensures r.Some? ==>
      var film := f.value;
      var dto := r.value;
      && dto.id == Some(film.id)
      && dto.name == film.name && dto.description == film.description
      && dto.releaseDate == film.releaseDate && dto.duration == film.duration
      && dto.mpa == film.mpa
      && dto.genres.Some?
      && NoDuplicates(dto.genres.value)
      && (film.genres.None? ==> dto.genres.value == [])
      && (film.genres.Some? ==>
            && (forall g :: g in film.genres.value ==> GenreDto(g.id, g.name) in dto.genres.value)
            && (forall e :: e in dto.genres.value ==> Genre(e.id, e.name) in film.genres.value))
  {
    match f
    case None => None
    case Some(film) =>
      var genres := if film.genres.Some? then Dedup(DtosOf(film.genres.value)) else [];
      assert film.genres.Some? ==> forall g :: g in film.genres.value ==> GenreDto(g.id, g.name) in DtosOf(film.genres.value);
      Some(FilmResponseDto(Some(film.id), film.name, film.description, film.releaseDate,
                           film.duration, film.mpa, Some(genres)))
  }

  /** A film's distinct genres reach the response in their own order, with
      ids and names unchanged. */
  lemma ResponseKeepsGenreOrder(f: Film)
    requires f.genres.Some? && NoDuplicates(f.genres.value)
    ensures ToResponseDto(Some(f)).value.genres == Some(DtosOf(f.genres.value))
  {
    var gs := f.genres.value;
    var ds := DtosOf(gs);
    assert NoDuplicates(ds) by {
      forall i, j | 0 <= i < j < |ds| ensures ds[i] != ds[j] {
        assert gs[i] != gs[j];
      }
    }
    DedupOfDistinct(ds);
  }

  /**
   * Request to response: the genres sent back are the distinct requested
   * ids in request order, without names, and the rating carries the table's
   * name for its id.
   */
  lemma RequestToResponse(req: FilmRequestDto)
    requires FromRequestDto(Some(req)).Success?
    ensures
      var resp := ToResponseDto(FromRequestDto(Some(req)).value).value;
      && |resp.genres.value| == |RequestedGenreIds(req)|
      && (forall i :: 0 <= i < |resp.genres.value| ==>
            resp.genres.value[i] == GenreDto(RequestedGenreIds(req)[i].value, None))
      && (req.mpa.Some? ==> resp.mpa == Some(MpaOf(MpaRatings.FromId(req.mpa.value.id).value)))
  {
    var f := FromRequestDto(Some(req)).value.value;
    var gs := GenresFromRequest(req).value;
    assert f.genres == Some(gs) && NoDuplicates(gs);
    var ids := RequestedGenreIds(req);
    var resp := ToResponseDto(Some(f)).value;
    ResponseKeepsGenreOrder(f);
    assert resp.genres.value == DtosOf(gs);
    forall i | 0 <= i < |gs| ensures resp.genres.value[i] == GenreDto(ids[i].value, None) {
      assert gs[i] == Genre(ids[i].value, None);
    }
  }
}
