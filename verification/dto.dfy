/**
 * The data-transfer records of the HTTP layer (`dto/FilmRequestDto.java`,
 * `dto/FilmResponseDto.java`, `dto/UserDto.java`) and the logic they carry:
 * the genre-id projection of a film request and the blank-to-null setters of
 * a user record.
 */
module Dto {
  import opened Wrappers
  import opened JavaText
  import opened Model
  import opened Seqs

  /** `FilmRequestDto.GenreIdWrapper`: a boxed, possibly null, genre id. */
  datatype GenreIdWrapper = GenreIdWrapper(id: Option<int>)

  /** The MPA part of a film request: the rating id. */
  datatype MpaRequestDto = MpaRequestDto(id: int)

  /** `FilmRequestDto`; `genres` is a `LinkedHashSet`, kept as a sequence in
      insertion order. */
  datatype FilmRequestDto = FilmRequestDto(
    id: Option<int>,
    name: Option<string>,
    description: Option<string>,
    releaseDate: Option<Date>,
    duration: int,
    mpa: Option<MpaRequestDto>,
    genres: Option<seq<GenreIdWrapper>>)

  /** A genre as sent back to the client. */
  datatype GenreDto = GenreDto(id: int, name: Option<string>)

  /** `FilmResponseDto`: the MPA object travels whole; `genres` is kept in
      insertion order. */
  datatype FilmResponseDto = FilmResponseDto(
    id: Option<int>,
    name: Option<string>,
    description: Option<string>,
    releaseDate: Option<Date>,
    duration: int,
    mpa: Option<Mpa>,
    genres: Option<seq<GenreDto>>)

  /** `UserDto`. */
  datatype UserDto = UserDto(
    id: int,
    email: Option<string>,
    login: Option<string>,
    name: Option<string>,
    birthday: Option<Date>)

  /** A request built by the no-argument constructor: every field unset, and
      the genre set initialised empty. */
  function NewFilmRequestDto(): (d: FilmRequestDto)
    ensures d.genres == Some([])
    ensures d.id.None? && d.name.None? && d.description.None? && d.releaseDate.None?
    ensures d.duration == 0 && d.mpa.None?
  {
    FilmRequestDto(None, None, None, None, 0, None, Some([]))
  }

  /** The ids of the wrappers, position by position. */
  function WrapperIds(ws: seq<GenreIdWrapper>): (r: seq<Option<int>>)
    ensures |r| == |ws|
    ensures forall i :: 0 <= i < |ws| ==> r[i] == ws[i].id
  {
    if ws == [] then [] else [ws[0].id] + WrapperIds(ws[1..])
  }

  /**
   * `getGenreIds`: the wrappers' ids collected into a `LinkedHashSet`. Every
   * id appears once, in the order of its first wrapper; a null id is kept as
   * an element. The stream over a null genre set throws.
   */
  function GetGenreIds(d: FilmRequestDto): (r: Result<seq<Option<int>>, Error>)
    ensures r.Failure? <==> d.genres.None?
    ensures r.Failure? ==> r.error == NullPointerException
    ensures r.Success? ==>
      var ws := d.genres.value;
      && NoDuplicates(r.value)
      && |r.value| <= |ws|
      && (forall i :: 0 <= i < |ws| ==> ws[i].id in r.value)
      && (forall j :: 0 <= j < |r.value| ==> r.value[j] in WrapperIds(ws))
      && (forall j, k :: 0 <= j < k < |r.value| ==>
            FirstIndex(WrapperIds(ws), r.value[j]) < FirstIndex(WrapperIds(ws), r.value[k]))
  {
    match d.genres
    case None => Failure(NullPointerException)
    case Some(ws) =>
      DedupKeepsFirstOccurrenceOrder(WrapperIds(ws));
      Success(Dedup(WrapperIds(ws)))
  }

  /** Distinct wrappers, as a set holds them, hold distinct ids, so the ids
      come back exactly in the wrappers' order. */
  lemma GenreIdsKeepRequestOrder(d: FilmRequestDto)
    requires d.genres.Some? && NoDuplicates(d.genres.value)
    ensures GetGenreIds(d) == Success(WrapperIds(d.genres.value))
  {
    var ws := d.genres.value;
    var ids := WrapperIds(ws);
    assert NoDuplicates(ids) by {
      forall i, j | 0 <= i < j < |ids| ensures ids[i] != ids[j] {
        assert ws[i] != ws[j];
      }
    }
    DedupOfDistinct(ids);
  }

  /** The genre ids of a freshly constructed request are empty. */
  lemma DefaultGenreIdsEmpty()
    ensures GetGenreIds(NewFilmRequestDto()) == Success([])
  {
  }

  /** The setters' rule: a null or blank string is stored as null. */
  function Normalize(s: Option<string>): (r: Option<string>)
    ensures r.None? <==> s.None? || IsBlank(s.value)
    ensures r.Some? ==> r == s
  {
    if s.None? || IsBlank(s.value) then None else s
  }

  /** What a setter stores is null or non-blank, and storing it again
      changes nothing. */
  lemma NormalizeIdempotent(s: Option<string>)
    ensures Normalize(s).None? || !IsBlank(Normalize(s).value)
    ensures Normalize(Normalize(s)) == Normalize(s)
  {
  }

  /** `setName`. */
  function SetName(d: UserDto, name: Option<string>): (r: UserDto)
    ensures r.name.None? <==> name.None? || IsBlank(name.value)
    ensures r.name.Some? ==> r.name == name
    ensures r.(name := d.name) == d
  {
    d.(name := Normalize(name))
  }

  /** `setEmail`. */
  function SetEmail(d: UserDto, email: Option<string>): (r: UserDto)
    ensures r.email.None? <==> email.None? || IsBlank(email.value)
    ensures r.email.Some? ==> r.email == email
    ensures r.(email := d.email) == d
  {
    d.(email := Normalize(email))
  }

  /** `setLogin`. */
  function SetLogin(d: UserDto, login: Option<string>): (r: UserDto)
    ensures r.login.None? <==> login.None? || IsBlank(login.value)
    ensures r.login.Some? ==> r.login == login
    ensures r.(login := d.login) == d
  {
    d.(login := Normalize(login))
  }

  /** Feeding a setter the value it stored leaves the record as it is. */
  lemma SettersIdempotent(d: UserDto, s: Option<string>)
    ensures SetName(SetName(d, s), SetName(d, s).name) == SetName(d, s)
    ensures SetEmail(SetEmail(d, s), SetEmail(d, s).email) == SetEmail(d, s)
    ensures SetLogin(SetLogin(d, s), SetLogin(d, s).login) == SetLogin(d, s)
  {
    NormalizeIdempotent(s);
  }
}
