/** `mapper/GenreMapper.java`: conversions between genres and their DTOs. */
module GenreMappers {
  import opened Wrappers
  import opened Model
  import opened Seqs
  import opened Dto

  function DtoOf(g: Genre): GenreDto
  {
    GenreDto(g.id, g.name)
  }

  function GenreOf(d: GenreDto): Genre
  {
    Genre(d.id, d.name)
  }

  /** `toDto`: null stays null; otherwise id and name are copied. */
  function ToDto(g: Option<Genre>): (r: Option<GenreDto>)
    ensures r.None? <==> g.None?
    ensures r.Some? ==> r.value.id == g.value.id && r.value.name == g.value.name
  {
    match g
    case None => None
    case Some(genre) => Some(DtoOf(genre))
  }

  /** `fromDto`: null stays null; otherwise id and name are copied. */
  function FromDto(d: Option<GenreDto>): (r: Option<Genre>)
    ensures r.None? <==> d.None?
    ensures r.Some? ==> r.value.id == d.value.id && r.value.name == d.value.name
  {
    match d
    case None => None
    case Some(dto) => Some(GenreOf(dto))
  }

  /** The two conversions undo each other, null included. */
  lemma GenreRoundTrip(g: Option<Genre>, d: Option<GenreDto>)
    ensures FromDto(ToDto(g)) == g
    ensures ToDto(FromDto(d)) == d
  {
  }

  /** `toDtoSet`: null or empty gives the empty set; otherwise one DTO per
      genre, with the same ids and names, and no two genres merged. */
  function ToDtoSet(genres: Option<set<Genre>>): (r: set<GenreDto>)
    ensures genres.None? ==> r == {}
    ensures genres.Some? ==> |r| == |genres.value|
    ensures genres.Some? ==> forall g :: g in genres.value ==> GenreDto(g.id, g.name) in r
    ensures forall d :: d in r ==> genres.Some? && Genre(d.id, d.name) in genres.value
  {
    if genres.None? || genres.value == {} then {}
    else
      InjectiveImageSize(genres.value, DtoOf);
      Image(genres.value, DtoOf)
  }

  /** `fromDtoSet`: the same rule in the other direction. */
  function FromDtoSet(dtos: Option<set<GenreDto>>): (r: set<Genre>)
    ensures dtos.None? ==> r == {}
    ensures dtos.Some? ==> |r| == |dtos.value|
    ensures dtos.Some? ==> forall d :: d in dtos.value ==> Genre(d.id, d.name) in r
    ensures forall g :: g in r ==> dtos.Some? && GenreDto(g.id, g.name) in dtos.value
  {
    if dtos.None? || dtos.value == {} then {}
    else
      InjectiveImageSize(dtos.value, GenreOf);
      Image(dtos.value, GenreOf)
  }

  /** A genre set survives the trip to DTOs and back, and the ids of the
      DTOs are the ids of the genres. */
  lemma GenreSetRoundTrip(s: set<Genre>)
    ensures FromDtoSet(Some(ToDtoSet(Some(s)))) == s
    ensures (set d | d in ToDtoSet(Some(s)) :: d.id) == (set g | g in s :: g.id)
  {
    var ids := set d | d in ToDtoSet(Some(s)) :: d.id;
    forall g | g in s ensures g.id in ids {
      assert GenreDto(g.id, g.name) in ToDtoSet(Some(s));
    }
  }
}
