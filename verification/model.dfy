/**
 * The records of the film catalogue (`model/User.java`, `model/Film.java`,
 * `model/Genre.java`, `model/Mpa.java`), the dates they carry and the
 * exceptions the core throws. Records are values here; `None` is `null`.
 */
module Model {
  import opened Wrappers

  /** A `LocalDate` as (year, month, day). For real calendar dates the
      lexicographic order below is the chronological one. */
  datatype Date = Date(year: int, month: int, day: int)

  /** `a.isBefore(b)`. */
  predicate IsBefore(a: Date, b: Date)
  {
    || a.year < b.year
    || (a.year == b.year && a.month < b.month)
    || (a.year == b.year && a.month == b.month && a.day < b.day)
  }

  /** `a.isAfter(b)`. */
  predicate IsAfter(a: Date, b: Date)
  {
    IsBefore(b, a)
  }

  /** The status of a friendship edge, `REQUESTED` or `CONFIRMED`. */
  datatype FriendshipStatus = Requested | Confirmed

  /** `model.User`: the friend map goes from friend id to the status of the edge. */
  datatype User = User(
    id: int,
    email: Option<string>,
    login: Option<string>,
    name: Option<string>,
    birthday: Option<Date>,
    friends: map<int, FriendshipStatus>)

  /** `model.Genre`: a genre reference as stored in a film. */
  datatype Genre = Genre(id: int, name: Option<string>)

  /** `model.Mpa`: an MPA rating reference as stored in a film. */
  datatype Mpa = Mpa(id: int, name: Option<string>)

  /** `model.Film`: `likes` holds the ids of the users who liked it; `genres`
      is a `LinkedHashSet`, kept as a sequence in insertion order. */
  datatype Film = Film(
    id: int,
    name: Option<string>,
    description: Option<string>,
    releaseDate: Option<Date>,
    duration: int,
    likes: set<int>,
    genres: Option<seq<Genre>>,
    mpa: Option<Mpa>)

  /** The exceptions thrown by the core. */
  datatype Error =
    | ValidationException(message: string)
    | NoSuchElementException(message: string)
    | NotFoundException(message: string)
    | NullPointerException
    | IllegalArgumentException
}
