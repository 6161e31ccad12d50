# Filmorate core in Dafny

Filmorate is a small film-catalogue service. Users register, befriend each
other one way, and like films. The service ranks films by their number of
likes. This project models its in-memory core and proves properties of that
model:

- the user store, with its per-edge friendship state machine (ABSENT →
  REQUESTED → CONFIRMED → ABSENT);
- the film store, with like sets and the top-N popularity ranking;
- the validation and defaulting rules of the two services;
- the fixed MPA rating and genre catalogues;
- the request/response mappers and DTOs.

Layout, one module per source file or concept:

| file | module | models |
|---|---|---|
| `wrappers.dfy` | `Wrappers` | `Option` (Java `null`), `Result` and `Outcome` (a thrown exception) |
| `java_text.dfy` | `JavaText` | `Character.isWhitespace`, `String.isBlank`, `String.length` in UTF-16 units, `String.contains`, decimal formatting of an `int` |
| `seqs.dfy` | `Seqs` | `LinkedHashSet` insertion order (`Dedup`), the enum search loop (`FindFirst`), iteration over a `HashMap` (`SelectValues`), set images |
| `model.dfy` | `Model` | the records `User`, `Film`, `Genre`, `Mpa`, dates, and the exceptions |
| `mpa_rating.dfy`, `genre_enum.dfy` | `MpaRatings`, `Genres` | the two constant tables and `fromId` |
| `friendship.dfy`, `in_memory_user_storage.dfy` | `Friendship`, `UserStorage` | `InMemoryUserStorage` as a class over a `map` and a counter |
| `popularity.dfy`, `in_memory_film_storage.dfy` | `Popularity`, `FilmStorage` | the like-count ranking; `InMemoryFilmStorage` as a class |
| `film_service.dfy`, `user_service.dfy` | `FilmServices`, `UserServices` | the services as classes over the stores |
| `dto.dfy`, `genre_mapper.dfy`, `film_mapper.dfy` | `Dto`, `GenreMappers`, `FilmMappers` | DTOs and mappers, as functions |

Modelling choices:

- **Records are values and stores are objects.** The stores and the services
  are classes whose methods change `map` fields. Records are datatypes.
  An in-place edit of a stored record, such as `user.getFriends().put(..)`,
  replaces the record in the map.
- **Null and exceptions.** `null` is `None`. A thrown exception is a
  `Failure`/`Fail` result that carries the exception's class and message.
- **Dates and the clock.** A date is a (year, month, day) triple, compared
  lexicographically. The current date is a parameter `today`.
- **Hash iteration order.** `HashMap` iteration order is left open. The
  methods that list stored values choose their order nondeterministically, and
  their contracts hold for every order.
- **Negative counts.** `Stream.limit` with a negative count throws
  `IllegalArgumentException`, so `getPopularFilms` returns that failure
  instead of demanding `count >= 0`.

The model follows the code where the code does something a reader might not
expect:

- `addFriend` downgrades a CONFIRMED edge back to REQUESTED.
- Nothing stops a user from befriending themselves.
- Missing users make the friendship operations silent no-ops or empty results.
- The default count of 10 exists only in the HTTP controller, so the service
  and the store take `count` as given.
- `FilmService` reads and writes the rating through `getMpaRating`/`setMpaRating`,
  but `Film` has only the field `mpa`. The model reads those calls as that
  field and uses `Mpa(1, "G")` from the rating table as the default.
- `UserService.update` reports a missing user with `ValidationException`,
  not `NoSuchElementException` or `NotFoundException`.

## Model

| member | source | states |
|---|---|---|
| MpaRatings.FromId | src/main/java/ru/yandex/practicum/filmorate/Enum/MpaRating.java:31-36 | succeeds exactly for ids 1..5, returns the rating with that id, otherwise NotFoundException with the message naming the id |
| MpaRatings.TableShape | src/main/java/ru/yandex/practicum/filmorate/Enum/MpaRating.java:13-17 | five ratings G, PG, PG-13, R, NC-17 with ids 1..5 in order, every rating listed once, names with dashes |
| MpaRatings.IdsDistinct | src/main/java/ru/yandex/practicum/filmorate/Enum/MpaRating.java:13-17 | distinct ratings have distinct ids |
| MpaRatings.FromIdRoundTrip | src/main/java/ru/yandex/practicum/filmorate/Enum/MpaRating.java:31-34 | looking a rating up by its own id gives that rating |
| Genres.FromId | src/main/java/ru/yandex/practicum/filmorate/Enum/Genre.java:29-34 | succeeds exactly for ids 1..6, returns the genre with that id, otherwise NotFoundException naming the id |
| Genres.TableShape | src/main/java/ru/yandex/practicum/filmorate/Enum/Genre.java:13-18 | six genres with ids 1..6 in declaration order, each listed once |
| Genres.IdsDistinct | src/main/java/ru/yandex/practicum/filmorate/Enum/Genre.java:13-18 | distinct genres have distinct ids |
| Genres.FromIdRoundTrip | src/main/java/ru/yandex/practicum/filmorate/Enum/Genre.java:29-32 | looking a genre up by its own id gives that genre |
| Genres.FirstTwoNames | src/main/java/ru/yandex/practicum/filmorate/Enum/Genre.java:13-14 | id 1 is "Комедия" and id 2 is "Драма" |
| Friendship.Request | src/main/java/ru/yandex/practicum/filmorate/storage/InMemoryUserStorage.java:55 | the edge becomes REQUESTED whatever it was; every other edge is unchanged |
| Friendship.Confirm | src/main/java/ru/yandex/practicum/filmorate/storage/InMemoryUserStorage.java:66-67 | an existing edge becomes CONFIRMED, an absent edge stays absent; other edges unchanged |
| Friendship.Remove | src/main/java/ru/yandex/practicum/filmorate/storage/InMemoryUserStorage.java:75 | the edge is absent afterwards, an absent edge changes nothing, other edges unchanged |
| Friendship.ConfirmIdempotent | src/main/java/ru/yandex/practicum/filmorate/storage/InMemoryUserStorage.java:64-69 | confirming twice equals confirming once |
| Friendship.Lifecycle | src/main/java/ru/yandex/practicum/filmorate/storage/InMemoryUserStorage.java:52-77 | ABSENT cannot be confirmed; ABSENT → REQUESTED → CONFIRMED → ABSENT |
| Friendship.RequestDowngradesConfirmed | src/main/java/ru/yandex/practicum/filmorate/storage/InMemoryUserStorage.java:55 | requesting a CONFIRMED edge sets it back to REQUESTED |
| UserStorage.AddFriendTo | src/main/java/ru/yandex/practicum/filmorate/storage/InMemoryUserStorage.java:52-57 | with both users stored only the actor's friend map changes (edge REQUESTED); otherwise the map is unchanged |
| UserStorage.ConfirmFriendOf | src/main/java/ru/yandex/practicum/filmorate/storage/InMemoryUserStorage.java:64-69 | only the actor's edge is confirmed; a missing user or edge leaves the map unchanged |
| UserStorage.RemoveFriendOf | src/main/java/ru/yandex/practicum/filmorate/storage/InMemoryUserStorage.java:72-77 | only the actor's edge is removed; no other user changes |
| UserStorage.AddFriendIsOneWay | src/main/java/ru/yandex/practicum/filmorate/storage/InMemoryUserStorage.java:10-13 | after addFriend(u, v) v is among u's friends with REQUESTED, and every other user's friends, v's included, are unchanged |
| UserStorage.ConfirmFriendIdempotent | src/main/java/ru/yandex/practicum/filmorate/storage/InMemoryUserStorage.java:64-69 | confirmFriend twice equals once |
| UserStorage.ConfirmKeepsFriendIds | src/main/java/ru/yandex/practicum/filmorate/storage/InMemoryUserStorage.java:64-69 | confirming never adds or removes a friend of anyone |
| UserStorage.RemoveFriendDropsEdge | src/main/java/ru/yandex/practicum/filmorate/storage/InMemoryUserStorage.java:72-77 | after removeFriend(u, v) u's friends are the old ones minus v; other users' friends unchanged |
| UserStorage.CommonFriendsSymmetric | src/main/java/ru/yandex/practicum/filmorate/storage/InMemoryUserStorage.java:92-106 | common friends are symmetric in the two users and are the intersection of their friend sets |
| Seqs.KeyedByIdIsInjective | src/main/java/ru/yandex/practicum/filmorate/storage/InMemoryUserStorage.java:18 | a map storing every record under the record's own id holds no record twice; both stores rely on it to list their values without duplicates |
| UserStorage.InMemoryUserStorage.Create | src/main/java/ru/yandex/practicum/filmorate/storage/InMemoryUserStorage.java:22-26 | the user gets the counter's id (above every stored id), is stored under it, and the counter advances by one |
| UserStorage.InMemoryUserStorage.Update | src/main/java/ru/yandex/practicum/filmorate/storage/InMemoryUserStorage.java:29-35 | an unknown id gives NoSuchElementException and no change; otherwise exactly that record is replaced |
| UserStorage.InMemoryUserStorage.GetById | src/main/java/ru/yandex/practicum/filmorate/storage/InMemoryUserStorage.java:38-40 | present exactly when stored, and then the stored user with that id |
| UserStorage.InMemoryUserStorage.FindAll | src/main/java/ru/yandex/practicum/filmorate/storage/InMemoryUserStorage.java:43-45 | every stored user exactly once, nothing else |
| UserStorage.InMemoryUserStorage.AddFriend | src/main/java/ru/yandex/practicum/filmorate/storage/InMemoryUserStorage.java:52-57 | the new user map is AddFriendTo of the old one |
| UserStorage.InMemoryUserStorage.ConfirmFriend | src/main/java/ru/yandex/practicum/filmorate/storage/InMemoryUserStorage.java:64-69 | the new user map is ConfirmFriendOf of the old one |
| UserStorage.InMemoryUserStorage.RemoveFriend | src/main/java/ru/yandex/practicum/filmorate/storage/InMemoryUserStorage.java:72-77 | the new user map is RemoveFriendOf of the old one |
| UserStorage.InMemoryUserStorage.GetFriends | src/main/java/ru/yandex/practicum/filmorate/storage/InMemoryUserStorage.java:80-89 | empty for an unknown user; otherwise each stored user named in the friend map exactly once, whatever the status |
| UserStorage.InMemoryUserStorage.GetCommonFriends | src/main/java/ru/yandex/practicum/filmorate/storage/InMemoryUserStorage.java:92-106 | empty if either user is unknown; otherwise each stored user named in both friend maps exactly once |
| Seqs.SelectValues | src/main/java/ru/yandex/practicum/filmorate/storage/InMemoryUserStorage.java:85-88 | the values stored under the given ids that are keys, each exactly once, in some order |
| Seqs.Dedup | src/main/java/ru/yandex/practicum/filmorate/dto/FilmRequestDto.java:44 | LinkedHashSet collection: the same elements, each once, no longer than the input |
| Seqs.DedupKeepsFirstOccurrenceOrder | src/main/java/ru/yandex/practicum/filmorate/dto/FilmRequestDto.java:44 | the collected elements keep the order of their first occurrence |
| Seqs.DedupOfDistinct | src/main/java/ru/yandex/practicum/filmorate/dto/FilmRequestDto.java:44 | collecting distinct elements keeps them as they are |
| Seqs.FindFirst | src/main/java/ru/yandex/practicum/filmorate/Enum/MpaRating.java:32-34 | the search loop returns the first member with the key, and finds none exactly when no member has it |
| Seqs.FindFirstMember | src/main/java/ru/yandex/practicum/filmorate/Enum/MpaRating.java:32-34 | with distinct keys the search for a member's key finds that member |
| Seqs.InjectiveImageSize | src/main/java/ru/yandex/practicum/filmorate/mapper/GenreMapper.java:27 | mapping a set through a function that tells its elements apart keeps the size |
| Popularity.Insert | src/main/java/ru/yandex/practicum/filmorate/storage/InMemoryFilmStorage.java:63-68 | inserting into a ranking gives a ranking with the same films plus one |
| Popularity.SortByLikes | src/main/java/ru/yandex/practicum/filmorate/storage/InMemoryFilmStorage.java:63-68 | the sort by like count, descending: a permutation of the input with non-increasing like counts |
| Popularity.Top | src/main/java/ru/yandex/practicum/filmorate/storage/InMemoryFilmStorage.java:61-71 | min(count, n) films from the input, non-increasing likes, and no film left out has more likes than one returned |
| Popularity.PrefixOfRanking | src/main/java/ru/yandex/practicum/filmorate/storage/InMemoryFilmStorage.java:69 | the first k films of a ranking are a ranking drawn from the input that no film outside them beats |
| Popularity.TopNoDuplicates | src/main/java/ru/yandex/practicum/filmorate/storage/InMemoryFilmStorage.java:61-71 | distinct inputs give distinct results |
| Popularity.RankingDeterminedByLikes | src/main/java/ru/yandex/practicum/filmorate/storage/InMemoryFilmStorage.java:63-68 | two rankings of the same films coincide when no two films share a like count |
| Popularity.TopIndependentOfOrder | src/main/java/ru/yandex/practicum/filmorate/storage/InMemoryFilmStorage.java:61-71 | with distinct like counts the result does not depend on the order the store yields films |
| Popularity.TwoLikesBeforeOne | src/main/java/ru/yandex/practicum/filmorate/storage/InMemoryFilmStorage.java:63-68 | a film with two likes is ranked before a film with one, in either input order |
| FilmStorage.WithLike | src/main/java/ru/yandex/practicum/filmorate/storage/InMemoryFilmStorage.java:43-48 | the film's likes gain the user; other films and an unknown film id change nothing |
| FilmStorage.WithoutLike | src/main/java/ru/yandex/practicum/filmorate/storage/InMemoryFilmStorage.java:52-57 | the film's likes lose the user; other films and an unknown film id change nothing |
| FilmStorage.LikeIsSetMembership | src/main/java/ru/yandex/practicum/filmorate/storage/InMemoryFilmStorage.java:43-57 | liking twice equals liking once, one removal then undoes it, and a like adds one only when new |
| FilmStorage.RemoveAbsentLikeIsNoOp | src/main/java/ru/yandex/practicum/filmorate/storage/InMemoryFilmStorage.java:52-57 | removing an absent like or from an absent film changes nothing |
| FilmStorage.InMemoryFilmStorage.Create | src/main/java/ru/yandex/practicum/filmorate/storage/InMemoryFilmStorage.java:16-20 | the film gets the counter's id (above every stored id), is stored under it, and the counter advances by one |
| FilmStorage.InMemoryFilmStorage.Update | src/main/java/ru/yandex/practicum/filmorate/storage/InMemoryFilmStorage.java:23-29 | an unknown id gives NoSuchElementException and no change; otherwise exactly that record is replaced |
| FilmStorage.InMemoryFilmStorage.GetById | src/main/java/ru/yandex/practicum/filmorate/storage/InMemoryFilmStorage.java:32-34 | present exactly when stored; changes nothing |
| FilmStorage.InMemoryFilmStorage.FindAll | src/main/java/ru/yandex/practicum/filmorate/storage/InMemoryFilmStorage.java:37-39 | every stored film exactly once, nothing else |
| FilmStorage.InMemoryFilmStorage.AddLike | src/main/java/ru/yandex/practicum/filmorate/storage/InMemoryFilmStorage.java:43-48 | the new film map is WithLike of the old one; no user check |
| FilmStorage.InMemoryFilmStorage.RemoveLike | src/main/java/ru/yandex/practicum/filmorate/storage/InMemoryFilmStorage.java:52-57 | the new film map is WithoutLike of the old one |
| FilmStorage.InMemoryFilmStorage.GetPopularFilms | src/main/java/ru/yandex/practicum/filmorate/storage/InMemoryFilmStorage.java:61-71 | negative count throws; otherwise min(count, n) distinct stored films, non-increasing likes, every film left out liked no more than any returned; changes nothing |
| FilmServices.Validate | src/main/java/ru/yandex/practicum/filmorate/service/FilmService.java:97-113 | passes exactly valid films (non-blank name, description of at most 200 UTF-16 units or null, release not before 1895-12-28, positive duration); the first broken rule's message otherwise |
| FilmServices.ReleaseDateBoundary | src/main/java/ru/yandex/practicum/filmorate/service/FilmService.java:26 | 1895-12-28 is accepted, 1895-12-27 and a null date are rejected |
| FilmServices.DescriptionBoundary | src/main/java/ru/yandex/practicum/filmorate/service/FilmService.java:102-104 | 200 characters are accepted, 201 rejected |
| FilmServices.DefaultMpa | src/main/java/ru/yandex/practicum/filmorate/service/FilmService.java:92 | the default rating is the table's G |
| FilmServices.InitializeDefaults | src/main/java/ru/yandex/practicum/filmorate/service/FilmService.java:87-94 | null genres become empty, a null rating becomes G, present values and all other fields are kept |
| FilmServices.InitializeDefaultsIdempotent | src/main/java/ru/yandex/practicum/filmorate/service/FilmService.java:87-94 | applying the defaults twice equals once, and never changes the validation outcome |
| FilmServices.FilmService.Create | src/main/java/ru/yandex/practicum/filmorate/service/FilmService.java:29-33 | an invalid film is refused with the store unchanged; a valid one is stored with its defaults under a fresh id |
| FilmServices.FilmService.Update | src/main/java/ru/yandex/practicum/filmorate/service/FilmService.java:35-45 | validation first, then NoSuchElementException for an unknown id with the store unchanged, else the record with defaults replaces the stored one |
| FilmServices.FilmService.FindAll | src/main/java/ru/yandex/practicum/filmorate/service/FilmService.java:47-49 | every stored film exactly once |
| FilmServices.FilmService.GetById | src/main/java/ru/yandex/practicum/filmorate/service/FilmService.java:51-56 | the stored film, or NoSuchElementException for an unknown id |
| FilmServices.FilmService.AddLike | src/main/java/ru/yandex/practicum/filmorate/service/FilmService.java:59-67 | unknown film, then unknown user, give NoSuchElementException with no change; otherwise the like is added |
| FilmServices.FilmService.RemoveLike | src/main/java/ru/yandex/practicum/filmorate/service/FilmService.java:70-78 | same checks in the same order; otherwise the like is removed |
| FilmServices.FilmService.GetPopularFilms | src/main/java/ru/yandex/practicum/filmorate/service/FilmService.java:81-85 | the count is passed on unchecked: fails exactly for a negative count, else the store's top-k guarantees |
| UserServices.Validate | src/main/java/ru/yandex/practicum/filmorate/service/UserService.java:52-62 | a null login throws NullPointerException, a login with a space is refused, then a birthday after today; passes exactly otherwise |
| UserServices.BirthdayBoundary | src/main/java/ru/yandex/practicum/filmorate/service/UserService.java:58-61 | a birthday equal to today passes, the next day is refused |
| UserServices.ApplyDefaultName | src/main/java/ru/yandex/practicum/filmorate/service/UserService.java:65-69 | a null or blank name becomes the login; a non-blank one and all other fields are kept |
| UserServices.ApplyDefaultNameIdempotent | src/main/java/ru/yandex/practicum/filmorate/service/UserService.java:65-69 | idempotent, and with a non-blank login the name ends up non-blank |
| UserServices.ApplyDefaultNameKeepsValidity | src/main/java/ru/yandex/practicum/filmorate/service/UserService.java:65-69 | the default name never changes the validation outcome |
| UserServices.UserService.Create | src/main/java/ru/yandex/practicum/filmorate/service/UserService.java:23-27 | an invalid user is refused with the store unchanged; a valid one is stored with its default name under a fresh id |
| UserServices.UserService.Update | src/main/java/ru/yandex/practicum/filmorate/service/UserService.java:31-45 | id ≤ 0 first, then validation, then ValidationException for an unknown user, store unchanged on every failure; otherwise the named user replaces the record |
| UserServices.UserService.FindAll | src/main/java/ru/yandex/practicum/filmorate/service/UserService.java:47-49 | every stored user exactly once |
| Dto.NewFilmRequestDto | src/main/java/ru/yandex/practicum/filmorate/dto/FilmRequestDto.java:39 | a fresh request has an empty genre set and nothing else set |
| Dto.GetGenreIds | src/main/java/ru/yandex/practicum/filmorate/dto/FilmRequestDto.java:41-45 | null genres throw; otherwise every wrapper id once, in order of first occurrence, no more than the wrappers |
| Dto.GenreIdsKeepRequestOrder | src/main/java/ru/yandex/practicum/filmorate/dto/FilmRequestDto.java:41-45 | distinct wrappers give their ids exactly in request order |
| Dto.DefaultGenreIdsEmpty | src/main/java/ru/yandex/practicum/filmorate/dto/FilmRequestDto.java:39 | a fresh request has no genre ids |
| Dto.Normalize | src/main/java/ru/yandex/practicum/filmorate/dto/UserDto.java:20 | null or blank gives null, anything else is kept |
| Dto.NormalizeIdempotent | src/main/java/ru/yandex/practicum/filmorate/dto/UserDto.java:19-29 | the stored value is null or non-blank, and normalising again changes nothing |
| Dto.SetName | src/main/java/ru/yandex/practicum/filmorate/dto/UserDto.java:19-21 | stores null for null or blank input, the input otherwise; other fields kept |
| Dto.SetEmail | src/main/java/ru/yandex/practicum/filmorate/dto/UserDto.java:23-25 | the same rule for the e-mail |
| Dto.SetLogin | src/main/java/ru/yandex/practicum/filmorate/dto/UserDto.java:27-29 | the same rule for the login |
| Dto.SettersIdempotent | src/main/java/ru/yandex/practicum/filmorate/dto/UserDto.java:19-29 | setting the stored value again leaves the record unchanged |
| GenreMappers.ToDto | src/main/java/ru/yandex/practicum/filmorate/mapper/GenreMapper.java:12-15 | null stays null; id and name are copied |
| GenreMappers.FromDto | src/main/java/ru/yandex/practicum/filmorate/mapper/GenreMapper.java:18-21 | null stays null; id and name are copied |
| GenreMappers.GenreRoundTrip | src/main/java/ru/yandex/practicum/filmorate/mapper/GenreMapper.java:12-21 | fromDto(toDto(g)) == g and toDto(fromDto(d)) == d |
| GenreMappers.ToDtoSet | src/main/java/ru/yandex/practicum/filmorate/mapper/GenreMapper.java:25-28 | null or empty gives empty; otherwise the same size, one DTO per genre with its id and name, nothing else |
| GenreMappers.FromDtoSet | src/main/java/ru/yandex/practicum/filmorate/mapper/GenreMapper.java:30-33 | the same in the other direction |
| GenreMappers.GenreSetRoundTrip | src/main/java/ru/yandex/practicum/filmorate/mapper/GenreMapper.java:25-33 | a genre set survives the trip to DTOs and back, and the ids are the same |
| FilmMappers.GenreRefs | src/main/java/ru/yandex/practicum/filmorate/mapper/FilmMapper.java:34-35 | one Genre(id, null) per id, in order; a null id throws NullPointerException |
| FilmMappers.RefsOfDistinctIds | src/main/java/ru/yandex/practicum/filmorate/mapper/FilmMapper.java:34-36 | distinct genre ids give distinct genre references, so the LinkedHashSet collection drops none |
| FilmMappers.MpaFromRequest | src/main/java/ru/yandex/practicum/filmorate/mapper/FilmMapper.java:27-30 | a null MPA stays null; a known id gives Mpa(id, name with dash) from the table; an unknown id gives NotFoundException |
| FilmMappers.GenresFromRequest | src/main/java/ru/yandex/practicum/filmorate/mapper/FilmMapper.java:33-40 | null or empty genres give an empty set; otherwise one nameless genre per distinct id in request order, or NullPointerException for a null id |
| FilmMappers.FromRequestDto | src/main/java/ru/yandex/practicum/filmorate/mapper/FilmMapper.java:16-43 | null gives null; the MPA is looked up before the genres; fails exactly on an unknown MPA id or a null genre id; otherwise fields copied, absent id 0, no likes |
| FilmMappers.DtosOf | src/main/java/ru/yandex/practicum/filmorate/mapper/FilmMapper.java:60-61 | the DTO of each genre, position by position |
| FilmMappers.ToResponseDto | src/main/java/ru/yandex/practicum/filmorate/mapper/FilmMapper.java:45-66 | null gives null; fields and the MPA object copied, id boxed; genres distinct with exactly the film's ids and names, empty for null |
| FilmMappers.ResponseKeepsGenreOrder | src/main/java/ru/yandex/practicum/filmorate/mapper/FilmMapper.java:59-63 | distinct genres reach the response in their own order |
| FilmMappers.RequestToResponse | src/main/java/ru/yandex/practicum/filmorate/mapper/FilmMapper.java:16-66 | request to response: the genres are the distinct requested ids in request order without names, the rating carries the table's name |
| JavaText.Utf16Length | src/main/java/ru/yandex/practicum/filmorate/service/FilmService.java:102 | String.length in UTF-16 units: between the number of code points and twice it, equal to it outside the supplementary planes |

## Left out

- `UserStorage.InMemoryUserStorage.Create` and `FilmStorage.InMemoryFilmStorage.Create` do not model the 32-bit wrap-around of `idCounter`, because the counter is an unbounded integer. After 2^31 - 1 creations the source would hand out negative ids.
- Aliasing is left out. The source stores the caller's mutable `User`/`Film` object, so a later change through either reference shows in both. The model stores values, so the like and friendship edits replace the stored record.
- The JDBC stores, the controllers, the error handlers and `MpaService` are HTTP or database plumbing and are not part of this model.
- Bean Validation annotations and Lombok-generated code are left out: constructors, `equals`, and the `@AllArgsConstructor` of `UserDto`, which bypasses the normalising setters. Only the hand-written checks are modelled. Records compare structurally.
- `LocalDate.now()` is the parameter `today`. Dates are not checked to be real calendar dates.
- Tie order in `getPopularFilms` is left open. It depends on `HashMap` iteration, which the model leaves unspecified. The model's sort is stable over whatever order the store yields.
- The source files of `MpaRequestDto` and `GenreDto` are not part of this model. Both records are modelled only as far as the mappers use them: an `int` id and, for `GenreDto`, a nullable name.
- `null` elements inside Java collections are left out. The exception is a null genre-wrapper id, which is modelled because the film mapper unboxes it.
- `FilmService.findAll` and `UserService.findAll` only delegate; they are modelled as such.
