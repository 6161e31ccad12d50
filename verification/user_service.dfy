/**
 * `UserService`: checks the login and the birthday, names a user after the
 * login when no name is given, and checks the id and that the user exists
 * before an update. The current date is a parameter.
 */
module UserServices {
  import opened Wrappers
  import opened JavaText
  import opened Model
  import opened Seqs
  import UserStorage

  const LoginMessage: string := "Логин не должен содержать пробелы"
  const BirthdayMessage: string := "Дата рождения не может быть в будущем"
  const IdMessage: string := "Id должен быть положительным"

  /** The login is present and holds no space character (U+0020); other
      whitespace is not checked. */
  predicate LoginOk(u: User)
  {
    u.login.Some? && !Contains(u.login.value, " ")
  }

  /** A missing birthday is accepted; today itself is not in the future. */
  predicate BirthdayOk(u: User, today: Date)
  {
    u.birthday.None? || !IsAfter(u.birthday.value, today)
  }

  /** `validate`: a missing login is dereferenced and throws; a login with a
      space is refused before the birthday is looked at. */
  function Validate(u: User, today: Date): (r: Outcome<Error>)
    ensures r.Pass? <==> LoginOk(u) && BirthdayOk(u, today)
    ensures u.login.None? ==> r == Fail(NullPointerException)
    ensures u.login.Some? && !LoginOk(u) ==> r == Fail(ValidationException(LoginMessage))
    ensures LoginOk(u) && !BirthdayOk(u, today) ==> r == Fail(ValidationException(BirthdayMessage))
  {
    if u.login.None? then Fail(NullPointerException)
    else if Contains(u.login.value, " ") then Fail(ValidationException(LoginMessage))
    else if u.birthday.Some? && IsAfter(u.birthday.value, today) then Fail(ValidationException(BirthdayMessage))
    else Pass
  }

  /** A user born today passes; one born tomorrow (in the same month) does not. */
  lemma BirthdayBoundary(u: User, today: Date)
    requires LoginOk(u)
    ensures Validate(u.(birthday := Some(today)), today) == Pass
    ensures Validate(u.(birthday := Some(today.(day := today.day + 1))), today) == Fail(ValidationException(BirthdayMessage))
  {
  }

  /** The name is missing or blank. */
  predicate NameMissing(u: User)
  {
    u.name.None? || IsBlank(u.name.value)
  }

  /** `applyDefaultName`: a missing or blank name is replaced by the login;
      nothing else changes. */
  function ApplyDefaultName(u: User): (r: User)
    ensures NameMissing(u) ==> r.name == u.login
    ensures !NameMissing(u) ==> r == u
    ensures r.(name := u.name) == u
  {
    if u.name.None? || IsBlank(u.name.value) then u.(name := u.login) else u
  }

  /** After the default is applied a user with a non-blank login has a
      non-blank name, and applying it again changes nothing. */
  lemma ApplyDefaultNameIdempotent(u: User)
    ensures ApplyDefaultName(ApplyDefaultName(u)) == ApplyDefaultName(u)
    ensures u.login.Some? && !IsBlank(u.login.value) ==> !NameMissing(ApplyDefaultName(u))
  {
  }

  /** The default leaves the login and the birthday alone, so it never changes
      the outcome of validation. */
  lemma ApplyDefaultNameKeepsValidity(u: User, today: Date)
    ensures Validate(ApplyDefaultName(u), today) == Validate(u, today)
  {
  }

  class UserService {
    const userStorage: UserStorage.InMemoryUserStorage

    ghost predicate Valid()
      reads this, userStorage
    {
      userStorage.Valid()
    }

    constructor(users: UserStorage.InMemoryUserStorage)
      ensures userStorage == users
    {
      userStorage := users;
    }

    /** `create`: a valid user gets a default name and the next id. */
    method Create(user: User, today: Date) returns (r: Result<User, Error>)
      requires Valid()
      modifies userStorage
      ensures Valid()
      ensures Validate(user, today).Fail? ==>
        r == Failure(Validate(user, today).error) && userStorage.users == old(userStorage.users)
        && userStorage.idCounter == old(userStorage.idCounter)
      ensures Validate(user, today).Pass? ==>
        && r == Success(ApplyDefaultName(user).(id := old(userStorage.idCounter)))
        && userStorage.users == old(userStorage.users)[r.value.id := r.value]
        && r.value.id !in old(userStorage.users)
        && userStorage.idCounter == old(userStorage.idCounter) + 1
    {
      var v := Validate(user, today);
      if v.Fail? {
        return Failure(v.error);
      }
      var created := userStorage.Create(ApplyDefaultName(user));
      r := Success(created);
    }

    /** `update`: the id must be positive, then the user must be valid, then
        it must exist; a missing user is reported as a validation error. */
    method Update(user: User, today: Date) returns (r: Result<User, Error>)
      requires Valid()
      modifies userStorage
      ensures Valid() && userStorage.idCounter == old(userStorage.idCounter)
      ensures r.Failure? ==> userStorage.users == old(userStorage.users)
      ensures user.id <= 0 ==> r == Failure(ValidationException(IdMessage))
      ensures user.id > 0 && Validate(user, today).Fail? ==> r == Failure(Validate(user, today).error)
      ensures user.id > 0 && Validate(user, today).Pass? && user.id !in old(userStorage.users) ==>
        r == Failure(ValidationException(UserStorage.UserNotFoundMessage))
      ensures user.id > 0 && Validate(user, today).Pass? && user.id in old(userStorage.users) ==>
        r == Success(ApplyDefaultName(user))
        && userStorage.users == old(userStorage.users)[user.id := ApplyDefaultName(user)]
    {
      if user.id <= 0 {
        return Failure(ValidationException(IdMessage));
      }
      var v := Validate(user, today);
      if v.Fail? {
        return Failure(v.error);
      }
      var named := ApplyDefaultName(user);
      var existing := userStorage.GetById(named.id);
      if existing.None? {
        return Failure(ValidationException(UserStorage.UserNotFoundMessage));
      }
      r := userStorage.Update(named);
    }

    method FindAll() returns (r: seq<User>)
      requires Valid()
      ensures Enumerates(r, userStorage.users, userStorage.users.Keys)
    {
      r := userStorage.FindAll();
    }
  }
}
