/**
 * `InMemoryUserStorage`: users in a hash map keyed by id, ids drawn from a
 * counter, and one-directional friendship kept in each user's friend map.
 */
module UserStorage {
  import opened Wrappers
  import opened Model
  import opened Seqs
  import Friendship

  const UserNotFoundMessage: string := "Пользователь с таким id не найден"

  /** The stored users that `userId`'s friend map names, whatever the status;
      none when `userId` is not stored. */
  function FriendIds(users: map<int, User>, userId: int): set<int>
  {
    if userId in users then users[userId].friends.Keys * users.Keys else {}
  }

  /** The stored users named in the friend maps of both `a` and `b`; none
      when either is not stored. */
  function CommonFriendIds(users: map<int, User>, a: int, b: int): set<int>
  {
    if a in users && b in users then users[a].friends.Keys * users[b].friends.Keys * users.Keys else {}
  }

  /** The user map after `addFriend(userId, friendId)`. */
  function AddFriendTo(users: map<int, User>, userId: int, friendId: int): (r: map<int, User>)
    ensures r.Keys == users.Keys
    ensures forall id :: id in users && id != userId ==> r[id] == users[id]
    ensures userId in users && friendId in users ==>
      r[userId] == users[userId].(friends := Friendship.Request(users[userId].friends, friendId))
    ensures !(userId in users && friendId in users) ==> r == users
  {
    if userId in users && friendId in users then
      users[userId := users[userId].(friends := Friendship.Request(users[userId].friends, friendId))]
    else users
  }

  /** The user map after `confirmFriend(userId, friendId)`. */
  function ConfirmFriendOf(users: map<int, User>, userId: int, friendId: int): (r: map<int, User>)
    ensures r.Keys == users.Keys
    ensures forall id :: id in users && id != userId ==> r[id] == users[id]
    ensures userId in users ==>
      r[userId] == users[userId].(friends := Friendship.Confirm(users[userId].friends, friendId))
    ensures userId !in users || friendId !in users[userId].friends ==> r == users
  {
    if userId in users && friendId in users[userId].friends then
      users[userId := users[userId].(friends := Friendship.Confirm(users[userId].friends, friendId))]
    else users
  }

  /** The user map after `removeFriend(userId, friendId)`. */
  function RemoveFriendOf(users: map<int, User>, userId: int, friendId: int): (r: map<int, User>)
    ensures r.Keys == users.Keys
    ensures forall id :: id in users && id != userId ==> r[id] == users[id]
    ensures userId in users ==>
      r[userId] == users[userId].(friends := Friendship.Remove(users[userId].friends, friendId))
  {
    if userId in users then
      users[userId := users[userId].(friends := Friendship.Remove(users[userId].friends, friendId))]
    else users
  }

  /** After `addFriend(u, v)` on two stored users, `v` is among `u`'s friends,
      the edge is REQUESTED, and the friends of every other user, `v`
      included, are what they were. */
  lemma AddFriendIsOneWay(users: map<int, User>, u: int, v: int)
    requires u in users && v in users
    ensures v in FriendIds(AddFriendTo(users, u, v), u)
    ensures Friendship.Edge(AddFriendTo(users, u, v)[u].friends, v) == Some(Requested)
    ensures forall w :: w != u ==> FriendIds(AddFriendTo(users, u, v), w) == FriendIds(users, w)
  {
  }

  /** Confirming an edge twice is confirming it once. */
  lemma ConfirmFriendIdempotent(users: map<int, User>, u: int, v: int)
    ensures ConfirmFriendOf(ConfirmFriendOf(users, u, v), u, v) == ConfirmFriendOf(users, u, v)
  {
    if u in users && v in users[u].friends {
      Friendship.ConfirmIdempotent(users[u].friends, v);
    }
  }

  /** Confirming never adds or removes a friend. */
  lemma ConfirmKeepsFriendIds(users: map<int, User>, u: int, v: int, w: int)
    ensures FriendIds(ConfirmFriendOf(users, u, v), w) == FriendIds(users, w)
  {
  }

  /** After `removeFriend(u, v)` the friends of `u` no longer include `v`,
      and nothing else changes. */
  lemma RemoveFriendDropsEdge(users: map<int, User>, u: int, v: int)
    ensures v !in FriendIds(RemoveFriendOf(users, u, v), u)
    ensures FriendIds(RemoveFriendOf(users, u, v), u) == FriendIds(users, u) - {v}
    ensures forall w :: w != u ==> FriendIds(RemoveFriendOf(users, u, v), w) == FriendIds(users, w)
  {
  }

  /** Common friends do not depend on the order of the two users. */
  lemma CommonFriendsSymmetric(users: map<int, User>, a: int, b: int)
    ensures CommonFriendIds(users, a, b) == CommonFriendIds(users, b, a)
    ensures CommonFriendIds(users, a, b) == FriendIds(users, a) * FriendIds(users, b)
  {
  }

  class InMemoryUserStorage {
    var users: map<int, User>
    var idCounter: int

    /** Every user is stored under its own id, and every id is below the counter. */
    ghost predicate Valid()
      reads this
    {
      && idCounter >= 1
      && forall id :: id in users ==> 1 <= id < idCounter && users[id].id == id
    }

    constructor()
      ensures Valid()
      ensures users == map[] && idCounter == 1
    {
      users := map[];
      idCounter := 1;
    }

    /** `create`: the user gets the next id, overwriting any id it came with. */
    method Create(user: User) returns (r: User)
      requires Valid()
      modifies this
      ensures Valid()
      ensures r == user.(id := old(idCounter))
      ensures forall id :: id in old(users) ==> id < r.id
      ensures users == old(users)[r.id := r]
      ensures idCounter == old(idCounter) + 1
    {
      r := user.(id := idCounter);
      idCounter := idCounter + 1;
      users := users[r.id := r];
    }

    /** `update`: replaces the whole record stored under the user's id. */
    method Update(user: User) returns (r: Result<User, Error>)
      requires Valid()
      modifies this
      ensures Valid() && idCounter == old(idCounter)
      ensures user.id !in old(users) ==> r == Failure(NoSuchElementException(UserNotFoundMessage)) && users == old(users)
      ensures user.id in old(users) ==> r == Success(user) && users == old(users)[user.id := user]
    {
      if user.id !in users {
        return Failure(NoSuchElementException(UserNotFoundMessage));
      }
      users := users[user.id := user];
      r := Success(user);
    }

    /** `getById`. */
    method GetById(id: int) returns (r: Option<User>)
      requires Valid()
      ensures r.Some? <==> id in users
      ensures r.Some? ==> r.value == users[id] && r.value.id == id
    {
      r := if id in users then Some(users[id]) else None;
    }

    /** `findAll`: every stored user once, in hash order. */
    method FindAll() returns (r: seq<User>)
      requires Valid()
      ensures Enumerates(r, users, users.Keys)
    {
      KeyedByIdIsInjective(users, (x: User) => x.id);
      r := SelectValues(users, users.Keys);
      assert users.Keys * users.Keys == users.Keys;
    }

    method AddFriend(userId: int, friendId: int)
      requires Valid()
      modifies this
      ensures Valid() && idCounter == old(idCounter)
      ensures users == AddFriendTo(old(users), userId, friendId)
    {
      if userId in users && friendId in users {
        var user := users[userId];
        users := users[userId := user.(friends := Friendship.Request(user.friends, friendId))];
      }
    }

    method ConfirmFriend(userId: int, friendId: int)
      requires Valid()
      modifies this
      ensures Valid() && idCounter == old(idCounter)
      ensures users == ConfirmFriendOf(old(users), userId, friendId)
    {
      if userId in users && friendId in users[userId].friends {
        var user := users[userId];
        users := users[userId := user.(friends := Friendship.Confirm(user.friends, friendId))];
      }
    }

    method RemoveFriend(userId: int, friendId: int)
      requires Valid()
      modifies this
      ensures Valid() && idCounter == old(idCounter)
      ensures users == RemoveFriendOf(old(users), userId, friendId)
    {
      if userId in users {
        var user := users[userId];
        users := users[userId := user.(friends := Friendship.Remove(user.friends, friendId))];
      }
    }

    /** `getFriends`: the stored users `userId` has an edge to, each once;
        empty when `userId` is not stored. */
    method GetFriends(userId: int) returns (r: seq<User>)
      requires Valid()
      ensures userId !in users ==> r == []
      ensures Enumerates(r, users, FriendIds(users, userId))
    {
      if userId !in users {
        return [];
      }
      KeyedByIdIsInjective(users, (x: User) => x.id);
      r := SelectValues(users, users[userId].friends.Keys);
    }

    /** `getCommonFriends`: the stored users both have an edge to, each once;
        empty when either is not stored. */
    method GetCommonFriends(userId: int, otherId: int) returns (r: seq<User>)
      requires Valid()
      ensures userId !in users || otherId !in users ==> r == []
      ensures Enumerates(r, users, CommonFriendIds(users, userId, otherId))
    {
      if userId !in users || otherId !in users {
        return [];
      }
      var first, second := users[userId], users[otherId];
      KeyedByIdIsInjective(users, (x: User) => x.id);
      r := SelectValues(users, first.friends.Keys * second.friends.Keys);
    }
  }
}
