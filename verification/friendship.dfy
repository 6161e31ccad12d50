/**
 * The friendship edge kept in one user's friend map: ABSENT (no entry),
 * REQUESTED or CONFIRMED, and the three edits `InMemoryUserStorage` makes to it.
 */
module Friendship {
  import opened Wrappers
  import opened Model

  type Friends = map<int, FriendshipStatus>

  /** The state of the edge to `target`; `None` is ABSENT. */
  function Edge(f: Friends, target: int): Option<FriendshipStatus>
  {
    if target in f then Some(f[target]) else None
  }

  /** `friends.put(target, REQUESTED)`: overwrites whatever status was there. */
  function Request(f: Friends, target: int): (r: Friends)
    ensures Edge(r, target) == Some(Requested)
    ensures forall k :: k != target ==> Edge(r, k) == Edge(f, k)
  {
    f[target := Requested]
  }

  /** `put(target, CONFIRMED)` guarded by `containsKey(target)`. */
  function Confirm(f: Friends, target: int): (r: Friends)
    ensures Edge(f, target).None? ==> r == f
    ensures Edge(f, target).Some? ==> Edge(r, target) == Some(Confirmed)
    ensures forall k :: k != target ==> Edge(r, k) == Edge(f, k)
  {
    if target in f then f[target := Confirmed] else f
  }

  /** `friends.remove(target)`: no error when there is no such edge. */
  function Remove(f: Friends, target: int): (r: Friends)
    ensures Edge(r, target).None?
    ensures Edge(f, target).None? ==> r == f
    ensures forall k :: k != target ==> Edge(r, k) == Edge(f, k)
  {
    f - {target}
  }

  /** Confirming twice is confirming once. */
  lemma ConfirmIdempotent(f: Friends, target: int)
    ensures Confirm(Confirm(f, target), target) == Confirm(f, target)
  {
  }

  /** The lifecycle ABSENT -> REQUESTED -> CONFIRMED -> ABSENT. */
  lemma Lifecycle(f: Friends, target: int)
    requires Edge(f, target).None?
    ensures Edge(Confirm(f, target), target).None?
    ensures Edge(Request(f, target), target) == Some(Requested)
    ensures Edge(Confirm(Request(f, target), target), target) == Some(Confirmed)
    ensures Edge(Remove(Confirm(Request(f, target), target), target), target).None?
  {
  }

  /** A second request downgrades a confirmed edge back to REQUESTED. */
  lemma RequestDowngradesConfirmed(f: Friends, target: int)
    requires Edge(f, target) == Some(Confirmed)
    ensures Edge(Request(f, target), target) == Some(Requested)
  {
  }
}
