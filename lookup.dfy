/** The read-only side of the mock repository: first-match search over a list
    (`Array.prototype.find` / `findIndex`), `login` and `upgradePlan`. Both
    operations only read the user list; they are functions of it. */
module Lookup {
  import opened Types

  /** `i` is the first position at which `key` occurs in `keys`. */
  predicate IsFirstIndex<K(==)>(keys: seq<K>, i: nat, key: K)
  {
    i < |keys| && keys[i] == key && forall j :: 0 <= j < i ==> keys[j] != key
  }

  /** The first position of `key` in `keys`, or `None` where `findIndex` gives -1. */
  function IndexOf<K(==)>(keys: seq<K>, key: K): (r: Option<nat>)
    ensures r.Some? ==> IsFirstIndex(keys, r.value, key)
    ensures r.None? <==> key !in keys
  {
    if keys == [] then None
    else if keys[0] == key then Some(0)
    else match IndexOf(keys[1..], key)
      case None => None
      case Some(i) => Some(i + 1)
  }

  /** A key has only one first position. */
  lemma FirstIndexUnique<K>(keys: seq<K>, i: nat, j: nat, key: K)
    requires IsFirstIndex(keys, i, key) && IsFirstIndex(keys, j, key)
    ensures i == j
  {
  }

  /** Appending an element does not move the first position of a key already present. */
  lemma {:induction false} IndexOfAppend<K>(keys: seq<K>, x: K, key: K)
    ensures key in keys ==> IndexOf(keys + [x], key) == IndexOf(keys, key)
    ensures key !in keys && x == key ==> IndexOf(keys + [x], key) == Some(|keys|)
  {
    var r, r' := IndexOf(keys, key), IndexOf(keys + [x], key);
    if key in keys {
      var i := r.value;
      assert IsFirstIndex(keys + [x], i, key);
      FirstIndexUnique(keys + [x], i, r'.value, key);
    } else if x == key {
      assert IsFirstIndex(keys + [x], |keys|, key);
      FirstIndexUnique(keys + [x], |keys|, r'.value, key);
    }
  }

  /** The emails of a user list, position by position. */
  function Emails(users: seq<User>): (r: seq<string>)
    ensures |r| == |users| && forall i :: 0 <= i < |users| ==> r[i] == users[i].email
  {
    seq(|users|, i requires 0 <= i < |users| => users[i].email)
  }

  /** The ids of a user list, position by position. */
  function UserIds(users: seq<User>): (r: seq<string>)
    ensures |r| == |users| && forall i :: 0 <= i < |users| ==> r[i] == users[i].id
  {
    seq(|users|, i requires 0 <= i < |users| => users[i].id)
  }

  /** The guest `login` hands out for an unknown email. */
  function Guest(email: string): User
  {
    User(GuestId, GuestName, email, Free, FreePlan)
  }

  /** The premium guest `upgradePlan` hands out for the id 'guest'. */
  const PremiumGuest: User := User(GuestId, GuestName, PremiumGuestEmail, Premium, PremiumPlan)

  /** The record a premium upgrade makes of a stored user: the same user with
      the premium role and plan. */
  function Upgraded(u: User): User
  {
    u.(role := Premium, plan := PremiumPlan)
  }

  /** `login` in mock mode: the first stored user with this email; otherwise a
      free guest carrying the email. The password is not consulted. */
  function Login(users: seq<User>, email: string, password: Option<string>): (u: User)
    ensures u.email == email
    ensures forall i: nat :: IsFirstIndex(Emails(users), i, email) ==> u == users[i]
    ensures email !in Emails(users) ==> u == Guest(email)
  {
    match IndexOf(Emails(users), email)
    case Some(i) => users[i]
    case None => Guest(email)
  }

  /** `upgradePlan` in mock mode: a premium copy of the first stored user with
      this id (the stored list itself stays as it was); otherwise the premium
      guest for the id 'guest' and a "User not found" rejection for any other id. */
  function UpgradePlan(users: seq<User>, userId: string): (r: Result<User>)
    ensures forall i: nat :: IsFirstIndex(UserIds(users), i, userId) ==> r == Ok(Upgraded(users[i]))
    ensures userId !in UserIds(users) && userId == GuestId ==> r == Ok(PremiumGuest)
    ensures r.Err? <==> userId !in UserIds(users) && userId != GuestId
    ensures r.Err? ==> r.message == UserNotFound
    ensures r.Ok? ==> r.value.id == userId && r.value.role == Premium && r.value.plan == PremiumPlan
  {
    match IndexOf(UserIds(users), userId)
    case Some(i) => Ok(Upgraded(users[i]))
    case None =>
      if userId == GuestId then Ok(PremiumGuest) else Err(UserNotFound)
  }
}
