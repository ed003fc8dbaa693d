/** The process-wide mock collections and the operations that change them:
    `register` (push onto the user list, unshift onto the admin list),
    `updateUserStatus` (assign the status of the first matching admin row),
    `deleteUser` (splice the first matching admin row out) and `getAdminUsers`. */
module Store {
  import opened Types
  import opened Numerals
  import opened Lookup

  /** The id `register` gives a new user: `new_` followed by the clock reading. */
  function NewUserId(now: nat): (id: string)
    ensures id != GuestId
  {
    assert ("new_" + Decimal(now))[0] == 'n';
    "new_" + Decimal(now)
  }

  /** Registrations at distinct clock readings get distinct ids. */
  lemma NewUserIdsDistinct(a: nat, b: nat)
    requires a != b
    ensures NewUserId(a) != NewUserId(b)
  {
    if NewUserId(a) == NewUserId(b) {
      assert Decimal(a) == NewUserId(a)[4..] == NewUserId(b)[4..] == Decimal(b);
      DecimalInjective(a, b);
    }
  }

  /** The user `register` creates: a free account on the free plan. */
  function NewUser(now: nat, name: string, email: string): User
  {
    User(NewUserId(now), name, email, Free, FreePlan)
  }

  /** The admin row `register` creates for a new user: same id, name and email,
      free plan, active, no join date. */
  function AdminEntry(u: User): AdminUser
  {
    AdminUser(u.id, u.name, u.email, FreePlan, Ativo, None)
  }

  /** The ids of an admin list, position by position. */
  function AdminIds(admins: seq<AdminUser>): (r: seq<string>)
    ensures |r| == |admins| && forall i :: 0 <= i < |admins| ==> r[i] == admins[i].id
  {
    seq(|admins|, i requires 0 <= i < |admins| => admins[i].id)
  }

  lemma ConsUpdate<T>(x: T, s: seq<T>, i: nat, v: T)
    requires i < |s|
    ensures [x] + s[i := v] == ([x] + s)[i + 1 := v]
  {
  }

  /** Reference definition of a status update: walk the list and give the
      first row with this id the new status. */
  function WithStatus(admins: seq<AdminUser>, id: string, status: Status): (r: seq<AdminUser>)
    ensures |r| == |admins|
  {
    if admins == [] then []
    else if admins[0].id == id then [admins[0].(status := status)] + admins[1..]
    else [admins[0]] + WithStatus(admins[1..], id, status)
  }

  /** Reference definition of a deletion: walk the list and drop the first
      row with this id. */
  function WithoutUser(admins: seq<AdminUser>, id: string): seq<AdminUser>
  {
    if admins == [] then []
    else if admins[0].id == id then admins[1..]
    else [admins[0]] + WithoutUser(admins[1..], id)
  }

  /** Where `findIndex` finds the id at `i`, the status update is the
      assignment of the new status to row `i` alone: every other row, and
      every other field of row `i`, stays as it was. */
  lemma {:induction false} WithStatusAt(admins: seq<AdminUser>, id: string, status: Status, i: nat)
    requires IsFirstIndex(AdminIds(admins), i, id)
    ensures WithStatus(admins, id, status) == admins[i := admins[i].(status := status)]
  {
    if i == 0 {
      assert [admins[0].(status := status)] + admins[1..] == admins[0 := admins[0].(status := status)];
    } else {
      assert admins[0].id == AdminIds(admins)[0] != id;
      assert IsFirstIndex(AdminIds(admins[1..]), i - 1, id);
      WithStatusAt(admins[1..], id, status, i - 1);
      ConsUpdate(admins[0], admins[1..], i - 1, admins[i].(status := status));
      assert [admins[0]] + admins[1..] == admins;
    }
  }

  /** A status update of an id no row carries changes nothing. */
  lemma {:induction false} WithStatusAbsent(admins: seq<AdminUser>, id: string, status: Status)
    requires id !in AdminIds(admins)
    ensures WithStatus(admins, id, status) == admins
  {
    if admins != [] {
      assert admins[0].id == AdminIds(admins)[0];
      assert id !in AdminIds(admins[1..]) by {
        forall k | 0 <= k < |admins| - 1 ensures AdminIds(admins[1..])[k] != id {
          assert AdminIds(admins[1..])[k] == AdminIds(admins)[k + 1];
        }
      }
      WithStatusAbsent(admins[1..], id, status);
      assert [admins[0]] + admins[1..] == admins;
    }
  }

  /** Where `findIndex` finds the id at `i`, the deletion splices out row `i`
      alone and keeps the rows before and after it in their order. */
  lemma {:induction false} WithoutUserAt(admins: seq<AdminUser>, id: string, i: nat)
    requires IsFirstIndex(AdminIds(admins), i, id)
    ensures WithoutUser(admins, id) == admins[..i] + admins[i + 1..]
    ensures |WithoutUser(admins, id)| == |admins| - 1
  {
    if i > 0 {
      assert admins[0].id == AdminIds(admins)[0] != id;
      assert IsFirstIndex(AdminIds(admins[1..]), i - 1, id);
      WithoutUserAt(admins[1..], id, i - 1);
      assert admins[..i] == [admins[0]] + admins[1..][..i - 1];
      assert admins[i + 1..] == admins[1..][i..];
    }
  }

  /** A deletion of an id no row carries changes nothing. */
  lemma {:induction false} WithoutUserAbsent(admins: seq<AdminUser>, id: string)
    requires id !in AdminIds(admins)
    ensures WithoutUser(admins, id) == admins
  {
    if admins != [] {
      assert admins[0].id == AdminIds(admins)[0];
      assert id !in AdminIds(admins[1..]) by {
        forall k | 0 <= k < |admins| - 1 ensures AdminIds(admins[1..])[k] != id {
          assert AdminIds(admins[1..])[k] == AdminIds(admins)[k + 1];
        }
      }
      WithoutUserAbsent(admins[1..], id);
      assert [admins[0]] + admins[1..] == admins;
    }
  }

  /** Of two status updates of the same id the later one wins, so one update
      repeated is the same as one update. */
  lemma {:induction false} LastStatusWins(admins: seq<AdminUser>, id: string, s1: Status, s2: Status)
    ensures WithStatus(WithStatus(admins, id, s1), id, s2) == WithStatus(admins, id, s2)
  {
    if admins != [] && admins[0].id != id {
      LastStatusWins(admins[1..], id, s1, s2);
    }
  }

  /** No id occurs twice in the list. */
  predicate DistinctIds(admins: seq<AdminUser>)
  {
    forall i, j :: 0 <= i < j < |admins| ==> admins[i].id != admins[j].id
  }

  /** With distinct ids a deleted id is gone, so deleting it again is a no-op. */
  lemma DeleteTwiceIsDeleteOnce(admins: seq<AdminUser>, id: string)
    requires DistinctIds(admins)
    ensures id !in AdminIds(WithoutUser(admins, id))
    ensures WithoutUser(WithoutUser(admins, id), id) == WithoutUser(admins, id)
  {
    var at := IndexOf(AdminIds(admins), id);
    if at.Some? {
      var i := at.value;
      WithoutUserAt(admins, id, i);
      var rest := WithoutUser(admins, id);
      forall k | 0 <= k < |rest| ensures AdminIds(rest)[k] != id {
        if k < i {
          assert rest[k] == admins[k];
        } else {
          assert rest[k] == admins[k + 1];
        }
      }
      WithoutUserAbsent(rest, id);
    } else {
      WithoutUserAbsent(admins, id);
    }
  }

  /** Registering an email nobody has makes `login` with it find the new user;
      for an email already taken `login` still finds the earlier user. */
  lemma LoginAfterRegister(users: seq<User>, u: User, email: string, password: Option<string>)
    ensures email == u.email && email !in Emails(users) ==> Login(users + [u], email, password) == u
    ensures email in Emails(users) ==> Login(users + [u], email, password) == Login(users, email, password)
  {
    assert Emails(users + [u]) == Emails(users) + [u.email];
    IndexOfAppend(Emails(users), u.email, email);
  }

  /** A registered user whose id was new can be upgraded, and the upgrade is a
      premium copy of that user. */
  lemma UpgradeAfterRegister(users: seq<User>, u: User)
    requires u.id !in UserIds(users)
    ensures UpgradePlan(users + [u], u.id) == Ok(Upgraded(u))
  {
    assert UserIds(users + [u]) == UserIds(users) + [u.id];
    IndexOfAppend(UserIds(users), u.id, u.id);
  }

  /** The two mock lists, `mockUsers` and `mockAdminUsers`. Their initial
      contents are given to the constructor. */
  class MockStore {
    var users: seq<User>
    var adminUsers: seq<AdminUser>

    constructor (initialUsers: seq<User>, initialAdmins: seq<AdminUser>)
      ensures users == initialUsers && adminUsers == initialAdmins
    {
      users := initialUsers;
      adminUsers := initialAdmins;
    }

    /** `register` in mock mode, at clock reading `now`; the password is not
        stored. The user list gains the new user at its end, the admin list
        its row at its front, and both keep every earlier entry in order. */
    method Register(email: string, password: string, name: string, now: nat) returns (u: User)
      modifies this
      ensures u == NewUser(now, name, email)
      ensures u.id == NewUserId(now) && u.role == Free && u.plan == FreePlan
      ensures users == old(users) + [u]
      ensures adminUsers == [AdminEntry(u)] + old(adminUsers)
      ensures adminUsers[0].status == Ativo && adminUsers[0].plan == FreePlan
    {
      u := NewUser(now, name, email);
      users := users + [u];
      adminUsers := [AdminEntry(u)] + adminUsers;
    }

    /** `getAdminUsers` in mock mode: a copy of the admin list as it stands. */
    method GetAdminUsers() returns (r: seq<AdminUser>)
      ensures r == adminUsers
    {
      r := adminUsers[..];
    }

    /** `updateUserStatus` in mock mode: the first admin row with the id gets
        the new status; an absent id leaves everything as it was. The user
        list is not touched. */
    method UpdateUserStatus(userId: string, newStatus: Status)
      modifies this
      ensures adminUsers == WithStatus(old(adminUsers), userId, newStatus)
      ensures |adminUsers| == |old(adminUsers)|
      ensures users == old(users)
    {
      var userIndex := IndexOf(AdminIds(adminUsers), userId);
      if userIndex.Some? {
        var i := userIndex.value;
        WithStatusAt(adminUsers, userId, newStatus, i);
        adminUsers := adminUsers[i := adminUsers[i].(status := newStatus)];
      } else {
        WithStatusAbsent(adminUsers, userId, newStatus);
      }
    }

    /** `deleteUser` in mock mode: the first admin row with the id is spliced
        out; an absent id leaves everything as it was. The user list is never
        touched, so the account itself survives the deletion. */
    method DeleteUser(userId: string)
      modifies this
      ensures adminUsers == WithoutUser(old(adminUsers), userId)
      ensures users == old(users)
    {
      var userIndex := IndexOf(AdminIds(adminUsers), userId);
      if userIndex.Some? {
        var i := userIndex.value;
        WithoutUserAt(adminUsers, userId, i);
        adminUsers := adminUsers[..i] + adminUsers[i + 1..];
      } else {
        WithoutUserAbsent(adminUsers, userId);
      }
    }
  }
}
