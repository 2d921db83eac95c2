/** The user document and the session guard: seeded accounts, credential
    matching, and the superuser check (`requireSuper`). */
module Accounts {
  import opened Records
  import opened Lookup

  const SuperRole := "superuser"

  /** The two accounts written when the user document is empty. */
  const DefaultUsers: seq<User> := [
    User("super", "123", "superuser", false),
    User("admin", "123", "admin", false)
  ]

  /** The user list `/auth` works on: the stored list, or the default accounts when it is empty. */
  function Seeded(users: seq<User>): (r: seq<User>)
    ensures |r| > 0
    ensures users != [] ==> r == users
    ensures users == [] ==> |r| == 2 && r[0].role == SuperRole && r[1].role == "admin"
    ensures users == [] ==> forall i :: 0 <= i < |r| ==> !r[i].isOnline
  {
    if |users| == 0 then DefaultUsers else users
  }

  function NameOf(u: User): string {
    u.username
  }

  function HasLogin(name: string, password: string): User -> bool {
    (u: User) => u.username == name && u.password == password
  }

  function HasName(name: string): User -> bool {
    (u: User) => u.username == name
  }

  function OtherName(name: string): User -> bool {
    (u: User) => u.username != name
  }

  /** `requireSuper` lets a request through exactly when this holds. */
  predicate IsSuper(s: Session): (allowed: bool)
    ensures !s.isLoggedIn ==> !allowed
    ensures s.role != Some(SuperRole) ==> !allowed
    ensures s.isLoggedIn && s.role == Some(SuperRole) ==> allowed
  {
    s.isLoggedIn && s.role == Some(SuperRole)
  }

  /** Every username occurs once. */
  ghost predicate UniqueNames(users: seq<User>) {
    Distinct(users, NameOf)
  }

  lemma DefaultUsersUnique()
    ensures UniqueNames(DefaultUsers)
  {
  }

  /** Adding a user under a name not yet taken keeps usernames unique. */
  lemma AddKeepsUnique(users: seq<User>, u: User)
    requires UniqueNames(users)
    requires forall i :: 0 <= i < |users| ==> users[i].username != u.username
    ensures UniqueNames(users + [u])
  {
    DistinctAppend(users, u, NameOf);
  }

  /** Flipping `isOnline` never touches a name, so uniqueness is kept. */
  lemma SetOnlineKeepsUnique(users: seq<User>, i: nat, online: bool)
    requires i < |users| && UniqueNames(users)
    ensures UniqueNames(users[i := users[i].(isOnline := online)])
  {
    DistinctUpdate(users, i, users[i].(isOnline := online), NameOf);
  }

  /** Deleting by name keeps usernames unique and removes every user of that name. */
  lemma {:induction false} DeleteKeepsUnique(users: seq<User>, target: string)
    requires UniqueNames(users)
    ensures UniqueNames(Filter(users, OtherName(target)))
    ensures forall i :: 0 <= i < |Filter(users, OtherName(target))| ==>
              Filter(users, OtherName(target))[i].username != target
  {
    DistinctFilter(users, OtherName(target), NameOf);
  }
}
