/**
  Users and the in-memory user store that registration writes to and that the
  ledger consults to resolve an account.
*/
module Users {
  import opened Wrappers

  /** User ids are opaque to every caller; here they are the natural numbers the store hands out. */
  type UserId = nat

  datatype User = User(id: UserId, name: string, email: string, password: string)

  /** Some user in the store has this email. */
  predicate EmailTaken(users: seq<User>, email: string)
  {
    exists u | u in users :: u.email == email
  }

  /** Some user in the store has this id. */
  predicate UserExists(users: seq<User>, id: UserId)
  {
    exists u | u in users :: u.id == id
  }

  /** No two users in the store share an email. */
  predicate EmailsUnique(users: seq<User>)
  {
    forall i, j | 0 <= i < j < |users| :: users[i].email != users[j].email
  }

  /** The store's ids are fresh by construction: each user's id is its position. */
  predicate IdsArePositions(users: seq<User>)
  {
    forall i | 0 <= i < |users| :: users[i].id == i
  }

  /** The first user with the given email, as a search over the store. */
  function FindByEmail(users: seq<User>, email: string): (r: Option<User>)
    ensures r.Some? ==> r.value in users && r.value.email == email
    ensures r.None? <==> !EmailTaken(users, email)
    decreases |users|
  {
    if users == [] then None
    else if users[0].email == email then Some(users[0])
    else
      assert forall u | u in users :: u == users[0] || u in users[1..];
      FindByEmail(users[1..], email)
  }

  /** The first user with the given id, as a search over the store. */
  function FindById(users: seq<User>, id: UserId): (r: Option<User>)
    ensures r.Some? ==> r.value in users && r.value.id == id
    ensures r.None? <==> !UserExists(users, id)
    decreases |users|
  {
    if users == [] then None
    else if users[0].id == id then Some(users[0])
    else
      assert forall u | u in users :: u == users[0] || u in users[1..];
      FindById(users[1..], id)
  }

  /** Adding a user whose email is not taken keeps the store's emails pairwise distinct. */
  lemma NewEmailKeepsUnique(users: seq<User>, user: User)
    requires EmailsUnique(users)
    requires !EmailTaken(users, user.email)
    ensures EmailsUnique(users + [user])
  {
    var after := users + [user];
    forall i, j | 0 <= i < j < |after|
      ensures after[i].email != after[j].email
    {
      if j == |users| {
        assert after[i] in users;
      }
    }
  }

  class InMemoryUsersRepository {
    var users: seq<User>

    ghost predicate Valid()
      reads this
    {
      IdsArePositions(users)
    }

    constructor ()
      ensures Valid() && users == []
    {
      users := [];
    }

    /** Stores a new user under a fresh id and returns it; the store performs no checks. */
    method Create(name: string, email: string, password: string) returns (user: User)
      requires Valid()
      modifies this
      ensures Valid()
      ensures user == User(|old(users)|, name, email, password)
      ensures users == old(users) + [user]
      ensures !UserExists(old(users), user.id)
    {
      user := User(|users|, name, email, password);
      users := users + [user];
    }
  }
}
