/**
  User registration: a fixed chain of guards over the request and the store,
  then one insert of a user whose password is the hash of the given one.
  The email validator and the password hasher are library code; both are
  parameters here, as total functions the caller supplies.
*/
module CreateUser {
  import opened Wrappers
  import opened Users
  import opened CreateUserErrors

  /**
    The guard chain of registration, in order: missing field, invalid email,
    email already in the store. A field is missing when it is the empty
    string, the only falsy string. None means every guard passed.
  */
  function Guard(users: seq<User>, name: string, email: string, password: string,
                 isEmail: string -> bool): (r: Option<CreateUserError>)
    // a missing field is reported whatever the validator says and whatever the store holds
    ensures r == Some(RequireFields) <==> name == [] || email == [] || password == []
    // the validator is consulted only once every field is present
    ensures r == Some(InvalidEmail) <==> name != [] && email != [] && password != [] && !isEmail(email)
    // the store is consulted only for a well-formed request
    ensures r == Some(UserAlreadyExists) <==>
      name != [] && email != [] && password != [] && isEmail(email) && EmailTaken(users, email)
    ensures r.None? ==> !EmailTaken(users, email)
  {
    if name == [] || email == [] || password == [] then Some(RequireFields)
    else if !isEmail(email) then Some(InvalidEmail)
    else if FindByEmail(users, email).Some? then Some(UserAlreadyExists)
    else None
  }

  /**
    Registering an email that is already stored fails, whatever name and
    password come with it.
  */
  lemma DuplicateEmailRejected(users: seq<User>, existing: User, name: string, password: string,
                               isEmail: string -> bool)
    requires existing in users
    requires name != [] && password != [] && existing.email != []
    requires isEmail(existing.email)
    ensures Guard(users, name, existing.email, password, isEmail) == Some(UserAlreadyExists)
  {
  }

  class CreateUserUseCase {
    const usersRepository: InMemoryUsersRepository

    constructor (usersRepository: InMemoryUsersRepository)
      ensures this.usersRepository == usersRepository
    {
      this.usersRepository := usersRepository;
    }

    /**
      Runs the guards; on success stores one new user carrying the hash of the
      password and returns it. A failed guard leaves the store as it was.
    */
    method Execute(name: string, email: string, password: string,
                   isEmail: string -> bool, hash: string -> string)
      returns (r: Result<User, CreateUserError>)
      requires usersRepository.Valid()
      modifies usersRepository
      ensures usersRepository.Valid()
      ensures r.Err? ==>
        && Guard(old(usersRepository.users), name, email, password, isEmail) == Some(r.error)
        && usersRepository.users == old(usersRepository.users)
      ensures r.Ok? ==>
        && Guard(old(usersRepository.users), name, email, password, isEmail).None?
        && r.value == User(|old(usersRepository.users)|, name, email, hash(password))
        && usersRepository.users == old(usersRepository.users) + [r.value]
      ensures old(EmailsUnique(usersRepository.users)) ==> EmailsUnique(usersRepository.users)
    {
      var failure := Guard(usersRepository.users, name, email, password, isEmail);
      if failure.Some? {
        return Err(failure.value);
      }
      ghost var before := usersRepository.users;
      var passwordHash := hash(password);
      var user := usersRepository.Create(name, email, passwordHash);
      if EmailsUnique(before) {
        NewEmailKeepsUnique(before, user);
      }
      r := Ok(user);
    }
  }
}
