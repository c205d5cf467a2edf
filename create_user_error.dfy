/**
  The errors that user registration can raise. Each variant of the source's
  error namespace becomes a tag; its message and HTTP status are data.
*/
module CreateUserErrors {

  /** The status an application error carries when its constructor passes none. */
  const DefaultStatus: int := 400

  datatype CreateUserError = RequireFields | UserAlreadyExists | InvalidEmail

  function Message(e: CreateUserError): (m: string)
    ensures |m| > 0
  {
    match e
    case RequireFields => "Missing required fields"
    case UserAlreadyExists => "User already exists"
    case InvalidEmail => "Invalid email"
  }

  /** Only RequireFields passes a status explicitly; the other two take the default. */
  function Status(e: CreateUserError): (s: int)
    ensures e != RequireFields ==> s == DefaultStatus
    ensures s == 400
  {
    match e
    case RequireFields => 400
    case UserAlreadyExists => DefaultStatus
    case InvalidEmail => DefaultStatus
  }

  /** The message identifies the error: a client comparing messages recovers the tag. */
  lemma MessageIdentifiesError(a: CreateUserError, b: CreateUserError)
    ensures Message(a) == Message(b) <==> a == b
  {
  }

  /** UserAlreadyExists and InvalidEmail share a status, since neither passes one. */
  lemma SharedDefaultStatus()
    ensures Status(UserAlreadyExists) == Status(InvalidEmail) == DefaultStatus
  {
  }
}
