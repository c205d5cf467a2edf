/**
  The errors that statement creation can raise, as a tag with its message and
  HTTP status carried as data.
*/
module CreateStatementErrors {

  datatype CreateStatementError = UserNotFound | InsufficientFunds | InvalidAmount | InvalidOperationType

  function Message(e: CreateStatementError): (m: string)
    ensures |m| > 0
  {
    match e
    case UserNotFound => "User not found"
    case InsufficientFunds => "Insufficient funds"
    case InvalidAmount => "Invalid amount"
    case InvalidOperationType => "Invalid operation type"
  }

  /** An unknown user is a "not found"; every other failure is a bad request. */
  function Status(e: CreateStatementError): (s: int)
    ensures s == 404 <==> e == UserNotFound
    ensures s != 404 ==> s == 400
  {
    match e
    case UserNotFound => 404
    case InsufficientFunds => 400
    case InvalidAmount => 400
    case InvalidOperationType => 400
  }

  /** The four messages are pairwise distinct. */
  lemma MessageIdentifiesError(a: CreateStatementError, b: CreateStatementError)
    ensures Message(a) == Message(b) <==> a == b
  {
  }
}
