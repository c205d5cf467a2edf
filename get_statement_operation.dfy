/** Fetching one statement of a user by its id. */
module GetStatementOperation {
  import opened Wrappers
  import opened Users
  import opened Statements

  datatype GetStatementOperationError = UserNotFound | StatementNotFound

  class GetStatementOperationUseCase {
    const usersRepository: InMemoryUsersRepository
    const statementsRepository: InMemoryStatementsRepository

    constructor (usersRepository: InMemoryUsersRepository, statementsRepository: InMemoryStatementsRepository)
      ensures this.usersRepository == usersRepository
      ensures this.statementsRepository == statementsRepository
    {
      this.usersRepository := usersRepository;
      this.statementsRepository := statementsRepository;
    }

    /**
      Fails for an unknown user, even when the statement id exists; fails for
      an id that names none of the user's statements; otherwise returns the
      statement the store assigned that id. It modifies nothing.
    */
    method Execute(user_id: UserId, statement_id: StatementId)
      returns (r: Result<Statement, GetStatementOperationError>)
      requires statementsRepository.Valid()
      ensures r == Err(UserNotFound) <==> !UserExists(usersRepository.users, user_id)
      ensures r == Err(StatementNotFound) <==>
        && UserExists(usersRepository.users, user_id)
        && !exists s | s in statementsRepository.statements :: s.id == statement_id && s.user_id == user_id
      ensures r.Ok? <==>
        && UserExists(usersRepository.users, user_id)
        && exists s | s in statementsRepository.statements :: s.id == statement_id && s.user_id == user_id
      ensures r.Ok? ==>
        && statement_id < |statementsRepository.statements|
        && r.value == statementsRepository.statements[statement_id]
        && r.value.user_id == user_id
    {
      if FindById(usersRepository.users, user_id).None? {
        return Err(UserNotFound);
      }
      var found := FindStatementOperation(statementsRepository.statements, user_id, statement_id);
      if found.None? {
        return Err(StatementNotFound);
      }
      var log := statementsRepository.statements;
      ghost var k :| 0 <= k < |log| && log[k] == found.value;
      r := Ok(found.value);
    }
  }
}
