/** The balance query: the user's statements and the balance folded from them. */
module GetBalance {
  import opened Wrappers
  import opened Users
  import opened Statements

  datatype GetBalanceError = UserNotFound

  datatype BalanceReport = BalanceReport(statement: seq<Statement>, balance: int)

  /**
    A user whose only statement is a deposit has that deposit as balance,
    whatever other users' statements the log holds.
  */
  lemma SingleDepositBalance(log: seq<Statement>, s: Statement)
    requires s.kind == Deposit
    requires OfUser(log, s.user_id) == [s]
    ensures Balance(log, s.user_id) == s.amount
  {
    BalanceOfOwnStatements(log, s.user_id);
    assert [s][1..] == [];
  }

  class GetBalanceUseCase {
    const statementsRepository: InMemoryStatementsRepository
    const usersRepository: InMemoryUsersRepository

    constructor (statementsRepository: InMemoryStatementsRepository, usersRepository: InMemoryUsersRepository)
      ensures this.statementsRepository == statementsRepository
      ensures this.usersRepository == usersRepository
    {
      this.statementsRepository := statementsRepository;
      this.usersRepository := usersRepository;
    }

    /**
      Fails for an unknown user; otherwise reports the user's statements and
      the balance they add up to: deposits minus withdrawals. Reads the log
      as it stands, so a statement appended straight to the store counts.
    */
    method Execute(user_id: UserId) returns (r: Result<BalanceReport, GetBalanceError>)
      ensures r.Err? <==> !UserExists(usersRepository.users, user_id)
      ensures r.Ok? ==>
        && r.value.statement == OfUser(statementsRepository.statements, user_id)
        && r.value.balance == Deposits(statementsRepository.statements, user_id)
                              - Withdrawals(statementsRepository.statements, user_id)
        && r.value.balance == Balance(r.value.statement, user_id)
    {
      if FindById(usersRepository.users, user_id).None? {
        return Err(UserNotFound);
      }
      var log := statementsRepository.statements;
      BalanceIsDepositsMinusWithdrawals(log, user_id);
      BalanceOfOwnStatements(log, user_id);
      r := Ok(BalanceReport(OfUser(log, user_id), Balance(log, user_id)));
    }
  }
}
