/**
  Statement creation: the rules a deposit or withdrawal must pass before it is
  appended to the log, and the use case that applies them.

  Which rule is reported when a request breaks several of them is not fixed by
  the system; Admit checks the type, then the amount, then the user, then the
  funds, and every contract below holds whatever that order is.
*/
module CreateStatement {
  import opened Wrappers
  import opened Users
  import opened Statements
  import opened CreateStatementErrors

  /**
    The rules for a new statement: a recognised type, a positive amount, an
    existing user and, for a withdrawal, a balance that covers the amount.
    On success, the operation type the request names.
  */
  function Admit(users: seq<User>, log: seq<Statement>, user_id: UserId, operationType: string, amount: int)
    : (r: Result<OperationType, CreateStatementError>)
    // accepted exactly when every rule holds; withdrawing the whole balance is allowed
    ensures r.Ok? <==>
      && (operationType == "deposit" || (operationType == "withdraw" && amount <= Balance(log, user_id)))
      && amount > 0
      && UserExists(users, user_id)
    ensures r.Ok? ==> TypeName(r.value) == operationType
    // a reported error always names a rule the request breaks
    ensures r == Err(InvalidOperationType) ==> operationType != "deposit" && operationType != "withdraw"
    ensures r == Err(InvalidAmount) ==> amount <= 0
    ensures r == Err(UserNotFound) ==> !UserExists(users, user_id)
    ensures r == Err(InsufficientFunds) ==> operationType == "withdraw" && amount > Balance(log, user_id)
  {
    match ParseOperationType(operationType)
    case None => Err(InvalidOperationType)
    case Some(kind) =>
      if amount <= 0 then Err(InvalidAmount)
      else if FindById(users, user_id).None? then Err(UserNotFound)
      else if kind == Withdraw && amount > Balance(log, user_id) then Err(InsufficientFunds)
      else Ok(kind)
  }

  /** A statement that Admit would let through after the given log. */
  ghost predicate AdmissibleAfter(log: seq<Statement>, s: Statement)
  {
    s.amount > 0 && (s.kind == Withdraw ==> s.amount <= Balance(log, s.user_id))
  }

  /** Every statement of the log was admissible after the statements before it. */
  ghost predicate AcceptedInOrder(log: seq<Statement>)
  {
    forall k | 0 <= k < |log| :: AdmissibleAfter(log[..k], log[k])
  }

  /** Appending an admissible statement keeps every balance non-negative. */
  lemma AcceptedKeepsSolvent(log: seq<Statement>, s: Statement)
    requires AdmissibleAfter(log, s)
    ensures Solvent(log) ==> Solvent(log + [s])
  {
    if Solvent(log) {
      forall user: UserId
        ensures Balance(log + [s], user) >= 0
      {
        BalanceAppend(log, s, user);
      }
    }
  }

  /** A log built only from admitted statements leaves no balance negative. */
  lemma {:induction false} AcceptedLogSolvent(log: seq<Statement>)
    requires AcceptedInOrder(log)
    ensures Solvent(log)
    decreases |log|
  {
    if log == [] {
      forall user: UserId
        ensures Balance(log, user) >= 0
      {
      }
    } else {
      var n := |log| - 1;
      var before := log[..n];
      assert AcceptedInOrder(before) by {
        forall k | 0 <= k < |before|
          ensures AdmissibleAfter(before[..k], before[k])
        {
          assert before[..k] == log[..k];
          assert AdmissibleAfter(log[..k], log[k]);
        }
      }
      AcceptedLogSolvent(before);
      assert AdmissibleAfter(log[..n], log[n]);
      AcceptedKeepsSolvent(before, log[n]);
      assert before + [log[n]] == log;
    }
  }

  /** ... and so no balance is negative at any point of such a log. */
  lemma RunningBalanceNeverNegative(log: seq<Statement>)
    requires AcceptedInOrder(log)
    ensures forall k | 0 <= k <= |log| :: Solvent(log[..k])
  {
    forall k | 0 <= k <= |log|
      ensures Solvent(log[..k])
    {
      var prefix := log[..k];
      forall j | 0 <= j < |prefix|
        ensures AdmissibleAfter(prefix[..j], prefix[j])
      {
        assert prefix[..j] == log[..j];
        assert AdmissibleAfter(log[..j], log[j]);
      }
      AcceptedLogSolvent(prefix);
    }
  }

  /**
    A positive deposit by an existing user is accepted and raises that user's
    balance by the amount, leaving every other balance as it was.
  */
  lemma DepositAccepted(users: seq<User>, log: seq<Statement>, s: Statement)
    requires UserExists(users, s.user_id)
    requires s.kind == Deposit && s.amount > 0
    ensures Admit(users, log, s.user_id, "deposit", s.amount) == Ok(Deposit)
    ensures Balance(log + [s], s.user_id) == Balance(log, s.user_id) + s.amount
    ensures forall other: UserId | other != s.user_id :: Balance(log + [s], other) == Balance(log, other)
  {
    BalanceAppend(log, s, s.user_id);
    forall other: UserId | other != s.user_id
      ensures Balance(log + [s], other) == Balance(log, other)
    {
      BalanceAppend(log, s, other);
    }
  }

  /** An unknown user is rejected when nothing else is wrong with the request. */
  lemma UnknownUserRejected(users: seq<User>, log: seq<Statement>, user_id: UserId, operationType: string, amount: int)
    requires !UserExists(users, user_id)
    requires amount > 0
    requires operationType == "deposit" || (operationType == "withdraw" && amount <= Balance(log, user_id))
    ensures Admit(users, log, user_id, operationType, amount) == Err(UserNotFound)
  {
  }

  /** A negative amount is rejected, for a deposit and for a withdrawal. */
  lemma NegativeAmountRejected(users: seq<User>, log: seq<Statement>, user_id: UserId, operationType: string, amount: int)
    requires UserExists(users, user_id)
    requires Solvent(log)
    requires operationType == "deposit" || operationType == "withdraw"
    requires amount < 0
    ensures Admit(users, log, user_id, operationType, amount) == Err(InvalidAmount)
  {
    assert Balance(log, user_id) >= 0;
  }

  /** A user with no statements has nothing to withdraw. */
  lemma WithdrawWithoutStatementsRejected(users: seq<User>, log: seq<Statement>, user_id: UserId, amount: int)
    requires UserExists(users, user_id)
    requires OfUser(log, user_id) == []
    requires amount > 0
    ensures Admit(users, log, user_id, "withdraw", amount) == Err(InsufficientFunds)
  {
    NoStatementsZeroBalance(log, user_id);
  }

  /** A type other than deposit or withdraw is rejected. */
  lemma UnknownTypeRejected(users: seq<User>, log: seq<Statement>, user_id: UserId, operationType: string, amount: int)
    requires UserExists(users, user_id)
    requires amount > 0
    requires operationType != "deposit" && operationType != "withdraw"
    ensures Admit(users, log, user_id, operationType, amount) == Err(InvalidOperationType)
  {
  }

  /** Withdrawing exactly the current balance is accepted and leaves the balance at zero. */
  lemma WithdrawWholeBalanceAccepted(users: seq<User>, log: seq<Statement>, s: Statement)
    requires UserExists(users, s.user_id)
    requires s.kind == Withdraw && s.amount == Balance(log, s.user_id) && s.amount > 0
    ensures Admit(users, log, s.user_id, "withdraw", s.amount) == Ok(Withdraw)
    ensures Balance(log + [s], s.user_id) == 0
  {
    BalanceAppend(log, s, s.user_id);
  }

  class CreateStatementUseCase {
    const usersRepository: InMemoryUsersRepository
    const statementsRepository: InMemoryStatementsRepository

    constructor (usersRepository: InMemoryUsersRepository, statementsRepository: InMemoryStatementsRepository)
      ensures this.usersRepository == usersRepository
      ensures this.statementsRepository == statementsRepository
    {
      this.usersRepository := usersRepository;
      this.statementsRepository := statementsRepository;
    }

    /**
      Applies the rules; an accepted request is appended to the log under a
      fresh id and returned, a rejected one leaves the log as it was.
    */
    method Execute(user_id: UserId, operationType: string, amount: int, description: string)
      returns (r: Result<Statement, CreateStatementError>)
      requires statementsRepository.Valid()
      modifies statementsRepository
      ensures statementsRepository.Valid()
      ensures r.Err? ==>
        && Admit(usersRepository.users, old(statementsRepository.statements), user_id, operationType, amount) == Err(r.error)
        && statementsRepository.statements == old(statementsRepository.statements)
      ensures r.Ok? ==>
        && Admit(usersRepository.users, old(statementsRepository.statements), user_id, operationType, amount) == Ok(r.value.kind)
        && r.value == Statement(|old(statementsRepository.statements)|, user_id, r.value.kind, amount, description)
        && statementsRepository.statements == old(statementsRepository.statements) + [r.value]
        && forall s | s in old(statementsRepository.statements) :: s.id != r.value.id
      ensures old(Solvent(statementsRepository.statements)) ==> Solvent(statementsRepository.statements)
    {
      var verdict := Admit(usersRepository.users, statementsRepository.statements, user_id, operationType, amount);
      match verdict {
        case Err(e) =>
          r := Err(e);
        case Ok(kind) =>
          ghost var before := statementsRepository.statements;
          var statement := statementsRepository.Create(user_id, kind, amount, description);
          AcceptedKeepsSolvent(before, statement);
          r := Ok(statement);
      }
    }
  }
}
