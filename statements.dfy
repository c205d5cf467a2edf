/**
  The statement log: an append-only sequence of deposits and withdrawals,
  and the balance derived from it by a fold.
*/
module Statements {
  import opened Wrappers
  import opened Users

  type StatementId = nat

  datatype OperationType = Deposit | Withdraw

  /** The wire name of an operation type: one of the two enum values, distinct per type. */
  function TypeName(t: OperationType): (name: string)
    ensures name == "deposit" || name == "withdraw"
    ensures name == "deposit" <==> t == Deposit
  {
    match t
    case Deposit => "deposit"
    case Withdraw => "withdraw"
  }

  /** Reads an operation type from its wire name; any other string is unrecognised. */
  function ParseOperationType(s: string): (r: Option<OperationType>)
    ensures r.Some? ==> TypeName(r.value) == s
    ensures r.None? ==> forall t :: TypeName(t) != s
  {
    if s == "deposit" then Some(Deposit)
    else if s == "withdraw" then Some(Withdraw)
    else None
  }

  lemma ParseTypeName(t: OperationType)
    ensures ParseOperationType(TypeName(t)) == Some(t)
  {
  }

  /** A statement; `kind` is the source's `type` field, a reserved word here. */
  datatype Statement = Statement(id: StatementId, user_id: UserId, kind: OperationType,
                                 amount: int, description: string)

  /** What one statement contributes to a user's balance. */
  function Delta(s: Statement, user: UserId): int
  {
    if s.user_id != user then 0
    else match s.kind
      case Deposit => s.amount
      case Withdraw => -s.amount
  }

  /** A user's balance: the fold of every statement of the log into a running sum. */
  function Balance(log: seq<Statement>, user: UserId): (r: int)
    // statements of other users do not move the balance off zero
    ensures (forall s | s in log :: s.user_id != user) ==> r == 0
    // a user who only ever deposited non-negative amounts cannot be below zero
    ensures (forall s | s in log && s.user_id == user :: s.kind == Deposit && s.amount >= 0) ==> r >= 0
    decreases |log|
  {
    if log == [] then 0 else Delta(log[0], user) + Balance(log[1..], user)
  }

  /** Reference definitions: the user's deposits and withdrawals, each summed on its own. */
  function Deposits(log: seq<Statement>, user: UserId): int
    decreases |log|
  {
    if log == [] then 0
    else (if log[0].user_id == user && log[0].kind == Deposit then log[0].amount else 0)
         + Deposits(log[1..], user)
  }

  function Withdrawals(log: seq<Statement>, user: UserId): int
    decreases |log|
  {
    if log == [] then 0
    else (if log[0].user_id == user && log[0].kind == Withdraw then log[0].amount else 0)
         + Withdrawals(log[1..], user)
  }

  /** The user's own statements, in the order they were appended. */
  function OfUser(log: seq<Statement>, user: UserId): (r: seq<Statement>)
    ensures forall s | s in r :: s in log && s.user_id == user
    ensures forall s | s in log && s.user_id == user :: s in r
    decreases |log|
  {
    if log == [] then []
    else
      assert forall s | s in log :: s == log[0] || s in log[1..];
      (if log[0].user_id == user then [log[0]] else []) + OfUser(log[1..], user)
  }

  /** Appending a statement extends the user's statements by it exactly when it is theirs, in order. */
  lemma {:induction false} OfUserAppend(log: seq<Statement>, s: Statement, user: UserId)
    ensures OfUser(log + [s], user) == OfUser(log, user) + (if s.user_id == user then [s] else [])
    decreases |log|
  {
    if log == [] {
      assert (log + [s])[1..] == [];
    } else {
      assert (log + [s])[0] == log[0];
      assert (log + [s])[1..] == log[1..] + [s];
      OfUserAppend(log[1..], s, user);
    }
  }

  /** No user's balance is negative. */
  ghost predicate Solvent(log: seq<Statement>)
  {
    forall user: UserId :: Balance(log, user) >= 0
  }

  /** The store's statement ids are fresh by construction: each id is its position. */
  predicate StatementIdsArePositions(log: seq<Statement>)
  {
    forall i | 0 <= i < |log| :: log[i].id == i
  }

  /** The first statement with the given id that belongs to the given user. */
  function FindStatementOperation(log: seq<Statement>, user_id: UserId, statement_id: StatementId)
    : (r: Option<Statement>)
    ensures r.Some? ==> r.value in log && r.value.id == statement_id && r.value.user_id == user_id
    ensures r.None? <==> !exists s | s in log :: s.id == statement_id && s.user_id == user_id
    decreases |log|
  {
    if log == [] then None
    else if log[0].id == statement_id && log[0].user_id == user_id then Some(log[0])
    else
      assert forall s | s in log :: s == log[0] || s in log[1..];
      FindStatementOperation(log[1..], user_id, statement_id)
  }

  /** The balance is the user's deposits minus the user's withdrawals. */
  lemma {:induction false} BalanceIsDepositsMinusWithdrawals(log: seq<Statement>, user: UserId)
    ensures Balance(log, user) == Deposits(log, user) - Withdrawals(log, user)
    decreases |log|
  {
    if log != [] {
      BalanceIsDepositsMinusWithdrawals(log[1..], user);
    }
  }

  /** Appending a statement moves a balance by exactly that statement's contribution. */
  lemma {:induction false} BalanceAppend(log: seq<Statement>, s: Statement, user: UserId)
    ensures Balance(log + [s], user) == Balance(log, user) + Delta(s, user)
    decreases |log|
  {
    if log == [] {
      assert (log + [s])[1..] == [];
    } else {
      assert (log + [s])[1..] == log[1..] + [s];
      BalanceAppend(log[1..], s, user);
    }
  }

  /** Other users' statements do not count: the balance is a fold over the user's own. */
  lemma {:induction false} BalanceOfOwnStatements(log: seq<Statement>, user: UserId)
    ensures Balance(OfUser(log, user), user) == Balance(log, user)
    decreases |log|
  {
    if log != [] {
      var rest := OfUser(log[1..], user);
      BalanceOfOwnStatements(log[1..], user);
      if log[0].user_id == user {
        var own := [log[0]] + rest;
        assert own[0] == log[0] && own[1..] == rest;
        assert OfUser(log, user) == own;
      } else {
        assert OfUser(log, user) == rest;
      }
    }
  }

  /** A user without statements has balance zero. */
  lemma NoStatementsZeroBalance(log: seq<Statement>, user: UserId)
    requires OfUser(log, user) == []
    ensures Balance(log, user) == 0
  {
    BalanceOfOwnStatements(log, user);
  }

  /**
    With ids handed out by position, looking up a stored statement by its id
    and its owner returns that very statement.
  */
  lemma {:induction false} FindAssignedStatement(log: seq<Statement>, i: nat)
    requires StatementIdsArePositions(log)
    requires i < |log|
    ensures FindStatementOperation(log, log[i].user_id, log[i].id) == Some(log[i])
  {
    var r := FindStatementOperation(log, log[i].user_id, log[i].id);
    assert r.Some? by {
      assert log[i] in log;
    }
    var k :| 0 <= k < |log| && log[k] == r.value;
    assert k == i;
  }

  class InMemoryStatementsRepository {
    var statements: seq<Statement>

    ghost predicate Valid()
      reads this
    {
      StatementIdsArePositions(statements)
    }

    constructor ()
      ensures Valid() && statements == []
    {
      statements := [];
    }

    /** Appends a statement under a fresh id and returns it; the store performs no checks. */
    method Create(user_id: UserId, kind: OperationType, amount: int, description: string)
      returns (statement: Statement)
      requires Valid()
      modifies this
      ensures Valid()
      ensures statement == Statement(|old(statements)|, user_id, kind, amount, description)
      ensures statements == old(statements) + [statement]
      ensures forall s | s in old(statements) :: s.id != statement.id
    {
      statement := Statement(|statements|, user_id, kind, amount, description);
      statements := statements + [statement];
    }
  }
}
