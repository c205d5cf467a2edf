# Account ledger: user registration and statements

A Dafny model of the core of a small account ledger service ("fin api"). Users
register with a name, an email and a password; a registered user deposits and
withdraws funds, asks for the balance, and fetches a single statement. The model
covers:

- **User registration** (`CreateUser`): the fixed chain of guards (missing field,
  invalid email, email already taken) and the single insert of a user whose
  password is the hash of the given one, over an in-memory user store
  (`Users.InMemoryUsersRepository`, a class with a `seq<User>` field).
- **The two error taxonomies** (`CreateUserErrors`, `CreateStatementErrors`):
  each error class becomes a tag with its message and HTTP status as data.
- **The statement ledger** (`Statements`, `CreateStatement`, `GetBalance`,
  `GetStatementOperation`): an append-only log of deposits and withdrawals held by
  an in-memory statement store, the balance folded from it, the rules a new
  statement must pass, the balance query and the lookup of one statement.

The email validator and the password hasher are library calls. Both are parameters
of `CreateUserUseCase.Execute`, as arbitrary total functions, so nothing is assumed
about them. User and statement ids are natural numbers the stores hand out by
position, so each new id is fresh. The source uses uuid strings, and an unknown id
such as `"not_found"` is here any number the store has not handed out.

The implementations of `CreateStatementUseCase`, `GetBalanceUseCase`,
`GetStatementOperationUseCase` and the in-memory repositories are not available,
so the model rebuilds them from what the use-case tests pin down:

- A deposit by an existing user is accepted and echoed back with a fresh id.
- An unknown user, a negative amount, an unknown operation type, and a withdrawal
  above the balance are each rejected with their own error.
- The balance of a user with one deposit is that deposit. The balance of a user with
  no statements is 0.
- A statement fetched by the id the store assigned comes back unchanged.

Beyond that the model makes these assumptions:

- **Withdrawals subtract.** A withdrawal counts against the balance. No test checks
  a balance after a withdrawal. The one balance-and-statements assertion in the
  controller tests, at
  `src/modules/statements/useCases/getBalance/GetBalanceController.spec.ts:75-80`,
  follows a deposit and is commented out.
- **Error order.** `CreateStatement.Admit` reports the first broken rule in this
  order: type, amount, user, funds. The use-case tests break one rule at a time, so they fix no order. Every contract
  and lemma about `Admit` holds whatever the order is: accepted exactly when all
  rules hold, a reported error always names a broken rule, and each single-fault
  request gets its own error.
- **Zero amount.** A zero amount is rejected like a negative one. No test covers
  zero.
- **Statement ownership.** A statement lookup matches both the statement id and the
  owning user.

## Model

| member | source | states |
|---|---|---|
| CreateUserErrors.Message | src/modules/users/useCases/createUser/CreateUserError.ts:5-20 | every registration error carries a non-empty message ('Missing required fields', 'User already exists', 'Invalid email') |
| CreateUserErrors.Status | src/modules/users/useCases/createUser/CreateUserError.ts:5-20 | RequireFields passes 400 explicitly; UserAlreadyExists and InvalidEmail get the default status; every status is 400 |
| CreateUserErrors.MessageIdentifiesError | src/modules/users/useCases/createUser/CreateUserError.ts:5-20 | two registration errors have the same message exactly when they are the same error, so the message identifies the error |
| CreateUserErrors.SharedDefaultStatus | src/modules/users/useCases/createUser/CreateUserError.ts:10-20 | UserAlreadyExists and InvalidEmail share the default status, which is 400, the status the registration endpoint answers for a duplicate email |
| CreateStatementErrors.Message | src/modules/statements/useCases/createStatement/CreateStatementError.ts:4-26 | every ledger error carries a non-empty message ('User not found', 'Insufficient funds', 'Invalid amount', 'Invalid operation type') |
| CreateStatementErrors.Status | src/modules/statements/useCases/createStatement/CreateStatementError.ts:4-26 | the status is 404 exactly for UserNotFound and 400 for every other variant |
| CreateStatementErrors.MessageIdentifiesError | src/modules/statements/useCases/createStatement/CreateStatementError.ts:4-26 | the four messages are pairwise distinct |
| Users.FindByEmail | src/modules/users/useCases/createUser/CreateUserUseCase.ts:27-29 | a found user is in the store and has the email; nothing is found exactly when no stored user has that email |
| Users.FindById | src/modules/statements/useCases/createStatement/CreateStatementUseCase.spec.ts:53-64 | a found user is in the store and has the id; nothing is found exactly when no stored user has that id |
| Users.NewEmailKeepsUnique | src/modules/users/useCases/createUser/CreateUserUseCase.ts:27-39 | adding a user whose email is not taken keeps the store's emails pairwise distinct |
| Users.InMemoryUsersRepository.constructor | src/modules/users/useCases/createUser/CreateUserUseCase.spec.ts:12-15 | a new store is empty and valid |
| Users.InMemoryUsersRepository.Create | src/modules/users/useCases/createUser/CreateUserUseCase.ts:35-39 | appends exactly one user with the given fields under an id no stored user has, and returns it |
| CreateUser.Guard | src/modules/users/useCases/createUser/CreateUserUseCase.ts:19-31 | RequireFields exactly when a field is the empty string (the falsy test at :19), whatever the validator and the store say; InvalidEmail exactly when all fields are present and the validator rejects the email; UserAlreadyExists exactly when the request is well formed and the email is taken; passing means the email is not taken |
| CreateUser.DuplicateEmailRejected | src/modules/users/useCases/createUser/CreateUserUseCase.spec.ts:35-47 | a second registration with a stored email fails with UserAlreadyExists, whatever name and password come with it |
| CreateUser.CreateUserUseCase.constructor | src/modules/users/useCases/createUser/CreateUserUseCase.ts:12-15 | the use case works on the store it is given |
| CreateUser.CreateUserUseCase.Execute | src/modules/users/useCases/createUser/CreateUserUseCase.ts:17-42 | on a failed guard returns that guard's error and leaves the store unchanged; otherwise appends and returns one user with a fresh id, the given name and email, and password hash(password); distinct emails in the store stay distinct |
| Statements.TypeName | src/modules/statements/useCases/createStatement/CreateStatementUseCase.spec.ts:10-13 | the wire name of an operation type is 'deposit' or 'withdraw', and it is 'deposit' exactly for Deposit, so the two types have distinct names |
| Statements.Balance | src/modules/statements/useCases/getBalance/GetBalanceUseCase.spec.ts:23-65 | the balance is 0 when the log holds none of the user's statements, and never negative when the user has only deposited non-negative amounts |
| Statements.ParseOperationType | src/modules/statements/useCases/createStatement/CreateStatementUseCase.spec.ts:10-13 | a recognised type is one whose wire name is the input; any string that is neither 'deposit' nor 'withdraw' is unrecognised |
| Statements.ParseTypeName | src/modules/statements/useCases/createStatement/CreateStatementUseCase.spec.ts:10-13 | reading back the wire name of an operation type gives that type |
| Statements.OfUser | src/modules/statements/useCases/getBalance/GetBalanceUseCase.spec.ts:23-44 | every statement it returns is in the log and belongs to the user, and every such statement is returned; OfUserAppend adds the order |
| Statements.OfUserAppend | src/modules/statements/useCases/getBalance/GetBalanceUseCase.spec.ts:39-43 | appending a statement to the log appends it to the user's statements exactly when it is theirs, so the user's statements keep creation order and multiplicity |
| Statements.FindStatementOperation | src/modules/statements/useCases/getStatementOperation/GetStatementOperationUseCase.spec.ts:41-52 | a found statement is in the log with the requested id and owner; nothing is found exactly when no such statement exists |
| Statements.BalanceIsDepositsMinusWithdrawals | src/modules/statements/useCases/getBalance/GetBalanceUseCase.spec.ts:23-44 | the folded balance equals the user's deposits minus the user's withdrawals |
| Statements.BalanceAppend | src/modules/statements/useCases/getBalance/GetBalanceUseCase.spec.ts:39-43 | appending a statement changes a balance by exactly that statement's contribution, so a statement put straight into the store counts |
| Statements.BalanceOfOwnStatements | src/modules/statements/useCases/getBalance/GetBalanceUseCase.spec.ts:23-44 | a balance depends only on the user's own statements |
| Statements.NoStatementsZeroBalance | src/modules/statements/useCases/getBalance/GetBalanceUseCase.spec.ts:52-65 | a user with no statements has balance 0 |
| Statements.FindAssignedStatement | src/modules/statements/useCases/getStatementOperation/GetStatementOperationUseCase.spec.ts:39-52 | looking up a stored statement by the id the store gave it and by its owner returns that statement with identical fields |
| Statements.InMemoryStatementsRepository.constructor | src/modules/statements/useCases/getBalance/GetBalanceUseCase.spec.ts:17-21 | a new statement store is empty and valid |
| Statements.InMemoryStatementsRepository.Create | src/modules/statements/useCases/getBalance/GetBalanceUseCase.spec.ts:39 | appends exactly one statement with the given fields under an id no stored statement has, and returns it; the store itself checks nothing |
| CreateStatement.Admit | src/modules/statements/useCases/createStatement/CreateStatementUseCase.spec.ts:23-129 | accepted exactly when the type is deposit, or withdraw of at most the balance, and the amount is positive and the user exists; an accepted request has the named type; each reported error names a rule the request breaks |
| CreateStatement.AcceptedKeepsSolvent | src/modules/statements/useCases/createStatement/CreateStatementUseCase.spec.ts:88-106 | appending an admissible statement to a log with no negative balance leaves no negative balance |
| CreateStatement.AcceptedLogSolvent | src/modules/statements/useCases/createStatement/CreateStatementUseCase.spec.ts:88-106 | a log made only of statements admissible in turn has no negative balance |
| CreateStatement.RunningBalanceNeverNegative | src/modules/statements/useCases/createStatement/CreateStatementUseCase.spec.ts:88-106 | in such a log no balance is negative at any prefix |
| CreateStatement.DepositAccepted | src/modules/statements/useCases/createStatement/CreateStatementUseCase.spec.ts:23-50 | a positive deposit by an existing user is accepted, raises that user's balance by the amount and leaves every other balance unchanged |
| CreateStatement.UnknownUserRejected | src/modules/statements/useCases/createStatement/CreateStatementUseCase.spec.ts:53-64 | a request from an unknown user with nothing else wrong fails with UserNotFound |
| CreateStatement.NegativeAmountRejected | src/modules/statements/useCases/createStatement/CreateStatementUseCase.spec.ts:66-86 | a negative amount fails with InvalidAmount, for deposit and withdraw alike, for an existing user on a log with no negative balance |
| CreateStatement.WithdrawWithoutStatementsRejected | src/modules/statements/useCases/createStatement/CreateStatementUseCase.spec.ts:88-106 | a positive withdrawal by a user with no statements fails with InsufficientFunds |
| CreateStatement.UnknownTypeRejected | src/modules/statements/useCases/createStatement/CreateStatementUseCase.spec.ts:108-129 | for an existing user and a positive amount, a type other than deposit or withdraw fails with InvalidOperationType |
| CreateStatement.WithdrawWholeBalanceAccepted | src/modules/statements/useCases/createStatement/CreateStatementController.spec.ts:159-183 | withdrawing exactly a positive balance is accepted and leaves the balance at 0 |
| CreateStatement.CreateStatementUseCase.constructor | src/modules/statements/useCases/createStatement/CreateStatementUseCase.spec.ts:17-21 | the use case works on the stores it is given |
| CreateStatement.CreateStatementUseCase.Execute | src/modules/statements/useCases/createStatement/CreateStatementUseCase.spec.ts:39-49 | a rejected request returns Admit's error and leaves the log unchanged; an accepted one appends and returns the statement with a fresh id, echoing user, type, amount and description; no balance turns negative |
| GetBalance.SingleDepositBalance | src/modules/statements/useCases/getBalance/GetBalanceUseCase.spec.ts:23-44 | a user whose only statement is a deposit has that deposit's amount as balance |
| GetBalance.GetBalanceUseCase.constructor | src/modules/statements/useCases/getBalance/GetBalanceUseCase.spec.ts:17-21 | the use case works on the stores it is given |
| GetBalance.GetBalanceUseCase.Execute | src/modules/statements/useCases/getBalance/GetBalanceUseCase.spec.ts:41-65 | fails exactly for an unknown user; otherwise reports the user's statements and a balance equal to deposits minus withdrawals, which is the fold of the reported statements |
| GetStatementOperation.GetStatementOperationUseCase.constructor | src/modules/statements/useCases/getStatementOperation/GetStatementOperationUseCase.spec.ts:17-21 | the use case works on the stores it is given |
| GetStatementOperation.GetStatementOperationUseCase.Execute | src/modules/statements/useCases/getStatementOperation/GetStatementOperationUseCase.spec.ts:41-107 | UserNotFound exactly for an unknown user, even if the statement id exists; StatementNotFound exactly when the user exists but owns no statement with that id; success exactly when the user exists and owns a statement with that id, and then the statement stored under that id. It has no modifies clause, so the log is unchanged |

## Left out

- HTTP routing, authentication and tokens, persistence wiring and the controller layer: these are I/O. The 404 for an unknown type in a URL comes from route matching, not from the ledger.
- Concurrency: the model is sequential, so the race between reading the balance and appending a withdrawal is not modelled.
- Authentication and profile lookup: password comparison and token issuance are library work, and those use cases are not part of this model.
- uuid ids and the created_at/updated_at timestamps: ids are fresh natural numbers and there are no clocks.
- The length and format of a bcrypt hash: the hasher is an arbitrary function.
- Absent (`undefined` or `null`) request fields: fields are strings, and a missing field is an empty one.
- The application error base class is not part of this model. Its default status 400 is the status the registration endpoint answers for a duplicate email.
- GetBalanceError and GetStatementOperationError are not part of this model beyond their tags. Their messages and statuses are not modelled.
- The implementations of `CreateStatementUseCase`, `GetBalanceUseCase`, `GetStatementOperationUseCase` and the in-memory repositories are not available, so the model rebuilds them from the use-case tests, with the assumptions listed above.
- JavaScript numbers: amounts and balances are modelled as `int`, so fractional amounts, NaN and Infinity are not covered.
- CreateStatement.UnknownTypeRejected: only covers an existing user and a positive amount, because the source fixes no order among ledger errors.
- CreateUser.CreateUserUseCase.Execute: states that the stored password is hash(password). It does not state that the stored password differs from the raw one, because that depends on the hasher having no fixed point at that input.
- Users.FindByEmail: does not state that the found user is the first match in the store, only that it is a stored user with that email.
- Statements.FindStatementOperation: does not state that the found statement is the first match, only that it is a stored statement with that id and owner. Ids are unique (see FindAssignedStatement), so at most one statement matches.
- CreateStatement.NegativeAmountRejected: assumes a log with no negative balance, so that a negative withdrawal cannot also exceed the balance. The source's tests start from an empty log.
- CreateStatement.UnknownUserRejected: only covers a request that breaks no other rule, because the source fixes no order among ledger errors.
