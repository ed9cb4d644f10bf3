# Bookkeeping API core in Dafny

A verified model of the logic at the centre of a small personal-finance API
(an ASP.NET / MediatR / EF Core service): transactions recorded against
categories, a validated create command, a list query, the global exception
handler's response mapping, and the login / refresh-token exchange.

| file | module | models |
|---|---|---|
| `wrappers.dfy` | `Wrappers` | `Option`, standing for a C# nullable |
| `domain.dfy` | `Domain` | `Category`, `Transaction`, its defaults and `Transaction.Create` |
| `persistence.dfy` | `Persistence` | the transaction store: committed rows, staged rows, `Add`, `SaveChanges` assigning identity keys |
| `create_transaction.dfy` | `CreateTransaction` | `CreateTransactionCommand` and its handler |
| `validator.dfy` | `Validation` | `CreateTransactionCommandValidator` as a pure `Validate` |
| `get_transactions.dfy` | `GetTransactions` | the list query's projection |
| `exception_handler.dfy` | `ExceptionHandling` | the `exception switch` of `CustomExceptionHandler` and the response it writes |
| `pipeline.dfy` | `Pipeline` | sending a create command: validate, then handle |
| `auth.dfy` | `Auth` | the user table and `AuthController.Login` / `Refresh` |

Conventions: a `DateTime` is its tick count (`int`, 100 ns units) and every clock
read is a parameter `now`; `decimal` amounts are `real`; strings are
`seq<char>`, and the validator's length rule counts UTF-16 code units as .NET's
`string.Length` does. The access-token generator is a function parameter
`generate(id, username, role)`; the refresh token the generator would produce is
a parameter `newRefreshToken`, and lemmas that need it to be fresh say so in
their `requires`.

The user table is a class whose `Login` and `Refresh` methods rewrite one user's
two refresh fields in place; each method is proved equal to a step function
(`LoginStep`, `RefreshStep`) over the table, and the lemmas about the exchange
are stated on those functions. The transaction store is a class too: `Add`
stages a row and `SaveChanges` commits staged rows in order, each taking the next
identity value (a loop proved against `WithKeys`).

Four behaviours of the code differ from what an API of this kind is usually
described as doing; the model follows the code:
- Listing transactions: the category name is resolved from the `Category`
  navigation, which the query never loads, so rows read by the query show
  "Unknown" rather than the category's name (`CreatedThenListedIsUnknown`).
- Refresh refuses a token whose expiry is equal to `now`, not only one whose
  expiry has passed.
- Login does not look a user up by name and then compare the password: it takes
  the first user whose name and stored password both equal the request's.
- `CategoryId` is only checked against 0; a non-existent category passes the
  validator (the database's foreign key, not modelled, rejects it later).

## Model

| member | source | states |
|---|---|---|
| Domain.NewTransaction | src/Domain/Entities/Transaction.cs:5-12 | a default transaction has key 0, empty description, no category, and the clock read as its date |
| Domain.Create | src/Domain/Entities/Transaction.cs:14-24 | the factory copies description, amount and category id unchanged, dates the row `now`, leaves the key 0 and the category null, and accepts every input |
| Persistence.WithKeysAt | src/Application/Interfaces/IApplicationDbContext.cs:12 | committing rows gives the k-th staged row the key first + k and keeps its other columns |
| Persistence.WithKeysAppend | src/Application/Interfaces/IApplicationDbContext.cs:12 | committing one more staged row appends it, under the next key, after the rows already committed |
| Persistence.TransactionStore.Add | src/Application/Interfaces/IApplicationDbContext.cs:11 | `Add` stages the row at the end of the pending list and commits nothing |
| Persistence.TransactionStore.SaveChanges | src/Application/Interfaces/IApplicationDbContext.cs:12 | saving appends the staged rows in order with consecutive fresh keys, empties the pending list, keeps keys increasing, and returns the number of rows written |
| CreateTransaction.RowFor | src/Application/Transactions/Commands/CreateTransaction/CreateTransactionCommand.cs:21 | the handler's row takes the command's `Name` as its description, its amount and category id, is dated `now` and is unsaved |
| CreateTransaction.Handle | src/Application/Transactions/Commands/CreateTransaction/CreateTransactionCommand.cs:19-27 | exactly one row is added after the existing ones, which stay unchanged; the returned id is the key the store assigned, positive and greater than every earlier key; no rule is checked |
| Validation.Utf16Length | src/Application/Transactions/Commands/CreateTransaction/CreateTransactionCommandValidator.cs:12 | the length the 200-character rule measures lies between the character count and twice it, and equals the character count exactly when all characters are in the BMP |
| Validation.IsWhiteSpace | src/Application/Transactions/Commands/CreateTransaction/CreateTransactionCommandValidator.cs:11 | the characters `NotEmpty` treats as blank are .NET's `char.IsWhiteSpace` set; space, tab, line feed and carriage return are among them and all of them lie in the BMP |
| Validation.IsBlank | src/Application/Transactions/Commands/CreateTransaction/CreateTransactionCommandValidator.cs:11 | `string.IsNullOrWhiteSpace`: the empty name is blank, and a blank name has only BMP characters, so its measured length is its character count |
| Validation.Utf16LengthOfChar | src/Application/Transactions/Commands/CreateTransaction/CreateTransactionCommandValidator.cs:12 | one character counts two UTF-16 code units above U+FFFF and one otherwise |
| Validation.Utf16LengthAppend | src/Application/Transactions/Commands/CreateTransaction/CreateTransactionCommandValidator.cs:12 | the measured length of a concatenation is the sum of the parts' lengths, so a name's length is the sum of its characters' shares |
| Validation.Validate | src/Application/Transactions/Commands/CreateTransaction/CreateTransactionCommandValidator.cs:8-19 | each of the four failures is reported if and only if its rule is broken (blank name, name over 200, amount not above 0, category id 0), nothing else is reported, and the list is empty exactly when all rules hold |
| Validation.ValidateOrdered | src/Application/Transactions/Commands/CreateTransaction/CreateTransactionCommandValidator.cs:10-18 | failures appear in declaration order Name, Amount, CategoryId, each at most once |
| Validation.LongBlankNameGetsBothNameFailures | src/Application/Transactions/Commands/CreateTransaction/CreateTransactionCommandValidator.cs:10-12 | a whitespace-only name over 200 characters draws "Name is required." and then "Name must not exceed 200 characters." |
| Validation.NameLengthBoundary | src/Application/Transactions/Commands/CreateTransaction/CreateTransactionCommandValidator.cs:12 | a name of exactly 200 BMP characters passes the length rule and one of 201 BMP characters fails it |
| GetTransactions.Handle | src/Application/Transactions/Queries/GetTransactions/GetTransactionsQuery.cs:18-33 | one entry per stored row in store order, copying key, amount, date and category id, the description as name, and the attached category's name or "Unknown" |
| GetTransactions.HandleAppend | src/Application/Transactions/Queries/GetTransactions/GetTransactionsQuery.cs:20-30 | the projection preserves order: listing a concatenation lists its parts in turn |
| GetTransactions.CreatedThenListedIsUnknown | src/Application/Transactions/Queries/GetTransactions/GetTransactionsQuery.cs:20-30 | after a create, the listing is the old listing plus one entry carrying the command's fields, the assigned key, `now`, and "Unknown" |
| ExceptionHandling.ErrorMessages | src/WebApi/Middleware/CustomExceptionHandler.cs:25 | the messages of the validation failures, one per failure, in their original order |
| ExceptionHandling.Join | src/WebApi/Middleware/CustomExceptionHandler.cs:25 | `string.Join`: no messages give the empty detail, otherwise the detail begins with the first message |
| ExceptionHandling.JoinAppend | src/WebApi/Middleware/CustomExceptionHandler.cs:25 | joining keeps every message in order with exactly one separator between neighbours |
| ExceptionHandling.JoinLength | src/WebApi/Middleware/CustomExceptionHandler.cs:25 | the joined detail is the messages' total length plus one separator per gap |
| ExceptionHandling.Classify | src/WebApi/Middleware/CustomExceptionHandler.cs:20-32 | status 400 exactly for a validation exception, with title "Validation Error" and its messages joined by ", "; 500 exactly for any other, with "Internal Server Error" / "An unexpected error occurred." |
| ExceptionHandling.OtherExceptionsIndistinguishable | src/WebApi/Middleware/CustomExceptionHandler.cs:27-31 | an internal exception's own message never reaches the response: any two look the same |
| ExceptionHandling.TryHandle | src/WebApi/Middleware/CustomExceptionHandler.cs:16-46 | the response status equals the problem's status, the problem carries the classification and the request path, and the exception is always reported handled |
| Pipeline.SendCreate | src/Application/DependencyInjection.cs:14-20 | an invalid command fails with a validation exception carrying every failure and persists nothing; a valid one is persisted by the handler under the key `old(nextId)`, returned as the result, and the counter advances by one |
| Pipeline.RejectedCommandIsBadRequest | src/WebApi/Middleware/CustomExceptionHandler.cs:22-25 | a rejected command is answered 400 "Validation Error" with its failures' messages joined by ", " |
| Pipeline.NonPositiveAmountDetail | src/Application/Transactions/Commands/CreateTransaction/CreateTransactionCommandValidator.cs:14-15 | a command whose only fault is a non-positive amount is answered with exactly "Amount must be greater than 0." |
| Pipeline.AllRulesFailDetail | src/Application/Transactions/Commands/CreateTransaction/CreateTransactionCommandValidator.cs:10-18 | when all four rules fail the detail lists the four messages in declaration order separated by ", " |
| Auth.FirstMatchFrom | src/Presentation/Controllers/AuthController.cs:25-26 | `FirstOrDefault`: the result, if any, is selected by the filter and no earlier user is; none means no user is selected |
| Auth.LoginStep | src/Presentation/Controllers/AuthController.cs:22-39 | login succeeds exactly when some user's name and stored password equal the request's; a refusal returns the same table and "Invalid username or password."; a success gives the first such user the new token expiring now + 7 days, returns that token with an access token generated from the user's id, name and role, and leaves every other user and every account field unchanged |
| Auth.RefreshStep | src/Presentation/Controllers/AuthController.cs:41-58 | refresh succeeds exactly when a user holds the token and the first holder's expiry is after now; a refusal returns the same table and "Invalid or expired refresh token."; a success rotates the first holder's token and expiry, returns the new token, and leaves everything else unchanged |
| Auth.UserTable.FindFirst | src/Presentation/Controllers/AuthController.cs:25-45 | the scan of the table returns the first user the filter selects, or none; it serves both the login lookup by name and password (lines 25-26) and the refresh lookup by token (lines 44-45) |
| Auth.UserTable.Login | src/Presentation/Controllers/AuthController.cs:22-39 | the new table and the response are those of `LoginStep` |
| Auth.UserTable.Refresh | src/Presentation/Controllers/AuthController.cs:41-58 | the new table and the response are those of `RefreshStep` |
| Auth.LoginRejectsUnknownCredentials | src/Presentation/Controllers/AuthController.cs:25-29 | with no user whose name and stored password both equal the request's, login answers "Invalid username or password." and changes nothing |
| Auth.LoginRotatesFirstMatch | src/Presentation/Controllers/AuthController.cs:25-38 | login updates the first matching user: its token becomes the new one, expiry now + 7 days, the response holds exactly that token and an access token generated from the user's id, name and role, and nothing else changes |
| Auth.RefreshRejectsUnknownToken | src/Presentation/Controllers/AuthController.cs:44-48 | a token no user stores is answered "Invalid or expired refresh token." and changes nothing |
| Auth.RefreshRejectsExpiredToken | src/Presentation/Controllers/AuthController.cs:47-48 | a token whose first holder's expiry is at or before now (equality included) is refused and changes nothing |
| Auth.RefreshRotatesToken | src/Presentation/Controllers/AuthController.cs:50-57 | an unexpired token is rotated: stored token overwritten by the new one, expiry now + 7 days, response carries the new token, nothing else changes |
| Auth.StepsChangeAtMostOneSession | src/Presentation/Controllers/AuthController.cs:22-58 | a refused login or refresh leaves the table unchanged; an accepted one changes at most one user, keeps the table size, and never changes any id, name, password or role |
| Auth.RefreshReplayFails | src/Presentation/Controllers/AuthController.cs:44-54 | after a successful refresh with t, a second refresh with t is refused, given the new token differs from t and no other user held t |
| Auth.LoginThenRefresh | src/Presentation/Controllers/AuthController.cs:22-57 | the token issued by a login, if fresh, is accepted by a refresh before it expires, which returns the next token and, when the next token differs from it, leaves the old one held by nobody |
| Auth.StepsPreserveUniqueTokens | src/Presentation/Controllers/AuthController.cs:32-35 | with a fresh new token, login and refresh keep every refresh token held by at most one user |
| Auth.SuccessfulStepActivates | src/Presentation/Controllers/AuthController.cs:34-35 | after a successful login or refresh the chosen user's session is active until now + 7 days and expired from then on |
| Auth.NoSessionNeverRefreshed | src/Presentation/Controllers/AuthController.cs:44-48 | a user with no refresh token is never changed by a refresh |

## Left out

- Token generation: JWT signing, claims, issuer, audience and lifetime are not modelled; `generate` is an arbitrary function of the user's id, name and role (the `ToString` of the id is folded into it), and the random refresh token is a parameter whose freshness is a lemma hypothesis.
- Request dispatch: MediatR's handler lookup and the validation behaviour's code are not part of this model; `Pipeline.SendCreate` states the behaviour the validator is registered for (validate, throw with every failure, else handle) as an assumption.
- Concurrency: async/await, cancellation tokens and the race of two concurrent refreshes of one user are not modelled; every operation runs alone.
- Persistence: EF Core mapping, seed data, migrations and database failures are not modelled; the store is an in-memory class whose identity column is a counter, `FirstOrDefault` uses the table's order (the queries have no `ORDER BY`), and a login or refresh writes the user's fields at once (its `SaveChangesAsync` never fails here). Two consequences follow. First, the foreign key from `CategoryId` to `Category` (src/Infrastructure/Persistence/AppDbContext.cs:27-30) is not enforced: a command the validator accepts with a non-existent category id is persisted here, while the database would make `SaveChangesAsync` throw and the caller would get a 500 response. Second, the in-place user update assumes `Users` is a tracked set; the context class exposes its other sets without tracking (src/Infrastructure/Persistence/AppDbContext.cs:16-17) and does not implement `Users` at all, so whether the update reaches the database is not modelled.
- Auth.UserTable.Login: a null field in a request is not modelled (requests carry strings); the `User` entity is not part of this model, so its field types are inferred from their use.
- Auth.UserTable.Refresh: a null `RefreshToken` in the request is not modelled (requests carry strings). EF Core translates a comparison with a null parameter as C# does, so such a request would select the first user who holds no token, and only the expiry check would then decide; `Auth.NoSessionNeverRefreshed` holds only because a request's token is a string.
- Auth.UserTable.Refresh: `DateTime.AddDays` throwing beyond the year 9999 is not modelled, and the two clock reads (the expiry check and the new expiry) are one `now`.
- Domain.Create: the two clock reads (property default and initializer) are one `now`; `decimal` range and precision limits are not modelled.
- CreateTransaction.Handle: 32-bit overflow of the identity column is not modelled.
- `Category.Transactions` (the inverse navigation) is not modelled; it has no behaviour here.
- Dependency wiring, Swagger, HTTP routing and status plumbing (`TransactionController` only forwards), logging, and writing the JSON body are not modelled.
