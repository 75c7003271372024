# Banking API: fund transfer, account store and authorization, modelled in Dafny

This project models the core of a small banking REST API written in Go. The API authenticates
users with a signed bearer token, keeps accounts in one relational table and moves money between
accounts. The model covers:

- **The account store** (`storage.dfy`, module `Storage`). The `Storage` interface becomes a class,
  `AccountStore`. Its rows are a `map` from id to `Account`, beside the counter behind the table's
  serial id column. Create, update and delete are methods that change the map. Each write takes a
  `WriteOutcome`: the database accepts the statement, or refuses it with the driver's error text.
  This way every error branch can be stated, and each refused write carries its own error. The reads (`GetAccountByID`, `GetAccountByEmail`, `GetAccounts`) change nothing; the last
  two are scans with loop invariants.
- **The transfer handler** (`transfer.dfy`, module `Transfer`). `Transfer` is a pure function of the
  table, the decoded request and the outcomes of the three possible updates. The imperative
  `HandleTransfer` issues the reads and writes in the code's order against an `AccountStore`, and is
  proved to end in the state and answer that `Transfer` gives. Lemmas about `Transfer` cover each
  branch:
  - every error except a failed compensation leaves the table unchanged;
  - between distinct accounts the two balances' sum is conserved, and every other row is untouched;
  - a refused second update followed by a successful compensating write restores the table exactly;
  - a refused compensating write loses the amount.
- **The authorization middleware** (`auth.dfy`, module `Auth`), **the error-to-status wrapper**
  (`http.dfy`, module `Http`) and **the login handler** (`login.dfy`, module `Login`). Each is a pure
  guard chain. Token verification, claim decoding, password hashing and token signing are function
  parameters.
- **Shared records** (`types.dfy`, module `Types`): the account row, the transfer request, errors,
  and Go's `int64` with its two's-complement wrap-around (`Wrap64`). Balances and amounts are `int64`
  in the code, so debit and credit wrap on overflow, and the model says so.

Two behaviours of the code are stated as lemmas, not corrected:

- **Self-transfer** (`SelfTransferCredits`). When source and destination are the same account, the
  handler loads two separate copies of the row. The destination's copy is written last, so the
  balance ends at the original plus the amount.
- **No positive-amount check** (`NegativeAmountPassesCheck`). The only guard is "balance below
  amount". A negative amount passes it, moves money from the destination to the source, and can
  leave the destination below zero. Nothing in the code enforces a positive amount or a
  non-negative balance.

The transfer handler never reads the identity the middleware attaches. Any authenticated caller can
therefore move funds out of any account, not only their own; `Transfer` and `HandleTransfer` take no
identity, and the model keeps this behaviour.

The middleware takes the `Authorization` header's whole value as the token; no `Bearer ` prefix is
stripped. A `token` cookie, when present, wins even if it is empty. The account id claim is a JSON
number. It is truncated toward zero to an `int` (`TruncToInt`), so a claim of `3.7` names account 3.

## Model

| member | source | states |
|---|---|---|
| Types.Wrap64 | api.go:149-150 | int64 arithmetic: the result is the mathematical value when it is in range, and congruent to it modulo 2^64 always |
| Types.WrapUndo | api.go:149-157 | debiting an amount and re-crediting it restores the original int64 balance exactly, even if the debit wrapped |
| Storage.Overwritten | storage.go:103-111 | an update changes only the row with the given id: it overwrites name, email, password, phone and balance, keeps id and creation time, and leaves the table unchanged when no row has that id |
| Storage.AccountStore.constructor | storage.go:56-71 | a store on a freshly initialised database has an empty table and an id sequence starting at 1 (it stands for creating the table in a new database, not for reopening one that already holds rows) |
| Storage.AccountStore.CreateAccount | storage.go:85-94 | an accepted insert stores the row under the next sequence id, which is non-zero and previously unused, and returns the account with that id; a refused insert returns the driver's error and changes nothing |
| Storage.AccountStore.DeleteAccount | storage.go:96-101 | an accepted delete removes exactly the row with that id; deleting an absent id is no error and changes nothing; a refused delete returns the driver's error and changes nothing |
| Storage.AccountStore.UpdateAccount | storage.go:103-111 | an accepted update leaves the table as `Overwritten` says; a refused one returns "error updating account" with the driver's error text and changes nothing |
| Storage.AccountStore.GetAccountByID | storage.go:134-144 | returns the stored row with that id, or a "not found" error naming the id, never a zero-value account |
| Storage.AccountStore.GetAccountByEmail | storage.go:73-83 | returns a stored row with that email whose id is the smallest among rows sharing the email; fails with "not found" exactly when no row has the email |
| Storage.AccountStore.GetAccounts | storage.go:114-131 | returns every stored row once, in id order, and nothing else, so its length is the number of rows |
| Storage.DeleteThenGet | storage.go:96-101 | after a delete, selecting that id fails and every other id selects as before |
| Storage.CreatedFoundByEmail | storage.go:73-94 | a new row with an email no other row has is what a select by that email returns; if an older row has the email, the older row shadows the new one (emails are not unique) |
| Http.HandleFunc | api.go:255-270 | with auth required and no identity the answer is 401 "Unauthorized"; otherwise a handler error becomes 400 with the error's text, and a written response passes through |
| Http.HandlerNotRunWithoutIdentity | api.go:257-262 | a request refused for want of an identity gets the same answer whatever the handler would do |
| Auth.TruncToInt | api.go:225 | converting the float id claim to int drops the fractional part toward zero |
| Auth.AuthWithJWT | api.go:189-241 | admits a request exactly when some identity is proved: the token is non-empty and verifies, its claims hold a numeric id and a string email, an account with that id exists, and its stored email equals the claim; the admitted identity is that one |
| Auth.Serve | api.go:236-239 | an authenticated route answers 401 "Unauthorized" when no identity is proved, and otherwise runs the wrapped handler with the proved identity |
| Auth.HandlerRunsOnlyWhenProved | api.go:195-234 | without a proved identity the answer is 401 and does not depend on the handler |
| Auth.AdmittedRequestReachesHandler | api.go:236-268 | behind the middleware the wrapper's own identity check always passes, so an admitted request reaches its handler |
| Auth.CookieOverridesHeader | api.go:191-198 | a present `token` cookie replaces the `Authorization` header value; an empty cookie is refused as a missing token |
| Auth.StaleEmailRefused | api.go:225-234 | a valid token whose email no longer matches the stored account is refused with an email mismatch |
| Login.HandleLogin | api.go:44-76 | login answers 200 with the body "Login successful" and the signed token in a 24-hour HTTP-only cookie exactly when the account exists, the password matches and signing succeeds; an unknown email or a wrong password is answered 401 "Invalid credentials"; a signing failure is returned as an error, so the wrapper answers 400; an undecodable body is an error |
| Login.UniformRejection | api.go:50-57 | an unknown email and a wrong password get the identical 401 "Invalid credentials" response |
| Transfer.Transfer | api.go:128-163 | the transfer over the table: it never adds or removes a row, and it answers with the echoed request only when both updates were accepted. Each branch is pinned by a lemma: an undecodable body, a missing account, insufficient funds or a refused first update leave the table unchanged (`MalformedBodyChangesNothing`, `MissingAccountChangesNothing`, `InsufficientFundsChangesNothing`, `DebitFailureChangesNothing`); a refused second update is followed by the compensating write (`CreditFailureCompensated`, `CompensationFailureLosesFunds`); success debits and credits (`DistinctTransferConserves`, `SelfTransferCredits`, `NegativeAmountPassesCheck`) |
| Transfer.HandleTransfer | api.go:128-163 | the handler's reads and writes against the store end in the table and answer that `Transfer` gives, and keep the store's invariant |
| Transfer.MalformedBodyChangesNothing | api.go:129-132 | an undecodable body is an error and leaves the table unchanged |
| Transfer.MissingAccountChangesNothing | api.go:135-147 | a missing source or destination returns the lookup's "not found" error for that id and issues no update |
| Transfer.InsufficientFundsChangesNothing | api.go:140-142 | a source balance below the amount returns "insufficient funds" and leaves the table unchanged |
| Transfer.DebitFailureChangesNothing | api.go:152-154 | a refused first update returns that update's error; the second is never issued and the table is unchanged |
| Transfer.CreditFailureCompensated | api.go:156-160 | a refused second update returns that update's own error; when the compensating write succeeds, the source is back at its balance and the whole table is unchanged, self-transfer included |
| Transfer.CompensationFailureLosesFunds | api.go:156-160 | when the compensating write is refused as well, the second update's error is still returned and the compensation's error is dropped; the table is the original with only the source's balance debited, for any amount and for self-transfer too; for distinct accounts without overflow, the pair's sum drops by the amount |
| Transfer.DistinctTransferConserves | api.go:149-162 | with distinct accounts and both updates accepted: the source falls by the amount, the destination rises by it, their sum is conserved (modulo 2^64, and exactly without overflow), every other row is unchanged, and the request is echoed |
| Transfer.SelfTransferCredits | api.go:135-156 | a transfer from an account to itself ends with that balance raised by the amount |
| Transfer.NegativeAmountPassesCheck | api.go:140-150 | a negative amount passes the funds check and can leave the destination below zero while the source grows |
| Transfer.ErrorsLeaveTableUnchanged | api.go:135-160 | every error leaves the table exactly as it was, except when both the second update and its compensation are refused |

## Left out

- HTTP routing and server start-up (`Run`) and JSON encoding (`WriteJSON`) are I/O plumbing. A request body's decoding is an `Option`: `None` is a body that does not decode.
- Token signing and parsing (`createJWT`, `validateJWT`) use an external JWT library, the wall clock and a secret from the environment. The model replaces them with `verify` (token string to claims or rejection) and `sign` (account to token, which may fail).
- The bcrypt comparison is an external slow hash; it is the `passwordMatches` parameter.
- SQL connection, schema and row scanning (`NewPostgresStore`, `Init`, `CreateAccountTable`, `DropTable`, `scanIntoAccount`) are replaced by the in-memory map. The store's constructor stands for initialising a fresh database. `create table if not exists` on a database that already has the table keeps its rows, and that case is not modelled.
- Database errors on reads are not modelled: `GetAccountByID`, `GetAccountByEmail` and `GetAccounts` fail only when no row matches. Writes take an explicit accept/refuse flag, which also stands for the column-width limits of the schema.
- Row order: the scans go in id order. A select without `ORDER BY` has no guaranteed order, and after updates the database may return rows in another order, so "first match by email" means "smallest id" here.
- Storage.AccountStore.CreateAccount: a refused insert leaves the id sequence where it was. A database may have consumed a sequence value anyway; ids are still never reused. An accepted insert stores `createdAt` exactly as given. The real `created_at` column is a `timestamp`: it rounds the value to microseconds and drops its time zone, so a later read may not return the exact time that was inserted.
- The other handlers (`handleGetAllAccounts`, `handleGetAccountByID`, `handleCreateAccount`, `handleDeleteAccount`) and `getID` are not modelled. Each calls the store once, through a call that is modelled, and writes JSON. All but `handleGetAllAccounts` first parse an id or decode a body. `handleCreateAccount` also builds the account with `GenerateNewAccount`, the step that refuses an empty email or password; `GenerateNewAccount` is not part of this model.
- The request context (`NewAuthContext`, `GetAuthContext`) is a plain `AuthContext` record handed to the handler. The log line in the wrapper is not modelled.
- Auth.TruncToInt: the id claim is a real number, so float64 rounding of large ids and the out-of-range float-to-int conversion are not modelled.
- A handler either writes a response or returns an error. A handler that writes and then fails to encode the JSON, so that the wrapper writes a second status, is not modelled.
- Transfer.DistinctTransferConserves: conservation is stated for the two accounts, together with "every other row unchanged". A sum over the whole table is not defined.
- Concurrent transfers racing on the same rows: the code takes no locks, and concurrency is not modelled. `Account` records are values; the code's `*Account` pointers are always freshly loaded, so no aliasing is lost.
