# Account ledger model

A Dafny model of the account ledger behind the online bank's REST API: the Account
record and its schema (`backend/src/models/Account.js`) and the four handlers that change
accounts (`backend/src/routes/accountRoutes.js`): create, deposit, withdraw and transfer.

The model is a sequential state machine over the collection of accounts, a
`map<string, Account>` keyed by account number. Each request is one atomic step.

- `wrappers.dfy`: `Option` (a request field that may be absent) and `Result`.
- `account_schema.dfy`, module `AccountSchema`: the `Account` datatype and JavaScript's
  `trim`. `Cast` is what the schema does to a new document: trim the two strings, fill in
  the defaults (balance 0, KYC flag false), and reject every path whose validator fails.
  `ValidStore` is the collection invariant: each document sits under its own account
  number, both strings are non-empty and trimmed, and the balance is not negative.
- `ledger_rules.dfy`, module `LedgerRules`: the amount check and the four handlers,
  written as functions from the collection before a request to the reported result and
  the collection after it. The error strings that the source matches by substring become
  the closed datatype `Error`, with one variant per distinct error response.
- `account_routes.dfy`, module `AccountRoutes`: class `Router`, whose field `accounts` is
  the shared collection. Its four methods go through the same checks step by step. Every
  method keeps `Valid()`, reports exactly the rule's result and leaves exactly the rule's
  collection. The `LedgerRules` functions are the specification; the `Router` methods are
  the imperative rendering of the same handlers, proved equal to them. `Transfer` reads and writes a transaction copy of the collection and replaces
  the collection with it only on commit, so an abort leaves nothing behind.
- `ledger_properties.dfy`, module `LedgerProperties`: facts about several calls or about
  the whole collection, listed in the table below.

Amounts are `real`. `Number(raw)` is abstracted as `NumberValue`: a finite number, or
`NonFinite` for NaN and the infinities.

Some consequences of the code that the model reproduces as written:

- An initial deposit of 0 is rejected. The deposit defaults to 0
  (`accountRoutes.js:18`), but it still goes through the amount check (line 29), which
  refuses zero (line 9). So an account cannot be opened with an empty balance, and a
  create without a deposit fails with `InvalidAmount`.
- A holder name made only of whitespace passes the route's presence check (line 20),
  which tests only for empty strings. After trimming it becomes empty, so the schema's
  `required` validator rejects it, and the request ends on the generic failure path
  (line 44). The model reports this as `CreateFailed`. The same happens when the trimmed
  account number is already taken, through the unique index (`Account.js:8`).
- Transfer checks the sender's balance before it looks up the receiver, so the order of
  errors is the code's (lines 120-152). The receiver's KYC flag is never read.
- The code has no retries, time-outs or lock ordering.

## Model

| member | source | states |
|---|---|---|
| `LedgerRules.ParseAndValidateAmount` | backend/src/routes/accountRoutes.js:7-13 | succeeds exactly when the number is finite and above zero, and returns it unchanged; otherwise fails with `InvalidAmount` |
| `LedgerRules.CreateAccount` | backend/src/routes/accountRoutes.js:16-45 | missing fields first, then duplicate number, then the amount check, then the store's refusal. Each error holds exactly when the earlier checks pass and its own fails, and the create succeeds exactly when every check passes. A failure leaves the collection unchanged. A success adds exactly one new key, with balance = the supplied deposit (> 0), trimmed holder name, trimmed number and the KYC flag as given (default false). Every existing account is unchanged |
| `LedgerRules.InsertDocument` | backend/src/routes/accountRoutes.js:31-36 | storing a document succeeds exactly when the schema accepts it and its number is not yet taken. It then adds exactly that document; otherwise it fails with `CreateFailed` and changes nothing |
| `LedgerRules.Deposit` | backend/src/routes/accountRoutes.js:60-82 | `InvalidAmount` exactly when the amount is invalid, checked before the lookup. `AccountNotFound` exactly when the amount is valid and the account is missing. A success raises only that account's balance, by exactly the amount, and returns the updated record. A failure changes nothing |
| `LedgerRules.Withdraw` | backend/src/routes/accountRoutes.js:86-110 | amount check, then lookup, then `InsufficientBalance` exactly when balance < amount. A success lowers only that account's balance, by exactly the amount, leaves it >= 0 and returns the updated record. A failure changes nothing |
| `LedgerRules.Transfer` | backend/src/routes/accountRoutes.js:114-178 | errors in the order: amount, missing party, same account, sender not found, sender unverified, sender short of funds, receiver not found. Each holds exactly when the earlier guards pass and its own fails, and the transfer succeeds exactly when every guard passes. A failure changes nothing. A success debits the sender and credits the receiver by the amount, keeps their sum, leaves every other account unchanged and returns both new records |
| `AccountSchema.Trim` | backend/src/models/Account.js:9 | the result has no whitespace at either end; an already trimmed string is returned as it is |
| `AccountSchema.TrimStartIsSuffix` | backend/src/models/Account.js:9 | removing leading whitespace keeps a suffix and cuts off only whitespace |
| `AccountSchema.TrimEndIsPrefix` | backend/src/models/Account.js:14 | removing trailing whitespace keeps a prefix and cuts off only whitespace |
| `AccountSchema.TrimIsMiddle` | backend/src/models/Account.js:9 | the trimmed string is a contiguous middle part of the input, with only whitespace before and after it |
| `AccountSchema.TrimEmpty` | backend/src/models/Account.js:13-14 | a string trims to empty exactly when it is all whitespace |
| `AccountSchema.TrimIdempotent` | backend/src/routes/accountRoutes.js:33 | trimming the already trimmed holder name again changes nothing |
| `AccountSchema.Cast` | backend/src/models/Account.js:3-27 | a document is accepted exactly when the trimmed number and name are non-empty and the balance, after its default, is >= 0. The stored record has the trimmed strings and the defaults applied. A rejection names exactly the failing paths |
| `LedgerProperties.ValidStoreIsSchemaFixpoint` | backend/src/models/Account.js:5-21 | the collection invariant (`AccountSchema.ValidStore`: unique key equal to the account number, trimmed non-empty strings, balance >= 0) holds exactly when every document sits under its own number and comes back unchanged from the schema |
| `LedgerProperties.CastRoundTrip` | backend/src/models/Account.js:3-27 | a valid account handed back to the schema comes out unchanged |
| `LedgerProperties.CastDefaults` | backend/src/models/Account.js:20-25 | a missing balance becomes 0 and a missing KYC flag becomes false |
| `LedgerProperties.UniqueAccountNo` | backend/src/models/Account.js:8 | in a valid collection two records with the same account number are the same record |
| `LedgerProperties.CreateFailsOnBlankHolderName` | backend/src/routes/accountRoutes.js:20-36 | for a trimmed, unused number and a valid deposit, the store refuses the create exactly when the holder name is all whitespace |
| `LedgerProperties.CreateRejectsNonPositiveDeposit` | backend/src/routes/accountRoutes.js:18-29 | the default deposit, zero and negative deposits fail with `InvalidAmount` and insert nothing |
| `LedgerProperties.CreatePreservesValid` | backend/src/routes/accountRoutes.js:31-36 | create keeps the collection invariant |
| `LedgerProperties.DepositPreservesValid` | backend/src/routes/accountRoutes.js:65-69 | deposit keeps the collection invariant |
| `LedgerProperties.WithdrawPreservesValid` | backend/src/routes/accountRoutes.js:96-101 | withdraw keeps the collection invariant, so the balance never goes below 0 |
| `LedgerProperties.TransferPreservesValid` | backend/src/routes/accountRoutes.js:143-158 | transfer keeps the collection invariant |
| `LedgerProperties.TotalUpdate` | backend/src/routes/accountRoutes.js:100-101 | replacing one record changes the sum of balances by exactly the change in its balance |
| `LedgerProperties.TotalInsert` | backend/src/routes/accountRoutes.js:31-36 | adding a record adds its balance to the sum |
| `LedgerProperties.TotalNonNegative` | backend/src/models/Account.js:19 | the sum of balances of a valid collection is >= 0 |
| `LedgerProperties.CreateAddsDeposit` | backend/src/routes/accountRoutes.js:29-36 | a create raises the total of all balances by exactly the new balance, or not at all on failure |
| `LedgerProperties.DepositAddsAmount` | backend/src/routes/accountRoutes.js:65-69 | a deposit raises the total by exactly the amount, or not at all on failure |
| `LedgerProperties.WithdrawRemovesAmount` | backend/src/routes/accountRoutes.js:100-101 | a withdrawal lowers the total by exactly the amount, or not at all on failure |
| `LedgerProperties.TransferConservesTotal` | backend/src/routes/accountRoutes.js:154-158 | every transfer leaves the total of all balances unchanged |
| `LedgerProperties.TransferKYCGate` | backend/src/routes/accountRoutes.js:138-141 | an unverified sender's transfer fails with `SenderNotKYCVerified`, whatever its balance and whether the receiver exists, and changes nothing |
| `LedgerProperties.TransferIgnoresReceiverKYC` | backend/src/routes/accountRoutes.js:148-158 | flipping the receiver's KYC flag changes neither whether a transfer succeeds nor which error it reports |
| `LedgerProperties.DepositThenWithdraw` | backend/src/routes/accountRoutes.js:63-101 | withdrawing the amount just deposited restores the collection exactly |
| `LedgerProperties.TransferThenTransferBack` | backend/src/routes/accountRoutes.js:138-158 | after a successful transfer, sending the same amount back from a verified receiver succeeds and restores the collection exactly |
| `LedgerProperties.WithdrawWholeBalance` | backend/src/routes/accountRoutes.js:96-100 | withdrawing exactly the balance succeeds and leaves 0 |
| `LedgerProperties.RunPreservesValid` | backend/src/models/Account.js:16-21 | after any sequence of requests the collection invariant holds, so every balance is >= 0 |
| `LedgerProperties.RunKeepsAccounts` | backend/src/routes/accountRoutes.js:60-158 | no sequence of requests deletes an account or changes its number, holder name or KYC flag |
| `LedgerProperties.RepeatedWithdrawals` | backend/src/routes/accountRoutes.js:96-101 | of n withdrawals of a from balance B, run one after another, c succeed. Either all succeed or the rest left is below a; the balance ends at exactly B - c*a, which is >= 0 |
| `AccountRoutes.Router.CreateAccount` | backend/src/routes/accountRoutes.js:16-45 | keeps the collection invariant, reports the result of `LedgerRules.CreateAccount` and leaves its collection; a failure changes nothing |
| `AccountRoutes.Router.Deposit` | backend/src/routes/accountRoutes.js:60-82 | keeps the invariant, reports the result of `LedgerRules.Deposit` and leaves its collection; a failure changes nothing |
| `AccountRoutes.Router.Withdraw` | backend/src/routes/accountRoutes.js:86-110 | keeps the invariant, reports the result of `LedgerRules.Withdraw` and leaves its collection; a failure changes nothing |
| `AccountRoutes.Router.Transfer` | backend/src/routes/accountRoutes.js:114-178 | keeps the invariant, reports the result of `LedgerRules.Transfer` and leaves its collection. Writes go to a transaction copy that is committed only on success |

## Left out

- HTTP: Express routing, request and response objects, and status codes. Each handler's
  result is a `Result` with an `Error` variant in place of a status and message.
- Number parsing and floating point: `Number(raw)` on strings, and float rounding in
  balance arithmetic. Amounts are exact reals, and "finite" is part of the input.
- JavaScript truthiness and coercion of non-string inputs. Request fields are typed
  `Option<string>`, `Option<NumberValue>` and `Option<bool>`. `String(accountNo)` and
  `Boolean(isKYCVerified)` are the identity on these types.
- Concurrency: Mongo sessions, `commitTransaction`/`abortTransaction`, the atomicity of
  `findOneAndUpdate`, and the lost-update window between Withdraw's read and its save
  (lines 91-101). Every request is one sequential atomic step.
- Storage failures and their generic "Failed to ..." responses (lines 43-44, 80-81,
  108-109, 176-177). The store is total. The one exception is the create path, where the
  schema's validators or the unique index refuse the document; that refusal is modelled
  as `CreateFailed`.
- Timestamps (`Account.js:28`) and the listing handler (lines 49-57). They need a clock
  and add no logic here.
- How Mongo casts query filters. The model looks accounts up by the key exactly as given,
  and stores new documents under the trimmed number.
- `server.js` (connection and start-up) and the React front end. The front end's
  required-field checks repeat the backend's.
- `LedgerProperties.RepeatedWithdrawals`: states the sequential form of the bound on
  repeated withdrawals, not the concurrent one, because concurrency is not modelled.
