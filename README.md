# balance-transactions in Dafny

A model of the transaction-processing core of the `balance-transactions`
service. Users hold a balance that is stored as decimal text. A transaction
request names a user, a state (`win` adds the amount, `lose` subtracts it),
an amount given as text, a caller-chosen transaction ID and a `Source-Type`
header. The service applies the request once, as one all-or-nothing unit of
work, and refuses a transaction ID it has already recorded.

Modules, one per layer of the source:

- `Wrappers`: `Option` and `Result`.
- `Numerals`: decimal digit strings and Go's `strings.Split(s, ".")`.
- `Amounts`: `parseAmount`, `formatAmount` and `calculateNewBalance`
  (`internal/service/user.go`), over an exact decimal `Decimal(units, scale)`.
- `Records`: the rows and the request and response shapes.
- `Repository`: `UserRepository` (`internal/database/user.go`), a class with a
  users map and an append-only transaction log.
- `Service`: `UserService` (`internal/service/user.go`).
  - `ApplyTransaction` is one unit of work as a function of the store.
  - `UserService.ProcessTransaction` carries out the same steps on the
    repository: snapshot, steps, rollback on failure. It is proved to agree
    with `ApplyTransaction`.
- `Handler`: the handlers (`internal/handler/user.go`).
  - Validation, where the first failing check decides the answer.
  - The mapping from outcomes to HTTP status codes and JSON bodies.
  - The source matches errors by their message text. Here they are closed
    datatypes (`ServiceError`, `ValidationError`, `AmountError`).
- `SpecialValues`: the path that `NaN` and the infinities take through
  validation and the service as written (see Findings).
- `Examples`: the unit tests' inputs worked through the model.

Points where the model keeps the code's own behaviour:

- The code's `parseAmount` is `strconv.ParseFloat`. It accepts any number of
  decimals, and zero and negative values too. "At most two decimals" and
  "positive" are checked only by the handler's `validateAmount`, on the
  request amount. The model does the same: `ParseAmount` keeps every fraction
  digit, and `ValidateAmount` refuses too many of them.
- The path parameter is read with `strconv.ParseUint`, so `0` and leading
  zeros are accepted. This holds even though the error message says
  "positive integer".
- A state other than `win` or `lose` that reaches the service answers 500.
  The handler only maps `insufficient balance` to 400. The handler's own
  validation keeps such states from reaching the service.

## Model

| member | source | states |
|---|---|---|
| Numerals.SplitDot | internal/handler/user.go:181 | `strings.Split` on "." gives one piece more than there are dots, and no piece contains a dot |
| Numerals.JoinSplitDot | internal/handler/user.go:181 | splitting loses nothing: joining the pieces with "." gives the text back |
| Amounts.ParseAmount | internal/service/user.go:132-134 | an accepted amount has fewer fraction digits than characters; its sign follows a leading '-' |
| Amounts.ParseAmountAccepts | internal/service/user.go:132-134 | parsing succeeds exactly on an optional sign, then digits and at most one '.', with at least one digit |
| Amounts.RoundedCents | internal/service/user.go:136-138 | rounding to cents keeps the sign of the amount |
| Amounts.RoundingIsNearest | internal/service/user.go:136-138 | the rounded cents are within half a cent of the exact amount |
| Amounts.CentsAreExact | internal/service/user.go:136-138 | an amount with at most two decimals is rendered without any rounding |
| Amounts.FormatAmount | internal/service/user.go:136-138 | the text always ends in '.' and exactly two digits |
| Amounts.FormatThenParse | internal/service/user.go:132-138 | parsing formatted text gives back the rounded cents, at scale 2 |
| Amounts.FormatThenParseCents | internal/service/user.go:132-138 | parse(format(c)) == c for every whole number of cents, negative ones included |
| Amounts.ParseFormatParse | internal/service/user.go:132-138 | text with two decimals is reproduced by format-then-parse |
| Amounts.Combine | internal/service/user.go:141-149 | the exact sum or difference of two decimals, at the larger of their scales |
| Amounts.CalculateNewBalance | internal/service/user.go:140-153 | a win adds the amount; a lose succeeds exactly when the amount is at most the balance, subtracts it and is never negative, and otherwise fails with insufficient balance; any other state fails with invalid state |
| Amounts.CentsArithmetic | internal/service/user.go:140-153 | for a balance of b cents and an amount with at most two decimals worth a cents, a win gives b + a cents, and a lose gives b - a cents or insufficient balance when b - a < 0 |
| Amounts.NewBalanceNotNegative | internal/service/user.go:144-149 | from a non-negative balance and amount, any new balance is non-negative |
| Repository.CountPositiveIffRecorded | internal/database/user.go:43-47 | the count of records with an ID is positive exactly when some record has that ID |
| Repository.CountAppend | internal/database/user.go:43-50 | appending a record raises its ID's count by one and leaves the others alone |
| Repository.UniqueMeansAtMostOnce | internal/service/user.go:62-69 | with unique IDs in the log, no ID is counted more than once |
| Repository.UserRepository.GetUser | internal/database/user.go:27-31 | the row is found exactly when the ID is in the table, with its stored balance; otherwise not found |
| Repository.UserRepository.GetUserForUpdate | internal/database/user.go:33-37 | the same answer as GetUser |
| Repository.UserRepository.UpdateUserBalance | internal/database/user.go:39-41 | only that user's balance changes; an unknown ID changes nothing; the log is untouched |
| Repository.UserRepository.TransactionExists | internal/database/user.go:43-47 | true exactly when some record has the ID, and exactly when the counting loop's count is positive |
| Repository.UserRepository.CreateTransaction | internal/database/user.go:49-51 | the record is appended at the end of the log; the users are untouched |
| Repository.UserRepository.Snapshot | internal/service/user.go:61 | the snapshot taken at the start of a unit of work is the whole current state |
| Repository.UserRepository.Rollback | internal/service/user.go:61 | a failed unit of work restores the state it began with |
| Service.ApplyTransaction | internal/service/user.go:52-130 | the duplicate check comes first; a missing user is not-found; then an unparsable balance, an unparsable amount and calculateNewBalance's own error are each reported, in that order; a failure leaves the store unchanged; a success changes only this user's balance, to two-decimal text, and appends exactly its record; it succeeds exactly when every step's condition holds |
| Service.SuccessWritesNewBalance | internal/service/user.go:91-107 | a success stores the formatted result of calculateNewBalance |
| Service.Conservation | internal/service/user.go:81-107 | in whole cents, the stored balance is the old one plus (win) or minus (lose) the amount, and a lose never goes below zero |
| Service.KeepsBalancesNonNegative | internal/service/user.go:91-107 | with a non-negative amount, every stored balance stays a well-formed non-negative amount |
| Service.KeepsTransactionIdsUnique | internal/service/user.go:62-120 | the unit of work keeps transaction IDs unique across the log |
| Service.AppliedOnce | internal/service/user.go:62-69 | after a success, any request with the same ID is a duplicate and changes nothing, and the ID is recorded exactly once |
| Service.RepeatedWins | internal/service/user.go:52-130 | N wins of an amount with at most two decimals ("50", "5.5", "5.50") worth A cents, with fresh, distinct IDs, take B cents to B + N*A cents and append N records |
| Service.WinsTouchNoOneElse | internal/service/user.go:104-107 | a run of "win" requests of one amount for one user, whether each succeeds or fails, keeps the set of users and leaves every other user's balance alone |
| Service.BalanceOf | internal/service/user.go:25-50 | not-found exactly for a missing user; success exactly when the stored balance parses, with the user's ID and two-decimal text |
| Service.QueryReturnsWrittenBalance | internal/service/user.go:38-49 | a balance the service wrote is returned exactly as stored |
| Service.QueryPreservesValue | internal/service/user.go:38-49 | a stored balance with at most two decimals is reported with the same value |
| Service.UserService.GetBalance | internal/service/user.go:25-50 | the read-only query returns BalanceOf of the current users |
| Service.UserService.ProcessTransaction | internal/service/user.go:52-130 | error and new store are exactly ApplyTransaction's; on error the store is as before |
| Service.UserService.RunSteps | internal/service/user.go:61-129 | the steps in order report ApplyTransaction's error, and on success leave its store |
| Handler.ParseUserId | internal/handler/user.go:25-26 | an accepted parameter is a non-empty digit string whose value fits in 64 bits |
| Handler.UserIdRoundTrip | internal/handler/user.go:25-26 | every 64-bit ID is read back from its decimal rendering |
| Handler.UserIdRejects | internal/handler/user.go:25-32 | a signed, empty or out-of-range parameter is refused |
| Handler.ValidatedAmountInCents | internal/handler/user.go:167-186 | an amount that passes validation is worth a positive whole number of cents, so RepeatedWins applies to every validated amount |
| Handler.TooPreciseMatchesScale | internal/handler/user.go:181-183 | for a parsed amount, the text check fires exactly when there are more than two decimals |
| Handler.PositiveValue | internal/handler/user.go:177-179 | a parsed amount is above zero exactly when its units are |
| Handler.ValidateAmount | internal/handler/user.go:167-186 | an accepted amount parses, is positive and has at most two decimals; too many decimals means scale above 2 |
| Handler.ValidateAmountFirstFailure | internal/handler/user.go:167-186 | the reported error is the first failing check in the order empty, format, positive, precision; no error exactly when no check fails |
| Handler.ValidateTransactionRequest | internal/handler/user.go:102-165 | on error the other results are 0, "" and an empty request; on success every check's condition holds and the request is the decoded body |
| Handler.ValidationFirstFailure | internal/handler/user.go:102-165 | the reported error is the first failing check in the handler's order; no error exactly when no check fails |
| Handler.ValidatedRequestErrors | internal/handler/user.go:157-164 | a validated request is never refused for its amount or state; a validated win fails only as duplicate, not found or bad stored balance |
| Handler.TransactionResponse | internal/handler/user.go:62-90 | 200 exactly on success, 404 for a missing user, 409 for a duplicate, 400 for insufficient balance, 500 for anything else |
| Handler.BalanceResponseFor | internal/handler/user.go:34-50 | 200 with the balance on success, 404 for a missing user, 500 otherwise |
| Handler.StatusMatchesStore | internal/handler/user.go:62-90 | 200 exactly when the request's record was appended; 409 exactly when the ID was already recorded; any other answer leaves the store unchanged |
| Handler.OverdrawRefused | internal/handler/user.go:62-78 | a lose of more than the balance ends as insufficient balance, leaves the store unchanged and answers 400 insufficient_balance |
| Handler.UserHandler.GetBalance | internal/handler/user.go:24-51 | a bad ID gives 400 invalid_user_id; otherwise the answer for BalanceOf; a 200 carries two-decimal text |
| Handler.UserHandler.ProcessTransaction | internal/handler/user.go:53-91 | a validation error gives 400 with its code and message and changes nothing; otherwise the status for ApplyTransaction's outcome, whose store it leaves |
| SpecialValues.ParseFloatAsWritten | internal/service/user.go:132-134 | a finite result is exactly ParseAmount's; NaN exactly for the word nan in any case |
| SpecialValues.ValidateAmountAsWritten | internal/handler/user.go:167-186 | on plain decimals it agrees with ValidateAmount |
| SpecialValues.CalculateAsWritten | internal/service/user.go:140-153 | on a finite amount it agrees with CalculateNewBalance; a NaN amount gives NaN for a win and for a lose |
| SpecialValues.FormatAsWritten | internal/service/user.go:136-138 | a finite value is formatted as FormatAmount does; NaN gives text that is no two-decimal amount |
| SpecialValues.NaNAmountPoisonsBalance | internal/handler/user.go:172-179 | "NaN" passes validation as written and a win or lose stores "NaN"; ValidateAmount refuses it |
| SpecialValues.InfinityAmountAccepted | internal/handler/user.go:172-179 | "Infinity" passes validation as written and a win stores "+Inf"; ValidateAmount refuses it |
| Examples.ParseTenFifty | internal/service/user_test.go:17-22 | "10.50" reads as 1050 hundredths |
| Examples.ParseHundred | internal/service/user_test.go:23-28 | "100" reads as 100 with no decimals |
| Examples.ParseZero | internal/service/user_test.go:35-46 | "0" and "0.00" both read as zero |
| Examples.ParseOneCent | internal/service/user_test.go:29-34 | "0.01" reads as one cent |
| Examples.ParseRejects | internal/service/user_test.go:47-64 | "", "abc" and "10.50abc" are refused |
| Examples.FormatTenFifty | internal/service/user_test.go:86-89 | 10.5 is rendered "10.50" |
| Examples.FormatZero | internal/service/user_test.go:101-104 | 0 is rendered "0.00" |
| Examples.FormatRoundsUp | internal/service/user_test.go:111-114 | 10.999 is rendered "11.00" |
| Examples.FormatRoundsDown | internal/service/user_test.go:116-119 | 10.994 is rendered "10.99" |
| Examples.ValidateAmountExamples | internal/handler/user_test.go:24-78 | "" is required, "abc" is not a number, "0" is not positive, "10.50" passes |
| Examples.TooManyDecimalsExample | internal/handler/user_test.go:85-90 | "10.123" is refused for having more than two decimals |

## Left out

- Amounts.ParseAmount: reads only plain decimals. `strconv.ParseFloat`
  also takes exponents, hexadecimal mantissas and underscores between
  digits. It also fails with a range error on values out of range. None of
  these is modelled. So "1_000" passes `validateAmount` in the source and is
  credited as 1000, while the model refuses it as an invalid amount format.
  `NaN` and the infinities are modelled only in `SpecialValues`.
- Amounts.FormatAmount: rounds the exact decimal half away from zero, where
  the source rounds the nearest float64. The test inputs 10.999 and 10.994
  come out the same either way. Three differences follow:
  - An input whose binary value lies just below a tie (10.995, say) prints one
    cent lower in the source.
  - A tie that float64 holds exactly (10.125, 0.125) is rounded half to even
    by `strconv`, so the source prints "10.12" and the model "10.13".
  - `ParseFloat` reads "-0" and "-0.00" as negative zero, which `%.2f` prints
    as "-0.00". A `Decimal` has no negative zero, so the model prints "0.00"
    (in `Service.BalanceOf`, too).
- Amounts.CalculateNewBalance: adds and subtracts exactly. The source's
  float64 sums can drift in the last binary digits before formatting; that
  drift is not modelled.
- Storage errors: the in-memory store never fails. The source's
  `failed to ...` errors from gorm are not modelled. They would all answer 500
  and roll back, as the modelled failures do.
- Concurrency: `GetUserForUpdate` passes a `FOR UPDATE` hint through gorm's
  `gorm:query_option` setting. The model does not say whether the database
  takes a row lock for it, and it does not model how concurrent units of
  work interleave. Units of work run one at a time.
- Logging, timestamps (`CreatedAt`, `UpdatedAt`) and the database-generated
  row ID of a transaction are not modelled.
- The HTTP framework is left out. Echo's `Bind` is modelled only by its
  outcome: the body either fails to decode (`Malformed`) or decodes into a
  request, with missing fields as "". The route, the `Source-Type` header
  lookup and JSON encoding are not modelled.
- `internal/database/db.go` (connection setup and retry) and
  `cmd/transactions/main.go` (startup) are not part of this model.
- Service.RepeatedWins: states the number of records appended, not their
  contents. The contents of each appended record are stated for one request
  by Service.ApplyTransaction.

## Findings

| source | as written | input that shows it | evidently intended | confidence | as-written member | corrected member |
|---|---|---|---|---|---|---|
| internal/handler/user.go:172-186 | `validateAmount` only checks `value <= 0`. That comparison is false for NaN and for +Inf, and their text has no '.', so both pass. The service then computes NaN (win or lose; `NaN < 0` is false) or, for a win, +Inf (a lose of +Inf goes negative and is refused), and stores `formatAmount`'s "NaN" or "+Inf" as the balance | amount `"NaN"` with state `win` or `lose`, or `"Infinity"` with state `win` | only finite amounts with at most two decimals are accepted, so a balance always has exactly two decimals and is never negative | medium: follows Go's documented ParseFloat and %f behaviour; not executed | SpecialValues.NaNAmountPoisonsBalance | Handler.ValidateAmount |
