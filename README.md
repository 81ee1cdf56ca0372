# ATM banking rules, modelled in Dafny

A model of a small in-memory banking library. It has two kinds of account and
an ATM controller that deposits, withdraws and transfers integer amounts. An
`Account` has an owner, a balance and an account type. A `LimitedAccount` adds a
mutable ceiling, `limit`, which only deposits respect. Each ATM operation either
rejects the request with an insufficient-funds message or changes balances in
place.

- `entities.dfy` (module `Entities`): the class `Account`. It covers both Java
  classes: a constant `limited` flag tells the `LimitedAccount` objects apart, and
  `limit` is meaningful only for those. `owner` and `accountType` are `const`,
  because Java's `Account` has its setters commented out. `Snapshot` (`Plain` or
  `Limited`) is an account's balance and limit as a value. `View()` maps an object
  to its snapshot.
- `atm.dfy` (module `ATM`): the exception becomes the result
  `Outcome = Ok | InsufficientFunds(message)`, with the four messages as
  constants. `DepositStep`, `WithdrawStep`, `TransferStep` (distinct accounts) and
  `SelfTransferStep` (source and target are the same object) define each
  operation's effect on snapshots. Their contracts state when a request is
  rejected and what the balances become. The methods `Deposit`, `Withdraw` and
  `Transfer` mutate `Account` objects as the Java `ATM` does, through the getters and
  `SetBalance`, and `Transfer` calls `Withdraw` and then `Deposit`. Each method is
  proved to agree with its step function.
- `atm_properties.dfy` (module `ATMProperties`): properties that span several
  calls. `Replay` applies a sequence of deposits and withdrawals to one account.
  Induction lemmas show which invariants survive such a sequence. Witness lemmas
  show that, because no amount is sign-checked, a negative amount breaks each
  invariant when its side condition is dropped. `Scenarios` runs requests in the
  spirit of the unit tests, on their fixtures, against the method contracts.

Kept exactly as the code has it:
- `withdraw` accepts an amount equal to the balance. `transfer` rejects it, and
  its source check comes before the target check.
- No operation checks the sign of the amount. A negative deposit lowers a balance,
  possibly below zero. A negative withdrawal raises it, possibly above a limited
  account's ceiling.
- A transfer from an account to itself is modelled, not excluded.

Two consequences of the code that are easy to miss:
- A failed transfer can leave a partial change. A self-transfer on a limited
  account already above its limit, with an amount below the balance and at most
  `limit - balance` (so negative), passes both transfer checks.
  The inner `withdraw` then raises the balance, and the inner `deposit` rejects
  the request (`SelfTransferStep`, `SelfTransferCanFailAfterWithdrawal`).
- A deposit of 0 fails on a limited account whose balance is above its limit
  (`DepositOfZero`). Neither the constructor nor `setLimit` keeps the balance
  within the limit.

## Model

| member | source | states |
|---|---|---|
| Entities.Account.constructor | src/main/java/vs/bankingunittests/entities/Account.java:24-28 | a plain account whose getters return exactly the given owner, balance and account type |
| Entities.Account.LimitedAccount | src/main/java/vs/bankingunittests/entities/LimitedAccount.java:23-26 | a limited account with the given owner, balance, type and limit; nothing relates balance to limit |
| Entities.Account.SetBalance | src/main/java/vs/bankingunittests/entities/Account.java:49-60 | `GetBalance` afterwards returns the stored value; variant and limit are unchanged; owner and type are constants |
| Entities.Account.SetLimit | src/main/java/vs/bankingunittests/entities/LimitedAccount.java:33-44 | `GetLimit` afterwards returns the stored value, whatever the balance; the balance is unchanged |
| ATM.DepositStep | src/main/java/vs/bankingunittests/controller/ATM.java:23-35 | rejected with "Cannot deposit more than your account can hold" exactly when the account is limited and `amount > limit - balance`, leaving it unchanged; otherwise balance + amount for any amount, and a limited account ends within its limit |
| ATM.WithdrawStep | src/main/java/vs/bankingunittests/controller/ATM.java:44-52 | rejected with "Cannot withdraw more money than you have" exactly when `amount > balance`, leaving the account unchanged; otherwise balance - amount, which is never negative |
| ATM.TransferStep | src/main/java/vs/bankingunittests/controller/ATM.java:63-83 | for distinct accounts: succeeds exactly when `amount < source.balance` and a limited target has room; the source-balance rejection comes first, then the target rejection, each leaving both unchanged; on success source - amount and target + amount; the sum of the two balances is always preserved |
| ATM.SelfTransferStep | src/main/java/vs/bankingunittests/controller/ATM.java:63-83 | for source == target: same two rejections; success leaves the account as it was; the account changes exactly when a limited account above its limit is sent an amount below its balance and within `limit - balance` (hence negative), in which case the inner deposit's rejection is returned after the withdrawal |
| ATM.Deposit | src/main/java/vs/bankingunittests/controller/ATM.java:23-35 | the outcome and the account's new balance are those `DepositStep` gives for its old state; only `balance` is written |
| ATM.Withdraw | src/main/java/vs/bankingunittests/controller/ATM.java:44-52 | the outcome and the new balance are those `WithdrawStep` gives; only `balance` is written |
| ATM.Transfer | src/main/java/vs/bankingunittests/controller/ATM.java:63-83 | performs the checks, then `Withdraw` and `Deposit`; the outcome and both accounts afterwards agree with `TransferStep`, or `SelfTransferStep` when both are the same object |
| ATMProperties.ReplayKeepsVariantAndLimit | src/main/java/vs/bankingunittests/controller/ATM.java:23-52 | no sequence of deposits and withdrawals changes an account's variant or its limit |
| ATMProperties.ReplayKeepsWithinLimit | src/main/java/vs/bankingunittests/controller/ATM.java:23-52 | a limited account within its limit stays within it through any deposits and any non-negative withdrawals |
| ATMProperties.ReplayKeepsNonNegative | src/main/java/vs/bankingunittests/controller/ATM.java:23-52 | a non-negative balance stays non-negative through any withdrawals and any non-negative deposits |
| ATMProperties.NegativeWithdrawalCanExceedLimit | src/main/java/vs/bankingunittests/controller/ATM.java:44-52 | some accepted negative withdrawal takes a limited account above its limit |
| ATMProperties.NegativeDepositCanOverdraw | src/main/java/vs/bankingunittests/controller/ATM.java:32-34 | some accepted negative deposit makes a non-negative balance negative |
| ATMProperties.DepositOfZero | src/main/java/vs/bankingunittests/controller/ATM.java:24-26 | depositing 0 never changes an account, and it is accepted exactly when the account is within its limit |
| ATMProperties.WholeBalanceBoundary | src/main/java/vs/bankingunittests/controller/ATM.java:44-64 | withdrawing the whole balance succeeds and leaves 0; transferring it is rejected with "Can't transfer more money than your balance" |
| ATMProperties.SelfTransferCanFailAfterWithdrawal | src/main/java/vs/bankingunittests/controller/ATM.java:63-83 | some self-transfer is rejected yet leaves the balance changed |

## Left out

- Console output: the `System.out.println` calls in the ATM methods have no effect on state.
- `toString` of both account classes: diagnostic strings used only in that console output.
- The demonstration entry point `Main.java` builds two accounts and does nothing else.
- The exception class only carries a message; it is the `InsufficientFunds` arm of `Outcome`.
- Java's 32-bit `int`: balances, limits and amounts are unbounded integers, so overflow in `balance + amount`, `balance - amount` and `limit - balance` is not modelled.
- Entities.Account.GetLimit: requires `limited`, because in Java `getLimit` and `setLimit` exist only on the `LimitedAccount` type (the ATM reaches them only after an `instanceof` test).
- Concurrency: calls are sequential, as in the Java code.
- Null references: the Dafny `Account` type is non-null, so the `NullPointerException` paths are not modelled. One of them leaves a partial change: `transfer(source, null, n)` with `n < source.balance` fails the `instanceof` test, withdraws `n` from the source, then throws in `deposit`, leaving the source debited.
