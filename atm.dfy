/** The ATM controller: deposit, withdraw and transfer over accounts.
    Each operation either rejects the request with an insufficient-funds
    message, leaving every balance as it was, or updates balances in place.
    The `...Step` functions give the effect of each operation on account
    snapshots; the methods perform it on `Account` objects and are proved
    to agree with them. Amounts carry no sign check, as in the Java `ATM`. */
module ATM {
  import opened Entities

  /** Success, or the insufficient-funds failure with its message. */
  datatype Outcome = Ok | InsufficientFunds(message: string)

  const DepositOverLimit := "Cannot deposit more than your account can hold"
  const WithdrawOverBalance := "Cannot withdraw more money than you have"
  const TransferOverBalance := "Can't transfer more money than your balance"
  const TargetOverLimit := "Target account can't hold that amount"

  /** The outcome of an operation on one account, and that account afterwards. */
  datatype Step = Step(outcome: Outcome, after: Snapshot)

  /** The outcome of a transfer, and both accounts afterwards. */
  datatype TransferResult = TransferResult(outcome: Outcome, source: Snapshot, target: Snapshot)

  /** Deposit: a plain account takes any amount; a limited one only what fits
      below its limit. A successful deposit leaves a limited account within it. */
  function DepositStep(a: Snapshot, amount: int): (r: Step)
    ensures r.outcome.InsufficientFunds? <==> a.Limited? && amount > a.limit - a.balance
    ensures r.outcome.InsufficientFunds? ==> r.outcome.message == DepositOverLimit && r.after == a
    ensures r.outcome.Ok? ==> r.after == a.WithBalance(a.balance + amount) && WithinLimit(r.after)
  {
    match a
    case Limited(balance, limit) =>
      if amount > limit - balance then Step(InsufficientFunds(DepositOverLimit), a)
      else Step(Ok, Limited(balance + amount, limit))
    case Plain(balance) =>
      Step(Ok, Plain(balance + amount))
  }

  /** Withdraw: rejected exactly when the amount exceeds the balance, so
      withdrawing the whole balance succeeds and a success never leaves the
      balance negative. The limit plays no part. */
  function WithdrawStep(a: Snapshot, amount: int): (r: Step)
    ensures r.outcome.InsufficientFunds? <==> amount > a.balance
    ensures r.outcome.InsufficientFunds? ==> r.outcome.message == WithdrawOverBalance && r.after == a
    ensures r.outcome.Ok? ==> r.after == a.WithBalance(a.balance - amount) && r.after.balance >= 0
  {
    if amount > a.balance then Step(InsufficientFunds(WithdrawOverBalance), a)
    else Step(Ok, a.WithBalance(a.balance - amount))
  }

  /** Transfer between two distinct accounts: the source check (strict: the
      whole balance cannot be transferred) comes first, then the target's
      limit, and only then a withdrawal followed by a deposit, neither of
      which can fail once both checks pass. The sum of the two balances is
      the same afterwards, whatever happens. */
  function TransferStep(s: Snapshot, t: Snapshot, amount: int): (r: TransferResult)
    ensures r.outcome.Ok? <==> amount < s.balance && (t.Limited? ==> amount <= t.limit - t.balance)
    ensures amount >= s.balance ==> r == TransferResult(InsufficientFunds(TransferOverBalance), s, t)
    ensures (amount < s.balance && t.Limited? && amount > t.limit - t.balance)
              ==> r == TransferResult(InsufficientFunds(TargetOverLimit), s, t)
    ensures r.outcome.Ok? ==>
              (r.source == s.WithBalance(s.balance - amount) && r.target == t.WithBalance(t.balance + amount))
    ensures r.source.balance + r.target.balance == s.balance + t.balance
  {
    if amount < s.balance then
      if t.Limited? && !(amount <= t.limit - t.balance) then
        TransferResult(InsufficientFunds(TargetOverLimit), s, t)
      else
        var w := WithdrawStep(s, amount);
        if w.outcome.InsufficientFunds? then TransferResult(w.outcome, w.after, t)
        else
          var d := DepositStep(t, amount);
          TransferResult(d.outcome, w.after, d.after)
    else
      TransferResult(InsufficientFunds(TransferOverBalance), s, t)
  }

  /** Transfer from an account to itself: the same checks, then the
      withdrawal and the deposit act on the one account in turn. A success
      leaves it as it was. The inner deposit can still fail, after the
      withdrawal has changed the balance: exactly for a limited account
      already above its limit, with an amount below the balance that passed
      the target check and is therefore negative. */
  function SelfTransferStep(a: Snapshot, amount: int): (r: Step)
    ensures r.outcome.Ok? <==> amount < a.balance && (a.Limited? ==> amount <= a.limit - a.balance && a.balance <= a.limit)
    ensures amount >= a.balance ==> r == Step(InsufficientFunds(TransferOverBalance), a)
    ensures (amount < a.balance && a.Limited? && amount > a.limit - a.balance)
              ==> r == Step(InsufficientFunds(TargetOverLimit), a)
    ensures r.outcome.Ok? ==> r.after == a
    ensures r.after != a <==> amount < a.balance && a.Limited? && a.balance > a.limit && amount <= a.limit - a.balance
    ensures r.after != a ==>
              (amount < 0 && r.outcome == InsufficientFunds(DepositOverLimit) && r.after == a.WithBalance(a.balance - amount))
  {
    if amount < a.balance then
      if a.Limited? && !(amount <= a.limit - a.balance) then
        Step(InsufficientFunds(TargetOverLimit), a)
      else
        var w := WithdrawStep(a, amount);
        if w.outcome.InsufficientFunds? then w
        else DepositStep(w.after, amount)
    else
      Step(InsufficientFunds(TransferOverBalance), a)
  }

  method Deposit(account: Account, amount: int) returns (r: Outcome)
    modifies account`balance
    ensures var step := DepositStep(old(account.View()), amount);
            r == step.outcome && account.View() == step.after
  {
    if account.limited {
      if amount > account.GetLimit() - account.GetBalance() {
        r := InsufficientFunds(DepositOverLimit);
      } else {
        account.SetBalance(account.GetBalance() + amount);
        r := Ok;
      }
    } else {
      account.SetBalance(account.GetBalance() + amount);
      r := Ok;
    }
  }

  method Withdraw(account: Account, amount: int) returns (r: Outcome)
    modifies account`balance
    ensures var step := WithdrawStep(old(account.View()), amount);
            r == step.outcome && account.View() == step.after
  {
    if amount > account.GetBalance() {
      r := InsufficientFunds(WithdrawOverBalance);
    } else {
      account.SetBalance(account.GetBalance() - amount);
      r := Ok;
    }
  }

  /** Performs the transfer by calling `Withdraw` and then `Deposit`, as
      Java's `ATM.transfer` does; an inner failure is passed on as the outcome. */
  method Transfer(source: Account, target: Account, amount: int) returns (r: Outcome)
    modifies source`balance, target`balance
    ensures source != target ==>
              var step := TransferStep(old(source.View()), old(target.View()), amount);
              r == step.outcome && source.View() == step.source && target.View() == step.target
    ensures source == target ==>
              var step := SelfTransferStep(old(source.View()), amount);
              r == step.outcome && source.View() == step.after
  {
    if amount < source.GetBalance() {
      if target.limited {
        if amount <= target.GetLimit() - target.GetBalance() {
          r := Withdraw(source, amount);
          if r.Ok? {
            r := Deposit(target, amount);
          }
        } else {
          r := InsufficientFunds(TargetOverLimit);
        }
      } else {
        r := Withdraw(source, amount);
        if r.Ok? {
          r := Deposit(target, amount);
        }
      }
    } else {
      r := InsufficientFunds(TransferOverBalance);
    }
  }
}
