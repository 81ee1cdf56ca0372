/** What the ATM rules guarantee across calls, and where they stop.
    A caller issues deposits and withdrawals against one account in turn; a
    rejected request leaves it unchanged and the caller goes on. Since no
    operation checks the sign of its amount, the intended invariants
    (a limited account stays within its limit, a balance stays non-negative)
    hold only while the requests that could break them carry non-negative
    amounts. */
module ATMProperties {
  import opened Entities
  import opened ATM

  datatype Request = DepositRequest(amount: int) | WithdrawRequest(amount: int)

  function Apply(a: Snapshot, q: Request): Step
  {
    match q
    case DepositRequest(n) => DepositStep(a, n)
    case WithdrawRequest(n) => WithdrawStep(a, n)
  }

  /** The account after the requests in `qs`, in order. */
  function Replay(a: Snapshot, qs: seq<Request>): Snapshot
    decreases |qs|
  {
    if qs == [] then a else Replay(Apply(a, qs[0]).after, qs[1..])
  }

  predicate WithdrawalsNonNegative(qs: seq<Request>)
  {
    forall i :: 0 <= i < |qs| && qs[i].WithdrawRequest? ==> qs[i].amount >= 0
  }

  predicate DepositsNonNegative(qs: seq<Request>)
  {
    forall i :: 0 <= i < |qs| && qs[i].DepositRequest? ==> qs[i].amount >= 0
  }

  /** Requests never turn one variant of account into the other nor move its limit. */
  lemma {:induction false} ReplayKeepsVariantAndLimit(a: Snapshot, qs: seq<Request>)
    ensures Replay(a, qs).Limited? == a.Limited?
    ensures a.Limited? ==> Replay(a, qs).limit == a.limit
    decreases |qs|
  {
    if qs != [] {
      ReplayKeepsVariantAndLimit(Apply(a, qs[0]).after, qs[1..]);
    }
  }

  /** A limited account within its limit stays within it through any
      deposits (rejected when they would exceed it) and any non-negative
      withdrawals. */
  lemma {:induction false} ReplayKeepsWithinLimit(a: Snapshot, qs: seq<Request>)
    requires WithinLimit(a) && WithdrawalsNonNegative(qs)
    ensures WithinLimit(Replay(a, qs))
    decreases |qs|
  {
    if qs != [] {
      assert qs[0].WithdrawRequest? ==> qs[0].amount >= 0;
      assert WithdrawalsNonNegative(qs[1..]) by {
        forall i | 0 <= i < |qs[1..]| && qs[1..][i].WithdrawRequest?
          ensures qs[1..][i].amount >= 0
        {
          assert qs[1..][i] == qs[i + 1];
        }
      }
      ReplayKeepsWithinLimit(Apply(a, qs[0]).after, qs[1..]);
    }
  }

  /** A non-negative balance stays non-negative through any withdrawals
      (rejected when they exceed it) and any non-negative deposits. */
  lemma {:induction false} ReplayKeepsNonNegative(a: Snapshot, qs: seq<Request>)
    requires a.balance >= 0 && DepositsNonNegative(qs)
    ensures Replay(a, qs).balance >= 0
    decreases |qs|
  {
    if qs != [] {
      assert qs[0].DepositRequest? ==> qs[0].amount >= 0;
      assert DepositsNonNegative(qs[1..]) by {
        forall i | 0 <= i < |qs[1..]| && qs[1..][i].DepositRequest?
          ensures qs[1..][i].amount >= 0
        {
          assert qs[1..][i] == qs[i + 1];
        }
      }
      ReplayKeepsNonNegative(Apply(a, qs[0]).after, qs[1..]);
    }
  }

  /** The side condition of ReplayKeepsWithinLimit is needed: a negative
      withdrawal is accepted and can lift a limited account above its limit. */
  lemma NegativeWithdrawalCanExceedLimit()
    ensures exists a: Snapshot, n: int ::
              WithinLimit(a) && WithdrawStep(a, n).outcome.Ok? && !WithinLimit(WithdrawStep(a, n).after)
  {
    var a := Limited(500, 500);
    assert WithdrawStep(a, -100) == Step(Ok, Limited(600, 500));
  }

  /** The side condition of ReplayKeepsNonNegative is needed: a negative
      deposit is accepted and can make a balance negative. */
  lemma NegativeDepositCanOverdraw()
    ensures exists a: Snapshot, n: int ::
              a.balance >= 0 && DepositStep(a, n).outcome.Ok? && DepositStep(a, n).after.balance < 0
  {
    var a := Plain(0);
    assert DepositStep(a, -1) == Step(Ok, Plain(-1));
  }

  /** Depositing nothing never changes an account, but a limited account
      already above its limit rejects even that. */
  lemma DepositOfZero(a: Snapshot)
    ensures DepositStep(a, 0).after == a
    ensures DepositStep(a, 0).outcome.Ok? <==> WithinLimit(a)
  {
  }

  /** Withdrawing the whole balance is accepted; transferring it is not. */
  lemma WholeBalanceBoundary(s: Snapshot, t: Snapshot)
    ensures WithdrawStep(s, s.balance) == Step(Ok, s.WithBalance(0))
    ensures TransferStep(s, t, s.balance).outcome == InsufficientFunds(TransferOverBalance)
  {
  }

  /** A transfer of an account to itself can fail after its withdrawal has
      already changed the balance. */
  lemma SelfTransferCanFailAfterWithdrawal()
    ensures exists a: Snapshot, n: int ::
              SelfTransferStep(a, n).outcome.InsufficientFunds? && SelfTransferStep(a, n).after.balance != a.balance
  {
    var a := Limited(600, 500);
    assert SelfTransferStep(a, -200) == Step(InsufficientFunds(DepositOverLimit), Limited(800, 500));
  }

  /** Client code: the unit tests' fixtures, with requests in the same
      spirit, chained on shared objects. */
  method Scenarios()
  {
    var regular := new Account("vasouv", 1000, "regular");
    var limited := new Account.LimitedAccount("mixos", 300, "limit", 500);
    var source := new Account("chris", 2000, "regular");
    var target := new Account("geo", 5000, "regular");

    var r := Deposit(regular, 0);
    assert r == Ok && regular.GetBalance() == 1000;
    r := Deposit(limited, 200);
    assert r == Ok && limited.GetBalance() == 500;
    r := Deposit(limited, 1);
    assert r == InsufficientFunds(DepositOverLimit) && limited.GetBalance() == 500;

    r := Withdraw(regular, 1200);
    assert r == InsufficientFunds(WithdrawOverBalance) && regular.GetBalance() == 1000;
    r := Withdraw(regular, 1000);
    assert r == Ok && regular.GetBalance() == 0;

    r := Transfer(source, target, 350);
    assert r == Ok && source.GetBalance() == 1650 && target.GetBalance() == 5350;
    r := Transfer(source, target, 1650);
    assert r == InsufficientFunds(TransferOverBalance);
    assert source.GetBalance() == 1650 && target.GetBalance() == 5350;
    r := Transfer(source, limited, 0);
    assert r == Ok && source.GetBalance() == 1650 && limited.GetBalance() == 500;
    r := Transfer(source, limited, 1);
    assert r == InsufficientFunds(TargetOverLimit) && source.GetBalance() == 1650;
  }
}
