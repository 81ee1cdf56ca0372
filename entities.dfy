/** Bank accounts: the plain `Account` and its `LimitedAccount` variant.
    Java's subclass becomes one class whose constant `limited` flag says which
    variant an object is; `limit` is meaningful only when `limited` holds.
    Owner and account type are constants: Java's `Account` keeps their
    setters commented out, so nothing can change them after construction. */
module Entities {

  /** The part of an account that the ATM reads and writes, as a value. */
  datatype Snapshot = Plain(balance: int) | Limited(balance: int, limit: int)
  {
    /** The same account holding balance `b`. */
    function WithBalance(b: int): Snapshot
    {
      match this
      case Plain(_) => Plain(b)
      case Limited(_, limit) => Limited(b, limit)
    }
  }

  /** The ceiling an ATM-mediated deposit establishes; plain accounts have none. */
  predicate WithinLimit(a: Snapshot)
  {
    a.Limited? ==> a.balance <= a.limit
  }

  class Account {
    const owner: string
    var balance: int
    const accountType: string
    /** True for objects built as a `LimitedAccount`. */
    const limited: bool
    /** The balance ceiling of a limited account; unused on a plain one. */
    var limit: int

    /** The account as the ATM sees it. */
    function View(): Snapshot
      reads this
    {
      if limited then Limited(balance, limit) else Plain(balance)
    }

    /** A plain account. */
    constructor (owner: string, balance: int, accountType: string)
      ensures GetOwner() == owner && GetAccountType() == accountType
      ensures GetBalance() == balance
      ensures !limited && View() == Plain(balance)
    {
      this.owner := owner;
      this.balance := balance;
      this.accountType := accountType;
      this.limited := false;
      this.limit := 0;
    }

    /** A limited account. No relation between `balance` and `limit` is
        demanded: Java's `LimitedAccount` accepts any pair of values. */
    constructor LimitedAccount(owner: string, balance: int, accountType: string, limit: int)
      ensures GetOwner() == owner && GetAccountType() == accountType
      ensures GetBalance() == balance && limited && GetLimit() == limit
      ensures View() == Limited(balance, limit)
    {
      this.owner := owner;
      this.balance := balance;
      this.accountType := accountType;
      this.limited := true;
      this.limit := limit;
    }

    function GetOwner(): string
    {
      owner
    }

    function GetBalance(): int
      reads this
    {
      balance
    }

    /** Stores a new balance; the variant and the limit stay as they were. */
    method SetBalance(balance: int)
      modifies this`balance
      ensures GetBalance() == balance
      ensures View() == old(View()).WithBalance(balance)
    {
      this.balance := balance;
    }

    function GetAccountType(): string
    {
      accountType
    }

    /** Only a limited account has a limit to read. */
    function GetLimit(): int
      requires limited
      reads this
    {
      limit
    }

    /** Stores a new limit, whatever the balance; nothing else changes. */
    method SetLimit(limit: int)
      requires limited
      modifies this`limit
      ensures GetLimit() == limit && GetBalance() == old(GetBalance())
      ensures View() == Limited(old(balance), limit)
    {
      this.limit := limit;
    }
  }
}
