/** The atomic ledger: what each money operation means when nothing runs beside it. Balances are one
    map from (wallet, currency); an operation is a single map update plus its log rows. This is the
    reference the read-then-batch code of wallet_repo.go is compared with. */
module Book {
  import opened Prelude
  import opened Tables

  datatype Book = Book(users: seq<User>, wallets: seq<Wallet>, balances: map<(nat, string), real>, log: seq<Row>)

  datatype Op =
    | Fund(user: nat, currency: string, amount: real, reference: string)
    | CreditByEmail(email: string, currency: string, amount: real, reference: string)
    | Swap(user: nat, from: string, to: string, amountIn: real, amountOut: real, key: string)
    | Transfer(user: nat, account: string, currency: string, amount: real, key: string)
    | Withdraw(user: nat, currency: string, amount: real, reference: string, code: string)
    | Refund(code: string)
    | MarkSuccess(code: string)
    | NewUser(email: string)
    | NewWallet(owner: nat, account: string)
    | NewAsset(wallet: nat)

  datatype Error =
    | NoSourceAsset
    | InsufficientFunds
    | NoRecipient
    | SelfTransfer
    | UserNotFound
    | NoWallet
    | Database(e: DbError)

  datatype Reply = Done | Rejected(error: Error)

  /** What an operation left in the ledger. */
  datatype Effect = Nothing | Posted | Refunded(row: nat) | Marked(code: string) | Registered

  datatype Outcome = Outcome(book: Book, reply: Reply, effect: Effect)

  // ---- Log rows and their references

  function Out(key: string): string { key + "-OUT" }
  function In(key: string): string { key + "-IN" }
  function Debit(key: string): string { key + "-DEBIT" }
  function Credit(key: string): string { key + "-CREDIT" }

  function DepositRow(w: nat, c: string, x: real, ref: string): Row {
    Row(w, x, c, Kind.Deposit, ref, Success, None)
  }

  function SwapRows(w: nat, from: string, to: string, x: real, y: real, key: string): (Row, Row) {
    (Row(w, x, from, Kind.Swap, Out(key), Success, None), Row(w, y, to, Kind.Swap, In(key), Success, None))
  }

  function TransferRows(s: nat, r: nat, c: string, x: real, key: string): (Row, Row) {
    (Row(s, x, c, Kind.Transfer, Debit(key), Success, None), Row(r, x, c, Kind.Transfer, Credit(key), Success, None))
  }

  function WithdrawalRow(w: nat, c: string, x: real, ref: string, code: string): Row {
    Row(w, x, c, Withdrawal, ref, Pending, Some(code))
  }

  /** The references an operation writes to the log. */
  function Refs(op: Op): seq<string> {
    match op
    case Fund(_, _, _, ref) => [ref]
    case CreditByEmail(_, _, _, ref) => [ref]
    case Withdraw(_, _, _, ref, _) => [ref]
    case Swap(_, _, _, _, _, key) => [Out(key), In(key)]
    case Transfer(_, _, _, _, key) => [Debit(key), Credit(key)]
    case _ => []
  }

  // ---- The atomic operations

  function Refuse(b: Book, e: Error): Outcome { Outcome(b, Rejected(e), Nothing) }

  function BalanceOf(b: Book, k: (nat, string)): real { if k in b.balances then b.balances[k] else 0.0 }

  function AtomicFund(b: Book, user: nat, c: string, x: real, ref: string): Outcome {
    var w := WalletOfUser(b.wallets, user);
    if w.None? || (w.value, c) !in b.balances then Refuse(b, NoSourceAsset)
    else if RefUsed(b.log, ref) then Refuse(b, Database(UniqueViolation))
    else if b.balances[(w.value, c)] + x < 0.0 then Refuse(b, Database(CheckViolation))
    else Outcome(b.(balances := b.balances[(w.value, c) := b.balances[(w.value, c)] + x],
                    log := b.log + [DepositRow(w.value, c, x, ref)]), Done, Posted)
  }

  /** A reference already in the log makes the credit succeed without doing anything. */
  function AtomicCreditByEmail(b: Book, email: string, c: string, x: real, ref: string): Outcome {
    var u := FindUser(b.users, email);
    if u.None? then Refuse(b, UserNotFound)
    else
      var w := WalletOfUser(b.wallets, u.value);
      if w.None? then Refuse(b, NoWallet)
      else if BalanceOf(b, (w.value, c)) + x < 0.0 then Refuse(b, Database(CheckViolation))
      else if RefUsed(b.log, ref) then Outcome(b, Done, Nothing)
      else Outcome(b.(balances := b.balances[(w.value, c) := BalanceOf(b, (w.value, c)) + x],
                      log := b.log + [DepositRow(w.value, c, x, ref)]), Done, Posted)
  }

  function AtomicSwap(b: Book, user: nat, from: string, to: string, x: real, y: real, key: string): Outcome {
    var w := WalletOfUser(b.wallets, user);
    if w.None? || (w.value, from) !in b.balances then Refuse(b, NoSourceAsset)
    else
      var source := b.balances[(w.value, from)] - x;
      var dest := if from == to then source + y else BalanceOf(b, (w.value, to)) + y;
      if source < 0.0 || dest < 0.0 then Refuse(b, InsufficientFunds)
      else if RefUsed(b.log, Out(key)) || RefUsed(b.log, In(key)) then Refuse(b, Database(UniqueViolation))
      else
        var rows := SwapRows(w.value, from, to, x, y, key);
        Outcome(b.(balances := b.balances + map[(w.value, from) := source] + map[(w.value, to) := dest],
                   log := b.log + [rows.0, rows.1]), Done, Posted)
  }

  function AtomicTransfer(b: Book, user: nat, account: string, c: string, x: real, key: string): Outcome {
    var s := WalletOfUser(b.wallets, user);
    if s.None? || (s.value, c) !in b.balances then Refuse(b, NoSourceAsset)
    else
      var r := WalletOfAccount(b.wallets, account);
      if r.None? then Refuse(b, NoRecipient)
      else if r.value == s.value then Refuse(b, SelfTransfer)
      else if b.balances[(s.value, c)] < x || BalanceOf(b, (r.value, c)) + x < 0.0 then Refuse(b, InsufficientFunds)
      else if RefUsed(b.log, Debit(key)) || RefUsed(b.log, Credit(key)) then Refuse(b, Database(UniqueViolation))
      else
        var rows := TransferRows(s.value, r.value, c, x, key);
        Outcome(b.(balances := b.balances + map[(s.value, c) := b.balances[(s.value, c)] - x,
                                                (r.value, c) := BalanceOf(b, (r.value, c)) + x],
                   log := b.log + [rows.0, rows.1]), Done, Posted)
  }

  function AtomicWithdraw(b: Book, user: nat, c: string, x: real, ref: string, code: string): Outcome {
    var w := WalletOfUser(b.wallets, user);
    if w.None? || (w.value, c) !in b.balances || b.balances[(w.value, c)] < x then Refuse(b, InsufficientFunds)
    else if RefUsed(b.log, ref) then Refuse(b, Database(UniqueViolation))
    else Outcome(b.(balances := b.balances[(w.value, c) := b.balances[(w.value, c)] - x],
                    log := b.log + [WithdrawalRow(w.value, c, x, ref, code)]), Done, Posted)
  }

  /** Gives the money of a withdrawal back unless that was done before; unknown codes are ignored. */
  function AtomicRefund(b: Book, code: string): Outcome {
    var i := FindWithdrawal(b.log, code);
    if i.None? || b.log[i.value].status == Failed then Outcome(b, Done, Nothing)
    else
      var row := b.log[i.value];
      var k := (row.walletId, row.currency);
      if k !in b.balances then Refuse(b, Database(RecordNotFound))
      else if b.balances[k] + row.amount < 0.0 then Refuse(b, Database(CheckViolation))
      else Outcome(b.(balances := b.balances[k := b.balances[k] + row.amount],
                      log := b.log[i.value := row.(status := Failed)]), Done, Refunded(i.value))
  }

  function AtomicRegister(b: Book, op: Op): Outcome
    requires op.NewUser? || op.NewWallet? || op.NewAsset?
  {
    match op
    case NewUser(email) =>
      if FindUser(b.users, email).Some? then Refuse(b, Database(UniqueViolation))
      else Outcome(b.(users := b.users + [User(email)]), Done, Registered)
    case NewWallet(u, account) =>
      if u >= |b.users| then Refuse(b, Database(ForeignKeyViolation))
      else if WalletOfUser(b.wallets, u).Some? || WalletOfAccount(b.wallets, account).Some?
      then Refuse(b, Database(UniqueViolation))
      else Outcome(b.(wallets := b.wallets + [Wallet(account, u)]), Done, Registered)
    case NewAsset(w) =>
      if w >= |b.wallets| then Refuse(b, Database(ForeignKeyViolation))
      else if (w, "NGN") in b.balances then Refuse(b, Database(UniqueViolation))
      else Outcome(b.(balances := b.balances[(w, "NGN") := 0.0]), Done, Registered)
  }

  function Atomic(b: Book, op: Op): Outcome {
    match op
    case Fund(user, c, x, ref) => AtomicFund(b, user, c, x, ref)
    case CreditByEmail(email, c, x, ref) => AtomicCreditByEmail(b, email, c, x, ref)
    case Swap(user, from, to, x, y, key) => AtomicSwap(b, user, from, to, x, y, key)
    case Transfer(user, account, c, x, key) => AtomicTransfer(b, user, account, c, x, key)
    case Withdraw(user, c, x, ref, code) => AtomicWithdraw(b, user, c, x, ref, code)
    case Refund(code) => AtomicRefund(b, code)
    case MarkSuccess(code) => Outcome(b.(log := MarkAll(b.log, code, Success)), Done, Marked(code))
    case NewUser(_) => AtomicRegister(b, op)
    case NewWallet(_, _) => AtomicRegister(b, op)
    case NewAsset(_) => AtomicRegister(b, op)
  }
}
