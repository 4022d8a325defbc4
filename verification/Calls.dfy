/** A repository call as it really runs: some reads, then one batch. Between any two of these steps
    other calls may change the database, so a call remembers only what it read. */
module Calls {
  import opened Prelude
  import opened Tables
  import opened Book

  /** What the reads found and the batch needs. */
  datatype Plan =
    | CreditPlan(wallet: nat)
    | DebitPlan(asset: nat, wallet: nat)
    | TransferPlan(asset: nat, wallet: nat, receiver: nat)
    | RefundPlan(row: nat, wallet: nat, currency: string, amount: real)
    | NoPlan

  datatype Call =
    | Start(op: Op)
    | GotSender(op: Op, asset: nat, wallet: nat)
    | Ready(op: Op, plan: Plan)
    | Ended(op: Op, reply: Reply, effect: Effect)

  function Fail(op: Op, e: Error): Call { Ended(op, Rejected(e), Nothing) }

  /** The first read of each operation. */
  function FirstRead(db: Db, op: Op): Call {
    match op
    case Fund(user, c, _, _) =>
      var a := GetAssetByCurrency(db, user, c);
      if a.None? then Fail(op, NoSourceAsset) else Ready(op, CreditPlan(db.assets[a.value].walletId))
    case CreditByEmail(email, _, _, _) =>
      var u := FindUser(db.users, email);
      if u.None? then Fail(op, UserNotFound)
      else
        var w := WalletOfUser(db.wallets, u.value);
        if w.None? then Fail(op, NoWallet) else Ready(op, CreditPlan(w.value))
    case Swap(user, from, _, x, _, _) =>
      var a := GetAssetByCurrency(db, user, from);
      if a.None? then Fail(op, NoSourceAsset)
      else if db.assets[a.value].balance < x then Fail(op, InsufficientFunds)
      else Ready(op, DebitPlan(a.value, db.assets[a.value].walletId))
    case Transfer(user, _, c, _, _) =>
      var a := GetAssetByCurrency(db, user, c);
      if a.None? then Fail(op, NoSourceAsset) else GotSender(op, a.value, db.assets[a.value].walletId)
    case Withdraw(user, c, x, _, _) =>
      var a := GetAssetByCurrency(db, user, c);
      if a.None? || db.assets[a.value].balance < x then Fail(op, InsufficientFunds)
      else Ready(op, DebitPlan(a.value, db.assets[a.value].walletId))
    case Refund(code) =>
      var i := FindWithdrawal(db.log, code);
      if i.None? || db.log[i.value].status == Failed then Ended(op, Done, Nothing)
      else Ready(op, RefundPlan(i.value, db.log[i.value].walletId, db.log[i.value].currency, db.log[i.value].amount))
    case _ => Ready(op, NoPlan)
  }

  /** The second read of a transfer: the recipient's wallet. */
  function SecondRead(db: Db, op: Op, asset: nat, wallet: nat): Call
    requires op.Transfer?
  {
    var r := WalletOfAccount(db.wallets, op.account);
    if r.None? then Fail(op, NoRecipient)
    else if db.wallets[r.value].userId == op.user then Fail(op, SelfTransfer)
    else Ready(op, TransferPlan(asset, wallet, r.value))
  }

  function Read(db: Db, call: Call): Call {
    match call
    case Start(op) => FirstRead(db, op)
    case GotSender(op, a, w) => if op.Transfer? then SecondRead(db, op, a, w) else call
    case _ => call
  }

  /** The statements of the batch, in the order the code lists them. */
  function Batch(op: Op, plan: Plan): seq<Stmt> {
    match (op, plan)
    case (Fund(_, c, x, ref), CreditPlan(w)) =>
      [InsertRow(DepositRow(w, c, x, ref)), Upsert(w, c, x)]
    case (CreditByEmail(_, c, x, ref), CreditPlan(w)) =>
      [Upsert(w, c, x), InsertRow(DepositRow(w, c, x, ref))]
    case (Swap(_, from, to, x, y, key), DebitPlan(a, w)) =>
      var rows := SwapRows(w, from, to, x, y, key);
      [AddToAsset(a, -x), Upsert(w, to, y), InsertRow(rows.0), InsertRow(rows.1)]
    case (Transfer(_, _, c, x, key), TransferPlan(a, s, r)) =>
      var rows := TransferRows(s, r, c, x, key);
      [AddToAsset(a, -x), Upsert(r, c, x), InsertRow(rows.0), InsertRow(rows.1)]
    case (Withdraw(_, c, x, ref, code), DebitPlan(a, w)) =>
      [AddToAsset(a, -x), InsertRow(WithdrawalRow(w, c, x, ref, code))]
    case (Refund(_), RefundPlan(i, w, c, x)) => [AddToKey(w, c, x), SetStatus(i, Failed)]
    case (MarkSuccess(code), _) => [SetStatusByGateway(code, Success)]
    case (NewUser(email), _) => [InsertUser(User(email))]
    case (NewWallet(u, account), _) => [InsertWallet(Wallet(account, u))]
    case (NewAsset(w), _) => [InsertAsset(w, "NGN")]
    case _ => []
  }

  /** How the code turns the batch result into its return value. */
  function ReplyTo(op: Op, r: Result<Db, DbError>): Reply {
    if r.Ok? then Done
    else if (op.Swap? || op.Transfer? || op.Withdraw?) && r.error == CheckViolation then Rejected(InsufficientFunds)
    else if op.CreditByEmail? && r.error == UniqueViolation then Done
    else Rejected(Database(r.error))
  }

  function EffectOf(op: Op, plan: Plan, r: Result<Db, DbError>): Effect {
    if r.Err? then Nothing
    else match op
      case Refund(_) => if plan.RefundPlan? then Refunded(plan.row) else Nothing
      case MarkSuccess(code) => Marked(code)
      case NewUser(_) => Registered
      case NewWallet(_, _) => Registered
      case NewAsset(_) => Registered
      case _ => Posted
  }

  /** Submits the batch of a call that has finished reading. */
  function Submit(db: Db, call: Call): (Db, Call)
    requires call.Ready?
  {
    var r := RunBatch(db, Batch(call.op, call.plan));
    (Settle(db, r), Ended(call.op, ReplyTo(call.op, r), EffectOf(call.op, call.plan, r)))
  }

  /** What the call read is still true of the database. */
  ghost predicate CallOk(db: Db, call: Call) {
    match call
    case Start(_) => true
    case Ended(_, _, _) => true
    case GotSender(op, a, w) =>
      op.Transfer? && WalletOfUser(db.wallets, op.user) == Some(w) && FindAsset(db, w, op.currency) == Some(a)
    case Ready(op, plan) => PlanOk(db, op, plan)
  }

  ghost predicate PlanOk(db: Db, op: Op, plan: Plan) {
    match op
    case Fund(user, c, _, _) =>
      plan.CreditPlan? && WalletOfUser(db.wallets, user) == Some(plan.wallet) && FindAsset(db, plan.wallet, c).Some?
    case CreditByEmail(email, _, _, _) =>
      plan.CreditPlan? && FindUser(db.users, email).Some?
      && WalletOfUser(db.wallets, FindUser(db.users, email).value) == Some(plan.wallet)
    case Swap(user, from, _, _, _, _) =>
      plan.DebitPlan? && WalletOfUser(db.wallets, user) == Some(plan.wallet)
      && FindAsset(db, plan.wallet, from) == Some(plan.asset)
    case Withdraw(user, c, _, _, _) =>
      plan.DebitPlan? && WalletOfUser(db.wallets, user) == Some(plan.wallet)
      && FindAsset(db, plan.wallet, c) == Some(plan.asset)
    case Transfer(user, account, c, _, _) =>
      plan.TransferPlan? && WalletOfUser(db.wallets, user) == Some(plan.wallet)
      && FindAsset(db, plan.wallet, c) == Some(plan.asset)
      && WalletOfAccount(db.wallets, account) == Some(plan.receiver)
      && plan.receiver != plan.wallet
    case Refund(code) =>
      plan.RefundPlan? && FindWithdrawal(db.log, code) == Some(plan.row)
      && db.log[plan.row].status != Failed
      && db.log[plan.row].walletId == plan.wallet && db.log[plan.row].currency == plan.currency
      && db.log[plan.row].amount == plan.amount
    case _ => true
  }

  /** The abstract ledger a database stands for. */
  function Balances(assets: seq<Asset>): map<(nat, string), real> {
    if assets == [] then map[]
    else
      var a := assets[|assets| - 1];
      Balances(assets[..|assets| - 1])[(a.walletId, a.currency) := a.balance]
  }

  function Abs(db: Db): Book { Book(db.users, db.wallets, Balances(db.assets), db.log) }
}
