/** internals/repository/wallet_repo.go as an object over mutable tables. Each method reads, decides and
    submits as the Go code does; uninterrupted, each is exactly the atomic operation of the ledger. */
module Repository {
  import opened Prelude
  import opened Tables
  import opened Book
  import opened Calls
  import opened Integrity
  import opened Refinement
  import opened Service
  import opened Effects

  /** A failed statement keeps failing the batch. */
  lemma {:induction false} ErrorSticks(db: Db, stmts: seq<Stmt>, i: nat)
    requires i <= |stmts| && RunBatch(db, stmts[..i]).Err?
    ensures RunBatch(db, stmts) == RunBatch(db, stmts[..i])
    decreases |stmts| - i
  {
    if i == |stmts| {
      assert stmts[..i] == stmts;
    } else {
      assert stmts[..i + 1][..i] == stmts[..i];
      ErrorSticks(db, stmts, i + 1);
    }
  }

  /** What CreditWallet does to the database, and its answer. */
  function Credited(db: Db, w: nat, c: string, x: real, ref: string): (Db, Reply) {
    var r := RunBatch(db, [InsertRow(DepositRow(w, c, x, ref)), Upsert(w, c, x)]);
    (Settle(db, r), if r.Ok? then Done else Rejected(Database(r.error)))
  }

  /** It adds the amount to the wallet's balance, from zero if there is none, and logs one row; or it refuses an
      unknown wallet, a used reference and a negative balance, in that order, and changes nothing. */
  lemma CreditedExactly(db: Db, w: nat, c: string, x: real, ref: string)
    requires Valid(db)
    ensures var (db', reply) := Credited(db, w, c, x, ref); var y := BalanceOf(Abs(db), (w, c)) + x;
      && Valid(db') && Extends(db, db') && (reply.Rejected? ==> db' == db)
      && if w >= |db.wallets| then reply == Rejected(Database(ForeignKeyViolation))
         else if RefUsed(db.log, ref) then reply == Rejected(Database(UniqueViolation))
         else if y < 0.0 then reply == Rejected(Database(CheckViolation))
         else
           && reply.Done?
           && Abs(db')
              == Abs(db).(balances := Abs(db).balances[(w, c) := y], log := db.log + [DepositRow(w, c, x, ref)])
  {
    var row := DepositRow(w, c, x, ref);
    InsertUpsertKeeps(db, row, x);
    if w < |db.wallets| {
      InsertUpsertAbs(db, row, x);
    } else {
      Batch2(db, InsertRow(row), Upsert(w, c, x));
    }
  }

  /** FundWallet looks the user's asset up before it credits the asset's wallet: together, the deposit. */
  lemma FundIsCredit(db: Db, user: nat, c: string, x: real, key: string)
    requires Valid(db)
    ensures var a := GetAssetByCurrency(db, user, c); var (db', done) := Perform(db, Fund(user, c, x, key));
      (db', done.reply)
        == if a.None? then (db, Rejected(NoSourceAsset)) else Credited(db, db.assets[a.value].walletId, c, x, key)
  {
  }

  /** The row a withdrawal leaves: the amount, pending, under its reference and its transfer code. */
  lemma WithdrawalRowOf(db: Db, user: nat, c: string, x: real, ref: string, code: string)
    requires Valid(db)
    ensures var (db', done) := Perform(db, Withdraw(user, c, x, ref, code));
      if done.reply.Done? then
        && |db'.log| == |db.log| + 1 && db'.log[..|db.log|] == db.log
        && db'.log[|db.log|] == Row(db'.log[|db.log|].walletId, x, c, Withdrawal, ref, Pending, Some(code))
        && IsWalletOf(db', db'.log[|db.log|].walletId, user)
      else db' == db
  {
    PerformIsAtomic(db, Withdraw(user, c, x, ref, code));
    RefusalKeepsDb(db, Withdraw(user, c, x, ref, code));
    var w := WalletOfUser(db.wallets, user);
    if w.Some? {
      WithdrawPerformed(db, user, c, x, ref, code, w.value);
    }
  }

  class WalletRepository {
    var users: seq<User>
    var wallets: seq<Wallet>
    var assets: seq<Asset>
    var log: seq<Row>

    function Tables(): Db
      reads this
    {
      Db(users, wallets, assets, log)
    }

    constructor ()
      ensures Tables() == EMPTY && Valid(Tables())
    {
      users, wallets, assets, log := [], [], [], [];
    }

    method SetAssetBalance(i: nat, x: real) returns (e: Option<DbError>)
      requires i < |assets|
      modifies this`assets
      ensures var r := SetBalance(old(Tables()), i, x);
        if r.Ok? then e.None? && Tables() == r.value else e == Some(r.error) && Tables() == old(Tables())
    {
      if x < 0.0 {
        return Some(CheckViolation);
      }
      assets := assets[i := assets[i].(balance := x)];
      return None;
    }

    method AddAsset(w: nat, c: string, x: real) returns (e: Option<DbError>)
      modifies this`assets
      ensures var r := CreateAsset(old(Tables()), w, c, x);
        if r.Ok? then e.None? && Tables() == r.value else e == Some(r.error) && Tables() == old(Tables())
    {
      if w >= |wallets| {
        return Some(ForeignKeyViolation);
      }
      if FindAsset(Tables(), w, c).Some? {
        return Some(UniqueViolation);
      }
      if x < 0.0 {
        return Some(CheckViolation);
      }
      assets := assets + [Asset(w, c, x)];
      return None;
    }

    /** One statement, with its constraints. */
    method Execute(st: Stmt) returns (e: Option<DbError>)
      modifies this
      ensures var r := ExecStmt(old(Tables()), st);
        if r.Ok? then e.None? && Tables() == r.value else e == Some(r.error) && Tables() == old(Tables())
    {
      match st
      case AddToAsset(i, d) =>
        if i >= |assets| { return Some(RecordNotFound); }
        e := SetAssetBalance(i, assets[i].balance + d);
      case AddToKey(w, c, d) =>
        var i := FindAsset(Tables(), w, c);
        if i.None? { return Some(RecordNotFound); }
        e := SetAssetBalance(i.value, assets[i.value].balance + d);
      case Upsert(w, c, x) =>
        var i := FindAsset(Tables(), w, c);
        if i.Some? {
          e := SetAssetBalance(i.value, assets[i.value].balance + x);
        } else {
          e := AddAsset(w, c, x);
        }
      case InsertRow(row) =>
        if row.walletId >= |wallets| { return Some(ForeignKeyViolation); }
        if RefUsed(log, row.reference) { return Some(UniqueViolation); }
        log := log + [row];
        return None;
      case SetStatus(i, s) =>
        if i >= |log| { return Some(RecordNotFound); }
        log := log[i := log[i].(status := s)];
        return None;
      case SetStatusByGateway(code, s) =>
        MarkRows(code, s);
        return None;
      case InsertUser(u) =>
        if FindUser(users, u.email).Some? { return Some(UniqueViolation); }
        users := users + [u];
        return None;
      case InsertWallet(w) =>
        if w.userId >= |users| { return Some(ForeignKeyViolation); }
        if WalletOfUser(wallets, w.userId).Some? || WalletOfAccount(wallets, w.accountNumber).Some? {
          return Some(UniqueViolation);
        }
        wallets := wallets + [w];
        return None;
      case InsertAsset(w, c) =>
        e := AddAsset(w, c, 0.0);
    }

    /** FindMany(gatewayRef).Update(status), row by row. */
    method MarkRows(code: string, s: Status)
      modifies this`log
      ensures log == MarkAll(old(log), code, s)
    {
      var i := 0;
      while i < |log|
        invariant 0 <= i <= |log| == |old(log)|
        invariant forall k :: 0 <= k < i ==> log[k] == MarkAll(old(log), code, s)[k]
        invariant forall k :: i <= k < |log| ==> log[k] == old(log)[k]
      {
        if log[i].gatewayRef == Some(code) {
          log := log[i := log[i].(status := s)];
        }
        i := i + 1;
      }
    }

    /** A Prisma transaction: statement by statement, everything undone at the first failure. */
    method Transaction(stmts: seq<Stmt>) returns (e: Option<DbError>)
      modifies this
      ensures var r := RunBatch(old(Tables()), stmts);
        if r.Ok? then e.None? && Tables() == r.value else e == Some(r.error) && Tables() == old(Tables())
    {
      var users0, wallets0, assets0, log0 := users, wallets, assets, log;
      var i := 0;
      while i < |stmts|
        invariant i <= |stmts| && RunBatch(old(Tables()), stmts[..i]) == Ok(Tables())
      {
        assert stmts[..i + 1][..i] == stmts[..i];
        e := Execute(stmts[i]);
        if e.Some? {
          users, wallets, assets, log := users0, wallets0, assets0, log0;
          ErrorSticks(old(Tables()), stmts, i + 1);
          return;
        }
        i := i + 1;
      }
      assert stmts[..i] == stmts;
      return None;
    }

    /** What every method promises: Perform, the uninterrupted call, which PerformIsAtomic shows to be the
        atomic operation of the ledger. */
    twostate predicate Did(op: Op, r: Reply)
      reads this
    {
      && (Tables(), r) == (Perform(old(Tables()), op).0, Perform(old(Tables()), op).1.reply)
      && Valid(Tables())
    }

    /** CreditWallet, on any wallet id; the asset is created if the wallet has none of that currency. */
    method CreditWallet(wallet: nat, currency: string, amount: real, reference: string) returns (r: Reply)
      requires Valid(Tables())
      modifies this
      ensures (Tables(), r) == Credited(old(Tables()), wallet, currency, amount, reference)
      ensures Valid(Tables())
    {
      CreditedExactly(Tables(), wallet, currency, amount, reference);
      var row := DepositRow(wallet, currency, amount, reference);
      var e := Transaction([InsertRow(row), Upsert(wallet, currency, amount)]);
      r := if e.Some? then Rejected(Database(e.value)) else Done;
    }

    method SwapFunds(user: nat, from: string, to: string, amountIn: real, amountOut: real, key: string)
      returns (r: Reply)
      requires Valid(Tables())
      modifies this
      ensures Did(Op.Swap(user, from, to, amountIn, amountOut, key), r)
    {
      PerformValid(Tables(), Op.Swap(user, from, to, amountIn, amountOut, key));
      var source := GetAssetByCurrency(Tables(), user, from);
      if source.None? {
        return Rejected(NoSourceAsset);
      }
      if assets[source.value].balance < amountIn {
        return Rejected(InsufficientFunds);
      }
      var wallet := assets[source.value].walletId;
      var rows := SwapRows(wallet, from, to, amountIn, amountOut, key);
      var e := Transaction([AddToAsset(source.value, -amountIn), Upsert(wallet, to, amountOut),
                            InsertRow(rows.0), InsertRow(rows.1)]);
      r := DebitReply(e);
    }

    method TransferFunds(user: nat, account: string, currency: string, amount: real, key: string)
      returns (r: Reply)
      requires Valid(Tables())
      modifies this
      ensures Did(Op.Transfer(user, account, currency, amount, key), r)
    {
      PerformValid(Tables(), Op.Transfer(user, account, currency, amount, key));
      var sender := GetAssetByCurrency(Tables(), user, currency);
      if sender.None? {
        return Rejected(NoSourceAsset);
      }
      var receiver := WalletOfAccount(wallets, account);
      if receiver.None? {
        return Rejected(NoRecipient);
      }
      if wallets[receiver.value].userId == user {
        return Rejected(SelfTransfer);
      }
      var rows := TransferRows(assets[sender.value].walletId, receiver.value, currency, amount, key);
      var e := Transaction([AddToAsset(sender.value, -amount), Upsert(receiver.value, currency, amount),
                            InsertRow(rows.0), InsertRow(rows.1)]);
      r := DebitReply(e);
    }

    method DebitForWithdrawal(user: nat, currency: string, amount: real, reference: string, code: string)
      returns (r: Reply)
      requires Valid(Tables())
      modifies this
      ensures Did(Withdraw(user, currency, amount, reference, code), r)
      ensures r.Done? ==> |log| == |old(log)| + 1 && log[..|old(log)|] == old(log)
      ensures r.Done? ==>
        log[|old(log)|] == Row(log[|old(log)|].walletId, amount, currency, Withdrawal, reference, Pending, Some(code))
      ensures r.Done? ==> IsWalletOf(Tables(), log[|old(log)|].walletId, user)
      ensures r.Rejected? ==> Tables() == old(Tables())
    {
      PerformValid(Tables(), Withdraw(user, currency, amount, reference, code));
      WithdrawalRowOf(Tables(), user, currency, amount, reference, code);
      var asset := GetAssetByCurrency(Tables(), user, currency);
      if asset.None? || assets[asset.value].balance < amount {
        return Rejected(InsufficientFunds);
      }
      var wallet := assets[asset.value].walletId;
      var e := Transaction([AddToAsset(asset.value, -amount),
                            InsertRow(WithdrawalRow(wallet, currency, amount, reference, code))]);
      r := DebitReply(e);
    }

    method CreditWalletByEmail(email: string, currency: string, amount: real, reference: string)
      returns (r: Reply)
      requires Valid(Tables())
      modifies this
      ensures Did(CreditByEmail(email, currency, amount, reference), r)
    {
      PerformValid(Tables(), CreditByEmail(email, currency, amount, reference));
      var user := FindUser(users, email);
      if user.None? {
        return Rejected(UserNotFound);
      }
      var wallet := WalletOfUser(wallets, user.value);
      if wallet.None? {
        return Rejected(NoWallet);
      }
      var e := Transaction([Upsert(wallet.value, currency, amount),
                            InsertRow(DepositRow(wallet.value, currency, amount, reference))]);
      if e == Some(UniqueViolation) {
        return Done;
      }
      r := if e.Some? then Rejected(Database(e.value)) else Done;
    }

    method RefundWithdrawal(code: string) returns (r: Reply)
      requires Valid(Tables())
      modifies this
      ensures Did(Refund(code), r)
    {
      PerformValid(Tables(), Refund(code));
      var i := FindWithdrawal(log, code);
      if i.None? || log[i.value].status == Failed {
        return Done;
      }
      var row := log[i.value];
      var e := Transaction([AddToKey(row.walletId, row.currency, row.amount), SetStatus(i.value, Failed)]);
      r := if e.Some? then Rejected(Database(e.value)) else Done;
    }

    /** UpdateTransactionStatus with SUCCESS, the only status it is called with. */
    method UpdateTransactionStatus(code: string) returns (r: Reply)
      requires Valid(Tables())
      modifies this
      ensures Did(MarkSuccess(code), r)
    {
      PerformValid(Tables(), MarkSuccess(code));
      Batch1(Tables(), SetStatusByGateway(code, Status.Success));
      MarkRows(code, Status.Success);
      r := Done;
    }

    /** A lone insert. */
    method Insert(st: Stmt, ghost op: Op) returns (r: Reply)
      requires Valid(Tables())
      requires (op.NewUser? || op.NewWallet? || op.NewAsset?) && Batch(op, NoPlan) == [st]
      modifies this
      ensures Did(op, r)
    {
      PerformValid(Tables(), op);
      Batch1(Tables(), st);
      var e := Execute(st);
      r := if e.Some? then Rejected(Database(e.value)) else Done;
    }

    /** CreateUserWithWallet of user_repository.go: three inserts, each its own step, stopping at the first
        failure with what was done so far. */
    method CreateUserWithWallet(email: string, account: string) returns (r: Reply)
      requires Valid(Tables())
      modifies this
      ensures Valid(Tables())
      ensures (Tables(), AnswerTo(r)) == Enrolled(old(Tables()), email, account)
    {
      var owner, wallet := |users|, |wallets|;
      r := Insert(InsertUser(User(email)), NewUser(email));
      if r.Rejected? { return; }
      r := Insert(InsertWallet(Wallet(account, owner)), NewWallet(owner, account));
      if r.Rejected? { return; }
      r := Insert(InsertAsset(wallet, "NGN"), NewAsset(wallet));
    }

    static function DebitReply(e: Option<DbError>): Reply {
      if e.None? then Done
      else if e.value == CheckViolation then Rejected(InsufficientFunds)
      else Rejected(Database(e.value))
    }
  }
}
