/** The read-then-batch code against the atomic ledger: every refusal by a read and every outcome of a
    batch is exactly what the atomic operation does to the ledger of that moment. */
module Refinement {
  import opened Prelude
  import opened Tables
  import opened Book
  import opened Calls
  import opened Integrity

  // ---- Reads stay true

  lemma CallOkStable(db: Db, db': Db, call: Call)
    requires CallOk(db, call) && Extends(db, db')
    requires call.op.Refund? && call.Ready? ==> db.log <= db'.log
    ensures CallOk(db', call)
  {
    var op := call.op;
    if op.Fund? || op.Swap? || op.Transfer? || op.Withdraw? {
      var u := (w: Wallet) => w.userId == op.user;
      assert IndexOf(db.wallets, u) == WalletOfUser(db.wallets, op.user);
      if WalletOfUser(db.wallets, op.user).Some? { WalletOfUserKept(db.wallets, db'.wallets, op.user); }
    }
    match call
    case GotSender(op, a, w) =>
      FindAssetKept(db, db', w, op.currency);
    case Ready(op, plan) =>
      match op {
        case Fund(_, c, _, _) => FindAssetKept(db, db', plan.wallet, c);
        case CreditByEmail(email, _, _, _) =>
          FindUserKept(db.users, db'.users, email);
          WalletOfUserKept(db.wallets, db'.wallets, FindUser(db.users, email).value);
        case Swap(_, c, _, _, _, _) => FindAssetKept(db, db', plan.wallet, c);
        case Withdraw(_, c, _, _, _) => FindAssetKept(db, db', plan.wallet, c);
        case Transfer(_, account, c, _, _) =>
          FindAssetKept(db, db', plan.wallet, c);
          WalletOfAccountKept(db.wallets, db'.wallets, account);
        case Refund(code) => FindWithdrawalKept(db.log, db'.log, code);
        case _ =>
      }
    case _ =>
  }

  lemma WalletOfUserKept(ws: seq<Wallet>, ws': seq<Wallet>, user: nat)
    requires ws <= ws' && WalletOfUser(ws, user).Some?
    ensures WalletOfUser(ws', user) == WalletOfUser(ws, user)
  {
    IndexOfPrefix(ws, ws', (w: Wallet) => w.userId == user);
  }

  lemma WalletOfAccountKept(ws: seq<Wallet>, ws': seq<Wallet>, account: string)
    requires ws <= ws' && WalletOfAccount(ws, account).Some?
    ensures WalletOfAccount(ws', account) == WalletOfAccount(ws, account)
  {
    IndexOfPrefix(ws, ws', (w: Wallet) => w.accountNumber == account);
  }

  lemma FindUserKept(us: seq<User>, us': seq<User>, email: string)
    requires us <= us' && FindUser(us, email).Some?
    ensures FindUser(us', email) == FindUser(us, email)
  {
    IndexOfPrefix(us, us', (u: User) => u.email == email);
  }

  // ---- The balance map

  lemma {:induction false} BalancesAt(assets: seq<Asset>, i: nat)
    requires UniquePairs(assets) && i < |assets|
    ensures (assets[i].walletId, assets[i].currency) in Balances(assets)
    ensures Balances(assets)[(assets[i].walletId, assets[i].currency)] == assets[i].balance
  {
    if i < |assets| - 1 {
      BalancesAt(assets[..|assets| - 1], i);
    }
  }

  lemma {:induction false} BalancesDomain(assets: seq<Asset>, w: nat, c: string)
    ensures (w, c) in Balances(assets) <==> IndexOf(assets, AssetIs(w, c)).Some?
  {
    if assets != [] {
      BalancesDomain(assets[..|assets| - 1], w, c);
    }
  }

  lemma {:induction false} BalancesSet(assets: seq<Asset>, i: nat, x: real)
    requires UniquePairs(assets) && i < |assets|
    ensures Balances(assets[i := assets[i].(balance := x)])
         == Balances(assets)[(assets[i].walletId, assets[i].currency) := x]
  {
    var n := |assets| - 1;
    var assets' := assets[i := assets[i].(balance := x)];
    if i == n {
      assert assets'[..n] == assets[..n];
    } else {
      BalancesSet(assets[..n], i, x);
      assert assets'[..n] == assets[..n][i := assets[i].(balance := x)];
      assert (assets[i].walletId, assets[i].currency) != (assets[n].walletId, assets[n].currency);
    }
  }

  lemma BalancesAppend(assets: seq<Asset>, a: Asset)
    ensures Balances(assets + [a]) == Balances(assets)[(a.walletId, a.currency) := a.balance]
  {
    assert (assets + [a])[..|assets|] == assets;
  }

  /** An asset row and its entry in the balance map. */
  lemma LookupAbs(db: Db, w: nat, c: string)
    requires Valid(db)
    ensures FindAsset(db, w, c).Some? <==> (w, c) in Abs(db).balances
    ensures FindAsset(db, w, c).Some? ==> Abs(db).balances[(w, c)] == db.assets[FindAsset(db, w, c).value].balance
  {
    BalancesDomain(db.assets, w, c);
    var i := FindAsset(db, w, c);
    if i.Some? {
      BalancesAt(db.assets, i.value);
    }
  }

  lemma SetBalanceAbs(db: Db, i: nat, x: real)
    requires Valid(db) && i < |db.assets|
    ensures var r := SetBalance(db, i, x); var k := (db.assets[i].walletId, db.assets[i].currency);
      r.Ok? ==> Abs(r.value) == Abs(db).(balances := Abs(db).balances[k := x])
  {
    BalancesSet(db.assets, i, x);
  }

  /** Upsert on the table is one update of the map. */
  lemma UpsertAbs(db: Db, w: nat, c: string, x: real)
    requires Valid(db) && w < |db.wallets|
    ensures var r := ExecStmt(db, Upsert(w, c, x)); var y := BalanceOf(Abs(db), (w, c)) + x;
      && (y < 0.0 ==> r == Err(CheckViolation))
      && (y >= 0.0 ==> r.Ok? && Abs(r.value) == Abs(db).(balances := Abs(db).balances[(w, c) := y]))
  {
    LookupAbs(db, w, c);
    var i := FindAsset(db, w, c);
    if i.Some? {
      SetBalanceAbs(db, i.value, db.assets[i.value].balance + x);
    } else {
      BalancesAppend(db.assets, Asset(w, c, x));
    }
  }

  /** GetAssetByCurrency finds the asset of the user's only wallet. */
  lemma AssetOfUser(db: Db, user: nat, c: string)
    requires Valid(db)
    ensures var a := GetAssetByCurrency(db, user, c); var w := WalletOfUser(db.wallets, user);
      && (a.Some? ==> w == Some(db.assets[a.value].walletId) && FindAsset(db, w.value, c) == a)
      && (a.None? ==> w.None? || FindAsset(db, w.value, c).None?)
  {
    var a := GetAssetByCurrency(db, user, c);
    var w := WalletOfUser(db.wallets, user);
    if a.Some? {
      var k := db.assets[a.value].walletId;
      IndexOfUnique(db.wallets, (x: Wallet) => x.userId == user, k);
      IndexOfUnique(db.assets, AssetIs(k, c), a.value);
    } else if w.Some? {
      var i := FindAsset(db, w.value, c);
      assert i.Some? ==> Owns(db.wallets, user, db.assets[i.value].walletId);
    }
  }

  // ---- Reads refine

  /** A read that ends the call gives the atomic operation's answer at that moment; any other read leaves
      the call with facts that are true of the database. */
  lemma ReadRefines(db: Db, call: Call)
    requires Valid(db) && CallOk(db, call)
    requires call.Start? || call.GotSender?
    ensures var next := Read(db, call);
      && next.op == call.op && CallOk(db, next)
      && !next.Start? && (call.GotSender? ==> next.Ready? || next.Ended?)
      && (next.Ended? ==> Atomic(Abs(db), call.op) == Outcome(Abs(db), next.reply, next.effect))
  {
    var op := call.op;
    match call
    case Start(_) => FirstReadRefines(db, op);
    case GotSender(_, a, w) =>
      LookupAbs(db, w, op.currency);
      var r := WalletOfAccount(db.wallets, op.account);
      if r.Some? {
        assert db.wallets[w].userId == op.user;
        assert (db.wallets[r.value].userId == op.user) == (r.value == w);
      }
  }

  lemma FirstReadRefines(db: Db, op: Op)
    requires Valid(db)
    ensures var next := FirstRead(db, op);
      && next.op == op && CallOk(db, next) && !next.Start?
      && (next.Ended? ==> Atomic(Abs(db), op) == Outcome(Abs(db), next.reply, next.effect))
  {
    match op
    case Fund(user, c, _, _) => SourceRead(db, user, c);
    case Swap(user, from, _, _, _, _) => SourceRead(db, user, from);
    case Transfer(user, _, c, _, _) => SourceRead(db, user, c);
    case Withdraw(user, c, _, _, _) => SourceRead(db, user, c);
    case _ =>
  }

  /** The source asset as the code reads it and as the ledger shows it. */
  lemma SourceRead(db: Db, user: nat, c: string)
    requires Valid(db)
    ensures var a := GetAssetByCurrency(db, user, c); var w := WalletOfUser(db.wallets, user);
      && (a.Some? <==> w.Some? && (w.value, c) in Abs(db).balances)
      && (a.Some? ==> w == Some(db.assets[a.value].walletId) && FindAsset(db, w.value, c) == a
                      && Abs(db).balances[(w.value, c)] == db.assets[a.value].balance)
  {
    AssetOfUser(db, user, c);
    var w := WalletOfUser(db.wallets, user);
    if w.Some? {
      LookupAbs(db, w.value, c);
    }
  }

  // ---- Batches refine

  /** The database side of a batch: valid again, nothing forgotten, exactly the operation's rows logged. */
  ghost predicate Keeps(db: Db, call: Call)
    requires call.Ready?
  {
    var (db', done) := Submit(db, call);
    && Valid(db') && Extends(db, db')
    && (call.op.Refund? || call.op.MarkSuccess? || db.log <= db'.log)
    && (done.effect == Posted ==> |db'.log| == |db.log| + |Refs(call.op)|)
    && (done.effect != Posted ==> |db'.log| == |db.log|)
  }

  /** The ledger side: the batch does what the atomic operation does, reply and effect included. */
  ghost predicate Simulates(db: Db, call: Call)
    requires call.Ready?
  {
    var (db', done) := Submit(db, call);
    Atomic(Abs(db), call.op) == Outcome(Abs(db'), done.reply, done.effect)
  }

  lemma SubmitKeeps(db: Db, call: Call)
    requires Valid(db) && call.Ready? && CallOk(db, call)
    ensures Keeps(db, call)
  {
    match call.op
    case Fund(_, c, x, ref) => InsertThenUpsertKeeps(db, call, DepositRow(call.plan.wallet, c, x, ref), x);
    case CreditByEmail(_, c, x, ref) => UpsertThenInsertKeeps(db, call, DepositRow(call.plan.wallet, c, x, ref), x);
    case Swap(_, from, to, x, y, key) =>
      var rows := SwapRows(call.plan.wallet, from, to, x, y, key);
      FourKeep(db, call, call.plan.asset, x, rows.0, y, rows.1);
    case Transfer(_, _, c, x, key) =>
      var rows := TransferRows(call.plan.wallet, call.plan.receiver, c, x, key);
      FourKeep(db, call, call.plan.asset, x, rows.0, x, rows.1);
    case Withdraw(_, c, x, ref, code) =>
      DebitThenInsertKeeps(db, call, call.plan.asset, x, WithdrawalRow(call.plan.wallet, c, x, ref, code));
    case Refund(_) => RefundKeeps(db, call);
    case _ => LoneKeeps(db, call);
  }

  lemma LoneKeeps(db: Db, call: Call)
    requires Valid(db) && call.Ready?
    requires call.op.MarkSuccess? || call.op.NewUser? || call.op.NewWallet? || call.op.NewAsset?
    ensures Keeps(db, call)
  {
    var st := Batch(call.op, call.plan)[0];
    Batch1(db, st);
    if call.op.MarkSuccess? {
      MarkAllKeeps(db, call.op.code, Success);
    } else {
      RegisterKeeps(db, st);
    }
  }

  lemma InsertThenUpsertKeeps(db: Db, call: Call, row: Row, x: real)
    requires Valid(db) && call.Ready?
    requires row.gatewayRef.None? && row.kind != Withdrawal
    requires call.op.Fund? && Batch(call.op, call.plan) == [InsertRow(row), Upsert(row.walletId, row.currency, x)]
    ensures Keeps(db, call)
  {
    InsertUpsertKeeps(db, row, x);
  }

  lemma UpsertThenInsertKeeps(db: Db, call: Call, row: Row, x: real)
    requires Valid(db) && call.Ready?
    requires row.gatewayRef.None? && row.kind != Withdrawal
    requires call.op.CreditByEmail?
    requires Batch(call.op, call.plan) == [Upsert(row.walletId, row.currency, x), InsertRow(row)]
    ensures Keeps(db, call)
  {
    Batch2(db, Upsert(row.walletId, row.currency, x), InsertRow(row));
    var r1 := ExecStmt(db, Upsert(row.walletId, row.currency, x));
    if r1.Ok? {
      UpsertKeeps(db, row.walletId, row.currency, x);
      InsertRowKeeps(r1.value, row);
      var r2 := ExecStmt(r1.value, InsertRow(row));
      if r2.Ok? {
        ExtendsTrans(db, r1.value, r2.value);
      }
    }
  }

  lemma DebitThenInsertKeeps(db: Db, call: Call, a: nat, x: real, row: Row)
    requires Valid(db) && call.Ready? && FindAsset(db, row.walletId, row.currency) == Some(a)
    requires row.gatewayRef.Some? && row.kind == Withdrawal
    requires call.op.Withdraw? && Batch(call.op, call.plan) == [AddToAsset(a, -x), InsertRow(row)]
    ensures Keeps(db, call)
  {
    Batch2(db, AddToAsset(a, -x), InsertRow(row));
    var r1 := ExecStmt(db, AddToAsset(a, -x));
    if r1.Ok? {
      SetBalanceKeeps(db, a, db.assets[a].balance - x);
      FindAssetKept(db, r1.value, row.walletId, row.currency);
      InsertRowKeeps(r1.value, row);
      var r2 := ExecStmt(r1.value, InsertRow(row));
      if r2.Ok? {
        ExtendsTrans(db, r1.value, r2.value);
      }
    }
  }

  lemma RefundKeeps(db: Db, call: Call)
    requires Valid(db) && call.Ready? && CallOk(db, call) && call.op.Refund?
    ensures Keeps(db, call)
  {
    var RefundPlan(i, w, c, x) := call.plan;
    Batch2(db, AddToKey(w, c, x), SetStatus(i, Failed));
    RefundTarget(db, call);
    var a := FindAsset(db, w, c).value;
    var r1 := ExecStmt(db, AddToKey(w, c, x));
    if r1.Ok? {
      SetBalanceKeeps(db, a, db.assets[a].balance + x);
      SetStatusKeeps(r1.value, i, Failed);
      ExtendsTrans(db, r1.value, ExecStmt(r1.value, SetStatus(i, Failed)).value);
    }
  }

  /** The asset row a refund increments always exists. */
  lemma RefundTarget(db: Db, call: Call)
    requires Valid(db) && call.Ready? && CallOk(db, call) && call.op.Refund?
    ensures FindAsset(db, call.plan.wallet, call.plan.currency).Some?
  {
    var i := call.plan.row;
    assert FindAsset(db, db.log[i].walletId, db.log[i].currency).Some?;
  }

  /** Debit of one asset, then upsert-credit of (w, c): the common half of swaps and transfers. */
  lemma DebitCreditKeeps(db: Db, i: nat, x: real, w: nat, c: string, y: real)
    requires Valid(db) && i < |db.assets|
    ensures var r := Then(ExecStmt(db, AddToAsset(i, -x)), Upsert(w, c, y));
      r.Ok? ==>
        && Valid(r.value) && Extends(db, r.value) && r.value.log == db.log
        && FindAsset(r.value, w, c).Some?
  {
    var r1 := ExecStmt(db, AddToAsset(i, -x));
    if r1.Ok? {
      SetBalanceKeeps(db, i, db.assets[i].balance - x);
      UpsertKeeps(r1.value, w, c, y);
      var r2 := ExecStmt(r1.value, Upsert(w, c, y));
      if r2.Ok? {
        ExtendsTrans(db, r1.value, r2.value);
      }
    }
  }

  /** The two log inserts that close a swap or a transfer. */
  lemma TwoRowsKeep(db: Db, a: Row, b: Row)
    requires Valid(db)
    requires FindAsset(db, a.walletId, a.currency).Some? && FindAsset(db, b.walletId, b.currency).Some?
    requires a.gatewayRef.None? && a.kind != Withdrawal && b.gatewayRef.None? && b.kind != Withdrawal
    ensures var r := Then(ExecStmt(db, InsertRow(a)), InsertRow(b));
      r.Ok? ==> Valid(r.value) && Extends(db, r.value) && r.value.log == db.log + [a, b]
  {
    var r1 := ExecStmt(db, InsertRow(a));
    if r1.Ok? {
      InsertRowKeeps(db, a);
      FindAssetKept(db, r1.value, b.walletId, b.currency);
      InsertRowKeeps(r1.value, b);
      var r2 := ExecStmt(r1.value, InsertRow(b));
      if r2.Ok? {
        ExtendsTrans(db, r1.value, r2.value);
        assert db.log + [a] + [b] == db.log + [a, b];
      }
    }
  }

  lemma FourKeep(db: Db, call: Call, i: nat, x: real, a: Row, y: real, b: Row)
    requires Valid(db) && call.Ready? && (call.op.Swap? || call.op.Transfer?)
    requires FindAsset(db, a.walletId, a.currency) == Some(i)
    requires a.gatewayRef.None? && a.kind != Withdrawal && b.gatewayRef.None? && b.kind != Withdrawal
    requires Batch(call.op, call.plan)
      == [AddToAsset(i, -x), Upsert(b.walletId, b.currency, y), InsertRow(a), InsertRow(b)]
    ensures Keeps(db, call)
  {
    Batch4(db, AddToAsset(i, -x), Upsert(b.walletId, b.currency, y), InsertRow(a), InsertRow(b));
    var r2 := Then(ExecStmt(db, AddToAsset(i, -x)), Upsert(b.walletId, b.currency, y));
    if r2.Ok? {
      DebitCreditKeeps(db, i, x, b.walletId, b.currency, y);
      FindAssetKept(db, r2.value, a.walletId, a.currency);
      TwoRowsKeep(r2.value, a, b);
      var r4 := Then(Then(r2, InsertRow(a)), InsertRow(b));
      if r4.Ok? {
        ExtendsTrans(db, r2.value, r4.value);
      }
    }
  }

  // ---- The same batches seen through the balance map

  lemma SubmitSimulates(db: Db, call: Call)
    requires Valid(db) && call.Ready? && CallOk(db, call)
    ensures Simulates(db, call)
  {
    match call.op
    case Fund(_, _, _, _) => FundSimulates(db, call);
    case CreditByEmail(_, _, _, _) => CreditByEmailSimulates(db, call);
    case Swap(_, _, _, _, _, _) => SwapSimulates(db, call);
    case Transfer(_, _, _, _, _) => TransferSimulates(db, call);
    case Withdraw(_, _, _, _, _) => WithdrawSimulates(db, call);
    case Refund(_) => RefundSimulates(db, call);
    case MarkSuccess(code) => Batch1(db, SetStatusByGateway(code, Success));
    case NewUser(_) => Batch1(db, Batch(call.op, call.plan)[0]);
    case NewWallet(_, _) => Batch1(db, Batch(call.op, call.plan)[0]);
    case NewAsset(w) =>
      Batch1(db, Batch(call.op, call.plan)[0]);
      LookupAbs(db, w, "NGN");
      BalancesAppend(db.assets, Asset(w, "NGN", 0.0));
  }

  lemma UpsertIgnoresLog(db: Db, log: seq<Row>, w: nat, c: string, x: real)
    ensures var r := ExecStmt(db, Upsert(w, c, x));
      ExecStmt(db.(log := log), Upsert(w, c, x)) == if r.Ok? then Ok(r.value.(log := log)) else r
    ensures var r := ExecStmt(db, Upsert(w, c, x)); r.Ok? ==> r.value.log == db.log && r.value.wallets == db.wallets
  {
    assert FindAsset(db.(log := log), w, c) == FindAsset(db, w, c);
  }

  /** A deposit's row and upsert, row first: the duplicate is noticed before the balance. The wallet need not
      have an asset of that currency yet. */
  lemma InsertUpsertAbs(db: Db, row: Row, x: real)
    requires Valid(db) && row.walletId < |db.wallets|
    ensures var k := (row.walletId, row.currency); var y := BalanceOf(Abs(db), k) + x;
      var r := RunBatch(db, [InsertRow(row), Upsert(row.walletId, row.currency, x)]);
      if RefUsed(db.log, row.reference) then r == Err(UniqueViolation)
      else if y < 0.0 then r == Err(CheckViolation)
      else r.Ok? && Abs(r.value) == Abs(db).(balances := Abs(db).balances[k := y], log := db.log + [row])
  {
    Batch2(db, InsertRow(row), Upsert(row.walletId, row.currency, x));
    UpsertAbs(db, row.walletId, row.currency, x);
    UpsertIgnoresLog(db, db.log + [row], row.walletId, row.currency, x);
  }

  /** Halfway the row may lack its asset; at the end it has it, and all constraints hold. */
  lemma InsertUpsertKeeps(db: Db, row: Row, x: real)
    requires Valid(db) && row.gatewayRef.None? && row.kind != Withdrawal
    ensures var r := RunBatch(db, [InsertRow(row), Upsert(row.walletId, row.currency, x)]);
      r.Ok? ==> Valid(r.value) && Extends(db, r.value) && r.value.log == db.log + [row]
  {
    Batch2(db, InsertRow(row), Upsert(row.walletId, row.currency, x));
    UpsertIgnoresLog(db, db.log + [row], row.walletId, row.currency, x);
    var r1 := ExecStmt(db, Upsert(row.walletId, row.currency, x));
    if r1.Ok? {
      UpsertKeeps(db, row.walletId, row.currency, x);
      InsertRowKeeps(r1.value, row);
      var r2 := ExecStmt(r1.value, InsertRow(row));
      if r2.Ok? { ExtendsTrans(db, r1.value, r2.value); }
    }
  }

  /** The other order: the balance is checked first. */
  lemma UpsertInsertAbs(db: Db, row: Row, x: real)
    requires Valid(db) && row.walletId < |db.wallets|
    ensures var k := (row.walletId, row.currency); var y := BalanceOf(Abs(db), k) + x;
      var r := RunBatch(db, [Upsert(row.walletId, row.currency, x), InsertRow(row)]);
      if y < 0.0 then r == Err(CheckViolation)
      else if RefUsed(db.log, row.reference) then r == Err(UniqueViolation)
      else r.Ok? && Abs(r.value) == Abs(db).(balances := Abs(db).balances[k := y], log := db.log + [row])
  {
    Batch2(db, Upsert(row.walletId, row.currency, x), InsertRow(row));
    UpsertAbs(db, row.walletId, row.currency, x);
  }

  lemma FundSimulates(db: Db, call: Call)
    requires Valid(db) && call.Ready? && CallOk(db, call) && call.op.Fund?
    ensures Simulates(db, call)
  {
    var Fund(user, c, x, ref) := call.op;
    var w := call.plan.wallet;
    LookupAbs(db, w, c);
    InsertUpsertAbs(db, DepositRow(w, c, x, ref), x);
  }

  lemma CreditByEmailSimulates(db: Db, call: Call)
    requires Valid(db) && call.Ready? && CallOk(db, call) && call.op.CreditByEmail?
    ensures Simulates(db, call)
  {
    var CreditByEmail(email, c, x, ref) := call.op;
    var w := call.plan.wallet;
    UpsertInsertAbs(db, DepositRow(w, c, x, ref), x);
  }

  lemma WithdrawSimulates(db: Db, call: Call)
    requires Valid(db) && call.Ready? && CallOk(db, call) && call.op.Withdraw?
    ensures Simulates(db, call)
  {
    var Withdraw(user, c, x, ref, code) := call.op;
    var DebitPlan(a, w) := call.plan;
    Batch2(db, AddToAsset(a, -x), InsertRow(WithdrawalRow(w, c, x, ref, code)));
    LookupAbs(db, w, c);
    SetBalanceAbs(db, a, db.assets[a].balance - x);
  }

  lemma RefundSimulates(db: Db, call: Call)
    requires Valid(db) && call.Ready? && CallOk(db, call) && call.op.Refund?
    ensures Simulates(db, call)
  {
    var RefundPlan(i, w, c, x) := call.plan;
    Batch2(db, AddToKey(w, c, x), SetStatus(i, Failed));
    RefundTarget(db, call);
    var a := FindAsset(db, w, c).value;
    LookupAbs(db, w, c);
    SetBalanceAbs(db, a, db.assets[a].balance + x);
  }

  lemma DebitCreditAbs(db: Db, i: nat, x: real, w: nat, c: string, y: real)
    requires Valid(db) && i < |db.assets| && w < |db.wallets|
    ensures
      var k := (db.assets[i].walletId, db.assets[i].currency);
      var source := db.assets[i].balance - x;
      var dest := (if k == (w, c) then source else BalanceOf(Abs(db), (w, c))) + y;
      var r := Then(ExecStmt(db, AddToAsset(i, -x)), Upsert(w, c, y));
      && (source < 0.0 || dest < 0.0 ==> r == Err(CheckViolation))
      && (source >= 0.0 && dest >= 0.0 ==>
            && r.Ok? && r.value.log == db.log && r.value.wallets == db.wallets
            && Abs(r.value) == Abs(db).(balances := Abs(db).balances[k := source][(w, c) := dest]))
  {
    DebitAbs(db, i, x);
    var r1 := ExecStmt(db, AddToAsset(i, -x));
    if r1.Ok? {
      UpsertAbs(r1.value, w, c, y);
      UpsertIgnoresLog(r1.value, r1.value.log, w, c, y);
    }
  }

  lemma DebitAbs(db: Db, i: nat, x: real)
    requires Valid(db) && i < |db.assets|
    ensures
      var k := (db.assets[i].walletId, db.assets[i].currency);
      var source := db.assets[i].balance - x;
      var r := ExecStmt(db, AddToAsset(i, -x));
      if source < 0.0 then r == Err(CheckViolation)
      else
        && r.Ok? && Valid(r.value) && r.value.log == db.log && r.value.wallets == db.wallets
        && Abs(r.value) == Abs(db).(balances := Abs(db).balances[k := source])
  {
    SetBalanceKeeps(db, i, db.assets[i].balance - x);
    SetBalanceAbs(db, i, db.assets[i].balance - x);
  }

  lemma TwoRowsAbs(db: Db, a: Row, b: Row)
    requires a.reference != b.reference && a.walletId < |db.wallets| && b.walletId < |db.wallets|
    ensures var r := Then(ExecStmt(db, InsertRow(a)), InsertRow(b));
      r == if RefUsed(db.log, a.reference) || RefUsed(db.log, b.reference)
           then Err(UniqueViolation) else Ok(db.(log := db.log + [a, b]))
  {
    var r1 := ExecStmt(db, InsertRow(a));
    RefUsedIff(db.log, b.reference);
    if r1.Ok? {
      RefUsedIff(r1.value.log, b.reference);
      assert r1.value.log[|db.log|] == a;
      assert forall i :: 0 <= i < |db.log| ==> r1.value.log[i] == db.log[i];
      assert db.log + [a] + [b] == db.log + [a, b];
    }
  }

  /** The four statements of a swap or transfer as one update of the ledger, or one refusal. */
  lemma FourAbs(db: Db, i: nat, x: real, a: Row, y: real, b: Row)
    requires Valid(db) && i < |db.assets| && b.walletId < |db.wallets|
    requires db.assets[i].walletId == a.walletId && db.assets[i].currency == a.currency
    requires a.reference != b.reference
    ensures
      var k := (a.walletId, a.currency);
      var k' := (b.walletId, b.currency);
      var source := db.assets[i].balance - x;
      var dest := (if k == k' then source else BalanceOf(Abs(db), k')) + y;
      var r := RunBatch(db, [AddToAsset(i, -x), Upsert(b.walletId, b.currency, y), InsertRow(a), InsertRow(b)]);
      if source < 0.0 || dest < 0.0 then r == Err(CheckViolation)
      else if RefUsed(db.log, a.reference) || RefUsed(db.log, b.reference) then r == Err(UniqueViolation)
      else
        && r.Ok?
        && Abs(r.value) == Abs(db).(balances := Abs(db).balances[k := source][k' := dest], log := db.log + [a, b])
  {
    Batch4(db, AddToAsset(i, -x), Upsert(b.walletId, b.currency, y), InsertRow(a), InsertRow(b));
    DebitCreditAbs(db, i, x, b.walletId, b.currency, y);
    var r2 := Then(ExecStmt(db, AddToAsset(i, -x)), Upsert(b.walletId, b.currency, y));
    if r2.Ok? {
      TwoRowsAbs(r2.value, a, b);
    }
  }

  lemma SuffixesDiffer(key: string)
    ensures Out(key) != In(key) && Debit(key) != Credit(key)
  {
    assert |Out(key)| != |In(key)|;
    assert |Debit(key)| != |Credit(key)|;
  }

  /** Debit, upsert-credit and two inserts equal the atomic swap, also when both legs hit one row. */
  lemma SwapSimulates(db: Db, call: Call)
    requires Valid(db) && call.Ready? && CallOk(db, call) && call.op.Swap?
    ensures Simulates(db, call)
  {
    var Swap(user, from, to, x, y, key) := call.op;
    var DebitPlan(a, w) := call.plan;
    var rows := SwapRows(w, from, to, x, y, key);
    LookupAbs(db, w, from);
    SuffixesDiffer(key);
    FourAbs(db, a, x, rows.0, y, rows.1);
    SwapOutcome(Abs(db), call.op, w, Submit(db, call).0, RunBatch(db, Batch(call.op, call.plan)));
  }

  lemma SwapOutcome(b: Book, op: Op, w: nat, db': Db, r: Result<Db, DbError>)
    requires op.Swap? && WalletOfUser(b.wallets, op.user) == Some(w) && (w, op.from) in b.balances
    requires
      var source := b.balances[(w, op.from)] - op.amountIn;
      var dest := (if op.from == op.to then source else BalanceOf(b, (w, op.to))) + op.amountOut;
      var rows := SwapRows(w, op.from, op.to, op.amountIn, op.amountOut, op.key);
      if source < 0.0 || dest < 0.0 then r == Err(CheckViolation) && Abs(db') == b
      else if RefUsed(b.log, Out(op.key)) || RefUsed(b.log, In(op.key)) then r == Err(UniqueViolation) && Abs(db') == b
      else
        && r.Ok?
        && Abs(db') == b.(balances := b.balances[(w, op.from) := source][(w, op.to) := dest],
                          log := b.log + [rows.0, rows.1])
    ensures AtomicSwap(b, op.user, op.from, op.to, op.amountIn, op.amountOut, op.key)
         == Outcome(Abs(db'), ReplyTo(op, r), if r.Ok? then Posted else Nothing)
  {
    var source := b.balances[(w, op.from)] - op.amountIn;
    var dest := (if op.from == op.to then source else BalanceOf(b, (w, op.to))) + op.amountOut;
    assert b.balances[(w, op.from) := source][(w, op.to) := dest]
        == b.balances + map[(w, op.from) := source] + map[(w, op.to) := dest];
  }

  /** One wallet per user keeps the two rows of a transfer apart. */
  lemma TransferSimulates(db: Db, call: Call)
    requires Valid(db) && call.Ready? && CallOk(db, call) && call.op.Transfer?
    ensures Simulates(db, call)
  {
    var Transfer(user, account, c, x, key) := call.op;
    var TransferPlan(a, s, t) := call.plan;
    var rows := TransferRows(s, t, c, x, key);
    LookupAbs(db, s, c);
    SuffixesDiffer(key);
    FourAbs(db, a, x, rows.0, x, rows.1);
    TransferOutcome(Abs(db), call.op, s, t, Submit(db, call).0, RunBatch(db, Batch(call.op, call.plan)));
  }

  lemma TransferOutcome(b: Book, op: Op, s: nat, t: nat, db': Db, r: Result<Db, DbError>)
    requires op.Transfer? && s != t && WalletOfUser(b.wallets, op.user) == Some(s) && (s, op.currency) in b.balances
    requires WalletOfAccount(b.wallets, op.account) == Some(t)
    requires
      var source := b.balances[(s, op.currency)] - op.amount;
      var dest := BalanceOf(b, (t, op.currency)) + op.amount;
      var rows := TransferRows(s, t, op.currency, op.amount, op.key);
      if source < 0.0 || dest < 0.0 then r == Err(CheckViolation) && Abs(db') == b
      else if RefUsed(b.log, Debit(op.key)) || RefUsed(b.log, Credit(op.key))
      then r == Err(UniqueViolation) && Abs(db') == b
      else
        && r.Ok?
        && Abs(db') == b.(balances := b.balances[(s, op.currency) := source][(t, op.currency) := dest],
                          log := b.log + [rows.0, rows.1])
    ensures AtomicTransfer(b, op.user, op.account, op.currency, op.amount, op.key)
         == Outcome(Abs(db'), ReplyTo(op, r), if r.Ok? then Posted else Nothing)
  {
    var source := b.balances[(s, op.currency)] - op.amount;
    var dest := BalanceOf(b, (t, op.currency)) + op.amount;
    assert b.balances[(s, op.currency) := source][(t, op.currency) := dest]
        == b.balances + map[(s, op.currency) := source, (t, op.currency) := dest];
  }
}
