/** Money is neither made nor lost: weighted sums over the asset table follow weighted sums over the log.
    An additive valuation g(wallet, currency, amount) picks what is added up: one balance, one currency,
    or a price. */
module Reconcile {
  import opened Prelude
  import opened Tables
  import opened Book
  import opened Calls
  import opened Integrity
  import opened Refinement

  predicate HasSuffix(s: string, t: string) { |t| <= |s| && s[|s| - |t|..] == t }

  /** The sign of a log row, read from its type, status and reference suffix alone. */
  function Sign(r: Row): int {
    match r.kind
    case Deposit => 1
    case Withdrawal => if r.status == Failed then 0 else -1
    case Swap => if HasSuffix(r.reference, "-OUT") then -1 else if HasSuffix(r.reference, "-IN") then 1 else 0
    case Transfer =>
      if HasSuffix(r.reference, "-DEBIT") then -1 else if HasSuffix(r.reference, "-CREDIT") then 1 else 0
  }

  type Valuation = (nat, string, real) -> real

  ghost predicate Splits(g: Valuation, w: nat, c: string, x: real, y: real) {
    g(w, c, x + y) == g(w, c, x) + g(w, c, y)
  }

  ghost predicate Additive(g: Valuation) { forall w: nat, c, x, y :: Splits(g, w, c, x, y) }

  function Held(g: Valuation): Asset -> real { (a: Asset) => g(a.walletId, a.currency, a.balance) }

  function Moved(g: Valuation): Row -> real {
    (r: Row) =>
      if Sign(r) == 1 then g(r.walletId, r.currency, r.amount)
      else if Sign(r) == -1 then -g(r.walletId, r.currency, r.amount)
      else 0.0
  }

  function Worth(assets: seq<Asset>, g: Valuation): real { Sum(assets, Held(g)) }

  function Logged(log: seq<Row>, g: Valuation): real { Sum(log, Moved(g)) }

  ghost predicate Balanced(db: Db, g: Valuation) { Worth(db.assets, g) == Logged(db.log, g) }

  /** No row carrying the code has been refunded: the proviso of a transfer.success. */
  predicate NoneFailed(log: seq<Row>, code: string) {
    forall i :: 0 <= i < |log| && log[i].gatewayRef == Some(code) ==> log[i].status != Failed
  }

  /** What a committed batch adds to the weighted total. */
  function Delta(op: Op, plan: Plan, g: Valuation): real {
    match (op, plan)
    case (Fund(_, c, x, _), CreditPlan(w)) => g(w, c, x)
    case (CreditByEmail(_, c, x, _), CreditPlan(w)) => g(w, c, x)
    case (Swap(_, from, to, x, y, _), DebitPlan(_, w)) => g(w, to, y) - g(w, from, x)
    case (Transfer(_, _, c, x, _), TransferPlan(_, s, r)) => g(r, c, x) - g(s, c, x)
    case (Withdraw(_, c, x, _, _), DebitPlan(_, w)) => -(g(w, c, x))
    case (Refund(_), RefundPlan(_, w, c, x)) => g(w, c, x)
    case _ => 0.0
  }

  // ---- The asset side

  lemma Negation(g: Valuation, w: nat, c: string, x: real)
    requires Additive(g)
    ensures g(w, c, -x) == -g(w, c, x) && g(w, c, 0.0) == 0.0
  {
    assert Splits(g, w, c, 0.0, 0.0);
    assert Splits(g, w, c, x, -x);
  }

  lemma SetBalanceWorth(db: Db, i: nat, d: real, g: Valuation)
    requires Additive(g)
    requires i < |db.assets|
    ensures var r := SetBalance(db, i, db.assets[i].balance + d); r.Ok? ==>
      Worth(r.value.assets, g) == Worth(db.assets, g) + g(db.assets[i].walletId, db.assets[i].currency, d)
  {
    var a := db.assets[i];
    SumUpdate(db.assets, i, a.(balance := a.balance + d), Held(g));
    assert Splits(g, a.walletId, a.currency, a.balance, d);
  }

  lemma UpsertWorth(db: Db, w: nat, c: string, x: real, g: Valuation)
    requires Additive(g)
    ensures var r := ExecStmt(db, Upsert(w, c, x)); r.Ok? ==>
      Worth(r.value.assets, g) == Worth(db.assets, g) + g(w, c, x) && r.value.log == db.log
  {
    var i := FindAsset(db, w, c);
    if i.Some? {
      SetBalanceWorth(db, i.value, x, g);
    } else {
      SumAppend(db.assets, Asset(w, c, x), Held(g));
    }
  }

  lemma DebitWorth(db: Db, i: nat, x: real, g: Valuation)
    requires Additive(g)
    requires i < |db.assets|
    ensures var r := ExecStmt(db, AddToAsset(i, -x)); r.Ok? ==>
      && Worth(r.value.assets, g) == Worth(db.assets, g) - g(db.assets[i].walletId, db.assets[i].currency, x)
      && r.value.log == db.log
  {
    SetBalanceWorth(db, i, -x, g);
    Negation(g, db.assets[i].walletId, db.assets[i].currency, x);
  }

  lemma InsertUpsertWorth(db: Db, row: Row, x: real, g: Valuation)
    requires Additive(g)
    ensures var w, c := row.walletId, row.currency; var r := RunBatch(db, [InsertRow(row), Upsert(w, c, x)]);
      r.Ok? ==> Worth(r.value.assets, g) == Worth(db.assets, g) + g(w, c, x)
  {
    Batch2(db, InsertRow(row), Upsert(row.walletId, row.currency, x));
    var r1 := ExecStmt(db, InsertRow(row));
    if r1.Ok? { UpsertWorth(r1.value, row.walletId, row.currency, x, g); }
  }

  lemma UpsertInsertWorth(db: Db, row: Row, x: real, g: Valuation)
    requires Additive(g)
    ensures var w, c := row.walletId, row.currency; var r := RunBatch(db, [Upsert(w, c, x), InsertRow(row)]);
      r.Ok? ==> Worth(r.value.assets, g) == Worth(db.assets, g) + g(w, c, x)
  {
    Batch2(db, Upsert(row.walletId, row.currency, x), InsertRow(row));
    UpsertWorth(db, row.walletId, row.currency, x, g);
  }

  lemma DebitCreditWorth(db: Db, i: nat, x: real, a: Row, y: real, b: Row, g: Valuation)
    requires Additive(g)
    requires i < |db.assets|
    ensures var w, c := b.walletId, b.currency;
      var r := RunBatch(db, [AddToAsset(i, -x), Upsert(w, c, y), InsertRow(a), InsertRow(b)]);
      r.Ok? ==>
        Worth(r.value.assets, g)
          == Worth(db.assets, g) + g(w, c, y) - g(db.assets[i].walletId, db.assets[i].currency, x)
  {
    var w, c := b.walletId, b.currency;
    Batch4(db, AddToAsset(i, -x), Upsert(w, c, y), InsertRow(a), InsertRow(b));
    DebitWorth(db, i, x, g);
    var r1 := ExecStmt(db, AddToAsset(i, -x));
    if r1.Ok? {
      UpsertWorth(r1.value, w, c, y, g);
    }
  }

  lemma DebitInsertWorth(db: Db, i: nat, x: real, row: Row, g: Valuation)
    requires Additive(g)
    requires i < |db.assets|
    ensures var r := RunBatch(db, [AddToAsset(i, -x), InsertRow(row)]); r.Ok? ==>
      Worth(r.value.assets, g) == Worth(db.assets, g) - g(db.assets[i].walletId, db.assets[i].currency, x)
  {
    Batch2(db, AddToAsset(i, -x), InsertRow(row));
    DebitWorth(db, i, x, g);
  }

  lemma RefundWorth(db: Db, w: nat, c: string, x: real, row: nat, g: Valuation)
    requires Additive(g)
    ensures var r := RunBatch(db, [AddToKey(w, c, x), SetStatus(row, Failed)]); r.Ok? ==>
      Worth(r.value.assets, g) == Worth(db.assets, g) + g(w, c, x)
  {
    Batch2(db, AddToKey(w, c, x), SetStatus(row, Failed));
    var i := FindAsset(db, w, c);
    if i.Some? { SetBalanceWorth(db, i.value, x, g); }
  }

  lemma RegisterWorth(db: Db, st: Stmt, g: Valuation)
    requires Additive(g)
    requires st.InsertUser? || st.InsertWallet? || st.InsertAsset? || st.SetStatusByGateway?
    ensures var r := RunBatch(db, [st]); r.Ok? ==> Worth(r.value.assets, g) == Worth(db.assets, g)
  {
    Batch1(db, st);
    if st.InsertAsset? {
      SumAppend(db.assets, Asset(st.walletId, st.currency, 0.0), Held(g));
      Negation(g, st.walletId, st.currency, 0.0);
    }
  }

  /** A committed batch moves the weighted total by exactly its Delta. */
  lemma SubmitWorth(db: Db, call: Call, g: Valuation)
    requires Additive(g)
    requires call.Ready? && CallOk(db, call)
    ensures var r := RunBatch(db, Batch(call.op, call.plan)); r.Ok? ==>
      Worth(r.value.assets, g) == Worth(db.assets, g) + Delta(call.op, call.plan, g)
  {
    var plan := call.plan;
    match call.op
    case Fund(_, c, x, ref) => InsertUpsertWorth(db, DepositRow(plan.wallet, c, x, ref), x, g);
    case CreditByEmail(_, c, x, ref) => UpsertInsertWorth(db, DepositRow(plan.wallet, c, x, ref), x, g);
    case Refund(_) => RefundWorth(db, plan.wallet, plan.currency, plan.amount, plan.row, g);
    case MarkSuccess(code) => RegisterWorth(db, SetStatusByGateway(code, Success), g);
    case NewUser(email) => RegisterWorth(db, InsertUser(User(email)), g);
    case NewWallet(u, account) => RegisterWorth(db, InsertWallet(Wallet(account, u)), g);
    case NewAsset(w) => RegisterWorth(db, InsertAsset(w, "NGN"), g);
    case Withdraw(_, c, x, ref, code) =>
      DebitInsertWorth(db, plan.asset, x, WithdrawalRow(plan.wallet, c, x, ref, code), g);
    case Swap(_, _, _, _, _, _) => SwapWorth(db, call, g);
    case Transfer(_, _, _, _, _) => TransferWorth(db, call, g);
  }

  lemma SwapWorth(db: Db, call: Call, g: Valuation)
    requires Additive(g)
    requires call.Ready? && CallOk(db, call) && call.op.Swap?
    ensures var r := RunBatch(db, Batch(call.op, call.plan)); r.Ok? ==>
      Worth(r.value.assets, g) == Worth(db.assets, g) + Delta(call.op, call.plan, g)
  {
    var Swap(_, from, to, x, y, key) := call.op;
    var rows := SwapRows(call.plan.wallet, from, to, x, y, key);
    DebitCreditWorth(db, call.plan.asset, x, rows.0, y, rows.1, g);
  }

  lemma TransferWorth(db: Db, call: Call, g: Valuation)
    requires Additive(g)
    requires call.Ready? && CallOk(db, call) && call.op.Transfer?
    ensures var r := RunBatch(db, Batch(call.op, call.plan)); r.Ok? ==>
      Worth(r.value.assets, g) == Worth(db.assets, g) + Delta(call.op, call.plan, g)
  {
    var Transfer(_, _, c, x, key) := call.op;
    var rows := TransferRows(call.plan.wallet, call.plan.receiver, c, x, key);
    DebitCreditWorth(db, call.plan.asset, x, rows.0, x, rows.1, g);
  }

  // ---- The log side

  lemma EndingDiffers(s: string, t: string, k: nat)
    requires 0 < k <= |t| && (|t| <= |s| ==> s[|s| - k] != t[|t| - k])
    ensures !HasSuffix(s, t)
  {
    if |t| <= |s| {
      assert s[|s| - |t|..][|t| - k] == s[|s| - k];
    }
  }

  lemma SwapSigns(w: nat, c: string, d: string, x: real, y: real, key: string)
    ensures Sign(SwapRows(w, c, d, x, y, key).0) == -1 && Sign(SwapRows(w, c, d, x, y, key).1) == 1
  {
    EndingDiffers(key + "-IN", "-OUT", 1);
  }

  lemma TransferSigns(w: nat, v: nat, c: string, x: real, key: string)
    ensures Sign(TransferRows(w, v, c, x, key).0) == -1 && Sign(TransferRows(w, v, c, x, key).1) == 1
  {
    EndingDiffers(key + "-CREDIT", "-DEBIT", 3);
  }

  lemma LoggedTwo(log: seq<Row>, a: Row, b: Row, g: Valuation)
    ensures Logged(log + [a, b], g) == Logged(log, g) + Moved(g)(a) + Moved(g)(b)
  {
    assert log + [a, b] == log + [a] + [b];
    SumAppend(log, a, Moved(g));
    SumAppend(log + [a], b, Moved(g));
  }

  /** What a row counts if it is a refunded withdrawal that a transfer.success with this code revives. */
  function Revived(code: string, g: Valuation): Row -> real {
    (r: Row) =>
      if r.gatewayRef == Some(code) && r.kind == Withdrawal && r.status == Failed
      then g(r.walletId, r.currency, r.amount)
      else 0.0
  }

  /** What the status update of an operation takes out of the signed log: all revived rows. */
  function Undone(log: seq<Row>, op: Op, g: Valuation): real {
    if op.MarkSuccess? then Sum(log, Revived(op.code, g)) else 0.0
  }

  /** The rows a committed batch logs account for its Delta, less what it revives. */
  lemma SubmitLogged(db: Db, call: Call, g: Valuation)
    requires Valid(db) && call.Ready? && CallOk(db, call)
    ensures var r := RunBatch(db, Batch(call.op, call.plan)); r.Ok? ==>
      Logged(r.value.log, g) == Logged(db.log, g) + Delta(call.op, call.plan, g) - Undone(db.log, call.op, g)
  {
    SubmitSimulates(db, call);
    if RunBatch(db, Batch(call.op, call.plan)).Ok? {
      if call.op.MarkSuccess? {
        MarkLogged(db.log, call.op.code, g);
      } else if call.op.Refund? {
        SumUpdate(db.log, call.plan.row, db.log[call.plan.row].(status := Failed), Moved(g));
      } else {
        AppendLogged(Abs(db), call.op, call.plan, g);
      }
    }
  }

  /** The plan names the wallets the operation is about. */
  predicate PlanNames(b: Book, op: Op, plan: Plan) {
    match op
      case Fund(u, _, _, _) => plan.CreditPlan? && WalletOfUser(b.wallets, u) == Some(plan.wallet)
      case CreditByEmail(e, _, _, _) =>
        plan.CreditPlan? && FindUser(b.users, e).Some?
        && WalletOfUser(b.wallets, FindUser(b.users, e).value) == Some(plan.wallet)
      case Swap(u, _, _, _, _, _) => plan.DebitPlan? && WalletOfUser(b.wallets, u) == Some(plan.wallet)
      case Withdraw(u, _, _, _, _) => plan.DebitPlan? && WalletOfUser(b.wallets, u) == Some(plan.wallet)
      case Transfer(u, a, _, _, _) => plan.TransferPlan? && WalletOfUser(b.wallets, u) == Some(plan.wallet)
        && WalletOfAccount(b.wallets, a) == Some(plan.receiver)
      case _ => true
  }

  lemma AppendLogged(b: Book, op: Op, plan: Plan, g: Valuation)
    requires !op.MarkSuccess? && !op.Refund? && PlanNames(b, op, plan)
    requires Atomic(b, op).reply.Done? && (op.CreditByEmail? ==> Atomic(b, op).effect.Posted?)
    ensures Logged(Atomic(b, op).book.log, g) == Logged(b.log, g) + Delta(op, plan, g)
  {
    if op.Swap? || op.Transfer? {
      AppendLoggedTwo(b, op, plan, g);
    } else if op.Fund? || op.CreditByEmail? || op.Withdraw? {
      AppendLoggedOne(b, op, plan, g);
    }
  }

  lemma AppendLoggedOne(b: Book, op: Op, plan: Plan, g: Valuation)
    requires (op.Fund? || op.CreditByEmail? || op.Withdraw?) && PlanNames(b, op, plan)
    requires Atomic(b, op).effect.Posted?
    ensures Logged(Atomic(b, op).book.log, g) == Logged(b.log, g) + Delta(op, plan, g)
  {
    var row := Atomic(b, op).book.log[|b.log|];
    SumAppend(b.log, row, Moved(g));
  }

  lemma AppendLoggedTwo(b: Book, op: Op, plan: Plan, g: Valuation)
    requires (op.Swap? || op.Transfer?) && PlanNames(b, op, plan) && Atomic(b, op).reply.Done?
    ensures Logged(Atomic(b, op).book.log, g) == Logged(b.log, g) + Delta(op, plan, g)
  {
    match op
    case Swap(_, from, to, x, y, key) =>
      var rows := SwapRows(plan.wallet, from, to, x, y, key);
      SwapSigns(plan.wallet, from, to, x, y, key);
      LoggedTwo(b.log, rows.0, rows.1, g);
    case Transfer(_, _, c, x, key) =>
      var rows := TransferRows(plan.wallet, plan.receiver, c, x, key);
      TransferSigns(plan.wallet, plan.receiver, c, x, key);
      LoggedTwo(b.log, rows.0, rows.1, g);
  }

  lemma RestampMoves(r: Row, code: string, g: Valuation)
    requires r.gatewayRef == Some(code)
    ensures Moved(g)(r.(status := Success)) == Moved(g)(r) - Revived(code, g)(r)
  {
    var r' := r.(status := Success);
    if r.kind == Withdrawal {
      assert Sign(r') == -1 && Sign(r) == if r.status == Failed then 0 else -1;
    } else {
      assert Sign(r') == Sign(r);
    }
  }

  lemma MarkLogged(log: seq<Row>, code: string, g: Valuation)
    ensures Logged(MarkAll(log, code, Success), g) == Logged(log, g) - Sum(log, Revived(code, g))
  {
    var log' := MarkAll(log, code, Success);
    forall j | 0 <= j < |log|
      ensures Moved(g)(log'[j]) == Moved(g)(log[j]) - Revived(code, g)(log[j])
    {
      if log[j].gatewayRef == Some(code) { RestampMoves(log[j], code, g); }
    }
    SumShift(log, log', Moved(g), Revived(code, g));
  }

  lemma NothingRevived(log: seq<Row>, code: string, g: Valuation)
    requires NoneFailed(log, code)
    ensures Sum(log, Revived(code, g)) == 0.0
  {
    SumZero(log, Revived(code, g));
  }

  /** How far a weighted total of the assets is ahead of the log. */
  function Gap(db: Db, g: Valuation): real { Worth(db.assets, g) - Logged(db.log, g) }

  /** A batch, committed or refused, moves the gap by exactly what it revives. */
  lemma SubmitGap(db: Db, call: Call, g: Valuation)
    requires Additive(g)
    requires Valid(db) && call.Ready? && CallOk(db, call)
    ensures Gap(Submit(db, call).0, g) == Gap(db, g) + Undone(db.log, call.op, g)
  {
    SubmitWorth(db, call, g);
    SubmitLogged(db, call, g);
    if call.op.MarkSuccess? {
      Batch1(db, SetStatusByGateway(call.op.code, Success));
    }
  }

  /** So it keeps the total reconciled if and only if what it revives adds up to nothing. */
  lemma SubmitBalanced(db: Db, call: Call, g: Valuation)
    requires Additive(g)
    requires Valid(db) && call.Ready? && CallOk(db, call) && Balanced(db, g)
    ensures Balanced(Submit(db, call).0, g) <==> Undone(db.log, call.op, g) == 0.0
    ensures (call.op.MarkSuccess? ==> NoneFailed(db.log, call.op.code)) ==> Balanced(Submit(db, call).0, g)
  {
    SubmitGap(db, call, g);
    if call.op.MarkSuccess? && NoneFailed(db.log, call.op.code) {
      NothingRevived(db.log, call.op.code, g);
    }
  }

  // ---- One wallet and currency

  function At(w0: nat, c0: string): Valuation { (w, c, x) => if w == w0 && c == c0 then x else 0.0 }

  /** Every balance is the signed sum of its log rows. */
  ghost predicate Reconciled(db: Db) {
    forall w: nat, c :: BalanceAt(db, w, c) == Logged(db.log, At(w, c))
  }

  lemma AtAdditive(w: nat, c: string)
    ensures Additive(At(w, c))
  {
  }

  lemma WorthAt(db: Db, w: nat, c: string)
    requires Valid(db)
    ensures Worth(db.assets, At(w, c)) == BalanceAt(db, w, c)
  {
    var i := FindAsset(db, w, c);
    if i.Some? {
      SumOnly(db.assets, i.value, Held(At(w, c)));
    } else {
      SumZero(db.assets, Held(At(w, c)));
    }
  }

  lemma BalancedIsReconciled(db: Db)
    requires Valid(db)
    ensures (forall w: nat, c :: Balanced(db, At(w, c))) <==> Reconciled(db)
  {
    forall w: nat, c
      ensures Balanced(db, At(w, c)) <==> BalanceAt(db, w, c) == Logged(db.log, At(w, c))
    {
      WorthAt(db, w, c);
    }
  }

  // ---- transfer.success on a refunded row

  /** Reconciliation survives a transfer.success exactly when the refunded withdrawals that carry its code, any
      number of them, add up to nothing in every wallet and currency. */
  lemma MarkSuccessExact(db: Db, code: string)
    requires Valid(db) && Reconciled(db)
    ensures Reconciled(db.(log := MarkAll(db.log, code, Success)))
      <==> forall w: nat, c :: Sum(db.log, Revived(code, At(w, c))) == 0.0
  {
    var db' := db.(log := MarkAll(db.log, code, Success));
    forall w: nat, c
      ensures BalanceAt(db', w, c) == Logged(db'.log, At(w, c)) <==> Sum(db.log, Revived(code, At(w, c))) == 0.0
    {
      MarkLogged(db.log, code, At(w, c));
      assert BalanceAt(db', w, c) == BalanceAt(db, w, c) == Logged(db.log, At(w, c));
    }
  }

  /** The row is a refunded withdrawal of a non-zero amount with this code. */
  predicate RevivesMoney(r: Row, code: string) {
    r.gatewayRef == Some(code) && r.kind == Withdrawal && r.status == Failed && r.amount != 0.0
  }

  /** With amounts that are not negative: exactly when no refunded withdrawal of a non-zero amount carries the
      code. */
  lemma MarkSuccessGuard(db: Db, code: string)
    requires Valid(db) && Reconciled(db)
    requires forall i :: 0 <= i < |db.log| && RevivesMoney(db.log[i], code) ==> db.log[i].amount > 0.0
    ensures Reconciled(db.(log := MarkAll(db.log, code, Success)))
      <==> forall i :: 0 <= i < |db.log| ==> !RevivesMoney(db.log[i], code)
  {
    MarkSuccessExact(db, code);
    forall w: nat, c
      ensures Sum(db.log, Revived(code, At(w, c))) == 0.0
        <==> forall j :: 0 <= j < |db.log| ==> Revived(code, At(w, c))(db.log[j]) == 0.0
    {
      if forall j :: 0 <= j < |db.log| ==> Revived(code, At(w, c))(db.log[j]) == 0.0 {
        SumZero(db.log, Revived(code, At(w, c)));
      }
      SumNonNegative(db.log, Revived(code, At(w, c)));
    }
    forall i | 0 <= i < |db.log| && RevivesMoney(db.log[i], code)
      ensures Sum(db.log, Revived(code, At(db.log[i].walletId, db.log[i].currency))) != 0.0
    {
      var row := db.log[i];
      assert Revived(code, At(row.walletId, row.currency))(row) == row.amount;
    }
  }

  /** With one row for the code, as long as the gateway never reuses one: exactly when that row is not a refunded
      withdrawal of a non-zero amount. */
  lemma MarkSuccessOneRow(db: Db, code: string, i: nat)
    requires Valid(db) && Reconciled(db)
    requires i < |db.log| && forall j :: 0 <= j < |db.log| ==> (db.log[j].gatewayRef == Some(code) <==> j == i)
    ensures Reconciled(db.(log := MarkAll(db.log, code, Success))) <==> !RevivesMoney(db.log[i], code)
  {
    MarkSuccessExact(db, code);
    var row := db.log[i];
    forall w: nat, c
      ensures Sum(db.log, Revived(code, At(w, c)))
        == if RevivesMoney(row, code) && w == row.walletId && c == row.currency then row.amount else 0.0
    {
      SumOnly(db.log, i, Revived(code, At(w, c)));
    }
    if RevivesMoney(row, code) {
      assert Sum(db.log, Revived(code, At(row.walletId, row.currency))) == row.amount;
    }
  }

  // ---- One currency over all wallets

  function InCurrency(c0: string): Valuation { (w, c, x) => if c == c0 then x else 0.0 }

  lemma InCurrencyAdditive(c: string)
    ensures Additive(InCurrency(c))
  {
  }

  /** The two legs of one transfer. */
  predicate IsPair(a: Row, b: Row) {
    && a.kind == Kind.Transfer && b.kind == Kind.Transfer
    && HasSuffix(a.reference, "-DEBIT") && HasSuffix(b.reference, "-CREDIT")
    && a.reference[..|a.reference| - 6] == b.reference[..|b.reference| - 7]
    && a.amount == b.amount && a.currency == b.currency && a.walletId != b.walletId
  }

  predicate PairAt(log: seq<Row>, i: nat) { i + 1 < |log| && IsPair(log[i], log[i + 1]) }

  predicate IsDebitLeg(r: Row) { r.kind == Kind.Transfer && Sign(r) == -1 }

  predicate IsCreditLeg(r: Row) { r.kind == Kind.Transfer && Sign(r) == 1 }

  /** A debit leg is followed by its credit leg, a credit leg preceded by a debit leg, and a transfer row is one of
      the two. */
  predicate LegOk(log: seq<Row>, i: nat)
    requires i < |log|
  {
    && (IsDebitLeg(log[i]) ==> PairAt(log, i))
    && (IsCreditLeg(log[i]) ==> i > 0 && IsDebitLeg(log[i - 1]))
    && (log[i].kind == Kind.Transfer ==> IsDebitLeg(log[i]) || IsCreditLeg(log[i]))
  }

  /** i to i + 1 is a bijection from the debit legs to the credit legs, and there are no other transfer rows. */
  ghost predicate Paired(log: seq<Row>) { forall i :: 0 <= i < |log| ==> LegOk(log, i) }

  /** Deposits, swap legs and unrefunded withdrawals of one currency: the log without its transfers. */
  function Flow(c: string): Row -> real {
    (r: Row) => if r.kind == Kind.Transfer then 0.0 else Moved(InCurrency(c))(r)
  }

  lemma PairedPrefix(log: seq<Row>, n: nat)
    requires Paired(log) && n <= |log| && (n > 0 ==> !IsDebitLeg(log[n - 1]))
    ensures Paired(log[..n])
  {
    forall i | 0 <= i < n
      ensures LegOk(log[..n], i)
    {
      assert LegOk(log, i);
    }
  }

  lemma LastIsNoDebit(log: seq<Row>)
    requires Paired(log) && log != []
    ensures !IsDebitLeg(log[|log| - 1])
  {
    assert LegOk(log, |log| - 1);
  }

  /** Before the two legs of a transfer, and before any other row, the log ends with no open debit leg. */
  lemma BeforeIsNoDebit(log: seq<Row>, n: nat)
    requires Paired(log) && 0 < n < |log| && !IsCreditLeg(log[n])
    ensures !IsDebitLeg(log[n - 1])
  {
    assert LegOk(log, n - 1);
    if IsDebitLeg(log[n - 1]) {
      CreditLegSign(log[n]);
    }
  }

  lemma CreditLegSign(r: Row)
    requires r.kind == Kind.Transfer && HasSuffix(r.reference, "-CREDIT")
    ensures Sign(r) == 1
  {
    var ref := r.reference;
    assert ref[|ref| - 7..][4] == ref[|ref| - 3];
    EndingDiffers(ref, "-DEBIT", 3);
  }

  /** The two legs of every transfer cancel. */
  lemma {:induction false} TransfersCancel(log: seq<Row>, c: string)
    requires Paired(log)
    ensures Logged(log, InCurrency(c)) == Sum(log, Flow(c))
  {
    if log != [] {
      var n := |log| - 1;
      if IsCreditLeg(log[n]) {
        PairAtEnd(log);
        TransfersCancel(log[..n - 1], c);
        TwoLegsCancel(log[..n - 1], log[n - 1], log[n], c);
        assert log == log[..n - 1] + [log[n - 1], log[n]];
      } else {
        LastIsNoDebit(log);
        if n > 0 { BeforeIsNoDebit(log, n); }
        PairedPrefix(log, n);
        TransfersCancel(log[..n], c);
      }
    }
  }

  /** A log that ends with a credit leg ends with a whole transfer. */
  lemma PairAtEnd(log: seq<Row>)
    requires Paired(log) && log != [] && IsCreditLeg(log[|log| - 1])
    ensures var n := |log| - 1;
      && n > 0 && IsDebitLeg(log[n - 1]) && PairAt(log, n - 1) && Paired(log[..n - 1])
  {
    var n := |log| - 1;
    assert LegOk(log, n) && LegOk(log, n - 1);
    if n > 1 { BeforeIsNoDebit(log, n - 1); }
    PairedPrefix(log, n - 1);
  }

  lemma TwoLegsCancel(log: seq<Row>, a: Row, b: Row, c: string)
    requires IsDebitLeg(a) && IsCreditLeg(b) && a.amount == b.amount && a.currency == b.currency
    ensures Logged(log + [a, b], InCurrency(c)) == Logged(log, InCurrency(c))
    ensures Sum(log + [a, b], Flow(c)) == Sum(log, Flow(c))
  {
    LoggedTwo(log, a, b, InCurrency(c));
    assert log + [a, b] == log + [a] + [b];
    SumAppend(log, a, Flow(c));
    SumAppend(log + [a], b, Flow(c));
  }

  /** Every operation keeps the legs paired. */
  lemma AtomicPaired(b: Book, op: Op)
    requires Paired(b.log) && OnlyWithdrawalsCarryCodes(b.log)
    ensures Paired(Atomic(b, op).book.log)
  {
    var log' := Atomic(b, op).book.log;
    if op.Transfer? {
      TransferPaired(b, op);
    } else if op.Refund? || op.MarkSuccess? {
      PairedRestamp(b.log, log');
    } else {
      NoTransferRows(b, op);
      PairedAppend(b.log, log'[|b.log|..]);
    }
  }

  lemma TransferPaired(b: Book, op: Op)
    requires Paired(b.log) && op.Transfer?
    ensures Paired(Atomic(b, op).book.log)
  {
    var log' := Atomic(b, op).book.log;
    if log' != b.log {
      var s, t := WalletOfUser(b.wallets, op.user).value, WalletOfAccount(b.wallets, op.account).value;
      var rows := TransferRows(s, t, op.currency, op.amount, op.key);
      TransferSigns(s, t, op.currency, op.amount, op.key);
      LegsPair(b.log, rows.0, rows.1, op.key);
      PairedAppend(b.log, [rows.0, rows.1]);
    }
  }

  lemma LegsPair(log: seq<Row>, a: Row, b: Row, key: string)
    requires a.kind == Kind.Transfer && a.reference == Debit(key)
    requires b == a.(walletId := b.walletId, reference := Credit(key))
    requires a.walletId != b.walletId
    ensures PairAt(log + [a, b], |log|)
  {
    assert Debit(key)[..|Debit(key)| - 6] == key && Credit(key)[..|Credit(key)| - 7] == key;
  }

  /** All other operations only append, and no transfer rows. */
  lemma NoTransferRows(b: Book, op: Op)
    requires !op.Transfer? && !op.Refund? && !op.MarkSuccess?
    ensures var log' := Atomic(b, op).book.log;
      b.log <= log' && forall r :: r in log'[|b.log|..] ==> r.kind != Kind.Transfer
  {
  }

  lemma PairedRestamp(log: seq<Row>, log': seq<Row>)
    requires Paired(log) && |log| == |log'|
    requires forall i :: 0 <= i < |log| ==> SameIdentity(log[i], log'[i])
    requires forall i :: 0 <= i < |log| && log[i].kind != Withdrawal ==> log'[i] == log[i]
    ensures Paired(log')
  {
    forall k | 0 <= k < |log'| && log'[k].kind == Kind.Transfer
      ensures log[k] == log'[k]
    {
      assert SameIdentity(log[k], log'[k]);
    }
    forall i | 0 <= i < |log'|
      ensures LegOk(log', i)
    {
      assert LegOk(log, i) && SameIdentity(log[i], log'[i]);
    }
  }

  lemma PairedAppend(log: seq<Row>, rows: seq<Row>)
    requires Paired(log)
    requires (forall r :: r in rows ==> r.kind != Kind.Transfer)
      || (|rows| == 2 && PairAt(log + rows, |log|) && IsDebitLeg(rows[0]) && IsCreditLeg(rows[1]))
    ensures Paired(log + rows)
  {
    if forall r :: r in rows ==> r.kind != Kind.Transfer {
      AppendOthers(log, rows);
    } else {
      AppendPair(log, rows[0], rows[1]);
      assert rows == [rows[0], rows[1]];
    }
  }

  /** The rows a log already has stay as they are when it grows. */
  lemma PairedBelow(log: seq<Row>, rows: seq<Row>, i: nat)
    requires i < |log| && LegOk(log, i)
    ensures LegOk(log + rows, i)
  {
  }

  lemma AppendOthers(log: seq<Row>, rows: seq<Row>)
    requires Paired(log) && forall r :: r in rows ==> r.kind != Kind.Transfer
    ensures Paired(log + rows)
  {
    var log' := log + rows;
    forall i | 0 <= i < |log'|
      ensures LegOk(log', i)
    {
      if i < |log| {
        assert LegOk(log, i);
        PairedBelow(log, rows, i);
      } else {
        assert log'[i] in rows;
      }
    }
  }

  lemma AppendPair(log: seq<Row>, a: Row, b: Row)
    requires Paired(log) && PairAt(log + [a, b], |log|) && IsDebitLeg(a) && IsCreditLeg(b)
    ensures Paired(log + [a, b])
  {
    var log' := log + [a, b];
    forall i | 0 <= i < |log'|
      ensures LegOk(log', i)
    {
      if i < |log| {
        assert LegOk(log, i);
        PairedBelow(log, [a, b], i);
      } else {
        assert log'[|log|] == a && log'[|log| + 1] == b;
      }
    }
  }

  // ---- A price per currency

  function Priced(p: string -> real): Valuation { (w: nat, c, x) => p(c) * x }

  lemma PricedAdditive(p: string -> real)
    ensures Additive(Priced(p))
  {
    forall w: nat, c, x, y
      ensures Splits(Priced(p), w, c, x, y)
    {
      assert p(c) * (x + y) == p(c) * x + p(c) * y;
    }
  }

  /** A swap at rate r moves the priced total by amountIn * (r * p(to) - p(from)): nothing at a fair rate. */
  lemma SwapValue(p: string -> real, op: Op, plan: Plan, rate: real)
    requires op.Swap? && plan.DebitPlan? && op.amountOut == op.amountIn * rate
    ensures Delta(op, plan, Priced(p)) == op.amountIn * (rate * p(op.to) - p(op.from))
    ensures rate * p(op.to) == p(op.from) ==> Delta(op, plan, Priced(p)) == 0.0
    ensures op.amountIn >= 0.0 && rate * p(op.to) <= p(op.from) ==> Delta(op, plan, Priced(p)) <= 0.0
  {
    var x, r, a, b := op.amountIn, rate, p(op.to), p(op.from);
    assert a * (x * r) == x * (r * a);
    assert x * (r * a) - b * x == x * (r * a - b);
  }
}
