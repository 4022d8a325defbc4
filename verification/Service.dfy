/** The services when calls run one at a time: what each request does to the database, the idempotency
    keys and the wallet cache, and why the cache never disagrees with the database. */
module Service {
  import opened Prelude
  import opened Tables
  import opened Book
  import opened Calls
  import opened Integrity
  import opened Refinement
  import opened Webhooks
  import opened Requests

  /** A wallet with its assets, as GetWalletWithAssets reads and caches it. */
  datatype View = View(wallet: nat, account: string, assets: seq<Asset>)

  function AssetsOf(assets: seq<Asset>, w: nat): seq<Asset> {
    if assets == [] then []
    else
      var a := assets[|assets| - 1];
      AssetsOf(assets[..|assets| - 1], w) + (if a.walletId == w then [a] else [])
  }

  function ViewOf(db: Db, user: nat): Option<View> {
    var w := WalletOfUser(db.wallets, user);
    if w.None? then None else Some(View(w.value, db.wallets[w.value].accountNumber, AssetsOf(db.assets, w.value)))
  }

  datatype KeyValue = Processing | Completed

  datatype Store = Store(db: Db, idemp: map<string, KeyValue>, cache: map<nat, View>)

  /** The requests of the services. quoted says whether the rates API answered. */
  datatype Request =
    | GetWallet(user: nat)
    | Keyed(call: KeyedRequest, quoted: bool)
    | WithdrawFunds(user: nat, currency: string, amount: real, reference: string, code: string)
    | Charge(email: string, currency: string, amount: real, reference: string)
    | VerifyAndCredit(email: string, currency: string, amount: real, reference: string)
    | RefundTransfer(code: string)
    | ConfirmTransfer(code: string)
    | Register(email: string, account: string)

  datatype Answer = Served | Found(view: View) | AlreadyProcessed | Refused(error: Error) | NotFound | NoRate | NotPaid

  /** A repository call that nothing interrupts: its reads, then its batch. */
  function Perform(db: Db, op: Op): (Db, Call)
    ensures Perform(db, op).1.Ended?
  {
    var c1 := FirstRead(db, op);
    var c2 := if c1.GotSender? && op.Transfer? then SecondRead(db, op, c1.asset, c1.wallet) else c1;
    if c2.Ready? then Submit(db, c2) else if c2.Ended? then (db, c2) else (db, Ended(op, Done, Nothing))
  }

  /** Uninterrupted, the code is the atomic operation. */
  lemma PerformIsAtomic(db: Db, op: Op)
    requires Valid(db)
    ensures var (db', done) := Perform(db, op);
      && Atomic(Abs(db), op) == Outcome(Abs(db'), done.reply, done.effect)
      && Valid(db') && Extends(db, db') && done.op == op
  {
    ReadRefines(db, Start(op));
    var c1 := FirstRead(db, op);
    if c1.GotSender? {
      ReadRefines(db, c1);
    }
    var c2 := if c1.GotSender? && op.Transfer? then SecondRead(db, op, c1.asset, c1.wallet) else c1;
    if c2.Ready? {
      SubmitSimulates(db, c2);
      SubmitKeeps(db, c2);
    }
  }

  lemma PerformValid(db: Db, op: Op)
    requires Valid(db)
    ensures Valid(Perform(db, op).0)
  {
    PerformIsAtomic(db, op);
  }

  function Without<V>(m: map<nat, V>, k: nat): map<nat, V> { m - {k} }

  // ---- The requests

  function ServeGet(s: Store, user: nat): (Store, Answer) {
    if user in s.cache then (s, Found(s.cache[user]))
    else
      var v := ViewOf(s.db, user);
      if v.None? then (s, NotFound) else (s.(cache := s.cache[user := v.value]), Found(v.value))
  }

  /** The end of a keyed request: what the repository answered decides about key and cache. */
  function Conclude(s: Store, key: string, db: Db, reply: Reply, cache: map<nat, View>): (Store, Answer) {
    if reply.Done? then (Store(db, s.idemp[key := Completed], cache), Served)
    else if reply.error == Database(UniqueViolation)
    then (s.(db := db, idemp := s.idemp[key := Processing]), AlreadyProcessed)
    else (s.(db := db), Refused(reply.error))
  }

  /** What the service refuses by itself, before it calls the repository. */
  function Precheck(db: Db, r: KeyedRequest, quoted: bool): Option<Answer> {
    match r
    case FundRequest(_, _, _, _) => None
    case SwapRequest(_, from, to, _, _, _) => if from != to && !quoted then Some(NoRate) else None
    case TransferRequest(user, account, _, _, _) =>
      if user >= |db.users| then Some(NotFound)
      else
        var w := WalletOfAccount(db.wallets, account);
        if w.None? then Some(Refused(NoRecipient))
        else if db.wallets[w.value].userId == user then Some(Refused(SelfTransfer))
        else None
  }

  function OtherParty(db: Db, r: KeyedRequest): Option<nat> {
    if !r.TransferRequest? then None
    else
      var w := WalletOfAccount(db.wallets, r.account);
      if w.Some? then Some(db.wallets[w.value].userId) else None
  }

  /** The cache without the wallets of the parties. */
  function Invalidated(s: Store, r: KeyedRequest): map<nat, View> {
    var other := OtherParty(s.db, r);
    if other.Some? then Without(Without(s.cache, r.user), other.value) else Without(s.cache, r.user)
  }

  function ServeKeyed(s: Store, r: KeyedRequest, quoted: bool): (Store, Answer) {
    if r.key in s.idemp then (s, AlreadyProcessed)
    else
      var refusal := Precheck(s.db, r, quoted);
      if refusal.Some? then (s, refusal.value)
      else
        var (db, done) := Perform(s.db, Requested(r));
        Conclude(s, r.key, db, done.reply, Invalidated(s, r))
  }

  function AnswerTo(reply: Reply): Answer { if reply.Done? then Served else Refused(reply.error) }

  function ServeWithdraw(s: Store, user: nat, c: string, x: real, ref: string, code: string): (Store, Answer) {
    var (db, done) := Perform(s.db, Withdraw(user, c, x, ref, code));
    (Store(db, s.idemp, if done.reply.Done? then Without(s.cache, user) else s.cache), AnswerTo(done.reply))
  }

  function Forget(s: Store, email: string): map<nat, View> {
    var u := FindUser(s.db.users, email);
    if u.Some? then Without(s.cache, u.value) else s.cache
  }

  /** The webhook invalidates before it credits. */
  function ServeCharge(s: Store, email: string, c: string, x: real, ref: string): (Store, Answer) {
    var (db, done) := Perform(s.db, CreditByEmail(email, c, x, ref));
    (Store(db, s.idemp, Forget(s, email)), AnswerTo(done.reply))
  }

  /** Verification invalidates after it credited. */
  function ServeVerify(s: Store, email: string, c: string, x: real, ref: string): (Store, Answer) {
    var (db, done) := Perform(s.db, CreditByEmail(email, c, x, ref));
    (Store(db, s.idemp, if done.reply.Done? then Forget(s, email) else s.cache), AnswerTo(done.reply))
  }

  /** Neither refunds nor confirmations touch the cache. */
  function ServeTransferEvent(s: Store, op: Op): (Store, Answer) {
    var (db, done) := Perform(s.db, op);
    (s.(db := db), AnswerTo(done.reply))
  }

  /** CreateUserWithWallet: three inserts, stopping at the first that fails. */
  function Enrolled(db: Db, email: string, account: string): (Db, Answer) {
    var (db1, done1) := Perform(db, NewUser(email));
    if !done1.reply.Done? then (db1, AnswerTo(done1.reply))
    else
      var (db2, done2) := Perform(db1, NewWallet(|db.users|, account));
      if !done2.reply.Done? then (db2, AnswerTo(done2.reply))
      else
        var (db3, done3) := Perform(db2, NewAsset(|db.wallets|));
        (db3, AnswerTo(done3.reply))
  }

  function ServeRegister(s: Store, email: string, account: string): (Store, Answer) {
    var (db, a) := Enrolled(s.db, email, account);
    (s.(db := db), a)
  }

  function Serve(s: Store, r: Request): (Store, Answer) {
    match r
    case GetWallet(user) => ServeGet(s, user)
    case Keyed(call, quoted) => ServeKeyed(s, call, quoted)
    case WithdrawFunds(user, c, x, ref, code) => ServeWithdraw(s, user, c, x, ref, code)
    case Charge(email, c, x, ref) => ServeCharge(s, email, c, x, ref)
    case VerifyAndCredit(email, c, x, ref) => ServeVerify(s, email, c, x, ref)
    case RefundTransfer(code) => ServeTransferEvent(s, Refund(code))
    case ConfirmTransfer(code) => ServeTransferEvent(s, MarkSuccess(code))
    case Register(email, account) => ServeRegister(s, email, account)
  }

  function ServeAll(s: Store, requests: seq<Request>): Store {
    if requests == [] then s else Serve(ServeAll(s, requests[..|requests| - 1]), requests[|requests| - 1]).0
  }

  // ---- Webhook bodies

  /** The request a decoded body amounts to; None for events the worker ignores. */
  function BodyRequest(p: Payload): Option<Request> {
    var op := OpOf(p);
    if op.None? then None
    else match op.value
      case CreditByEmail(email, c, x, ref) => Some(Charge(email, c, x, ref))
      case MarkSuccess(code) => Some(ConfirmTransfer(code))
      case Refund(code) => Some(RefundTransfer(code))
      case _ => None
  }

  /** ProcessPaystackEvent: the store after, and whether the answer is nil. In an outage nothing is read or
      written, and only RefundWithdrawal takes that for success. */
  function Processed(s: Store, p: Payload, outage: bool): (Store, bool) {
    if p.content.None? then (s, false)
    else
      var r := BodyRequest(p);
      if r.None? then (s, true)
      else if outage then (s, r.value.RefundTransfer?)
      else
        var (s', a) := Serve(s, r.value);
        (s', a.Served?)
  }

  // ---- What a view shows

  /** f picks, in table order and each once, exactly the rows of the wallet; the rows it picks are shown. */
  ghost predicate Selects(assets: seq<Asset>, w: nat, shown: seq<Asset>, f: seq<nat>) {
    && |f| == |shown|
    && (forall k :: 0 <= k < |f| ==> f[k] < |assets| && shown[k] == assets[f[k]])
    && (forall j, k :: 0 <= j < k < |f| ==> f[j] < f[k])
    && (forall i: nat :: i < |assets| ==> (assets[i].walletId == w <==> i in f))
  }

  /** The rows of the wallet, all of them, once each and in table order. */
  ghost predicate Shows(assets: seq<Asset>, w: nat, shown: seq<Asset>) { exists f :: Selects(assets, w, shown, f) }

  lemma {:induction false} AssetsOfShows(assets: seq<Asset>, w: nat) returns (f: seq<nat>)
    ensures Selects(assets, w, AssetsOf(assets, w), f)
  {
    if assets == [] {
      f := [];
    } else {
      var n := |assets| - 1;
      var g := AssetsOfShows(assets[..n], w);
      if assets[n].walletId == w {
        f := g + [n];
        SelectsOneMore(assets, w, AssetsOf(assets[..n], w), g);
      } else {
        f := g;
        assert forall i: nat :: i < n ==> assets[..n][i] == assets[i];
      }
    }
  }

  lemma SelectsOneMore(assets: seq<Asset>, w: nat, shown: seq<Asset>, g: seq<nat>)
    requires assets != [] && assets[|assets| - 1].walletId == w && Selects(assets[..|assets| - 1], w, shown, g)
    ensures Selects(assets, w, shown + [assets[|assets| - 1]], g + [|assets| - 1])
  {
    var n := |assets| - 1;
    var f := g + [n];
    forall i: nat | i < |assets|
      ensures assets[i].walletId == w <==> i in f
    {
      if i < n { assert assets[..n][i] == assets[i]; }
    }
  }

  lemma {:induction false} ShownIsAssetsOf(assets: seq<Asset>, w: nat, shown: seq<Asset>, f: seq<nat>)
    requires Selects(assets, w, shown, f)
    ensures shown == AssetsOf(assets, w)
  {
    if assets != [] {
      var n := |assets| - 1;
      if assets[n].walletId == w {
        LastSelected(assets, w, shown, f);
        ShownIsAssetsOf(assets[..n], w, shown[..|shown| - 1], f[..|f| - 1]);
        assert shown == shown[..|shown| - 1] + [assets[n]];
      } else {
        NotSelected(assets, w, shown, f);
        ShownIsAssetsOf(assets[..n], w, shown, f);
      }
    }
  }

  lemma LastSelected(assets: seq<Asset>, w: nat, shown: seq<Asset>, f: seq<nat>)
    requires Selects(assets, w, shown, f) && assets != [] && assets[|assets| - 1].walletId == w
    ensures |f| > 0 && f[|f| - 1] == |assets| - 1
    ensures Selects(assets[..|assets| - 1], w, shown[..|shown| - 1], f[..|f| - 1])
  {
    var n := |assets| - 1;
    var k :| 0 <= k < |f| && f[k] == n;
    assert f[|f| - 1] <= n;
    forall i: nat | i < n
      ensures assets[..n][i].walletId == w <==> i in f[..|f| - 1]
    {
      assert assets[i].walletId == w <==> i in f;
      if i in f {
        var j :| 0 <= j < |f| && f[j] == i;
        assert f[..|f| - 1][j] == i;
      }
    }
  }

  lemma NotSelected(assets: seq<Asset>, w: nat, shown: seq<Asset>, f: seq<nat>)
    requires Selects(assets, w, shown, f) && assets != [] && assets[|assets| - 1].walletId != w
    ensures Selects(assets[..|assets| - 1], w, shown, f)
  {
    var n := |assets| - 1;
    assert n !in f;
    forall k | 0 <= k < |f|
      ensures f[k] < n && shown[k] == assets[..n][f[k]]
    {
      assert f[k] in f;
    }
    assert forall i: nat :: i < n ==> assets[..n][i] == assets[i];
  }

  /** The view is the user's wallet: its number, its account, and exactly its asset rows as they are. */
  ghost predicate IsViewOf(db: Db, user: nat, v: View) {
    && v.wallet < |db.wallets| && db.wallets[v.wallet].userId == user
    && v.account == db.wallets[v.wallet].accountNumber && Shows(db.assets, v.wallet, v.assets)
  }

  /** What the database query returns is exactly that; nothing, if the user has no wallet. */
  lemma ViewExactly(db: Db, user: nat, v: View)
    requires Valid(db)
    ensures ViewOf(db, user) == Some(v) <==> IsViewOf(db, user, v)
    ensures ViewOf(db, user).None? <==> forall w: nat :: w < |db.wallets| ==> db.wallets[w].userId != user
  {
    var f := AssetsOfShows(db.assets, v.wallet);
    assert Shows(db.assets, v.wallet, AssetsOf(db.assets, v.wallet));
    if IsViewOf(db, user, v) {
      IndexOfUnique(db.wallets, (x: Wallet) => x.userId == user, v.wallet);
      var g :| Selects(db.assets, v.wallet, v.assets, g);
      ShownIsAssetsOf(db.assets, v.wallet, v.assets, g);
    }
  }

  // ---- A failed request leaves nothing behind

  /** A refused operation leaves the database as it was. */
  lemma RefusalKeepsDb(db: Db, op: Op)
    ensures Perform(db, op).1.reply.Rejected? ==> Perform(db, op).0 == db
  {
  }

  /** A keyed request that is not answered with success or "already processed" changes nothing at all: the
      same key can be tried again. A success marks the key, and the marked key is never served again. */
  lemma CleanFailure(s: Store, r: KeyedRequest, quoted: bool)
    ensures var (s', a) := ServeKeyed(s, r, quoted);
      && (a.Served? ==> r.key !in s.idemp && s'.idemp == s.idemp[r.key := Completed])
      && (!a.Served? && !a.AlreadyProcessed? ==> s' == s)
      && (a.AlreadyProcessed? ==> s'.db == s.db && s'.cache == s.cache && r.key in s'.idemp)
      && (r.key in s.idemp ==> s' == s && a.AlreadyProcessed?)
  {
    RefusalKeepsDb(s.db, Requested(r));
  }

  // ---- The cache agrees with the database

  ghost predicate Coherent(s: Store) {
    forall user: nat :: user in s.cache ==> ViewOf(s.db, user) == Some(s.cache[user])
  }

  lemma {:induction false} AssetsOfSet(assets: seq<Asset>, i: nat, x: real, w: nat)
    requires i < |assets| && assets[i].walletId != w
    ensures AssetsOf(assets[i := assets[i].(balance := x)], w) == AssetsOf(assets, w)
  {
    var n := |assets| - 1;
    var assets' := assets[i := assets[i].(balance := x)];
    if i == n {
      assert assets'[..n] == assets[..n];
    } else {
      AssetsOfSet(assets[..n], i, x, w);
      assert assets'[..n] == assets[..n][i := assets[i].(balance := x)];
    }
  }

  lemma AssetsOfAppend(assets: seq<Asset>, a: Asset, w: nat)
    requires a.walletId != w
    ensures AssetsOf(assets + [a], w) == AssetsOf(assets, w)
  {
    assert (assets + [a])[..|assets|] == assets;
  }

  /** The statement changes no asset of the wallet. */
  predicate Spares(db: Db, st: Stmt, w: nat) {
    match st
    case AddToAsset(i, _) => i < |db.assets| ==> db.assets[i].walletId != w
    case AddToKey(v, _, _) => v != w
    case Upsert(v, _, _) => v != w
    case InsertAsset(v, _) => v != w
    case _ => true
  }

  lemma StmtSpares(db: Db, st: Stmt, w: nat)
    requires Spares(db, st, w)
    ensures var r := ExecStmt(db, st); r.Ok? ==> AssetsOf(r.value.assets, w) == AssetsOf(db.assets, w)
  {
    match st
    case AddToAsset(i, d) => if i < |db.assets| { AssetsOfSet(db.assets, i, db.assets[i].balance + d, w); }
    case AddToKey(v, c, d) =>
      var i := FindAsset(db, v, c);
      if i.Some? { AssetsOfSet(db.assets, i.value, db.assets[i.value].balance + d, w); }
    case Upsert(v, c, x) =>
      var i := FindAsset(db, v, c);
      if i.Some? { AssetsOfSet(db.assets, i.value, db.assets[i.value].balance + x, w); }
      else { AssetsOfAppend(db.assets, Asset(v, c, x), w); }
    case InsertAsset(v, c) => AssetsOfAppend(db.assets, Asset(v, c, 0.0), w);
    case _ =>
  }

  lemma TwoSpare(db: Db, a: Stmt, b: Stmt, w: nat)
    requires Spares(db, a, w) && Spares(db, b, w) && !b.AddToAsset?
    ensures var r := RunBatch(db, [a, b]); r.Ok? ==> AssetsOf(r.value.assets, w) == AssetsOf(db.assets, w)
  {
    Batch2(db, a, b);
    StmtSpares(db, a, w);
    if ExecStmt(db, a).Ok? { StmtSpares(ExecStmt(db, a).value, b, w); }
  }

  lemma FourSpare(db: Db, a: Stmt, b: Stmt, c: Row, d: Row, w: nat)
    requires Spares(db, a, w) && Spares(db, b, w) && !b.AddToAsset?
    ensures var r := RunBatch(db, [a, b, InsertRow(c), InsertRow(d)]);
      r.Ok? ==> AssetsOf(r.value.assets, w) == AssetsOf(db.assets, w)
  {
    Batch4(db, a, b, InsertRow(c), InsertRow(d));
    TwoSpare(db, a, b, w);
    Batch2(db, a, b);
  }

  /** The wallets whose assets a planned batch may change. */
  predicate MayTouch(op: Op, plan: Plan, w: nat) {
    match (op, plan)
    case (NewAsset(v), _) => v == w
    case (_, CreditPlan(v)) => v == w
    case (_, DebitPlan(_, v)) => v == w
    case (_, TransferPlan(_, v, r)) => v == w || r == w
    case (_, RefundPlan(_, v, _, _)) => v == w
    case _ => false
  }

  lemma SubmitSpares(db: Db, call: Call, w: nat)
    requires Valid(db) && call.Ready? && CallOk(db, call) && !MayTouch(call.op, call.plan, w)
    ensures AssetsOf(Submit(db, call).0.assets, w) == AssetsOf(db.assets, w)
  {
    var plan := call.plan;
    match call.op
    case Fund(_, c, x, ref) =>
      TwoSpare(db, InsertRow(DepositRow(plan.wallet, c, x, ref)), Upsert(plan.wallet, c, x), w);
    case CreditByEmail(_, c, x, ref) =>
      TwoSpare(db, Upsert(plan.wallet, c, x), InsertRow(DepositRow(plan.wallet, c, x, ref)), w);
    case Refund(_) => TwoSpare(db, AddToKey(plan.wallet, plan.currency, plan.amount), SetStatus(plan.row, Failed), w);
    case Swap(_, _, _, _, _, _) => DebitSpares(db, call, w);
    case Transfer(_, _, _, _, _) => DebitSpares(db, call, w);
    case Withdraw(_, _, _, _, _) => DebitSpares(db, call, w);
    case _ => Batch1(db, Batch(call.op, call.plan)[0]);
  }

  lemma DebitSpares(db: Db, call: Call, w: nat)
    requires call.Ready? && CallOk(db, call) && !MayTouch(call.op, call.plan, w)
    requires call.op.Swap? || call.op.Transfer? || call.op.Withdraw?
    ensures AssetsOf(Submit(db, call).0.assets, w) == AssetsOf(db.assets, w)
  {
    var plan := call.plan;
    match call.op
    case Swap(_, from, to, x, y, key) =>
      var rows := SwapRows(plan.wallet, from, to, x, y, key);
      FourSpare(db, AddToAsset(plan.asset, -x), Upsert(plan.wallet, to, y), rows.0, rows.1, w);
    case Transfer(_, _, c, x, key) =>
      var rows := TransferRows(plan.wallet, plan.receiver, c, x, key);
      FourSpare(db, AddToAsset(plan.asset, -x), Upsert(plan.receiver, c, x), rows.0, rows.1, w);
    case Withdraw(_, c, x, ref, code) =>
      TwoSpare(db, AddToAsset(plan.asset, -x), InsertRow(WithdrawalRow(plan.wallet, c, x, ref, code)), w);
  }

  /** The users whose wallet view an operation may change, as a caller can tell beforehand. */
  ghost predicate MayChange(db: Db, op: Op, user: nat) {
    match op
    case Fund(u, _, _, _) => u == user
    case Swap(u, _, _, _, _, _) => u == user
    case Withdraw(u, _, _, _, _) => u == user
    case Transfer(u, account, _, _, _) =>
      u == user || (WalletOfAccount(db.wallets, account).Some?
                    && db.wallets[WalletOfAccount(db.wallets, account).value].userId == user)
    case CreditByEmail(email, _, _, _) => FindUser(db.users, email) == Some(user)
    case Refund(code) =>
      FindWithdrawal(db.log, code).Some?
      && WalletOfUser(db.wallets, user) == Some(db.log[FindWithdrawal(db.log, code).value].walletId)
    case NewAsset(w) => WalletOfUser(db.wallets, user) == Some(w)
    case _ => false
  }

  /** The plan the call reaches, if it reaches its batch. */
  function Planned(db: Db, op: Op): Call {
    var c1 := FirstRead(db, op);
    if c1.GotSender? && op.Transfer? then SecondRead(db, op, c1.asset, c1.wallet) else c1
  }

  lemma PlannedOk(db: Db, op: Op)
    requires Valid(db)
    ensures CallOk(db, Planned(db, op)) && Planned(db, op).op == op
  {
    ReadRefines(db, Start(op));
    if FirstRead(db, op).GotSender? {
      ReadRefines(db, FirstRead(db, op));
    }
  }

  lemma PlanTouches(db: Db, op: Op, user: nat, w: nat)
    requires Valid(db) && WalletOfUser(db.wallets, user) == Some(w) && !MayChange(db, op, user)
    requires Planned(db, op).Ready? && CallOk(db, Planned(db, op)) && Planned(db, op).op == op
    ensures !MayTouch(op, Planned(db, op).plan, w)
  {
    var plan := Planned(db, op).plan;
    assert PlanOk(db, op, plan);
    match op
    case Fund(u, _, _, _) => WalletsApart(db, user, w, u);
    case Swap(u, _, _, _, _, _) => WalletsApart(db, user, w, u);
    case Withdraw(u, _, _, _, _) => WalletsApart(db, user, w, u);
    case Transfer(u, account, _, _, _) =>
      WalletsApart(db, user, w, u);
      assert db.wallets[plan.receiver].userId != user;
    case CreditByEmail(email, _, _, _) => WalletsApart(db, user, w, FindUser(db.users, email).value);
    case _ =>
  }

  lemma WalletsApart(db: Db, user: nat, w: nat, other: nat)
    requires WalletOfUser(db.wallets, user) == Some(w) && other != user
    ensures WalletOfUser(db.wallets, other) != Some(w)
  {
  }

  /** Views of all other users stay as they are. */
  lemma PerformKeepsView(db: Db, op: Op, user: nat)
    requires Valid(db) && ViewOf(db, user).Some? && !MayChange(db, op, user)
    ensures ViewOf(Perform(db, op).0, user) == ViewOf(db, user)
  {
    PerformIsAtomic(db, op);
    PlannedOk(db, op);
    var w := WalletOfUser(db.wallets, user).value;
    var db' := Perform(db, op).0;
    WalletOfUserKept(db.wallets, db'.wallets, user);
    if Planned(db, op).Ready? {
      PlanTouches(db, op, user, w);
      SubmitSpares(db, Planned(db, op), w);
    }
  }

  lemma PerformCoherent(s: Store, op: Op)
    requires Valid(s.db) && Coherent(s)
    ensures var db := Perform(s.db, op).0;
      forall user: nat :: user in s.cache && !MayChange(s.db, op, user) ==> ViewOf(db, user) == Some(s.cache[user])
  {
    forall user: nat | user in s.cache && !MayChange(s.db, op, user)
      ensures ViewOf(Perform(s.db, op).0, user) == Some(s.cache[user])
    {
      PerformKeepsView(s.db, op, user);
    }
  }

  // ---- Request by request

  lemma ServeGetCoherent(s: Store, user: nat)
    requires Valid(s.db) && Coherent(s)
    ensures Coherent(ServeGet(s, user).0)
    ensures var (s', a) := ServeGet(s, user);
      if a.Found? then ViewOf(s.db, user) == Some(a.view) else ViewOf(s.db, user).None?
  {
  }

  lemma ConcludeCoherent(s: Store, op: Op, key: string, cache: map<nat, View>)
    requires Valid(s.db) && Coherent(s)
    requires forall user: nat :: user in cache ==>
      user in s.cache && cache[user] == s.cache[user] && !MayChange(s.db, op, user)
    ensures var (db, done) := Perform(s.db, op); var s' := Conclude(s, key, db, done.reply, cache).0;
      Valid(db) && Coherent(s') && s'.db == db
  {
    PerformIsAtomic(s.db, op);
    PerformCoherent(s, op);
    RefusalKeepsDb(s.db, op);
  }

  /** All parties' views are invalidated. */
  lemma KeyedCoherent(s: Store, r: KeyedRequest, quoted: bool)
    requires Valid(s.db) && Coherent(s)
    ensures var s' := ServeKeyed(s, r, quoted).0; Valid(s'.db) && Coherent(s')
  {
    assert forall u: nat :: MayChange(s.db, Requested(r), u) ==> u == r.user || OtherParty(s.db, r) == Some(u);
    ConcludeCoherent(s, Requested(r), r.key, Invalidated(s, r));
  }

  lemma UnkeyedCoherent(s: Store, op: Op, cache: map<nat, View>)
    requires Valid(s.db) && Coherent(s)
    requires forall user: nat :: user in cache ==> user in s.cache && cache[user] == s.cache[user]
    requires forall user: nat :: user in cache && MayChange(s.db, op, user) ==> Perform(s.db, op).1.reply.Rejected?
    ensures Valid(Perform(s.db, op).0) && Coherent(Store(Perform(s.db, op).0, s.idemp, cache))
  {
    PerformIsAtomic(s.db, op);
    PerformCoherent(s, op);
    RefusalKeepsDb(s.db, op);
  }

  lemma RegisterCoherent(s: Store, email: string, account: string)
    requires Valid(s.db) && Coherent(s)
    ensures var s' := ServeRegister(s, email, account).0; Valid(s'.db) && Coherent(s')
  {
    var db1 := Perform(s.db, NewUser(email)).0;
    InsertCoherent(s, s.db, NewUser(email));
    var db2 := Perform(db1, NewWallet(|s.db.users|, account)).0;
    InsertCoherent(s, db1, NewWallet(|s.db.users|, account));
    AssetCoherent(s, db2);
  }

  /** Inserting a user or a wallet changes no cached view. */
  lemma InsertCoherent(s: Store, db: Db, op: Op)
    requires Valid(db) && Coherent(s.(db := db)) && s.db.wallets <= db.wallets && (op.NewUser? || op.NewWallet?)
    ensures var db' := Perform(db, op).0; Valid(db') && Coherent(s.(db := db')) && s.db.wallets <= db'.wallets
  {
    UnkeyedCoherent(s.(db := db), op, s.cache);
    assert db.wallets <= Perform(db, op).0.wallets by { PerformIsAtomic(db, op); }
  }

  lemma AssetCoherent(s: Store, db2: Db)
    requires Valid(db2) && Coherent(s) && Coherent(s.(db := db2)) && s.db.wallets <= db2.wallets
    ensures var db3 := Perform(db2, NewAsset(|s.db.wallets|)).0; Valid(db3) && Coherent(s.(db := db3))
  {
    NewAssetUnseen(s, db2);
    UnkeyedCoherent(s.(db := db2), NewAsset(|s.db.wallets|), s.cache);
  }

  /** The asset of a new wallet shows in nobody's cached view. */
  lemma NewAssetUnseen(s: Store, db2: Db)
    requires Coherent(s) && s.db.wallets <= db2.wallets
    ensures forall user: nat :: user in s.cache ==> !MayChange(db2, NewAsset(|s.db.wallets|), user)
  {
    forall user: nat | user in s.cache
      ensures !MayChange(db2, NewAsset(|s.db.wallets|), user)
    {
      WalletOfUserKept(s.db.wallets, db2.wallets, user);
    }
  }

  lemma ServeCoherent(s: Store, r: Request)
    requires Valid(s.db) && Coherent(s) && !r.RefundTransfer?
    ensures Valid(Serve(s, r).0.db) && Coherent(Serve(s, r).0)
  {
    match r
    case GetWallet(user) => ServeGetCoherent(s, user);
    case WithdrawFunds(_, _, _, _, _) => MoneyCoherent(s, r);
    case Charge(_, _, _, _) => MoneyCoherent(s, r);
    case VerifyAndCredit(_, _, _, _) => MoneyCoherent(s, r);
    case ConfirmTransfer(code) => UnkeyedCoherent(s, MarkSuccess(code), s.cache);
    case Register(email, account) => RegisterCoherent(s, email, account);
    case Keyed(call, quoted) => KeyedCoherent(s, call, quoted);
  }

  lemma MoneyCoherent(s: Store, r: Request)
    requires Valid(s.db) && Coherent(s) && (r.WithdrawFunds? || r.Charge? || r.VerifyAndCredit?)
    ensures Valid(Serve(s, r).0.db) && Coherent(Serve(s, r).0)
  {
    match r
    case WithdrawFunds(user, c, x, ref, code) =>
      var op := Withdraw(user, c, x, ref, code);
      UnkeyedCoherent(s, op, if Perform(s.db, op).1.reply.Done? then Without(s.cache, user) else s.cache);
    case Charge(email, c, x, ref) => UnkeyedCoherent(s, CreditByEmail(email, c, x, ref), Forget(s, email));
    case VerifyAndCredit(_, _, _, _) => VerifyCoherent(s, r);
  }

  lemma VerifyCoherent(s: Store, r: Request)
    requires Valid(s.db) && Coherent(s) && r.VerifyAndCredit?
    ensures Valid(Serve(s, r).0.db) && Coherent(Serve(s, r).0)
  {
    var op := CreditByEmail(r.email, r.currency, r.amount, r.reference);
    UnkeyedCoherent(s, op, if Perform(s.db, op).1.reply.Done? then Forget(s, r.email) else s.cache);
  }

  /** After every sequence of requests without refunds each cached wallet is the wallet of the database, so a
      cached answer is the answer the database would give. */
  lemma {:induction false} CacheAgrees(s: Store, requests: seq<Request>)
    requires Valid(s.db) && Coherent(s)
    requires forall i :: 0 <= i < |requests| ==> !requests[i].RefundTransfer?
    ensures Valid(ServeAll(s, requests).db) && Coherent(ServeAll(s, requests))
  {
    if requests != [] {
      var before := requests[..|requests| - 1];
      CacheAgrees(s, before);
      ServeCoherent(ServeAll(s, before), requests[|requests| - 1]);
    }
  }

  // ---- Registration

  /** The three inserts together: a taken email changes nothing, a taken account number leaves a user without a
      wallet, and otherwise the user gets the wallet and an empty NGN asset. */
  lemma EnrolledExactly(db: Db, email: string, account: string)
    requires Valid(db)
    ensures
      var (db', a) := Enrolled(db, email, account);
      var users := db.users + [User(email)];
      if FindUser(db.users, email).Some? then db' == db && a == Refused(Database(UniqueViolation))
      else if WalletOfAccount(db.wallets, account).Some?
      then db' == db.(users := users) && a == Refused(Database(UniqueViolation))
      else
        && a == Served
        && db' == db.(users := users, wallets := db.wallets + [Wallet(account, |db.users|)],
                      assets := db.assets + [Asset(|db.wallets|, "NGN", 0.0)])
  {
    Batch1(db, InsertUser(User(email)));
    var db1 := db.(users := db.users + [User(email)]);
    Batch1(db1, InsertWallet(Wallet(account, |db.users|)));
    var db2 := db1.(wallets := db1.wallets + [Wallet(account, |db.users|)]);
    Batch1(db2, InsertAsset(|db.wallets|, "NGN"));
  }

  /** Such a user is stuck: the email cannot be registered again, and every payment to it is refused. */
  lemma HalfRegistered(db: Db, email: string, account: string, other: string, c: string, x: real, ref: string)
    requires Valid(db) && FindUser(db.users, email).None? && WalletOfAccount(db.wallets, account).Some?
    ensures var db' := Enrolled(db, email, account).0;
      && Enrolled(db', email, other) == (db', Refused(Database(UniqueViolation)))
      && Perform(db', CreditByEmail(email, c, x, ref)) == (db', Fail(CreditByEmail(email, c, x, ref), NoWallet))
  {
    EnrolledExactly(db, email, account);
    var db' := db.(users := db.users + [User(email)]);
    IndexOfUnique(db'.users, (u: User) => u.email == email, |db.users|);
    assert FindUser(db'.users, email) == Some(|db.users|);
    Batch1(db', InsertUser(User(email)));
  }

  // ---- Refunds

  lemma {:induction false} AssetsOfChanged(assets: seq<Asset>, i: nat, x: real)
    requires i < |assets| && assets[i].balance != x
    ensures AssetsOf(assets[i := assets[i].(balance := x)], assets[i].walletId) != AssetsOf(assets, assets[i].walletId)
  {
    var n := |assets| - 1;
    var w := assets[i].walletId;
    var assets' := assets[i := assets[i].(balance := x)];
    var a, b := AssetsOf(assets[..n], w), AssetsOf(assets'[..n], w);
    if i == n {
      assert AssetsOf(assets', w)[|b|] == assets'[n] && AssetsOf(assets, w)[|a|] == assets[n];
      assert assets'[..n] == assets[..n];
    } else {
      AssetsOfChanged(assets[..n], i, x);
      assert assets'[..n] == assets[..n][i := assets[i].(balance := x)];
      var t := if assets[n].walletId == w then [assets[n]] else [];
      assert AssetsOf(assets, w) == a + t && AssetsOf(assets', w) == b + t;
      SuffixCancels(a, b, t);
    }
  }

  lemma SuffixCancels(a: seq<Asset>, b: seq<Asset>, t: seq<Asset>)
    requires a != b
    ensures a + t != b + t
  {
    assert |a| == |b| ==> (a + t)[..|a|] == a && (b + t)[..|b|] == b;
  }

  /** The refund would move money of a user whose wallet is cached. */
  ghost predicate StaleRefund(s: Store, code: string) {
    var i := FindWithdrawal(s.db.log, code);
    && i.Some? && s.db.log[i.value].status != Status.Failed && s.db.log[i.value].amount != 0.0
    && BalanceOf(Abs(s.db), (s.db.log[i.value].walletId, s.db.log[i.value].currency)) + s.db.log[i.value].amount >= 0.0
    && s.db.log[i.value].walletId < |s.db.wallets|
    && s.db.wallets[s.db.log[i.value].walletId].userId in s.cache
  }

  /** A refund keeps the cache right exactly when it moves no money of a cached wallet. */
  lemma RefundCoherence(s: Store, code: string)
    requires Valid(s.db) && Coherent(s)
    ensures Coherent(Serve(s, RefundTransfer(code)).0) <==> !StaleRefund(s, code)
  {
    var op := Refund(code);
    var db' := Perform(s.db, op).0;
    PerformCoherent(s, op);
    PlannedOk(s.db, op);
    if Planned(s.db, op).Ready? {
      RefundSetsBalance(s.db, code);
      if StaleRefund(s, code) {
        StaleRefundShows(s, code, db');
      } else {
        FreshRefundHides(s, code, db');
      }
    }
  }

  /** What a refund that passes its read does to the asset table. */
  ghost predicate Credits(db: Db, code: string, db': Db) {
    var i := FindWithdrawal(db.log, code);
    && i.Some? && db.log[i.value].status != Status.Failed
    && var row := db.log[i.value]; var a := FindAsset(db, row.walletId, row.currency);
    && a.Some? && BalanceOf(Abs(db), (row.walletId, row.currency)) == db.assets[a.value].balance
    && var x := db.assets[a.value].balance + row.amount;
    if x < 0.0 then db' == db
    else db'.assets == db.assets[a.value := db.assets[a.value].(balance := x)] && db'.wallets == db.wallets
  }

  lemma RefundSetsBalance(db: Db, code: string)
    requires Valid(db) && Planned(db, Refund(code)).Ready?
    ensures Credits(db, code, Perform(db, Refund(code)).0)
  {
    var op := Refund(code);
    PlannedOk(db, op);
    var call := Planned(db, op);
    var RefundPlan(i, w, c, x) := call.plan;
    RefundTarget(db, call);
    LookupAbs(db, w, c);
    Batch2(db, AddToKey(w, c, x), SetStatus(i, Failed));
  }

  lemma OwnerOf(db: Db, w: nat)
    requires Valid(db) && w < |db.wallets|
    ensures WalletOfUser(db.wallets, db.wallets[w].userId) == Some(w)
  {
    IndexOfUnique(db.wallets, (x: Wallet) => x.userId == db.wallets[w].userId, w);
  }

  lemma StaleRefundShows(s: Store, code: string, db': Db)
    requires Valid(s.db) && Coherent(s) && Credits(s.db, code, db') && StaleRefund(s, code)
    ensures !Coherent(s.(db := db'))
  {
    var row := s.db.log[FindWithdrawal(s.db.log, code).value];
    var a := FindAsset(s.db, row.walletId, row.currency).value;
    var owner := s.db.wallets[row.walletId].userId;
    OwnerOf(s.db, row.walletId);
    AssetsOfChanged(s.db.assets, a, s.db.assets[a].balance + row.amount);
    assert ViewOf(db', owner) != ViewOf(s.db, owner);
  }

  lemma FreshRefundHides(s: Store, code: string, db': Db)
    requires Valid(s.db) && Coherent(s) && Credits(s.db, code, db') && !StaleRefund(s, code)
    requires forall user: nat :: user in s.cache && !MayChange(s.db, Refund(code), user) ==>
      ViewOf(db', user) == Some(s.cache[user])
    ensures Coherent(s.(db := db'))
  {
    forall user: nat | user in s.cache
      ensures ViewOf(db', user) == Some(s.cache[user])
    {
      if MayChange(s.db, Refund(code), user) {
        HiddenFromOwner(s, code, db', user);
      }
    }
  }

  /** The owner's wallet is cached, so the refund moved nothing. */
  lemma HiddenFromOwner(s: Store, code: string, db': Db, user: nat)
    requires Credits(s.db, code, db') && !StaleRefund(s, code) && user in s.cache && MayChange(s.db, Refund(code), user)
    ensures db'.assets == s.db.assets && db'.wallets == s.db.wallets
  {
    var row := s.db.log[FindWithdrawal(s.db.log, code).value];
    assert s.db.wallets[row.walletId].userId == user;
    var a := FindAsset(s.db, row.walletId, row.currency).value;
    if s.db.assets[a].balance + row.amount >= 0.0 {
      assert row.amount == 0.0;
      assert s.db.assets[a].(balance := s.db.assets[a].balance) == s.db.assets[a];
    }
  }

  // ---- Sequences with refunds

  /** The request is a refund that would move money of a cached wallet. */
  ghost predicate SpoilsCache(s: Store, r: Request) { r.RefundTransfer? && StaleRefund(s, r.code) }

  lemma ServeExactly(s: Store, r: Request)
    requires Valid(s.db) && Coherent(s)
    ensures Valid(Serve(s, r).0.db)
    ensures Coherent(Serve(s, r).0) <==> !SpoilsCache(s, r)
  {
    if r.RefundTransfer? {
      RefundCoherence(s, r.code);
      PerformValid(s.db, Refund(r.code));
    } else {
      ServeCoherent(s, r);
    }
  }

  lemma ServeAllStep(s: Store, requests: seq<Request>, k: nat)
    requires k < |requests|
    ensures ServeAll(s, requests[..k + 1]) == Serve(ServeAll(s, requests[..k]), requests[k]).0
  {
    assert requests[..k + 1][..k] == requests[..k];
  }

  ghost predicate Right(s: Store) { Valid(s.db) && Coherent(s) }

  /** The cache is right before and after each of the requests. */
  ghost predicate RightThroughout(s: Store, requests: seq<Request>) {
    forall k: nat :: k <= |requests| ==> Right(ServeAll(s, requests[..k]))
  }

  ghost predicate SpoilsAt(s: Store, requests: seq<Request>, k: nat)
    requires k < |requests|
  {
    SpoilsCache(ServeAll(s, requests[..k]), requests[k])
  }

  lemma NextRight(s: Store, requests: seq<Request>, k: nat)
    requires k < |requests| && Right(ServeAll(s, requests[..k]))
    ensures Right(ServeAll(s, requests[..k + 1])) <==> !SpoilsAt(s, requests, k)
  {
    ServeAllStep(s, requests, k);
    ServeExactly(ServeAll(s, requests[..k]), requests[k]);
  }

  /** Over any sequence of requests, refunds included, the cache is right after each of them if and only if none
      of them is a refund that moves money of a wallet cached at that moment. */
  lemma CacheAgreesExactly(s: Store, requests: seq<Request>)
    requires Right(s)
    ensures RightThroughout(s, requests) <==> forall k: nat :: k < |requests| ==> !SpoilsAt(s, requests, k)
  {
    var right := (k: nat) => k <= |requests| && Right(ServeAll(s, requests[..k]));
    var spoiled := (k: nat) => k < |requests| && SpoilsAt(s, requests, k);
    assert requests[..0] == [];
    forall k: nat | k < |requests| && right(k)
      ensures right(k + 1) <==> !spoiled(k)
    {
      NextRight(s, requests, k);
    }
    Throughout(right, spoiled, |requests|);
    assert forall k: nat :: k <= |requests| ==> right(k) == Right(ServeAll(s, requests[..k]));
    assert forall k: nat :: k < |requests| ==> spoiled(k) == SpoilsAt(s, requests, k);
  }
}
