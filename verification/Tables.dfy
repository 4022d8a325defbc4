/** The database of prisma/schema.prisma: four tables, their constraints, and the statements the
    repositories submit. A row's id is its position: rows are only ever appended or updated in place. */
module Tables {
  import opened Prelude

  datatype User = User(email: string)

  datatype Wallet = Wallet(accountNumber: string, userId: nat)

  datatype Asset = Asset(walletId: nat, currency: string, balance: real)

  datatype Kind = Deposit | Withdrawal | Transfer | Swap

  datatype Status = Pending | Success | Failed

  datatype Row = Row(walletId: nat, amount: real, currency: string, kind: Kind,
                     reference: string, status: Status, gatewayRef: Option<string>)

  datatype Db = Db(users: seq<User>, wallets: seq<Wallet>, assets: seq<Asset>, log: seq<Row>)

  const EMPTY := Db([], [], [], [])

  datatype DbError = CheckViolation | UniqueViolation | RecordNotFound | ForeignKeyViolation

  /** One statement of a Prisma transaction, or a lone write. */
  datatype Stmt =
    | AddToAsset(asset: nat, delta: real)
    | AddToKey(walletId: nat, currency: string, delta: real)
    | Upsert(walletId: nat, currency: string, amount: real)
    | InsertRow(row: Row)
    | SetStatus(rowId: nat, status: Status)
    | SetStatusByGateway(code: string, status: Status)
    | InsertUser(user: User)
    | InsertWallet(wallet: Wallet)
    | InsertAsset(walletId: nat, currency: string)

  // ---- Look-ups

  function AssetIs(w: nat, c: string): Asset -> bool { (a: Asset) => a.walletId == w && a.currency == c }

  function FindAsset(db: Db, w: nat, c: string): Option<nat> { IndexOf(db.assets, AssetIs(w, c)) }

  function RowHasReference(ref: string): Row -> bool { (r: Row) => r.reference == ref }

  predicate RefUsed(log: seq<Row>, ref: string) { IndexOf(log, RowHasReference(ref)).Some? }

  function FindUser(users: seq<User>, email: string): Option<nat> { IndexOf(users, (u: User) => u.email == email) }

  function WalletOfUser(wallets: seq<Wallet>, user: nat): Option<nat> {
    IndexOf(wallets, (w: Wallet) => w.userId == user)
  }

  function WalletOfAccount(wallets: seq<Wallet>, account: string): Option<nat> {
    IndexOf(wallets, (w: Wallet) => w.accountNumber == account)
  }

  function BalanceAt(db: Db, w: nat, c: string): real {
    var i := FindAsset(db, w, c);
    if i.Some? then db.assets[i.value].balance else 0.0
  }

  predicate Owns(wallets: seq<Wallet>, user: nat, w: nat) { w < |wallets| && wallets[w].userId == user }

  /** GetAssetByCurrency: the first asset of that currency whose wallet belongs to the user. */
  function GetAssetByCurrency(db: Db, user: nat, c: string): Option<nat> {
    IndexOf(db.assets, (a: Asset) => a.currency == c && Owns(db.wallets, user, a.walletId))
  }

  function FindWithdrawal(log: seq<Row>, code: string): Option<nat> {
    IndexOf(log, (r: Row) => r.gatewayRef == Some(code) && r.kind == Withdrawal)
  }

  // ---- Statements

  function SetBalance(db: Db, i: nat, x: real): Result<Db, DbError>
    requires i < |db.assets|
  {
    if x < 0.0 then Err(CheckViolation)
    else Ok(db.(assets := db.assets[i := db.assets[i].(balance := x)]))
  }

  function CreateAsset(db: Db, w: nat, c: string, x: real): Result<Db, DbError> {
    if w >= |db.wallets| then Err(ForeignKeyViolation)
    else if FindAsset(db, w, c).Some? then Err(UniqueViolation)
    else if x < 0.0 then Err(CheckViolation)
    else Ok(db.(assets := db.assets + [Asset(w, c, x)]))
  }

  function MarkAll(log: seq<Row>, code: string, st: Status): (r: seq<Row>)
    ensures |r| == |log|
    ensures forall i :: 0 <= i < |log| ==>
      r[i] == if log[i].gatewayRef == Some(code) then log[i].(status := st) else log[i]
  {
    seq(|log|, i requires 0 <= i < |log| =>
      if log[i].gatewayRef == Some(code) then log[i].(status := st) else log[i])
  }

  /** Executes one statement, checking every constraint at once. */
  function ExecStmt(db: Db, st: Stmt): Result<Db, DbError> {
    match st
    case AddToAsset(i, d) =>
      if i < |db.assets| then SetBalance(db, i, db.assets[i].balance + d) else Err(RecordNotFound)
    case AddToKey(w, c, d) =>
      var i := FindAsset(db, w, c);
      if i.Some? then SetBalance(db, i.value, db.assets[i.value].balance + d) else Err(RecordNotFound)
    case Upsert(w, c, x) =>
      var i := FindAsset(db, w, c);
      if i.Some? then SetBalance(db, i.value, db.assets[i.value].balance + x) else CreateAsset(db, w, c, x)
    case InsertRow(r) =>
      if r.walletId >= |db.wallets| then Err(ForeignKeyViolation)
      else if RefUsed(db.log, r.reference) then Err(UniqueViolation)
      else Ok(db.(log := db.log + [r]))
    case SetStatus(i, s) =>
      if i < |db.log| then Ok(db.(log := db.log[i := db.log[i].(status := s)])) else Err(RecordNotFound)
    case SetStatusByGateway(code, s) => Ok(db.(log := MarkAll(db.log, code, s)))
    case InsertUser(u) =>
      if FindUser(db.users, u.email).Some? then Err(UniqueViolation) else Ok(db.(users := db.users + [u]))
    case InsertWallet(w) =>
      if w.userId >= |db.users| then Err(ForeignKeyViolation)
      else if WalletOfUser(db.wallets, w.userId).Some? || WalletOfAccount(db.wallets, w.accountNumber).Some?
      then Err(UniqueViolation)
      else Ok(db.(wallets := db.wallets + [w]))
    case InsertAsset(w, c) => CreateAsset(db, w, c, 0.0)
  }

  function Then(r: Result<Db, DbError>, st: Stmt): Result<Db, DbError> {
    if r.Ok? then ExecStmt(r.value, st) else r
  }

  /** A batch: statements in order, the whole batch undone at the first failure. */
  function RunBatch(db: Db, stmts: seq<Stmt>): Result<Db, DbError> {
    if stmts == [] then Ok(db) else Then(RunBatch(db, stmts[..|stmts| - 1]), stmts[|stmts| - 1])
  }

  function Settle(db: Db, r: Result<Db, DbError>): Db { if r.Ok? then r.value else db }

  // ---- What every reachable database satisfies

  ghost predicate ValidUsers(users: seq<User>) {
    forall i, j :: 0 <= i < j < |users| ==> users[i].email != users[j].email
  }

  ghost predicate ValidWallets(users: seq<User>, wallets: seq<Wallet>) {
    && (forall i :: 0 <= i < |wallets| ==> wallets[i].userId < |users|)
    && (forall i, j :: 0 <= i < j < |wallets| ==>
        wallets[i].userId != wallets[j].userId && wallets[i].accountNumber != wallets[j].accountNumber)
  }

  ghost predicate UniquePairs(assets: seq<Asset>) {
    forall i, j :: 0 <= i < j < |assets| ==>
      !(assets[i].walletId == assets[j].walletId && assets[i].currency == assets[j].currency)
  }

  ghost predicate ValidAssets(wallets: seq<Wallet>, assets: seq<Asset>) {
    && (forall i :: 0 <= i < |assets| ==> assets[i].walletId < |wallets| && assets[i].balance >= 0.0)
    && UniquePairs(assets)
  }

  ghost predicate UniqueReferences(log: seq<Row>) {
    forall i, j :: 0 <= i < j < |log| ==> log[i].reference != log[j].reference
  }

  predicate OnlyWithdrawalsCarryCodes(log: seq<Row>) {
    forall i :: 0 <= i < |log| ==> (log[i].gatewayRef.Some? <==> log[i].kind == Withdrawal)
  }

  /** The asset row a refund would increment exists for every logged row. */
  ghost predicate RowsHaveAssets(db: Db) {
    forall i :: 0 <= i < |db.log| ==> FindAsset(db, db.log[i].walletId, db.log[i].currency).Some?
  }

  ghost predicate Valid(db: Db) {
    && ValidUsers(db.users)
    && ValidWallets(db.users, db.wallets)
    && ValidAssets(db.wallets, db.assets)
    && UniqueReferences(db.log)
    && OnlyWithdrawalsCarryCodes(db.log)
    && RowsHaveAssets(db)
  }

  // ---- What never changes once written

  ghost predicate SameIdentity(r: Row, r': Row) { r' == r.(status := r'.status) }

  ghost predicate AssetsKept(a: seq<Asset>, a': seq<Asset>) {
    |a| <= |a'| && forall i :: 0 <= i < |a| ==> a'[i].walletId == a[i].walletId && a'[i].currency == a[i].currency
  }

  ghost predicate RowsKept(l: seq<Row>, l': seq<Row>) {
    |l| <= |l'| && forall i :: 0 <= i < |l| ==> SameIdentity(l[i], l'[i])
  }

  /** Users, wallets and their owners, asset identities and logged facts (all but status) are stable. */
  ghost predicate Extends(db: Db, db': Db) {
    && db.users <= db'.users
    && db.wallets <= db'.wallets
    && AssetsKept(db.assets, db'.assets)
    && RowsKept(db.log, db'.log)
  }
}
