/** What each request does, as its caller sees it: the answer case by case, how much money moves between which
    wallets, and what is logged. No operation of the ledger is named here. */
module Effects {
  import opened Prelude
  import opened Tables
  import opened Book
  import opened Calls
  import opened Integrity
  import opened Refinement
  import opened Webhooks
  import opened Requests
  import opened Service

  predicate HasAsset(db: Db, w: nat, c: string) {
    exists i :: 0 <= i < |db.assets| && db.assets[i].walletId == w && db.assets[i].currency == c
  }

  predicate Taken(log: seq<Row>, ref: string) { exists i :: 0 <= i < |log| && log[i].reference == ref }

  /** w is the wallet of the user. */
  predicate IsWalletOf(db: Db, w: nat, user: nat) { w < |db.wallets| && db.wallets[w].userId == user }

  /** t is the wallet with that account number. */
  predicate IsAccount(db: Db, t: nat, account: string) { t < |db.wallets| && db.wallets[t].accountNumber == account }

  predicate IsEmailOf(db: Db, u: nat, email: string) { u < |db.users| && db.users[u].email == email }

  /** Balances change by d at (w, c) and by d' at (w', c'), both if they are one, and nowhere else. */
  ghost predicate Moves(db: Db, db': Db, w: nat, c: string, d: real, w': nat, c': string, d': real) {
    forall v: nat, e :: BalanceAt(db', v, e) == BalanceAt(db, v, e)
      + (if v == w && e == c then d else 0.0) + (if v == w' && e == c' then d' else 0.0)
  }

  ghost predicate MovesOne(db: Db, db': Db, w: nat, c: string, d: real) { Moves(db, db', w, c, d, w, c, 0.0) }

  // ---- Reading the tables

  lemma TheWallet(db: Db, w: nat, user: nat)
    requires Valid(db) && IsWalletOf(db, w, user)
    ensures WalletOfUser(db.wallets, user) == Some(w)
  {
    OwnerOf(db, w);
  }

  lemma TheAccount(db: Db, t: nat, account: string)
    requires Valid(db) && IsAccount(db, t, account)
    ensures WalletOfAccount(db.wallets, account) == Some(t)
  {
    assert WalletOfAccount(db.wallets, account).Some?;
  }

  lemma TheUser(db: Db, u: nat, email: string)
    requires Valid(db) && IsEmailOf(db, u, email)
    ensures FindUser(db.users, email) == Some(u)
  {
    assert FindUser(db.users, email).Some?;
  }

  lemma TheBalance(db: Db, w: nat, c: string)
    requires Valid(db)
    ensures HasAsset(db, w, c) <==> (w, c) in Abs(db).balances
    ensures BalanceAt(db, w, c) == BalanceOf(Abs(db), (w, c))
  {
    LookupAbs(db, w, c);
  }

  lemma TheReference(log: seq<Row>, ref: string)
    ensures RefUsed(log, ref) <==> Taken(log, ref)
  {
  }

  /** The same of the balance map. */
  ghost predicate BookMoves(b: Book, b': Book, k: (nat, string), d: real, k': (nat, string), d': real) {
    forall j :: BalanceOf(b', j) == BalanceOf(b, j) + (if j == k then d else 0.0) + (if j == k' then d' else 0.0)
  }


  lemma MovesInBook(db: Db, db': Db, w: nat, c: string, d: real, w': nat, c': string, d': real)
    requires Valid(db) && Valid(db')
    requires BookMoves(Abs(db), Abs(db'), (w, c), d, (w', c'), d')
    ensures Moves(db, db', w, c, d, w', c', d')
  {
    forall v: nat, e
      ensures BalanceAt(db', v, e) == BalanceAt(db, v, e)
        + (if v == w && e == c then d else 0.0) + (if v == w' && e == c' then d' else 0.0)
    {
      TheBalance(db, v, e);
      TheBalance(db', v, e);
    }
  }

  /** Nothing but balances and the log changed. */
  predicate SamePeople(db: Db, db': Db) { db'.users == db.users && db'.wallets == db.wallets }

  // ---- Wallet reads

  /** A cached wallet is the answer, and the database is not read. Otherwise the answer is the user's wallet as the
      database has it, and it is cached; or that there is none. */
  lemma GetServed(s: Store, user: nat)
    requires Valid(s.db)
    ensures var (s', a) := Serve(s, GetWallet(user));
      if user in s.cache then s' == s && a == Found(s.cache[user])
      else if exists w: nat :: IsWalletOf(s.db, w, user) then
        a.Found? && IsViewOf(s.db, user, a.view) && s' == s.(cache := s.cache[user := a.view])
      else s' == s && a == NotFound
  {
    var v := ViewOf(s.db, user);
    if v.Some? {
      ViewExactly(s.db, user, v.value);
      assert IsWalletOf(s.db, v.value.wallet, user);
    } else {
      assert forall w: nat :: !IsWalletOf(s.db, w, user);
    }
  }

  // ---- The keyed requests

  lemma FundAtomic(b: Book, user: nat, c: string, x: real, key: string, w: nat)
    requires WalletOfUser(b.wallets, user) == Some(w)
    ensures var o := Atomic(b, Fund(user, c, x, key));
      && o.reply == (if (w, c) !in b.balances then Rejected(NoSourceAsset)
                     else if RefUsed(b.log, key) then Rejected(Database(UniqueViolation))
                     else if BalanceOf(b, (w, c)) + x < 0.0 then Rejected(Database(CheckViolation))
                     else Done)
      && (o.reply.Done? ==>
            && o.book.log == b.log + [Row(w, x, c, Kind.Deposit, key, Status.Success, None)]
            && BookMoves(b, o.book, (w, c), x, (w, c), 0.0))
  {
  }

  /** A client deposit. */
  lemma FundServed(s: Store, user: nat, c: string, x: real, key: string, quoted: bool, w: nat)
    requires Valid(s.db) && IsWalletOf(s.db, w, user)
    ensures var (s', a) := Serve(s, Keyed(FundRequest(user, c, x, key), quoted));
      && a == (if key in s.idemp then AlreadyProcessed
               else if !HasAsset(s.db, w, c) then Refused(NoSourceAsset)
               else if Taken(s.db.log, key) then AlreadyProcessed
               else if BalanceAt(s.db, w, c) + x < 0.0 then Refused(Database(CheckViolation))
               else Served)
      && (a.Served? ==>
            && MovesOne(s.db, s'.db, w, c, x) && SamePeople(s.db, s'.db)
            && s'.db.log == s.db.log + [Row(w, x, c, Kind.Deposit, key, Status.Success, None)])
      && (!a.Served? ==> s'.db == s.db)
  {
    TheWallet(s.db, w, user);
    FundPerformed(s.db, user, c, x, key, w);
    KeyedServed(s, FundRequest(user, c, x, key), quoted, Fund(user, c, x, key));
  }

  lemma FundPerformed(db: Db, user: nat, c: string, x: real, key: string, w: nat)
    requires Valid(db) && WalletOfUser(db.wallets, user) == Some(w)
    ensures var (db', done) := Perform(db, Fund(user, c, x, key));
      && done.reply == (if !HasAsset(db, w, c) then Rejected(NoSourceAsset)
                        else if Taken(db.log, key) then Rejected(Database(UniqueViolation))
                        else if BalanceAt(db, w, c) + x < 0.0 then Rejected(Database(CheckViolation))
                        else Done)
      && (done.reply.Done? ==>
            && MovesOne(db, db', w, c, x) && SamePeople(db, db')
            && db'.log == db.log + [Row(w, x, c, Kind.Deposit, key, Status.Success, None)])
  {
    var op := Fund(user, c, x, key);
    TheBalance(db, w, c);
    TheReference(db.log, key);
    PerformIsAtomic(db, op);
    FundAtomic(Abs(db), user, c, x, key, w);
    if Atomic(Abs(db), op).reply.Done? {
      MovesInBook(db, Perform(db, op).0, w, c, x, w, c, 0.0);
    }
  }

  lemma SwapAtomic(b: Book, user: nat, from: string, to: string, x: real, y: real, key: string, w: nat)
    requires WalletOfUser(b.wallets, user) == Some(w)
    ensures var o := Atomic(b, Op.Swap(user, from, to, x, y, key));
      && o.reply == (if (w, from) !in b.balances then Rejected(NoSourceAsset)
                     else if BalanceOf(b, (w, from)) < x then Rejected(InsufficientFunds)
                     else if BalanceOf(b, (w, to)) + y - (if from == to then x else 0.0) < 0.0
                     then Rejected(InsufficientFunds)
                     else if RefUsed(b.log, key + "-OUT") || RefUsed(b.log, key + "-IN")
                     then Rejected(Database(UniqueViolation))
                     else Done)
      && (o.reply.Done? ==>
            && o.book.log == b.log + [Row(w, x, from, Kind.Swap, key + "-OUT", Status.Success, None),
                                      Row(w, y, to, Kind.Swap, key + "-IN", Status.Success, None)]
            && BookMoves(b, o.book, (w, from), -x, (w, to), y))
  {
  }

  /** A swap: what leaves is the amount asked for, what arrives is that amount at the quoted rate, or itself
      within one currency. */
  lemma SwapServed(s: Store, user: nat, from: string, to: string, x: real, quote: real, key: string, quoted: bool,
                   w: nat)
    requires Valid(s.db) && IsWalletOf(s.db, w, user)
    ensures var (s', a) := Serve(s, Keyed(SwapRequest(user, from, to, x, quote, key), quoted));
      var y := if from == to then x else x * quote;
      && a == (if key in s.idemp then AlreadyProcessed
               else if from != to && !quoted then NoRate
               else if !HasAsset(s.db, w, from) then Refused(NoSourceAsset)
               else if BalanceAt(s.db, w, from) < x then Refused(InsufficientFunds)
               else if BalanceAt(s.db, w, to) + y - (if from == to then x else 0.0) < 0.0
               then Refused(InsufficientFunds)
               else if Taken(s.db.log, key + "-OUT") || Taken(s.db.log, key + "-IN") then AlreadyProcessed
               else Served)
      && (a.Served? ==>
            && Moves(s.db, s'.db, w, from, -x, w, to, y) && SamePeople(s.db, s'.db)
            && s'.db.log == s.db.log + [Row(w, x, from, Kind.Swap, key + "-OUT", Status.Success, None),
                                        Row(w, y, to, Kind.Swap, key + "-IN", Status.Success, None)])
      && (!a.Served? ==> s'.db == s.db)
  {
    var r := SwapRequest(user, from, to, x, quote, key);
    SwapRate(r);
    SwapServedAs(s, r, if from == to then x else x * quote, quoted, w);
  }

  lemma SwapServedAs(s: Store, r: KeyedRequest, y: real, quoted: bool, w: nat)
    requires Valid(s.db) && r.SwapRequest? && IsWalletOf(s.db, w, r.user)
    requires Requested(r) == Op.Swap(r.user, r.from, r.to, r.amountIn, y, r.key)
    ensures var (s', a) := Serve(s, Keyed(r, quoted)); var x := r.amountIn;
      && a == (if r.key in s.idemp then AlreadyProcessed
               else if r.from != r.to && !quoted then NoRate
               else if !HasAsset(s.db, w, r.from) then Refused(NoSourceAsset)
               else if BalanceAt(s.db, w, r.from) < x then Refused(InsufficientFunds)
               else if BalanceAt(s.db, w, r.to) + y - (if r.from == r.to then x else 0.0) < 0.0
               then Refused(InsufficientFunds)
               else if Taken(s.db.log, r.key + "-OUT") || Taken(s.db.log, r.key + "-IN") then AlreadyProcessed
               else Served)
      && (a.Served? ==>
            && Moves(s.db, s'.db, w, r.from, -x, w, r.to, y) && SamePeople(s.db, s'.db)
            && s'.db.log == s.db.log + [Row(w, x, r.from, Kind.Swap, r.key + "-OUT", Status.Success, None),
                                        Row(w, y, r.to, Kind.Swap, r.key + "-IN", Status.Success, None)])
      && (!a.Served? ==> s'.db == s.db)
  {
    TheWallet(s.db, w, r.user);
    SwapPerformed(s.db, r.user, r.from, r.to, r.amountIn, y, r.key, w);
    KeyedServed(s, r, quoted, Op.Swap(r.user, r.from, r.to, r.amountIn, y, r.key));
  }

  /** What becomes of the repository's answer, when the service itself does not refuse. */
  lemma KeyedServed(s: Store, r: KeyedRequest, quoted: bool, op: Op)
    requires Requested(r) == op
    ensures var (s', a) := Serve(s, Keyed(r, quoted)); var (db', done) := Perform(s.db, op);
      && (r.key in s.idemp ==> a == AlreadyProcessed && s'.db == s.db)
      && (r.key !in s.idemp && Precheck(s.db, r, quoted).Some? ==>
            a == Precheck(s.db, r, quoted).value && s'.db == s.db)
      && (r.key !in s.idemp && Precheck(s.db, r, quoted).None? ==>
            && s'.db == db' && (!a.Served? ==> s'.db == s.db)
            && a == if done.reply.Done? then Served
                    else if done.reply.error == Database(UniqueViolation) then AlreadyProcessed
                    else Refused(done.reply.error))
  {
    RefusalKeepsDb(s.db, op);
  }

  lemma SwapPerformed(db: Db, user: nat, from: string, to: string, x: real, y: real, key: string, w: nat)
    requires Valid(db) && WalletOfUser(db.wallets, user) == Some(w)
    ensures var (db', done) := Perform(db, Op.Swap(user, from, to, x, y, key));
      && done.reply == (if !HasAsset(db, w, from) then Rejected(NoSourceAsset)
                        else if BalanceAt(db, w, from) < x then Rejected(InsufficientFunds)
                        else if BalanceAt(db, w, to) + y - (if from == to then x else 0.0) < 0.0
                        then Rejected(InsufficientFunds)
                        else if Taken(db.log, key + "-OUT") || Taken(db.log, key + "-IN")
                        then Rejected(Database(UniqueViolation))
                        else Done)
      && (done.reply.Done? ==>
            && Moves(db, db', w, from, -x, w, to, y) && SamePeople(db, db')
            && db'.log == db.log + [Row(w, x, from, Kind.Swap, key + "-OUT", Status.Success, None),
                                    Row(w, y, to, Kind.Swap, key + "-IN", Status.Success, None)])
  {
    var op := Op.Swap(user, from, to, x, y, key);
    TheBalance(db, w, from);
    TheBalance(db, w, to);
    TheReference(db.log, key + "-OUT");
    TheReference(db.log, key + "-IN");
    PerformIsAtomic(db, op);
    SwapAtomic(Abs(db), user, from, to, x, y, key, w);
    if Atomic(Abs(db), op).reply.Done? {
      MovesInBook(db, Perform(db, op).0, w, from, -x, w, to, y);
    }
  }

  lemma SwapRate(r: KeyedRequest)
    requires r.SwapRequest?
    ensures var y := if r.from == r.to then r.amountIn else r.amountIn * r.quote;
      Requested(r) == Op.Swap(r.user, r.from, r.to, r.amountIn, y, r.key)
  {
    assert r.amountIn * 1.0 == r.amountIn;
  }

  lemma TransferAtomic(b: Book, user: nat, account: string, c: string, x: real, key: string, w: nat, t: nat)
    requires WalletOfUser(b.wallets, user) == Some(w) && WalletOfAccount(b.wallets, account) == Some(t) && t != w
    ensures var o := Atomic(b, Op.Transfer(user, account, c, x, key));
      && o.reply == (if (w, c) !in b.balances then Rejected(NoSourceAsset)
                     else if BalanceOf(b, (w, c)) < x || BalanceOf(b, (t, c)) + x < 0.0 then Rejected(InsufficientFunds)
                     else if RefUsed(b.log, key + "-DEBIT") || RefUsed(b.log, key + "-CREDIT")
                     then Rejected(Database(UniqueViolation))
                     else Done)
      && (o.reply.Done? ==>
            && o.book.log == b.log + [Row(w, x, c, Kind.Transfer, key + "-DEBIT", Status.Success, None),
                                      Row(t, x, c, Kind.Transfer, key + "-CREDIT", Status.Success, None)]
            && BookMoves(b, o.book, (w, c), -x, (t, c), x))
  {
  }

  /** A transfer between two wallets: the sender loses and the recipient gains the amount asked for. */
  lemma TransferServed(s: Store, user: nat, account: string, c: string, x: real, key: string, quoted: bool,
                       w: nat, t: nat)
    requires Valid(s.db) && IsWalletOf(s.db, w, user) && IsAccount(s.db, t, account)
    ensures var (s', a) := Serve(s, Keyed(TransferRequest(user, account, c, x, key), quoted));
      && a == (if key in s.idemp then AlreadyProcessed
               else if t == w then Refused(SelfTransfer)
               else if !HasAsset(s.db, w, c) then Refused(NoSourceAsset)
               else if BalanceAt(s.db, w, c) < x || BalanceAt(s.db, t, c) + x < 0.0 then Refused(InsufficientFunds)
               else if Taken(s.db.log, key + "-DEBIT") || Taken(s.db.log, key + "-CREDIT") then AlreadyProcessed
               else Served)
      && (a.Served? ==>
            && Moves(s.db, s'.db, w, c, -x, t, c, x) && SamePeople(s.db, s'.db)
            && s'.db.log == s.db.log + [Row(w, x, c, Kind.Transfer, key + "-DEBIT", Status.Success, None),
                                        Row(t, x, c, Kind.Transfer, key + "-CREDIT", Status.Success, None)])
      && (!a.Served? ==> s'.db == s.db)
  {
    var op := Op.Transfer(user, account, c, x, key);
    TheWallet(s.db, w, user);
    TheAccount(s.db, t, account);
    assert t == w <==> s.db.wallets[t].userId == user;
    KeyedServed(s, TransferRequest(user, account, c, x, key), quoted, op);
    if t != w {
      TransferPerformed(s.db, user, account, c, x, key, w, t);
    }
  }

  lemma TransferPerformed(db: Db, user: nat, account: string, c: string, x: real, key: string, w: nat, t: nat)
    requires Valid(db) && WalletOfUser(db.wallets, user) == Some(w) && WalletOfAccount(db.wallets, account) == Some(t)
    requires t != w
    ensures var (db', done) := Perform(db, Op.Transfer(user, account, c, x, key));
      && done.reply == (if !HasAsset(db, w, c) then Rejected(NoSourceAsset)
                        else if BalanceAt(db, w, c) < x || BalanceAt(db, t, c) + x < 0.0
                        then Rejected(InsufficientFunds)
                        else if Taken(db.log, key + "-DEBIT") || Taken(db.log, key + "-CREDIT")
                        then Rejected(Database(UniqueViolation))
                        else Done)
      && (done.reply.Done? ==>
            && Moves(db, db', w, c, -x, t, c, x) && SamePeople(db, db')
            && db'.log == db.log + [Row(w, x, c, Kind.Transfer, key + "-DEBIT", Status.Success, None),
                                    Row(t, x, c, Kind.Transfer, key + "-CREDIT", Status.Success, None)])
  {
    var op := Op.Transfer(user, account, c, x, key);
    TheBalance(db, w, c);
    TheBalance(db, t, c);
    TheReference(db.log, key + "-DEBIT");
    TheReference(db.log, key + "-CREDIT");
    PerformIsAtomic(db, op);
    TransferAtomic(Abs(db), user, account, c, x, key, w, t);
    if Atomic(Abs(db), op).reply.Done? {
      MovesInBook(db, Perform(db, op).0, w, c, -x, t, c, x);
    }
  }

  /** A keyed request of a user without a wallet, or to an account that does not exist, is refused. */
  lemma NobodyServed(s: Store, r: KeyedRequest, quoted: bool)
    requires Valid(s.db) && r.key !in s.idemp
    ensures var (s', a) := Serve(s, Keyed(r, quoted));
      && ((forall w: nat :: !IsWalletOf(s.db, w, r.user)) && !r.TransferRequest? && !a.NoRate? ==>
            a == Refused(NoSourceAsset) && s' == s)
      && (r.TransferRequest? && r.user >= |s.db.users| ==> a == NotFound && s' == s)
      && (r.TransferRequest? && r.user < |s.db.users| && (forall t: nat :: !IsAccount(s.db, t, r.account)) ==>
            a == Refused(NoRecipient) && s' == s)
  {
    var w := WalletOfUser(s.db.wallets, r.user);
    if w.Some? {
      assert IsWalletOf(s.db, w.value, r.user);
    }
    if r.TransferRequest? {
      var t := WalletOfAccount(s.db.wallets, r.account);
      if t.Some? { assert IsAccount(s.db, t.value, r.account); }
    } else {
      PerformIsAtomic(s.db, Requested(r));
      RefusalKeepsDb(s.db, Requested(r));
    }
  }

  // ---- Withdrawals, and their refunds

  lemma WithdrawAtomic(b: Book, user: nat, c: string, x: real, ref: string, code: string, w: nat)
    requires WalletOfUser(b.wallets, user) == Some(w)
    ensures var o := Atomic(b, Withdraw(user, c, x, ref, code));
      && o.reply == (if (w, c) !in b.balances || BalanceOf(b, (w, c)) < x then Rejected(InsufficientFunds)
                     else if RefUsed(b.log, ref) then Rejected(Database(UniqueViolation))
                     else Done)
      && (o.reply.Done? ==>
            && o.book.log == b.log + [Row(w, x, c, Withdrawal, ref, Pending, Some(code))]
            && BookMoves(b, o.book, (w, c), -x, (w, c), 0.0))
  {
  }

  lemma WithdrawPerformed(db: Db, user: nat, c: string, x: real, ref: string, code: string, w: nat)
    requires Valid(db) && WalletOfUser(db.wallets, user) == Some(w)
    ensures var (db', done) := Perform(db, Withdraw(user, c, x, ref, code));
      && done.reply == (if !HasAsset(db, w, c) || BalanceAt(db, w, c) < x then Rejected(InsufficientFunds)
                        else if Taken(db.log, ref) then Rejected(Database(UniqueViolation))
                        else Done)
      && (done.reply.Done? ==>
            && MovesOne(db, db', w, c, -x) && SamePeople(db, db')
            && db'.log == db.log + [Row(w, x, c, Withdrawal, ref, Pending, Some(code))])
  {
    var op := Withdraw(user, c, x, ref, code);
    TheBalance(db, w, c);
    TheReference(db.log, ref);
    PerformIsAtomic(db, op);
    WithdrawAtomic(Abs(db), user, c, x, ref, code, w);
    if Atomic(Abs(db), op).reply.Done? {
      MovesInBook(db, Perform(db, op).0, w, c, -x, w, c, 0.0);
    }
  }

  /** The debit of a withdrawal, logged as pending under its reference and its transfer code. */
  lemma WithdrawServed(s: Store, user: nat, c: string, x: real, ref: string, code: string, w: nat)
    requires Valid(s.db) && IsWalletOf(s.db, w, user)
    ensures var (s', a) := Serve(s, WithdrawFunds(user, c, x, ref, code));
      && a == (if !HasAsset(s.db, w, c) || BalanceAt(s.db, w, c) < x then Refused(InsufficientFunds)
               else if Taken(s.db.log, ref) then Refused(Database(UniqueViolation))
               else Served)
      && (a.Served? ==>
            && MovesOne(s.db, s'.db, w, c, -x) && SamePeople(s.db, s'.db)
            && s'.db.log == s.db.log + [Row(w, x, c, Withdrawal, ref, Pending, Some(code))])
      && (!a.Served? ==> s'.db == s.db)
  {
    TheWallet(s.db, w, user);
    RefusalKeepsDb(s.db, Withdraw(user, c, x, ref, code));
    WithdrawPerformed(s.db, user, c, x, ref, code, w);
  }

  /** The first withdrawal logged under the code. */
  ghost predicate FirstUnder(log: seq<Row>, code: string, i: nat) {
    && i < |log| && log[i].kind == Withdrawal && log[i].gatewayRef == Some(code)
    && forall j :: 0 <= j < i ==> !(log[j].kind == Withdrawal && log[j].gatewayRef == Some(code))
  }

  lemma TheWithdrawal(log: seq<Row>, code: string, i: nat)
    ensures FindWithdrawal(log, code) == Some(i) <==> FirstUnder(log, code, i)
  {
  }

  /** A withdrawal is found again by the code it was made with, if and only if no earlier one has the code. */
  lemma WithdrawalIsFound(s: Store, user: nat, c: string, x: real, ref: string, code: string, w: nat)
    requires Valid(s.db) && IsWalletOf(s.db, w, user)
    ensures var (s', a) := Serve(s, WithdrawFunds(user, c, x, ref, code)); a.Served? ==>
      (FirstUnder(s'.db.log, code, |s.db.log|) <==> forall i: nat :: !FirstUnder(s.db.log, code, i))
  {
    WithdrawServed(s, user, c, x, ref, code, w);
    AppendFound(s.db.log, Row(w, x, c, Withdrawal, ref, Pending, Some(code)), code);
  }

  lemma AppendFound(log: seq<Row>, row: Row, code: string)
    requires row.kind == Withdrawal && row.gatewayRef == Some(code)
    ensures FirstUnder(log + [row], code, |log|) <==> forall i: nat :: !FirstUnder(log, code, i)
  {
    var log' := log + [row];
    assert forall j :: 0 <= j < |log| ==> log'[j] == log[j];
    if FirstUnder(log', code, |log|) {
      assert forall i: nat :: i < |log| ==> log'[i] == log[i] && !FirstUnder(log, code, i);
    } else {
      NoneFound(log, code);
    }
  }

  lemma NoneFound(log: seq<Row>, code: string)
    ensures (forall i: nat :: !FirstUnder(log, code, i))
      <==> forall j :: 0 <= j < |log| ==> !(log[j].kind == Withdrawal && log[j].gatewayRef == Some(code))
  {
    var k := FindWithdrawal(log, code);
    if k.Some? {
      TheWithdrawal(log, code, k.value);
    }
  }

  lemma RefundAtomic(b: Book, code: string, i: nat)
    requires FindWithdrawal(b.log, code) == Some(i)
    requires (b.log[i].walletId, b.log[i].currency) in b.balances
    ensures var o := Atomic(b, Refund(code)); var row := b.log[i]; var k := (row.walletId, row.currency);
      && o.reply == (if row.status != Status.Failed && BalanceOf(b, k) + row.amount < 0.0
                     then Rejected(Database(CheckViolation)) else Done)
      && (o.reply.Done? && row.status != Status.Failed ==>
            && BookMoves(b, o.book, k, row.amount, k, 0.0)
            && o.book.log == b.log[i := row.(status := Status.Failed)])
      && (row.status == Status.Failed ==> o.book == b)
  {
  }

  /** A failed or reversed transfer: the amount goes back to the wallet it left, once. */
  lemma RefundServed(s: Store, code: string, i: nat)
    requires Valid(s.db) && FirstUnder(s.db.log, code, i)
    ensures var (s', a) := Serve(s, RefundTransfer(code)); var row := s.db.log[i];
      && a == (if row.status != Status.Failed && BalanceAt(s.db, row.walletId, row.currency) + row.amount < 0.0
               then Refused(Database(CheckViolation)) else Served)
      && (a.Served? && row.status != Status.Failed ==>
            && MovesOne(s.db, s'.db, row.walletId, row.currency, row.amount) && SamePeople(s.db, s'.db)
            && s'.db.log == s.db.log[i := row.(status := Status.Failed)])
      && (row.status == Status.Failed || !a.Served? ==> s'.db == s.db)
  {
    var row := s.db.log[i];
    TheWithdrawal(s.db.log, code, i);
    RefusalKeepsDb(s.db, Refund(code));
    RefundPerformed(s.db, code, i);
  }

  lemma RefundPerformed(db: Db, code: string, i: nat)
    requires Valid(db) && FindWithdrawal(db.log, code) == Some(i)
    ensures var (db', done) := Perform(db, Refund(code)); var row := db.log[i];
      && done.reply == (if row.status != Status.Failed && BalanceAt(db, row.walletId, row.currency) + row.amount < 0.0
                        then Rejected(Database(CheckViolation)) else Done)
      && (done.reply.Done? && row.status != Status.Failed ==>
            && MovesOne(db, db', row.walletId, row.currency, row.amount) && SamePeople(db, db')
            && db'.log == db.log[i := row.(status := Status.Failed)])
      && (row.status == Status.Failed ==> db' == db)
  {
    var row := db.log[i];
    assert FindAsset(db, row.walletId, row.currency).Some?;
    TheBalance(db, row.walletId, row.currency);
    LookupAbs(db, row.walletId, row.currency);
    PerformIsAtomic(db, Refund(code));
    RefundAtomic(Abs(db), code, i);
    if Atomic(Abs(db), Refund(code)).reply.Done? && row.status != Status.Failed {
      var w, c := row.walletId, row.currency;
      MovesInBook(db, Perform(db, Refund(code)).0, w, c, row.amount, w, c, 0.0);
    }
  }

  /** A withdrawal and then the report that its transfer failed restore every balance, and mark its row FAILED. */
  lemma RefundRestores(s: Store, user: nat, c: string, x: real, ref: string, code: string, w: nat)
    requires Valid(s.db) && IsWalletOf(s.db, w, user) && forall i: nat :: !FirstUnder(s.db.log, code, i)
    ensures var (s1, a) := Serve(s, WithdrawFunds(user, c, x, ref, code));
      var (s2, b) := Serve(s1, RefundTransfer(code));
      a.Served? ==>
        && b.Served? && (forall v: nat, e :: BalanceAt(s2.db, v, e) == BalanceAt(s.db, v, e))
        && s2.db.log == s.db.log + [Row(w, x, c, Withdrawal, ref, Status.Failed, Some(code))]
  {
    var (s1, a) := Serve(s, WithdrawFunds(user, c, x, ref, code));
    if a.Served? {
      WithdrawServed(s, user, c, x, ref, code, w);
      WithdrawalIsFound(s, user, c, x, ref, code, w);
      PerformValid(s.db, Withdraw(user, c, x, ref, code));
      RefundServed(s1, code, |s.db.log|);
      TheBalance(s.db, w, c);
      NonNegative(s.db, w, c);
    }
  }

  lemma NonNegative(db: Db, w: nat, c: string)
    requires Valid(db)
    ensures BalanceAt(db, w, c) >= 0.0
  {
  }

  /** A code nobody withdrew under: nothing happens, and that is success. */
  lemma UnknownRefundServed(s: Store, code: string)
    requires Valid(s.db) && forall i: nat :: !FirstUnder(s.db.log, code, i)
    ensures Serve(s, RefundTransfer(code)) == (s, Served)
  {
    if FindWithdrawal(s.db.log, code).Some? {
      TheWithdrawal(s.db.log, code, FindWithdrawal(s.db.log, code).value);
    }
  }

  /** A confirmed transfer: every row with the code is SUCCESS afterwards, and nothing else changes. */
  lemma ConfirmServed(s: Store, code: string)
    ensures var (s', a) := Serve(s, ConfirmTransfer(code));
      && a == Served && s' == s.(db := s.db.(log := s'.db.log)) && |s'.db.log| == |s.db.log|
      && forall i :: 0 <= i < |s.db.log| ==>
           s'.db.log[i] == if s.db.log[i].gatewayRef == Some(code) then s.db.log[i].(status := Status.Success)
                           else s.db.log[i]
  {
    Batch1(s.db, SetStatusByGateway(code, Status.Success));
  }

  // ---- Payments through the gateway

  lemma CreditAtomic(b: Book, email: string, c: string, x: real, ref: string, u: nat, w: nat)
    requires FindUser(b.users, email) == Some(u) && WalletOfUser(b.wallets, u) == Some(w)
    ensures var o := Atomic(b, CreditByEmail(email, c, x, ref));
      && o.reply == (if BalanceOf(b, (w, c)) + x < 0.0 then Rejected(Database(CheckViolation)) else Done)
      && (o.reply.Done? && !RefUsed(b.log, ref) ==>
            && o.book.log == b.log + [Row(w, x, c, Kind.Deposit, ref, Status.Success, None)]
            && BookMoves(b, o.book, (w, c), x, (w, c), 0.0))
      && (RefUsed(b.log, ref) ==> o.book == b)
  {
  }

  lemma CreditPerformed(db: Db, email: string, c: string, x: real, ref: string, u: nat, w: nat)
    requires Valid(db) && IsEmailOf(db, u, email) && IsWalletOf(db, w, u)
    ensures var (db', done) := Perform(db, CreditByEmail(email, c, x, ref));
      && done.reply == (if BalanceAt(db, w, c) + x < 0.0 then Rejected(Database(CheckViolation)) else Done)
      && (done.reply.Done? && !Taken(db.log, ref) ==>
            && MovesOne(db, db', w, c, x) && SamePeople(db, db')
            && db'.log == db.log + [Row(w, x, c, Kind.Deposit, ref, Status.Success, None)])
      && (Taken(db.log, ref) ==>
            (forall v: nat, e :: BalanceAt(db', v, e) == BalanceAt(db, v, e)) && db'.log == db.log)
  {
    var op := CreditByEmail(email, c, x, ref);
    TheUser(db, u, email);
    TheWallet(db, w, u);
    TheBalance(db, w, c);
    TheReference(db.log, ref);
    PerformIsAtomic(db, op);
    CreditAtomic(Abs(db), email, c, x, ref, u, w);
    var db' := Perform(db, op).0;
    if RefUsed(db.log, ref) {
      MovesInBook(db, db', w, c, 0.0, w, c, 0.0);
    } else if Atomic(Abs(db), op).reply.Done? {
      MovesInBook(db, db', w, c, x, w, c, 0.0);
    }
  }

  /** A payment the gateway reports, by webhook or on verification: its amount reaches the payer's wallet, unless
      its reference was used before; then it is success without effect. */
  lemma PaymentServed(s: Store, r: Request, u: nat, w: nat)
    requires Valid(s.db) && (r.Charge? || r.VerifyAndCredit?) && IsEmailOf(s.db, u, r.email) && IsWalletOf(s.db, w, u)
    ensures var (s', a) := Serve(s, r);
      && a == (if BalanceAt(s.db, w, r.currency) + r.amount < 0.0 then Refused(Database(CheckViolation)) else Served)
      && (a.Served? && !Taken(s.db.log, r.reference) ==>
            && MovesOne(s.db, s'.db, w, r.currency, r.amount) && SamePeople(s.db, s'.db)
            && s'.db.log == s.db.log + [Row(w, r.amount, r.currency, Kind.Deposit, r.reference, Status.Success, None)])
      && (Taken(s.db.log, r.reference) ==>
            (forall v: nat, e :: BalanceAt(s'.db, v, e) == BalanceAt(s.db, v, e)) && s'.db.log == s.db.log)
      && (!a.Served? ==> s'.db == s.db)
  {
    RefusalKeepsDb(s.db, CreditByEmail(r.email, r.currency, r.amount, r.reference));
    CreditPerformed(s.db, r.email, r.currency, r.amount, r.reference, u, w);
  }

  /** A payment of an unknown email, or of a user without a wallet, is refused. */
  lemma StrangerServed(s: Store, r: Request)
    requires Valid(s.db) && (r.Charge? || r.VerifyAndCredit?)
    ensures var (s', a) := Serve(s, r);
      && ((forall u: nat :: !IsEmailOf(s.db, u, r.email)) ==> a == Refused(UserNotFound) && s'.db == s.db)
      && (forall u: nat :: IsEmailOf(s.db, u, r.email) && (forall w: nat :: !IsWalletOf(s.db, w, u)) ==>
            a == Refused(NoWallet) && s'.db == s.db)
  {
    var u := FindUser(s.db.users, r.email);
    if u.Some? {
      assert IsEmailOf(s.db, u.value, r.email);
      var w := WalletOfUser(s.db.wallets, u.value);
      if w.Some? { assert IsWalletOf(s.db, w.value, u.value); }
    }
    forall v: nat | IsEmailOf(s.db, v, r.email)
      ensures u == Some(v)
    {
      TheUser(s.db, v, r.email);
    }
  }

  // ---- Webhook bodies

  /** What the worker does with a body: a body that does not decode is an error, one of no concern is success
      without effect, and the others are the requests they report, amounts in minor units. In an outage nothing
      happens, and only a failed transfer passes for processed. */
  lemma BodyProcessed(s: Store, p: Payload, outage: bool)
    ensures p.content.None? ==> Processed(s, p, outage) == (s, false)
    ensures IsIgnored(p) ==> Processed(s, p, outage) == (s, true)
    ensures ReportsCharge(p) ==>
      var c := p.content.value; var (s', a) := Serve(s, Charge(c.email, c.currency, c.amount / 100.0, p.reference));
      Processed(s, p, outage) == if outage then (s, false) else (s', a == Served)
    ensures ReportsTransfer(p) ==>
      var (s', a) := Serve(s, ConfirmTransfer(p.content.value.code));
      Processed(s, p, outage) == if outage then (s, false) else (s', a == Served)
    ensures ReportsFailure(p) ==>
      var (s', a) := Serve(s, RefundTransfer(p.content.value.code));
      Processed(s, p, outage) == if outage then (s, true) else (s', a == Served)
  {
  }
}
