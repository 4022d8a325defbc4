/** The log as a journal of operations: which rows an operation writes, for whom, and when it writes them. */
module Journal {
  import opened Tables
  import opened Book
  import opened Calls
  import opened Refinement

  /** The m-th row of an operation, booked on wallet w. */
  function Leg(op: Op, m: nat, w: nat): Row
    requires m < |Refs(op)|
  {
    match op
    case Fund(_, c, x, ref) => DepositRow(w, c, x, ref)
    case CreditByEmail(_, c, x, ref) => DepositRow(w, c, x, ref)
    case Withdraw(_, c, x, ref, code) => WithdrawalRow(w, c, x, ref, code)
    case Swap(_, from, to, x, y, key) =>
      var rows := SwapRows(w, from, to, x, y, key);
      if m == 0 then rows.0 else rows.1
    case Transfer(_, _, c, x, key) =>
      var rows := TransferRows(w, w, c, x, key);
      if m == 0 then rows.0 else rows.1
  }

  /** The wallet is that of the party the row is about. */
  ghost predicate LegOwner(users: seq<User>, wallets: seq<Wallet>, op: Op, m: nat, w: nat) {
    match op
    case Fund(user, _, _, _) => Owns(wallets, user, w)
    case Swap(user, _, _, _, _, _) => Owns(wallets, user, w)
    case Withdraw(user, _, _, _, _) => Owns(wallets, user, w)
    case CreditByEmail(email, _, _, _) => FindUser(users, email).Some? && Owns(wallets, FindUser(users, email).value, w)
    case Transfer(user, account, _, _, _) =>
      if m == 0 then Owns(wallets, user, w) else w < |wallets| && wallets[w].accountNumber == account
    case _ => false
  }

  /** The row is the m-th of the operation, in all but its status. */
  ghost predicate IsLeg(users: seq<User>, wallets: seq<Wallet>, op: Op, m: nat, row: Row) {
    m < |Refs(op)| && SameIdentity(Leg(op, m, row.walletId), row) && LegOwner(users, wallets, op, m, row.walletId)
  }

  lemma LegReference(op: Op, m: nat, w: nat)
    requires m < |Refs(op)|
    ensures Leg(op, m, w).reference == Refs(op)[m]
  {
  }

  /** Users and wallets only grow, so a row stays what it is. */
  lemma IsLegKept(db: Db, db': Db, op: Op, m: nat, row: Row, row': Row)
    requires IsLeg(db.users, db.wallets, op, m, row) && Extends(db, db') && SameIdentity(row, row')
    ensures IsLeg(db'.users, db'.wallets, op, m, row')
  {
    if op.CreditByEmail? {
      FindUserKept(db.users, db'.users, op.email);
    }
  }

  /** The log after a posted operation is the log before and the operation's rows. */
  ghost predicate LogsLegs(b: Book, op: Op, log: seq<Row>) {
    && |log| == |b.log| + |Refs(op)| && b.log <= log
    && forall k :: |b.log| <= k < |log| ==> IsLeg(b.users, b.wallets, op, k - |b.log|, log[k])
  }

  lemma PostedLegs(b: Book, op: Op)
    requires Atomic(b, op).effect.Posted?
    ensures LogsLegs(b, op, Atomic(b, op).book.log)
  {
    if op.Swap? || op.Transfer? {
      PostedTwo(b, op);
    } else {
      var row := Atomic(b, op).book.log[|b.log|];
      assert IsLeg(b.users, b.wallets, op, 0, row);
    }
  }

  lemma PostedTwo(b: Book, op: Op)
    requires (op.Swap? || op.Transfer?) && Atomic(b, op).effect.Posted?
    ensures LogsLegs(b, op, Atomic(b, op).book.log)
  {
    var log := Atomic(b, op).book.log;
    assert IsLeg(b.users, b.wallets, op, 0, log[|b.log|]);
    assert IsLeg(b.users, b.wallets, op, 1, log[|b.log| + 1]);
  }

  // ---- When an operation posts

  /** All that can stop the operation is a reference already taken: with an empty log it would post. */
  predicate Affordable(b: Book, op: Op) { Atomic(b.(log := []), op).effect.Posted? }

  predicate AnyRefUsed(log: seq<Row>, op: Op) {
    exists m :: 0 <= m < |Refs(op)| && RefUsed(log, Refs(op)[m])
  }

  /** An affordable operation posts if and only if none of its references is in the log. Otherwise it changes
      nothing, and all but the credit by email, which calls it success, answer that it is a duplicate. */
  lemma PostsUnlessUsed(b: Book, op: Op)
    requires Affordable(b, op)
    ensures var o := Atomic(b, op);
      && (o.effect.Posted? <==> !AnyRefUsed(b.log, op))
      && (!o.effect.Posted? ==> o.book == b && o.effect == Nothing)
      && (!o.effect.Posted? ==> o.reply == if op.CreditByEmail? then Done else Rejected(Database(UniqueViolation)))
  {
    if |Refs(op)| == 1 {
      assert AnyRefUsed(b.log, op) <==> RefUsed(b.log, Refs(op)[0]);
    } else {
      assert AnyRefUsed(b.log, op) <==> RefUsed(b.log, Refs(op)[0]) || RefUsed(b.log, Refs(op)[1]);
    }
  }

  /** An operation with a reference in the log never posts. */
  lemma UsedNeverPosts(b: Book, op: Op)
    requires AnyRefUsed(b.log, op)
    ensures Atomic(b, op).book == b && Atomic(b, op).effect == Nothing
  {
    if |Refs(op)| == 1 {
      assert RefUsed(b.log, Refs(op)[0]);
    } else {
      assert RefUsed(b.log, Refs(op)[0]) || RefUsed(b.log, Refs(op)[1]);
    }
  }

  /** After a posted operation all its references are in the log. */
  lemma PostedUses(b: Book, op: Op, m: nat)
    requires Atomic(b, op).effect.Posted? && m < |Refs(op)|
    ensures !RefUsed(b.log, Refs(op)[m]) && RefUsed(Atomic(b, op).book.log, Refs(op)[m])
  {
    PostedLegs(b, op);
    var row := Atomic(b, op).book.log[|b.log| + m];
    LegReference(op, m, row.walletId);
    assert RowHasReference(Refs(op)[m])(row);
  }

  /** A credit that answers Done has its reference in the log: from now on, or from before. */
  lemma CreditDone(b: Book, op: Op)
    requires op.CreditByEmail? && Atomic(b, op).reply.Done?
    ensures RefUsed(Atomic(b, op).book.log, op.reference)
  {
    if Atomic(b, op).effect.Posted? {
      PostedUses(b, op, 0);
    }
  }

  /** A committed batch logs exactly the rows of its operation, reference by reference and wallet by wallet. */
  lemma SubmitLogsLegs(db: Db, call: Call)
    requires Valid(db) && call.Ready? && CallOk(db, call)
    ensures var (db', done) := Submit(db, call);
      if done.effect.Posted? then LogsLegs(Abs(db), call.op, db'.log)
      else |db'.log| == |db.log|
  {
    SubmitSimulates(db, call);
    SubmitKeeps(db, call);
    if Submit(db, call).1.effect.Posted? {
      PostedLegs(Abs(db), call.op);
    }
  }
}
