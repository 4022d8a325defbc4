/** A run of the backend that refunds one withdrawal twice: bodies without a reference take no lock, so a
    success and two failure bodies of one transfer code all reach the worker. */
module AppRevival {
  import opened Prelude
  import opened Tables
  import opened Book
  import opened Calls
  import opened Refinement
  import opened Webhooks
  import opened App
  import opened AppCore
  import opened AppScripts
  import opened AppRefunds

  lemma OneMoreRefund(lin: seq<Entry>, l: Entry, row: nat)
    ensures Refunds(lin + [l], row) == Refunds(lin, row) + if l.effect == Refunded(row) then 1 else 0
  {
    assert (lin + [l])[..|lin|] == lin;
  }

  lemma {:induction false} NoRefunds(lin: seq<Entry>, row: nat)
    requires forall i :: 0 <= i < |lin| ==> !lin[i].effect.Refunded?
    ensures Refunds(lin, row) == 0
  {
    if lin != [] {
      NoRefunds(lin[..|lin| - 1], row);
    }
  }

  /** A body about a transfer, without a reference. */
  function Report(event: string, code: string): Payload {
    Payload("", Some(Content(event, "", code, "", 0.0, "")))
  }

  function ThreeReports(id: nat, code: string): seq<Event> {
    BodyEvents(id, Report("transfer.failed", code))
    + BodyEvents(id + 1, Report("transfer.success", code))
    + BodyEvents(id + 2, Report("transfer.reversed", code))
  }

  /** From every reachable quiet state, three reports without a reference refund any open withdrawal of a
      non-negative amount twice. */
  lemma ReportsRefundTwice(trace: seq<Event>, id: nat, code: string)
    requires Quiet(Run(trace), id)
    requires var log := Run(trace).db.log; var i := FindWithdrawal(log, code);
      i.Some? && log[i.value].status != Status.Failed && log[i.value].amount >= 0.0
    ensures var s, s' := Run(trace), Run(trace + ThreeReports(id, code));
      var i := FindWithdrawal(s.db.log, code).value; var k := (s.db.log[i].walletId, s.db.log[i].currency);
      && Refunds(s'.lin, i) == Refunds(s.lin, i) + 2
      && BalanceOf(Abs(s'.db), k) == BalanceOf(Abs(s.db), k) + s.db.log[i].amount + s.db.log[i].amount
  {
    RunIsValid(trace);
    RefundTwiceFrom(Run(trace), id, code);
    RunConcat(INIT, trace, ThreeReports(id, code));
  }

  lemma RefundTwiceFrom(s: State, id: nat, code: string)
    requires Core(s) && Quiet(s, id)
    requires var i := FindWithdrawal(s.db.log, code);
      i.Some? && s.db.log[i.value].status != Status.Failed && s.db.log[i.value].amount >= 0.0
    ensures var s' := RunFrom(s, ThreeReports(id, code));
      var i := FindWithdrawal(s.db.log, code).value; var k := (s.db.log[i].walletId, s.db.log[i].currency);
      && Refunds(s'.lin, i) == Refunds(s.lin, i) + 2
      && BalanceOf(Abs(s'.db), k) == BalanceOf(Abs(s.db), k) + s.db.log[i].amount + s.db.log[i].amount
  {
    OpenWithdrawal(s.db, code);
    RevivedIsRefundedTwice(Abs(s.db), code);
    ReportsInTurn(s, id, code);
  }

  /** The operation ran alone and refunded what the atomic operation refunds. */
  ghost predicate RefundedAlone(s: State, s': State, id: nat, op: Op) {
    var o := Atomic(Abs(s.db), op);
    && Core(s') && Quiet(s', id + 1) && Abs(s'.db) == o.book
    && forall row: nat :: Refunds(s'.lin, row) == Refunds(s.lin, row) + if o.effect == Refunded(row) then 1 else 0
  }

  lemma ReportAlone(s: State, id: nat, p: Payload, op: Op)
    requires Core(s) && Quiet(s, id) && p.reference == "" && OpOf(p) == Some(op)
    requires Atomic(Abs(s.db), op).reply.Done? && !op.Transfer?
    ensures RefundedAlone(s, RunFrom(s, BodyEvents(id, p)), id, op)
  {
    BodyAlone(s, id, p, op);
    var s' := RunFrom(s, BodyEvents(id, p));
    var author :| DidAlone(s, s', id, op, author);
    forall row: nat
      ensures Refunds(s'.lin, row)
        == Refunds(s.lin, row) + if Atomic(Abs(s.db), op).effect == Refunded(row) then 1 else 0
    {
      OneMoreRefund(s.lin, s'.lin[|s.lin|], row);
    }
  }

  /** The three reports are the three atomic operations in turn. */
  lemma ReportsInTurn(s: State, id: nat, code: string)
    requires Core(s) && Quiet(s, id)
    requires var o1 := Atomic(Abs(s.db), Refund(code)); var o2 := Atomic(o1.book, MarkSuccess(code));
      o1.reply.Done? && Atomic(o2.book, Refund(code)).reply.Done?
    ensures var s' := RunFrom(s, ThreeReports(id, code));
      var o1 := Atomic(Abs(s.db), Refund(code)); var o2 := Atomic(o1.book, MarkSuccess(code));
      var o3 := Atomic(o2.book, Refund(code));
      && Abs(s'.db) == o3.book
      && forall row: nat :: Refunds(s'.lin, row)
           == Refunds(s.lin, row) + (if o1.effect == Refunded(row) then 1 else 0)
              + (if o3.effect == Refunded(row) then 1 else 0)
  {
    var a, b, c := Report("transfer.failed", code), Report("transfer.success", code), Report("transfer.reversed", code);
    var s1 := RunFrom(s, BodyEvents(id, a));
    var s2 := RunFrom(s1, BodyEvents(id + 1, b));
    FailedThenSuccess(s, id, code);
    ReportAlone(s2, id + 2, c, Refund(code));
    var s3 := RunFrom(s2, BodyEvents(id + 2, c));
    RunInTurn(s, BodyEvents(id, a), BodyEvents(id + 1, b), BodyEvents(id + 2, c));
    ThreeAlone(s, s1, s2, s3, id, Refund(code), MarkSuccess(code));
  }

  lemma FailedThenSuccess(s: State, id: nat, code: string)
    requires Core(s) && Quiet(s, id) && Atomic(Abs(s.db), Refund(code)).reply.Done?
    ensures var s1 := RunFrom(s, BodyEvents(id, Report("transfer.failed", code)));
      && RefundedAlone(s, s1, id, Refund(code))
      && RefundedAlone(s1, RunFrom(s1, BodyEvents(id + 1, Report("transfer.success", code))), id + 1, MarkSuccess(code))
  {
    var a, b := Report("transfer.failed", code), Report("transfer.success", code);
    ReportAlone(s, id, a, Refund(code));
    ReportAlone(RunFrom(s, BodyEvents(id, a)), id + 1, b, MarkSuccess(code));
  }

  lemma ThreeAlone(s: State, s1: State, s2: State, s3: State, id: nat, refund: Op, mark: Op)
    requires mark.MarkSuccess?
    requires RefundedAlone(s, s1, id, refund) && RefundedAlone(s1, s2, id + 1, mark)
    requires RefundedAlone(s2, s3, id + 2, refund)
    ensures var o1 := Atomic(Abs(s.db), refund); var o2 := Atomic(o1.book, mark); var o3 := Atomic(o2.book, refund);
      && Abs(s3.db) == o3.book
      && forall row: nat :: Refunds(s3.lin, row)
           == Refunds(s.lin, row) + (if o1.effect == Refunded(row) then 1 else 0)
              + (if o3.effect == Refunded(row) then 1 else 0)
  {
    assert Atomic(Abs(s1.db), mark).effect.Marked?;
  }

  lemma RunInTurn(s: State, a: seq<Event>, b: seq<Event>, c: seq<Event>)
    ensures RunFrom(s, a + b + c) == RunFrom(RunFrom(RunFrom(s, a), b), c)
  {
    RunConcat(s, a + b, c);
    RunConcat(s, a, b);
  }

  lemma OpenWithdrawal(db: Db, code: string)
    requires Valid(db) && FindWithdrawal(db.log, code).Some?
    ensures var row := db.log[FindWithdrawal(db.log, code).value]; var k := (row.walletId, row.currency);
      k in Abs(db).balances && Abs(db).balances[k] >= 0.0
  {
    var i := FindWithdrawal(db.log, code).value;
    assert FindAsset(db, db.log[i].walletId, db.log[i].currency).Some?;
    LookupAbs(db, db.log[i].walletId, db.log[i].currency);
  }

  // ---- Such a state is reachable

  /** One user with a funded wallet, and one open withdrawal of 1 with code "t". */
  function Opening(): seq<Event> {
    Enrolling() + DirectEvents(3, CreditByEmail("u", "NGN", 1.0, "d"))
    + DirectEvents(4, Withdraw(0, "NGN", 1.0, "w", "t"))
  }

  const FUNDED := ENROLLED.(balances := map[(0, "NGN") := 1.0], log := [DepositRow(0, "NGN", 1.0, "d")])
  const OPENED := ENROLLED.(log := [DepositRow(0, "NGN", 1.0, "d"), WithdrawalRow(0, "NGN", 1.0, "w", "t")])

  lemma AtomicOpened()
    ensures var o := Atomic(ENROLLED, CreditByEmail("u", "NGN", 1.0, "d")); o.book == FUNDED
    ensures var o := Atomic(FUNDED, Withdraw(0, "NGN", 1.0, "w", "t")); o.book == OPENED
  {
    assert FindUser(ENROLLED.users, "u") == Some(0) && WalletOfUser(ENROLLED.wallets, 0) == Some(0);
  }

  lemma OpeningReaches()
    ensures Reaches(Opening(), 5, OPENED)
  {
    EnrollingReaches();
    AtomicOpened();
    Reached(Enrolling(), 3, ENROLLED, CreditByEmail("u", "NGN", 1.0, "d"), FUNDED);
    Reached(Enrolling() + DirectEvents(3, CreditByEmail("u", "NGN", 1.0, "d")), 4, FUNDED,
            Withdraw(0, "NGN", 1.0, "w", "t"), OPENED);
  }

  /** Some run from the empty backend refunds one withdrawal twice. */
  lemma TwiceRefundedIsReachable()
    ensures exists trace, row: nat :: Refunds(Run(trace).lin, row) == 2
  {
    OpeningReaches();
    var log := Run(Opening()).db.log;
    assert log[1].gatewayRef == Some("t") && log[0].gatewayRef == None;
    assert FindWithdrawal(log, "t") == Some(1);
    ReportsRefundTwice(Opening(), 5, "t");
    NoRefunds(Run(Opening()).lin, 1);
    assert Refunds(Run(Opening() + ThreeReports(5, "t")).lin, 1) == 2;
  }
}
