/** Refunds end to end: any mix of duplicate, success, failed and reversed deliveries refunds a withdrawal
    at most once and never revives a refunded one. */
module AppRefunds {
  import opened Prelude
  import opened Tables
  import opened Book
  import opened Calls
  import opened Integrity
  import opened Refinement
  import opened Reconcile
  import opened Webhooks
  import opened JobQueue
  import opened App
  import opened AppCore
  import opened AppLedger
  import opened AppWebhooks

  /** The transfer code a body is about, if the worker will act on a transfer. */
  function TransferCode(p: Payload): Option<string> {
    var op := OpOf(p);
    if op.Some? && op.value.MarkSuccess? then Some(op.value.code)
    else if op.Some? && op.value.Refund? then Some(op.value.code)
    else None
  }

  /** The gateway carries each transfer code with one non-empty reference. */
  predicate Carried(refs: map<string, string>, p: Payload) {
    var code := TransferCode(p);
    code.Some? ==> code.value in refs && refs[code.value] == p.reference && p.reference != ""
  }

  /** The hypotheses on the environment, event by event: bodies carry their references, and the locks of
      those references are neither lost nor used as client keys. */
  ghost predicate Behaves(e: Event, refs: map<string, string>) {
    && (e.Deliver? ==> Carried(refs, e.payload))
    && (forall code :: code in refs ==> Protects(e, refs[code]))
  }

  ghost predicate AllBehave(trace: seq<Event>, refs: map<string, string>) {
    forall k :: 0 <= k < |trace| ==> Behaves(trace[k], refs)
  }

  // ---- Bodies in the system are as delivered

  ghost predicate BodiesCarried(s: State, refs: map<string, string>) {
    && (forall t :: 0 <= t < |s.queue.sent| ==> Carried(refs, s.queue.sent[t]))
    && (forall id :: id in s.threads && s.threads[id].Handler? ==> Carried(refs, s.threads[id].payload))
  }

  lemma {:induction false} RunBodiesCarried(trace: seq<Event>, refs: map<string, string>)
    requires AllBehave(trace, refs)
    ensures BodiesCarried(Run(trace), refs)
  {
    if trace != [] {
      var before := trace[..|trace| - 1];
      RunBodiesCarried(before, refs);
      assert Behaves(trace[|trace| - 1], refs);
      NextBodiesCarried(Run(before), trace[|trace| - 1], refs);
    }
  }

  lemma NextBodiesCarried(s: State, e: Event, refs: map<string, string>)
    requires BodiesCarried(s, refs) && Behaves(e, refs)
    ensures BodiesCarried(Next(s, e), refs)
  {
  }

  /** Of each transfer code, at most one body is ever enqueued: success and failure exclude each other. */
  lemma OneBodyPerCode(trace: seq<Event>, refs: map<string, string>, t: nat, u: nat)
    requires AllBehave(trace, refs)
    requires t < |Run(trace).queue.sent| && u < |Run(trace).queue.sent|
    requires TransferCode(Run(trace).queue.sent[t]).Some?
    requires TransferCode(Run(trace).queue.sent[t]) == TransferCode(Run(trace).queue.sent[u])
    ensures t == u
  {
    RunBodiesCarried(trace, refs);
    var sent := Run(trace).queue.sent;
    var code := TransferCode(sent[t]).value;
    assert Carried(refs, sent[t]) && Carried(refs, sent[u]);
    forall k | 0 <= k < |trace|
      ensures Protects(trace[k], refs[code])
    {
      assert Behaves(trace[k], refs);
    }
    EnqueuedAtMostOnce(trace, refs[code], t, u);
  }

  // ---- A refunded row has a failure job behind it

  ghost predicate FailureSent(sent: seq<Payload>, code: string) {
    exists t :: 0 <= t < |sent| && OpOf(sent[t]) == Some(Refund(code))
  }

  /** A FAILED row is a withdrawal whose code was reported failed or reversed. */
  ghost predicate FailedReported(s: State) {
    forall i :: 0 <= i < |s.db.log| && s.db.log[i].status == Status.Failed ==>
      s.db.log[i].gatewayRef.Some? && FailureSent(s.queue.sent, s.db.log[i].gatewayRef.value)
  }

  /** Which rows an atomic operation leaves FAILED. */
  lemma AtomicFailed(b: Book, op: Op)
    ensures var o := Atomic(b, op);
      && |b.log| <= |o.book.log|
      && (o.effect.Refunded? ==>
            && op.Refund? && o.effect.row < |b.log| && b.log[o.effect.row].status != Status.Failed
            && b.log[o.effect.row].gatewayRef == Some(op.code))
      && forall i :: 0 <= i < |o.book.log| && o.book.log[i].status == Status.Failed ==>
           (o.effect == Refunded(i) && o.book.log[i].gatewayRef == Some(op.code))
           || (i < |b.log| && b.log[i].status == Status.Failed && b.log[i].gatewayRef == o.book.log[i].gatewayRef)
  {
    if !Restamps(op) {
      AppendsUnfailed(b, op);
    }
  }

  lemma ThreadsNeverRestamp(s: State, e: Event)
    requires Core(s)
    ensures Acting(s, e).Some? && Caller(e).Some? ==> !Restamps(Acting(s, e).value.op)
  {
    if Acting(s, e).Some? && Caller(e).Some? {
      assert ThreadOk(s.db, s.threads[e.id]);
    }
  }

  /** A refund or status step is the worker's, on the body of its current job. */
  lemma RestampIsWorkers(s: State, e: Event)
    requires Core(s) && Acting(s, e).Some? && Restamps(Acting(s, e).value.op)
    ensures s.queue.current.Some? && OpOf(s.queue.current.value.payload) == Some(Acting(s, e).value.op)
  {
    ThreadsNeverRestamp(s, e);
  }

  lemma SentGrows(s: State, e: Event)
    ensures |s.queue.sent| <= |Next(s, e).queue.sent|
    ensures forall t :: 0 <= t < |s.queue.sent| ==> Next(s, e).queue.sent[t] == s.queue.sent[t]
  {
  }

  lemma FailureStays(s: State, e: Event, code: string)
    requires FailureSent(s.queue.sent, code)
    ensures FailureSent(Next(s, e).queue.sent, code)
  {
    SentGrows(s, e);
    var t :| 0 <= t < |s.queue.sent| && OpOf(s.queue.sent[t]) == Some(Refund(code));
    assert OpOf(Next(s, e).queue.sent[t]) == Some(Refund(code));
  }

  lemma NextFailedReported(s: State, e: Event)
    requires Core(s) && Conserved(s.queue) && FailedReported(s)
    ensures FailedReported(Next(s, e))
  {
    var s' := Next(s, e);
    StepRefines(s, e);
    forall i | 0 <= i < |s'.db.log| && s'.db.log[i].status == Status.Failed
      ensures s'.db.log[i].gatewayRef.Some? && FailureSent(s'.queue.sent, s'.db.log[i].gatewayRef.value)
    {
      if s'.lin == s.lin {
        FailureStays(s, e, s.db.log[i].gatewayRef.value);
      } else {
        var op := Acting(s, e).value.op;
        AtomicFailed(Abs(s.db), op);
        if Atomic(Abs(s.db), op).effect == Refunded(i) {
          RestampIsWorkers(s, e);
          var j := s.queue.current.value;
          assert OpOf(s.queue.sent[j.tag]) == Some(Refund(op.code));
          FailureStays(s, e, op.code);
        } else {
          FailureStays(s, e, s.db.log[i].gatewayRef.value);
        }
      }
    }
  }

  lemma {:induction false} RunFailedReported(trace: seq<Event>)
    ensures FailedReported(Run(trace))
  {
    if trace != [] {
      var before := trace[..|trace| - 1];
      RunFailedReported(before);
      RunIsValid(before);
      RunQueue(before);
      NextFailedReported(Run(before), trace[|trace| - 1]);
    }
  }

  /** In a well-behaved environment no transfer.success is processed for a refunded row: the proviso of
      reconciliation and conservation holds. */
  lemma BehavedNeverRevives(trace: seq<Event>, refs: map<string, string>)
    requires AllBehave(trace, refs)
    ensures NeverRevives(trace)
  {
    forall k | 0 <= k < |trace|
      ensures !Revives(Run(trace[..k]), trace[k])
    {
      var before := trace[..k];
      if Revives(Run(before), trace[k]) {
        SuccessExcluded(before, refs, trace[k]);
      }
    }
  }

  lemma SuccessExcluded(before: seq<Event>, refs: map<string, string>, e: Event)
    requires AllBehave(before, refs) && Acting(Run(before), e).Some?
    requires Acting(Run(before), e).value.op.MarkSuccess?
    ensures NoneFailed(Run(before).db.log, Acting(Run(before), e).value.op.code)
  {
    var s := Run(before);
    var code := Acting(s, e).value.op.code;
    RunIsValid(before);
    RunQueue(before);
    RunFailedReported(before);
    RestampIsWorkers(s, e);
    var t := s.queue.current.value.tag;
    assert OpOf(s.queue.sent[t]) == Some(MarkSuccess(code));
    forall i | 0 <= i < |s.db.log| && s.db.log[i].gatewayRef == Some(code)
      ensures s.db.log[i].status != Status.Failed
    {
      if s.db.log[i].status == Status.Failed {
        var u :| 0 <= u < |s.queue.sent| && OpOf(s.queue.sent[u]) == Some(Refund(code));
        OneBodyPerCode(before, refs, t, u);
      }
    }
  }

  // ---- Counting refunds

  function Refunds(lin: seq<Entry>, row: nat): nat {
    if lin == [] then 0
    else Refunds(lin[..|lin| - 1], row) + (if lin[|lin| - 1].effect == Refunded(row) then 1 else 0)
  }

  /** The event is a transfer.success that finds the row FAILED and sets it to SUCCESS. */
  predicate RevivesRow(s: State, e: Event, row: nat) {
    var c := Acting(s, e);
    && c.Some? && c.value.Ready? && c.value.op.MarkSuccess?
    && row < |s.db.log| && s.db.log[row].status == Status.Failed && s.db.log[row].gatewayRef == Some(c.value.op.code)
  }

  function Revivals(trace: seq<Event>, row: nat): nat {
    if trace == [] then 0
    else
      var before := trace[..|trace| - 1];
      Revivals(before, row) + (if RevivesRow(Run(before), trace[|trace| - 1], row) then 1 else 0)
  }

  predicate IsFailed(log: seq<Row>, row: nat) { row < |log| && log[row].status == Status.Failed }

  /** Exactly when an atomic operation leaves a row FAILED. */
  lemma AtomicFailedExactly(b: Book, op: Op, row: nat)
    ensures var o := Atomic(b, op);
      && (IsFailed(o.book.log, row) <==>
            o.effect == Refunded(row)
            || (IsFailed(b.log, row) && !(op.MarkSuccess? && b.log[row].gatewayRef == Some(op.code))))
      && (o.effect == Refunded(row) ==> !IsFailed(b.log, row))
  {
    if !Restamps(op) {
      AppendsUnfailed(b, op);
    }
  }

  /** All operations but refund and confirmation only append, and no FAILED row. */
  lemma AppendsUnfailed(b: Book, op: Op)
    requires !Restamps(op)
    ensures var o := Atomic(b, op);
      && b.log <= o.book.log && !o.effect.Refunded?
      && forall i :: |b.log| <= i < |o.book.log| ==> o.book.log[i].status != Status.Failed
  {
  }

  lemma NextRefunds(s: State, e: Event, row: nat)
    requires Core(s)
    ensures var s' := Next(s, e);
      Refunds(s'.lin, row) + (if IsFailed(s.db.log, row) then 1 else 0)
        == Refunds(s.lin, row) + (if RevivesRow(s, e, row) then 1 else 0) + (if IsFailed(s'.db.log, row) then 1 else 0)
  {
    var s' := Next(s, e);
    StepRefines(s, e);
    NextShape(s, e);
    if s'.lin != s.lin {
      var op := Acting(s, e).value.op;
      AtomicFailedExactly(Abs(s.db), op, row);
      assert s'.lin[..|s'.lin| - 1] == s.lin;
      assert op.MarkSuccess? ==> Acting(s, e).value.Ready? || FirstRead(s.db, op) == Ready(op, NoPlan);
    }
  }

  /** The account of every run, with no hypothesis: a row was refunded once for each time a transfer.success
      revived it, and once more if it is FAILED now. */
  lemma {:induction false} RefundsAccount(trace: seq<Event>, row: nat)
    ensures Refunds(Run(trace).lin, row) == Revivals(trace, row) + if IsFailed(Run(trace).db.log, row) then 1 else 0
  {
    if trace != [] {
      var before := trace[..|trace| - 1];
      RefundsAccount(before, row);
      RunIsValid(before);
      NextRefunds(Run(before), trace[|trace| - 1], row);
    }
  }

  /** So a row that was never revived was refunded at most once, and a row refunded more than once was revived. */
  lemma RefundedOnceExactly(trace: seq<Event>, row: nat)
    ensures Refunds(Run(trace).lin, row) <= 1
      <==> Revivals(trace, row) == 0 || (Revivals(trace, row) == 1 && !IsFailed(Run(trace).db.log, row))
  {
    RefundsAccount(trace, row);
  }

  lemma {:induction false} NoRevivals(trace: seq<Event>, row: nat)
    requires NeverRevives(trace)
    ensures Revivals(trace, row) == 0
  {
    if trace != [] {
      NeverRevivesPrefix(trace);
      NoRevivals(trace[..|trace| - 1], row);
    }
  }

  /** End to end: whatever is delivered, duplicated, retried, or fails before or after its commit, a
      withdrawal is refunded at most once, exactly when its row is FAILED, and it stays FAILED. */
  lemma RefundedAtMostOnce(trace: seq<Event>, refs: map<string, string>, row: nat)
    requires AllBehave(trace, refs)
    ensures Refunds(Run(trace).lin, row) <= 1
    ensures Refunds(Run(trace).lin, row) == 1 <==> IsFailed(Run(trace).db.log, row)
    ensures NeverRevives(trace) && Reconciled(Run(trace).db)
  {
    BehavedNeverRevives(trace, refs);
    NoRevivals(trace, row);
    RefundsAccount(trace, row);
    RunReconciled(trace);
  }

  /** In every later state too. */
  lemma {:induction false} FailedIsForever(trace: seq<Event>, more: seq<Event>, refs: map<string, string>, row: nat)
    requires AllBehave(trace + more, refs)
    requires IsFailed(Run(trace).db.log, row)
    ensures IsFailed(Run(trace + more).db.log, row)
  {
    if more == [] {
      assert trace + more == trace;
    } else {
      var all := trace + more;
      var before := trace + more[..|more| - 1];
      assert all[..|all| - 1] == before && all[|all| - 1] == more[|more| - 1];
      assert forall k :: 0 <= k < |before| ==> before[k] == all[k];
      FailedIsForever(trace, more[..|more| - 1], refs, row);
      FailedStays(all, refs, row);
    }
  }

  lemma FailedStays(all: seq<Event>, refs: map<string, string>, row: nat)
    requires all != [] && AllBehave(all, refs) && IsFailed(Run(all[..|all| - 1]).db.log, row)
    ensures IsFailed(Run(all).db.log, row)
  {
    var before := all[..|all| - 1];
    BehavedNeverRevives(all, refs);
    NeverRevivesPrefix(all);
    RunIsValid(before);
    NextRefunds(Run(before), all[|all| - 1], row);
    StepRefines(Run(before), all[|all| - 1]);
    RefundsGrow(Run(before), Run(all), row);
  }

  lemma RefundsGrow(s: State, s': State, row: nat)
    requires s'.lin == s.lin || (|s'.lin| == |s.lin| + 1 && s'.lin[..|s.lin|] == s.lin)
    ensures Refunds(s.lin, row) <= Refunds(s'.lin, row)
  {
    if s'.lin != s.lin {
      assert s'.lin[..|s'.lin| - 1] == s.lin;
    }
  }

  /** Why the proviso is needed: a transfer.success let through after a refund makes the next
      transfer.reversed refund the same withdrawal a second time. */
  lemma RevivedIsRefundedTwice(b: Book, code: string)
    requires var i := FindWithdrawal(b.log, code);
      && i.Some? && b.log[i.value].status != Status.Failed && b.log[i.value].amount >= 0.0
      && var k := (b.log[i.value].walletId, b.log[i.value].currency); k in b.balances && b.balances[k] >= 0.0
    ensures
      var i := FindWithdrawal(b.log, code).value;
      var k := (b.log[i].walletId, b.log[i].currency);
      var once := Atomic(b, Refund(code));
      var revived := Atomic(once.book, MarkSuccess(code));
      var twice := Atomic(revived.book, Refund(code));
      && once.effect == Refunded(i) && once.reply.Done?
      && twice.effect == Refunded(i) && twice.reply.Done?
      && twice.book.balances[k] == b.balances[k] + b.log[i].amount + b.log[i].amount
  {
    var i := FindWithdrawal(b.log, code).value;
    var once := Atomic(b, Refund(code)).book;
    var revived := Atomic(once, MarkSuccess(code)).book;
    assert RowsKept(b.log, once.log) && RowsKept(once.log, revived.log);
    FindWithdrawalKept(b.log, once.log, code);
    FindWithdrawalKept(once.log, revived.log, code);
  }

  /** Why there must be one worker: two that read the same withdrawal before either commits both refund it. */
  lemma TwoWorkersRefundTwice(db: Db, call: Call)
    requires Valid(db) && call.Ready? && CallOk(db, call) && call.op.Refund? && call.plan.amount >= 0.0
    ensures var (db1, done1) := Submit(db, call); var (db2, done2) := Submit(db1, call);
      && done1.effect == Refunded(call.plan.row) && done2.effect == Refunded(call.plan.row)
      && BalanceAt(db2, call.plan.wallet, call.plan.currency)
         == BalanceAt(db, call.plan.wallet, call.plan.currency) + call.plan.amount + call.plan.amount
  {
    var RefundPlan(i, w, c, x) := call.plan;
    Batch2(db, AddToKey(w, c, x), SetStatus(i, Status.Failed));
    RefundTarget(db, call);
    var db1 := Submit(db, call).0;
    SubmitKeeps(db, call);
    FindAssetKept(db, db1, w, c);
    Batch2(db1, AddToKey(w, c, x), SetStatus(i, Status.Failed));
    SubmitKeepsRows(db1, w, c, x, i);
  }

  lemma SubmitKeepsRows(db: Db, w: nat, c: string, x: real, i: nat)
    requires FindAsset(db, w, c).Some? && i < |db.log| && db.assets[FindAsset(db, w, c).value].balance + x >= 0.0
    ensures var r := Then(ExecStmt(db, AddToKey(w, c, x)), SetStatus(i, Status.Failed));
      r.Ok? && FindAsset(r.value, w, c) == FindAsset(db, w, c)
      && r.value.assets[FindAsset(db, w, c).value].balance == db.assets[FindAsset(db, w, c).value].balance + x
  {
    var r := Then(ExecStmt(db, AddToKey(w, c, x)), SetStatus(i, Status.Failed));
    FindAssetKept(db, r.value, w, c);
  }
}
