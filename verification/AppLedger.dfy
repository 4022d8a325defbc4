/** Ledger safety over every run of the backend: reconciliation, conservation, references used once,
    deposits made once, value kept by swaps and transfers. */
module AppLedger {
  import opened Prelude
  import opened Tables
  import opened Book
  import opened Calls
  import opened Integrity
  import opened Refinement
  import opened Reconcile
  import opened Journal
  import opened Webhooks
  import opened App
  import opened AppCore

  // ---- Reconciliation and conservation

  /** The event processes a transfer.success whose row was refunded before. */
  predicate Revives(s: State, e: Event) {
    var c := Acting(s, e);
    c.Some? && c.value.Ready? && c.value.op.MarkSuccess? && !NoneFailed(s.db.log, c.value.op.code)
  }

  ghost predicate NeverRevives(trace: seq<Event>) {
    forall k :: 0 <= k < |trace| ==> !Revives(Run(trace[..k]), trace[k])
  }

  lemma NeverRevivesPrefix(trace: seq<Event>)
    requires NeverRevives(trace) && trace != []
    ensures NeverRevives(trace[..|trace| - 1]) && !Revives(Run(trace[..|trace| - 1]), trace[|trace| - 1])
  {
    var before := trace[..|trace| - 1];
    forall k | 0 <= k < |before|
      ensures !Revives(Run(before[..k]), before[k])
    {
      assert before[..k] == trace[..k];
    }
  }

  /** What the event takes out of the signed log: the refunded rows its status update revives. */
  function Revival(s: State, e: Event, g: Valuation): real {
    var c := Acting(s, e);
    if c.Some? && c.value.Ready? then Undone(s.db.log, c.value.op, g) else 0.0
  }

  /** The same over a run. */
  function Drift(trace: seq<Event>, g: Valuation): real {
    if trace == [] then 0.0
    else Drift(trace[..|trace| - 1], g) + Revival(Run(trace[..|trace| - 1]), trace[|trace| - 1], g)
  }

  lemma NextGap(s: State, e: Event, g: Valuation)
    requires Core(s) && Additive(g)
    ensures Gap(Next(s, e).db, g) == Gap(s.db, g) + Revival(s, e, g)
  {
    NextShape(s, e);
    var c := Acting(s, e);
    if c.Some? && c.value.Ready? {
      SubmitGap(s.db, c.value, g);
    }
  }

  /** On every run, with no proviso, a weighted total of the assets is that of the log plus what was revived. */
  lemma {:induction false} RunGap(trace: seq<Event>, g: Valuation)
    requires Additive(g)
    ensures Worth(Run(trace).db.assets, g) == Logged(Run(trace).db.log, g) + Drift(trace, g)
  {
    if trace != [] {
      RunGap(trace[..|trace| - 1], g);
      RunIsValid(trace[..|trace| - 1]);
      NextGap(Run(trace[..|trace| - 1]), trace[|trace| - 1], g);
    }
  }

  lemma {:induction false} NoDrift(trace: seq<Event>, g: Valuation)
    requires NeverRevives(trace)
    ensures Drift(trace, g) == 0.0
  {
    if trace != [] {
      NeverRevivesPrefix(trace);
      NoDrift(trace[..|trace| - 1], g);
      var s, e := Run(trace[..|trace| - 1]), trace[|trace| - 1];
      var c := Acting(s, e);
      if c.Some? && c.value.Ready? && c.value.op.MarkSuccess? {
        NothingRevived(s.db.log, c.value.op.code, g);
      }
    }
  }

  /** On a run each balance is the signed sum of its log rows if and only if the revived withdrawals add up to
      nothing in every wallet and currency. */
  lemma ReconciledExactly(trace: seq<Event>)
    ensures Reconciled(Run(trace).db) <==> forall w: nat, c :: Drift(trace, At(w, c)) == 0.0
  {
    RunIsValid(trace);
    forall w: nat, c
      ensures BalanceAt(Run(trace).db, w, c) == Logged(Run(trace).db.log, At(w, c)) <==> Drift(trace, At(w, c)) == 0.0
    {
      AtAdditive(w, c);
      RunGap(trace, At(w, c));
      WorthAt(Run(trace).db, w, c);
    }
  }

  /** In particular on every run that processes no transfer.success for a refunded row. */
  lemma RunReconciled(trace: seq<Event>)
    requires NeverRevives(trace)
    ensures Reconciled(Run(trace).db)
  {
    forall w: nat, c
      ensures Drift(trace, At(w, c)) == 0.0
    {
      NoDrift(trace, At(w, c));
    }
    ReconciledExactly(trace);
  }

  /** Transfers are logged as adjacent pairs of legs on every run. */
  lemma {:induction false} RunPaired(trace: seq<Event>)
    ensures Paired(Run(trace).db.log)
  {
    if trace != [] {
      var before := trace[..|trace| - 1];
      RunPaired(before);
      RunIsValid(before);
      var s := Run(before);
      StepRefines(s, trace[|trace| - 1]);
      var c := Acting(s, trace[|trace| - 1]);
      if c.Some? {
        AtomicPaired(Abs(s.db), c.value.op);
      }
    }
  }

  /** Over all wallets, the money held in a currency is deposits plus swap-ins minus swap-outs minus
      withdrawals that are not FAILED, plus what was revived: nothing, unless a transfer.success came after the
      refund. */
  lemma Conservation(trace: seq<Event>, c: string)
    ensures Worth(Run(trace).db.assets, InCurrency(c)) == Sum(Run(trace).db.log, Flow(c)) + Drift(trace, InCurrency(c))
    ensures NeverRevives(trace) ==> Worth(Run(trace).db.assets, InCurrency(c)) == Sum(Run(trace).db.log, Flow(c))
  {
    InCurrencyAdditive(c);
    RunGap(trace, InCurrency(c));
    RunPaired(trace);
    TransfersCancel(Run(trace).db.log, c);
    if NeverRevives(trace) {
      NoDrift(trace, InCurrency(c));
    }
  }

  // ---- No reference is written twice

  /** The references of committed operations are in the log. */
  ghost predicate PostedLogged(lin: seq<Entry>, log: seq<Row>) {
    forall i, k :: 0 <= i < |lin| && lin[i].effect.Posted? && 0 <= k < |Refs(lin[i].op)| ==>
      RefUsed(log, Refs(lin[i].op)[k])
  }

  ghost predicate Disjoint(a: seq<string>, b: seq<string>) {
    forall i, k :: 0 <= i < |a| && 0 <= k < |b| ==> a[i] != b[k]
  }

  /** No two committed operations share a log reference. */
  ghost predicate RefsDisjoint(lin: seq<Entry>) {
    forall i, j :: 0 <= i < j < |lin| && lin[i].effect.Posted? && lin[j].effect.Posted? ==>
      Disjoint(Refs(lin[i].op), Refs(lin[j].op))
  }

  /** An operation is posted only if none of its references was in the log; then all of them are. */
  lemma PostedRefs(b: Book, op: Op)
    ensures var o := Atomic(b, op);
      o.effect.Posted? ==>
        forall k :: 0 <= k < |Refs(op)| ==> !RefUsed(b.log, Refs(op)[k]) && RefUsed(o.book.log, Refs(op)[k])
  {
    if Atomic(b, op).effect.Posted? {
      forall k | 0 <= k < |Refs(op)|
        ensures !RefUsed(b.log, Refs(op)[k]) && RefUsed(Atomic(b, op).book.log, Refs(op)[k])
      {
        PostedUses(b, op, k);
      }
    }
  }

  /** One more entry, posted with references the log did not have. */
  lemma AppendRefs(lin: seq<Entry>, l: Entry, log: seq<Row>, log': seq<Row>)
    requires PostedLogged(lin, log) && RefsDisjoint(lin) && RowsKept(log, log')
    requires l.effect.Posted? ==>
      forall k :: 0 <= k < |Refs(l.op)| ==> !RefUsed(log, Refs(l.op)[k]) && RefUsed(log', Refs(l.op)[k])
    ensures PostedLogged(lin + [l], log') && RefsDisjoint(lin + [l])
  {
    LoggedStays(lin, log, log');
    AppendKeepsLogged(lin, l, log');
    AppendDisjoint(lin, l, log);
  }

  lemma AppendKeepsLogged(lin: seq<Entry>, l: Entry, log: seq<Row>)
    requires PostedLogged(lin, log)
    requires l.effect.Posted? ==> forall k :: 0 <= k < |Refs(l.op)| ==> RefUsed(log, Refs(l.op)[k])
    ensures PostedLogged(lin + [l], log)
  {
  }

  lemma AppendDisjoint(lin: seq<Entry>, l: Entry, log: seq<Row>)
    requires PostedLogged(lin, log) && RefsDisjoint(lin)
    requires l.effect.Posted? ==> forall k :: 0 <= k < |Refs(l.op)| ==> !RefUsed(log, Refs(l.op)[k])
    ensures RefsDisjoint(lin + [l])
  {
    forall i | 0 <= i < |lin| && lin[i].effect.Posted? && l.effect.Posted?
      ensures Disjoint(Refs(lin[i].op), Refs(l.op))
    {
      UnusedDisjoint(Refs(lin[i].op), Refs(l.op), log);
    }
  }

  lemma LoggedStays(lin: seq<Entry>, log: seq<Row>, log': seq<Row>)
    requires PostedLogged(lin, log) && RowsKept(log, log')
    ensures PostedLogged(lin, log')
  {
    forall i, k | 0 <= i < |lin| && lin[i].effect.Posted? && 0 <= k < |Refs(lin[i].op)|
      ensures RefUsed(log', Refs(lin[i].op)[k])
    {
      RefUsedKept(log, log', Refs(lin[i].op)[k]);
    }
  }

  lemma UnusedDisjoint(a: seq<string>, b: seq<string>, log: seq<Row>)
    requires forall k :: 0 <= k < |a| ==> RefUsed(log, a[k])
    requires forall k :: 0 <= k < |b| ==> !RefUsed(log, b[k])
    ensures Disjoint(a, b)
  {
  }

  lemma NextRefs(s: State, e: Event)
    requires Core(s) && PostedLogged(s.lin, s.db.log) && RefsDisjoint(s.lin)
    ensures var s' := Next(s, e); PostedLogged(s'.lin, s'.db.log) && RefsDisjoint(s'.lin)
  {
    var s' := Next(s, e);
    LogKept(s, e);
    StepRefines(s, e);
    if s'.lin == s.lin {
      assert s'.db.log == s.db.log;
    } else {
      var l := s'.lin[|s.lin|];
      assert s'.lin == s.lin + [l];
      PostedRefs(Abs(s.db), l.op);
      AppendRefs(s.lin, l, s.db.log, s'.db.log);
    }
  }

  lemma LogKept(s: State, e: Event)
    requires Core(s)
    ensures RowsKept(s.db.log, Next(s, e).db.log)
  {
    NextShape(s, e);
    var c := Acting(s, e);
    if c.Some? && c.value.Ready? {
      BatchKeeps(s.db, c.value);
    }
  }

  lemma {:induction false} RunRefs(trace: seq<Event>)
    ensures PostedLogged(Run(trace).lin, Run(trace).db.log) && RefsDisjoint(Run(trace).lin)
  {
    if trace != [] {
      RunRefs(trace[..|trace| - 1]);
      RunIsValid(trace[..|trace| - 1]);
      NextRefs(Run(trace[..|trace| - 1]), trace[|trace| - 1]);
    }
  }

  lemma NoSharedRef(lin: seq<Entry>, i: nat, j: nat, k: nat, l: nat)
    requires RefsDisjoint(lin) && i < |lin| && j < |lin| && i != j
    requires lin[i].effect.Posted? && lin[j].effect.Posted?
    requires k < |Refs(lin[i].op)| && l < |Refs(lin[j].op)|
    ensures Refs(lin[i].op)[k] != Refs(lin[j].op)[l]
  {
    assert i < j ==> Disjoint(Refs(lin[i].op), Refs(lin[j].op));
    assert j < i ==> Disjoint(Refs(lin[j].op), Refs(lin[i].op));
  }

  // ---- Idempotency without trusting Redis

  /** Suffixing is injective, and the four suffixes keep four disjoint name spaces. */
  lemma SuffixesApart(a: string, b: string)
    ensures Out(a) == Out(b) || In(a) == In(b) || Debit(a) == Debit(b) || Credit(a) == Credit(b) ==> a == b
    ensures Out(a) != In(b) && Out(a) != Debit(b) && Out(a) != Credit(b)
    ensures In(a) != Debit(b) && In(a) != Credit(b) && Debit(a) != Credit(b)
  {
    assert Out(a)[..|Out(a)| - 4] == a && Out(b)[..|Out(b)| - 4] == b;
    assert In(a)[..|In(a)| - 3] == a && In(b)[..|In(b)| - 3] == b;
    assert Debit(a)[..|Debit(a)| - 6] == a && Debit(b)[..|Debit(b)| - 6] == b;
    assert Credit(a)[..|Credit(a)| - 7] == a && Credit(b)[..|Credit(b)| - 7] == b;
    assert Out(a)[|Out(a)| - 2] == 'U' && In(b)[|In(b)| - 2] == 'I' && Debit(b)[|Debit(b)| - 2] == 'I';
    assert Out(a)[|Out(a)| - 1] == 'T' && In(b)[|In(b)| - 1] == 'N' && In(a)[|In(a)| - 1] == 'N';
    assert Debit(b)[|Debit(b)| - 1] == 'T' && Credit(b)[|Credit(b)| - 1] == 'T' && Credit(b)[|Credit(b)| - 2] == 'I';
    assert Debit(a)[|Debit(a)| - 3] == 'B' && Credit(b)[|Credit(b)| - 3] == 'D';
  }

  predicate SameKind(a: Op, b: Op) {
    (a.Fund? && b.Fund?) || (a.Swap? && b.Swap?) || (a.Transfer? && b.Transfer?)
  }

  /** Whatever happens to the locks, one key commits at most one deposit, one swap and one transfer. */
  lemma OneCommitPerKind(trace: seq<Event>, i: nat, j: nat)
    requires var lin := Run(trace).lin;
      && i < |lin| && j < |lin| && lin[i].effect.Posted? && lin[j].effect.Posted?
      && SameKind(lin[i].op, lin[j].op) && KeyOf(lin[i].op) == KeyOf(lin[j].op)
    ensures i == j
  {
    RunRefs(trace);
    var lin := Run(trace).lin;
    if i != j {
      NoSharedRef(lin, i, j, 0, 0);
    }
  }

  // ---- Deposits

  predicate IsDeposit(op: Op) { op.CreditByEmail? || op.Fund? }

  /** Over webhook jobs, their retries, lost locks, VerifyAndCredit and client deposits: one reference is
      credited at most once. */
  lemma CreditedAtMostOnce(trace: seq<Event>, i: nat, j: nat)
    requires var lin := Run(trace).lin;
      && i < |lin| && j < |lin| && lin[i].effect.Posted? && lin[j].effect.Posted?
      && IsDeposit(lin[i].op) && IsDeposit(lin[j].op) && lin[i].op.reference == lin[j].op.reference
    ensures i == j
  {
    RunRefs(trace);
    var lin := Run(trace).lin;
    if i != j {
      NoSharedRef(lin, i, j, 0, 0);
    }
  }

  ghost predicate ExactlyOneRow(log: seq<Row>, ref: string) {
    exists i :: 0 <= i < |log| && log[i].reference == ref
      && forall j :: 0 <= j < |log| && log[j].reference == ref ==> j == i
  }

  lemma UsedOnce(log: seq<Row>, ref: string)
    requires UniqueReferences(log) && RefUsed(log, ref)
    ensures ExactlyOneRow(log, ref)
  {
    var i := IndexOf(log, RowHasReference(ref)).value;
    assert log[i].reference == ref;
  }

  ghost predicate EndedCreditLogged(log: seq<Row>, t: Thread) {
    t.Direct? && t.call.Ended? && t.call.op.CreditByEmail? && t.call.reply.Done? ==> RefUsed(log, t.call.op.reference)
  }

  ghost predicate ChargeLogged(log: seq<Row>, p: Payload) {
    OpOf(p).Some? && OpOf(p).value.CreditByEmail? ==> RefUsed(log, p.reference)
  }

  /** Calls that answered nil to a Paystack credit. */
  ghost predicate ThreadCredits(s: State) {
    forall id :: id in s.threads ==> EndedCreditLogged(s.db.log, s.threads[id])
  }

  /** Jobs that ended as processed, or are about to. */
  ghost predicate JobCredits(s: State) {
    && (forall i :: 0 <= i < |s.queue.processed| ==> ChargeLogged(s.db.log, s.queue.processed[i].payload))
    && (s.worker == Closing(true) && s.queue.current.Some? ==> ChargeLogged(s.db.log, s.queue.current.value.payload))
  }

  lemma UsedStays(s: State, e: Event)
    requires Core(s)
    ensures forall ref: string :: RefUsed(s.db.log, ref) ==> RefUsed(Next(s, e).db.log, ref)
  {
    LogKept(s, e);
    forall ref: string
      ensures RefUsed(s.db.log, ref) ==> RefUsed(Next(s, e).db.log, ref)
    {
      RefUsedKept(s.db.log, Next(s, e).db.log, ref);
    }
  }

  /** The credit that ends in this step with answer Done is logged after it. */
  lemma StepCreditDone(s: State, e: Event)
    requires Core(s)
    ensures var c := Acting(s, e); c.Some? && c.value.op.CreditByEmail? ==>
      var done := if c.value.Ready? then Submit(s.db, c.value).1 else Read(s.db, c.value);
      done.Ended? && done.reply.Done? ==> RefUsed(Next(s, e).db.log, c.value.op.reference)
  {
    StepRefines(s, e);
    NextShape(s, e);
    var c := Acting(s, e);
    if c.Some? && c.value.op.CreditByEmail? && Next(s, e).lin != s.lin && Next(s, e).lin[|s.lin|].reply.Done? {
      CreditDone(Abs(s.db), c.value.op);
    }
  }

  /** A thread's call changes only by its own read or batch. */
  lemma CallFrame(s: State, e: Event, id: nat)
    requires Core(s) && id in Next(s, e).threads && Next(s, e).threads[id].Direct? && Next(s, e).threads[id].call.Ended?
    ensures id in s.threads && s.threads[id].Direct?
    ensures Caller(e) == Some(id) && Acting(s, e).Some? ==>
      var c := Acting(s, e).value;
      && Next(s, e).threads[id].call == (if c.Ready? then Submit(s.db, c).1 else Read(s.db, c))
      && Next(s, e).threads[id].call.op == c.op
    ensures !(Caller(e) == Some(id) && Acting(s, e).Some?) ==> Next(s, e).threads[id].call == s.threads[id].call
  {
    if Caller(e) == Some(id) && Acting(s, e).Some? {
      assert ThreadOk(s.db, s.threads[id]);
      if Acting(s, e).value.Ready? {
      } else {
        ReadRefines(s.db, Acting(s, e).value);
      }
    }
  }

  lemma NextThreadCredits(s: State, e: Event)
    requires Core(s) && ThreadCredits(s)
    ensures ThreadCredits(Next(s, e))
  {
    var s' := Next(s, e);
    forall id | id in s'.threads && s'.threads[id].Direct? && s'.threads[id].call.Ended?
      ensures EndedCreditLogged(s'.db.log, s'.threads[id])
    {
      CallFrame(s, e, id);
      assert EndedCreditLogged(s.db.log, s.threads[id]);
      UsedStays(s, e);
      StepCreditDone(s, e);
    }
  }

  /** Only the worker takes or ends jobs. */
  lemma OthersKeepJobs(s: State, e: Event)
    requires !IsWorkerEvent(e)
    ensures var s' := Next(s, e);
      s'.worker == s.worker && s'.queue.processed == s.queue.processed && s'.queue.current == s.queue.current
  {
  }

  lemma NextJobCredits(s: State, e: Event)
    requires Core(s) && JobCredits(s)
    ensures JobCredits(Next(s, e))
  {
    UsedStays(s, e);
    if e.WorkerRead? || e.WorkerSubmit? {
      CallKeepsCredits(s, e);
    } else if IsWorkerEvent(e) {
      NoCallKeepsCredits(s, e);
    } else {
      OthersKeepJobs(s, e);
    }
  }

  lemma CallKeepsCredits(s: State, e: Event)
    requires Core(s) && JobCredits(s) && (e.WorkerRead? || e.WorkerSubmit?)
    ensures JobCredits(Next(s, e))
  {
    UsedStays(s, e);
    StepCreditDone(s, e);
  }

  lemma NoCallKeepsCredits(s: State, e: Event)
    requires JobCredits(s) && (e.WorkerTake? || e.WorkerAbort? || e.WorkerClose?)
    requires s.worker.Busy? ==> s.queue.current.Some? && OpOf(s.queue.current.value.payload) == Some(s.worker.call.op)
    ensures JobCredits(Next(s, e))
  {
  }

  lemma {:induction false} RunCredits(trace: seq<Event>)
    ensures ThreadCredits(Run(trace)) && JobCredits(Run(trace))
  {
    if trace != [] {
      RunCredits(trace[..|trace| - 1]);
      RunIsValid(trace[..|trace| - 1]);
      NextThreadCredits(Run(trace[..|trace| - 1]), trace[|trace| - 1]);
      NextJobCredits(Run(trace[..|trace| - 1]), trace[|trace| - 1]);
    }
  }

  /** Whenever a charge job ended as processed, exactly one log row has its reference. */
  lemma ProcessedChargeLoggedOnce(trace: seq<Event>, i: nat)
    requires i < |Run(trace).queue.processed|
    requires var op := OpOf(Run(trace).queue.processed[i].payload); op.Some? && op.value.CreditByEmail?
    ensures ExactlyOneRow(Run(trace).db.log, Run(trace).queue.processed[i].payload.reference)
  {
    RunCredits(trace);
    RunIsValid(trace);
    UsedOnce(Run(trace).db.log, Run(trace).queue.processed[i].payload.reference);
  }

  /** Whenever VerifyAndCredit's credit answered nil, exactly one log row has its reference. */
  lemma VerifiedCreditLoggedOnce(trace: seq<Event>, id: nat)
    requires id in Run(trace).threads && Run(trace).threads[id].Direct?
    requires var c := Run(trace).threads[id].call; c.Ended? && c.op.CreditByEmail? && c.reply.Done?
    ensures ExactlyOneRow(Run(trace).db.log, Run(trace).threads[id].call.op.reference)
  {
    RunCredits(trace);
    RunIsValid(trace);
    UsedOnce(Run(trace).db.log, Run(trace).threads[id].call.op.reference);
  }
}
