/** Which operation wrote which log row, over every run; when an operation commits, and what blocks it. */
module AppJournal {
  import opened Prelude
  import opened Tables
  import opened Book
  import opened Calls
  import opened Journal
  import opened Webhooks
  import opened App
  import opened AppCore
  import opened AppOps
  import opened AppLedger

  /** Row k is leg m of the committed operation of entry i, booked on the right party's wallet. */
  ghost predicate WrittenBy(s: State, k: nat, i: nat, m: nat) {
    && k < |s.db.log| && i < |s.lin| && s.lin[i].effect.Posted?
    && IsLeg(s.db.users, s.db.wallets, s.lin[i].op, m, s.db.log[k])
  }

  ghost predicate Written(s: State, k: nat) { exists i: nat, m: nat :: WrittenBy(s, k, i, m) }

  /** Nothing but committed operations writes to the log. */
  ghost predicate Journaled(s: State) { forall k: nat :: k < |s.db.log| ==> Written(s, k) }

  lemma NextExtends(s: State, e: Event)
    requires Core(s)
    ensures Extends(s.db, Next(s, e).db)
  {
    NextShape(s, e);
    var c := Acting(s, e);
    if c.Some? && c.value.Ready? {
      BatchKeeps(s.db, c.value);
    }
  }

  lemma WrittenStays(s: State, s': State, k: nat, i: nat, m: nat)
    requires WrittenBy(s, k, i, m) && Extends(s.db, s'.db) && s.lin <= s'.lin
    ensures WrittenBy(s', k, i, m)
  {
    IsLegKept(s.db, s'.db, s.lin[i].op, m, s.db.log[k], s'.db.log[k]);
  }

  lemma UnpostedLog(b: Book, op: Op)
    requires !Atomic(b, op).effect.Posted?
    ensures |Atomic(b, op).book.log| == |b.log|
  {
  }

  lemma NewRowWritten(s: State, e: Event, k: nat)
    requires Core(s) && |s.db.log| <= k < |Next(s, e).db.log|
    ensures WrittenBy(Next(s, e), k, |s.lin|, k - |s.db.log|)
  {
    var s' := Next(s, e);
    StepRefines(s, e);
    NextExtends(s, e);
    var op := s'.lin[|s.lin|].op;
    if s'.lin[|s.lin|].effect.Posted? {
      PostedLegs(Abs(s.db), op);
      IsLegKept(s.db, s'.db, op, k - |s.db.log|, s'.db.log[k], s'.db.log[k]);
    } else {
      UnpostedLog(Abs(s.db), op);
    }
  }

  lemma LinGrows(s: State, e: Event)
    requires Core(s)
    ensures s.lin <= Next(s, e).lin
  {
    StepRefines(s, e);
  }

  lemma NextJournaled(s: State, e: Event)
    requires Core(s) && Journaled(s)
    ensures Journaled(Next(s, e))
  {
    var s' := Next(s, e);
    NextExtends(s, e);
    LinGrows(s, e);
    forall k: nat | k < |s'.db.log|
      ensures Written(s', k)
    {
      if k < |s.db.log| {
        assert Written(s, k);
        var i: nat, m: nat :| WrittenBy(s, k, i, m);
        WrittenStays(s, s', k, i, m);
      } else {
        NewRowWritten(s, e, k);
      }
    }
  }

  /** On every run each log row is a row of a committed operation, with its amount, currency and party. */
  lemma {:induction false} RunJournaled(trace: seq<Event>)
    ensures Journaled(Run(trace))
  {
    if trace != [] {
      RunJournaled(trace[..|trace| - 1]);
      RunIsValid(trace[..|trace| - 1]);
      NextJournaled(Run(trace[..|trace| - 1]), trace[|trace| - 1]);
    }
  }

  // ---- A reference is used exactly when a committed operation has it

  predicate CommittedBy(lin: seq<Entry>, i: nat, m: nat, ref: string) {
    i < |lin| && lin[i].effect.Posted? && m < |Refs(lin[i].op)| && Refs(lin[i].op)[m] == ref
  }

  ghost predicate Committed(lin: seq<Entry>, ref: string) { exists i: nat, m: nat :: CommittedBy(lin, i, m, ref) }

  lemma WrittenReference(s: State, k: nat, i: nat, m: nat)
    requires WrittenBy(s, k, i, m)
    ensures CommittedBy(s.lin, i, m, s.db.log[k].reference)
  {
    LegReference(s.lin[i].op, m, s.db.log[k].walletId);
  }

  /** On every run a reference is in the log if and only if some committed operation has it. */
  lemma UsedExactly(trace: seq<Event>, ref: string)
    ensures RefUsed(Run(trace).db.log, ref) <==> Committed(Run(trace).lin, ref)
  {
    var s := Run(trace);
    RunRefs(trace);
    RunJournaled(trace);
    if RefUsed(s.db.log, ref) {
      var k := IndexOf(s.db.log, RowHasReference(ref)).value;
      assert Written(s, k);
      var i: nat, m: nat :| WrittenBy(s, k, i, m);
      WrittenReference(s, k, i, m);
    }
  }

  lemma AnyUsedExactly(trace: seq<Event>, op: Op)
    ensures AnyRefUsed(Run(trace).db.log, op)
      <==> exists m :: 0 <= m < |Refs(op)| && Committed(Run(trace).lin, Refs(op)[m])
  {
    forall m | 0 <= m < |Refs(op)|
      ensures RefUsed(Run(trace).db.log, Refs(op)[m]) <==> Committed(Run(trace).lin, Refs(op)[m])
    {
      UsedExactly(trace, Refs(op)[m]);
    }
  }

  /** On every run an operation that passes its wallet and balance checks commits if and only if no committed
      operation shares a reference with it; if one does, it is answered as a duplicate and changes nothing. */
  lemma CommitsExactly(trace: seq<Event>, op: Op)
    requires Affordable(Abs(Run(trace).db), op)
    ensures var b := Abs(Run(trace).db); var o := Atomic(b, op);
      && (o.effect.Posted? <==> forall m :: 0 <= m < |Refs(op)| ==> !Committed(Run(trace).lin, Refs(op)[m]))
      && (!o.effect.Posted? ==> o.book == b)
      && (!o.effect.Posted? ==> o.reply == if op.CreditByEmail? then Done else Rejected(Database(UniqueViolation)))
  {
    AnyUsedExactly(trace, op);
    PostsUnlessUsed(Abs(Run(trace).db), op);
  }

  lemma {:induction false} LinPrefix(trace: seq<Event>, more: seq<Event>)
    ensures Run(trace).lin <= Run(trace + more).lin
  {
    if more == [] {
      assert trace + more == trace;
    } else {
      var before := more[..|more| - 1];
      LinPrefix(trace, before);
      assert (trace + more)[..|trace + more| - 1] == trace + before;
      RunIsValid(trace + before);
      LinGrows(Run(trace + before), more[|more| - 1]);
    }
  }

  /** And it is blocked for good: whatever follows, it never commits, and it is answered as a duplicate whenever
      it passes its checks. */
  lemma BlockedForGood(trace: seq<Event>, more: seq<Event>, op: Op, m: nat)
    requires m < |Refs(op)| && Committed(Run(trace).lin, Refs(op)[m])
    ensures var b := Abs(Run(trace + more).db);
      && Atomic(b, op).book == b && Atomic(b, op).effect == Nothing
      && (Affordable(b, op) && !op.CreditByEmail? ==> Atomic(b, op).reply == Rejected(Database(UniqueViolation)))
  {
    LinPrefix(trace, more);
    var i: nat, l: nat :| CommittedBy(Run(trace).lin, i, l, Refs(op)[m]);
    assert CommittedBy(Run(trace + more).lin, i, l, Refs(op)[m]);
    AnyUsedExactly(trace + more, op);
    UsedNeverPosts(Abs(Run(trace + more).db), op);
    if Affordable(Abs(Run(trace + more).db), op) {
      PostsUnlessUsed(Abs(Run(trace + more).db), op);
    }
  }

  /** A committed deposit whose reference is key + "-OUT" or key + "-IN" blocks the swap with that key: no run
      commits both, and after the deposit the swap changes nothing. */
  lemma DepositBlocksSwap(trace: seq<Event>, more: seq<Event>, i: nat, swap: Op)
    requires swap.Swap? && i < |Run(trace).lin| && Run(trace).lin[i].effect.Posted? && IsDeposit(Run(trace).lin[i].op)
    requires Run(trace).lin[i].op.reference == Out(swap.key) || Run(trace).lin[i].op.reference == In(swap.key)
    ensures var s := Run(trace + more);
      && Atomic(Abs(s.db), swap).book == Abs(s.db)
      && forall j :: 0 <= j < |s.lin| && s.lin[j].op.Swap? && s.lin[j].op.key == swap.key ==> !s.lin[j].effect.Posted?
  {
    var m := if Run(trace).lin[i].op.reference == Out(swap.key) then 0 else 1;
    assert CommittedBy(Run(trace).lin, i, 0, Refs(swap)[m]);
    BlockedForGood(trace, more, swap, m);
    LinPrefix(trace, more);
    RunRefs(trace + more);
    var lin := Run(trace + more).lin;
    forall j | 0 <= j < |lin| && lin[j].op.Swap? && lin[j].op.key == swap.key
      ensures !lin[j].effect.Posted?
    {
      if lin[j].effect.Posted? {
        NoSharedRef(lin, i, j, 0, m);
      }
    }
  }

  // ---- Whose row answers for a charge

  /** The reference is that of one row, written by one leg of one committed operation. */
  ghost predicate OwnedAlone(s: State, ref: string, k: nat, i: nat, m: nat) {
    && WrittenBy(s, k, i, m) && s.db.log[k].reference == ref
    && forall j: nat, l: nat :: CommittedBy(s.lin, j, l, ref) ==> j == i
  }

  lemma UsedIsOwned(trace: seq<Event>, ref: string)
    requires RefUsed(Run(trace).db.log, ref)
    ensures exists k: nat, i: nat, m: nat :: OwnedAlone(Run(trace), ref, k, i, m)
  {
    var s := Run(trace);
    RunJournaled(trace);
    RunRefs(trace);
    var k := IndexOf(s.db.log, RowHasReference(ref)).value;
    assert Written(s, k);
    var i: nat, m: nat :| WrittenBy(s, k, i, m);
    WrittenReference(s, k, i, m);
    forall j: nat, l: nat | CommittedBy(s.lin, j, l, ref)
      ensures j == i
    {
      if j != i { NoSharedRef(s.lin, i, j, m, l); }
    }
    assert OwnedAlone(s, ref, k, i, m);
  }

  /** The row with a processed charge's reference was written by exactly one operation. */
  lemma ProcessedChargeOwner(trace: seq<Event>, i: nat)
    requires i < |Run(trace).queue.processed|
    requires var op := OpOf(Run(trace).queue.processed[i].payload); op.Some? && op.value.CreditByEmail?
    ensures exists k: nat, j: nat, m: nat ::
      OwnedAlone(Run(trace), Run(trace).queue.processed[i].payload.reference, k, j, m)
  {
    RunCredits(trace);
    UsedIsOwned(trace, Run(trace).queue.processed[i].payload.reference);
  }

  /** The payment itself was committed. */
  ghost predicate Paid(lin: seq<Entry>, pay: Op) {
    exists i :: 0 <= i < |lin| && lin[i].effect.Posted? && lin[i].op == pay
  }

  /** Another operation committed the payment's reference. */
  ghost predicate Preempted(lin: seq<Entry>, pay: Op)
    requires pay.CreditByEmail?
  {
    exists i: nat, m: nat :: CommittedBy(lin, i, m, pay.reference) && lin[i].op != pay
  }

  /** Once its reference is in the log, a payment was credited if and only if no other operation took it. */
  lemma PaidExactly(trace: seq<Event>, pay: Op)
    requires pay.CreditByEmail? && RefUsed(Run(trace).db.log, pay.reference)
    ensures Paid(Run(trace).lin, pay) <==> !Preempted(Run(trace).lin, pay)
  {
    var s := Run(trace);
    UsedIsOwned(trace, pay.reference);
    var k: nat, i: nat, m: nat :| OwnedAlone(s, pay.reference, k, i, m);
    WrittenReference(s, k, i, m);
    if Paid(s.lin, pay) {
      var j :| 0 <= j < |s.lin| && s.lin[j].effect.Posted? && s.lin[j].op == pay;
      assert CommittedBy(s.lin, j, 0, pay.reference);
    }
  }

  /** So it is for every charge that was processed: its payer may be left uncredited, exactly by a client deposit
      keyed by the payment's reference, a leg of a swap or transfer whose suffixed key is that reference, or a
      different payment or withdrawal that carries it. */
  lemma ProcessedChargePaidExactly(trace: seq<Event>, i: nat, pay: Op)
    requires i < |Run(trace).queue.processed| && pay.CreditByEmail?
    requires OpOf(Run(trace).queue.processed[i].payload) == Some(pay)
    ensures Paid(Run(trace).lin, pay) <==> !Preempted(Run(trace).lin, pay)
  {
    RunCredits(trace);
    PaidExactly(trace, pay);
  }

  /** And for every verification that was answered nil. */
  lemma VerifiedPaidExactly(trace: seq<Event>, id: nat)
    requires id in Run(trace).threads && Run(trace).threads[id].Direct?
    requires var c := Run(trace).threads[id].call; c.Ended? && c.op.CreditByEmail? && c.reply.Done?
    ensures var pay := Run(trace).threads[id].call.op; Paid(Run(trace).lin, pay) <==> !Preempted(Run(trace).lin, pay)
  {
    RunCredits(trace);
    assert EndedCreditLogged(Run(trace).db.log, Run(trace).threads[id]);
    PaidExactly(trace, Run(trace).threads[id].call.op);
  }

  /** Every operation with this reference is this payment. */
  function Only(ref: string, pay: Op): OpProperty { (op: Op) => ref in Refs(op) ==> op == pay }

  /** Row k is the payment's, and no other row has its reference. */
  ghost predicate OnlyRowOf(db: Db, pay: Op, k: nat)
    requires pay.CreditByEmail?
  {
    && k < |db.log| && IsLeg(db.users, db.wallets, pay, 0, db.log[k])
    && forall l :: 0 <= l < |db.log| && db.log[l].reference == pay.reference ==> l == k
  }

  /** If nothing but the payment itself, in however many deliveries and verifications, uses its reference, the one
      row is the payment's: its amount and currency, on the payer's wallet. */
  lemma ProcessedChargeCredited(trace: seq<Event>, i: nat, pay: Op)
    requires i < |Run(trace).queue.processed| && pay.CreditByEmail?
    requires OpOf(Run(trace).queue.processed[i].payload) == Some(pay)
    requires forall k :: 0 <= k < |trace| ==> EventSatisfies(trace[k], Only(pay.reference, pay))
    ensures exists k: nat :: OnlyRowOf(Run(trace).db, pay, k)
  {
    var s := Run(trace);
    ProcessedChargeOwner(trace, i);
    var k: nat, j: nat, m: nat :| OwnedAlone(s, pay.reference, k, j, m);
    RunOps(trace, Only(pay.reference, pay));
    WrittenReference(s, k, j, m);
    assert s.lin[j].op == pay;
    RunIsValid(trace);
    assert OnlyRowOf(s.db, pay, k);
  }
}
