/** A run of the backend in which a payment is reported, processed and answered with success, and its payer is
    not credited: a client deposit used the payment's reference as its key. */
module AppCollision {
  import opened Prelude
  import opened Tables
  import opened Book
  import opened Calls
  import opened Webhooks
  import opened Requests
  import opened App
  import opened AppCore
  import opened AppJournal
  import opened AppScripts

  /** The body was processed, and no committed operation is the payment it reports. */
  ghost predicate Swallowed(s: State, p: Payload, pay: Op) { IsProcessed(s, p) && !Paid(s.lin, pay) }

  /** From every reachable quiet state in which another operation has committed the reference, and the lock of the
      reference is free, a delivery is processed without crediting the payer. */
  lemma PreemptedIsSwallowed(trace: seq<Event>, id: nat, p: Payload, pay: Op)
    requires Quiet(Run(trace), id) && p.reference !in Run(trace).locks
    requires OpOf(p) == Some(pay) && pay.CreditByEmail? && Atomic(Abs(Run(trace).db), pay).reply.Done?
    requires Preempted(Run(trace).lin, pay)
    ensures Swallowed(Run(trace + BodyEvents(id, p)), p, pay)
  {
    var all := trace + BodyEvents(id, p);
    RunIsValid(trace);
    BodyAlone(Run(trace), id, p, pay);
    RunConcat(INIT, trace, BodyEvents(id, p));
    var k :| 0 <= k < |Run(all).queue.processed| && Run(all).queue.processed[k].payload == p;
    LinPrefix(trace, BodyEvents(id, p));
    var i: nat, m: nat :| CommittedBy(Run(trace).lin, i, m, pay.reference) && Run(trace).lin[i].op != pay;
    assert CommittedBy(Run(all).lin, i, m, pay.reference) && Run(all).lin[i].op != pay;
    ProcessedChargePaidExactly(all, k, pay);
  }

  /** The gateway reports that "u" paid 5 under reference "r". */
  function Report(): Payload { Payload("r", Some(Content("charge.success", "success", "", "u", 500.0, "NGN"))) }

  const PAYMENT := CreditByEmail("u", "NGN", 5.0, "r")

  const DEPOSIT := FundRequest(0, "NGN", 1.0, "r")

  /** A client deposits 1 with key "r", and the key expires. */
  function Preempting(): seq<Event> { Enrolling() + ClientEvents(3, DEPOSIT) + [LoseLock("r")] }

  const FUNDED := ENROLLED.(balances := map[(0, "NGN") := 1.0], log := [DepositRow(0, "NGN", 1.0, "r")])

  lemma AtomicDeposit()
    ensures Atomic(ENROLLED, Requested(DEPOSIT)) == Outcome(FUNDED, Done, Posted)
    ensures Atomic(FUNDED, PAYMENT).reply.Done?
  {
    assert FindUser(ENROLLED.users, "u") == Some(0) && WalletOfUser(ENROLLED.wallets, 0) == Some(0);
  }

  /** A committed client deposit pre-empts any payment that has its key for a reference. */
  lemma DepositPreempts(trace: seq<Event>, id: nat, r: KeyedRequest, pay: Op, b: Book)
    requires Quiet(Run(trace), id) && r.FundRequest? && r.key !in Run(trace).locks
    requires Atomic(Abs(Run(trace).db), Requested(r)) == Outcome(b, Done, Posted)
    requires pay.CreditByEmail? && pay.reference == r.key
    ensures var s := Run(trace + ClientEvents(id, r));
      Quiet(s, id + 1) && s.locks == Run(trace).locks + {r.key} && Abs(s.db) == b && Preempted(s.lin, pay)
  {
    ClientRun(trace, id, r);
    var lin := Run(trace + ClientEvents(id, r)).lin;
    assert CommittedBy(lin, |lin| - 1, 0, pay.reference) && lin[|lin| - 1].op != pay;
  }

  lemma DepositReaches()
    ensures var s := Run(Enrolling() + ClientEvents(3, DEPOSIT));
      Quiet(s, 4) && s.locks == {"r"} && Abs(s.db) == FUNDED && Preempted(s.lin, PAYMENT)
  {
    EnrollingReaches();
    AtomicDeposit();
    DepositPreempts(Enrolling(), 3, DEPOSIT, PAYMENT, FUNDED);
  }

  lemma PreemptingReaches()
    ensures var s := Run(Preempting());
      Quiet(s, 4) && s.locks == {} && Abs(s.db) == FUNDED && Preempted(s.lin, PAYMENT)
  {
    DepositReaches();
    RunSnoc(INIT, Enrolling() + ClientEvents(3, DEPOSIT), LoseLock("r"));
  }

  /** Some run from the empty backend processes a payment's webhook and credits nothing for it. */
  lemma SwallowedIsReachable()
    ensures exists trace, p, pay :: OpOf(p) == Some(pay) && pay.CreditByEmail? && Swallowed(Run(trace), p, pay)
  {
    PreemptingReaches();
    AtomicDeposit();
    assert OpOf(Report()) == Some(PAYMENT);
    PreemptedIsSwallowed(Preempting(), 4, Report(), PAYMENT);
  }
}
