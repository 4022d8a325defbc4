/** The Redis wrapper and the services as objects, in the shape of the Go code: lock, call the repository,
    then complete or release; pop, process, then retry or bury. */
module Services {
  import opened Prelude
  import opened Tables
  import opened Book
  import opened Calls
  import opened Journal
  import opened Webhooks
  import opened Requests
  import opened JobQueue
  import opened Service
  import opened Repository

  /** internals/pkg/redis.go: idempotency keys, wallet cache and webhook queue. */
  class RedisQueue {
    var idemp: map<string, KeyValue>
    var cache: map<nat, View>
    var queue: Queue

    constructor ()
      ensures idemp == map[] && cache == map[] && queue == EmptyQueue()
    {
      idemp, cache, queue := map[], map[], EmptyQueue();
    }

    /** SETNX. The callers drop the error, so an unreachable Redis reads as a key already taken. */
    method TryLockIdempotencyKey(key: string, reachable: bool) returns (locked: bool)
      modifies this`idemp
      ensures locked <==> reachable && key !in old(idemp)
      ensures idemp == if locked then old(idemp)[key := Processing] else old(idemp)
    {
      locked := reachable && key !in idemp;
      if locked {
        idemp := idemp[key := Processing];
      }
    }

    method SetCompleted(key: string)
      modifies this`idemp
      ensures idemp == old(idemp)[key := Completed]
    {
      idemp := idemp[key := Completed];
    }

    method DeleteKey(key: string)
      modifies this`idemp
      ensures idemp == old(idemp) - {key}
    {
      idemp := idemp - {key};
    }

    method DeleteWallet(user: nat)
      modifies this`cache
      ensures cache == Without(old(cache), user)
    {
      cache := Without(cache, user);
    }

    /** RPUSH of a fresh job; a failing push leaves the list alone. */
    method Enqueue(p: Payload, reachable: bool) returns (failed: bool)
      modifies this`queue
      ensures failed <==> !reachable
      ensures queue == if reachable then Push(old(queue), p) else old(queue)
    {
      if !reachable {
        return true;
      }
      var j := Job(|queue.sent|, p, 0);
      queue := queue.(waiting := queue.waiting + [j], sent := queue.sent + [p], failures := queue.failures + [0]);
      return false;
    }

    /** BLPOP. */
    method Pop() returns (j: Job)
      requires queue.current.None? && queue.waiting != []
      modifies this`queue
      ensures queue == Take(old(queue)) && j == old(queue).waiting[0]
    {
      j := queue.waiting[0];
      queue := queue.(waiting := queue.waiting[1..], current := Some(j), attempted := queue.attempted + [j.tag]);
    }

    /** Counts the failed attempt, then pushes the job to the back of its list or to the dead letters. */
    method HandleFailure(j: Job)
      requires queue.current == Some(j)
      modifies this`queue
      ensures queue == Close(old(queue), false)
    {
      var j' := j.(retries := j.retries + 1);
      if j.tag < |queue.failures| {
        queue := queue.(failures := queue.failures[j.tag := queue.failures[j.tag] + 1]);
      }
      if j'.retries < MAX_RETRIES {
        queue := queue.(waiting := queue.waiting + [j'], current := None);
      } else {
        queue := queue.(dead := queue.dead + [j'], current := None);
      }
    }

    /** The body of the worker loop. */
    method Attempt(payments: PaymentService, outage: bool) returns (ok: bool)
      requires payments.redis == this && Valid(payments.repo.Tables())
      requires queue.current.None? && queue.waiting != []
      modifies this`queue, this`cache, payments.repo
      ensures (payments.Store(), queue) == WorkOnce(old(payments.Store()), old(queue), outage)
      ensures queue == Iterate(old(queue), ok)
      ensures Valid(payments.repo.Tables())
    {
      var j := Pop();
      ok := payments.ProcessPaystackEvent(j.payload, outage);
      if ok {
        queue := queue.(processed := queue.processed + [j], current := None);
      } else {
        HandleFailure(j);
      }
    }

    /** The first turns of the worker loop. Before each turn handlers may have pushed bodies; a turn that finds the
        list empty blocks. outages says which attempts find the database unreachable. When nothing arrives, as many
        turns as the waiting jobs have attempts left empty the list, whatever fails. */
    method StartWorker(payments: PaymentService, turns: nat, arrivals: nat -> seq<Payload>, outages: nat -> bool)
      requires payments.redis == this && Valid(payments.repo.Tables()) && queue.current.None?
      modifies this`queue, this`cache, payments.repo
      ensures (payments.Store(), queue) == Work(old(payments.Store()), old(queue), arrivals, outages, turns)
      ensures Valid(payments.repo.Tables()) && queue.current.None?
      ensures (forall k: nat :: arrivals(k) == []) && Fresh(old(queue).waiting) ==>
        turns >= Potential(old(queue).waiting) ==> queue.waiting == []
    {
      ghost var s0, q0 := payments.Store(), queue;
      var i := 0;
      while i < turns
        invariant i <= turns && Valid(payments.repo.Tables()) && queue.current.None?
        invariant (payments.Store(), queue) == Work(s0, q0, arrivals, outages, i)
      {
        Turn(payments, arrivals(i), outages(i));
        i := i + 1;
      }
      if Fresh(q0.waiting) && forall k: nat :: arrivals(k) == [] {
        WorkDrains(s0, q0, arrivals, outages, turns);
      }
    }

    method Turn(payments: PaymentService, arrived: seq<Payload>, outage: bool)
      requires payments.redis == this && Valid(payments.repo.Tables()) && queue.current.None?
      modifies this`queue, this`cache, payments.repo
      ensures (payments.Store(), queue) == WorkOnce(old(payments.Store()), PushAll(old(queue), arrived), outage)
      ensures Valid(payments.repo.Tables()) && queue.current.None?
    {
      PushAllIdle(queue, arrived);
      queue := PushAll(queue, arrived);
      if queue.waiting != [] {
        var _ := Attempt(payments, outage);
      }
    }
  }

  /** One turn of the worker. */
  function WorkOnce(s: Service.Store, q: Queue, outage: bool): (Service.Store, Queue) {
    if q.current.Some? || q.waiting == [] then (s, q)
    else
      var (s', ok) := Processed(s, q.waiting[0].payload, outage);
      (s', Iterate(q, ok))
  }

  /** The first n turns. */
  function Work(s: Service.Store, q: Queue, arrivals: nat -> seq<Payload>, outages: nat -> bool, n: nat)
    : (Service.Store, Queue)
  {
    if n == 0 then (s, q)
    else
      var (s', q') := Work(s, q, arrivals, outages, n - 1);
      WorkOnce(s', PushAll(q', arrivals(n - 1)), outages(n - 1))
  }

  /** One turn on a non-empty list, spelled out: the first job is processed, in an outage or not; it is done with, or
      goes to the back with one more retry, or, failing for the third time, to the dead letters. */
  lemma TurnExactly(s: Service.Store, q: Queue, outage: bool)
    requires q.current.None? && q.waiting != []
    ensures var (s', q') := WorkOnce(s, q, outage); var j := q.waiting[0];
      var (done, ok) := Processed(s, j.payload, outage);
      var again := Job(j.tag, j.payload, j.retries + 1);
      && s' == done && q'.current.None?
      && q'.processed == q.processed + (if ok then [j] else [])
      && q'.waiting == q.waiting[1..] + (if !ok && j.retries + 1 < 3 then [again] else [])
      && q'.dead == q.dead + (if !ok && j.retries + 1 >= 3 then [again] else [])
  {
  }

  /** Without arrivals every turn takes one attempt off what the waiting jobs have left. */
  lemma {:induction false} WorkDrains(s: Service.Store, q: Queue, arrivals: nat -> seq<Payload>,
                                      outages: nat -> bool, n: nat)
    requires q.current.None? && Fresh(q.waiting) && forall k: nat :: arrivals(k) == []
    ensures var q' := Work(s, q, arrivals, outages, n).1; q'.current.None? && Draining(q', n, Potential(q.waiting))
    ensures n >= Potential(q.waiting) ==> Work(s, q, arrivals, outages, n).1.waiting == []
  {
    if n > 0 {
      WorkDrains(s, q, arrivals, outages, n - 1);
      var (s1, q1) := Work(s, q, arrivals, outages, n - 1);
      assert PushAll(q1, []) == q1;
      TurnDrains(s1, q1, outages(n - 1), n - 1, Potential(q.waiting));
    }
    NonEmptyPotential(Work(s, q, arrivals, outages, n).1.waiting);
  }

  lemma TurnDrains(s: Service.Store, q: Queue, outage: bool, turns: nat, potential: nat)
    requires q.current.None? && Draining(q, turns, potential)
    ensures var q' := WorkOnce(s, q, outage).1; q'.current.None? && Draining(q', turns + 1, potential)
  {
    if q.waiting != [] {
      IterateDecreases(q, true);
      IterateDrains(q, turns, potential);
    }
  }

  /** What the gateway says of a payment, amounts in minor units. */
  datatype Verification = Unreachable | Unpaid | Paid(email: string, currency: string, amount: real)

  /** internals/service/payment_service.go. */
  class PaymentService {
    const repo: WalletRepository
    const redis: RedisQueue

    constructor (repo: WalletRepository, redis: RedisQueue)
      ensures this.repo == repo && this.redis == redis
    {
      this.repo, this.redis := repo, redis;
    }

    ghost function Store(): Service.Store
      reads repo, redis
    {
      Service.Store(repo.Tables(), redis.idemp, redis.cache)
    }

    method ProcessPaystackEvent(p: Payload, outage: bool) returns (ok: bool)
      requires Valid(repo.Tables())
      modifies repo, redis`cache
      ensures (Store(), ok) == Processed(old(Store()), p, outage)
      ensures Valid(repo.Tables())
    {
      if p.content.None? {
        return false;
      }
      var c := p.content.value;
      if c.event == "charge.success" && c.status == "success" {
        ChargeProcessed(Store(), p, outage);
        if outage { return false; }
        ok := ProcessCharge(c, p.reference);
        return;
      }
      TransferProcessed(Store(), p, outage);
      if c.event == "transfer.success" {
        if outage { return false; }
        var r := repo.UpdateTransactionStatus(c.code);
        return r.Done?;
      }
      if c.event == "transfer.failed" || c.event == "transfer.reversed" {
        if outage { return true; }
        var r := repo.RefundWithdrawal(c.code);
        return r.Done?;
      }
      return true;
    }

    method ProcessCharge(c: Content, reference: string) returns (ok: bool)
      requires Valid(repo.Tables())
      modifies repo, redis`cache
      ensures var pay := CreditByEmail(c.email, c.currency, c.amount / 100.0, reference);
        var (db, done) := Perform(old(repo.Tables()), pay);
        Store() == Service.Store(db, redis.idemp, Forget(old(Store()), c.email)) && ok == done.reply.Done?
      ensures Valid(repo.Tables())
    {
      ForgetWallet(c.email);
      var r := repo.CreditWalletByEmail(c.email, c.currency, c.amount / 100.0, reference);
      return r.Done?;
    }

    method ForgetWallet(email: string)
      modifies redis`cache
      ensures redis.cache == Forget(old(Store()), email)
    {
      var user := FindUser(repo.users, email);
      if user.Some? {
        redis.DeleteWallet(user.value);
      }
    }

    /** Nothing happens unless the gateway reports the payment successful; then its credit and the invalidation. A
        served call finds the transaction of the reference, if the last read gets through. */
    method VerifyAndCredit(verified: Verification, reference: string, readable: bool)
      returns (a: Answer, tx: Option<Row>)
      requires Valid(repo.Tables())
      modifies repo, redis`cache
      ensures !verified.Paid? ==> a == NotPaid && Store() == old(Store())
      ensures verified.Paid? ==>
        (Store(), a) == ServeVerify(old(Store()), verified.email, verified.currency, verified.amount / 100.0, reference)
      ensures Valid(repo.Tables())
      ensures tx.Some? <==> a.Served? && readable
      ensures tx.Some? ==> tx.value in repo.log && tx.value.reference == reference
    {
      tx := None;
      if !verified.Paid? {
        a := NotPaid;
        return;
      }
      var amount := verified.amount / 100.0;
      CreditLeaves(repo.Tables(), verified.email, verified.currency, amount, reference);
      var r := repo.CreditWalletByEmail(verified.email, verified.currency, amount, reference);
      if r.Rejected? {
        a := Refused(r.error);
        return;
      }
      ForgetWallet(verified.email);
      a := Served;
      if readable {
        tx := Some(repo.log[IndexOf(repo.log, RowHasReference(reference)).value]);
      }
    }
  }

  /** The dispatch on the event, spelled out. */
  lemma ChargeProcessed(s: Service.Store, p: Payload, outage: bool)
    requires p.content.Some? && p.content.value.event == "charge.success" && p.content.value.status == "success"
    ensures var c := p.content.value;
      var (db, done) := Perform(s.db, CreditByEmail(c.email, c.currency, c.amount / 100.0, p.reference));
      Processed(s, p, outage)
        == if outage then (s, false) else (Service.Store(db, s.idemp, Forget(s, c.email)), done.reply.Done?)
  {
  }

  lemma TransferProcessed(s: Service.Store, p: Payload, outage: bool)
    requires p.content.Some?
    ensures var c := p.content.value;
      c.event == "transfer.success" ==>
        var (db, done) := Perform(s.db, MarkSuccess(c.code));
        Processed(s, p, outage) == if outage then (s, false) else (s.(db := db), done.reply.Done?)
    ensures var c := p.content.value;
      c.event == "transfer.failed" || c.event == "transfer.reversed" ==>
        var (db, done) := Perform(s.db, Refund(c.code));
        Processed(s, p, outage) == if outage then (s, true) else (s.(db := db), done.reply.Done?)
  {
  }

  /** A credit that succeeds adds no user, and its reference is in the log. */
  lemma CreditLeaves(db: Db, email: string, c: string, x: real, ref: string)
    requires Valid(db)
    ensures var (db', done) := Perform(db, CreditByEmail(email, c, x, ref)); done.reply.Done? ==>
      FindUser(db'.users, email) == FindUser(db.users, email) && RefUsed(db'.log, ref)
  {
    PerformIsAtomic(db, CreditByEmail(email, c, x, ref));
    if Atomic(Abs(db), CreditByEmail(email, c, x, ref)).reply.Done? {
      CreditDone(Abs(db), CreditByEmail(email, c, x, ref));
    }
  }

  /** A right cache, like the database, answers with the user's wallet. */
  lemma CachedViews(s: Service.Store, user: nat)
    requires Valid(s.db)
    ensures Coherent(s) && user in s.cache ==> IsViewOf(s.db, user, s.cache[user])
    ensures ViewOf(s.db, user).Some? ==> IsViewOf(s.db, user, ViewOf(s.db, user).value)
    ensures ViewOf(s.db, user).None? ==> forall w: nat :: w < |s.db.wallets| ==> s.db.wallets[w].userId != user
  {
    if ViewOf(s.db, user).Some? {
      ViewExactly(s.db, user, ViewOf(s.db, user).value);
    }
  }

  /** Releasing a fresh lock undoes it; completing it forgets that it was one. */
  lemma LockThenSettle(idemp: map<string, KeyValue>, key: string)
    requires key !in idemp
    ensures idemp[key := Processing] - {key} == idemp
    ensures idemp[key := Processing][key := Completed] == idemp[key := Completed]
  {
  }

  /** internals/service/wallet_service.go. */
  class WalletService {
    const repo: WalletRepository
    const redis: RedisQueue

    constructor (repo: WalletRepository, redis: RedisQueue)
      ensures this.repo == repo && this.redis == redis
    {
      this.repo, this.redis := repo, redis;
    }

    ghost function Store(): Service.Store
      reads repo, redis
    {
      Service.Store(repo.Tables(), redis.idemp, redis.cache)
    }

    method GetWalletWithAssets(user: nat) returns (a: Answer)
      requires Valid(repo.Tables())
      modifies redis`cache
      ensures (Store(), a) == ServeGet(old(Store()), user)
      ensures old(Coherent(Store())) && a.Found? ==> IsViewOf(repo.Tables(), user, a.view)
      ensures a.NotFound? ==> forall w: nat :: w < |repo.wallets| ==> repo.wallets[w].userId != user
    {
      CachedViews(Store(), user);
      if user in redis.cache {
        return Found(redis.cache[user]);
      }
      var wallet := ViewOf(repo.Tables(), user);
      if wallet.None? {
        return NotFound;
      }
      redis.cache := redis.cache[user := wallet.value];
      return Found(wallet.value);
    }

    /** The tail shared by the keyed requests: complete, or keep the key of a duplicate, or release it. */
    method Finish(key: string, r: Reply, user: nat, other: Option<nat>) returns (a: Answer)
      modifies redis`idemp, redis`cache
      ensures r.Done? ==> a == Served && redis.idemp == old(redis.idemp)[key := Completed]
      ensures r.Done? && other.None? ==> redis.cache == Without(old(redis.cache), user)
      ensures r.Done? && other.Some? ==> redis.cache == Without(Without(old(redis.cache), user), other.value)
      ensures r.Rejected? ==> redis.cache == old(redis.cache)
      ensures r.Rejected? && r.error == Database(UniqueViolation) ==>
        a == AlreadyProcessed && redis.idemp == old(redis.idemp)
      ensures r.Rejected? && r.error != Database(UniqueViolation) ==>
        a == Refused(r.error) && redis.idemp == old(redis.idemp) - {key}
    {
      if r.Rejected? {
        if r.error == Database(UniqueViolation) {
          return AlreadyProcessed;
        }
        redis.DeleteKey(key);
        return Refused(r.error);
      }
      redis.SetCompleted(key);
      redis.DeleteWallet(user);
      if other.Some? {
        redis.DeleteWallet(other.value);
      }
      return Served;
    }

    /** reachable says whether Redis answers the attempt to lock; if not, the request is taken for a duplicate. */
    method FundWallet(user: nat, currency: string, amount: real, key: string, reachable: bool) returns (a: Answer)
      requires Valid(repo.Tables())
      modifies repo, redis`idemp, redis`cache
      ensures reachable ==> (Store(), a) == ServeKeyed(old(Store()), FundRequest(user, currency, amount, key), true)
      ensures !reachable ==> (Store(), a) == (old(Store()), AlreadyProcessed)
      ensures Valid(repo.Tables())
      ensures !a.Served? && !a.AlreadyProcessed? ==> Store() == old(Store())
    {
      RefusalKeepsDb(repo.Tables(), Fund(user, currency, amount, key));
      ghost var idemp := redis.idemp;
      var locked := redis.TryLockIdempotencyKey(key, reachable);
      if !locked {
        return AlreadyProcessed;
      }
      FundIsCredit(repo.Tables(), user, currency, amount, key);
      var asset := GetAssetByCurrency(repo.Tables(), user, currency);
      var r := Rejected(NoSourceAsset);
      if asset.Some? {
        r := repo.CreditWallet(repo.assets[asset.value].walletId, currency, amount, key);
      }
      a := Finish(key, r, user, None);
      LockThenSettle(idemp, key);
    }

    /** quote is the answer of the rates API; it is not asked for within one currency. */
    method SwapFunds(user: nat, from: string, to: string, amountIn: real, quote: Option<real>, key: string,
                     reachable: bool)
      returns (a: Answer)
      requires Valid(repo.Tables())
      modifies repo, redis`idemp, redis`cache
      ensures var r := SwapRequest(user, from, to, amountIn, if quote.Some? then quote.value else 0.0, key);
        reachable ==> (Store(), a) == ServeKeyed(old(Store()), r, quote.Some?)
      ensures !reachable ==> (Store(), a) == (old(Store()), AlreadyProcessed)
      ensures Valid(repo.Tables())
      ensures !a.Served? && !a.AlreadyProcessed? ==> Store() == old(Store())
    {
      ghost var idemp := redis.idemp;
      var locked := redis.TryLockIdempotencyKey(key, reachable);
      if !locked {
        return AlreadyProcessed;
      }
      LockThenSettle(idemp, key);
      if from != to && quote.None? {
        redis.DeleteKey(key);
        return NoRate;
      }
      var op := Requested(SwapRequest(user, from, to, amountIn, if quote.Some? then quote.value else 0.0, key));
      RefusalKeepsDb(repo.Tables(), op);
      var r := repo.SwapFunds(user, from, to, amountIn, op.amountOut, key);
      a := Finish(key, r, user, None);
    }

    method TransferFunds(user: nat, account: string, currency: string, amount: real, key: string, reachable: bool)
      returns (a: Answer)
      requires Valid(repo.Tables())
      modifies repo, redis`idemp, redis`cache
      ensures reachable ==>
        (Store(), a) == ServeKeyed(old(Store()), TransferRequest(user, account, currency, amount, key), true)
      ensures !reachable ==> (Store(), a) == (old(Store()), AlreadyProcessed)
      ensures Valid(repo.Tables())
      ensures !a.Served? && !a.AlreadyProcessed? ==> Store() == old(Store())
    {
      RefusalKeepsDb(repo.Tables(), Op.Transfer(user, account, currency, amount, key));
      ghost var idemp := redis.idemp;
      var locked := redis.TryLockIdempotencyKey(key, reachable);
      if !locked {
        return AlreadyProcessed;
      }
      LockThenSettle(idemp, key);
      if user >= |repo.users| {
        redis.DeleteKey(key);
        return NotFound;
      }
      var receiver := WalletOfAccount(repo.wallets, account);
      if receiver.None? {
        redis.DeleteKey(key);
        return Refused(NoRecipient);
      }
      var other := repo.wallets[receiver.value].userId;
      if other == user {
        redis.DeleteKey(key);
        return Refused(SelfTransfer);
      }
      var r := repo.TransferFunds(user, account, currency, amount, key);
      a := Finish(key, r, user, Some(other));
    }

    /** The debit of a withdrawal the gateway has accepted, and its invalidation. */
    method WithdrawFunds(user: nat, currency: string, amount: real, reference: string, code: string)
      returns (a: Answer)
      requires Valid(repo.Tables())
      modifies repo, redis`cache
      ensures (Store(), a) == ServeWithdraw(old(Store()), user, currency, amount, reference, code)
      ensures Valid(repo.Tables())
    {
      var r := repo.DebitForWithdrawal(user, currency, amount, reference, code);
      if r.Rejected? {
        return Refused(r.error);
      }
      redis.DeleteWallet(user);
      return Served;
    }
  }

  /** The webhook end point of internals/server/paystack_handler.go, after the signature check. */
  class Server {
    const redis: RedisQueue

    constructor (redis: RedisQueue)
      ensures this.redis == redis
    {
      this.redis := redis;
    }

    /** A duplicate is acknowledged and dropped, and so is any body whose lock Redis does not answer; a body is
        enqueued under its lock; a failed push answers 500 and gives the lock back so that the gateway's next
        delivery gets through. An acknowledged fresh reference is enqueued exactly when Redis answered. */
    method PaystackWebhookHandler(p: Payload, lockable: bool, pushable: bool) returns (status: nat)
      modifies redis`idemp, redis`queue
      ensures var accepted := p.reference == "" || (lockable && p.reference !in old(redis.idemp));
        && (status == 200 <==> !accepted || pushable)
        && (status == 500 <==> accepted && !pushable)
        && redis.queue == (if accepted && pushable then Push(old(redis.queue), p) else old(redis.queue))
        && redis.idemp == if accepted && pushable && p.reference != "" then old(redis.idemp)[p.reference := Processing]
                          else old(redis.idemp)
      ensures status == 200 && p.reference != "" && p.reference !in old(redis.idemp) ==>
        (redis.queue == Push(old(redis.queue), p) <==> lockable)
    {
      if p.reference != "" {
        var locked := redis.TryLockIdempotencyKey(p.reference, lockable);
        if !locked {
          return 200;
        }
      }
      var failed := redis.Enqueue(p, pushable);
      if failed {
        if p.reference != "" {
          redis.DeleteKey(p.reference);
          assert old(redis.idemp)[p.reference := Processing] - {p.reference} == old(redis.idemp);
        }
        return 500;
      }
      return 200;
    }
  }
}
