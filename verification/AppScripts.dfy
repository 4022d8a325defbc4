/** Calls and bodies that run alone in the backend, event by event: each is its atomic operation. With them
    whole runs can be written down and followed. */
module AppScripts {
  import opened Prelude
  import opened Tables
  import opened Book
  import opened Calls
  import opened Service
  import opened Webhooks
  import opened Requests
  import opened JobQueue
  import opened App
  import opened AppCore

  lemma {:induction false} RunConcat(s: State, a: seq<Event>, b: seq<Event>)
    ensures RunFrom(s, a + b) == RunFrom(RunFrom(s, a), b)
  {
    if b == [] {
      assert a + b == a;
    } else {
      RunConcat(s, a, b[..|b| - 1]);
      assert (a + b)[..|a + b| - 1] == a + b[..|b| - 1];
    }
  }

  lemma RunSnoc(s: State, a: seq<Event>, e: Event)
    ensures RunFrom(s, a + [e]) == Next(RunFrom(s, a), e)
  {
    assert (a + [e])[..|a|] == a;
  }

  lemma RunTwo(s: State, a: Event, b: Event)
    ensures RunFrom(s, [a, b]) == Next(Next(s, a), b)
  {
    RunSnoc(s, [], a);
    assert [] + [a] == [a];
    RunSnoc(s, [a], b);
    assert [a] + [b] == [a, b];
  }

  lemma RunThree(s: State, a: Event, b: Event, c: Event)
    ensures RunFrom(s, [a, b, c]) == Next(Next(Next(s, a), b), c)
  {
    RunTwo(s, a, b);
    RunSnoc(s, [a, b], c);
    assert [a, b] + [c] == [a, b, c];
  }

  /** Nothing waits for the worker, and the thread is new. */
  predicate Quiet(s: State, id: nat) {
    s.worker.Idle? && s.queue.current.None? && s.queue.waiting == [] && forall k :: k in s.threads ==> k < id
  }

  /** The events did the uninterrupted call and entered it. */
  ghost predicate Performed(s: State, s': State, op: Op, author: Author) {
    var (db', done) := Perform(s.db, op);
    s'.db == db' && s'.lin == s.lin + [Entry(author, done.op, done.reply, done.effect)]
  }

  /** What happens when an operation runs alone: it is the atomic operation, and all is quiet again. */
  ghost predicate DidAlone(s: State, s': State, id: nat, op: Op, author: Author) {
    var o := Atomic(Abs(s.db), op);
    && Core(s') && Quiet(s', id + 1) && Abs(s'.db) == o.book
    && s'.lin == s.lin + [Entry(author, op, o.reply, o.effect)]
  }

  lemma PerformedAlone(s: State, s': State, id: nat, op: Op, author: Author)
    requires Core(s) && Core(s') && Quiet(s', id + 1) && Performed(s, s', op, author)
    ensures DidAlone(s, s', id, op, author)
  {
    PerformIsAtomic(s.db, op);
  }

  lemma FirstReadDecides(db: Db, op: Op)
    requires !op.Transfer?
    ensures var c := FirstRead(db, op);
      && c.op == op && (c.Ready? || c.Ended?)
      && Perform(db, op) == if c.Ready? then Submit(db, c) else (db, c)
  {
  }

  // ---- A direct call alone

  function DirectEvents(id: nat, op: Op): seq<Event> { [NewDirect(id, op), DoRead(id), DoSubmit(id, true)] }

  lemma DirectSteps(s: State, id: nat, op: Op)
    requires Quiet(s, id) && IsDirectOp(op)
    ensures var s' := RunFrom(s, DirectEvents(id, op));
      Quiet(s', id + 1) && Performed(s, s', op, ByThread(id)) && s'.locks == s.locks
  {
    RunThree(s, NewDirect(id, op), DoRead(id), DoSubmit(id, true));
    DirectReads(s, id, op);
    FirstReadDecides(s.db, op);
    assert s.lin + [] == s.lin;
  }

  lemma DirectReads(s: State, id: nat, op: Op)
    requires Quiet(s, id) && IsDirectOp(op)
    ensures var c := FirstRead(s.db, op);
      Next(Next(s, NewDirect(id, op)), DoRead(id))
        == s.(threads := s.threads[id := Direct(c, true)], lin := s.lin + EndOf(ByThread(id), c))
  {
    assert s.threads[id := Direct(Start(op), true)][id := Direct(FirstRead(s.db, op), true)]
        == s.threads[id := Direct(FirstRead(s.db, op), true)];
  }

  lemma DirectRun(trace: seq<Event>, id: nat, op: Op)
    requires Quiet(Run(trace), id) && IsDirectOp(op)
    ensures var s' := Run(trace + DirectEvents(id, op));
      DidAlone(Run(trace), s', id, op, ByThread(id)) && s'.locks == Run(trace).locks
  {
    DirectSteps(Run(trace), id, op);
    RunIsValid(trace);
    RunFromCore(Run(trace), DirectEvents(id, op));
    RunConcat(INIT, trace, DirectEvents(id, op));
    PerformedAlone(Run(trace), Run(trace + DirectEvents(id, op)), id, op, ByThread(id));
  }

  // ---- A client call alone

  function AskEvents(id: nat, r: KeyedRequest): seq<Event> { [NewClient(id, r), TryLock(id, true), DoRead(id)] }

  function DoEvents(id: nat): seq<Event> { [DoSubmit(id, true), DoComplete(id)] }

  function ClientEvents(id: nat, r: KeyedRequest): seq<Event> { AskEvents(id, r) + DoEvents(id) }

  lemma LockSteps(s: State, id: nat, r: KeyedRequest)
    requires id !in s.threads && r.FundRequest? && r.key !in s.locks
    ensures Next(Next(s, NewClient(id, r)), TryLock(id, true))
      == s.(threads := s.threads[id := Client(Start(Requested(r)), Working)], locks := s.locks + {r.key})
  {
    var op := Requested(r);
    assert s.threads[id := Client(Start(op), Locking)][id := Client(Start(op), Working)]
        == s.threads[id := Client(Start(op), Working)];
  }

  lemma AskSteps(s: State, id: nat, r: KeyedRequest)
    requires Quiet(s, id) && r.FundRequest? && r.key !in s.locks && FirstRead(s.db, Requested(r)).Ready?
    ensures RunFrom(s, AskEvents(id, r))
      == s.(threads := s.threads[id := Client(FirstRead(s.db, Requested(r)), Working)], locks := s.locks + {r.key})
  {
    RunThree(s, NewClient(id, r), TryLock(id, true), DoRead(id));
    LockSteps(s, id, r);
    WorkingRead(s.(threads := s.threads[id := Client(Start(Requested(r)), Working)], locks := s.locks + {r.key}), id,
                Requested(r));
    var op := Requested(r);
    assert s.threads[id := Client(Start(op), Working)][id := Client(FirstRead(s.db, op), Working)]
        == s.threads[id := Client(FirstRead(s.db, op), Working)];
  }

  lemma WorkingRead(s: State, id: nat, op: Op)
    requires id in s.threads && s.threads[id] == Client(Start(op), Working) && FirstRead(s.db, op).Ready?
    ensures Next(s, DoRead(id)) == s.(threads := s.threads[id := Client(FirstRead(s.db, op), Working)])
  {
    assert s.lin + [] == s.lin;
  }

  lemma DoSteps(s: State, id: nat, key: string)
    requires id in s.threads && s.threads[id].Client? && s.threads[id].pc.Working? && s.threads[id].call.Ready?
    requires IsClientOp(s.threads[id].call.op) && KeyOf(s.threads[id].call.op) == key && key in s.locks
    requires Submit(s.db, s.threads[id].call).1.reply.Done?
    ensures var s' := RunFrom(s, DoEvents(id)); var (db', done) := Submit(s.db, s.threads[id].call);
      && s'.db == db' && s'.lin == s.lin + EndOf(ByThread(id), done) && s'.locks == s.locks
      && s'.queue == s.queue && s'.worker == s.worker && s'.threads.Keys == s.threads.Keys
  {
    RunTwo(s, DoSubmit(id, true), DoComplete(id));
    assert s.locks + {key} == s.locks;
  }

  lemma ClientSteps(s: State, id: nat, r: KeyedRequest)
    requires Quiet(s, id) && r.FundRequest? && r.key !in s.locks && Perform(s.db, Requested(r)).1.reply.Done?
    ensures var s' := RunFrom(s, ClientEvents(id, r));
      Quiet(s', id + 1) && Performed(s, s', Requested(r), ByThread(id)) && s'.locks == s.locks + {r.key}
  {
    FundReady(s.db, r);
    AskSteps(s, id, r);
    RunConcat(s, AskEvents(id, r), DoEvents(id));
    var s1 := RunFrom(s, AskEvents(id, r));
    DoSteps(s1, id, r.key);
    var s' := RunFrom(s1, DoEvents(id));
    assert s'.threads.Keys == s.threads.Keys + {id};
    assert forall k :: k in s'.threads ==> k in s'.threads.Keys;
  }

  lemma FundReady(db: Db, r: KeyedRequest)
    requires r.FundRequest? && Perform(db, Requested(r)).1.reply.Done?
    ensures var c := FirstRead(db, Requested(r));
      c.Ready? && c.op == Requested(r) && Perform(db, Requested(r)) == Submit(db, c)
  {
  }

  lemma ClientRun(trace: seq<Event>, id: nat, r: KeyedRequest)
    requires Quiet(Run(trace), id) && r.FundRequest? && r.key !in Run(trace).locks
    requires Atomic(Abs(Run(trace).db), Requested(r)).reply.Done?
    ensures var s' := Run(trace + ClientEvents(id, r));
      DidAlone(Run(trace), s', id, Requested(r), ByThread(id)) && s'.locks == Run(trace).locks + {r.key}
  {
    RunIsValid(trace);
    PerformIsAtomic(Run(trace).db, Requested(r));
    ClientSteps(Run(trace), id, r);
    RunFromCore(Run(trace), ClientEvents(id, r));
    RunConcat(INIT, trace, ClientEvents(id, r));
    PerformedAlone(Run(trace), Run(trace + ClientEvents(id, r)), id, Requested(r), ByThread(id));
  }

  // ---- A body alone

  /** The handler's events; without a reference it takes no lock. */
  function HandleEvents(id: nat, p: Payload): seq<Event> {
    if p.reference == "" then [Deliver(id, p), DoPush(id, true)]
    else [Deliver(id, p), TryLock(id, true), DoPush(id, true)]
  }

  function WorkEvents(): seq<Event> { [WorkerRead, WorkerSubmit(true), WorkerClose] }

  function BodyEvents(id: nat, p: Payload): seq<Event> { HandleEvents(id, p) + [WorkerTake] + WorkEvents() }

  /** The lock the handler leaves behind. */
  function LockOf(p: Payload): set<string> { if p.reference == "" then {} else {p.reference} }

  predicate CanLock(s: State, p: Payload) { p.reference == "" || p.reference !in s.locks }

  predicate Handled(s: State, s': State, id: nat, p: Payload) {
    && s'.db == s.db && s'.lin == s.lin && s'.worker.Idle? && s'.queue == Push(s.queue, p)
    && s'.locks == s.locks + LockOf(p) && forall k :: k in s'.threads ==> k < id + 1
  }

  lemma PushSteps(s: State, id: nat, p: Payload)
    requires Quiet(s, id) && p.reference == ""
    ensures Handled(s, Next(Next(s, Deliver(id, p)), DoPush(id, true)), id, p)
  {
  }

  lemma LockedPushSteps(s: State, id: nat, p: Payload)
    requires Quiet(s, id) && p.reference != "" && p.reference !in s.locks
    ensures Handled(s, Next(Next(Next(s, Deliver(id, p)), TryLock(id, true)), DoPush(id, true)), id, p)
  {
    var s1 := Next(s, Deliver(id, p));
    assert s1 == s.(threads := s.threads[id := Handler(p, HLocking)]);
    assert Next(s1, TryLock(id, true))
        == s.(threads := s1.threads[id := Handler(p, HPushing)], locks := s.locks + {p.reference});
  }

  lemma HandleSteps(s: State, id: nat, p: Payload)
    requires Quiet(s, id) && CanLock(s, p)
    ensures Handled(s, RunFrom(s, HandleEvents(id, p)), id, p)
  {
    if p.reference == "" {
      RunTwo(s, Deliver(id, p), DoPush(id, true));
      PushSteps(s, id, p);
    } else {
      RunThree(s, Deliver(id, p), TryLock(id, true), DoPush(id, true));
      LockedPushSteps(s, id, p);
    }
  }

  predicate AtWork(s: State, id: nat, p: Payload, op: Op) {
    && s.worker == Busy(Start(op)) && s.queue.waiting == []
    && s.queue.current.Some? && s.queue.current.value.payload == p
    && forall k :: k in s.threads ==> k < id + 1
  }

  lemma TakeSteps(s: State, id: nat, p: Payload, op: Op)
    requires Quiet(s, id) && CanLock(s, p) && OpOf(p) == Some(op)
    ensures var s' := RunFrom(s, HandleEvents(id, p) + [WorkerTake]);
      && s'.db == s.db && s'.lin == s.lin && AtWork(s', id, p, op) && s'.locks == s.locks + LockOf(p)
  {
    HandleSteps(s, id, p);
    RunSnoc(s, HandleEvents(id, p), WorkerTake);
    assert RunFrom(s, HandleEvents(id, p)).queue.waiting == [Job(|s.queue.sent|, p, 0)];
  }

  lemma WorkSteps(s: State, id: nat, p: Payload, op: Op)
    requires AtWork(s, id, p, op) && !op.Transfer? && Perform(s.db, op).1.reply.Done?
    ensures var s' := RunFrom(s, WorkEvents());
      && Quiet(s', id + 1) && Performed(s, s', op, Attempt(s))
      && s'.queue.processed == s.queue.processed + [s.queue.current.value] && s'.locks == s.locks
  {
    RunThree(s, WorkerRead, WorkerSubmit(true), WorkerClose);
    FirstReadDecides(s.db, op);
    assert s.lin + [] == s.lin;
  }

  /** Somebody processed the body. */
  ghost predicate IsProcessed(s: State, p: Payload) {
    exists i :: 0 <= i < |s.queue.processed| && s.queue.processed[i].payload == p
  }

  lemma BodyAlone(s: State, id: nat, p: Payload, op: Op)
    requires Core(s) && Quiet(s, id) && CanLock(s, p) && OpOf(p) == Some(op)
    requires Atomic(Abs(s.db), op).reply.Done? && !op.Transfer?
    ensures var s' := RunFrom(s, BodyEvents(id, p));
      (exists author :: DidAlone(s, s', id, op, author)) && IsProcessed(s', p) && s'.locks == s.locks + LockOf(p)
  {
    var taking := HandleEvents(id, p) + [WorkerTake];
    TakeSteps(s, id, p, op);
    PerformIsAtomic(s.db, op);
    var s1 := RunFrom(s, taking);
    WorkSteps(s1, id, p, op);
    RunConcat(s, taking, WorkEvents());
    RunFromCore(s, BodyEvents(id, p));
    var s' := RunFrom(s, BodyEvents(id, p));
    PerformedAlone(s, s', id, op, Attempt(s1));
    assert s'.queue.processed[|s1.queue.processed|].payload == p;
  }

  // ---- A first user

  function Enrolling(): seq<Event> {
    DirectEvents(0, NewUser("u")) + DirectEvents(1, NewWallet(0, "a")) + DirectEvents(2, NewAsset(0))
  }

  const ENROLLED := Book([User("u")], [Wallet("a", 0)], map[(0, "NGN") := 0.0], [])

  /** The run ends quiet, unlocked, with this ledger, and has refunded nothing. */
  ghost predicate Reaches(trace: seq<Event>, id: nat, b: Book) {
    && Quiet(Run(trace), id) && Abs(Run(trace).db) == b && Run(trace).locks == {}
    && forall i :: 0 <= i < |Run(trace).lin| ==> !Run(trace).lin[i].effect.Refunded?
  }

  lemma Reached(trace: seq<Event>, id: nat, b: Book, op: Op, b': Book)
    requires Reaches(trace, id, b) && IsDirectOp(op) && Atomic(b, op).book == b'
    ensures Reaches(trace + DirectEvents(id, op), id + 1, b')
  {
    DirectRun(trace, id, op);
  }

  lemma AtomicEnrolled()
    ensures Atomic(Abs(EMPTY), NewUser("u")).book == Book([User("u")], [], map[], [])
    ensures Atomic(Book([User("u")], [], map[], []), NewWallet(0, "a")).book
      == Book([User("u")], [Wallet("a", 0)], map[], [])
    ensures Atomic(Book([User("u")], [Wallet("a", 0)], map[], []), NewAsset(0)).book == ENROLLED
  {
  }

  lemma EnrollingReaches()
    ensures Reaches(Enrolling(), 3, ENROLLED)
  {
    AtomicEnrolled();
    var b1, b2 := Book([User("u")], [], map[], []), Book([User("u")], [Wallet("a", 0)], map[], []);
    Reached([], 0, Abs(EMPTY), NewUser("u"), b1);
    assert [] + DirectEvents(0, NewUser("u")) == DirectEvents(0, NewUser("u"));
    Reached(DirectEvents(0, NewUser("u")), 1, b1, NewWallet(0, "a"), b2);
    Reached(DirectEvents(0, NewUser("u")) + DirectEvents(1, NewWallet(0, "a")), 2, b2, NewAsset(0), ENROLLED);
  }
}
