/** What every reachable state of the backend satisfies, and the linearization of every run. */
module AppCore {
  import opened Prelude
  import opened Tables
  import opened Book
  import opened Calls
  import opened Refinement
  import opened Webhooks
  import opened JobQueue
  import opened App

  ghost predicate ThreadOk(db: Db, t: Thread) {
    match t
    case Client(call, pc) => IsClientOp(call.op) && CallOk(db, call)
    case Direct(call, _) => IsDirectOp(call.op) && CallOk(db, call)
    case Handler(_, _) => true
  }

  /** The worker works on the operation of the job it took. */
  ghost predicate WorkerOk(db: Db, q: Queue, w: Worker) {
    match w
    case Idle => q.current.None?
    case Busy(call) => q.current.Some? && OpOf(q.current.value.payload) == Some(call.op) && CallOk(db, call)
    case Closing(_) => q.current.Some?
  }

  ghost predicate ThreadsOk(db: Db, threads: map<nat, Thread>) {
    forall id :: id in threads ==> ThreadOk(db, threads[id])
  }

  ghost predicate Core(s: State) {
    Valid(s.db) && ThreadsOk(s.db, s.threads) && WorkerOk(s.db, s.queue, s.worker)
  }

  // ---- The database part of a step

  /** Only the worker's operations rewrite a logged row. */
  predicate Restamps(op: Op) { op.Refund? || op.MarkSuccess? }

  lemma BatchKeeps(db: Db, call: Call)
    requires Valid(db) && call.Ready? && CallOk(db, call)
    ensures var db' := Submit(db, call).0; Valid(db') && Extends(db, db') && (!Restamps(call.op) ==> db.log <= db'.log)
  {
    SubmitKeeps(db, call);
  }

  lemma ThreadsStable(db: Db, db': Db, threads: map<nat, Thread>)
    requires ThreadsOk(db, threads) && Extends(db, db')
    ensures ThreadsOk(db', threads)
  {
    forall id | id in threads
      ensures ThreadOk(db', threads[id])
    {
      var t := threads[id];
      assert ThreadOk(db, t);
      if !t.Handler? {
        CallOkStable(db, db', t.call);
      }
    }
  }

  lemma WorkerStable(db: Db, db': Db, q: Queue, w: Worker)
    requires WorkerOk(db, q, w) && Extends(db, db') && db.log <= db'.log
    ensures WorkerOk(db', q, w)
  {
    if w.Busy? {
      CallOkStable(db, db', w.call);
    }
  }

  lemma ThreadStepCore(s: State, e: Event, t: Thread)
    requires Core(s) && IsThreadEvent(e) && e.id in s.threads && t == s.threads[e.id]
    ensures Core(ThreadNext(s, e, t))
  {
    assert ThreadOk(s.db, t);
    if e.DoRead? {
      if Active(t) && CanRead(t.call) { ReadRefines(s.db, t.call); }
    } else if e.DoSubmit? {
      if Active(t) && t.call.Ready? { OthersStable(s, t.call); }
    } else {
      OtherThreadSteps(s, e, t);
    }
  }

  /** All other steps of a thread leave the database and its call alone. */
  lemma OtherThreadSteps(s: State, e: Event, t: Thread)
    requires IsThreadEvent(e) && !e.DoRead? && !e.DoSubmit? && e.id in s.threads && t == s.threads[e.id]
    ensures var s' := ThreadNext(s, e, t);
      && s'.db == s.db && s'.worker == s.worker && s'.queue.current == s.queue.current
      && s'.threads.Keys == s.threads.Keys
      && (forall id :: id in s.threads && id != e.id ==> s'.threads[id] == s.threads[id])
      && match t
         case Client(call, _) => s'.threads[e.id].Client? && s'.threads[e.id].call == call
         case Direct(call, _) => s'.threads[e.id].Direct? && s'.threads[e.id].call == call
         case Handler(_, _) => s'.threads[e.id].Handler?
  {
  }

  /** A thread's batch leaves what all others remember true. */
  lemma OthersStable(s: State, call: Call)
    requires Core(s) && call.Ready? && CallOk(s.db, call) && !Restamps(call.op)
    ensures Core(s.(db := Submit(s.db, call).0))
  {
    var db' := Submit(s.db, call).0;
    BatchKeeps(s.db, call);
    ThreadsStable(s.db, db', s.threads);
    WorkerStable(s.db, db', s.queue, s.worker);
  }

  lemma WorkerStepCore(s: State, e: Event)
    requires Core(s) && IsWorkerEvent(e)
    ensures Core(WorkerNext(s, e))
  {
    if s.worker.Busy? {
      var call := s.worker.call;
      if e.WorkerRead? && CanRead(call) {
        ReadRefines(s.db, call);
      }
      if e.WorkerSubmit? && call.Ready? {
        var db' := Submit(s.db, call).0;
        BatchKeeps(s.db, call);
        ThreadsStable(s.db, db', s.threads);
      }
    }
  }

  lemma NextCore(s: State, e: Event)
    requires Core(s)
    ensures Core(Next(s, e))
  {
    if IsWorkerEvent(e) {
      WorkerStepCore(s, e);
    } else if IsThreadEvent(e) && e.id in s.threads {
      ThreadStepCore(s, e, s.threads[e.id]);
    }
  }

  lemma {:induction false} RunFromCore(s: State, trace: seq<Event>)
    requires Core(s)
    ensures Core(RunFrom(s, trace))
  {
    if trace != [] {
      RunFromCore(s, trace[..|trace| - 1]);
      NextCore(RunFrom(s, trace[..|trace| - 1]), trace[|trace| - 1]);
    }
  }

  lemma InitCore()
    ensures Core(INIT)
  {
  }

  // ---- What a step does to the database and to the linearization

  /** The state after an event, as far as the database and the linearization go. */
  ghost predicate Shape(s: State, e: Event, s': State) {
    var c := Acting(s, e);
    if c.None? then s'.db == s.db && s'.lin == s.lin
    else
      && CallOk(s.db, c.value)
      && if c.value.Ready? then
           var (db', done) := Submit(s.db, c.value);
           s'.db == db' && s'.lin == s.lin + EndOf(AuthorOf(s, e), done)
         else CanRead(c.value) && s'.db == s.db && s'.lin == s.lin + EndOf(AuthorOf(s, e), Read(s.db, c.value))
  }

  lemma NextShape(s: State, e: Event)
    requires Core(s)
    ensures Shape(s, e, Next(s, e))
  {
    if IsThreadEvent(e) && e.id in s.threads {
      assert ThreadOk(s.db, s.threads[e.id]);
    }
  }

  /** Every step of every run is either invisible to the ledger or one atomic operation on it, with the
      reply the call then returns. A refusal by a read leaves the ledger alone and is the atomic refusal. */
  lemma StepRefines(s: State, e: Event)
    requires Core(s)
    ensures var s' := Next(s, e); var b := Abs(s.db); var b' := Abs(s'.db);
      || (s'.lin == s.lin && b' == b)
      || (|s'.lin| == |s.lin| + 1 && s'.lin[..|s.lin|] == s.lin && Acting(s, e).Some?
          && var l := s'.lin[|s.lin|];
             && l.op == Acting(s, e).value.op && l.author == AuthorOf(s, e)
             && Atomic(b, l.op) == Outcome(b', l.reply, l.effect))
  {
    NextShape(s, e);
    var c := Acting(s, e);
    if c.Some? {
      if c.value.Ready? {
        SubmitSimulates(s.db, c.value);
      } else {
        ReadRefines(s.db, c.value);
      }
    }
  }

  // ---- Linearizability of whole runs

  /** The ledger after executing the entries one by one, atomically. */
  function Replay(b: Book, lin: seq<Entry>): Book {
    if lin == [] then b else Atomic(Replay(b, lin[..|lin| - 1]), lin[|lin| - 1].op).book
  }

  /** Every entry's reply and effect are those of the atomic operation at its place in the order. */
  ghost predicate Honest(b: Book, lin: seq<Entry>) {
    forall i :: 0 <= i < |lin| ==> HonestAt(b, lin, i)
  }

  ghost predicate HonestAt(b: Book, lin: seq<Entry>, i: nat)
    requires i < |lin|
  {
    var o := Atomic(Replay(b, lin[..i]), lin[i].op);
    o.reply == lin[i].reply && o.effect == lin[i].effect
  }

  /** Any interleaving of any number of calls has the effect and the replies of a sequential execution of
      atomic operations. */
  lemma {:induction false} Linearizable(trace: seq<Event>)
    ensures var s := Run(trace);
      Abs(s.db) == Replay(Abs(EMPTY), s.lin) && Honest(Abs(EMPTY), s.lin)
  {
    if trace != [] {
      var before := trace[..|trace| - 1];
      var s := Run(before);
      Linearizable(before);
      InitCore();
      RunFromCore(INIT, before);
      StepRefines(s, trace[|trace| - 1]);
      var s' := Run(trace);
      if s'.lin != s.lin {
        assert s'.lin == s.lin + [s'.lin[|s.lin|]];
        HonestAppend(Abs(EMPTY), s.lin, s'.lin[|s.lin|]);
      }
    }
  }

  lemma HonestAppend(b: Book, lin: seq<Entry>, l: Entry)
    requires Honest(b, lin)
    requires Atomic(Replay(b, lin), l.op).reply == l.reply && Atomic(Replay(b, lin), l.op).effect == l.effect
    ensures Honest(b, lin + [l]) && Replay(b, lin + [l]) == Atomic(Replay(b, lin), l.op).book
  {
    var lin' := lin + [l];
    assert lin'[..|lin|] == lin;
    forall i | 0 <= i < |lin'|
      ensures HonestAt(b, lin', i)
    {
      if i < |lin| {
        assert lin'[..i] == lin[..i] && lin'[i] == lin[i];
        assert HonestAt(b, lin, i);
      }
    }
  }

  // ---- One entry per call

  function CallOf(t: Thread): Option<Call> { if t.Handler? then None else Some(t.call) }

  /** A call has exactly one entry once it has ended, carrying what it answered, and none before. */
  ghost predicate OneEntry(threads: map<nat, Thread>, lin: seq<Entry>, id: nat) {
    && (forall i, j :: 0 <= i < j < |lin| ==> !(lin[i].author == ByThread(id) && lin[j].author == ByThread(id)))
    && (forall i :: 0 <= i < |lin| && lin[i].author == ByThread(id) ==>
        id in threads && CallOf(threads[id]) == Some(Ended(lin[i].op, lin[i].reply, lin[i].effect)))
    && (id in threads && CallOf(threads[id]).Some? && CallOf(threads[id]).value.Ended? ==>
        exists i :: 0 <= i < |lin| && lin[i].author == ByThread(id))
  }

  ghost predicate EntriesMatch(s: State) { forall id: nat :: OneEntry(s.threads, s.lin, id) }

  lemma OneEntryOther(threads: map<nat, Thread>, threads': map<nat, Thread>, lin: seq<Entry>, lin': seq<Entry>, id: nat)
    requires OneEntry(threads, lin, id)
    requires lin' == lin || (|lin'| == |lin| + 1 && lin'[..|lin|] == lin && lin'[|lin|].author != ByThread(id))
    requires id in threads ==> id in threads' && CallOf(threads'[id]) == CallOf(threads[id])
    requires id in threads' && id !in threads && CallOf(threads'[id]).Some? ==> !CallOf(threads'[id]).value.Ended?
    ensures OneEntry(threads', lin', id)
  {
    forall i | 0 <= i < |lin'| && lin'[i].author == ByThread(id)
      ensures i < |lin| && lin[i] == lin'[i]
    {
      assert i < |lin| ==> lin'[..|lin|][i] == lin'[i];
    }
    if exists i :: 0 <= i < |lin| && lin[i].author == ByThread(id) {
      var i :| 0 <= i < |lin| && lin[i].author == ByThread(id);
      assert lin'[i] == lin[i];
    }
  }

  lemma OneEntryEnds(threads: map<nat, Thread>, threads': map<nat, Thread>, lin: seq<Entry>, id: nat, done: Call)
    requires OneEntry(threads, lin, id) && id in threads && id in threads'
    requires CallOf(threads[id]).Some? && !CallOf(threads[id]).value.Ended?
    requires CallOf(threads'[id]) == Some(done)
    ensures OneEntry(threads', lin + EndOf(ByThread(id), done), id)
  {
    var lin' := lin + EndOf(ByThread(id), done);
    if done.Ended? {
      assert lin'[|lin|].author == ByThread(id);
    }
  }

  lemma NextEntriesMatch(s: State, e: Event)
    requires EntriesMatch(s)
    ensures EntriesMatch(Next(s, e))
  {
    var s' := Next(s, e);
    forall id: nat
      ensures OneEntry(s'.threads, s'.lin, id)
    {
      assert OneEntry(s.threads, s.lin, id);
      if Caller(e) == Some(id) && Acting(s, e).Some? {
        var done := if e.DoRead? then Read(s.db, Acting(s, e).value) else Submit(s.db, Acting(s, e).value).1;
        OneEntryEnds(s.threads, s'.threads, s.lin, id, done);
      } else {
        OneEntryOther(s.threads, s'.threads, s.lin, s'.lin, id);
      }
    }
  }

  /** The linearization of every run holds each ended call exactly once, with the answer it got. */
  lemma {:induction false} EachCallOnce(trace: seq<Event>)
    ensures EntriesMatch(Run(trace))
  {
    if trace != [] {
      EachCallOnce(trace[..|trace| - 1]);
      NextEntriesMatch(Run(trace[..|trace| - 1]), trace[|trace| - 1]);
    }
  }

  /** On every reachable state: balances are non-negative, references, (wallet, currency) pairs, owners and
      account numbers are unique, and every logged row has its asset. */
  lemma RunIsValid(trace: seq<Event>)
    ensures Core(Run(trace)) && Valid(Run(trace).db)
  {
    InitCore();
    RunFromCore(INIT, trace);
  }
}
