/** The whole payment backend as one transition system: any number of client calls, withdrawals,
    verifications, registrations and webhook handlers in flight, and the one queue worker. Every event is
    one atomic step of one of them; whatever the code cannot control (which call moves, what fails, which
    key Redis loses) is the event's choice. An event that is not enabled changes nothing. */
module App {
  import opened Prelude
  import opened Tables
  import opened Book
  import opened Calls
  import opened Requests
  import opened Webhooks
  import opened JobQueue

  predicate IsClientOp(op: Op) { op.Fund? || op.Swap? || op.Transfer? }

  function KeyOf(op: Op): string
    requires IsClientOp(op)
  {
    match op
    case Fund(_, _, _, ref) => ref
    case Swap(_, _, _, _, _, key) => key
    case Transfer(_, _, _, _, key) => key
  }

  /** Operations no lock guards: the debit of a withdrawal, VerifyAndCredit's credit, the three inserts of a
      registration. */
  predicate IsDirectOp(op: Op) { op.Withdraw? || op.CreditByEmail? || op.NewUser? || op.NewWallet? || op.NewAsset? }

  datatype Verdict = Succeeded | Duplicate | GaveUp

  datatype ClientPc = Locking | Working | Completing | Releasing | Finished(verdict: Verdict)

  datatype HandlerPc = HLocking | HPushing | HUnlocking | HDone

  /** told says that a direct call has not been cut off by an error that is not its own answer. */
  datatype Thread =
    | Client(call: Call, pc: ClientPc)
    | Direct(call: Call, told: bool)
    | Handler(payload: Payload, hpc: HandlerPc)

  datatype Worker = Idle | Busy(call: Call) | Closing(ok: bool)

  /** Who called: a thread, or the worker in the attempt of that number, counted from 1. */
  datatype Author = ByThread(id: nat) | ByWorker(attempt: nat)

  /** One entry of the linearization, in the order the operations took place: who called, the operation, its
      reply and its effect. */
  datatype Entry = Entry(author: Author, op: Op, reply: Reply, effect: Effect)

  datatype State = State(
    db: Db,
    locks: set<string>,
    threads: map<nat, Thread>,
    queue: Queue,
    worker: Worker,
    lin: seq<Entry>)

  const INIT := State(EMPTY, {}, map[], EmptyQueue(), Idle, [])

  datatype Event =
    | NewClient(id: nat, request: KeyedRequest)
    | NewDirect(id: nat, op: Op)
    | Deliver(id: nat, payload: Payload)
    | TryLock(id: nat, ok: bool)
    | DoRead(id: nat)
    | DoSubmit(id: nat, reported: bool)
    | DoAbort(id: nat)
    | DoComplete(id: nat)
    | DoRelease(id: nat, ok: bool)
    | DoPush(id: nat, ok: bool)
    | DoUnlock(id: nat, ok: bool)
    | WorkerTake
    | WorkerRead
    | WorkerSubmit(reported: bool)
    | WorkerAbort
    | WorkerClose
    | LoseLock(ref: string)

  function Put(s: State, id: nat, t: Thread): State { s.(threads := s.threads[id := t]) }

  function EndOf(author: Author, call: Call): seq<Entry> {
    if call.Ended? then [Entry(author, call.op, call.reply, call.effect)] else []
  }

  /** A client reply decides what happens to its lock. A batch error that is not reported as a unique
      violation releases it, also when the batch did commit. */
  function AfterSubmit(done: Call, reported: bool): ClientPc
    requires done.Ended?
  {
    if !reported then Releasing
    else if done.reply.Done? then Completing
    else if done.reply.error == Database(UniqueViolation) then Finished(Duplicate)
    else Releasing
  }

  // ---- The call steps of threads and worker

  predicate CanRead(call: Call) { call.Start? || call.GotSender? }

  predicate Active(t: Thread) { (t.Client? && t.pc.Working?) || (t.Direct? && t.told) }

  function ThreadAfterRead(t: Thread, next: Call): Thread
    requires Active(t)
  {
    if t.Client? then Client(next, if next.Ended? then Releasing else Working) else Direct(next, true)
  }

  function ThreadAfterSubmit(t: Thread, done: Call, reported: bool): Thread
    requires Active(t) && done.Ended?
  {
    if t.Client? then Client(done, AfterSubmit(done, reported)) else Direct(done, reported)
  }

  function ReadThread(s: State, id: nat, t: Thread): State {
    if Active(t) && CanRead(t.call) then
      var next := Read(s.db, t.call);
      Put(s, id, ThreadAfterRead(t, next)).(lin := s.lin + EndOf(ByThread(id), next))
    else s
  }

  function SubmitThread(s: State, id: nat, t: Thread, reported: bool): State {
    if Active(t) && t.call.Ready? then
      var (db', done) := Submit(s.db, t.call);
      Put(s, id, ThreadAfterSubmit(t, done, reported)).(db := db', lin := s.lin + EndOf(ByThread(id), done))
    else s
  }

  /** An error before the batch: a failed read, a rate that cannot be fetched, an unknown sender or
      recipient seen by the service, a cancelled request. */
  function AbortThread(s: State, id: nat, t: Thread): State {
    if Active(t) && !t.call.Ended? then
      if t.Client? then Put(s, id, t.(pc := Releasing)) else Put(s, id, Direct(t.call, false))
    else s
  }

  // ---- Locks

  function LockThread(s: State, id: nat, t: Thread, ok: bool): State {
    if t.Client? && t.pc.Locking? && IsClientOp(t.call.op) then
      if ok && KeyOf(t.call.op) !in s.locks
      then Put(s, id, t.(pc := Working)).(locks := s.locks + {KeyOf(t.call.op)})
      else Put(s, id, t.(pc := Finished(Duplicate)))
    else if t.Handler? && t.hpc.HLocking? then
      if ok && t.payload.reference !in s.locks
      then Put(s, id, t.(hpc := HPushing)).(locks := s.locks + {t.payload.reference})
      else Put(s, id, t.(hpc := HDone))
    else s
  }

  function CompleteThread(s: State, id: nat, t: Thread): State {
    if t.Client? && t.pc.Completing? && IsClientOp(t.call.op)
    then Put(s, id, t.(pc := Finished(Succeeded))).(locks := s.locks + {KeyOf(t.call.op)})
    else s
  }

  function ReleaseThread(s: State, id: nat, t: Thread, ok: bool): State {
    if t.Client? && t.pc.Releasing? && IsClientOp(t.call.op)
    then Put(s, id, t.(pc := Finished(GaveUp))).(locks := if ok then s.locks - {KeyOf(t.call.op)} else s.locks)
    else s
  }

  /** Enqueue; a failed push goes on to delete the lock, if one was taken. */
  function PushThread(s: State, id: nat, t: Thread, ok: bool): State {
    if t.Handler? && t.hpc.HPushing? then
      if ok then Put(s, id, t.(hpc := HDone)).(queue := Push(s.queue, t.payload))
      else if t.payload.reference != "" then Put(s, id, t.(hpc := HUnlocking))
      else Put(s, id, t.(hpc := HDone))
    else s
  }

  function UnlockThread(s: State, id: nat, t: Thread, ok: bool): State {
    if t.Handler? && t.hpc.HUnlocking?
    then Put(s, id, t.(hpc := HDone)).(locks := if ok then s.locks - {t.payload.reference} else s.locks)
    else s
  }

  // ---- The worker

  function Attempt(s: State): Author { ByWorker(|s.queue.attempted|) }

  function Begin(p: Payload): Worker {
    if p.content.None? then Closing(false)
    else
      var op := OpOf(p);
      if op.Some? then Busy(Start(op.value)) else Closing(true)
  }

  function TakeJob(s: State): State {
    if s.worker.Idle? && s.queue.current.None? && s.queue.waiting != []
    then s.(queue := Take(s.queue), worker := Begin(s.queue.waiting[0].payload))
    else s
  }

  function ReadWorker(s: State): State {
    if s.worker.Busy? && CanRead(s.worker.call) then
      var next := Read(s.db, s.worker.call);
      s.(worker := if next.Ended? then Closing(next.reply.Done?) else Busy(next),
         lin := s.lin + EndOf(Attempt(s), next))
    else s
  }

  function SubmitWorker(s: State, reported: bool): State {
    if s.worker.Busy? && s.worker.call.Ready? then
      var (db', done) := Submit(s.db, s.worker.call);
      s.(db := db', worker := Closing(reported && done.reply.Done?), lin := s.lin + EndOf(Attempt(s), done))
    else s
  }

  /** RefundWithdrawal answers nil when its read fails; any other failure is an error. */
  function AbortWorker(s: State): State {
    if s.worker.Busy? then s.(worker := Closing(s.worker.call.op.Refund? && CanRead(s.worker.call))) else s
  }

  function CloseJob(s: State): State {
    if s.worker.Closing? then s.(queue := Close(s.queue, s.worker.ok), worker := Idle) else s
  }

  // ---- All steps

  function Spawn(s: State, e: Event): State
    requires e.NewClient? || e.NewDirect? || e.Deliver?
  {
    if e.id in s.threads then s
    else match e
      case NewClient(id, r) => Put(s, id, Client(Start(Requested(r)), Locking))
      case NewDirect(id, op) => if IsDirectOp(op) then Put(s, id, Direct(Start(op), true)) else s
      case Deliver(id, p) => Put(s, id, Handler(p, if p.reference == "" then HPushing else HLocking))
  }

  predicate IsThreadEvent(e: Event) {
    e.TryLock? || e.DoRead? || e.DoSubmit? || e.DoAbort? || e.DoComplete? || e.DoRelease? || e.DoPush? || e.DoUnlock?
  }

  function ThreadNext(s: State, e: Event, t: Thread): State
    requires IsThreadEvent(e)
  {
    match e
    case TryLock(id, ok) => LockThread(s, id, t, ok)
    case DoRead(id) => ReadThread(s, id, t)
    case DoSubmit(id, reported) => SubmitThread(s, id, t, reported)
    case DoAbort(id) => AbortThread(s, id, t)
    case DoComplete(id) => CompleteThread(s, id, t)
    case DoRelease(id, ok) => ReleaseThread(s, id, t, ok)
    case DoPush(id, ok) => PushThread(s, id, t, ok)
    case DoUnlock(id, ok) => UnlockThread(s, id, t, ok)
  }

  predicate IsWorkerEvent(e: Event) {
    e.WorkerTake? || e.WorkerRead? || e.WorkerSubmit? || e.WorkerAbort? || e.WorkerClose?
  }

  function WorkerNext(s: State, e: Event): State
    requires IsWorkerEvent(e)
  {
    match e
    case WorkerTake => TakeJob(s)
    case WorkerRead => ReadWorker(s)
    case WorkerSubmit(reported) => SubmitWorker(s, reported)
    case WorkerAbort => AbortWorker(s)
    case WorkerClose => CloseJob(s)
  }

  function Next(s: State, e: Event): State {
    if e.LoseLock? then s.(locks := s.locks - {e.ref})
    else if IsWorkerEvent(e) then WorkerNext(s, e)
    else if IsThreadEvent(e) then if e.id in s.threads then ThreadNext(s, e, s.threads[e.id]) else s
    else Spawn(s, e)
  }

  function RunFrom(s: State, trace: seq<Event>): State {
    if trace == [] then s else Next(RunFrom(s, trace[..|trace| - 1]), trace[|trace| - 1])
  }

  function Run(trace: seq<Event>): State { RunFrom(INIT, trace) }

  /** The call that takes a read or batch step on an event, if the event is such a step. */
  function Acting(s: State, e: Event): Option<Call> {
    if e.DoRead? || e.DoSubmit? then
      if e.id in s.threads && Active(s.threads[e.id])
         && (if e.DoRead? then CanRead(s.threads[e.id].call) else s.threads[e.id].call.Ready?)
      then Some(s.threads[e.id].call) else None
    else if e.WorkerRead? || e.WorkerSubmit? then
      if s.worker.Busy? && (if e.WorkerRead? then CanRead(s.worker.call) else s.worker.call.Ready?)
      then Some(s.worker.call) else None
    else None
  }

  function Caller(e: Event): Option<nat> { if e.DoRead? || e.DoSubmit? then Some(e.id) else None }

  function AuthorOf(s: State, e: Event): Author { if Caller(e).Some? then ByThread(e.id) else Attempt(s) }
}
