/** The webhook path end to end: the lock per reference, the queue, and refunds made at most once. */
module AppWebhooks {
  import opened Refinement
  import opened JobQueue
  import opened Requests
  import opened App
  import opened AppCore

  // ---- The queue inside the backend

  /** The queue event an event of the backend amounts to, if any. */
  function QueueStep(s: State, e: Event): seq<QueueEvent> {
    if e.DoPush? && e.ok && e.id in s.threads && s.threads[e.id].Handler? && s.threads[e.id].hpc.HPushing?
    then [Enqueue(s.threads[e.id].payload)]
    else if e.WorkerTake? && s.worker.Idle? then [Pop]
    else if e.WorkerClose? && s.worker.Closing? then [Finish(s.worker.ok)]
    else []
  }

  function QueueTrace(trace: seq<Event>): seq<QueueEvent> {
    if trace == [] then []
    else QueueTrace(trace[..|trace| - 1]) + QueueStep(Run(trace[..|trace| - 1]), trace[|trace| - 1])
  }

  /** The queue of the backend runs as a queue: all that holds of every queue run holds of it. */
  lemma {:induction false} QueueEmbedded(trace: seq<Event>)
    ensures Run(trace).queue == QueueRun(EmptyQueue(), QueueTrace(trace))
  {
    if trace != [] {
      var before := trace[..|trace| - 1];
      var e := trace[|trace| - 1];
      QueueEmbedded(before);
      QueueStepIs(Run(before), e);
      var steps := QueueStep(Run(before), e);
      if steps == [] {
        assert QueueTrace(trace) == QueueTrace(before);
      } else {
        assert QueueTrace(trace)[..|QueueTrace(trace)| - 1] == QueueTrace(before);
      }
    }
  }

  lemma QueueStepIs(s: State, e: Event)
    ensures Next(s, e).queue == if QueueStep(s, e) == [] then s.queue else QueueNext(s.queue, QueueStep(s, e)[0])
  {
  }

  /** On every run of the backend no job is lost, duplicated or altered, and retries are counted exactly. */
  lemma RunQueue(trace: seq<Event>)
    ensures Conserved(Run(trace).queue) && RetriesCounted(Run(trace).queue)
  {
    QueueEmbedded(trace);
    QueueSafe(QueueTrace(trace));
  }

  // ---- The lock per reference

  ghost predicate Enqueued(q: Queue, ref: string) { exists t :: 0 <= t < |q.sent| && q.sent[t].reference == ref }

  /** The thread is a handler between taking the lock and enqueueing, or about to undo the lock. */
  predicate Holds(threads: map<nat, Thread>, id: nat, ref: string) {
    && id in threads && threads[id].Handler? && threads[id].payload.reference == ref
    && (threads[id].hpc.HPushing? || threads[id].hpc.HUnlocking?)
  }

  /** The lock of a reference, its handlers and its place in the queue. */
  ghost predicate LockProtocol(s: State, ref: string) {
    && (Enqueued(s.queue, ref) ==> ref in s.locks)
    && (forall t, u :: 0 <= t < u < |s.queue.sent| ==>
        !(s.queue.sent[t].reference == ref && s.queue.sent[u].reference == ref))
    && (forall id :: Holds(s.threads, id, ref) ==> ref in s.locks && !Enqueued(s.queue, ref))
    && (forall i, j :: Holds(s.threads, i, ref) && Holds(s.threads, j, ref) ==> i == j)
    && (forall id :: id in s.threads && s.threads[id].Client? && IsClientOp(s.threads[id].call.op) ==>
        KeyOf(s.threads[id].call.op) != ref)
  }

  /** Redis keeps the lock of the reference, and no client uses the reference as its idempotency key. */
  predicate Protects(e: Event, ref: string) {
    && (e.LoseLock? ==> e.ref != ref)
    && (e.NewClient? ==> KeyOf(Requested(e.request)) != ref)
  }

  /** Steps of other threads, and of this one when it is not a handler of ref, leave the protocol alone. */
  lemma LockProtocolFrame(s: State, s': State, ref: string)
    requires LockProtocol(s, ref)
    requires s'.queue.sent == s.queue.sent || (|s'.queue.sent| == |s.queue.sent| + 1
      && s'.queue.sent[..|s.queue.sent|] == s.queue.sent && s'.queue.sent[|s.queue.sent|].reference != ref)
    requires ref in s.locks ==> ref in s'.locks
    requires forall id :: Holds(s'.threads, id, ref) ==> Holds(s.threads, id, ref)
    requires forall id :: id in s'.threads && s'.threads[id].Client? && IsClientOp(s'.threads[id].call.op) ==>
      KeyOf(s'.threads[id].call.op) != ref
    ensures LockProtocol(s', ref)
  {
    EnqueuedFrame(s.queue, s'.queue, ref);
    forall t, u | 0 <= t < u < |s'.queue.sent|
      ensures !(s'.queue.sent[t].reference == ref && s'.queue.sent[u].reference == ref)
    {
      assert u < |s.queue.sent| ==> s'.queue.sent[..|s.queue.sent|][u] == s.queue.sent[u];
      assert s'.queue.sent[..|s.queue.sent|][t] == s.queue.sent[t];
    }
  }

  lemma EnqueuedFrame(q: Queue, q': Queue, ref: string)
    requires q'.sent == q.sent || (|q'.sent| == |q.sent| + 1 && q'.sent[..|q.sent|] == q.sent
      && q'.sent[|q.sent|].reference != ref)
    ensures Enqueued(q', ref) <==> Enqueued(q, ref)
  {
    if Enqueued(q, ref) {
      var t :| 0 <= t < |q.sent| && q.sent[t].reference == ref;
      assert q'.sent[t] == q.sent[t];
    }
    if Enqueued(q', ref) {
      var t :| 0 <= t < |q'.sent| && q'.sent[t].reference == ref;
      assert q.sent[t] == q'.sent[t];
    }
  }

  /** Clients keep their operation, hence their key. */
  lemma ClientKeys(s: State, e: Event, id: nat)
    requires Core(s) && id in Next(s, e).threads && Next(s, e).threads[id].Client?
    ensures (id in s.threads && s.threads[id].Client? && s.threads[id].call.op == Next(s, e).threads[id].call.op)
      || (id !in s.threads && e.NewClient? && Next(s, e).threads[id].call.op == Requested(e.request))
  {
    if IsThreadEvent(e) && e.id == id && id in s.threads {
      assert ThreadOk(s.db, s.threads[id]);
      if e.DoRead? && Active(s.threads[id]) && CanRead(s.threads[id].call) {
        ReadRefines(s.db, s.threads[id].call);
      }
    }
  }

  lemma KeysAvoid(s: State, e: Event, ref: string)
    requires Core(s) && LockProtocol(s, ref) && Protects(e, ref)
    ensures var ts := Next(s, e).threads; forall id ::
      id in ts && ts[id].Client? && IsClientOp(ts[id].call.op) ==> KeyOf(ts[id].call.op) != ref
  {
    forall id | id in Next(s, e).threads && Next(s, e).threads[id].Client? && IsClientOp(Next(s, e).threads[id].call.op)
      ensures KeyOf(Next(s, e).threads[id].call.op) != ref
    {
      ClientKeys(s, e, id);
    }
  }

  /** The handler steps on the reference itself. */
  predicate HandlerStep(s: State, e: Event, ref: string) {
    (e.TryLock? || e.DoPush? || e.DoUnlock?) && e.id in s.threads && s.threads[e.id].Handler?
    && s.threads[e.id].payload.reference == ref
  }

  lemma HandlerStepLocks(s: State, e: Event, ref: string)
    requires Core(s) && LockProtocol(s, ref) && HandlerStep(s, e, ref) && ref != ""
    ensures LockProtocol(Next(s, e), ref)
  {
    if e.TryLock? {
      LockStep(s, e.id, e.ok, ref);
    } else if e.DoPush? {
      PushStep(s, e.id, e.ok, ref);
    } else {
      UnlockStep(s, e.id, e.ok, ref);
    }
  }

  lemma LockStep(s: State, id: nat, ok: bool, ref: string)
    requires Core(s) && LockProtocol(s, ref) && HandlerStep(s, TryLock(id, ok), ref) && ref != ""
    ensures LockProtocol(Next(s, TryLock(id, ok)), ref)
  {
    var s' := Next(s, TryLock(id, ok));
    KeysAvoid(s, TryLock(id, ok), ref);
    assert forall i :: i != id ==> Holds(s'.threads, i, ref) == Holds(s.threads, i, ref);
    if s.threads[id].hpc.HLocking? && ok && ref !in s.locks {
      assert forall i :: !Holds(s.threads, i, ref);
    }
  }

  lemma PushStep(s: State, id: nat, ok: bool, ref: string)
    requires Core(s) && LockProtocol(s, ref) && HandlerStep(s, DoPush(id, ok), ref) && ref != ""
    ensures LockProtocol(Next(s, DoPush(id, ok)), ref)
  {
    var s' := Next(s, DoPush(id, ok));
    KeysAvoid(s, DoPush(id, ok), ref);
    assert forall i :: i != id ==> Holds(s'.threads, i, ref) == Holds(s.threads, i, ref);
    if s.threads[id].hpc.HPushing? {
      assert Holds(s.threads, id, ref);
      if ok {
        var n := |s.queue.sent|;
        assert s'.queue.sent[n].reference == ref && forall t :: 0 <= t < n ==> s'.queue.sent[t] == s.queue.sent[t];
      }
    }
  }

  lemma UnlockStep(s: State, id: nat, ok: bool, ref: string)
    requires Core(s) && LockProtocol(s, ref) && HandlerStep(s, DoUnlock(id, ok), ref) && ref != ""
    ensures LockProtocol(Next(s, DoUnlock(id, ok)), ref)
  {
    var s' := Next(s, DoUnlock(id, ok));
    KeysAvoid(s, DoUnlock(id, ok), ref);
    assert forall i :: i != id ==> Holds(s'.threads, i, ref) == Holds(s.threads, i, ref);
    if s.threads[id].hpc.HUnlocking? {
      assert Holds(s.threads, id, ref);
    }
  }

  lemma NextLockProtocol(s: State, e: Event, ref: string)
    requires Core(s) && LockProtocol(s, ref) && Protects(e, ref) && ref != ""
    ensures LockProtocol(Next(s, e), ref)
  {
    if HandlerStep(s, e, ref) {
      HandlerStepLocks(s, e, ref);
    } else {
      KeysAvoid(s, e, ref);
      OtherStep(s, e, ref);
      LockProtocolFrame(s, Next(s, e), ref);
    }
  }

  lemma OtherStep(s: State, e: Event, ref: string)
    requires Core(s) && LockProtocol(s, ref) && Protects(e, ref) && ref != "" && !HandlerStep(s, e, ref)
    ensures var s' := Next(s, e);
      && (s'.queue.sent == s.queue.sent || (|s'.queue.sent| == |s.queue.sent| + 1
          && s'.queue.sent[..|s.queue.sent|] == s.queue.sent && s'.queue.sent[|s.queue.sent|].reference != ref))
      && (ref in s.locks ==> ref in s'.locks)
      && (forall id :: Holds(s'.threads, id, ref) ==> Holds(s.threads, id, ref))
  {
  }

  lemma {:induction false} RunLockProtocol(trace: seq<Event>, ref: string)
    requires ref != "" && forall k :: 0 <= k < |trace| ==> Protects(trace[k], ref)
    ensures LockProtocol(Run(trace), ref)
  {
    if trace != [] {
      var before := trace[..|trace| - 1];
      RunLockProtocol(before, ref);
      RunIsValid(before);
      NextLockProtocol(Run(before), trace[|trace| - 1], ref);
    }
  }

  /** A reference is enqueued at most once ever, however many deliveries and failed pushes there are. */
  lemma EnqueuedAtMostOnce(trace: seq<Event>, ref: string, t: nat, u: nat)
    requires ref != "" && forall k :: 0 <= k < |trace| ==> Protects(trace[k], ref)
    requires var sent := Run(trace).queue.sent;
      t < |sent| && u < |sent| && sent[t].reference == ref && sent[u].reference == ref
    ensures t == u
  {
    RunLockProtocol(trace, ref);
  }

  // ---- The lock is held for nothing else

  ghost predicate HeldForReason(s: State, ref: string) {
    ref in s.locks ==> Enqueued(s.queue, ref) || exists id :: Holds(s.threads, id, ref)
  }

  lemma NextHeldForReason(s: State, e: Event, ref: string)
    requires Core(s) && LockProtocol(s, ref) && HeldForReason(s, ref) && Protects(e, ref) && ref != ""
    requires e.DoUnlock? ==> e.ok
    ensures HeldForReason(Next(s, e), ref)
  {
    var s' := Next(s, e);
    if ref in s'.locks {
      if Enqueued(s.queue, ref) {
        StaysEnqueued(s, e, ref);
      } else if HandlerStep(s, e, ref) {
        if e.DoPush? && s.threads[e.id].hpc.HPushing? && e.ok {
          assert s'.queue.sent[|s.queue.sent|].reference == ref;
        } else {
          HandlerKeepsReason(s, e, ref);
        }
      } else {
        OtherKeepsReason(s, e, ref);
      }
    }
  }

  lemma StaysEnqueued(s: State, e: Event, ref: string)
    requires Enqueued(s.queue, ref)
    ensures Enqueued(Next(s, e).queue, ref)
  {
    var t :| 0 <= t < |s.queue.sent| && s.queue.sent[t].reference == ref;
    assert t < |Next(s, e).queue.sent| && Next(s, e).queue.sent[t] == s.queue.sent[t];
  }

  lemma HandlerKeepsReason(s: State, e: Event, ref: string)
    requires LockProtocol(s, ref) && HeldForReason(s, ref) && HandlerStep(s, e, ref) && ref != ""
    requires !Enqueued(s.queue, ref) && ref in Next(s, e).locks && (e.DoUnlock? ==> e.ok)
    requires !(e.DoPush? && s.threads[e.id].hpc.HPushing? && e.ok)
    ensures exists id :: Holds(Next(s, e).threads, id, ref)
  {
    var s' := Next(s, e);
    if ref in s.locks {
      var id :| Holds(s.threads, id, ref);
      assert id == e.id || s'.threads[id] == s.threads[id];
      assert Holds(s'.threads, id, ref);
    } else {
      assert Holds(s'.threads, e.id, ref);
    }
  }

  lemma OtherKeepsReason(s: State, e: Event, ref: string)
    requires Core(s) && LockProtocol(s, ref) && HeldForReason(s, ref) && Protects(e, ref)
    requires !HandlerStep(s, e, ref) && ref in Next(s, e).locks && !Enqueued(s.queue, ref)
    ensures exists id :: Holds(Next(s, e).threads, id, ref)
  {
    LocksOnlyByOwner(s, e, ref);
    var id :| Holds(s.threads, id, ref);
    HoldsStays(s, e, ref, id);
  }

  lemma HoldsStays(s: State, e: Event, ref: string, id: nat)
    requires Holds(s.threads, id, ref) && !HandlerStep(s, e, ref)
    ensures Holds(Next(s, e).threads, id, ref)
  {
  }

  lemma LocksOnlyByOwner(s: State, e: Event, ref: string)
    requires Core(s) && LockProtocol(s, ref) && !HandlerStep(s, e, ref) && ref in Next(s, e).locks
    ensures ref in s.locks
  {
  }

  lemma {:induction false} RunHeldForReason(trace: seq<Event>, ref: string)
    requires ref != "" && forall k :: 0 <= k < |trace| ==>
      Protects(trace[k], ref) && (trace[k].DoUnlock? ==> trace[k].ok)
    ensures HeldForReason(Run(trace), ref)
  {
    if trace != [] {
      var before := trace[..|trace| - 1];
      RunHeldForReason(before, ref);
      RunLockProtocol(before, ref);
      RunIsValid(before);
      NextHeldForReason(Run(before), trace[|trace| - 1], ref);
    }
  }

  /** When deleting a lock never fails, the lock of a reference is held exactly while the reference is
      enqueued or one handler is between lock and enqueue: a failed enqueue makes it deliverable again. */
  lemma LockHeldExactly(trace: seq<Event>, ref: string)
    requires ref != "" && forall k :: 0 <= k < |trace| ==>
      Protects(trace[k], ref) && (trace[k].DoUnlock? ==> trace[k].ok)
    ensures var s := Run(trace);
      ref in s.locks <==> Enqueued(s.queue, ref) || exists id :: Holds(s.threads, id, ref)
  {
    RunHeldForReason(trace, ref);
    RunLockProtocol(trace, ref);
  }

  /** A delivery that finds its lock taken, and is acknowledged as a duplicate, is covered: its reference is
      enqueued, or another handler holds the lock and has yet to enqueue it or to give it back with an error. */
  lemma DroppedIsCovered(trace: seq<Event>, id: nat, ref: string)
    requires ref != "" && forall k :: 0 <= k < |trace| ==>
      Protects(trace[k], ref) && (trace[k].DoUnlock? ==> trace[k].ok)
    requires id in Run(trace).threads && Run(trace).threads[id].Handler?
    requires Run(trace).threads[id].hpc.HLocking? && Run(trace).threads[id].payload.reference == ref
    requires ref in Run(trace).locks
    ensures Enqueued(Run(trace).queue, ref) || exists j :: j != id && Holds(Run(trace).threads, j, ref)
  {
    LockHeldExactly(trace, ref);
  }
}
