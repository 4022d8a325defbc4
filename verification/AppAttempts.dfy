/** The worker's side of the linearization: one entry per attempt at most, carrying the attempt's answer. */
module AppAttempts {
  import opened Prelude
  import opened Book
  import opened Calls
  import opened Refinement
  import opened Webhooks
  import opened JobQueue
  import opened App
  import opened AppCore
  import opened AppWebhooks

  /** The entry is that of an attempt that was begun, for the operation of the body then taken. */
  ghost predicate EntryOfAttempt(q: Queue, l: Entry) {
    l.author.ByWorker? ==>
      && 1 <= l.author.attempt <= |q.attempted|
      && q.attempted[l.author.attempt - 1] < |q.sent|
      && OpOf(q.sent[q.attempted[l.author.attempt - 1]]) == Some(l.op)
  }

  ghost predicate AtMostOneEach(lin: seq<Entry>) {
    forall i, j :: 0 <= i < j < |lin| && lin[i].author.ByWorker? ==> lin[i].author != lin[j].author
  }

  ghost predicate HasEntry(lin: seq<Entry>, author: Author) { exists i :: 0 <= i < |lin| && lin[i].author == author }

  /** The attempt in progress: without an entry while it is at work; once it has its verdict, success means an
      entry with answer Done, or a body without an operation, or a refund whose read failed. */
  ghost predicate CurrentAttempt(s: State) {
    && (!s.worker.Idle? ==>
          s.queue.current.Some? && s.queue.attempted != []
          && s.queue.attempted[|s.queue.attempted| - 1] == s.queue.current.value.tag)
    && (s.worker.Busy? ==> !HasEntry(s.lin, Attempt(s)))
    && (s.worker.Closing? && s.worker.ok ==>
          && (forall i :: 0 <= i < |s.lin| && s.lin[i].author == Attempt(s) ==> s.lin[i].reply.Done?)
          && (HasEntry(s.lin, Attempt(s))
              || OpOf(s.queue.current.value.payload).None? || OpOf(s.queue.current.value.payload).value.Refund?))
  }

  ghost predicate AttemptsMatch(s: State) {
    && AtMostOneEach(s.lin) && CurrentAttempt(s)
    && forall i :: 0 <= i < |s.lin| ==> EntryOfAttempt(s.queue, s.lin[i])
  }

  /** What was attempted and sent stays on record. */
  lemma RecordsGrow(s: State, e: Event)
    ensures s.queue.attempted <= Next(s, e).queue.attempted && s.queue.sent <= Next(s, e).queue.sent
  {
  }

  lemma OthersKeepWorker(s: State, e: Event)
    requires !IsWorkerEvent(e)
    ensures var s' := Next(s, e);
      s'.worker == s.worker && s'.queue.current == s.queue.current && s'.queue.attempted == s.queue.attempted
  {
  }

  lemma OthersKeepAttempts(s: State, e: Event)
    requires Core(s) && AttemptsMatch(s) && !IsWorkerEvent(e)
    ensures AttemptsMatch(Next(s, e))
  {
    var s' := Next(s, e);
    RecordsGrow(s, e);
    OthersKeepWorker(s, e);
    StepRefines(s, e);
    NoWorkerEntry(s.lin, s'.lin);
    forall i | 0 <= i < |s'.lin|
      ensures EntryOfAttempt(s'.queue, s'.lin[i])
    {
      if i < |s.lin| { assert s'.lin[i] == s.lin[i] && EntryOfAttempt(s.queue, s.lin[i]); }
    }
  }

  /** A thread's entry changes nothing about the worker's. */
  lemma NoWorkerEntry(lin: seq<Entry>, lin': seq<Entry>)
    requires AtMostOneEach(lin)
    requires lin' == lin || (|lin'| == |lin| + 1 && lin'[..|lin|] == lin && lin'[|lin|].author.ByThread?)
    ensures lin <= lin' && AtMostOneEach(lin')
    ensures forall a: Author :: a.ByWorker? ==> (HasEntry(lin', a) <==> HasEntry(lin, a))
    ensures forall i :: |lin| <= i < |lin'| ==> lin'[i].author.ByThread?
  {
    forall i | 0 <= i < |lin|
      ensures lin'[i] == lin[i]
    {
      assert lin'[..|lin|][i] == lin'[i];
    }
    forall a: Author | a.ByWorker? && HasEntry(lin, a)
      ensures HasEntry(lin', a)
    {
      var i :| 0 <= i < |lin| && lin[i].author == a;
      assert lin'[i].author == a;
    }
  }

  /** The step that ends the worker's call, whether a read or the batch. */
  lemma EntryEndsAttempt(s: State, s': State, l: Entry)
    requires AttemptsMatch(s) && s.worker.Busy? && Conserved(s.queue)
    requires OpOf(s.queue.current.value.payload) == Some(l.op) && l.author == Attempt(s)
    requires s'.queue == s.queue && s'.lin == s.lin + [l] && s'.worker.Closing? && (s'.worker.ok ==> l.reply.Done?)
    ensures AttemptsMatch(s')
  {
    assert s'.lin[|s.lin|].author == Attempt(s');
    assert AsSent(s.queue.sent, s.queue.current.value);
    forall i | 0 <= i < |s.lin|
      ensures s'.lin[i] == s.lin[i] && s.lin[i].author != Attempt(s)
    {
    }
  }

  lemma WorkerCallStep(s: State, e: Event)
    requires Core(s) && AttemptsMatch(s) && Conserved(s.queue) && (e.WorkerRead? || e.WorkerSubmit?)
    ensures AttemptsMatch(Next(s, e))
  {
    var s' := Next(s, e);
    var c := Acting(s, e);
    if c.Some? {
      if e.WorkerRead? { ReadRefines(s.db, c.value); }
      var done := if e.WorkerRead? then Read(s.db, c.value) else Submit(s.db, c.value).1;
      if done.Ended? {
        EntryEndsAttempt(s, s', Entry(Attempt(s), done.op, done.reply, done.effect));
      } else {
        assert s'.lin == s.lin;
      }
    }
  }

  lemma WorkerQueueStep(s: State, e: Event)
    requires Core(s) && AttemptsMatch(s) && (e.WorkerTake? || e.WorkerAbort? || e.WorkerClose?)
    ensures AttemptsMatch(Next(s, e))
  {
    var s' := Next(s, e);
    RecordsGrow(s, e);
    assert s'.lin == s.lin;
    forall i | 0 <= i < |s.lin|
      ensures EntryOfAttempt(s'.queue, s.lin[i])
    {
      assert EntryOfAttempt(s.queue, s.lin[i]);
    }
  }

  lemma NextAttempts(s: State, e: Event)
    requires Core(s) && AttemptsMatch(s) && Conserved(s.queue)
    ensures AttemptsMatch(Next(s, e))
  {
    if !IsWorkerEvent(e) {
      OthersKeepAttempts(s, e);
    } else if e.WorkerRead? || e.WorkerSubmit? {
      WorkerCallStep(s, e);
    } else {
      WorkerQueueStep(s, e);
    }
  }

  // ---- Jobs counted as processed

  ghost predicate DoneEntry(lin: seq<Entry>, a: nat, op: Op) {
    exists i :: 0 <= i < |lin| && lin[i].author == ByWorker(a) && lin[i].op == op && lin[i].reply.Done?
  }

  /** Attempt a was made on the job and justifies counting it as processed: its operation answered Done, or there
      was none to do, or it was a refund, whose failed read is taken for success. */
  ghost predicate AnsweredBy(s: State, j: Job, a: nat) {
    && 1 <= a <= |s.queue.attempted| && s.queue.attempted[a - 1] == j.tag
    && (OpOf(j.payload).Some? && !OpOf(j.payload).value.Refund? ==> DoneEntry(s.lin, a, OpOf(j.payload).value))
  }

  ghost predicate Answered(s: State, j: Job) { exists a: nat :: AnsweredBy(s, j, a) }

  ghost predicate ProcessedAnswered(s: State) {
    forall k :: 0 <= k < |s.queue.processed| ==> Answered(s, s.queue.processed[k])
  }

  lemma AnsweredStays(s: State, s': State, j: Job)
    requires Answered(s, j) && s.lin <= s'.lin && s.queue.attempted <= s'.queue.attempted
    ensures Answered(s', j)
  {
    var a: nat :| AnsweredBy(s, j, a);
    if OpOf(j.payload).Some? && !OpOf(j.payload).value.Refund? {
      var i :| 0 <= i < |s.lin| && s.lin[i].author == ByWorker(a)
        && s.lin[i].op == OpOf(j.payload).value && s.lin[i].reply.Done?;
      assert s'.lin[i] == s.lin[i];
    }
    assert AnsweredBy(s', j, a);
  }

  /** The attempt that is about to end with success answers for its job. */
  lemma ClosingAnswered(s: State)
    requires AttemptsMatch(s) && Conserved(s.queue) && s.worker == Closing(true)
    ensures Answered(s, s.queue.current.value)
  {
    var j := s.queue.current.value;
    assert AsSent(s.queue.sent, j);
    if HasEntry(s.lin, Attempt(s)) {
      var i :| 0 <= i < |s.lin| && s.lin[i].author == Attempt(s);
      assert EntryOfAttempt(s.queue, s.lin[i]);
    }
    assert AnsweredBy(s, j, |s.queue.attempted|);
  }

  /** A job gets among the processed ones only from a successful attempt. */
  lemma ProcessedFrom(s: State, e: Event, k: nat)
    requires k < |Next(s, e).queue.processed|
    ensures var j := Next(s, e).queue.processed[k];
      (k < |s.queue.processed| && j == s.queue.processed[k])
      || (s.worker == Closing(true) && s.queue.current == Some(j))
  {
  }

  lemma NextProcessed(s: State, e: Event)
    requires Core(s) && AttemptsMatch(s) && Conserved(s.queue) && ProcessedAnswered(s)
    ensures ProcessedAnswered(Next(s, e))
  {
    var s' := Next(s, e);
    RecordsGrow(s, e);
    StepRefines(s, e);
    forall k | 0 <= k < |s'.queue.processed|
      ensures Answered(s', s'.queue.processed[k])
    {
      ProcessedFrom(s, e, k);
      if s.worker == Closing(true) { ClosingAnswered(s); }
      AnsweredStays(s, s', s'.queue.processed[k]);
    }
  }

  /** On every run each attempt of the worker has at most one entry, for the operation of the body it took; and
      every job ever counted as processed was answered by one of its attempts. */
  lemma {:induction false} EachAttemptOnce(trace: seq<Event>)
    ensures AttemptsMatch(Run(trace)) && ProcessedAnswered(Run(trace))
  {
    if trace != [] {
      var before := trace[..|trace| - 1];
      EachAttemptOnce(before);
      RunIsValid(before);
      RunQueue(before);
      NextAttempts(Run(before), trace[|trace| - 1]);
      NextProcessed(Run(before), trace[|trace| - 1]);
    }
  }

  /** No attempt on a body of no concern, or on one that does not decode, has an entry: what the worker executed was
      asked for by a successful charge, a confirmed transfer, or a failed one. */
  lemma IgnoredLeavesNothing(trace: seq<Event>, i: nat)
    requires i < |Run(trace).lin| && Run(trace).lin[i].author.ByWorker?
    ensures var q := Run(trace).queue; var a := Run(trace).lin[i].author.attempt;
      && 1 <= a <= |q.attempted| && q.attempted[a - 1] < |q.sent|
      && var p := q.sent[q.attempted[a - 1]];
         p.content.Some? && !IsIgnored(p) && (ReportsCharge(p) || ReportsTransfer(p) || ReportsFailure(p))
  {
    EachAttemptOnce(trace);
    assert EntryOfAttempt(Run(trace).queue, Run(trace).lin[i]);
    var q := Run(trace).queue;
    DispatchExactly(q.sent[q.attempted[Run(trace).lin[i].author.attempt - 1]], Run(trace).lin[i].op);
  }

  // ---- Why a job counts as processed

  /** The event that settles an attempt on the job with success: the body is of no concern; the call ends with Done,
      at a read or at a batch whose result is reported; or the read of a refund fails. */
  ghost predicate Settles(s: State, e: Event, j: Job) {
    || (e.WorkerTake? && s.worker.Idle? && s.queue.waiting != [] && s.queue.waiting[0] == j && IsIgnored(j.payload))
    || (s.worker.Busy? && s.queue.current == Some(j)
        && var call := s.worker.call;
           || (e.WorkerRead? && CanRead(call) && Read(s.db, call).Ended? && Read(s.db, call).reply.Done?)
           || (e.WorkerSubmit? && call.Ready? && e.reported && Submit(s.db, call).1.reply.Done?)
           || (e.WorkerAbort? && CanRead(call) && ReportsFailure(j.payload)))
  }

  /** Exactly these events do. */
  lemma SettlesExactly(s: State, e: Event)
    requires Core(s) && !s.worker.Closing?
    ensures var s' := Next(s, e);
      s'.worker == Closing(true) <==> s'.queue.current.Some? && Settles(s, e, s'.queue.current.value)
  {
    if s.worker.Busy? {
      BusySettles(s, e);
    } else {
      IdleSettles(s, e);
    }
  }

  lemma BusySettles(s: State, e: Event)
    requires Core(s) && s.worker.Busy?
    ensures var s' := Next(s, e);
      s'.worker == Closing(true) <==> s'.queue.current.Some? && Settles(s, e, s'.queue.current.value)
  {
    DispatchExactly(s.queue.current.value.payload, s.worker.call.op);
    if !IsWorkerEvent(e) { OthersKeepWorker(s, e); }
  }

  lemma IdleSettles(s: State, e: Event)
    requires Core(s) && s.worker.Idle?
    ensures var s' := Next(s, e);
      s'.worker == Closing(true) <==> s'.queue.current.Some? && Settles(s, e, s'.queue.current.value)
  {
    if !IsWorkerEvent(e) {
      OthersKeepWorker(s, e);
    } else if s.queue.waiting != [] {
      DispatchExactly(s.queue.waiting[0].payload, Refund(""));
    }
  }

  ghost predicate Settled(trace: seq<Event>, j: Job) {
    exists k: nat :: k < |trace| && Settles(Run(trace[..k]), trace[k], j)
  }

  lemma SettledStays(trace: seq<Event>, j: Job)
    requires trace != [] && Settled(trace[..|trace| - 1], j)
    ensures Settled(trace, j)
  {
    var before := trace[..|trace| - 1];
    var k: nat :| k < |before| && Settles(Run(before[..k]), before[k], j);
    assert before[..k] == trace[..k] && before[k] == trace[k];
  }

  /** A verdict, once given, stays until the job is closed. */
  lemma ClosingStays(s: State, e: Event)
    requires s.worker.Closing?
    ensures Next(s, e).worker.Idle? || (Next(s, e).worker == s.worker && Next(s, e).queue.current == s.queue.current)
  {
  }

  /** On every run a job counts as processed, or is about to, only because such an event settled an attempt on it.
      In particular a body that does not decode never does, and a refund only when it was answered Done or its read
      failed. */
  lemma {:induction false} ProcessedIsSettled(trace: seq<Event>)
    ensures forall i :: 0 <= i < |Run(trace).queue.processed| ==> Settled(trace, Run(trace).queue.processed[i])
    ensures var s := Run(trace);
      s.worker == Closing(true) && s.queue.current.Some? ==> Settled(trace, s.queue.current.value)
  {
    if trace != [] {
      var n := |trace| - 1;
      var s, s' := Run(trace[..n]), Run(trace);
      ProcessedIsSettled(trace[..n]);
      RunIsValid(trace[..n]);
      forall i | 0 <= i < |s'.queue.processed|
        ensures Settled(trace, s'.queue.processed[i])
      {
        ProcessedFrom(s, trace[n], i);
        SettledStays(trace, s'.queue.processed[i]);
      }
      if s'.worker == Closing(true) && s'.queue.current.Some? {
        if s.worker.Closing? {
          ClosingStays(s, trace[n]);
          SettledStays(trace, s'.queue.current.value);
        } else {
          SettlesExactly(s, trace[n]);
          assert Settles(Run(trace[..n]), trace[n], s'.queue.current.value);
        }
      }
    }
  }
}
