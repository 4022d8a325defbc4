/** Idempotency keys of client calls: mutual exclusion, one commit per key over all kinds of operation, and
    failures that leave nothing behind. */
module AppKeys {
  import opened Tables
  import opened Book
  import opened Calls
  import opened Refinement
  import opened Journal
  import opened App
  import opened AppCore
  import opened AppWebhooks

  predicate HasKey(op: Op, key: string) { IsClientOp(op) && KeyOf(op) == key }

  /** The client call is between taking the lock of its key and its final answer. */
  predicate OwnsKey(threads: map<nat, Thread>, id: nat, key: string) {
    && id in threads && threads[id].Client? && HasKey(threads[id].call.op, key)
    && (threads[id].pc.Working? || threads[id].pc.Completing? || threads[id].pc.Releasing?)
  }

  function Commits(lin: seq<Entry>, key: string): nat {
    if lin == [] then 0 else Commits(lin[..|lin| - 1], key) + (if IsCommit(lin[|lin| - 1], key) then 1 else 0)
  }

  predicate IsCommit(l: Entry, key: string) { l.effect.Posted? && HasKey(l.op, key) }

  /** The lock of the key is kept by Redis, the gateway does not use the key as a reference, and the results of
      batches of calls with this key are reported to the caller. */
  predicate Reliable(s: State, e: Event, key: string) {
    && (e.LoseLock? ==> e.ref != key)
    && (e.Deliver? ==> e.payload.reference != key)
    && (e.DoSubmit? && KeyStep(s, e, key) ==> e.reported)
  }

  ghost predicate AllReliable(trace: seq<Event>, key: string) {
    forall k :: 0 <= k < |trace| ==> Reliable(Run(trace[..k]), trace[k], key)
  }

  lemma AllReliablePrefix(trace: seq<Event>, key: string)
    requires AllReliable(trace, key) && trace != []
    ensures AllReliable(trace[..|trace| - 1], key)
    ensures Reliable(Run(trace[..|trace| - 1]), trace[|trace| - 1], key)
  {
    var before := trace[..|trace| - 1];
    forall k | 0 <= k < |before|
      ensures Reliable(Run(before[..k]), before[k], key)
    {
      assert before[..k] == trace[..k];
    }
  }

  ghost predicate KeyProtocol(s: State, key: string) {
    && (forall i, j :: OwnsKey(s.threads, i, key) && OwnsKey(s.threads, j, key) ==> i == j)
    && (forall id :: OwnsKey(s.threads, id, key) ==> key in s.locks && OwnerState(s.threads[id], Commits(s.lin, key)))
    && Commits(s.lin, key) <= 1
    && (Commits(s.lin, key) == 1 ==> key in s.locks)
    && (forall id :: id in s.threads && s.threads[id].Handler? ==> s.threads[id].payload.reference != key)
  }

  /** Before its batch and after a failure the owner has committed nothing; completing, it has. */
  predicate OwnerState(t: Thread, commits: nat)
    requires t.Client?
  {
    && (t.pc.Completing? <==> commits == 1)
    && (t.pc.Releasing? && t.call.Ended? ==> t.call.effect == Nothing)
  }

  lemma OneMoreEntry(lin: seq<Entry>, l: Entry, key: string)
    ensures Commits(lin + [l], key) == Commits(lin, key) + if IsCommit(l, key) then 1 else 0
  {
    assert (lin + [l])[..|lin|] == lin;
  }

  lemma DoneOrNothing(db: Db, call: Call)
    requires call.Ready? && IsClientOp(call.op)
    ensures var (db', done) := Submit(db, call);
      && done.Ended? && done.op == call.op
      && (done.reply.Done? <==> done.effect.Posted?)
      && (!done.reply.Done? ==> done.effect == Nothing && db' == db)
  {
  }

  /** A client batch that answers Done has logged exactly the rows of its operation; any other answer leaves the
      database as it was. */
  lemma PostedIsDone(db: Db, call: Call)
    requires Valid(db) && call.Ready? && CallOk(db, call) && IsClientOp(call.op)
    ensures var (db', done) := Submit(db, call);
      && (done.reply.Done? <==> done.effect.Posted?)
      && if done.reply.Done? then LogsLegs(Abs(db), call.op, db'.log) else db' == db
  {
    DoneOrNothing(db, call);
    SubmitLogsLegs(db, call);
  }

  /** Steps of calls with another key, and of the worker, commit nothing for this key. */
  lemma OtherCommits(s: State, e: Event, key: string)
    requires Core(s)
    requires Caller(e).Some? && e.id in s.threads && s.threads[e.id].Client? ==> !HasKey(s.threads[e.id].call.op, key)
    ensures Commits(Next(s, e).lin, key) == Commits(s.lin, key)
  {
    var s' := Next(s, e);
    StepRefines(s, e);
    if s'.lin != s.lin {
      var l := s'.lin[|s.lin|];
      assert s'.lin == s.lin + [l];
      OneMoreEntry(s.lin, l, key);
      if Caller(e).Some? {
        assert ThreadOk(s.db, s.threads[e.id]);
      } else {
        assert !IsClientOp(s.worker.call.op);
      }
    }
  }

  /** The steps of a client call with this key. */
  predicate KeyStep(s: State, e: Event, key: string) {
    IsThreadEvent(e) && e.id in s.threads && s.threads[e.id].Client? && HasKey(s.threads[e.id].call.op, key)
  }

  lemma OtherKeepsLock(s: State, e: Event, key: string)
    requires KeyProtocol(s, key) && Reliable(s, e, key) && !KeyStep(s, e, key)
    ensures key in s.locks ==> key in Next(s, e).locks
  {
  }

  lemma OtherOwns(s: State, e: Event, key: string, id: nat)
    requires Core(s) && !KeyStep(s, e, key) && OwnsKey(Next(s, e).threads, id, key)
    ensures OwnsKey(s.threads, id, key) && Next(s, e).threads[id] == s.threads[id]
  {
    ClientKeys(s, e, id);
  }

  lemma HandlersAvoid(s: State, e: Event, key: string)
    requires KeyProtocol(s, key) && Reliable(s, e, key)
    ensures var ts := Next(s, e).threads;
      forall id :: id in ts && ts[id].Handler? ==> ts[id].payload.reference != key
  {
  }

  lemma OtherKeyProtocol(s: State, e: Event, key: string)
    requires Core(s) && KeyProtocol(s, key) && Reliable(s, e, key) && !KeyStep(s, e, key)
    ensures KeyProtocol(Next(s, e), key)
  {
    OtherCommits(s, e, key);
    OtherKeepsLock(s, e, key);
    HandlersAvoid(s, e, key);
    forall id | OwnsKey(Next(s, e).threads, id, key)
      ensures OwnsKey(s.threads, id, key) && Next(s, e).threads[id] == s.threads[id]
    {
      OtherOwns(s, e, key, id);
    }
  }

  /** What the call's own step does to its thread, to the lock and to the commits. */
  ghost predicate OwnStepOk(s: State, s': State, id: nat, key: string)
    requires id in s.threads
  {
    && id in s'.threads && s'.threads[id].Client? && HasKey(s'.threads[id].call.op, key)
    && s'.threads == s.threads[id := s'.threads[id]]
    && Commits(s'.lin, key) <= 1
    && (Commits(s'.lin, key) == 1 ==> key in s'.locks)
    && (OwnsKey(s'.threads, id, key) ==>
          && (OwnsKey(s.threads, id, key) || key !in s.locks)
          && key in s'.locks && OwnerState(s'.threads[id], Commits(s'.lin, key)))
    && (!OwnsKey(s.threads, id, key) ==>
          && (key in s.locks ==> key in s'.locks)
          && Commits(s'.lin, key) == Commits(s.lin, key))
  }

  lemma OwnRead(s: State, id: nat, key: string)
    requires Core(s) && KeyProtocol(s, key) && KeyStep(s, DoRead(id), key)
    ensures OwnStepOk(s, Next(s, DoRead(id)), id, key)
  {
    var t := s.threads[id];
    assert ThreadOk(s.db, t);
    if Active(t) && CanRead(t.call) {
      assert OwnsKey(s.threads, id, key);
      ReadRefines(s.db, t.call);
      var next := Read(s.db, t.call);
      assert s.lin + [] == s.lin;
      if next.Ended? {
        ReadEndsWithNothing(s.db, t.call);
        OneMoreEntry(s.lin, Entry(ByThread(id), next.op, next.reply, next.effect), key);
      }
    }
  }

  lemma OwnSubmit(s: State, id: nat, key: string)
    requires Core(s) && KeyProtocol(s, key) && KeyStep(s, DoSubmit(id, true), key)
    ensures OwnStepOk(s, Next(s, DoSubmit(id, true)), id, key)
  {
    var t := s.threads[id];
    if Active(t) && t.call.Ready? {
      assert OwnsKey(s.threads, id, key);
      DoneOrNothing(s.db, t.call);
      var done := Submit(s.db, t.call).1;
      OneMoreEntry(s.lin, Entry(ByThread(id), done.op, done.reply, done.effect), key);
    }
  }

  lemma OwnLock(s: State, id: nat, ok: bool, key: string)
    requires KeyProtocol(s, key) && KeyStep(s, TryLock(id, ok), key)
    ensures OwnStepOk(s, Next(s, TryLock(id, ok)), id, key)
  {
  }

  lemma OwnOther(s: State, e: Event, key: string)
    requires Core(s) && KeyProtocol(s, key) && KeyStep(s, e, key) && !e.DoRead? && !e.DoSubmit? && !e.TryLock?
    ensures OwnStepOk(s, Next(s, e), e.id, key)
  {
    var t := s.threads[e.id];
    assert t.pc.Working? || t.pc.Completing? || t.pc.Releasing? <==> OwnsKey(s.threads, e.id, key);
  }

  lemma OwnStep(s: State, e: Event, key: string)
    requires Core(s) && KeyProtocol(s, key) && Reliable(s, e, key) && KeyStep(s, e, key)
    ensures OwnStepOk(s, Next(s, e), e.id, key)
  {
    if e.DoRead? {
      OwnRead(s, e.id, key);
    } else if e.DoSubmit? {
      OwnSubmit(s, e.id, key);
    } else if e.TryLock? {
      OwnLock(s, e.id, e.ok, key);
    } else {
      OwnOther(s, e, key);
    }
  }

  lemma ReadEndsWithNothing(db: Db, call: Call)
    requires CanRead(call)
    ensures Read(db, call).Ended? ==> Read(db, call).effect == Nothing
  {
  }

  lemma OwnKeyProtocol(s: State, e: Event, key: string)
    requires Core(s) && KeyProtocol(s, key) && Reliable(s, e, key) && KeyStep(s, e, key)
    ensures KeyProtocol(Next(s, e), key)
  {
    OwnStep(s, e, key);
    var s' := Next(s, e);
    assert forall i :: i != e.id ==> OwnsKey(s'.threads, i, key) == OwnsKey(s.threads, i, key);
  }

  lemma {:induction false} RunKeyProtocol(trace: seq<Event>, key: string)
    requires AllReliable(trace, key)
    ensures KeyProtocol(Run(trace), key)
  {
    if trace != [] {
      var before := trace[..|trace| - 1];
      var e := trace[|trace| - 1];
      AllReliablePrefix(trace, key);
      RunKeyProtocol(before, key);
      RunIsValid(before);
      if KeyStep(Run(before), e, key) {
        OwnKeyProtocol(Run(before), e, key);
      } else {
        OtherKeyProtocol(Run(before), e, key);
      }
    }
  }

  /** With locks that do not expire, a key has one owner at a time and one commit ever, across deposits,
      swaps and transfers together. */
  lemma OneOwnerOneCommit(trace: seq<Event>, key: string)
    requires AllReliable(trace, key)
    ensures Commits(Run(trace).lin, key) <= 1
    ensures forall i, j :: OwnsKey(Run(trace).threads, i, key) && OwnsKey(Run(trace).threads, j, key) ==> i == j
  {
    RunKeyProtocol(trace, key);
  }

  /** A call that gives up has posted nothing, its key is free again and has no commit: the same key can be
      retried. */
  lemma FailureIsClean(trace: seq<Event>, id: nat, key: string)
    requires AllReliable(trace, key)
    requires OwnsKey(Run(trace).threads, id, key) && Run(trace).threads[id].pc.Releasing?
    ensures var s' := Run(trace + [DoRelease(id, true)]);
      && s'.threads[id].pc == Finished(GaveUp)
      && s'.db == Run(trace).db
      && key !in s'.locks && Commits(s'.lin, key) == 0
      && (forall i :: !OwnsKey(s'.threads, i, key))
      && (forall i :: 0 <= i < |s'.lin| && s'.lin[i].author == ByThread(id) ==> s'.lin[i].effect == Nothing)
  {
    var all := trace + [DoRelease(id, true)];
    assert all[..|all| - 1] == trace;
    RunKeyProtocol(trace, key);
    EachCallOnce(trace);
    ReleaseStep(Run(trace), id, key);
    ReleasedPostedNothing(Run(trace), id, key);
  }

  lemma ReleaseStep(s: State, id: nat, key: string)
    requires KeyProtocol(s, key) && OwnsKey(s.threads, id, key) && s.threads[id].pc.Releasing?
    ensures var s' := Next(s, DoRelease(id, true));
      && id in s'.threads && s'.threads[id].Client? && s'.threads[id].pc == Finished(GaveUp)
      && s'.db == s.db && s'.lin == s.lin && key !in s'.locks
      && forall i :: !OwnsKey(s'.threads, i, key)
  {
    var s' := Next(s, DoRelease(id, true));
    assert s'.threads == s.threads[id := s.threads[id].(pc := Finished(GaveUp))];
    assert forall i :: OwnsKey(s'.threads, i, key) ==> i == id || OwnsKey(s.threads, i, key);
  }

  lemma ReleasedPostedNothing(s: State, id: nat, key: string)
    requires KeyProtocol(s, key) && EntriesMatch(s) && OwnsKey(s.threads, id, key) && s.threads[id].pc.Releasing?
    ensures Commits(s.lin, key) == 0
    ensures forall i :: 0 <= i < |s.lin| && s.lin[i].author == ByThread(id) ==> s.lin[i].effect == Nothing
  {
    assert OneEntry(s.threads, s.lin, id);
    assert OwnerState(s.threads[id], Commits(s.lin, key));
  }
}
