/** What callers are told: the verdict of a client call and of a direct call says what became of its operation. */
module AppVerdicts {
  import opened Tables
  import opened Book
  import opened Calls
  import opened Requests
  import opened App
  import opened AppCore
  import opened AppKeys

  /** A client operation that ended either posted, with answer Done, or left nothing. */
  predicate AllOrNothing(call: Call) {
    call.Ended? ==> (call.reply.Done? <==> call.effect.Posted?) && (call.reply.Rejected? ==> call.effect == Nothing)
  }

  predicate IsDuplicate(call: Call) { call.Ended? && call.reply == Rejected(Database(UniqueViolation)) }

  /** Refused for another reason, or cut off before its batch. */
  predicate IsFailure(call: Call) { !call.Ended? || (call.reply.Rejected? && !IsDuplicate(call)) }

  /** What the place of a thread says about its call. A client is told success exactly when its operation was
      committed, duplicate when the lock or the unique index said so, and failure otherwise. */
  predicate VerdictOk(t: Thread) {
    match t
    case Handler(_, _) => true
    case Direct(call, told) => call.Ended? ==> told
    case Client(call, pc) =>
      && AllOrNothing(call)
      && match pc
         case Locking => call.Start?
         case Working => !call.Ended?
         case Completing => call.Ended? && call.reply.Done?
         case Releasing => IsFailure(call)
         case Finished(verdict) =>
           match verdict
           case Succeeded => call.Ended? && call.reply.Done?
           case Duplicate => call.Start? || IsDuplicate(call)
           case GaveUp => IsFailure(call)
  }

  /** The results of the thread's batches are reported to it. */
  predicate ReportsTo(e: Event, id: nat) { e.DoSubmit? && e.id == id ==> e.reported }

  /** A read that ends a client call refuses it. */
  lemma ReadRefuses(db: Db, call: Call)
    requires CanRead(call) && IsClientOp(call.op)
    ensures var next := Read(db, call);
      && next.op == call.op && !next.Start?
      && (next.Ended? ==> next.reply.Rejected? && next.effect == Nothing && !IsDuplicate(next))
  {
  }

  lemma NextVerdict(s: State, e: Event, id: nat)
    requires Core(s) && (id in s.threads ==> VerdictOk(s.threads[id])) && ReportsTo(e, id)
    ensures id in Next(s, e).threads ==> VerdictOk(Next(s, e).threads[id])
  {
    if IsThreadEvent(e) && e.id == id && id in s.threads {
      if e.DoRead? || e.DoSubmit? { CallVerdict(s, e); } else { OtherVerdict(s, e); }
    } else {
      UntouchedVerdict(s, e, id);
    }
  }

  lemma CallVerdict(s: State, e: Event)
    requires Core(s) && (e.DoRead? || e.DoSubmit?) && e.id in s.threads && VerdictOk(s.threads[e.id])
    requires ReportsTo(e, e.id)
    ensures e.id in Next(s, e).threads && VerdictOk(Next(s, e).threads[e.id])
  {
    var t := s.threads[e.id];
    assert ThreadOk(s.db, t);
    if t.Client? && e.DoRead? && CanRead(t.call) { ReadRefuses(s.db, t.call); }
    if t.Client? && e.DoSubmit? && t.call.Ready? { DoneOrNothing(s.db, t.call); }
  }

  lemma OtherVerdict(s: State, e: Event)
    requires IsThreadEvent(e) && !e.DoRead? && !e.DoSubmit? && e.id in s.threads && VerdictOk(s.threads[e.id])
    ensures e.id in Next(s, e).threads && VerdictOk(Next(s, e).threads[e.id])
  {
  }

  /** Another's step, or the one that starts the thread. */
  lemma UntouchedVerdict(s: State, e: Event, id: nat)
    requires (id in s.threads ==> VerdictOk(s.threads[id])) && !(IsThreadEvent(e) && e.id == id && id in s.threads)
    ensures id in Next(s, e).threads ==> VerdictOk(Next(s, e).threads[id])
  {
  }

  lemma {:induction false} RunVerdicts(trace: seq<Event>, id: nat)
    requires forall k :: 0 <= k < |trace| ==> ReportsTo(trace[k], id)
    ensures id in Run(trace).threads ==> VerdictOk(Run(trace).threads[id])
  {
    if trace != [] {
      var before := trace[..|trace| - 1];
      RunVerdicts(before, id);
      RunIsValid(before);
      NextVerdict(Run(before), trace[|trace| - 1], id);
    }
  }

  ghost predicate HasPosted(lin: seq<Entry>, id: nat) {
    exists i :: 0 <= i < |lin| && lin[i].author == ByThread(id) && lin[i].effect.Posted?
  }

  /** On every run that reports results to it, a client call that is over was told success if and only if its
      operation was committed. */
  lemma SucceededExactly(trace: seq<Event>, id: nat)
    requires forall k :: 0 <= k < |trace| ==> ReportsTo(trace[k], id)
    requires id in Run(trace).threads && Run(trace).threads[id].Client? && Run(trace).threads[id].pc.Finished?
    ensures Run(trace).threads[id].pc == Finished(Succeeded) <==> HasPosted(Run(trace).lin, id)
  {
    var s := Run(trace);
    RunVerdicts(trace, id);
    EachCallOnce(trace);
    assert OneEntry(s.threads, s.lin, id);
    if s.threads[id].call.Ended? {
      var i :| 0 <= i < |s.lin| && s.lin[i].author == ByThread(id);
      assert Ended(s.lin[i].op, s.lin[i].reply, s.lin[i].effect) == s.threads[id].call;
    }
  }

  /** The lock decides who works: a client that finds its key free does, any other is told duplicate and leaves no
      trace. A working client that is cut off before its batch goes on to release its key. */
  lemma LockDecides(s: State, id: nat, ok: bool)
    requires Core(s) && id in s.threads && s.threads[id].Client?
    ensures s.threads[id].pc.Locking? ==>
      var s' := Next(s, TryLock(id, ok)); var key := KeyOf(s.threads[id].call.op);
      if ok && key !in s.locks then s'.threads[id].pc == Working && s'.locks == s.locks + {key}
      else s'.threads[id].pc == Finished(Duplicate) && s'.locks == s.locks && s'.db == s.db
    ensures s.threads[id].pc.Working? && !s.threads[id].call.Ended? ==>
      var s' := Next(s, DoAbort(id)); s'.threads[id].pc == Releasing && s'.db == s.db && s'.locks == s.locks
  {
    assert ThreadOk(s.db, s.threads[id]);
  }

  /** A batch whose result is lost is an error to the caller, committed or not: a client goes on to release its key,
      a direct call is not told. */
  lemma LostResult(s: State, id: nat)
    requires id in s.threads && Active(s.threads[id]) && s.threads[id].call.Ready?
    ensures var s' := Next(s, DoSubmit(id, false));
      && s'.db == Submit(s.db, s.threads[id].call).0 && s'.locks == s.locks
      && (s.threads[id].Client? ==> s'.threads[id].Client? && s'.threads[id].pc == Releasing)
      && (s.threads[id].Direct? ==> s'.threads[id].Direct? && !s'.threads[id].told)
  {
  }

  /** A request becomes one operation, under the request's own key. */
  lemma RequestKey(r: KeyedRequest)
    ensures IsClientOp(Requested(r)) && KeyOf(Requested(r)) == r.key
  {
  }
}
