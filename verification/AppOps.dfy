/** What is asked for is what is done: a property of all operations that enter the backend holds of all
    operations it works on. */
module AppOps {
  import opened Book
  import opened Refinement
  import opened Webhooks
  import opened Requests
  import opened App
  import opened AppCore

  type OpProperty = Op -> bool

  predicate BodySatisfies(b: Payload, p: OpProperty) { OpOf(b).Some? ==> p(OpOf(b).value) }

  /** What the event brings in has the property. */
  predicate EventSatisfies(e: Event, p: OpProperty) {
    && (e.NewClient? ==> p(Requested(e.request)))
    && (e.NewDirect? ==> p(e.op))
    && (e.Deliver? ==> BodySatisfies(e.payload, p))
  }

  ghost predicate ThreadsSatisfy(s: State, p: OpProperty) {
    && (forall id :: id in s.threads && !s.threads[id].Handler? ==> p(s.threads[id].call.op))
    && (forall id :: id in s.threads && s.threads[id].Handler? ==> BodySatisfies(s.threads[id].payload, p))
  }

  ghost predicate JobsSatisfy(s: State, p: OpProperty) {
    && (forall i :: 0 <= i < |s.queue.waiting| ==> BodySatisfies(s.queue.waiting[i].payload, p))
    && (s.queue.current.Some? ==> BodySatisfies(s.queue.current.value.payload, p))
  }

  /** All operations in flight have the property, and all bodies about to become operations. */
  ghost predicate OpsSatisfy(s: State, p: OpProperty) { ThreadsSatisfy(s, p) && JobsSatisfy(s, p) }

  /** A call keeps its operation. */
  lemma OpKept(s: State, e: Event, id: nat)
    requires Core(s) && id in Next(s, e).threads && !Next(s, e).threads[id].Handler?
    ensures (id in s.threads && !s.threads[id].Handler? && s.threads[id].call.op == Next(s, e).threads[id].call.op)
      || (id !in s.threads && e.NewClient? && Next(s, e).threads[id].call.op == Requested(e.request))
      || (id !in s.threads && e.NewDirect? && Next(s, e).threads[id].call.op == e.op)
  {
    if IsThreadEvent(e) && e.id == id && id in s.threads {
      assert ThreadOk(s.db, s.threads[id]);
      if e.DoRead? && Active(s.threads[id]) && CanRead(s.threads[id].call) {
        ReadRefines(s.db, s.threads[id].call);
      }
    }
  }

  /** A handler keeps its body. */
  lemma BodyKept(s: State, e: Event, id: nat)
    requires id in Next(s, e).threads && Next(s, e).threads[id].Handler?
    ensures (id in s.threads && s.threads[id].Handler? && s.threads[id].payload == Next(s, e).threads[id].payload)
      || (id !in s.threads && e.Deliver? && Next(s, e).threads[id].payload == e.payload)
  {
  }

  lemma NextJobs(s: State, e: Event, p: OpProperty)
    requires OpsSatisfy(s, p)
    ensures JobsSatisfy(Next(s, e), p)
  {
  }

  lemma NextOps(s: State, e: Event, p: OpProperty)
    requires Core(s) && OpsSatisfy(s, p) && EventSatisfies(e, p)
    ensures OpsSatisfy(Next(s, e), p)
  {
    var s' := Next(s, e);
    forall id | id in s'.threads
      ensures if s'.threads[id].Handler? then BodySatisfies(s'.threads[id].payload, p) else p(s'.threads[id].call.op)
    {
      if s'.threads[id].Handler? { BodyKept(s, e, id); } else { OpKept(s, e, id); }
    }
    NextJobs(s, e, p);
  }

  lemma ActingSatisfies(s: State, e: Event, p: OpProperty)
    requires Core(s) && OpsSatisfy(s, p)
    ensures Acting(s, e).Some? ==> p(Acting(s, e).value.op)
  {
  }

  /** On every run whose events all have the property, the linearization has it too. */
  lemma {:induction false} RunOps(trace: seq<Event>, p: OpProperty)
    requires forall k :: 0 <= k < |trace| ==> EventSatisfies(trace[k], p)
    ensures OpsSatisfy(Run(trace), p)
    ensures forall i :: 0 <= i < |Run(trace).lin| ==> p(Run(trace).lin[i].op)
  {
    if trace != [] {
      var before := trace[..|trace| - 1];
      var e := trace[|trace| - 1];
      RunOps(before, p);
      RunIsValid(before);
      NextOps(Run(before), e, p);
      ActingSatisfies(Run(before), e, p);
      LinSatisfies(Run(before), e, p);
    }
  }

  lemma LinSatisfies(s: State, e: Event, p: OpProperty)
    requires Core(s) && (forall i :: 0 <= i < |s.lin| ==> p(s.lin[i].op))
    requires Acting(s, e).Some? ==> p(Acting(s, e).value.op)
    ensures var lin := Next(s, e).lin; forall i :: 0 <= i < |lin| ==> p(lin[i].op)
  {
    var lin := Next(s, e).lin;
    StepRefines(s, e);
    assert forall i :: 0 <= i < |s.lin| ==> lin[..|s.lin|][i] == lin[i];
  }
}
