/** The webhook queue of internals/pkg/redis.go: one list, one worker, bounded retries, a dead-letter list.
    A job's tag is its place in the order of Enqueue calls; it identifies the job across retries. */
module JobQueue {
  import opened Prelude
  import opened Webhooks

  const MAX_RETRIES := 3

  datatype Job = Job(tag: nat, payload: Payload, retries: nat)

  /** sent, failures and attempted record history: payload and failed attempts per tag, and the order of
      attempts. */
  datatype Queue = Queue(
    waiting: seq<Job>,
    current: Option<Job>,
    processed: seq<Job>,
    dead: seq<Job>,
    sent: seq<Payload>,
    failures: seq<nat>,
    attempted: seq<nat>)

  function EmptyQueue(): Queue { Queue([], None, [], [], [], [], []) }

  datatype QueueEvent = Enqueue(payload: Payload) | Pop | Finish(ok: bool)

  function Push(q: Queue, p: Payload): Queue {
    q.(waiting := q.waiting + [Job(|q.sent|, p, 0)], sent := q.sent + [p], failures := q.failures + [0])
  }

  /** BLPop by the single worker: blocks on an empty list, and while a job is being processed. */
  function Take(q: Queue): Queue {
    if q.current.Some? || q.waiting == [] then q
    else q.(waiting := q.waiting[1..], current := Some(q.waiting[0]), attempted := q.attempted + [q.waiting[0].tag])
  }

  /** The end of an attempt: done, pushed again at the back, or dead-lettered. */
  function Close(q: Queue, ok: bool): Queue {
    if q.current.None? then q
    else
      var j := q.current.value;
      var idle := q.(current := None);
      if ok then idle.(processed := q.processed + [j])
      else
        var j' := j.(retries := j.retries + 1);
        var counted := idle.(failures :=
          if j.tag < |q.failures| then q.failures[j.tag := q.failures[j.tag] + 1] else q.failures);
        if j'.retries < MAX_RETRIES then counted.(waiting := q.waiting + [j']) else counted.(dead := q.dead + [j'])
  }

  function QueueNext(q: Queue, e: QueueEvent): Queue {
    match e
    case Enqueue(p) => Push(q, p)
    case Pop => Take(q)
    case Finish(ok) => Close(q, ok)
  }

  function QueueRun(q: Queue, trace: seq<QueueEvent>): Queue {
    if trace == [] then q else QueueNext(QueueRun(q, trace[..|trace| - 1]), trace[|trace| - 1])
  }

  // ---- Conservation and retry accounting

  function Copies(jobs: seq<Job>, t: nat): nat {
    if jobs == [] then 0 else Copies(jobs[..|jobs| - 1], t) + (if jobs[|jobs| - 1].tag == t then 1 else 0)
  }

  function InFlight(q: Queue): seq<Job> { if q.current.Some? then [q.current.value] else [] }

  function Total(q: Queue, t: nat): nat {
    Copies(q.waiting, t) + Copies(InFlight(q), t) + Copies(q.processed, t) + Copies(q.dead, t)
  }

  /** Every job ever enqueued is in exactly one place, and nothing else is. */
  ghost predicate OnceEach(q: Queue) { forall t: nat :: Total(q, t) == if t < |q.sent| then 1 else 0 }

  predicate AsSent(sent: seq<Payload>, j: Job) { j.tag < |sent| && sent[j.tag] == j.payload }

  /** Retries changes nothing of a job but its count. */
  ghost predicate Unaltered(q: Queue) {
    && (forall i :: 0 <= i < |q.waiting| ==> AsSent(q.sent, q.waiting[i]))
    && (forall i :: 0 <= i < |q.processed| ==> AsSent(q.sent, q.processed[i]))
    && (forall i :: 0 <= i < |q.dead| ==> AsSent(q.sent, q.dead[i]))
    && (q.current.Some? ==> AsSent(q.sent, q.current.value))
  }

  ghost predicate Conserved(q: Queue) { OnceEach(q) && Unaltered(q) }

  predicate Counted(failures: seq<nat>, j: Job, dead: bool) {
    && j.tag < |failures| && j.retries == failures[j.tag]
    && (if dead then j.retries == MAX_RETRIES else j.retries < MAX_RETRIES)
  }

  /** Retries is the number of failed attempts: below 3 until the job is dead, exactly 3 then. */
  ghost predicate RetriesCounted(q: Queue) {
    && |q.failures| == |q.sent|
    && (forall i :: 0 <= i < |q.waiting| ==> Counted(q.failures, q.waiting[i], false))
    && (forall i :: 0 <= i < |q.processed| ==> Counted(q.failures, q.processed[i], false))
    && (forall i :: 0 <= i < |q.dead| ==> Counted(q.failures, q.dead[i], true))
    && (q.current.Some? ==> Counted(q.failures, q.current.value, false))
  }

  lemma {:induction false} CopiesConcat(a: seq<Job>, b: seq<Job>, t: nat)
    ensures Copies(a + b, t) == Copies(a, t) + Copies(b, t)
  {
    if b == [] {
      assert a + b == a;
    } else {
      CopiesConcat(a, b[..|b| - 1], t);
      assert (a + b)[..|a + b| - 1] == a + b[..|b| - 1];
    }
  }

  lemma CopiesOne(j: Job, t: nat)
    ensures Copies([j], t) == if j.tag == t then 1 else 0
  {
    assert [j][..0] == [];
  }

  lemma {:induction false} CopiesPositive(jobs: seq<Job>, i: nat)
    requires i < |jobs|
    ensures Copies(jobs, jobs[i].tag) >= 1
  {
    if i < |jobs| - 1 {
      CopiesPositive(jobs[..|jobs| - 1], i);
    }
  }

  lemma PushTotal(q: Queue, p: Payload, t: nat)
    ensures Total(Push(q, p), t) == Total(q, t) + if t == |q.sent| then 1 else 0
  {
    CopiesConcat(q.waiting, [Job(|q.sent|, p, 0)], t);
    CopiesOne(Job(|q.sent|, p, 0), t);
  }

  lemma TakeTotal(q: Queue, t: nat)
    ensures Total(Take(q), t) == Total(q, t)
  {
    if q.current.None? && q.waiting != [] {
      var j := q.waiting[0];
      CopiesConcat([j], q.waiting[1..], t);
      CopiesOne(j, t);
      assert [j] + q.waiting[1..] == q.waiting;
    }
  }

  lemma CloseTotal(q: Queue, ok: bool, t: nat)
    ensures Total(Close(q, ok), t) == Total(q, t)
  {
    if q.current.Some? {
      var j := q.current.value;
      var j' := j.(retries := j.retries + 1);
      CopiesOne(j, t);
      CopiesOne(j', t);
      if ok {
        CopiesConcat(q.processed, [j], t);
      } else if j'.retries < MAX_RETRIES {
        CopiesConcat(q.waiting, [j'], t);
      } else {
        CopiesConcat(q.dead, [j'], t);
      }
    }
  }

  lemma NextOnceEach(q: Queue, e: QueueEvent)
    requires OnceEach(q)
    ensures OnceEach(QueueNext(q, e))
  {
    forall t: nat
      ensures Total(QueueNext(q, e), t) == if t < |QueueNext(q, e).sent| then 1 else 0
    {
      assert Total(q, t) == if t < |q.sent| then 1 else 0;
      match e
      case Enqueue(p) => PushTotal(q, p, t);
      case Pop => TakeTotal(q, t);
      case Finish(ok) => CloseTotal(q, ok, t);
    }
  }

  lemma NextConserved(q: Queue, e: QueueEvent)
    requires Conserved(q)
    ensures Conserved(QueueNext(q, e))
  {
    NextOnceEach(q, e);
  }

  /** The job in progress is nowhere else. */
  lemma CurrentDistinct(q: Queue)
    requires OnceEach(q) && q.current.Some?
    ensures forall i :: 0 <= i < |q.waiting| ==> q.waiting[i].tag != q.current.value.tag
    ensures forall i :: 0 <= i < |q.processed| ==> q.processed[i].tag != q.current.value.tag
    ensures forall i :: 0 <= i < |q.dead| ==> q.dead[i].tag != q.current.value.tag
  {
    var t := q.current.value.tag;
    CopiesOne(q.current.value, t);
    assert Total(q, t) <= 1;
    NoCopies(q.waiting, t);
    NoCopies(q.processed, t);
    NoCopies(q.dead, t);
  }

  lemma NoCopies(jobs: seq<Job>, t: nat)
    requires Copies(jobs, t) == 0
    ensures forall i :: 0 <= i < |jobs| ==> jobs[i].tag != t
  {
    forall i | 0 <= i < |jobs|
      ensures jobs[i].tag != t
    {
      CopiesPositive(jobs, i);
    }
  }

  lemma NextCounted(q: Queue, e: QueueEvent)
    requires Conserved(q) && RetriesCounted(q)
    ensures RetriesCounted(QueueNext(q, e))
  {
    if e.Finish? && q.current.Some? {
      CurrentDistinct(q);
    }
  }

  /** On every run: conservation and exact retry counts. */
  lemma {:induction false} QueueSafe(trace: seq<QueueEvent>)
    ensures Conserved(QueueRun(EmptyQueue(), trace))
    ensures RetriesCounted(QueueRun(EmptyQueue(), trace))
    ensures var q := QueueRun(EmptyQueue(), trace);
      && (forall i :: 0 <= i < |q.waiting| ==> q.waiting[i].retries < 3)
      && (forall i :: 0 <= i < |q.dead| ==> q.dead[i].retries == 3)
  {
    if trace == [] {
    } else {
      var before := trace[..|trace| - 1];
      QueueSafe(before);
      NextConserved(QueueRun(EmptyQueue(), before), trace[|trace| - 1]);
      NextCounted(QueueRun(EmptyQueue(), before), trace[|trace| - 1]);
    }
  }

  // ---- Termination

  function Left(j: Job): nat { if j.retries < MAX_RETRIES then MAX_RETRIES - j.retries else 0 }

  /** Attempts the waiting jobs can still use up. */
  function Potential(jobs: seq<Job>): nat {
    if jobs == [] then 0 else Potential(jobs[..|jobs| - 1]) + Left(jobs[|jobs| - 1])
  }

  lemma {:induction false} PotentialConcat(a: seq<Job>, b: seq<Job>)
    ensures Potential(a + b) == Potential(a) + Potential(b)
  {
    if b == [] {
      assert a + b == a;
    } else {
      PotentialConcat(a, b[..|b| - 1]);
      assert (a + b)[..|a + b| - 1] == a + b[..|b| - 1];
    }
  }

  /** One iteration of the worker loop on a non-empty list. */
  function Iterate(q: Queue, ok: bool): Queue { Close(Take(q), ok) }

  predicate Fresh(jobs: seq<Job>) { forall i :: 0 <= i < |jobs| ==> jobs[i].retries < MAX_RETRIES }

  /** Every iteration uses up potential, by exactly one when the attempt fails. */
  lemma IterateDecreases(q: Queue, ok: bool)
    requires q.current.None? && q.waiting != [] && Fresh(q.waiting)
    ensures var q' := Iterate(q, ok);
      && q'.current.None? && Fresh(q'.waiting)
      && Potential(q'.waiting) < Potential(q.waiting)
      && (!ok ==> Potential(q'.waiting) == Potential(q.waiting) - 1)
      && |q'.attempted| == |q.attempted| + 1
  {
    var j := q.waiting[0];
    assert [j] + q.waiting[1..] == q.waiting;
    PotentialConcat([j], q.waiting[1..]);
    assert [j][..0] == [];
    PotentialConcat(q.waiting[1..], [j.(retries := j.retries + 1)]);
    assert [j.(retries := j.retries + 1)][..0] == [];
  }

  lemma {:induction false} PotentialOfNew(jobs: seq<Job>)
    requires forall i :: 0 <= i < |jobs| ==> jobs[i].retries == 0
    ensures Potential(jobs) == MAX_RETRIES * |jobs|
  {
    if jobs != [] {
      PotentialOfNew(jobs[..|jobs| - 1]);
    }
  }

  function Drain(q: Queue, verdicts: seq<bool>): Queue {
    if verdicts == [] then q else Iterate(Drain(q, verdicts[..|verdicts| - 1]), verdicts[|verdicts| - 1])
  }

  /** N fresh jobs are gone after 3N iterations, whatever the verdicts. */
  lemma {:induction false} DrainsInThreeN(q: Queue, verdicts: seq<bool>)
    requires q.current.None? && (forall i :: 0 <= i < |q.waiting| ==> q.waiting[i].retries == 0)
    requires |verdicts| >= 3 * |q.waiting|
    ensures Drain(q, verdicts).waiting == []
    ensures |Drain(q, verdicts).attempted| <= |q.attempted| + 3 * |q.waiting|
  {
    PotentialOfNew(q.waiting);
    DrainBound(q, verdicts);
  }

  lemma {:induction false} DrainBound(q: Queue, verdicts: seq<bool>)
    requires q.current.None? && Fresh(q.waiting)
    ensures var q' := Drain(q, verdicts);
      && q'.current.None? && Fresh(q'.waiting)
      && (q'.waiting == [] || Potential(q'.waiting) + |verdicts| <= Potential(q.waiting))
      && |q'.attempted| + Potential(q'.waiting) <= |q.attempted| + Potential(q.waiting)
      && (|verdicts| >= Potential(q.waiting) ==> q'.waiting == [])
  {
    if verdicts != [] {
      var before := verdicts[..|verdicts| - 1];
      DrainBound(q, before);
      var q1 := Drain(q, before);
      if q1.waiting != [] {
        IterateDecreases(q1, verdicts[|verdicts| - 1]);
        NonEmptyPotential(Drain(q, verdicts).waiting);
      }
    } else {
      NonEmptyPotential(q.waiting);
    }
  }

  lemma NonEmptyPotential(jobs: seq<Job>)
    requires Fresh(jobs)
    ensures jobs != [] ==> Potential(jobs) > 0
  {
  }

  /** Bodies pushed one after the other. */
  function PushAll(q: Queue, ps: seq<Payload>): Queue {
    if ps == [] then q else Push(PushAll(q, ps[..|ps| - 1]), ps[|ps| - 1])
  }

  lemma {:induction false} PushAllIdle(q: Queue, ps: seq<Payload>)
    ensures PushAll(q, ps).current == q.current
  {
    if ps != [] {
      PushAllIdle(q, ps[..|ps| - 1]);
    }
  }

  /** After so many turns without arrivals, what is left of the potential. */
  predicate Draining(q: Queue, turns: nat, potential: nat) {
    Fresh(q.waiting) && (q.waiting != [] ==> Potential(q.waiting) + turns <= potential)
  }

  lemma IterateDrains(q: Queue, turns: nat, potential: nat)
    requires q.current.None? && q.waiting != [] && Draining(q, turns, potential)
    ensures forall ok :: Draining(Iterate(q, ok), turns + 1, potential)
  {
    IterateDecreases(q, true);
    IterateDecreases(q, false);
  }

  // ---- Fairness

  function Tags(jobs: seq<Job>): seq<nat> { seq(|jobs|, i requires 0 <= i < |jobs| => jobs[i].tag) }

  /** First in, first out: as long as no more than the waiting jobs were attempted, the attempts are
      exactly those jobs in order and the rest still waits in front. */
  ghost predicate InOrder(q: Queue, q': Queue) {
    var n := |q.attempted|;
    && q.attempted <= q'.attempted
    && (forall k :: n <= k < |q'.attempted| && k - n < |q.waiting| ==> q'.attempted[k] == q.waiting[k - n].tag)
    && var served := |q'.attempted| - n;
       served <= |q.waiting| ==> q.waiting[served..] <= q'.waiting
  }

  lemma {:induction false} FirstInFirstOut(q: Queue, trace: seq<QueueEvent>)
    ensures InOrder(q, QueueRun(q, trace))
  {
    if trace != [] {
      var before := trace[..|trace| - 1];
      FirstInFirstOut(q, before);
      InOrderNext(q, QueueRun(q, before), trace[|trace| - 1]);
    }
  }

  lemma InOrderNext(q: Queue, q1: Queue, e: QueueEvent)
    requires InOrder(q, q1)
    ensures InOrder(q, QueueNext(q1, e))
  {
    var served := |q1.attempted| - |q.attempted|;
    var q' := QueueNext(q1, e);
    if !(e.Pop? && q1.current.None? && q1.waiting != []) {
      assert q'.attempted == q1.attempted && q1.waiting <= q'.waiting;
    } else if served < |q.waiting| {
      var ahead := q.waiting[served..];
      assert ahead <= q1.waiting && q.waiting[served + 1..] == ahead[1..];
      assert q1.waiting[0] == ahead[0] && ahead[1..] <= q1.waiting[1..];
    }
  }

  /** After a failed attempt is pushed again, the job's next attempt comes only after one attempt of every
      job then queued ahead of it, in order. */
  lemma Fairness(q: Queue, trace: seq<QueueEvent>, k: nat)
    requires Conserved(q) && q.current.Some? && q.current.value.retries + 1 < MAX_RETRIES
    requires var q' := QueueRun(Close(q, false), trace);
      |q.attempted| <= k < |q'.attempted| && q'.attempted[k] == q.current.value.tag
    ensures var q' := QueueRun(Close(q, false), trace);
      && k >= |q.attempted| + |q.waiting|
      && q'.attempted[|q.attempted|..|q.attempted| + |q.waiting|] == Tags(q.waiting)
  {
    FirstInFirstOut(Close(q, false), trace);
    CurrentDistinct(q);
  }
}
