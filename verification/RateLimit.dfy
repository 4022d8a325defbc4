/** The rate limiter of internals/pkg/redis.go: a counter per user with an expiry set by its first increment.
    INCR and EXPIRE are separate steps; routes with different limits share the counter and the window. */
module RateLimit {
  import opened Prelude

  /** One IsRateLimited call: when it incremented, the limit it asked for, and the count it got, in which
      life of the counter. */
  datatype Hit = Hit(time: int, limit: int, life: int, count: nat)

  /** count == 0 means the key does not exist. starts holds the first increment of every life; unset says
      the EXPIRE of the current life is still to come. */
  datatype Limiter = Limiter(now: int, count: nat, deadline: Option<int>, unset: bool, starts: seq<int>, hits: seq<Hit>)

  const FRESH := Limiter(0, 0, None, false, [], [])

  datatype Step = Wait(dt: nat) | Incr(limit: int) | Expire

  predicate Admits(h: Hit) { h.count <= h.limit }

  function LimiterNext(l: Limiter, s: Step, window: nat): Limiter {
    match s
    case Wait(dt) =>
      var t := l.now + dt;
      if l.deadline.Some? && l.deadline.value <= t then l.(now := t, count := 0, deadline := None) else l.(now := t)
    case Incr(limit) =>
      if l.count == 0
      then l.(count := 1, unset := true, starts := l.starts + [l.now],
              hits := l.hits + [Hit(l.now, limit, |l.starts|, 1)])
      else l.(count := l.count + 1, hits := l.hits + [Hit(l.now, limit, |l.starts| - 1, l.count + 1)])
    case Expire => if l.unset then l.(deadline := Some(l.now + window), unset := false) else l
  }

  function LimiterRun(trace: seq<Step>, window: nat): Limiter {
    if trace == [] then FRESH else LimiterNext(LimiterRun(trace[..|trace| - 1], window), trace[|trace| - 1], window)
  }

  // ---- Lives of the counter are at least one window apart

  ghost predicate Paced(l: Limiter, window: nat) {
    && (l.count > 0 ==> l.starts != [])
    && (l.unset ==> l.count > 0 && l.deadline.None?)
    && (l.deadline.Some? ==> l.count > 0 && l.starts[|l.starts| - 1] + window <= l.deadline.value)
    && (l.starts != [] ==> l.starts[|l.starts| - 1] <= l.now)
    && (l.starts != [] && l.count == 0 ==> l.starts[|l.starts| - 1] + window <= l.now)
    && (forall k :: 0 <= k < |l.starts| - 1 ==> l.starts[k] + window <= l.starts[k + 1])
  }

  /** Every hit falls in its life, and counts no higher than the counter does now. */
  ghost predicate InLives(l: Limiter) {
    forall i :: 0 <= i < |l.hits| ==> var h := l.hits[i];
      && 0 <= h.life < |l.starts| && l.starts[h.life] <= h.time <= l.now && h.count >= 1
      && (h.life + 1 < |l.starts| ==> h.time <= l.starts[h.life + 1])
      && (h.life == |l.starts| - 1 && l.count > 0 ==> h.count <= l.count)
      && (h.count == 1 ==> h.time == l.starts[h.life])
  }

  ghost predicate InOrderOfLife(hits: seq<Hit>) {
    forall i, j :: 0 <= i < j < |hits| ==> hits[i].life <= hits[j].life
  }

  /** Within a life the counts go up. */
  ghost predicate CountsUp(hits: seq<Hit>) {
    forall i, j :: 0 <= i < j < |hits| && hits[i].life == hits[j].life ==> hits[i].count < hits[j].count
  }

  ghost predicate Ordered(l: Limiter) { InLives(l) && InOrderOfLife(l.hits) && CountsUp(l.hits) }

  lemma NextPaced(l: Limiter, s: Step, window: nat)
    requires Paced(l, window)
    ensures Paced(LimiterNext(l, s, window), window)
  {
  }

  lemma NextInLives(l: Limiter, s: Step, window: nat)
    requires Paced(l, window) && InLives(l)
    ensures InLives(LimiterNext(l, s, window))
  {
  }

  lemma NextOrdered(l: Limiter, s: Step, window: nat)
    requires Paced(l, window) && Ordered(l)
    ensures Ordered(LimiterNext(l, s, window))
  {
    NextInLives(l, s, window);
    if s.Incr? {
      var h := LimiterNext(l, s, window).hits[|l.hits|];
      IncrIsLast(l, s.limit, window);
      AppendInOrder(l.hits, h);
    }
  }

  /** A new hit belongs to the latest life, and counts higher than all hits of that life. */
  lemma IncrIsLast(l: Limiter, limit: int, window: nat)
    requires Paced(l, window) && InLives(l)
    ensures var hits := LimiterNext(l, Incr(limit), window).hits;
      && |hits| == |l.hits| + 1 && hits[..|l.hits|] == l.hits
      && forall i :: 0 <= i < |l.hits| ==>
           l.hits[i].life <= hits[|l.hits|].life
           && (l.hits[i].life == hits[|l.hits|].life ==> l.hits[i].count < hits[|l.hits|].count)
  {
  }

  lemma AppendInOrder(hits: seq<Hit>, h: Hit)
    requires InOrderOfLife(hits) && CountsUp(hits)
    requires forall i :: 0 <= i < |hits| ==>
      hits[i].life <= h.life && (hits[i].life == h.life ==> hits[i].count < h.count)
    ensures InOrderOfLife(hits + [h]) && CountsUp(hits + [h])
  {
  }

  lemma {:induction false} RunOrdered(trace: seq<Step>, window: nat)
    ensures var l := LimiterRun(trace, window); Paced(l, window) && Ordered(l)
  {
    if trace != [] {
      var before := trace[..|trace| - 1];
      RunOrdered(before, window);
      NextPaced(LimiterRun(before, window), trace[|trace| - 1], window);
      NextOrdered(LimiterRun(before, window), trace[|trace| - 1], window);
    }
  }

  lemma {:induction false} StartsApart(starts: seq<int>, a: nat, b: nat, window: nat)
    requires a <= b < |starts|
    requires forall k :: 0 <= k < |starts| - 1 ==> starts[k] + window <= starts[k + 1]
    ensures starts[a] + (b - a) * window <= starts[b]
  {
    if a < b {
      StartsApart(starts, a, b - 1, window);
      assert (b - a) * window == (b - 1 - a) * window + window;
    }
  }

  // ---- Counting admissions

  function Count(hits: seq<Hit>, p: Hit -> bool): nat {
    if hits == [] then 0 else Count(hits[..|hits| - 1], p) + (if p(hits[|hits| - 1]) then 1 else 0)
  }

  /** The admitted requests with limit L in the half-open interval [from, from + length). */
  function AdmittedIn(limit: int, from: int, length: nat): Hit -> bool {
    (h: Hit) => h.limit == limit && Admits(h) && from <= h.time < from + length
  }

  function Ceil(x: nat, y: nat): nat
    requires y > 0
  {
    (x + y - 1) / y
  }

  lemma {:induction false} CountAgrees(hits: seq<Hit>, p: Hit -> bool, q: Hit -> bool)
    requires forall i :: 0 <= i < |hits| ==> p(hits[i]) == q(hits[i])
    ensures Count(hits, p) == Count(hits, q)
  {
    if hits != [] {
      CountAgrees(hits[..|hits| - 1], p, q);
    }
  }

  lemma {:induction false} CountNone(hits: seq<Hit>, p: Hit -> bool)
    requires forall i :: 0 <= i < |hits| ==> !p(hits[i])
    ensures Count(hits, p) == 0
  {
    if hits != [] {
      CountNone(hits[..|hits| - 1], p);
    }
  }

  function InLife(p: Hit -> bool, life: int): Hit -> bool { (h: Hit) => p(h) && h.life == life }

  function InLivesFrom(p: Hit -> bool, lo: int, n: nat): Hit -> bool { (h: Hit) => p(h) && lo <= h.life < lo + n }

  lemma {:induction false} CountSplit(hits: seq<Hit>, p: Hit -> bool, lo: int, n: nat)
    ensures Count(hits, InLivesFrom(p, lo, n + 1))
         == Count(hits, InLivesFrom(p, lo, n)) + Count(hits, InLife(p, lo + n))
  {
    if hits != [] {
      CountSplit(hits[..|hits| - 1], p, lo, n);
    }
  }

  /** One life of the counter admits at most L requests of a route with limit L: they got different counts
      up to L. Those above a base are at most L - base. */
  lemma {:induction false} LifeBound(hits: seq<Hit>, p: Hit -> bool, limit: int, life: int, base: int, top: int)
    requires CountsUp(hits) && base <= top && base <= limit
    requires forall i :: 0 <= i < |hits| && hits[i].life == life ==> hits[i].count <= top
    requires forall i :: 0 <= i < |hits| && hits[i].life == life && p(hits[i]) ==> base < hits[i].count <= limit
    ensures Count(hits, InLife(p, life)) <= top - base
    ensures Count(hits, InLife(p, life)) <= limit - base
  {
    if hits != [] {
      var n := |hits| - 1;
      var h := hits[n];
      if h.life == life && p(h) {
        LifeBound(hits[..n], p, limit, life, base, h.count - 1);
      } else {
        LifeBound(hits[..n], p, limit, life, base, top);
      }
    }
  }

  /** Lives lo, .., lo + n - 1 together admit at most n * L. */
  lemma {:induction false} LivesBound(l: Limiter, p: Hit -> bool, limit: int, lo: int, n: nat)
    requires InLives(l) && CountsUp(l.hits) && limit >= 0
    requires forall i :: 0 <= i < |l.hits| && p(l.hits[i]) ==> l.hits[i].count <= limit
    ensures Count(l.hits, InLivesFrom(p, lo, n)) <= n * limit
  {
    if n == 0 {
      CountNone(l.hits, InLivesFrom(p, lo, 0));
    } else {
      LifeBound(l.hits, p, limit, lo + n - 1, 0, HighestCount(l.hits));
      LivesBound(l, p, limit, lo, n - 1);
      CountSplit(l.hits, p, lo, n - 1);
      assert n * limit == (n - 1) * limit + limit;
    }
  }

  lemma {:induction false} CountFirst(hits: seq<Hit>, p: Hit -> bool, lo: int, n: nat)
    ensures Count(hits, InLivesFrom(p, lo, n + 1))
         == Count(hits, InLife(p, lo)) + Count(hits, InLivesFrom(p, lo + 1, n))
  {
    if hits != [] {
      CountFirst(hits[..|hits| - 1], p, lo, n);
    }
  }

  function HighestCount(hits: seq<Hit>): (top: nat)
    ensures forall i :: 0 <= i < |hits| ==> hits[i].count <= top
  {
    if hits == [] then 0
    else
      var rest := HighestCount(hits[..|hits| - 1]);
      if rest < hits[|hits| - 1].count then hits[|hits| - 1].count else rest
  }

  /** How many lives of the counter the requests of an interval can meet: Ceil(T / W) if the first of them
      began inside the interval, one more if it began before. */
  lemma LivesMet(l: Limiter, window: nat, i: nat, j: nat, from: int, length: nat)
    requires window > 0 && Paced(l, window) && Ordered(l)
    requires i < |l.hits| && j < |l.hits| && l.hits[i].life <= l.hits[j].life
    requires from <= l.hits[i].time && l.hits[j].time < from + length
    ensures l.hits[j].life - l.hits[i].life <= Ceil(length, window)
    ensures l.starts[l.hits[i].life] >= from ==> l.hits[j].life - l.hits[i].life < Ceil(length, window)
  {
    var a, b := l.hits[i].life, l.hits[j].life;
    if l.starts[a] >= from {
      StartsApart(l.starts, a, b, window);
      CeilAbove(b - a + 1, length, window);
    } else if a < b {
      StartsApart(l.starts, a + 1, b, window);
      CeilAbove(b - a, length, window);
    }
  }

  lemma CeilAbove(n: nat, x: nat, y: nat)
    requires y > 0 && n > 0 && (n - 1) * y < x
    ensures n <= Ceil(x, y)
  {
    var q := Ceil(x, y);
    assert q * y + (x + y - 1) % y == x + y - 1;
    assert x <= q * y;
    if n > q {
      Monotone(q, n - 1, y);
    }
  }

  lemma Monotone(a: nat, b: nat, y: nat)
    requires a <= b
    ensures a * y <= b * y
  {
  }

  /** All admitted requests of the interval fall into the lives met by the first of them. */
  lemma InTheseLives(l: Limiter, window: nat, limit: nat, from: int, length: nat, first: nat, n: nat)
    requires window > 0 && Paced(l, window) && Ordered(l)
    requires IndexOf(l.hits, AdmittedIn(limit, from, length)) == Some(first)
    requires n == Ceil(length, window) + if l.starts[l.hits[first].life] >= from then 0 else 1
    ensures var p := AdmittedIn(limit, from, length);
      Count(l.hits, p) == Count(l.hits, InLivesFrom(p, l.hits[first].life, n))
  {
    var p := AdmittedIn(limit, from, length);
    var lo := l.hits[first].life;
    forall i | 0 <= i < |l.hits|
      ensures p(l.hits[i]) == InLivesFrom(p, lo, n)(l.hits[i])
    {
      if p(l.hits[i]) {
        assert first <= i;
        LivesMet(l, window, first, i, from, length);
      }
    }
    CountAgrees(l.hits, p, InLivesFrom(p, lo, n));
  }

  /** Some request is admitted in the interval, and the life of the first one began inside it. */
  predicate Aligned(l: Limiter, limit: int, from: int, length: nat) {
    var first := IndexOf(l.hits, AdmittedIn(limit, from, length));
    && first.Some? && 0 <= l.hits[first.value].life < |l.starts|
    && l.starts[l.hits[first.value].life] >= from
  }

  /** Nothing beyond L per window, unless the interval cuts into a life that began before it; then the first
      request of that life lies outside, and at most L - 1 more get in. */
  lemma IntervalBound(l: Limiter, window: nat, limit: nat, from: int, length: nat)
    requires window > 0 && limit > 0 && Paced(l, window) && Ordered(l)
    ensures Aligned(l, limit, from, length) ==>
      Count(l.hits, AdmittedIn(limit, from, length)) <= limit * Ceil(length, window)
    ensures Count(l.hits, AdmittedIn(limit, from, length)) <= limit * (Ceil(length, window) + 1) - 1
  {
    var p := AdmittedIn(limit, from, length);
    var first := IndexOf(l.hits, p);
    var c := Ceil(length, window);
    assert limit * (c + 1) == c * limit + limit;
    assert limit * c == c * limit;
    if first.None? {
      CountNone(l.hits, p);
      Monotone(0, c, limit);
    } else {
      var lo := l.hits[first.value].life;
      if l.starts[lo] >= from {
        InTheseLives(l, window, limit, from, length, first.value, c);
        LivesBound(l, p, limit, lo, c);
      } else {
        InTheseLives(l, window, limit, from, length, first.value, c + 1);
        CountFirst(l.hits, p, lo, c);
        LifeBound(l.hits, p, limit, lo, 1, HighestCount(l.hits) + 1);
        LivesBound(l, p, limit, lo + 1, c);
      }
    }
  }

  /** Sliding bound: on every run, any half-open interval of length T admits fewer than
      L * (Ceil(T / W) + 1) requests of the routes with limit L > 0. */
  lemma SlidingBound(trace: seq<Step>, window: nat, limit: nat, from: int, length: nat)
    requires window > 0 && limit > 0
    ensures Count(LimiterRun(trace, window).hits, AdmittedIn(limit, from, length)) < limit * (Ceil(length, window) + 1)
  {
    RunOrdered(trace, window);
    IntervalBound(LimiterRun(trace, window), window, limit, from, length);
  }

  /** The announced limit holds of intervals that begin no later than the life of their first admitted request:
      at most L * Ceil(T / W), hence L per window. */
  lemma AlignedBound(trace: seq<Step>, window: nat, limit: nat, from: int, length: nat)
    requires window > 0 && limit > 0
    requires Aligned(LimiterRun(trace, window), limit, from, length)
    ensures Count(LimiterRun(trace, window).hits, AdmittedIn(limit, from, length)) <= limit * Ceil(length, window)
  {
    RunOrdered(trace, window);
    IntervalBound(LimiterRun(trace, window), window, limit, from, length);
  }

  /** Fewer than twice the limit in any window length. */
  lemma TwicePerWindow(trace: seq<Step>, window: nat, limit: nat, from: int)
    requires window > 0 && limit > 0
    ensures Count(LimiterRun(trace, window).hits, AdmittedIn(limit, from, window)) <= 2 * limit - 1
  {
    SlidingBound(trace, window, limit, from, window);
    assert Ceil(window, window) == 1;
  }

  lemma RunSnoc(trace: seq<Step>, s: Step, window: nat)
    ensures LimiterRun(trace + [s], window) == LimiterNext(LimiterRun(trace, window), s, window)
  {
    assert (trace + [s])[..|trace|] == trace;
  }

  lemma CountSnoc(hits: seq<Hit>, h: Hit, p: Hit -> bool)
    ensures Count(hits + [h], p) == Count(hits, p) + if p(h) then 1 else 0
  {
    assert (hits + [h])[..|hits|] == hits;
  }

  // ---- The bound is reached

  function Repeat(n: nat, limit: int): seq<Step> { if n == 0 then [] else Repeat(n - 1, limit) + [Incr(limit)] }

  /** The counter stands at this count, its expiry is set, and so many hits counted so far. */
  predicate Stands(l: Limiter, now: int, count: nat, deadline: int, p: Hit -> bool, counted: int) {
    l.now == now && l.count == count > 0 && l.deadline == Some(deadline) && !l.unset && Count(l.hits, p) == counted
  }

  /** n more requests up to the limit, all counted by p. */
  lemma {:induction false} Burst(trace: seq<Step>, n: nat, limit: int, window: nat, now: int, count: nat, deadline: int,
                                 p: Hit -> bool, counted: int)
    requires Stands(LimiterRun(trace, window), now, count, deadline, p, counted) && count + n <= limit
    requires forall h: Hit :: h.time == now && h.limit == limit && h.count <= limit ==> p(h)
    ensures Stands(LimiterRun(trace + Repeat(n, limit), window), now, count + n, deadline, p, counted + n)
  {
    if n == 0 {
      assert trace + Repeat(0, limit) == trace;
    } else {
      Burst(trace, n - 1, limit, window, now, count, deadline, p, counted);
      var before := trace + Repeat(n - 1, limit);
      assert trace + Repeat(n, limit) == before + [Incr(limit)];
      RunSnoc(before, Incr(limit), window);
      OneMore(LimiterRun(before, window), limit, window, now, count + n - 1, deadline, p, counted + n - 1);
    }
  }

  lemma OneMore(l: Limiter, limit: int, window: nat, now: int, count: nat, deadline: int, p: Hit -> bool, counted: int)
    requires Stands(l, now, count, deadline, p, counted) && count + 1 <= limit
    requires forall h: Hit :: h.time == now && h.limit == limit && h.count <= limit ==> p(h)
    ensures Stands(LimiterNext(l, Incr(limit), window), now, count + 1, deadline, p, counted + 1)
  {
    CountSnoc(l.hits, Hit(now, limit, |l.starts| - 1, count + 1), p);
  }

  /** A new life begins: one request, its expiry. */
  lemma Opens(trace: seq<Step>, limit: int, window: nat, p: Hit -> bool)
    requires LimiterRun(trace, window).count == 0 && limit >= 1
    ensures var l := LimiterRun(trace, window); var h := Hit(l.now, limit, |l.starts|, 1);
      Stands(LimiterRun(trace + [Incr(limit)] + [Expire], window), l.now, 1, l.now + window, p,
             Count(l.hits, p) + if p(h) then 1 else 0)
  {
    var l := LimiterRun(trace, window);
    RunSnoc(trace, Incr(limit), window);
    RunSnoc(trace + [Incr(limit)], Expire, window);
    CountSnoc(l.hits, Hit(l.now, limit, |l.starts|, 1), p);
  }

  /** The first life: one request at 0, the others one tick before the window ends. */
  lemma FirstLife(limit: nat, window: nat, p: Hit -> bool) returns (trace: seq<Step>)
    requires limit >= 1 && window >= 2
    requires forall h: Hit :: h.time == window - 1 && h.limit == limit && h.count <= limit ==> p(h)
    requires forall h: Hit :: h.time == 0 ==> !p(h)
    ensures Stands(LimiterRun(trace, window), window - 1, limit, window, p, limit - 1)
  {
    Opens([], limit, window, p);
    var begun := [] + [Incr(limit)] + [Expire];
    RunSnoc(begun, Wait(window - 1), window);
    Burst(begun + [Wait(window - 1)], limit - 1, limit, window, window - 1, 1, window, p, 0);
    trace := begun + [Wait(window - 1)] + Repeat(limit - 1, limit);
  }

  /** Every further life: all requests at once, when the last one ended. */
  lemma FurtherLife(trace: seq<Step>, limit: nat, window: nat, now: int, d: int, p: Hit -> bool, counted: int)
    returns (more: seq<Step>)
    requires limit >= 1 && now < d && Stands(LimiterRun(trace, window), now, limit, d, p, counted)
    requires forall h: Hit :: h.time == d && h.limit == limit && h.count <= limit ==> p(h)
    ensures Stands(LimiterRun(more, window), d, limit, d + window, p, counted + limit)
  {
    var waited := trace + [Wait(d - now)];
    RunSnoc(trace, Wait(d - now), window);
    Opens(waited, limit, window, p);
    var begun := waited + [Incr(limit)] + [Expire];
    Burst(begun, limit - 1, limit, window, d, 1, d + window, p, counted + 1);
    more := begun + Repeat(limit - 1, limit);
  }

  /** n times x, by addition. */
  function Times(n: nat, x: nat): nat { if n == 0 then 0 else Times(n - 1, x) + x }

  lemma {:induction false} TimesIs(n: nat, x: nat)
    ensures Times(n, x) == n * x
  {
    if n > 0 {
      TimesIs(n - 1, x);
      assert n * x == (n - 1) * x + x;
    }
  }

  /** The first life and n more, all inside the interval. */
  lemma {:induction false} FullLives(limit: nat, window: nat, length: nat, n: nat) returns (trace: seq<Step>)
    requires limit >= 1 && window >= 2 && length >= 1 && Times(n, window) < window - 1 + length
    ensures Stands(LimiterRun(trace, window), if n == 0 then window - 1 else Times(n, window), limit,
                   Times(n, window) + window, AdmittedIn(limit, window - 1, length), limit - 1 + Times(n, limit))
  {
    var p := AdmittedIn(limit, window - 1, length);
    if n == 0 {
      trace := FirstLife(limit, window, p);
    } else {
      var before := FullLives(limit, window, length, n - 1);
      var now := if n == 1 then window - 1 else Times(n - 1, window);
      trace := FurtherLife(before, limit, window, now, Times(n, window), p, limit - 1 + Times(n - 1, limit));
    }
  }

  lemma CeilOfMultiple(c: nat, w: nat)
    requires w > 0
    ensures Ceil(c * w, w) == c
  {
    var q := Ceil(c * w, w);
    assert q * w + (c * w + w - 1) % w == c * w + w - 1;
    assert (q + 1) * w == q * w + w && (c + 1) * w == c * w + w;
    if q < c { Monotone(q + 1, c, w); }
    if q > c { Monotone(c + 1, q, w); }
  }

  /** The bound cannot be improved, for any limit, any window of at least two ticks and any number c of windows:
      some run admits L * (c + 1) - 1 requests in c windows. */
  lemma BoundIsReached(limit: nat, window: nat, c: nat)
    requires limit >= 1 && window >= 2 && c >= 1
    ensures Ceil(c * window, window) == c
    ensures exists trace ::
      Count(LimiterRun(trace, window).hits, AdmittedIn(limit, window - 1, c * window)) == limit * (c + 1) - 1
  {
    CeilOfMultiple(c, window);
    TimesIs(c, window);
    TimesIs(c, limit);
    Monotone(1, c, window);
    var trace := FullLives(limit, window, Times(c, window), c);
    assert limit * (c + 1) == c * limit + limit;
    assert Count(LimiterRun(trace, window).hits, AdmittedIn(limit, window - 1, c * window)) == limit * (c + 1) - 1;
  }

  // ---- The service

  lemma IncrExpire(l: Limiter, limit: int, window: nat)
    requires Paced(l, window) && Ordered(l)
    ensures var l' := LimiterNext(LimiterNext(l, Incr(limit), window), Expire, window);
      Paced(l', window) && Ordered(l')
  {
    var l1 := LimiterNext(l, Incr(limit), window);
    NextPaced(l, Incr(limit), window);
    NextOrdered(l, Incr(limit), window);
    NextPaced(l1, Expire, window);
    NextOrdered(l1, Expire, window);
  }

  /** IsRateLimited and the handler around it, for the key of one user. */
  class RateLimiter {
    var counter: Limiter
    const window: nat

    constructor (window: nat)
      ensures this.window == window && counter == FRESH
    {
      this.window := window;
      counter := FRESH;
    }

    /** INCR; the first increment also sets the expiry. */
    method IsRateLimited(limit: int) returns (limited: bool)
      requires Paced(counter, window) && Ordered(counter) && !counter.unset
      modifies this`counter
      ensures counter == LimiterNext(LimiterNext(old(counter), Incr(limit), window), Expire, window)
      ensures limited <==> old(counter).count + 1 > limit
      ensures |counter.hits| == |old(counter).hits| + 1
        && (limited <==> !Admits(counter.hits[|counter.hits| - 1]))
      ensures Paced(counter, window) && Ordered(counter) && !counter.unset
    {
      IncrExpire(counter, limit, window);
      var first := counter.count == 0;
      var starts := if first then counter.starts + [counter.now] else counter.starts;
      var count := counter.count + 1;
      counter := counter.(count := count, unset := first || counter.unset, starts := starts,
                          hits := counter.hits + [Hit(counter.now, limit, |starts| - 1, count)]);
      if count == 1 {
        counter := counter.(deadline := Some(counter.now + window), unset := false);
      }
      limited := count > limit;
    }

    /** RateLimitHandler: requests without a user id, and requests that find Redis failing, are let through
        uncounted. */
    method RateLimitHandler(hasUser: bool, reachable: bool, limit: int) returns (served: bool)
      requires Paced(counter, window) && Ordered(counter) && !counter.unset
      modifies this`counter
      ensures !(hasUser && reachable) ==> served && counter == old(counter)
      ensures hasUser && reachable ==> |counter.hits| == |old(counter).hits| + 1
      ensures hasUser && reachable ==> (served <==> Admits(counter.hits[|counter.hits| - 1]))
      ensures Paced(counter, window) && Ordered(counter) && !counter.unset
    {
      if !hasUser || !reachable {
        return true;
      }
      var limited := IsRateLimited(limit);
      return !limited;
    }
  }
}
