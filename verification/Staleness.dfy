/** The wallet cache under full interleaving: readers that look up, fetch and fill in separate steps, any
    writers and invalidations in between. How old can an answer be? One user's key. */
module Staleness {
  import opened Prelude
  import opened Service

  const TTL := 5 * 60

  /** A wallet of the database and the moment it became the true one. */
  datatype Truth = Truth(since: int, view: View)

  /** A cached wallet; fetched is when it was read from the database. seen and stored count the wallets written
      up to its fetch and up to its fill. */
  datatype Cached = Cached(view: View, fetched: int, expires: int, seen: nat, stored: nat)

  datatype Reader = Missed(lookup: int) | Fetched(lookup: int, view: View, fetched: int, seen: nat)

  /** What a read returned: looked up when, answered when, and when the view was read from the database. */
  datatype Delivery = Delivery(view: View, lookup: int, answered: int, fetched: int)

  datatype World = World(
    now: int,
    history: seq<Truth>,
    cache: Option<Cached>,
    readers: map<nat, Reader>,
    replies: seq<Delivery>)

  /** Write is the commit of any writer, refunds included; Invalidate is any Delete of the key. A Fill whose
      Set fails still answers, and a Lookup that cannot read Redis goes on to fetch. */
  datatype CacheEvent =
    | Wait(dt: nat)
    | Write(view: View)
    | Invalidate
    | Lookup(id: nat, readable: bool)
    | Fetch(id: nat)
    | Fill(id: nat, stored: bool)

  function Current(w: World): Option<Truth> { if w.history == [] then None else Some(w.history[|w.history| - 1]) }

  function WorldNext(w: World, e: CacheEvent): World {
    match e
    case Wait(dt) => w.(now := w.now + dt)
    case Write(v) => w.(history := w.history + [Truth(w.now, v)])
    case Invalidate => w.(cache := None)
    case Lookup(id, readable) =>
      if id in w.readers then w
      else if readable && w.cache.Some? && w.now < w.cache.value.expires
      then w.(replies := w.replies + [Delivery(w.cache.value.view, w.now, w.now, w.cache.value.fetched)])
      else w.(readers := w.readers[id := Missed(w.now)])
    case Fetch(id) =>
      if id in w.readers && w.readers[id].Missed? && Current(w).Some?
      then w.(readers := w.readers[id := Fetched(w.readers[id].lookup, Current(w).value.view, w.now, |w.history|)])
      else w
    case Fill(id, stored) =>
      if id in w.readers && w.readers[id].Fetched? then
        var r := w.readers[id];
        w.(readers := w.readers - {id},
           replies := w.replies + [Delivery(r.view, r.lookup, w.now, r.fetched)],
           cache := if stored then Some(Cached(r.view, r.fetched, w.now + TTL, r.seen, |w.history|)) else w.cache)
      else w
  }

  const START := World(0, [], None, map[], [])

  function WorldRun(trace: seq<CacheEvent>): World {
    if trace == [] then START else WorldNext(WorldRun(trace[..|trace| - 1]), trace[|trace| - 1])
  }

  /** The view was the wallet of the database at that moment. */
  ghost predicate WasTrue(history: seq<Truth>, view: View, moment: int) {
    exists i :: 0 <= i < |history| && history[i].view == view && history[i].since <= moment
      && (i + 1 < |history| ==> moment <= history[i + 1].since)
  }

  /** At this event, a fill comes at most D after its fetch. */
  predicate Prompt(w: World, e: CacheEvent, d: nat) {
    e.Fill? && e.id in w.readers && w.readers[e.id].Fetched? ==> w.now <= w.readers[e.id].fetched + d
  }

  ghost predicate AllPrompt(trace: seq<CacheEvent>, d: nat) {
    forall k :: 0 <= k < |trace| ==> Prompt(WorldRun(trace[..k]), trace[k], d)
  }

  lemma AllPromptPrefix(trace: seq<CacheEvent>, d: nat)
    requires AllPrompt(trace, d) && trace != []
    ensures AllPrompt(trace[..|trace| - 1], d) && Prompt(WorldRun(trace[..|trace| - 1]), trace[|trace| - 1], d)
  {
    var before := trace[..|trace| - 1];
    forall k | 0 <= k < |before|
      ensures Prompt(WorldRun(before[..k]), before[k], d)
    {
      assert before[..k] == trace[..k];
    }
  }

  ghost predicate ReplyOk(w: World, r: Delivery, d: nat) {
    && WasTrue(w.history, r.view, r.fetched)
    && r.lookup - (TTL + d) < r.fetched <= r.answered <= w.now
  }

  ghost predicate ReaderOk(w: World, r: Reader) {
    && r.lookup <= w.now
    && (r.Fetched? ==> WasTrue(w.history, r.view, r.fetched) && r.lookup <= r.fetched <= w.now)
  }

  ghost predicate CachedOk(w: World, c: Cached, d: nat) {
    WasTrue(w.history, c.view, c.fetched) && c.fetched <= w.now && c.expires <= c.fetched + d + TTL
  }

  ghost predicate Timely(w: World, d: nat) {
    && (forall i :: 0 <= i < |w.history| ==> w.history[i].since <= w.now)
    && (w.cache.Some? ==> CachedOk(w, w.cache.value, d))
    && (forall id :: id in w.readers ==> ReaderOk(w, w.readers[id]))
    && (forall i :: 0 <= i < |w.replies| ==> ReplyOk(w, w.replies[i], d))
  }

  /** What was true at a past moment stays so when the wallet is written later. */
  lemma WasTrueKept(history: seq<Truth>, view: View, moment: int, next: Truth)
    requires WasTrue(history, view, moment) && moment <= next.since
    ensures WasTrue(history + [next], view, moment)
  {
    var i :| 0 <= i < |history| && history[i].view == view && history[i].since <= moment
      && (i + 1 < |history| ==> moment <= history[i + 1].since);
    var longer := history + [next];
    assert longer[i] == history[i] && longer[i + 1] == if i + 1 < |history| then history[i + 1] else next;
  }

  lemma TrueNow(w: World)
    requires Current(w).Some? && Current(w).value.since <= w.now
    ensures WasTrue(w.history, Current(w).value.view, w.now)
  {
    assert w.history[|w.history| - 1].view == Current(w).value.view;
  }

  lemma WriteFresh(w: World, v: View, d: nat)
    requires Timely(w, d)
    ensures Timely(WorldNext(w, Write(v)), d)
  {
    var w' := WorldNext(w, Write(v));
    var t := Truth(w.now, v);
    if w.cache.Some? { WasTrueKept(w.history, w.cache.value.view, w.cache.value.fetched, t); }
    forall id | id in w'.readers
      ensures ReaderOk(w', w'.readers[id])
    {
      if w.readers[id].Fetched? { WasTrueKept(w.history, w.readers[id].view, w.readers[id].fetched, t); }
    }
    forall i | 0 <= i < |w'.replies|
      ensures ReplyOk(w', w'.replies[i], d)
    {
      WasTrueKept(w.history, w.replies[i].view, w.replies[i].fetched, t);
    }
  }

  lemma OtherFresh(w: World, e: CacheEvent, d: nat)
    requires Timely(w, d) && Prompt(w, e, d) && !e.Write?
    ensures Timely(WorldNext(w, e), d)
  {
    if e.Fetch? && Current(w).Some? { TrueNow(w); }
    var w' := WorldNext(w, e);
    forall i | 0 <= i < |w'.replies|
      ensures ReplyOk(w', w'.replies[i], d)
    {
      if i < |w.replies| {
        assert ReplyOk(w, w.replies[i], d) && w'.replies[i] == w.replies[i];
      }
    }
  }

  lemma {:induction false} RunFresh(trace: seq<CacheEvent>, d: nat)
    requires AllPrompt(trace, d)
    ensures Timely(WorldRun(trace), d)
  {
    if trace != [] {
      AllPromptPrefix(trace, d);
      var before := trace[..|trace| - 1];
      RunFresh(before, d);
      if trace[|trace| - 1].Write? {
        WriteFresh(WorldRun(before), trace[|trace| - 1].view, d);
      } else {
        OtherFresh(WorldRun(before), trace[|trace| - 1], d);
      }
    }
  }

  /** Every wallet a read returns was the true wallet at some moment no later than the answer and less than
      five minutes plus D before the cache lookup. */
  lemma BoundedStaleness(trace: seq<CacheEvent>, d: nat, k: nat)
    requires AllPrompt(trace, d) && k < |WorldRun(trace).replies|
    ensures var r := WorldRun(trace).replies[k];
      exists moment :: WasTrue(WorldRun(trace).history, r.view, moment)
        && r.lookup - (300 + d) < moment <= r.answered
  {
    RunFresh(trace, d);
    var r := WorldRun(trace).replies[k];
    assert ReplyOk(WorldRun(trace), r, d);
  }

  /** A lookup that reaches Redis before the entry expires is answered from it, at once; any other goes to the
      database, and its answer is what it fetched there. */
  lemma LookupAnswers(w: World, id: nat, readable: bool)
    requires id !in w.readers
    ensures var w' := WorldNext(w, Lookup(id, readable));
      if readable && w.cache.Some? && w.now < w.cache.value.expires then
        w' == w.(replies := w.replies + [Delivery(w.cache.value.view, w.now, w.now, w.cache.value.fetched)])
      else w' == w.(readers := w.readers[id := Missed(w.now)])
    ensures var w1 := WorldNext(w, Lookup(id, readable)); Current(w).Some? && id in w1.readers ==>
      var w2 := WorldNext(WorldNext(w1, Fetch(id)), Fill(id, true));
      && w2.replies == w.replies + [Delivery(Current(w).value.view, w.now, w.now, w.now)]
      && w2.cache.Some? && w2.cache.value.view == Current(w).value.view && w2.cache.value.expires == w.now + 300
  {
  }

  // ---- When the cached wallet is the true one

  /** Nothing is cached, or the wallet of the database. */
  predicate Agrees(w: World) {
    w.cache.Some? ==> Current(w).Some? && w.cache.value.view == Current(w).value.view
  }

  /** A Fill that stores what its reader fetched. */
  predicate Stores(w: World, e: CacheEvent) {
    e.Fill? && e.stored && e.id in w.readers && w.readers[e.id].Fetched?
  }

  predicate IsCurrent(w: World, view: View) { Current(w).Some? && Current(w).value.view == view }

  /** A write that changes a cached wallet, or the fill of a wallet the database has left. */
  predicate Spoils(w: World, e: CacheEvent) {
    || (e.Write? && w.cache.Some? && w.cache.value.view != e.view)
    || (Stores(w, e) && !IsCurrent(w, w.readers[e.id].view))
  }

  /** An invalidation, the fill of the true wallet, or a write back to the cached one. */
  predicate Mends(w: World, e: CacheEvent) {
    || e.Invalidate?
    || (Stores(w, e) && IsCurrent(w, w.readers[e.id].view))
    || (e.Write? && w.cache.Some? && w.cache.value.view == e.view)
  }

  /** Step by step: agreement is lost by these events alone and regained by those alone. */
  lemma AgreesNext(w: World, e: CacheEvent)
    ensures Agrees(WorldNext(w, e)) <==> Mends(w, e) || (Agrees(w) && !Spoils(w, e))
  {
  }

  /** A run agrees at every moment if and only if none of its events spoils. */
  lemma AgreesThroughout(trace: seq<CacheEvent>)
    ensures (forall k :: 0 <= k <= |trace| ==> Agrees(WorldRun(trace[..k])))
      <==> (forall k :: 0 <= k < |trace| ==> !Spoils(WorldRun(trace[..k]), trace[k]))
  {
    if forall k :: 0 <= k <= |trace| ==> Agrees(WorldRun(trace[..k])) {
      forall k | 0 <= k < |trace|
        ensures !Spoils(WorldRun(trace[..k]), trace[k])
      {
        if Spoils(WorldRun(trace[..k]), trace[k]) { SpoiledDisagrees(trace, k); }
      }
    } else if forall k :: 0 <= k < |trace| ==> !Spoils(WorldRun(trace[..k]), trace[k]) {
      forall k | 0 <= k <= |trace|
        ensures Agrees(WorldRun(trace[..k]))
      {
        UnspoiledAgrees(trace, k);
      }
    }
  }

  lemma SpoiledDisagrees(trace: seq<CacheEvent>, k: nat)
    requires k < |trace| && Spoils(WorldRun(trace[..k]), trace[k])
    ensures !Agrees(WorldRun(trace[..k + 1]))
  {
    assert trace[..k + 1][..k] == trace[..k];
    AgreesNext(WorldRun(trace[..k]), trace[k]);
  }

  lemma {:induction false} UnspoiledAgrees(trace: seq<CacheEvent>, k: nat)
    requires k <= |trace| && forall j :: 0 <= j < |trace| ==> !Spoils(WorldRun(trace[..j]), trace[j])
    ensures Agrees(WorldRun(trace[..k]))
  {
    if k > 0 {
      UnspoiledAgrees(trace, k - 1);
      assert trace[..k][..k - 1] == trace[..k - 1];
      AgreesNext(WorldRun(trace[..k - 1]), trace[k - 1]);
    }
  }

  /** A write that no invalidation followed yet: a writer between its commit and its Delete, a refund, or a
      webhook charge, which invalidates before it credits. */
  predicate IsOpen(trace: seq<CacheEvent>) {
    trace != [] && (trace[|trace| - 1].Write? || (!trace[|trace| - 1].Invalidate? && IsOpen(trace[..|trace| - 1])))
  }

  /** Every fetched or cached wallet is the one written seen-th. */
  ghost predicate SeenOk(w: World) {
    && (w.cache.Some? ==>
          && 1 <= w.cache.value.seen <= w.cache.value.stored <= |w.history|
          && w.cache.value.view == w.history[w.cache.value.seen - 1].view)
    && forall id :: id in w.readers && w.readers[id].Fetched? ==>
         1 <= w.readers[id].seen <= |w.history| && w.readers[id].view == w.history[w.readers[id].seen - 1].view
  }

  lemma {:induction false} RunSeen(trace: seq<CacheEvent>)
    ensures SeenOk(WorldRun(trace))
    ensures var w := WorldRun(trace); !IsOpen(trace) && w.cache.Some? ==> w.cache.value.stored == |w.history|
  {
    if trace != [] {
      var w := WorldRun(trace[..|trace| - 1]);
      RunSeen(trace[..|trace| - 1]);
      SeenNext(w, trace[|trace| - 1]);
      StoredNext(w, trace[|trace| - 1], IsOpen(trace[..|trace| - 1]));
    }
  }

  lemma SeenNext(w: World, e: CacheEvent)
    requires SeenOk(w)
    ensures SeenOk(WorldNext(w, e))
  {
  }

  /** Without an open write, what is cached was stored after the last write. */
  lemma StoredNext(w: World, e: CacheEvent, open: bool)
    requires !open && w.cache.Some? ==> w.cache.value.stored == |w.history|
    ensures var w' := WorldNext(w, e);
      !e.Write? && (e.Invalidate? || !open) && w'.cache.Some? ==> w'.cache.value.stored == |w'.history|
  {
  }

  /** A write between its fetch and its fill changed the cached wallet. */
  predicate Overtaken(w: World)
    requires SeenOk(w)
  {
    && w.cache.Some?
    && w.history[w.cache.value.seen - 1].view != w.history[w.cache.value.stored - 1].view
  }

  /** In every run without an open write the cache agrees if and only if the cached wallet was not overtaken on
      its way into the cache. In particular it agrees when no write fell between fetch and fill. */
  lemma ClosedAgreesExactly(trace: seq<CacheEvent>)
    requires !IsOpen(trace)
    ensures var w := WorldRun(trace);
      && SeenOk(w)
      && (Agrees(w) <==> !Overtaken(w))
      && (w.cache.Some? && w.cache.value.seen == w.cache.value.stored ==> Agrees(w))
  {
    RunSeen(trace);
  }

  /** In an open run it agrees if and only if the writes since the fetch add up to no change. */
  lemma CachedAgreesExactly(trace: seq<CacheEvent>)
    requires WorldRun(trace).cache.Some?
    ensures var w := WorldRun(trace);
      && SeenOk(w)
      && (Agrees(w) <==> w.history[w.cache.value.seen - 1].view == w.history[|w.history| - 1].view)
  {
    RunSeen(trace);
  }

  /** An overtaken fill after any run: fetch, write, invalidate, fill. */
  lemma LateFillIsStale(w: World, id: nat, v: View)
    requires id in w.readers && w.readers[id].Missed? && Current(w).Some? && Current(w).value.view != v
    ensures var w' := WorldNext(WorldNext(WorldNext(WorldNext(w, Fetch(id)), Write(v)), Invalidate), Fill(id, true));
      w'.cache.Some? && w'.cache.value.view == Current(w).value.view && Current(w').value.view == v
  {
  }

  lemma Extended(trace: seq<CacheEvent>, e: CacheEvent)
    ensures WorldRun(trace + [e]) == WorldNext(WorldRun(trace), e)
    ensures IsOpen(trace + [e]) <==> e.Write? || (!e.Invalidate? && IsOpen(trace))
  {
    assert (trace + [e])[..|trace|] == trace;
  }

  /** Both ways to disagree are reachable: a closed run with an overtaken fill, and an open run. */
  lemma StaleIsReachable(before: View, v: View)
    requires before != v
    ensures exists trace :: !IsOpen(trace) && !Agrees(WorldRun(trace))
    ensures exists trace :: IsOpen(trace) && !Agrees(WorldRun(trace))
  {
    var missed := [] + [Write(before)] + [Lookup(0, true)];
    Extended([], Write(before));
    Extended([] + [Write(before)], Lookup(0, true));
    Extended(missed, Fetch(0));
    var fetched := missed + [Fetch(0)];
    Extended(fetched, Write(v));
    Extended(fetched + [Write(v)], Invalidate);
    Extended(fetched + [Write(v)] + [Invalidate], Fill(0, true));
    var late := fetched + [Write(v)] + [Invalidate] + [Fill(0, true)];
    assert !IsOpen(late) && !Agrees(WorldRun(late));
    Extended(fetched, Fill(0, true));
    Extended(fetched + [Fill(0, true)], Write(v));
    var uncovered := fetched + [Fill(0, true)] + [Write(v)];
    assert IsOpen(uncovered) && !Agrees(WorldRun(uncovered));
  }
}
