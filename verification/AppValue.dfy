/** Swaps at fair rates and transfers neither make nor destroy value, over any run. */
module AppValue {
  import opened Tables
  import opened Book
  import opened Calls
  import opened Requests
  import opened Reconcile
  import opened App
  import opened AppCore
  import opened AppOps

  /** How the rate of a swap relates to the prices of the two currencies. */
  datatype Fairness = Exact | AtMost

  /** A request quoted at the price ratio (or below it). Within one currency no quote is used. */
  predicate FairRequest(r: KeyedRequest, p: string -> real, f: Fairness) {
    match r
    case FundRequest(_, _, _, _) => false
    case TransferRequest(_, _, _, _, _) => true
    case SwapRequest(_, from, to, x, quote, _) =>
      if f.Exact? then from == to || quote * p(to) == p(from)
      else x >= 0.0 && (from == to || quote * p(to) <= p(from))
  }

  /** The same said of the operation a request becomes. */
  predicate FairOp(op: Op, p: string -> real, f: Fairness) {
    match op
    case Transfer(_, _, _, _, _) => true
    case Swap(_, from, to, x, y, _) => if f.Exact? then p(to) * y == p(from) * x else p(to) * y <= p(from) * x
    case NewUser(_) => true
    case NewWallet(_, _) => true
    case NewAsset(_) => true
    case MarkSuccess(_) => true
    case _ => false
  }

  function Fair(p: string -> real, f: Fairness): OpProperty { (op: Op) => FairOp(op, p, f) }

  /** Only fair requests, and no other operation that creates or destroys money, come in. */
  predicate FairEvent(e: Event, p: string -> real, f: Fairness) {
    && (e.NewClient? ==> FairRequest(e.request, p, f))
    && (e.NewDirect? ==> FairOp(e.op, p, f))
    && (e.Deliver? ==> BodySatisfies(e.payload, Fair(p, f)))
  }

  lemma RequestIsFair(r: KeyedRequest, p: string -> real, f: Fairness)
    requires FairRequest(r, p, f)
    ensures FairOp(Requested(r), p, f)
  {
    if r.SwapRequest? {
      var x, a, b, q := r.amountIn, p(r.to), p(r.from), Rate(r.from, r.to, r.quote);
      assert a * (x * q) == x * (q * a);
      assert f.Exact? ==> q * a == b;
      if f.AtMost? {
        assert q * a <= b;
        Scale(x, q * a, b);
      }
    }
  }

  lemma Scale(x: real, a: real, b: real)
    requires x >= 0.0 && a <= b
    ensures x * a <= x * b
  {
  }

  /** What a fair batch does to the priced total. */
  lemma FairDelta(db: Db, call: Call, p: string -> real, f: Fairness)
    requires call.Ready? && CallOk(db, call) && FairOp(call.op, p, f)
    ensures var d := Delta(call.op, call.plan, Priced(p)); if f.Exact? then d == 0.0 else d <= 0.0
  {
  }

  lemma StepValue(s: State, e: Event, p: string -> real, f: Fairness)
    requires Core(s) && OpsSatisfy(s, Fair(p, f))
    ensures var v, v' := Worth(s.db.assets, Priced(p)), Worth(Next(s, e).db.assets, Priced(p));
      if f.Exact? then v' == v else v' <= v
  {
    NextShape(s, e);
    var c := Acting(s, e);
    if c.Some? && c.value.Ready? {
      ActingSatisfies(s, e, Fair(p, f));
      PricedAdditive(p);
      SubmitWorth(s.db, c.value, Priced(p));
      FairDelta(s.db, c.value, p, f);
    }
  }

  /** For any prices and any run from any reachable state in which only transfers and fairly quoted swaps
      are requested, the total value held stays what it was; with quotes at most fair it never grows. */
  lemma {:induction false} ValueKept(s: State, trace: seq<Event>, p: string -> real, f: Fairness)
    requires Core(s) && OpsSatisfy(s, Fair(p, f))
    requires forall k :: 0 <= k < |trace| ==> FairEvent(trace[k], p, f)
    ensures OpsSatisfy(RunFrom(s, trace), Fair(p, f))
    ensures var v, v' := Worth(s.db.assets, Priced(p)), Worth(RunFrom(s, trace).db.assets, Priced(p));
      if f.Exact? then v' == v else v' <= v
  {
    if trace != [] {
      var before := trace[..|trace| - 1];
      var e := trace[|trace| - 1];
      ValueKept(s, before, p, f);
      RunFromCore(s, before);
      if e.NewClient? { RequestIsFair(e.request, p, f); }
      NextOps(RunFrom(s, before), e, Fair(p, f));
      StepValue(RunFrom(s, before), e, p, f);
    }
  }
}
