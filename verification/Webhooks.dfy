/** The Paystack webhook bodies, as the handler and the worker read them. */
module Webhooks {
  import opened Prelude
  import opened Book

  /** What the worker decodes from a body. */
  datatype Content = Content(event: string, status: string, code: string, email: string, amount: real, currency: string)

  /** A body: the reference the handler finds ("" when there is none or the body does not decode for it),
      and what the worker decodes, if it decodes. */
  datatype Payload = Payload(reference: string, content: Option<Content>)

  /** ProcessPaystackEvent's dispatch: the repository call an event leads to, if any. */
  function OpOf(p: Payload): Option<Op> {
    if p.content.None? then None
    else
      var c := p.content.value;
      if c.event == "charge.success" && c.status == "success"
      then Some(CreditByEmail(c.email, c.currency, c.amount / 100.0, p.reference))
      else if c.event == "transfer.success" then Some(MarkSuccess(c.code))
      else if c.event == "transfer.failed" || c.event == "transfer.reversed" then Some(Refund(c.code))
      else None
  }

  /** A successful charge: the event and the status of the payment both say so. */
  predicate ReportsCharge(p: Payload) {
    p.content.Some? && p.content.value.event == "charge.success" && p.content.value.status == "success"
  }

  predicate ReportsTransfer(p: Payload) { p.content.Some? && p.content.value.event == "transfer.success" }

  predicate ReportsFailure(p: Payload) {
    p.content.Some? && (p.content.value.event == "transfer.failed" || p.content.value.event == "transfer.reversed")
  }

  /** Decoded, and of no concern to the worker. */
  predicate IsIgnored(p: Payload) {
    p.content.Some? && !ReportsCharge(p) && !ReportsTransfer(p) && !ReportsFailure(p)
  }

  /** Exactly three kinds of bodies lead to an operation: a charge that succeeded credits its payer with a hundredth
      of the reported minor units, a transfer that succeeded is confirmed, one that failed or was reversed is
      refunded. A charge that did not succeed leads to none. */
  lemma DispatchExactly(p: Payload, op: Op)
    ensures OpOf(p) == Some(op) <==>
      || (ReportsCharge(p) && op.CreditByEmail? && op.email == p.content.value.email
          && op.currency == p.content.value.currency && op.amount == p.content.value.amount / 100.0
          && op.reference == p.reference)
      || (ReportsTransfer(p) && op.MarkSuccess? && op.code == p.content.value.code)
      || (ReportsFailure(p) && op.Refund? && op.code == p.content.value.code)
    ensures OpOf(p).None? <==> p.content.None? || IsIgnored(p)
  {
  }
}
