/** The requests that carry an idempotency key, and the operation each asks for. */
module Requests {
  import opened Book

  datatype KeyedRequest =
    | FundRequest(user: nat, currency: string, amount: real, key: string)
    | SwapRequest(user: nat, from: string, to: string, amountIn: real, quote: real, key: string)
    | TransferRequest(user: nat, account: string, currency: string, amount: real, key: string)

  /** fetchExchangeRate: no quote is asked for within one currency. */
  function Rate(from: string, to: string, quote: real): real { if from == to then 1.0 else quote }

  function Requested(r: KeyedRequest): Op {
    match r
    case FundRequest(user, c, x, key) => Fund(user, c, x, key)
    case SwapRequest(user, from, to, x, quote, key) => Op.Swap(user, from, to, x, x * Rate(from, to, quote), key)
    case TransferRequest(user, account, c, x, key) => Op.Transfer(user, account, c, x, key)
  }
}
