/**
 The client request record of the locate allocator and the per-symbol
 quantity maps it is aggregated into and distributed from.
 */
module Requests {

  /** One client's request for locates on one symbol. `approved` starts at 0
      and is the only field the allocation pass ever changes. */
  datatype ClientRequest = ClientRequest(
    clientName: string,
    symbol: string,
    requested: int,
    approved: int)

  /** A request as the constructor builds it: nothing approved yet. */
  function NewRequest(clientName: string, symbol: string, requested: int): (c: ClientRequest)
    ensures c.clientName == clientName && c.symbol == symbol && c.requested == requested
    ensures c.approved == 0
  {
    ClientRequest(clientName, symbol, requested, 0)
  }

  /** Two records describe the same request: everything but the approval agrees. */
  predicate SameRequest(a: ClientRequest, b: ClientRequest)
  {
    a.clientName == b.clientName && a.symbol == b.symbol && a.requested == b.requested
  }

  /** A per-symbol quantity map (demand or approval). */
  type QuantityMap = map<string, int>

  /** The value stored for `s`, or 0 when `s` has no entry. */
  function Lookup(m: QuantityMap, s: string): int
  {
    if s in m then m[s] else 0
  }
}
