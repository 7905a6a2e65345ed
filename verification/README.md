# Locate allocation, modelled in Dafny

A model of the allocation core of a short-selling "locate" request tool.
Clients ask for locates per trading symbol; the requests are first
aggregated into per-symbol demand; an external approval step then grants
each symbol some total; and the allocator walks the requests in input order,
handing each client a slice of its symbol's grant while decrementing two
shared per-symbol running counters: remaining demand and remaining approval.

Modules:

- `Requests` (`requests.dfy`): the `ClientRequest` record and per-symbol quantity maps.
- `Aggregation` (`aggregation.dfy`): the aggregation fold, a reference
  definition of per-symbol demand (`SumFor`), and its order independence.
- `Rounding` (`rounding.dfy`): Python's `round` (half to even) on an exact
  integer quotient, characterised as the unique nearest-even integer.
- `Distribution` (`distribution.dfy`): the allocation step, the pass folded
  over the request sequence, the same pass as a loop over mutable counters,
  and the conservation theorem.
- `Independence` (`independence.dfy`): symbols do not influence each other.
- `Scenarios` (`scenarios.dfy`): the repository's unit-test scenarios and
  edge-case inputs, proved of the model.

How the model reads the code:

- The two dicts the pass mutates are the `Ledger(demand, approved)` value.
  Each step returns a new ledger. The pass is a left fold of `Step` over the requests.
- `approved_locates.get(symbol)` followed by a truthiness test is
  `HasApproval`: the entry exists and is not 0. A skipped client keeps the
  approval it already held and is not reset. The constructor sets it to 0.
- The pass raises on two inputs: a symbol with a truthy approval but no
  demand entry (a `KeyError`), and a demand entry of 0 (a `ZeroDivisionError`).
  Both are modelled as `Err` results. `Conservation` proves that neither
  happens when demand is the aggregate of strictly positive requests and no
  approval is negative.
- `client_requested / requested_locates[symbol] == 1` is modelled as
  `requested == demand[symbol]`.
- `round(total * share / 100)` is modelled as the half-to-even rounding of
  the exact rational `total * requested / (demand * 100)`.
- `total % 100` is the same in Python and Dafny because the divisor is positive.
- A remaining demand of 0 is not treated as "no approval": line 78 divides by
  it and raises `ZeroDivisionError`. The model returns `ZeroDemand`.
- A symbol missing from the approval map leaves the client's field untouched,
  because the assignment at line 90 is inside the `if` at line 76. The field
  is 0 only because the constructor set it.
- Full approval does not give every client its request (`AwardAboveRequest`),
  and the awards can exceed a symbol's approval (`ZeroRequestOverAwards`).
  The exact-sum guarantee of `Conservation` needs strictly positive requests.

## Model

| member | source | states |
|---|---|---|
| Requests.NewRequest | request_locates.py:5-10 | a new request carries the given name, symbol and quantity and has nothing approved |
| Aggregation.AddRequest | request_locates.py:40-44 | folding one request in adds its symbol to the keys, raises that symbol's total by exactly the request's quantity (starting from 0 for a new symbol), and leaves every other symbol's total unchanged |
| Aggregation.AggregateInto | request_locates.py:39-45 | continuing the aggregation loop from any totals gives keys = old keys plus the symbols of the remaining requests, each total = old total + that symbol's requested sum |
| Aggregation.Aggregate | request_locates.py:33-45 | the aggregate's keys are exactly the symbols that occur in the requests, and each value is the sum of the quantities requested for that symbol |
| Aggregation.AggregatePermutation | request_locates.py:39-45 | any reordering of the requests (same multiset) gives the same aggregate |
| Rounding.RoundHalfEven | request_locates.py:83 | the result is an integer nearest to n / d, and the even one when n / d lies exactly halfway between two integers |
| Rounding.NearestEvenUnique | request_locates.py:83 | at most one integer is a nearest-even rounding of n / d, so the characterisation fixes the rounding completely |
| Distribution.Award | request_locates.py:83-87 | the award is the whole remaining approval, the part of it under 100, or a multiple of 100 within 50 of the exact proportional share; it never exceeds the remaining approval except as the under-100 part; with positive approval and demand and a non-negative request it lies in [0, approval] |
| Distribution.AwardCharacterised | request_locates.py:83-87 | the award is the nearest-even rounding q of total * requested / (demand * 100), times 100 and capped at total, or total % 100 when that capped value is 0; q is fixed by the rounding specification alone, not by the implementation |
| Distribution.Step | request_locates.py:74-90 | fails exactly when the symbol has a truthy approval but no demand entry or a zero demand; no approval leaves client and counters unchanged; a request equal to the remaining demand takes all remaining approval and leaves the counters unchanged; otherwise the demand drops by the request and the approval by the award; other symbols' entries, the key sets and the client's name, symbol and quantity never change; the approval never goes negative |
| Distribution.Distribute | request_locates.py:73-90 | a successful pass returns one record per request, in input order, each the same request as its input apart from the approval |
| Distribution.DistributeLocates | request_locates.py:62-90 | the in-place loop over mutable counters computes exactly the folded pass, including where it fails |
| Distribution.ConservationFrom | request_locates.py:73-90 | from counters whose approvals are non-negative and whose demand for each approved symbol still to come equals the sum of its remaining requests, the pass does not fail, and each symbol's awards add up to its remaining approval |
| Distribution.Conservation | request_locates.py:73-90 | with strictly positive, not-yet-approved requests, demand equal to their aggregate and non-negative approvals, the pass never divides by zero or misses a key, and each requested symbol's awards add up to exactly its approved total (0 when absent) |
| Independence.IsolatedRun | request_locates.py:73-90 | from any two ledgers that agree on one symbol's entries, a successful full pass and a pass over only that symbol's requests give those requests the same awards |
| Independence.SymbolIndependence | request_locates.py:73-90 | when the pass succeeds, running only one symbol's requests on the same counters succeeds too and gives each of them the same award |
| Scenarios.AggregateTwoSymbols | request_locates_test.py:21-26 | ABC 100, QQQ 100, ABC 200 aggregate to ABC 300, QQQ 100 |
| Scenarios.FullApproval | request_locates_test.py:38-51 | approval equal to demand gives 300, 100, 200, 100 |
| Scenarios.PartialApproval | request_locates_test.py:54-67 | ABC 345 / QQQ 65 / TTT 100 approved gives 200, 65, 145, 100 |
| Scenarios.PartialApprovalSmallFirst | request_locates_test.py:69-78 | requests 100 then 200, approval 150, give 50 then 100 |
| Scenarios.PartialApprovalBigFirst | request_locates_test.py:80-89 | requests 200 then 100, approval 200, give 100 then 100 |
| Scenarios.NoApproval | request_locates_test.py:91-98 | a symbol absent from the approval map leaves its client at 0 |
| Scenarios.MultipleSymbols | request_locates_test.py:100-113 | ABC 100, ABC 200, QQQ 200 with approvals ABC 200, QQQ 150 give 100, 100, 150 |
| Scenarios.OrderSensitiveSmallFirst | request_locates.py:73-90 | requests 100 then 200 for one symbol with approval 250 are awarded 100 then 150 |
| Scenarios.OrderSensitiveBigFirst | request_locates.py:73-90 | the same requests in the other order, 200 then 100, are awarded 200 then 50, so the 100-request's award depends on its position |
| Scenarios.AwardAboveRequest | request_locates.py:79-87 | requests 40 and 60 under full approval 100 are awarded 0 and 100 |
| Scenarios.ZeroRequestOverAwards | request_locates.py:79-87 | a zero request after the one that took everything gets the under-100 part again: 50 and 50 out of an approval of 50 |

## Left out

- `read_request_from_csv` and `write_approved_request_to_csv` (request_locates.py:13-30): file and CSV I/O.
- `request_locates` (request_locates.py:48-59): a random approval generator. Its
  output is an input to the model: any approval map, with the conservation
  theorem assuming only non-negative entries. The approval generator's bound
  `approved <= demand` is never needed.
- The module-level script (request_locates.py:93-108): glue that reads, aggregates, approves, distributes and writes.
- Floating point. The model uses exact rational arithmetic for the share and the
  rounded amount. Python floats can differ from exact arithmetic only near an exact
  `.5` tie of the rounded quotient, or for quantities beyond 2^53.
  For the equality test at line 79, huge unequal quantities could compare equal as floats.
  The test at request_locates_test.py:69-78 does hit a tie: 150 * (100/300) / 100.
  The double computation of that quotient also lands exactly on 0.5, so Python and the model both round it to 0.
- Distribution.Distribute: requests are values; the same object listed twice
  in the source's list shares one approval field, so both positions end with
  the last award written to it, while the model gives each position its own
  record. The CSV reader builds a fresh object per row, so its lists never
  repeat an object.
- Distribution.Distribute: when the source raises part-way through the list,
  the earlier clients and counters are already mutated. The model reports
  only the error and drops that partial state.
