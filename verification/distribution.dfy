/**
 The allocation pass: walks the requests in input order and gives each one a
 slice of its symbol's approved total, decrementing the shared per-symbol
 running counters of remaining demand and remaining approval as it goes.
 */
module Distribution {
  import opened Requests
  import opened Aggregation
  import opened Rounding

  /** The two per-symbol running counters the pass reads and decrements. */
  datatype Ledger = Ledger(demand: QuantityMap, approved: QuantityMap)

  /** The exceptions the pass can raise: a symbol with approval but no demand
      entry (a failed lookup), and a demand entry of 0 (a division by zero). */
  datatype Error = MissingDemand(symbol: string) | ZeroDemand(symbol: string)

  datatype Result<T> = Ok(value: T) | Err(error: Error)

  /** One processed request and the counters after it. */
  datatype Stepped = Stepped(client: ClientRequest, ledger: Ledger)

  /** All processed requests, in input order, and the final counters. */
  datatype Allocation = Allocation(clients: seq<ClientRequest>, ledger: Ledger)

  /** The approval lookup is truthy: the symbol has an entry and it is not 0. */
  predicate HasApproval(l: Ledger, s: string)
  {
    s in l.approved && l.approved[s] != 0
  }

  /** The award of a request that is not the whole remaining demand: the
      client's exact proportional share of `total` rounded half-to-even to a
      multiple of 100 and capped at `total`, or, when that comes to 0, the part
      of `total` under 100. */
  function Award(total: int, requested: int, demand: int): (a: int)
    requires demand != 0
    ensures a == total || a == total % 100
            || (a % 100 == 0 && 2 * Abs(a * demand - total * requested) <= 100 * Abs(demand))
    ensures a <= total || a == total % 100
    ensures 0 < total && 0 <= requested && 0 < demand ==> 0 <= a <= total
  {
    var rounded := RoundHalfEven(total * requested, demand * 100) * 100;
    var capped := if rounded < total then rounded else total;
    ScaledRounding(total * requested, demand, rounded / 100);
    RoundingNonNegative(total * requested, demand * 100, rounded / 100);
    if capped == 0 then total % 100 else capped
  }

  /** The award pinned down by the rounding specification alone: for the
      nearest-even rounding `q` of the exact quotient, the award is 100 q capped
      at `total`, or the part of `total` under 100 when that comes to 0. */
  lemma AwardCharacterised(total: int, requested: int, demand: int, q: int)
    requires demand != 0
    requires IsNearestEven(total * requested, demand * 100, q)
    ensures var capped := if 100 * q < total then 100 * q else total;
            Award(total, requested, demand) == (if capped == 0 then total % 100 else capped)
  {
    var r := RoundHalfEven(total * requested, demand * 100);
    NearestEvenUnique(total * requested, demand * 100, r, q);
  }

  /** A rounding of n / (100 d) scaled by 100 lies within 50 of n / d. */
  lemma ScaledRounding(n: int, d: int, q: int)
    requires d != 0
    requires IsNearestEven(n, d * 100, q)
    ensures 2 * Abs(q * 100 * d - n) <= 100 * Abs(d)
  {
  }

  /** Rounding a non-negative quotient never gives a negative integer. */
  lemma RoundingNonNegative(n: int, d: int, q: int)
    requires IsNearestEven(n, d, q)
    ensures n >= 0 && d > 0 ==> q >= 0
  {
  }

  /** Processes one request against the current counters. */
  function Step(c: ClientRequest, l: Ledger): (r: Result<Stepped>)
    ensures r.Err? <==> HasApproval(l, c.symbol) && (c.symbol !in l.demand || l.demand[c.symbol] == 0)
    ensures r.Ok? ==> SameRequest(r.value.client, c)
    ensures r.Ok? ==> r.value.ledger.demand.Keys == l.demand.Keys && r.value.ledger.approved.Keys == l.approved.Keys
    ensures r.Ok? ==> forall s :: s != c.symbol && s in l.demand ==> r.value.ledger.demand[s] == l.demand[s]
    ensures r.Ok? ==> forall s :: s != c.symbol && s in l.approved ==> r.value.ledger.approved[s] == l.approved[s]
    // no approval: the client keeps whatever it held and the counters stay put
    ensures !HasApproval(l, c.symbol) ==> r == Ok(Stepped(c, l))
    // the request is all of the remaining demand: it takes all of the remaining approval
    ensures r.Ok? && HasApproval(l, c.symbol) && c.requested == l.demand[c.symbol] ==>
              r.value.client.approved == l.approved[c.symbol] && r.value.ledger == l
    // otherwise both counters drop by exactly what this request consumed
    ensures r.Ok? && HasApproval(l, c.symbol) && c.requested != l.demand[c.symbol] ==>
              && r.value.client.approved == Award(l.approved[c.symbol], c.requested, l.demand[c.symbol])
              && r.value.ledger.demand[c.symbol] == l.demand[c.symbol] - c.requested
              && r.value.ledger.approved[c.symbol] == l.approved[c.symbol] - r.value.client.approved
    // with a positive remaining approval and demand the award never overdraws it
    ensures r.Ok? && HasApproval(l, c.symbol) && l.approved[c.symbol] > 0 && c.requested >= 0
            && l.demand[c.symbol] > 0 ==>
              0 <= r.value.client.approved <= l.approved[c.symbol]
              && r.value.ledger.approved[c.symbol] >= 0
  {
    var s := c.symbol;
    if !HasApproval(l, s) then Ok(Stepped(c, l))
    else if s !in l.demand then Err(MissingDemand(s))
    else if l.demand[s] == 0 then Err(ZeroDemand(s))
    else if c.requested == l.demand[s] then
      Ok(Stepped(c.(approved := l.approved[s]), l))
    else
      var a := Award(l.approved[s], c.requested, l.demand[s]);
      Ok(Stepped(c.(approved := a),
                 Ledger(l.demand[s := l.demand[s] - c.requested],
                        l.approved[s := l.approved[s] - a])))
  }

  /** The whole pass: each request in input order against the counters the
      requests before it left behind; the first exception ends the pass. */
  function Distribute(cs: seq<ClientRequest>, l: Ledger): (r: Result<Allocation>)
    ensures r.Ok? ==> |r.value.clients| == |cs|
    ensures r.Ok? ==> forall i :: 0 <= i < |cs| ==> SameRequest(r.value.clients[i], cs[i])
    decreases |cs|
  {
    if |cs| == 0 then Ok(Allocation([], l))
    else
      match Step(cs[0], l)
      case Err(e) => Err(e)
      case Ok(st) =>
        match Distribute(cs[1..], st.ledger)
        case Err(e) => Err(e)
        case Ok(rest) => Ok(Allocation([st.client] + rest.clients, rest.ledger))
  }

  /** `done` put in front of the outcome of the rest of a pass. */
  function Prepend(done: seq<ClientRequest>, r: Result<Allocation>): Result<Allocation>
  {
    match r
    case Ok(a) => Ok(Allocation(done + a.clients, a.ledger))
    case Err(e) => Err(e)
  }

  /** One more iteration of the pass: the outcome of the requests from `i` on
      is the outcome of request `i` followed by that of the requests after it. */
  lemma PrependStep(cs: seq<ClientRequest>, i: int, l: Ledger, done: seq<ClientRequest>)
    requires 0 <= i < |cs|
    ensures Step(cs[i], l).Err? ==> Prepend(done, Distribute(cs[i..], l)) == Err(Step(cs[i], l).error)
    ensures Step(cs[i], l).Ok? ==>
              Prepend(done, Distribute(cs[i..], l))
              == Prepend(done + [Step(cs[i], l).value.client], Distribute(cs[i + 1..], Step(cs[i], l).value.ledger))
  {
    assert cs[i..][0] == cs[i] && cs[i..][1..] == cs[i + 1..];
    var st := Step(cs[i], l);
    if st.Ok? {
      var rest := Distribute(cs[i + 1..], st.value.ledger);
      if rest.Ok? {
        assert done + ([st.value.client] + rest.value.clients) == (done + [st.value.client]) + rest.value.clients;
      }
    }
  }

  /** The pass as the source writes it: one loop over the requests that
      updates the two counters in place; it agrees with `Distribute`. */
  method DistributeLocates(cs: seq<ClientRequest>, demand: QuantityMap, approved: QuantityMap)
    returns (r: Result<Allocation>)
    ensures r == Distribute(cs, Ledger(demand, approved))
  {
    var l := Ledger(demand, approved);
    var done: seq<ClientRequest> := [];
    var i := 0;
    ghost var whole := Distribute(cs, l);
    if whole.Ok? {
      assert [] + whole.value.clients == whole.value.clients;
    }
    while i < |cs|
      invariant 0 <= i <= |cs|
      invariant Distribute(cs, Ledger(demand, approved)) == Prepend(done, Distribute(cs[i..], l))
    {
      PrependStep(cs, i, l, done);
      var st := Step(cs[i], l);
      if st.Err? {
        return Err(st.error);
      }
      done := done + [st.value.client];
      l := st.value.ledger;
      i := i + 1;
    }
    assert cs[i..] == [];
    assert done + [] == done;
    r := Ok(Allocation(done, l));
  }

  /** The total awarded to the requests for symbol `s`. */
  ghost function AwardSum(cs: seq<ClientRequest>, s: string): int
  {
    if |cs| == 0 then 0
    else (if cs[0].symbol == s then cs[0].approved else 0) + AwardSum(cs[1..], s)
  }

  /** What the counters must look like before the requests `cs` for the pass
      to hand out every approval exactly: approvals are never negative, and a
      symbol of `cs` with a truthy approval has as demand the sum of the
      requests still to come. */
  ghost predicate Balanced(cs: seq<ClientRequest>, l: Ledger)
  {
    && (forall s :: s in l.approved ==> l.approved[s] >= 0)
    && (forall s :: s in Symbols(cs) && HasApproval(l, s) ==>
          s in l.demand && l.demand[s] == SumFor(cs, s))
  }

  /** Requests as the pass receives them: strictly positive quantities and
      nothing approved yet. */
  ghost predicate FreshPositive(cs: seq<ClientRequest>)
  {
    forall i :: 0 <= i < |cs| ==> cs[i].requested > 0 && cs[i].approved == 0
  }

  /** The conservation invariant: from balanced counters the pass raises no
      exception and, per symbol of `cs`, hands out exactly its approval. */
  lemma {:induction false} ConservationFrom(cs: seq<ClientRequest>, l: Ledger)
    requires FreshPositive(cs)
    requires Balanced(cs, l)
    ensures Distribute(cs, l).Ok?
    ensures forall s :: s in Symbols(cs) ==> AwardSum(Distribute(cs, l).value.clients, s) == Lookup(l.approved, s)
    decreases |cs|
  {
    if |cs| > 0 {
      var c, rest, s := cs[0], cs[1..], cs[0].symbol;
      assert FreshPositive(rest);
      SumForPositive(rest, s);
      var st := Step(c, l);
      if HasApproval(l, s) {
        assert s in Symbols(cs);
        assert l.demand[s] == c.requested + SumFor(rest, s);
      }
      assert st.Ok?;
      var l' := st.value.ledger;
      assert Balanced(rest, l') by {
        forall t | t in Symbols(rest) && HasApproval(l', t)
          ensures t in l'.demand && l'.demand[t] == SumFor(rest, t)
        {
          assert t in Symbols(cs);
          if t != s {
            assert HasApproval(l, t);
          } else {
            assert HasApproval(l, s);
            SumForPositive(rest, s);
          }
        }
      }
      ConservationFrom(rest, l');
      var out := Distribute(cs, l).value.clients;
      var outRest := Distribute(rest, l').value.clients;
      assert out == [st.value.client] + outRest;
      assert out[1..] == outRest;
      forall t | t in Symbols(cs)
        ensures AwardSum(out, t) == Lookup(l.approved, t)
      {
        if t != s {
          assert t in Symbols(rest);
          assert Lookup(l'.approved, t) == Lookup(l.approved, t);
        } else if !HasApproval(l, s) {
          if s in Symbols(rest) {
            assert Lookup(l'.approved, s) == Lookup(l.approved, s);
          } else {
            AwardSumAbsent(rest, outRest, s);
          }
        } else if c.requested == l.demand[s] {
          assert s !in Symbols(rest);
          AwardSumAbsent(rest, outRest, s);
        } else {
          assert s in Symbols(rest);
        }
      }
    }
  }

  /** A symbol that has no request in `cs` collects no award from its outcome. */
  lemma {:induction false} AwardSumAbsent(cs: seq<ClientRequest>, out: seq<ClientRequest>, s: string)
    requires |out| == |cs|
    requires forall i :: 0 <= i < |cs| ==> SameRequest(out[i], cs[i])
    requires s !in Symbols(cs)
    ensures AwardSum(out, s) == 0
  {
    if |cs| > 0 {
      AwardSumAbsent(cs[1..], out[1..], s);
    }
  }

  /** Conservation: with strictly positive, not yet approved requests, demand
      equal to their aggregate and no negative approval, the pass never fails
      (in particular never divides by zero) and, for every symbol requested,
      the awards add up to exactly the symbol's approved total (0 if absent). */
  lemma Conservation(cs: seq<ClientRequest>, approved: QuantityMap)
    requires FreshPositive(cs)
    requires forall s :: s in approved ==> approved[s] >= 0
    ensures Distribute(cs, Ledger(Aggregate(cs), approved)).Ok?
    ensures forall s :: s in Symbols(cs) ==>
              AwardSum(Distribute(cs, Ledger(Aggregate(cs), approved)).value.clients, s) == Lookup(approved, s)
  {
    ConservationFrom(cs, Ledger(Aggregate(cs), approved));
  }
}
