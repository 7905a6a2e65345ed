/**
 Aggregation of client requests into per-symbol demand: one pass over the
 requests in input order, adding each request's quantity to its symbol's entry.
 */
module Aggregation {
  import opened Requests

  /** The symbols that occur in `cs`. */
  ghost function Symbols(cs: seq<ClientRequest>): set<string>
  {
    if |cs| == 0 then {} else {cs[0].symbol} + Symbols(cs[1..])
  }

  /** Reference definition of demand: the total quantity requested for `s`. */
  ghost function SumFor(cs: seq<ClientRequest>, s: string): int
  {
    if |cs| == 0 then 0
    else (if cs[0].symbol == s then cs[0].requested else 0) + SumFor(cs[1..], s)
  }

  /** Folds one request into the running totals: a symbol seen before has the
      quantity added to its entry, a new symbol gets an entry holding it. */
  function AddRequest(m: QuantityMap, c: ClientRequest): (r: QuantityMap)
    ensures r.Keys == m.Keys + {c.symbol}
    ensures r[c.symbol] == Lookup(m, c.symbol) + c.requested
    ensures forall s :: s in m && s != c.symbol ==> r[s] == m[s]
  {
    if c.symbol in m then m[c.symbol := m[c.symbol] + c.requested]
    else m[c.symbol := c.requested]
  }

  /** The aggregation loop, continued from the totals `acc` over the requests `cs`. */
  function AggregateInto(acc: QuantityMap, cs: seq<ClientRequest>): (r: QuantityMap)
    ensures r.Keys == acc.Keys + Symbols(cs)
    ensures forall s :: s in r ==> r[s] == Lookup(acc, s) + SumFor(cs, s)
    decreases |cs|
  {
    if |cs| == 0 then acc else AggregateInto(AddRequest(acc, cs[0]), cs[1..])
  }

  /** Per-symbol demand: the loop started from the empty map. */
  function Aggregate(cs: seq<ClientRequest>): (r: QuantityMap)
    ensures r.Keys == Symbols(cs)
    ensures forall s :: s in r ==> r[s] == SumFor(cs, s)
  {
    AggregateInto(map[], cs)
  }

  lemma {:induction false} SymbolsMembership(cs: seq<ClientRequest>, s: string)
    ensures s in Symbols(cs) <==> exists i :: 0 <= i < |cs| && cs[i].symbol == s
  {
    if |cs| > 0 {
      SymbolsMembership(cs[1..], s);
      if s in Symbols(cs[1..]) {
        var i :| 0 <= i < |cs[1..]| && cs[1..][i].symbol == s;
        assert cs[i + 1].symbol == s;
      }
      if exists i :: 0 <= i < |cs| && cs[i].symbol == s {
        var i :| 0 <= i < |cs| && cs[i].symbol == s;
        if i > 0 {
          assert cs[1..][i - 1].symbol == s;
        }
      }
    }
  }

  /** A symbol that occurs nowhere in `cs` has nothing requested. */
  lemma {:induction false} SumForAbsent(cs: seq<ClientRequest>, s: string)
    requires s !in Symbols(cs)
    ensures SumFor(cs, s) == 0
  {
    if |cs| > 0 {
      SumForAbsent(cs[1..], s);
    }
  }

  /** With strictly positive quantities, a symbol has positive demand exactly
      when it occurs in the requests. */
  lemma {:induction false} SumForPositive(cs: seq<ClientRequest>, s: string)
    requires forall i :: 0 <= i < |cs| ==> cs[i].requested > 0
    ensures SumFor(cs, s) >= 0
    ensures SumFor(cs, s) > 0 <==> s in Symbols(cs)
  {
    if |cs| > 0 {
      SumForPositive(cs[1..], s);
    }
  }

  lemma {:induction false} SumForAppend(a: seq<ClientRequest>, b: seq<ClientRequest>, s: string)
    ensures SumFor(a + b, s) == SumFor(a, s) + SumFor(b, s)
  {
    if |a| == 0 {
      assert a + b == b;
    } else {
      assert (a + b)[1..] == a[1..] + b;
      SumForAppend(a[1..], b, s);
    }
  }

  /** Taking out the request at `i` removes exactly its share of the demand. */
  lemma SumForRemove(b: seq<ClientRequest>, i: int, s: string)
    requires 0 <= i < |b|
    ensures SumFor(b, s) == SumFor(b[..i] + b[i + 1..], s) + SumFor([b[i]], s)
  {
    assert b == b[..i] + [b[i]] + b[i + 1..];
    SumForAppend(b[..i] + [b[i]], b[i + 1..], s);
    SumForAppend(b[..i], [b[i]], s);
    SumForAppend(b[..i], b[i + 1..], s);
  }

  lemma MultisetRemove(a: seq<ClientRequest>, b: seq<ClientRequest>, i: int)
    requires |a| > 0 && 0 <= i < |b| && b[i] == a[0]
    requires multiset(a) == multiset(b)
    ensures multiset(a[1..]) == multiset(b[..i] + b[i + 1..])
  {
    assert b == b[..i] + [b[i]] + b[i + 1..];
    assert a == [a[0]] + a[1..];
    assert multiset(b) == multiset(b[..i]) + multiset{b[i]} + multiset(b[i + 1..]);
    assert multiset(b[..i] + b[i + 1..]) == multiset(b[..i]) + multiset(b[i + 1..]);
    assert multiset(a[1..]) == multiset(a) - multiset{a[0]};
  }

  /** The demand for a symbol does not depend on the order of the requests. */
  lemma {:induction false} SumForPermutation(a: seq<ClientRequest>, b: seq<ClientRequest>, s: string)
    requires multiset(a) == multiset(b)
    ensures SumFor(a, s) == SumFor(b, s)
  {
    if |a| == 0 {
      assert |b| == |multiset(b)| == 0;
    } else {
      assert a[0] in multiset(b);
      var i :| 0 <= i < |b| && b[i] == a[0];
      MultisetRemove(a, b, i);
      SumForPermutation(a[1..], b[..i] + b[i + 1..], s);
      SumForRemove(b, i, s);
    }
  }

  /** The aggregate does not depend on the order of the requests. */
  lemma AggregatePermutation(a: seq<ClientRequest>, b: seq<ClientRequest>)
    requires multiset(a) == multiset(b)
    ensures Aggregate(a) == Aggregate(b)
  {
    forall s ensures s in Symbols(a) <==> s in Symbols(b) {
      SymbolsMembership(a, s);
      SymbolsMembership(b, s);
      if s in Symbols(a) {
        var i :| 0 <= i < |a| && a[i].symbol == s;
        assert a[i] in multiset(b);
      }
      if s in Symbols(b) {
        var i :| 0 <= i < |b| && b[i].symbol == s;
        assert b[i] in multiset(a);
      }
    }
    forall s | s in Symbols(a) ensures SumFor(a, s) == SumFor(b, s) {
      SumForPermutation(a, b, s);
    }
  }
}
