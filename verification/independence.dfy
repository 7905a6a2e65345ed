/**
 Symbols do not interact in the allocation pass: each symbol's requests get the
 same awards as when that symbol's requests are run on their own.
 */
module Independence {
  import opened Requests
  import opened Distribution

  /** The requests for symbol `s`, in their original relative order. */
  ghost function Only(cs: seq<ClientRequest>, s: string): seq<ClientRequest>
  {
    if |cs| == 0 then []
    else if cs[0].symbol == s then [cs[0]] + Only(cs[1..], s)
    else Only(cs[1..], s)
  }

  /** Both counters hold the same entry (or no entry) for `s` in both ledgers. */
  ghost predicate AgreeOn(l1: Ledger, l2: Ledger, s: string)
  {
    && (s in l1.demand <==> s in l2.demand)
    && (s in l1.demand ==> l1.demand[s] == l2.demand[s])
    && (s in l1.approved <==> s in l2.approved)
    && (s in l1.approved ==> l1.approved[s] == l2.approved[s])
  }

  /** A step only looks at, and only changes, its own symbol's entries. */
  lemma StepLocal(c: ClientRequest, l1: Ledger, l2: Ledger)
    requires AgreeOn(l1, l2, c.symbol)
    ensures Step(c, l1).Ok? <==> Step(c, l2).Ok?
    ensures Step(c, l1).Ok? ==>
              Step(c, l1).value.client == Step(c, l2).value.client
              && AgreeOn(Step(c, l1).value.ledger, Step(c, l2).value.ledger, c.symbol)
  {
  }

  lemma {:induction false} IsolatedRun(cs: seq<ClientRequest>, l: Ledger, l2: Ledger, s: string)
    requires Distribute(cs, l).Ok?
    requires AgreeOn(l, l2, s)
    ensures Distribute(Only(cs, s), l2).Ok?
    ensures Distribute(Only(cs, s), l2).value.clients == Only(Distribute(cs, l).value.clients, s)
    decreases |cs|
  {
    if |cs| > 0 {
      var c, rest := cs[0], cs[1..];
      var st := Step(c, l).value;
      var out := Distribute(cs, l).value.clients;
      var outRest := Distribute(rest, st.ledger).value.clients;
      assert out == [st.client] + outRest;
      assert out[1..] == outRest;
      if c.symbol == s {
        StepLocal(c, l, l2);
        var st2 := Step(c, l2).value;
        IsolatedRun(rest, st.ledger, st2.ledger, s);
        assert Only(cs, s)[0] == c && Only(cs, s)[1..] == Only(rest, s);
      } else {
        assert AgreeOn(st.ledger, l2, s);
        IsolatedRun(rest, st.ledger, l2, s);
      }
    }
  }

  /** Multi-symbol independence: if the pass succeeds, then running only the
      requests for `s` on the same counters succeeds too and awards each of
      them exactly what it got in the full run. */
  lemma SymbolIndependence(cs: seq<ClientRequest>, l: Ledger, s: string)
    requires Distribute(cs, l).Ok?
    ensures Distribute(Only(cs, s), l).Ok?
    ensures Distribute(Only(cs, s), l).value.clients == Only(Distribute(cs, l).value.clients, s)
  {
    IsolatedRun(cs, l, l, s);
  }
}
