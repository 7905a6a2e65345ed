/**
 The repository's unit-test scenarios, and a few more inputs that show how the
 pass behaves at its edges, proved of the model.
 */
module Scenarios {
  import opened Requests
  import opened Aggregation
  import opened Distribution

  /** The approved quantities of the processed requests, in input order. */
  function ApprovedQuantities(cs: seq<ClientRequest>): (q: seq<int>)
    ensures |q| == |cs|
    ensures forall i :: 0 <= i < |cs| ==> q[i] == cs[i].approved
  {
    if |cs| == 0 then [] else [cs[0].approved] + ApprovedQuantities(cs[1..])
  }

  /** The pass raises no exception and hands out exactly `expected`, in input order. */
  predicate Yields(cs: seq<ClientRequest>, demand: QuantityMap, approved: QuantityMap, expected: seq<int>)
  {
    var r := Distribute(cs, Ledger(demand, approved));
    r.Ok? && ApprovedQuantities(r.value.clients) == expected
  }

  lemma AggregateTwoSymbols()
    ensures Aggregate([NewRequest("Client1", "ABC", 100), NewRequest("Client1", "QQQ", 100),
                       NewRequest("Client2", "ABC", 200)])
            == map["ABC" := 300, "QQQ" := 100]
  {
  }

  lemma FullApproval()
    ensures Yields([NewRequest("Client1", "ABC", 300), NewRequest("Client2", "QQQ", 100),
                    NewRequest("Client2", "ABC", 200), NewRequest("Client3", "TTT", 100)],
                   map["ABC" := 500, "QQQ" := 100, "TTT" := 100],
                   map["ABC" := 500, "QQQ" := 100, "TTT" := 100],
                   [300, 100, 200, 100])
  {
    var cs := [NewRequest("Client1", "ABC", 300), NewRequest("Client2", "QQQ", 100),
               NewRequest("Client2", "ABC", 200), NewRequest("Client3", "TTT", 100)];
    var l := Ledger(map["ABC" := 500, "QQQ" := 100, "TTT" := 100],
                    map["ABC" := 500, "QQQ" := 100, "TTT" := 100]);
    // 500 * 300 / 500 = 300 exactly; 200 of the 500 stay for ABC
    assert Award(500, 300, 500) == 300;
    var l1 := Ledger(map["ABC" := 200, "QQQ" := 100, "TTT" := 100],
                     map["ABC" := 200, "QQQ" := 100, "TTT" := 100]);
    assert l.demand["ABC" := 200] == l1.demand && l.approved["ABC" := 200] == l1.approved;
    assert Step(cs[0], l) == Ok(Stepped(cs[0].(approved := 300), l1));
    var rest := [NewRequest("Client2", "QQQ", 100), NewRequest("Client2", "ABC", 200),
                 NewRequest("Client3", "TTT", 100)];
    assert cs[1..] == rest;
    var tail := Distribute(rest, l1);
    assert tail.Ok? && ApprovedQuantities(tail.value.clients) == [100, 200, 100];
  }

  lemma PartialApproval()
    ensures Yields([NewRequest("Client1", "ABC", 300), NewRequest("Client2", "QQQ", 100),
                    NewRequest("Client2", "ABC", 200), NewRequest("Client3", "TTT", 100)],
                   map["ABC" := 500, "QQQ" := 100, "TTT" := 100],
                   map["ABC" := 345, "QQQ" := 65, "TTT" := 100],
                   [200, 65, 145, 100])
  {
    var cs := [NewRequest("Client1", "ABC", 300), NewRequest("Client2", "QQQ", 100),
               NewRequest("Client2", "ABC", 200), NewRequest("Client3", "TTT", 100)];
    var l := Ledger(map["ABC" := 500, "QQQ" := 100, "TTT" := 100],
                    map["ABC" := 345, "QQQ" := 65, "TTT" := 100]);
    // 345 * 300 / 500 = 207, which rounds to 200; 145 of the 345 stay for ABC
    assert Award(345, 300, 500) == 200;
    var l1 := Ledger(map["ABC" := 200, "QQQ" := 100, "TTT" := 100],
                     map["ABC" := 145, "QQQ" := 65, "TTT" := 100]);
    assert l.demand["ABC" := 200] == l1.demand && l.approved["ABC" := 145] == l1.approved;
    assert Step(cs[0], l) == Ok(Stepped(cs[0].(approved := 200), l1));
    var rest := [NewRequest("Client2", "QQQ", 100), NewRequest("Client2", "ABC", 200),
                 NewRequest("Client3", "TTT", 100)];
    assert cs[1..] == rest;
    // the remaining three requests each equal their symbol's remaining demand
    assert Step(rest[0], l1) == Ok(Stepped(rest[0].(approved := 65), l1));
    assert Step(rest[1], l1) == Ok(Stepped(rest[1].(approved := 145), l1));
    assert Step(rest[2], l1) == Ok(Stepped(rest[2].(approved := 100), l1));
    var tail := Distribute(rest, l1);
    assert tail.Ok? && ApprovedQuantities(tail.value.clients) == [65, 145, 100];
  }

  /** 150 * 100 / 300 / 100 is exactly one half, which rounds to 0, so the first
      client gets the part under 100. */
  lemma PartialApprovalSmallFirst()
    ensures Yields([NewRequest("Client1", "ABC", 100), NewRequest("Client2", "ABC", 200)],
                   map["ABC" := 300], map["ABC" := 150],
                   [50, 100])
  {
  }

  lemma PartialApprovalBigFirst()
    ensures Yields([NewRequest("Client1", "ABC", 200), NewRequest("Client2", "ABC", 100)],
                   map["ABC" := 300], map["ABC" := 200],
                   [100, 100])
  {
  }

  lemma NoApproval()
    ensures Yields([NewRequest("Client1", "ABC", 100)], map["ABC" := 100], map[], [0])
  {
  }

  lemma MultipleSymbols()
    ensures Yields([NewRequest("Client1", "ABC", 100), NewRequest("Client2", "ABC", 200),
                    NewRequest("Client3", "QQQ", 200)],
                   map["ABC" := 300, "QQQ" := 200], map["ABC" := 200, "QQQ" := 150],
                   [100, 100, 150])
  {
  }

  /** The same two requests in either order: the client asking for 100 gets
      100 when it comes first and 50 when it comes second. */
  lemma OrderSensitiveSmallFirst()
    ensures Yields([NewRequest("Client1", "ABC", 100), NewRequest("Client2", "ABC", 200)],
                   map["ABC" := 300], map["ABC" := 250],
                   [100, 150])
  {
  }

  lemma OrderSensitiveBigFirst()
    ensures Yields([NewRequest("Client2", "ABC", 200), NewRequest("Client1", "ABC", 100)],
                   map["ABC" := 300], map["ABC" := 250],
                   [200, 50])
  {
  }

  /** Even with the whole demand approved, a client can end up with more than it
      asked for while another gets nothing. */
  lemma AwardAboveRequest()
    ensures Yields([NewRequest("Client1", "ABC", 40), NewRequest("Client2", "ABC", 60)],
                   map["ABC" := 100], map["ABC" := 100],
                   [0, 100])
  {
  }

  /** A zero-quantity request after the one that took everything receives the
      part under 100 a second time, so the awards exceed the approval. */
  lemma ZeroRequestOverAwards()
    ensures Yields([NewRequest("Client1", "ABC", 100), NewRequest("Client2", "ABC", 0)],
                   map["ABC" := 100], map["ABC" := 50],
                   [50, 50])
  {
  }
}
