/**
  The four-team division of the standard textbook example, worked through the
  model: team D is eliminated trivially by A, while A, B and C pass the
  trivial scan and so are decided by the flow network.
*/
module Textbook {
  import opened Results
  import opened FlowNetworks
  import opened Standings

  function Lines(): (rs: seq<TeamRecord>)
    ensures WellFormedRecords(rs) && |rs| == 4
  {
    [TeamRecord("A", 83, 71, 8, [0, 1, 6, 1]),
     TeamRecord("B", 80, 79, 3, [1, 0, 2, 0]),
     TeamRecord("C", 78, 78, 6, [6, 2, 0, 0]),
     TeamRecord("D", 77, 82, 3, [1, 0, 0, 0])]
  }

  function Example(): (d: Division)
    ensures d.WellFormed() && d.names == ["A", "B", "C", "D"]
    ensures d.wins == [83, 80, 78, 77] && d.remaining == [8, 3, 6, 3]
  {
    var d := Tabulate(Lines());
    assert d.names == ["A", "B", "C", "D"];
    assert d.wins == [83, 80, 78, 77];
    assert d.remaining == [8, 3, 6, 3];
    d
  }

  /** The names are distinct, so each resolves to its own line. */
  lemma ExampleNames()
    ensures DistinctNames(Example().names)
    ensures forall i :: 0 <= i < 4 ==>
              Known(Example().names, Example().names[i]) && IndexOf(Example().names, Example().names[i]) == i
  {
    var names := Example().names;
    forall i | 0 <= i < 4
      ensures Known(names, names[i]) && IndexOf(names, names[i]) == i
    {
      IndexOfDistinct(names, i);
    }
  }

  /** D can reach at most 77 + 3 = 80 wins and A already has 83, so the scan
      stops at A and the certificate is {A}, whatever the solver. */
  lemma DEliminatedByA(solve: MinCutSolver)
    ensures Certificate(Example(), "D", solve) == Ok(Some(["A"]))
  {
    var d := Example();
    ExampleNames();
    assert IndexOf(d.names, "D") == 3 by { assert d.names[3] == "D"; }
    TriviallyByIndex(d, 3, 0);
    TrivialCertificate(d, "D", solve, 0);
  }

  /** A name outside the division is rejected. */
  lemma UnknownTeamRejected(solve: MinCutSolver)
    ensures Certificate(Example(), "E", solve) == Err(IllegalArgument)
  {
    assert !Known(Example().names, "E");
  }

  /** A (91 reachable), B (83) and C (84) all reach at least the 83 wins of
      the leader, so none of them is trivially eliminated. */
  lemma OthersPassTheScan()
    ensures FirstTrivial(Example(), 0, 0).None?
    ensures FirstTrivial(Example(), 1, 0).None?
    ensures FirstTrivial(Example(), 2, 0).None?
  {
    var d := Example();
    ExampleNames();
    forall x, i | 0 <= x < 3 && 0 <= i < 4
      ensures !Trivially(d, x, i)
    {
      TriviallyByIndex(d, x, i);
    }
  }

  /** B can reach 83 wins, so its network lets team k's vertex pass at most
      83 - w[k] further wins to the sink. */
  lemma BSinkCapacities()
    ensures SinkCapacities(Example(), 1) == [0, 3, 5, 6]
  {
  }
}
