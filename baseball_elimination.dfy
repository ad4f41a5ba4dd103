/**
  A baseball division and its elimination queries. The division is filled once
  from parsed team lines and never changes afterwards; every query validates
  the team name first and reports an unknown name as IllegalArgument.
*/
module BaseballDivision {
  import opened Results
  import opened FlowNetworks
  import opened Standings

  class BaseballElimination {
    /** Name to index; a repeated name keeps its later index. */
    const teamsToId: map<string, nat>
    /** Index to name, for the indices 0 .. teamCount - 1. */
    const idToTeams: seq<string>
    const teamCount: nat
    const wins: seq<int>
    const losses: seq<int>
    const remaining: seq<int>
    const remainingGamesOpposingTeams: seq<seq<int>>

    /** The division the fields describe. */
    ghost function Standing(): Division
    {
      Division(idToTeams, wins, losses, remaining, remainingGamesOpposingTeams)
    }

    /** Every column has teamCount entries, and teamsToId holds what putting
        the names in reading order leaves in it. */
    ghost predicate Valid()
    {
      && Standing().WellFormed()
      && teamCount == |idToTeams|
      && teamsToId == NameIndex(idToTeams)
    }

    /** Fills the columns and both name lookups from the input lines, one team
        per iteration; a repeated name is remapped to its later index. Cell i
        of every column is written in iteration i, so each column is built by
        appending in index order. */
    constructor (input: seq<TeamRecord>)
      requires WellFormedRecords(input)
      ensures Valid() && Standing() == Tabulate(input)
    {
      var n := |input|;
      var w: seq<int> := [];
      var l: seq<int> := [];
      var rem: seq<int> := [];
      var m: seq<seq<int>> := [];
      var toId: map<string, nat> := map[];
      var read: seq<string> := [];
      ghost var d := Tabulate(input);
      for i := 0 to n
        invariant read == d.names[..i]
        invariant w == d.wins[..i] && l == d.losses[..i] && rem == d.remaining[..i]
        invariant m == d.against[..i]
        invariant toId == NameIndex(read)
      {
        var rec := input[i];
        TakeOneMore(d.names, i);
        TakeOneMore(d.wins, i);
        TakeOneMore(d.losses, i);
        TakeOneMore(d.remaining, i);
        TakeOneMore(d.against, i);
        assert (read + [rec.name])[..i] == read;
        read := read + [rec.name];
        toId := toId[rec.name := i];
        w := w + [rec.wins];
        l := l + [rec.losses];
        rem := rem + [rec.remaining];
        m := m + [rec.against];
      }
      assert read == d.names;
      idToTeams := read;
      teamsToId := toId;
      teamCount := n;
      wins := w;
      losses := l;
      remaining := rem;
      remainingGamesOpposingTeams := m;
    }

    function NumberOfTeams(): (r: nat)
      requires Valid()
      ensures r == |idToTeams|
    {
      teamCount
    }

    /** The names of the division, in no particular order. */
    function Teams(): (r: set<string>)
      requires Valid()
      ensures forall name :: name in r <==> exists i :: 0 <= i < |idToTeams| && idToTeams[i] == name
    {
      NameIndexKeys(idToTeams);
      teamsToId.Keys
    }

    function ValidateTeam(team: string): (r: Outcome)
      requires Valid()
      ensures r.Pass? <==> Known(idToTeams, team)
      ensures r.Fail? ==> r.error == IllegalArgument
    {
      NameIndexResolves(idToTeams, team);
      if team in teamsToId then Pass else Fail(IllegalArgument)
    }

    function GetTeamOrThrowInvalid(team: string): (r: Result<nat>)
      requires Valid()
      ensures !Known(idToTeams, team) ==> r == Err(IllegalArgument)
      ensures Known(idToTeams, team) ==> r == Ok(IndexOf(idToTeams, team))
    {
      NameIndexResolves(idToTeams, team);
      match ValidateTeam(team)
      case Fail(e) => Err(e)
      case Pass => Ok(teamsToId[team])
    }

    function Wins(team: string): (r: Result<int>)
      requires Valid()
      ensures !Known(idToTeams, team) ==> r == Err(IllegalArgument)
      ensures Known(idToTeams, team) ==> r == Ok(Standing().wins[IndexOf(idToTeams, team)])
    {
      match GetTeamOrThrowInvalid(team)
      case Err(e) => Err(e)
      case Ok(i) => Ok(wins[i])
    }

    function Losses(team: string): (r: Result<int>)
      requires Valid()
      ensures !Known(idToTeams, team) ==> r == Err(IllegalArgument)
      ensures Known(idToTeams, team) ==> r == Ok(Standing().losses[IndexOf(idToTeams, team)])
    {
      match GetTeamOrThrowInvalid(team)
      case Err(e) => Err(e)
      case Ok(i) => Ok(losses[i])
    }

    function Remaining(team: string): (r: Result<int>)
      requires Valid()
      ensures !Known(idToTeams, team) ==> r == Err(IllegalArgument)
      ensures Known(idToTeams, team) ==> r == Ok(Standing().remaining[IndexOf(idToTeams, team)])
    {
      match GetTeamOrThrowInvalid(team)
      case Err(e) => Err(e)
      case Ok(i) => Ok(remaining[i])
    }

    function Against(team1: string, team2: string): (r: Result<int>)
      requires Valid()
      ensures !Known(idToTeams, team1) || !Known(idToTeams, team2) ==> r == Err(IllegalArgument)
      ensures Known(idToTeams, team1) && Known(idToTeams, team2) ==>
                r == Ok(Standing().against[IndexOf(idToTeams, team1)][IndexOf(idToTeams, team2)])
    {
      match GetTeamOrThrowInvalid(team1)
      case Err(e) => Err(e)
      case Ok(i) =>
        match GetTeamOrThrowInvalid(team2)
        case Err(e) => Err(e)
        case Ok(j) => Ok(remainingGamesOpposingTeams[i][j])
    }

    /** Is `team` eliminated? Exactly when it has a certificate. */
    method IsEliminated(team: string, solve: MinCutSolver) returns (r: Result<bool>)
      requires Valid()
      ensures !Known(idToTeams, team) ==> r == Err(IllegalArgument)
      ensures Known(idToTeams, team) ==> r == Ok(Certificate(Standing(), team, solve).value.Some?)
    {
      var certificate := CertificateOfElimination(team, solve);
      match certificate
      case Err(e) =>
        r := Err(e);
      case Ok(c) =>
        r := Ok(c.Some?);
    }

    /** A set of teams that eliminates `team`, or None when it is not eliminated:
        first the trivial scan, then the minimum cut of the flow network. */
    method CertificateOfElimination(team: string, solve: MinCutSolver) returns (r: Result<Option<seq<string>>>)
      requires Valid()
      ensures r == Certificate(Standing(), team, solve)
    {
      var valid := ValidateTeam(team);
      if valid.Fail? {
        return Err(valid.error);
      }
      ghost var d := Standing();
      ghost var x := IndexOf(idToTeams, team);
      var i := 0;
      while i < teamCount
        invariant i <= teamCount
        invariant forall k :: 0 <= k < i ==> !Trivially(d, x, k)
      {
        if TriviallyEliminated(team, i) {
          TrivialCertificate(d, team, solve, i);
          return Ok(Some([idToTeams[i]]));
        }
        i := i + 1;
      }
      FlowCertificatePath(d, team, solve);
      var gameCount := GameCount(teamCount);
      var inCut := SolveMaxFlow(team, gameCount, solve);
      var certificate := CertificateFromCut(gameCount, inCut);
      return Ok(certificate);
    }

    function TriviallyEliminated(team: string, i: nat): (r: bool)
      requires Valid() && Known(idToTeams, team) && i < teamCount
      ensures r == Trivially(Standing(), IndexOf(idToTeams, team), i)
    {
      team != idToTeams[i] && Wins(team).value + Remaining(team).value < wins[i]
    }

    /** Builds the network with the source at V-2 and the sink at V-1 and
        hands it to the solver. */
    method SolveMaxFlow(team: string, gameCount: nat, solve: MinCutSolver) returns (inCut: nat -> bool)
      requires Valid() && Known(idToTeams, team)
      ensures var b := NetworkFor(Standing(), IndexOf(idToTeams, team), gameCount);
              inCut == solve(FlowNetwork(teamCount + gameCount + 2, NetworkEdges(b)), b.source, b.sink)
    {
      var verticesCount := teamCount + gameCount + 2;
      var source := verticesCount - 2;
      var sink := verticesCount - 1;
      var network := CreateFlowNetwork(team, gameCount, source, sink);
      inCut := solve(network, source, sink);
    }

    /** Adds, for each column col in turn, the three edges of every pair
        (col, row) with row > col, numbering the game vertices with a running
        counter, and then column col's edge to the sink. */
    method CreateFlowNetwork(team: string, gameCount: nat, source: nat, sink: nat) returns (network: FlowNetwork)
      requires Valid() && Known(idToTeams, team)
      ensures var b := Blueprint(teamCount, gameCount, source, sink, remainingGamesOpposingTeams,
                                 SinkCapacities(Standing(), IndexOf(idToTeams, team)));
              network == FlowNetwork(teamCount + gameCount + 2, NetworkEdges(b))
    {
      ghost var b := Blueprint(teamCount, gameCount, source, sink, remainingGamesOpposingTeams,
                               SinkCapacities(Standing(), IndexOf(idToTeams, team)));
      var best := Wins(team).value + Remaining(team).value;
      var edges: seq<FlowEdge> := [];
      var vertex := 0;
      var col := 0;
      while col < teamCount
        invariant col <= teamCount
        invariant vertex == PairsBefore(teamCount, col)
        invariant edges == EdgesBefore(b, col)
      {
        edges, vertex := AddColumn(col, vertex, source, sink, gameCount, best, edges, b);
        col := col + 1;
      }
      network := FlowNetwork(teamCount + gameCount + 2, edges);
    }

    /** One pass of the builder's outer loop: the three edges of each pair
        (col, row), row > col, in row order with the counter advancing per
        pair, then column col's edge to the sink with capacity best - wins[col]. */
    method AddColumn(col: nat, vertex: nat, source: nat, sink: nat, gameCount: nat, best: int,
                     edges: seq<FlowEdge>, ghost b: Blueprint)
      returns (edges': seq<FlowEdge>, vertex': nat)
      requires b.WellShaped() && col < b.n == teamCount == |wins|
      requires b == Blueprint(teamCount, gameCount, source, sink, remainingGamesOpposingTeams, b.sinkCapacity)
      requires forall k :: 0 <= k < b.n ==> b.sinkCapacity[k] == best - wins[k]
      requires vertex == PairsBefore(b.n, col) && edges == EdgesBefore(b, col)
      ensures edges' == EdgesBefore(b, col + 1)
      ensures vertex' == PairsBefore(b.n, col + 1)
    {
      edges', vertex' := edges, vertex;
      var row := col + 1;
      while row < teamCount
        invariant col < row <= teamCount
        invariant vertex' == PairsBefore(teamCount, col) + (row - col - 1)
        invariant edges' == edges + GameEdges(b, col, row)
      {
        AppendAssociative(edges, GameEdges(b, col, row), GameTriple(b, col, row));
        edges' := edges' + [FlowEdge(source, vertex', Finite(remainingGamesOpposingTeams[col][row])),
                            FlowEdge(vertex', col + gameCount, Unbounded),
                            FlowEdge(vertex', row + gameCount, Unbounded)];
        row := row + 1;
        vertex' := vertex' + 1;
      }
      edges' := edges' + [FlowEdge(col + gameCount, sink, Finite(best - wins[col]))];
    }

    /** The names of the teams whose vertices are on the source side of the
        cut, in index order; None when there are none. */
    method CertificateFromCut(gameCount: nat, inCut: nat -> bool) returns (r: Option<seq<string>>)
      requires Valid()
      ensures r == FlowCertificate(idToTeams, gameCount, inCut)
    {
      var teams: seq<string> := [];
      ghost var idx: seq<nat> := [];
      for i := 0 to teamCount
        invariant idx == CutIndices(gameCount, inCut, i)
        invariant forall j :: 0 <= j < |idx| ==> idx[j] < i
        invariant teams == NamesAt(idToTeams, idx)
      {
        if inCut(i + gameCount) {
          teams := teams + [idToTeams[i]];
          idx := idx + [i];
        }
      }
      r := if |teams| == 0 then None else Some(teams);
    }
  }

  /** Reading the lines and querying them back: with distinct names, every
      accessor of the division the constructor leaves answers the value read
      on that team's line, and the teams are exactly the names read. */
  lemma ReadBack(e: BaseballElimination, rs: seq<TeamRecord>, i: nat, j: nat)
    requires WellFormedRecords(rs) && e.Valid() && e.Standing() == Tabulate(rs)
    requires forall a, c :: 0 <= a < c < |rs| ==> rs[a].name != rs[c].name
    requires i < |rs| && j < |rs|
    ensures e.NumberOfTeams() == |rs|
    ensures e.Teams() == set a | 0 <= a < |rs| :: rs[a].name
    ensures e.GetTeamOrThrowInvalid(rs[i].name) == Ok(i)
    ensures e.Wins(rs[i].name) == Ok(rs[i].wins)
    ensures e.Losses(rs[i].name) == Ok(rs[i].losses)
    ensures e.Remaining(rs[i].name) == Ok(rs[i].remaining)
    ensures e.Against(rs[i].name, rs[j].name) == Ok(rs[i].against[j])
  {
    var names := Tabulate(rs).names;
    IndexOfDistinct(names, i);
    IndexOfDistinct(names, j);
  }
}
