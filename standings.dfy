/**
  The division as the columns the program keeps (names, wins, losses, games
  left, and the games-left matrix), and what every query answers for it: the
  name lookup, the trivial elimination scan, the flow network handed to the
  max-flow solver and the certificate read off its cut.
*/
module Standings {
  import opened Results
  import opened FlowNetworks

  /** One team's line of input: name, wins, losses, games left, and games left
      against each team of the division, by index. */
  datatype TeamRecord = TeamRecord(name: string, wins: int, losses: int, remaining: int, against: seq<int>)

  /** The division, column by column: entry i of every column belongs to the
      team read on line i. */
  datatype Division = Division(names: seq<string>, wins: seq<int>, losses: seq<int>,
                               remaining: seq<int>, against: seq<seq<int>>)
  {
    /** Every column has one entry per team, and the matrix is square. */
    predicate WellFormed()
    {
      && |wins| == |names| && |losses| == |names| && |remaining| == |names|
      && |against| == |names|
      && forall i :: 0 <= i < |names| ==> |against[i]| == |names|
    }
  }

  /** Every input line has one remaining-games entry per team of the division. */
  predicate WellFormedRecords(rs: seq<TeamRecord>)
  {
    forall i :: 0 <= i < |rs| ==> |rs[i].against| == |rs|
  }

  /** The division that the input lines describe, line i giving entry i of
      every column. */
  function Tabulate(rs: seq<TeamRecord>): (d: Division)
    requires WellFormedRecords(rs)
    ensures d.WellFormed() && |d.names| == |rs|
    ensures forall i :: 0 <= i < |rs| ==>
              && d.names[i] == rs[i].name && d.wins[i] == rs[i].wins
              && d.losses[i] == rs[i].losses && d.remaining[i] == rs[i].remaining
              && d.against[i] == rs[i].against
  {
    Division(seq(|rs|, i requires 0 <= i < |rs| => rs[i].name),
             seq(|rs|, i requires 0 <= i < |rs| => rs[i].wins),
             seq(|rs|, i requires 0 <= i < |rs| => rs[i].losses),
             seq(|rs|, i requires 0 <= i < |rs| => rs[i].remaining),
             seq(|rs|, i requires 0 <= i < |rs| => rs[i].against))
  }

  /** Extending a prefix by the next element gives the next prefix. */
  lemma TakeOneMore<T>(s: seq<T>, i: nat)
    requires i < |s|
    ensures s[..i] + [s[i]] == s[..i + 1]
  {
  }

  predicate DistinctNames(names: seq<string>)
  {
    forall i, j :: 0 <= i < j < |names| ==> names[i] != names[j]
  }

  // ---------------------------------------------------------------------------
  // Name lookup

  /** Where a name resolves to: the last index holding it, as a later put into
      a hash map overwrites an earlier one; None when no team has that name. */
  function Lookup(names: seq<string>, team: string): (r: Option<nat>)
    ensures r.Some? ==> r.value < |names| && names[r.value] == team
    ensures r.Some? ==> forall j :: r.value < j < |names| ==> names[j] != team
    ensures r.None? <==> forall j :: 0 <= j < |names| ==> names[j] != team
  {
    if |names| == 0 then None
    else if names[|names| - 1] == team then Some(|names| - 1)
    else Lookup(names[..|names| - 1], team)
  }

  /** Some team of the division has this name. */
  predicate Known(names: seq<string>, team: string)
  {
    Lookup(names, team).Some?
  }

  /** The index a known name resolves to. */
  function IndexOf(names: seq<string>, team: string): (i: nat)
    requires Known(names, team)
    ensures i < |names| && names[i] == team
    ensures forall j :: i < j < |names| ==> names[j] != team
  {
    Lookup(names, team).value
  }

  /** With distinct names every team is found at its own index. */
  lemma IndexOfDistinct(names: seq<string>, i: nat)
    requires DistinctNames(names) && i < |names|
    ensures Known(names, names[i]) && IndexOf(names, names[i]) == i
  {
  }

  /** The name-to-index map after putting names[0], names[1], ... in turn:
      a later put of the same name overwrites the earlier one. */
  function NameIndex(names: seq<string>): map<string, nat>
  {
    if |names| == 0 then map[]
    else NameIndex(names[..|names| - 1])[names[|names| - 1] := |names| - 1]
  }

  /** The name map holds exactly the known names, each at the index it resolves to. */
  lemma {:induction false} NameIndexResolves(names: seq<string>, team: string)
    ensures team in NameIndex(names) <==> Known(names, team)
    ensures team in NameIndex(names) ==> NameIndex(names)[team] == IndexOf(names, team)
  {
    if |names| > 0 {
      NameIndexResolves(names[..|names| - 1], team);
    }
  }

  /** The keys of the name map are exactly the names of the division. */
  lemma NameIndexKeys(names: seq<string>)
    ensures forall team :: team in NameIndex(names) <==> Known(names, team)
  {
    forall team
      ensures team in NameIndex(names) <==> Known(names, team)
    {
      NameIndexResolves(names, team);
    }
  }

  // ---------------------------------------------------------------------------
  // Trivial elimination

  /** Team i is another team (by name) that already has more wins than team x
      can reach by winning all its remaining games. */
  predicate Trivially(d: Division, x: nat, i: nat)
    requires d.WellFormed() && x < |d.names| && i < |d.names|
  {
    d.names[i] != d.names[x] && d.wins[x] + d.remaining[x] < d.wins[i]
  }

  /** The first index at or after `from` that trivially eliminates team x. */
  function FirstTrivial(d: Division, x: nat, from: nat): (r: Option<nat>)
    requires d.WellFormed() && x < |d.names| && from <= |d.names|
    ensures r.Some? ==> from <= r.value < |d.names| && Trivially(d, x, r.value)
    ensures r.Some? ==> forall k :: from <= k < r.value ==> !Trivially(d, x, k)
    ensures r.None? <==> forall k :: from <= k < |d.names| ==> !Trivially(d, x, k)
    decreases |d.names| - from
  {
    if from == |d.names| then None
    else if Trivially(d, x, from) then Some(from)
    else FirstTrivial(d, x, from + 1)
  }

  /** With distinct names, the name test of the scan is exactly "another index". */
  lemma TriviallyByIndex(d: Division, x: nat, i: nat)
    requires d.WellFormed() && DistinctNames(d.names) && x < |d.names| && i < |d.names|
    ensures Trivially(d, x, i) <==> i != x && d.wins[x] + d.remaining[x] < d.wins[i]
  {
  }

  // ---------------------------------------------------------------------------
  // The flow network of a query

  /** Capacity of team k's edge to the sink: the most wins team x can reach,
      less team k's wins. */
  function SinkCapacities(d: Division, x: nat): (caps: seq<int>)
    requires d.WellFormed() && x < |d.names|
    ensures |caps| == |d.names|
    ensures forall k :: 0 <= k < |d.names| ==> caps[k] == d.wins[x] + d.remaining[x] - d.wins[k]
  {
    seq(|d.names|, k requires 0 <= k < |d.names| => d.wins[x] + d.remaining[x] - d.wins[k])
  }

  /** What the network builder is given for query team x with `g` game vertices:
      source at V-2 = n + g and sink at V-1 = n + g + 1. */
  function NetworkFor(d: Division, x: nat, g: nat): (b: Blueprint)
    requires d.WellFormed() && x < |d.names|
    ensures b.WellShaped()
  {
    var n := |d.names|;
    Blueprint(n, g, n + g, n + g + 1, d.against, SinkCapacities(d, x))
  }

  /** In the network of a query for team x, team k's one edge to the sink
      leaves k's vertex with capacity wins[x] + remaining[x] - wins[k]: the
      wins k may still collect without overtaking x's best total. */
  lemma QuerySinkEdge(d: Division, x: nat, k: nat)
    requires d.WellFormed() && x < |d.names| && k < |d.names|
    ensures var es := NetworkEdges(NetworkFor(d, x, GameCount(|d.names|)));
            var p := SinkPosition(|d.names|, k);
            p < |es| && es[p] == FlowEdge(TeamVertex(|d.names|, k), SinkVertex(|d.names|),
                                          Finite(d.wins[x] + d.remaining[x] - d.wins[k]))
  {
    SinkEdgeAt(NetworkFor(d, x, GameCount(|d.names|)), k);
  }

  /** On the flow path (no team trivially eliminates x), with non-negative
      games left and a non-negative matrix, every capacity handed to the
      network is non-negative; team x's own sink edge carries remaining[x]. */
  lemma FlowPathCapacitiesNonNegative(d: Division, x: nat)
    requires d.WellFormed() && DistinctNames(d.names) && x < |d.names|
    requires FirstTrivial(d, x, 0).None?
    requires forall i :: 0 <= i < |d.names| ==> d.remaining[i] >= 0
    requires forall i, j :: 0 <= i < |d.names| && 0 <= j < |d.names| ==> d.against[i][j] >= 0
    ensures SinkCapacities(d, x)[x] == d.remaining[x]
    ensures forall k :: 0 <= k < |d.names| ==> SinkCapacities(d, x)[k] >= 0
    ensures var es := NetworkEdges(NetworkFor(d, x, GameCount(|d.names|)));
            forall p :: 0 <= p < |es| && es[p].capacity.Finite? ==> es[p].capacity.amount >= 0
  {
    var b := NetworkFor(d, x, GameCount(|d.names|));
    forall k | 0 <= k < |d.names|
      ensures b.sinkCapacity[k] >= 0
    {
      TriviallyByIndex(d, x, k);
    }
    NonNegativeCapacities(b);
  }

  // ---------------------------------------------------------------------------
  // Certificates

  /** The indices i < upTo whose team vertex g + i is on the source side of the cut. */
  function CutIndices(g: nat, inCut: nat -> bool, upTo: nat): (r: seq<nat>)
    ensures forall j :: 0 <= j < |r| ==> r[j] < upTo && inCut(g + r[j])
    ensures forall i :: 0 <= i < upTo && inCut(g + i) ==> i in r
    ensures forall j, k :: 0 <= j < k < |r| ==> r[j] < r[k]
  {
    if upTo == 0 then []
    else CutIndices(g, inCut, upTo - 1) + (if inCut(g + upTo - 1) then [upTo - 1] else [])
  }

  function NamesAt(names: seq<string>, idx: seq<nat>): (r: seq<string>)
    requires forall j :: 0 <= j < |idx| ==> idx[j] < |names|
    ensures |r| == |idx| && forall j :: 0 <= j < |idx| ==> r[j] == names[idx[j]]
  {
    seq(|idx|, j requires 0 <= j < |idx| => names[idx[j]])
  }

  /** The certificate read off a minimum cut: the names of the teams whose
      vertices are on the source side, by increasing index; None when there are none. */
  function FlowCertificate(names: seq<string>, g: nat, inCut: nat -> bool): Option<seq<string>>
  {
    var idx := CutIndices(g, inCut, |names|);
    if idx == [] then None else Some(NamesAt(names, idx))
  }

  /** No certificate exactly when no team vertex is in the cut. */
  lemma FlowCertificateEmpty(names: seq<string>, g: nat, inCut: nat -> bool)
    ensures FlowCertificate(names, g, inCut).None? <==> forall v :: g <= v < g + |names| ==> !inCut(v)
  {
    var idx := CutIndices(g, inCut, |names|);
    if idx == [] {
      forall v | g <= v < g + |names| ensures !inCut(v) {
        assert (v - g) !in idx && v == g + (v - g);
      }
    } else {
      assert inCut(g + idx[0]);
    }
  }

  /** A certificate names exactly the teams whose vertices are in the cut. */
  lemma FlowCertificateMembers(names: seq<string>, g: nat, inCut: nat -> bool)
    requires DistinctNames(names) && FlowCertificate(names, g, inCut).Some?
    ensures forall i :: 0 <= i < |names| ==> (names[i] in FlowCertificate(names, g, inCut).value <==> inCut(g + i))
  {
    var idx := CutIndices(g, inCut, |names|);
    var cert := FlowCertificate(names, g, inCut).value;
    forall i | 0 <= i < |names|
      ensures names[i] in cert <==> inCut(g + i)
    {
      if inCut(g + i) {
        assert i in idx;
        var j :| 0 <= j < |idx| && idx[j] == i;
        assert cert[j] == names[i];
      }
      if names[i] in cert {
        var j :| 0 <= j < |cert| && cert[j] == names[i];
        assert idx[j] == i;
      }
    }
  }

  /** A certificate lists its teams by strictly increasing index, hence
      without repetition. */
  lemma FlowCertificateOrdered(names: seq<string>, g: nat, inCut: nat -> bool)
    requires DistinctNames(names) && FlowCertificate(names, g, inCut).Some?
    ensures forall j :: 0 <= j < |FlowCertificate(names, g, inCut).value| ==>
              Known(names, FlowCertificate(names, g, inCut).value[j])
    ensures var cert := FlowCertificate(names, g, inCut).value;
            forall j, k :: 0 <= j < k < |cert| ==> IndexOf(names, cert[j]) < IndexOf(names, cert[k])
  {
    var idx := CutIndices(g, inCut, |names|);
    var cert := FlowCertificate(names, g, inCut).value;
    forall j | 0 <= j < |cert|
      ensures Known(names, cert[j]) && IndexOf(names, cert[j]) == idx[j]
    {
      IndexOfDistinct(names, idx[j]);
    }
  }

  /** What certificateOfElimination answers for `team`, with `solve` standing
      for the max-flow computation. */
  function Certificate(d: Division, team: string, solve: MinCutSolver): Result<Option<seq<string>>>
    requires d.WellFormed()
  {
    if !Known(d.names, team) then Err(IllegalArgument)
    else
      var x := IndexOf(d.names, team);
      match FirstTrivial(d, x, 0)
      case Some(i) => Ok(Some([d.names[i]]))
      case None =>
        var g := GameCount(|d.names|);
        var b := NetworkFor(d, x, g);
        Ok(FlowCertificate(d.names, g, solve(FlowNetwork(VertexCount(|d.names|), NetworkEdges(b)), b.source, b.sink)))
  }

  /** The trivial path answers the singleton of the first team, in index order,
      that has more wins than `team` can reach; that team is never `team` itself. */
  lemma TrivialCertificate(d: Division, team: string, solve: MinCutSolver, i: nat)
    requires d.WellFormed() && Known(d.names, team) && i < |d.names|
    requires Trivially(d, IndexOf(d.names, team), i)
    requires forall k :: 0 <= k < i ==> !Trivially(d, IndexOf(d.names, team), k)
    ensures i < |d.names| && Certificate(d, team, solve) == Ok(Some([d.names[i]]))
    ensures d.names[i] != team
    ensures d.wins[IndexOf(d.names, team)] + d.remaining[IndexOf(d.names, team)] < d.wins[i]
    ensures forall k :: 0 <= k < i ==>
              !(d.names[k] != team && d.wins[IndexOf(d.names, team)] + d.remaining[IndexOf(d.names, team)] < d.wins[k])
  {
    var x := IndexOf(d.names, team);
    forall k | 0 <= k < i
      ensures !(d.names[k] != team && d.wins[x] + d.remaining[x] < d.wins[k])
    {
      assert !Trivially(d, x, k);
    }
  }

  /** The flow path is taken exactly when the scan finds no team; the standard
      layout holds for its network. */
  lemma FlowCertificatePath(d: Division, team: string, solve: MinCutSolver)
    requires d.WellFormed() && Known(d.names, team)
    requires forall i :: 0 <= i < |d.names| ==> !Trivially(d, IndexOf(d.names, team), i)
    ensures var x := IndexOf(d.names, team);
            var b := NetworkFor(d, x, GameCount(|d.names|));
            && b.StandardLayout()
            && Certificate(d, team, solve)
               == Ok(FlowCertificate(d.names, GameCount(|d.names|),
                                     solve(FlowNetwork(VertexCount(|d.names|), NetworkEdges(b)),
                                           SourceVertex(|d.names|), SinkVertex(|d.names|))))
  {
  }
}
