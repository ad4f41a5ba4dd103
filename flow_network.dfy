/**
  The flow network built for one elimination query: how its vertices are
  numbered, which edges it holds in which order, and what those edges carry.

  For n teams there are n(n-1)/2 game vertices, one per unordered pair
  col < row, numbered 0, 1, ... in (col, row) lexicographic order; team i sits
  at vertex gameCount + i; the source and the sink are the last two vertices.
*/
module FlowNetworks {

  /** An edge capacity: a whole number, or unbounded (positive infinity in the original). */
  datatype Capacity = Finite(amount: int) | Unbounded

  datatype FlowEdge = FlowEdge(from: nat, to: nat, capacity: Capacity)

  datatype FlowNetwork = FlowNetwork(vertexCount: nat, edges: seq<FlowEdge>)

  /** A max-flow solver: given a network, its source and its sink, it tells which
      vertices lie on the source side of the minimum cut it finds. */
  type MinCutSolver = (FlowNetwork, nat, nat) -> (nat -> bool)

  // ---------------------------------------------------------------------------
  // Vertex layout

  function GameCount(n: nat): nat
  {
    n * (n - 1) / 2
  }

  function VertexCount(n: nat): nat
  {
    n + GameCount(n) + 2
  }

  function SourceVertex(n: nat): nat
  {
    VertexCount(n) - 2
  }

  function SinkVertex(n: nat): nat
  {
    VertexCount(n) - 1
  }

  function TeamVertex(n: nat, i: nat): nat
  {
    i + GameCount(n)
  }

  /** The number of pairs (c, r), c < r < n, whose first team c is below `col`. */
  function PairsBefore(n: nat, col: nat): nat
    requires col <= n
  {
    if col == 0 then 0 else PairsBefore(n, col - 1) + (n - col)
  }

  /** The game vertex of the pair col < row: the value the running counter has
      when the network builder reaches that pair. */
  function GameVertex(n: nat, col: nat, row: nat): nat
    requires col < row < n
  {
    PairsBefore(n, col) + (row - col - 1)
  }

  lemma {:induction false} PairsBeforeClosedForm(n: nat, col: nat)
    requires col <= n
    ensures 2 * PairsBefore(n, col) == col * (2 * n - col - 1)
  {
    if col > 0 {
      PairsBeforeClosedForm(n, col - 1);
      var m := 2 * n - col;
      assert (col - 1) * m == col * m - m;
      assert col * (m - 1) == col * m - col;
    }
  }

  /** The running game counter ends at exactly n(n-1)/2. */
  lemma PairsBeforeAll(n: nat)
    ensures PairsBefore(n, n) == GameCount(n)
  {
    PairsBeforeClosedForm(n, n);
    assert n * (2 * n - n - 1) == n * (n - 1);
  }

  lemma {:induction false} PairsBeforeMonotone(n: nat, a: nat, b: nat)
    requires a <= b <= n
    ensures PairsBefore(n, a) <= PairsBefore(n, b)
    decreases b
  {
    if a < b {
      PairsBeforeMonotone(n, a, b - 1);
    }
  }

  /** Every game vertex lies below gameCount. */
  lemma GameVertexInRange(n: nat, col: nat, row: nat)
    requires col < row < n
    ensures GameVertex(n, col, row) < GameCount(n)
  {
    PairsBeforeMonotone(n, col + 1, n);
    PairsBeforeAll(n);
  }

  /** Game vertices increase strictly along the (col, row) lexicographic order,
      so no two pairs share a vertex. */
  lemma GameVertexOrdered(n: nat, c1: nat, r1: nat, c2: nat, r2: nat)
    requires c1 < r1 < n && c2 < r2 < n
    requires c1 < c2 || (c1 == c2 && r1 < r2)
    ensures GameVertex(n, c1, r1) < GameVertex(n, c2, r2)
  {
    if c1 < c2 {
      PairsBeforeMonotone(n, c1 + 1, c2);
    }
  }

  lemma GameVertexInjective(n: nat, c1: nat, r1: nat, c2: nat, r2: nat)
    requires c1 < r1 < n && c2 < r2 < n
    requires GameVertex(n, c1, r1) == GameVertex(n, c2, r2)
    ensures c1 == c2 && r1 == r2
  {
    if c1 < c2 || (c1 == c2 && r1 < r2) {
      GameVertexOrdered(n, c1, r1, c2, r2);
    } else if c2 < c1 || (c1 == c2 && r2 < r1) {
      GameVertexOrdered(n, c2, r2, c1, r1);
    }
  }

  /** Consecutive numbering: the first pair gets 0, the last pair gets
      gameCount - 1, and the pair after (col, row) in lexicographic order gets
      the next number. */
  lemma GameVertexEnds(n: nat)
    requires n >= 2
    ensures GameVertex(n, 0, 1) == 0
    ensures GameVertex(n, n - 2, n - 1) == GameCount(n) - 1
  {
    PairsBeforeAll(n);
    assert PairsBefore(n, n) == PairsBefore(n, n - 1) + 0;
  }

  lemma GameVertexNext(n: nat, col: nat, row: nat)
    requires col < row < n && !(col == n - 2 && row == n - 1)
    ensures row + 1 < n ==> GameVertex(n, col, row + 1) == GameVertex(n, col, row) + 1
    ensures row + 1 == n ==> GameVertex(n, col + 1, col + 2) == GameVertex(n, col, row) + 1
  {
  }

  lemma {:induction false} ColumnOf(n: nat, col: nat, v: nat)
    requires col <= n && v < PairsBefore(n, col)
    ensures exists c :: 0 <= c < col && PairsBefore(n, c) <= v < PairsBefore(n, c + 1)
    decreases col
  {
    if v < PairsBefore(n, col - 1) {
      ColumnOf(n, col - 1, v);
    } else {
      assert PairsBefore(n, col - 1) <= v < PairsBefore(n, col - 1 + 1);
    }
  }

  /** Every number below gameCount is the game vertex of some pair. */
  lemma GameVertexOnto(n: nat, v: nat)
    requires v < GameCount(n)
    ensures exists c, r :: 0 <= c < r < n && GameVertex(n, c, r) == v
  {
    PairsBeforeAll(n);
    ColumnOf(n, n, v);
    var c :| 0 <= c < n && PairsBefore(n, c) <= v < PairsBefore(n, c + 1);
    var r := c + 1 + (v - PairsBefore(n, c));
    assert GameVertex(n, c, r) == v;
  }

  /** Game vertices, team vertices, source and sink are pairwise distinct and
      all lie inside the network's vertex range. */
  lemma VertexLayout(n: nat)
    ensures forall c, r :: 0 <= c < r < n ==> GameVertex(n, c, r) < GameCount(n)
    ensures forall i :: 0 <= i < n ==> GameCount(n) <= TeamVertex(n, i) < SourceVertex(n)
    ensures forall i, j :: 0 <= i < n && 0 <= j < n && TeamVertex(n, i) == TeamVertex(n, j) ==> i == j
    ensures SourceVertex(n) == n + GameCount(n) && SourceVertex(n) < SinkVertex(n)
    ensures SinkVertex(n) == VertexCount(n) - 1 && VertexCount(n) == n + GameCount(n) + 2
  {
    forall c, r | 0 <= c < r < n
      ensures GameVertex(n, c, r) < GameCount(n)
    {
      GameVertexInRange(n, c, r);
    }
  }

  // ---------------------------------------------------------------------------
  // Edges

  /** What the network builder is given: the team count, the game count, the
      source and sink vertices, the remaining-games matrix and the capacity of
      each team's edge to the sink. */
  datatype Blueprint = Blueprint(n: nat, gameCount: nat, source: nat, sink: nat,
                                 against: seq<seq<int>>, sinkCapacity: seq<int>)
  {
    predicate WellShaped()
    {
      && |against| == n
      && |sinkCapacity| == n
      && forall i :: 0 <= i < n ==> |against[i]| == n
    }

    /** The layout the queries use: gameCount = n(n-1)/2, source V-2, sink V-1. */
    predicate StandardLayout()
    {
      gameCount == GameCount(n) && source == SourceVertex(n) && sink == SinkVertex(n)
    }
  }

  /** The three edges of the pair col < row: from the source into its game
      vertex, and from the game vertex, unbounded, to each of the two teams. */
  function GameTriple(b: Blueprint, col: nat, row: nat): seq<FlowEdge>
    requires b.WellShaped() && col < row < b.n
  {
    var v := GameVertex(b.n, col, row);
    [FlowEdge(b.source, v, Finite(b.against[col][row])),
     FlowEdge(v, col + b.gameCount, Unbounded),
     FlowEdge(v, row + b.gameCount, Unbounded)]
  }

  /** The game edges of column `col` for rows col+1 .. rowEnd-1, in row order. */
  function GameEdges(b: Blueprint, col: nat, rowEnd: nat): (r: seq<FlowEdge>)
    requires b.WellShaped() && col < rowEnd <= b.n
    ensures |r| == 3 * (rowEnd - col - 1)
    decreases rowEnd
  {
    if rowEnd == col + 1 then [] else GameEdges(b, col, rowEnd - 1) + GameTriple(b, col, rowEnd - 1)
  }

  /** The edges added for columns 0 .. col-1: each column's game edges,
      followed by that column's team-to-sink edge. */
  function EdgesBefore(b: Blueprint, col: nat): (r: seq<FlowEdge>)
    requires b.WellShaped() && col <= b.n
  {
    if col == 0 then []
    else
      EdgesBefore(b, col - 1) + GameEdges(b, col - 1, b.n)
      + [FlowEdge(col - 1 + b.gameCount, b.sink, Finite(b.sinkCapacity[col - 1]))]
  }

  /** The whole edge sequence, in the order the builder adds it. */
  function NetworkEdges(b: Blueprint): seq<FlowEdge>
    requires b.WellShaped()
  {
    EdgesBefore(b, b.n)
  }

  /** Index of the source edge of pair col < row; its two fan-out edges follow it. */
  function GamePosition(n: nat, col: nat, row: nat): nat
    requires col < row < n
  {
    3 * GameVertex(n, col, row) + col
  }

  /** Index of team k's edge to the sink. */
  function SinkPosition(n: nat, k: nat): nat
    requires k < n
  {
    3 * PairsBefore(n, k + 1) + k
  }

  /** Columns 0 .. col-1 contribute three edges per pair and one sink edge each. */
  lemma {:induction false} EdgesBeforeLength(b: Blueprint, col: nat)
    requires b.WellShaped() && col <= b.n
    ensures |EdgesBefore(b, col)| == 3 * PairsBefore(b.n, col) + col
  {
    if col > 0 {
      EdgesBeforeLength(b, col - 1);
    }
  }

  /** Adding the edges of later rows leaves the earlier ones in place. */
  lemma {:induction false} GameEdgesStable(b: Blueprint, col: nat, r1: nat, r2: nat, i: nat)
    requires b.WellShaped() && col < r1 <= r2 <= b.n && i < |GameEdges(b, col, r1)|
    ensures GameEdges(b, col, r2)[i] == GameEdges(b, col, r1)[i]
    decreases r2
  {
    if r1 < r2 {
      GameEdgesStable(b, col, r1, r2 - 1, i);
    }
  }

  /** Adding the edges of later columns leaves the earlier ones in place. */
  lemma {:induction false} EdgesBeforeStable(b: Blueprint, c1: nat, c2: nat, i: nat)
    requires b.WellShaped() && c1 <= c2 <= b.n && i < |EdgesBefore(b, c1)|
    ensures i < |EdgesBefore(b, c2)| && EdgesBefore(b, c2)[i] == EdgesBefore(b, c1)[i]
    decreases c2
  {
    if c1 < c2 {
      EdgesBeforeStable(b, c1, c2 - 1, i);
    }
  }

  lemma AppendAssociative(a: seq<FlowEdge>, b: seq<FlowEdge>, c: seq<FlowEdge>)
    ensures a + b + c == a + (b + c)
  {
  }

  /** The network holds 3 edges per game and one edge per team. */
  lemma EdgeCount(b: Blueprint)
    requires b.WellShaped()
    ensures |NetworkEdges(b)| == 3 * GameCount(b.n) + b.n
  {
    EdgesBeforeLength(b, b.n);
    PairsBeforeAll(b.n);
  }

  /** Pair col < row: source -> game with capacity M[col][row], then game -> team(col)
      and game -> team(row), both unbounded, at three consecutive indices. */
  lemma GameEdgesAt(b: Blueprint, col: nat, row: nat)
    requires b.WellShaped() && col < row < b.n
    ensures var es := NetworkEdges(b);
            var p := GamePosition(b.n, col, row);
            var v := GameVertex(b.n, col, row);
            && p + 2 < |es|
            && es[p] == FlowEdge(b.source, v, Finite(b.against[col][row]))
            && es[p + 1] == FlowEdge(v, col + b.gameCount, Unbounded)
            && es[p + 2] == FlowEdge(v, row + b.gameCount, Unbounded)
  {
    GameEdgeAt(b, col, row, 0);
    GameEdgeAt(b, col, row, 1);
    GameEdgeAt(b, col, row, 2);
  }

  /** Edge j of the triple of pair (col, row) sits at GamePosition + j. */
  lemma GameEdgeAt(b: Blueprint, col: nat, row: nat, j: nat)
    requires b.WellShaped() && col < row < b.n && j < 3
    ensures GamePosition(b.n, col, row) + j < |NetworkEdges(b)|
    ensures NetworkEdges(b)[GamePosition(b.n, col, row) + j] == GameTriple(b, col, row)[j]
  {
    ColumnTripleAt(b, col, row, j);
    ColumnEdgeAt(b, col, row, j);
    InNetwork(b, col + 1, GamePosition(b.n, col, row) + j);
  }

  /** The edges of the first columns start the whole network. */
  lemma InNetwork(b: Blueprint, col: nat, i: nat)
    requires b.WellShaped() && col <= b.n && i < |EdgesBefore(b, col)|
    ensures i < |NetworkEdges(b)| && NetworkEdges(b)[i] == EdgesBefore(b, col)[i]
  {
    EdgesBeforeStable(b, col, b.n, i);
  }

  /** Column col's game edges follow the edges of the earlier columns. */
  lemma ColumnEdgeAt(b: Blueprint, col: nat, row: nat, j: nat)
    requires b.WellShaped() && col < row < b.n && j < 3
    ensures GamePosition(b.n, col, row) + j < |EdgesBefore(b, col + 1)|
    ensures EdgesBefore(b, col + 1)[GamePosition(b.n, col, row) + j]
            == GameEdges(b, col, b.n)[3 * (row - col - 1) + j]
  {
    EdgesBeforeLength(b, col);
  }

  /** Within its column's game edges, the triple of pair (col, row) starts at
      3 * (row - col - 1). */
  lemma ColumnTripleAt(b: Blueprint, col: nat, row: nat, j: nat)
    requires b.WellShaped() && col < row < b.n && j < 3
    ensures 3 * (row - col - 1) + j < |GameEdges(b, col, b.n)|
    ensures GameEdges(b, col, b.n)[3 * (row - col - 1) + j] == GameTriple(b, col, row)[j]
  {
    assert GameEdges(b, col, row + 1) == GameEdges(b, col, row) + GameTriple(b, col, row);
    GameEdgesStable(b, col, row + 1, b.n, 3 * (row - col - 1) + j);
  }

  /** Team k's edge to the sink, with capacity sinkCapacity[k]. */
  lemma SinkEdgeAt(b: Blueprint, k: nat)
    requires b.WellShaped() && k < b.n
    ensures var es := NetworkEdges(b);
            var p := SinkPosition(b.n, k);
            p < |es| && es[p] == FlowEdge(k + b.gameCount, b.sink, Finite(b.sinkCapacity[k]))
  {
    var block := EdgesBefore(b, k + 1);
    EdgesBeforeLength(b, k + 1);
    assert block[|block| - 1] == FlowEdge(k + b.gameCount, b.sink, Finite(b.sinkCapacity[k]));
    EdgesBeforeStable(b, k + 1, b.n, |block| - 1);
  }

  /** A place in the edge sequence: edge `part` (0: from the source, 1 and 2:
      to the two teams) of pair col < row, or the sink edge of a team. */
  datatype Slot = GameSlot(col: nat, row: nat, part: nat) | SinkSlot(team: nat)

  predicate ValidSlot(n: nat, s: Slot)
  {
    match s
    case GameSlot(c, r, j) => c < r < n && j < 3
    case SinkSlot(k) => k < n
  }

  function SlotPosition(n: nat, s: Slot): nat
    requires ValidSlot(n, s)
  {
    match s
    case GameSlot(c, r, j) => GamePosition(n, c, r) + j
    case SinkSlot(k) => SinkPosition(n, k)
  }

  lemma {:induction false} SlotsBefore(n: nat, col: nat, p: nat)
    requires col <= n && p < 3 * PairsBefore(n, col) + col
    ensures exists s :: ValidSlot(n, s) && SlotPosition(n, s) == p
    decreases col
  {
    var start := 3 * PairsBefore(n, col - 1) + (col - 1);
    if p < start {
      SlotsBefore(n, col - 1, p);
    } else {
      var q := p - start;
      var c := col - 1;
      if q == 3 * (n - col) {
        assert SlotPosition(n, SinkSlot(c)) == p;
      } else {
        var r := col + q / 3;
        var j := q % 3;
        assert GamePosition(n, c, r) + j == start + 3 * (q / 3) + j;
        assert SlotPosition(n, GameSlot(c, r, j)) == p;
      }
    }
  }

  /** Every index of the edge sequence is one of the three slots of some pair
      or the sink slot of some team. */
  lemma EdgeSlots(n: nat, p: nat) returns (s: Slot)
    requires p < 3 * GameCount(n) + n
    ensures ValidSlot(n, s) && SlotPosition(n, s) == p
  {
    PairsBeforeAll(n);
    SlotsBefore(n, n, p);
    s :| ValidSlot(n, s) && SlotPosition(n, s) == p;
  }

  /** Exactly one edge leaves team k's vertex: its edge to the sink. */
  lemma OnlySinkEdgeLeavesTeam(b: Blueprint, k: nat, p: nat)
    requires b.WellShaped() && b.StandardLayout() && k < b.n && p < |NetworkEdges(b)|
    ensures NetworkEdges(b)[p].from == TeamVertex(b.n, k) <==> p == SinkPosition(b.n, k)
  {
    var es := NetworkEdges(b);
    EdgeCount(b);
    SinkEdgeAt(b, k);
    var s := EdgeSlots(b.n, p);
    match s
    case GameSlot(c, r, j) =>
      GameEdgesAt(b, c, r);
      GameVertexInRange(b.n, c, r);
      SinkSlotNotGameSlot(b.n, c, r, k);
      assert es[p].from == b.source || es[p].from == GameVertex(b.n, c, r);
      assert es[p].from != TeamVertex(b.n, k);
      assert p != SinkPosition(b.n, k);
    case SinkSlot(k') =>
      SinkEdgeAt(b, k');
      assert es[p].from == TeamVertex(b.n, k');
  }

  /** A game slot and a sink slot never share an index. */
  lemma SinkSlotNotGameSlot(n: nat, c: nat, r: nat, k: nat)
    requires c < r < n && k < n
    ensures SinkPosition(n, k) < GamePosition(n, c, r) || GamePosition(n, c, r) + 2 < SinkPosition(n, k)
  {
    if c <= k {
      // pair (c, r) comes before the end of column k
      PairsBeforeMonotone(n, c + 1, k + 1);
    } else {
      PairsBeforeMonotone(n, k + 1, c);
    }
  }

  /** Two game slots at one index belong to the same pair. */
  lemma SamePairSlot(n: nat, c1: nat, r1: nat, j1: nat, c2: nat, r2: nat)
    requires c1 < r1 < n && c2 < r2 < n && j1 < 3
    ensures GamePosition(n, c2, r2) <= GamePosition(n, c1, r1) + j1 <= GamePosition(n, c2, r2) + 2
            ==> c1 == c2 && r1 == r2
  {
    if c1 < c2 || (c1 == c2 && r1 < r2) {
      GameVertexOrdered(n, c1, r1, c2, r2);
    } else if c2 < c1 || (c1 == c2 && r2 < r1) {
      GameVertexOrdered(n, c2, r2, c1, r1);
    }
  }

  /** The game vertex of pair c < r has exactly one incoming edge (from the
      source) and exactly two outgoing edges (to the pair's two teams). */
  lemma GameVertexEdges(b: Blueprint, c: nat, r: nat, p: nat)
    requires b.WellShaped() && b.StandardLayout() && c < r < b.n && p < |NetworkEdges(b)|
    ensures NetworkEdges(b)[p].to == GameVertex(b.n, c, r) <==> p == GamePosition(b.n, c, r)
    ensures NetworkEdges(b)[p].from == GameVertex(b.n, c, r)
            <==> p == GamePosition(b.n, c, r) + 1 || p == GamePosition(b.n, c, r) + 2
  {
    EdgeCount(b);
    var s := EdgeSlots(b.n, p);
    match s
    case GameSlot(c', r', j) =>
      GameSlotTouchingGameVertex(b, c, r, c', r', j);
    case SinkSlot(k) =>
      SinkSlotAvoidsGameVertex(b, c, r, k);
  }

  /** A game slot's edge touches the game vertex of pair (c, r) only at that
      pair's own slots: it enters at the first and leaves at the other two. */
  lemma GameSlotTouchingGameVertex(b: Blueprint, c: nat, r: nat, c': nat, r': nat, j: nat)
    requires b.WellShaped() && b.StandardLayout() && c < r < b.n && c' < r' < b.n && j < 3
    ensures var p := GamePosition(b.n, c', r') + j;
            && p < |NetworkEdges(b)|
            && (NetworkEdges(b)[p].to == GameVertex(b.n, c, r) <==> p == GamePosition(b.n, c, r))
            && (NetworkEdges(b)[p].from == GameVertex(b.n, c, r)
                <==> p == GamePosition(b.n, c, r) + 1 || p == GamePosition(b.n, c, r) + 2)
  {
    var v := GameVertex(b.n, c, r);
    GameEdgesAt(b, c, r);
    GameVertexInRange(b.n, c, r);
    GameEdgesAt(b, c', r');
    GameVertexInRange(b.n, c', r');
    SamePairSlot(b.n, c', r', j, c, r);
    if GameVertex(b.n, c', r') == v {
      GameVertexInjective(b.n, c', r', c, r);
    }
  }

  /** A team's sink edge neither enters nor leaves any game vertex, and its
      index is none of the pair's slots. */
  lemma SinkSlotAvoidsGameVertex(b: Blueprint, c: nat, r: nat, k: nat)
    requires b.WellShaped() && b.StandardLayout() && c < r < b.n && k < b.n
    ensures var p := SinkPosition(b.n, k);
            && p < |NetworkEdges(b)|
            && NetworkEdges(b)[p].to != GameVertex(b.n, c, r) && p != GamePosition(b.n, c, r)
            && NetworkEdges(b)[p].from != GameVertex(b.n, c, r)
            && p != GamePosition(b.n, c, r) + 1 && p != GamePosition(b.n, c, r) + 2
  {
    GameVertexInRange(b.n, c, r);
    SinkEdgeAt(b, k);
    SinkSlotNotGameSlot(b.n, c, r, k);
  }

  /** Every edge joins two vertices of the network. */
  lemma EdgesWithinNetwork(b: Blueprint)
    requires b.WellShaped() && b.StandardLayout()
    ensures forall p :: 0 <= p < |NetworkEdges(b)| ==>
              NetworkEdges(b)[p].from < VertexCount(b.n) && NetworkEdges(b)[p].to < VertexCount(b.n)
  {
    var es := NetworkEdges(b);
    EdgeCount(b);
    forall p | 0 <= p < |es|
      ensures es[p].from < VertexCount(b.n) && es[p].to < VertexCount(b.n)
    {
      var s := EdgeSlots(b.n, p);
      match s
      case GameSlot(c, r, j) =>
        GameEdgesAt(b, c, r);
        GameVertexInRange(b.n, c, r);
      case SinkSlot(k) =>
        SinkEdgeAt(b, k);
    }
  }

  /** When every game count of a pair and every sink capacity is non-negative,
      so is every finite capacity in the network. */
  lemma NonNegativeCapacities(b: Blueprint)
    requires b.WellShaped()
    requires forall c, r :: 0 <= c < r < b.n ==> b.against[c][r] >= 0
    requires forall k :: 0 <= k < b.n ==> b.sinkCapacity[k] >= 0
    ensures forall p :: 0 <= p < |NetworkEdges(b)| && NetworkEdges(b)[p].capacity.Finite? ==>
              NetworkEdges(b)[p].capacity.amount >= 0
  {
    var es := NetworkEdges(b);
    EdgeCount(b);
    forall p | 0 <= p < |es| && es[p].capacity.Finite?
      ensures es[p].capacity.amount >= 0
    {
      var s := EdgeSlots(b.n, p);
      match s
      case GameSlot(c, r, j) =>
        GameEdgesAt(b, c, r);
      case SinkSlot(k) =>
        SinkEdgeAt(b, k);
    }
  }
}
