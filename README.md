# Baseball elimination

A model of `BaseballElimination`: a division of teams, with their wins, losses,
games left and an n×n matrix of games left between each pair, answering whether
a team is mathematically eliminated and, if so, with which set of teams as a
certificate. A query first scans for a team that already has more wins than the
queried team can reach ("trivial" elimination). When there is none, it builds
the classic max-flow network:

- a source;
- one vertex per remaining game;
- one vertex per team;
- a sink.

It then reads the certificate off the source side of the minimum cut.

The project has four modules, one file each:

- `results.dfy` (`Results`): the `Option`, `Result` and `Outcome` values that
  stand for `null` and for the `IllegalArgumentException` an unknown team name
  raises.
- `flow_network.dfy` (`FlowNetworks`): the vertex layout and the edge sequence
  that `createFlowNetwork` produces. The layout is game vertices `0 .. g-1`
  with `g = n(n-1)/2`, team `i` at `g + i`, the source at `V-2` and the sink at
  `V-1`, where `V = n + g + 2`. The edge sequence is stated as a function of a
  `Blueprint` (team count, game count, source, sink, matrix, sink capacities).
  The lemmas prove the layout is a numbering in lexicographic pair order, and
  give each edge's position, endpoints and capacity.
- `standings.dfy` (`Standings`): the division as columns, plus the
  specification functions. These are the name lookup (last index wins, as
  with `HashMap.put`), the first trivially eliminating team, the network of a
  query, the certificate read off a cut, and `Certificate`: the answer of
  `certificateOfElimination`, apart from the rejection of a negative capacity
  described under "Left out".
- `baseball_elimination.dfy` (`BaseballDivision`): the class
  `BaseballElimination`. Its fields are filled once by the constructor. The
  accessors are functions. The scan, the network builder and the certificate
  extraction are methods with loops, each proved equal to the specification
  function.

A fifth file, `textbook.dfy` (`Textbook`), works the standard four-team example
through the specification.

The max-flow solver is a parameter. `MinCutSolver` is any function from a
network, a source and a sink to the `inCut` predicate over vertices. Nothing
is assumed about it.

## Model

| member | source | states |
|---|---|---|
| `BaseballDivision.BaseballElimination.constructor` | BaseballElimination.java:40-52 | After filling, entry i of every column is line i's value and the name map sends every name to the last index it was read at. Repeated names are accepted, as the program does. |
| `BaseballDivision.BaseballElimination.NumberOfTeams` | BaseballElimination.java:56-58 | The number of teams read. |
| `BaseballDivision.BaseballElimination.Teams` | BaseballElimination.java:61-63 | The set of team names is exactly the set of names read. |
| `BaseballDivision.BaseballElimination.ValidateTeam` | BaseballElimination.java:122-126 | Passes exactly when some team has the name; otherwise fails with IllegalArgument. |
| `BaseballDivision.BaseballElimination.GetTeamOrThrowInvalid` | BaseballElimination.java:128-131 | For a known name, the last index holding it; for an unknown name, IllegalArgument. |
| `BaseballDivision.BaseballElimination.Wins` | BaseballElimination.java:66-68 | wins[i] for the index i the name resolves to; IllegalArgument for an unknown name. |
| `BaseballDivision.BaseballElimination.Losses` | BaseballElimination.java:71-73 | losses[i] for the index i the name resolves to; IllegalArgument for an unknown name. |
| `BaseballDivision.BaseballElimination.Remaining` | BaseballElimination.java:76-78 | remaining[i] for the index i the name resolves to; IllegalArgument for an unknown name. |
| `BaseballDivision.BaseballElimination.Against` | BaseballElimination.java:81-84 | M[i][j] for the indices the two names resolve to; IllegalArgument if either name is unknown. |
| `BaseballDivision.BaseballElimination.IsEliminated` | BaseballElimination.java:87-89 | True exactly when the certificate is present; IllegalArgument for an unknown name. |
| `BaseballDivision.BaseballElimination.CertificateOfElimination` | BaseballElimination.java:92-104 | The answer is `Certificate`. An unknown name gives IllegalArgument. Otherwise the first team of the scan gives a singleton. Otherwise the answer is the flow certificate of the solver's cut on the network with gameCount = n(n-1)/2. |
| `BaseballDivision.BaseballElimination.TriviallyEliminated` | BaseballElimination.java:133-135 | True exactly when team i has another name and more wins than the queried team's wins plus games left. |
| `BaseballDivision.BaseballElimination.SolveMaxFlow` | BaseballElimination.java:137-143 | The solver is handed the network of the query, with V = n + g + 2 vertices, the source at V-2 and the sink at V-1. |
| `BaseballDivision.BaseballElimination.CreateFlowNetwork` | BaseballElimination.java:145-162 | The network has V vertices and exactly the edge sequence `NetworkEdges` of the query's blueprint, in the order the nested loops add them. |
| `BaseballDivision.BaseballElimination.AddColumn` | BaseballElimination.java:149-160 | One pass of the outer loop extends the edges from those of columns 0..col-1 to those of columns 0..col, and advances the game counter to the number of pairs whose first team is at most col. |
| `BaseballDivision.BaseballElimination.CertificateFromCut` | BaseballElimination.java:164-172 | The names of the teams whose vertex g + i is in the cut, by increasing i; None when there are none. |
| `FlowNetworks.PairsBeforeClosedForm` | BaseballElimination.java:148-157 | The game counter at the start of column col is col(2n-col-1)/2. |
| `FlowNetworks.PairsBeforeAll` | BaseballElimination.java:101 | The game counter ends at exactly gameCount = n(n-1)/2. |
| `FlowNetworks.PairsBeforeMonotone` | BaseballElimination.java:148-150 | The counter value at the start of a column never decreases with the column. |
| `FlowNetworks.GameVertexInRange` | BaseballElimination.java:148-157 | Every game vertex lies in 0 .. gameCount-1. |
| `FlowNetworks.GameVertexOrdered` | BaseballElimination.java:149-150 | Pairs earlier in (col, row) lexicographic order get smaller game vertices. |
| `FlowNetworks.GameVertexInjective` | BaseballElimination.java:149-150 | Two pairs with the same game vertex are the same pair. |
| `FlowNetworks.GameVertexEnds` | BaseballElimination.java:148-150 | The first pair (0, 1) gets vertex 0 and the last pair (n-2, n-1) gets gameCount-1. |
| `FlowNetworks.GameVertexNext` | BaseballElimination.java:150 | The next pair in loop order gets the next vertex, within a column and across a column boundary. |
| `FlowNetworks.GameVertexOnto` | BaseballElimination.java:148-157 | Every vertex below gameCount is the game vertex of some pair. |
| `FlowNetworks.VertexLayout` | BaseballElimination.java:138-140 | Game vertices are below gameCount; team i is gameCount+i, and distinct teams get distinct vertices. Team vertices lie below the source, the source is V-2 and the sink is V-1. |
| `FlowNetworks.EdgesBeforeLength` | BaseballElimination.java:149-160 | After the first col columns, 3 edges per pair so far plus one sink edge per column have been added. |
| `FlowNetworks.EdgeCount` | BaseballElimination.java:149-160 | The network has 3·gameCount + n edges. |
| `FlowNetworks.GameEdgesAt` | BaseballElimination.java:151-156 | The pair (col, row) contributes source→game with capacity M[col][row], then game→team col and game→team row, both unbounded. |
| `FlowNetworks.SinkEdgeAt` | BaseballElimination.java:158-159 | Team k contributes one edge from its vertex to the sink, carrying the blueprint's capacity for k. |
| `FlowNetworks.OnlySinkEdgeLeavesTeam` | BaseballElimination.java:149-160 | An edge leaves team k's vertex exactly at team k's sink-edge position, so exactly one edge leaves it, for every k including the queried team. |
| `FlowNetworks.GameVertexEdges` | BaseballElimination.java:150-157 | Exactly one edge enters a game vertex (its source edge) and exactly two leave it (to its two teams). |
| `FlowNetworks.EdgesWithinNetwork` | BaseballElimination.java:146-160 | Every edge joins two vertices in 0 .. V-1. |
| `FlowNetworks.NonNegativeCapacities` | BaseballElimination.java:151-159 | With a non-negative matrix and non-negative sink capacities, every finite capacity is non-negative. |
| `BaseballDivision.ReadBack` | BaseballElimination.java:40-51 | With distinct names, after the constructor has filled the division from the lines, `numberOfTeams` is the number of lines, `teams` is the set of names read, and `wins`, `losses`, `remaining` and `against` of a line's name (and a second line's name) answer exactly the values read on that line. |
| `Standings.Lookup` | BaseballElimination.java:42 | A name resolves to the last index holding it, and to nothing exactly when no team has it. |
| `Standings.IndexOfDistinct` | BaseballElimination.java:42 | With distinct names, each name resolves to its own index. |
| `Standings.NameIndexResolves` | BaseballElimination.java:123-130 | The map left by putting the names in reading order holds exactly the known names, each at the index it resolves to. |
| `Standings.NameIndexKeys` | BaseballElimination.java:62 | The map's key set is exactly the set of known names. |
| `Standings.FirstTrivial` | BaseballElimination.java:95-99 | The smallest index at or after `from` that trivially eliminates the team, or None exactly when no index does. |
| `Standings.TriviallyByIndex` | BaseballElimination.java:134 | With distinct names, "another name" in the scan means "another index". |
| `Standings.QuerySinkEdge` | BaseballElimination.java:158-159 | In the network built for query team x, team k's sink edge goes from team vertex gameCount + k to the sink V-1 with capacity wins[x] + remaining[x] - wins[k]. |
| `Standings.FlowPathCapacitiesNonNegative` | BaseballElimination.java:95-99 | On the flow path, with non-negative inputs, every sink capacity is ≥ 0; x's own is remaining[x]; every finite capacity of the network is ≥ 0. |
| `Standings.CutIndices` | BaseballElimination.java:166-170 | The indices whose team vertex is in the cut, all of them, strictly increasing. |
| `Standings.FlowCertificateEmpty` | BaseballElimination.java:171 | The flow certificate is None exactly when no team vertex g .. g+n-1 is in the cut. |
| `Standings.FlowCertificateMembers` | BaseballElimination.java:166-170 | With distinct names, a team's name is in the certificate exactly when its vertex is in the cut. |
| `Standings.FlowCertificateOrdered` | BaseballElimination.java:166-170 | Every certificate entry is a team name, listed in strictly increasing index order, hence without duplicates. |
| `Standings.TrivialCertificate` | BaseballElimination.java:95-98 | When i is the first index that trivially eliminates the team, the answer is the singleton of name i. Name i is not the queried name, and no earlier team meets the condition. |
| `Standings.FlowCertificatePath` | BaseballElimination.java:100-103 | When no team is trivially eliminating, the answer is the flow certificate for the network built with source V-2, sink V-1 and the standard layout. |
| `Textbook.ExampleNames` | BaseballElimination.java:42 | In the example the four names are distinct and each resolves to its own line. |
| `Textbook.DEliminatedByA` | BaseballElimination.java:95-98 | D (at most 80 wins) is eliminated with certificate {A} (83 wins), whatever the solver. |
| `Textbook.UnknownTeamRejected` | BaseballElimination.java:93 | A name outside the division is rejected with IllegalArgument. |
| `Textbook.OthersPassTheScan` | BaseballElimination.java:95-99 | A, B and C are not trivially eliminated, so the flow network decides them. |
| `Textbook.BSinkCapacities` | BaseballElimination.java:158-159 | B's network has sink capacities 0, 3, 5, 6. |

## Left out

- Reading the input file through `In` (lines 31-39 and the `read*` calls) is not modelled. The constructor takes the already-parsed lines as `TeamRecord`s. Each line must carry one games-left entry per team, which the parser would otherwise fail on.
- `main` and its printing (lines 106-120) are left out.
- The `FordFulkerson` algorithm and its max-flow/min-cut optimality are left out. The solver is a parameter, and only its `inCut` answer is used.
  - So the model does not prove that a flow certificate really eliminates the team. It proves that the program reports exactly the teams the cut puts on the source side.
  - `SolveMaxFlow` returns that `inCut` predicate instead of the solver object.
- `FlowNetwork` and `FlowEdge` internals (adjacency lists, residual capacities) are left out. A network is its vertex count and its edge sequence in the order `addEdge` receives them.
- `double` capacities and `Double.POSITIVE_INFINITY` are modelled as `Finite(int)` and `Unbounded`. Every finite capacity the program builds is an `int`, which a `double` holds exactly.
- Java's 32-bit `int` arithmetic is modelled with unbounded integers. This covers `teamCount * (teamCount - 1)`, `wins + remaining` and the sink capacities. A division large enough to overflow them behaves differently in Java.
- The `int[]` columns and the `int[][]` matrix are `seq` constants built by appending. The constructor writes cell i of every column in iteration i, once and in index order, so the final contents are the same. Each matrix row is taken whole from its line rather than cell by cell.
- `idToTeams`, a `HashMap<Integer, String>` whose keys are exactly 0 .. teamCount-1, is a `seq<string>` indexed by the same keys.
- The order in which `teams()` iterates the hash map's keys is unspecified, so `Teams` returns the set of names.
- `AddColumn` is the body of `createFlowNetwork`'s outer loop, written as its own method. The expression `wins(team) + remaining(team)` is evaluated once before the loop rather than once per column. The division never changes, so the value is the same.
- FlowPathCapacitiesNonNegative: assumes distinct team names. With a repeated name, the scan skips an equally named team at another index, so that team's sink capacity can be negative.
- FlowCertificateMembers: assumes distinct team names, because with repeated names a name in the certificate does not identify one index.
- FlowCertificateOrdered: assumes distinct team names, for the same reason. A repeated name resolves to its last index only.
- CertificateOfElimination (and `Certificate`, which specifies it): does not reproduce the `IllegalArgumentException` that the library class `FlowEdge` (not part of this model) raises for a negative capacity. On the flow path the model returns the solver's certificate even when an edge capacity is negative, while the program throws. This happens with a repeated team name (the scan skips an equally named team with more wins, so its sink capacity is negative, lines 158-159), and with a negative `remaining[x]` or matrix entry (lines 151-152), which the program never validates. `FlowPathCapacitiesNonNegative` states the inputs for which no capacity is negative, so that the two agree.
- An exception is modelled as an `Err(IllegalArgument)` result that the caller returns at once.
