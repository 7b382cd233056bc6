# CPM networks and the critical path, in Dafny

This project models a small Critical Path Method toolkit. Its input is a list of activities, each given as
`[name, predecessors, duration]`. The predecessors are either the text `"-"` or a comma-separated list of
names. The project covers three pieces of the toolkit.

- **Successor map.** `encontrar_sucesores` (`Sucesores.py`) inverts the predecessor relation. It builds a
  dictionary that maps each activity to the activities that name it as a predecessor.
- **Activity-on-arrow network.** `construir_red_cpm` (`Red-CPM.py`) builds a network in which every activity
  is an edge between numbered event nodes.
  - Node 1 is the start node.
  - Activities are processed in waves. A wave is every activity whose predecessors have all been processed.
  - When an activity's predecessors end on different nodes, a fresh convergence node is allocated.
    Dummy edges labelled `Fic (src->conv)` lead from each predecessor end node into it.
  - Every final activity ends on one terminal node. That node is allocated the first time it is needed.
  - A post-pass redirects final edges onto the terminal node.
  - An activity that can never be processed (a cycle, or a predecessor that does not exist) makes the
    network empty (`[]`).
- **CPM times and routes.** `calcular_tiempos_cpm` (`ruta_critica.py`) computes the times of each activity:
  - the forward pass gives ES and EF (memoised recursion);
  - the project duration is the largest EF;
  - the backward pass gives LF and LS (visited-set recursion, with every final activity seeded at the
    project duration);
  - the slack is LS − ES.

  `encontrar_rutas_cpm` enumerates every route from a start activity to a final activity by depth-first
  search, then sorts the routes by duration, longest first.

Modules:

| module | contents |
|---|---|
| `Base` (base.dfy) | Option; Python dictionaries as association lists in insertion order (`Dict`, `Get`, `Put`); `Count`; `Elems` |
| `Activities` (activities.dfy) | The input item; `str.split(',')` and its inverse `Join`; the predecessor list and set of an item |
| `Successors` (successors.dfy) | The specification `SuccOf` and the imperative `FindSuccessors` |
| `Waves` (waves.dfy) | Wave scheduling over a dependency graph: `Wave`, `OrderFrom`, and the characterisation of failure as a stuck set |
| `AoaNetwork` (aoa_network.dfy) | The network builder: one ghost step function per inner-loop iteration, and the imperative methods proved to follow it |
| `AoaProperties`, `AoaEdges`, `AoaTheorems` | Invariants of the build, and the theorems about the resulting network |
| `CpmTable` (cpm_table.dfy) | The activity table of `ruta_critica.py` and its successor lists |
| `CpmTimes` (cpm_times.dfy) | The forward and backward recurrences, their characterisations, and the memoising passes as methods |
| `CpmRoutes` (cpm_routes.dfy) | The route search, the sort, and the critical-path theorems |

Modelling choices:

- Strings are `seq<char>`. `Split` is Python's `str.split(',')`.
- Durations are `nat`.
- `float('inf')` is the `Inf` case of `CpmTimes.Time`.
- The mutable dictionaries of `ruta_critica.py` are maps, or `Dict` association lists, held by imperative methods.
- The memoised closures `calcular_forward` and `calcular_backward` are recursive methods over memo tables.
  Each memo table equals a ghost function of the set of names settled so far.
- The methods of `construir_red_cpm` are proved, iteration by iteration, to follow the ghost `Step`/`Run` fold.
  The theorems are proved about that fold.
- Python iterates a set in an order the model cannot know. This affects only the order of the dummy edges of
  one convergence node (line 79). `BuildNetwork` therefore returns that order as a ghost `groups`, and the
  theorems hold for every valid choice.

Behaviour of the code that the model keeps exactly:

- **No trimming.** Predecessor tokens are not trimmed: `"a, b"` names the activities `"a"` and `" b"`.
- **No renumbering or sorting.** Nodes are numbered by the counter in allocation order. Edges stay in the
  order they are appended.
- **Failure returns `[]`.** `construir_red_cpm` prints a message and returns `[]` in both of these cases:
  - an undefined predecessor;
  - a cycle.
  No error value is produced.
- **The terminal node is allocated lazily**, the first time a final activity is met. The post-pass at
  lines 115-122 of `Red-CPM.py` then never changes an edge (`AoaTheorems.NetworkPostPassIdle`).
- **No self-loops.** Every dummy edge goes from an older node to a newer one (`AoaTheorems.NetworkDummies`).
- **Edges carry no durations.** An edge record holds only the label, `inicio` and `fin`.

## Model

| member | source | states |
|---|---|---|
| Base.Get | Sucesores.py:30-31 | The value read for a key is stored under that key, and with distinct keys it is the only one |
| Base.Put | Sucesores.py:31 | Dictionary assignment: the key maps to the new value and every other key keeps its value. An absent key is appended and a present key keeps its position. The keys stay distinct |
| Activities.Split | Sucesores.py:25 | `str.split(',')` yields at least one part, and no part contains a comma |
| Activities.SplitLength | Sucesores.py:25 | Splitting yields one more part than there are commas |
| Activities.JoinSplit | Sucesores.py:25 | Joining the parts with commas restores the text |
| Activities.SplitJoin | Sucesores.py:25 | Splitting a comma-joined list of comma-free parts gives the parts back |
| Activities.PredList | ruta_critica.py:10 | The predecessor list is empty exactly when the field is `"-"` |
| Activities.PredListJoin | ruta_critica.py:10 | The predecessor list of any other field joins back to the field |
| Activities.PreSet | Red-CPM.py:17 | The predecessor set has the same members as the split list, and is empty exactly for `"-"` |
| Activities.Names | Red-CPM.py:21 | The set of names holds every item's name and nothing else |
| Successors.SuccOfAppend | Sucesores.py:16-31 | Successors accumulate in item order: the successors of a concatenation are the concatenated successors |
| Successors.NoPredecessorsNoSuccessors | Sucesores.py:20-22 | An item whose field is `"-"` contributes no successor to any activity |
| Successors.SuccessorSound | Sucesores.py:16-31 | Every listed successor of p is an item that names p as a predecessor |
| Successors.SuccessorComplete | Sucesores.py:16-31 | Every item that names p is listed as a successor of p |
| Successors.SuccessorIff | Sucesores.py:16-31 | x is a successor of p exactly when some item named x lists p |
| Successors.SuccessorMultiplicity | Sucesores.py:28-31 | x occurs among p's successors as often as p occurs in the predecessor lists of items named x |
| Successors.TotalSuccessors | Sucesores.py:28-31 | The lengths of the successor lists of distinct keys add up to the number of references to those keys |
| Successors.TotalOfDict | Sucesores.py:12-31 | The successor lists of the dictionary hold, in total, exactly the references to defined activities; unknown names are dropped |
| Base.Dedup | Sucesores.py:12 | The distinct elements in order of first occurrence, each once |
| Successors.EmptyLists | Sucesores.py:9-12 | The initial dictionary has one empty list per distinct activity name |
| Successors.EmptyListsOrder | Sucesores.py:9-12 | The keys of the initial dictionary are the names in order of first occurrence |
| Successors.NameList | Sucesores.py:9 | The name list holds exactly the item names |
| Successors.AppendSuccessor | Sucesores.py:28-31 | The inner loop appends the current activity once to each known predecessor for every occurrence, and skips unknown names. The keys and their order are unchanged |
| Successors.FillSuccessors | Sucesores.py:16-31 | After the outer loop, every key maps to its successor list `SuccOf`. The keys and their order are unchanged |
| Successors.FindSuccessors | Sucesores.py:1-33 | The result has distinct keys, exactly the activity names, in order of first occurrence. Each value is that activity's successor list |
| Waves.Wave | Red-CPM.py:46-50 | The wave holds exactly the unprocessed activities whose predecessors are all processed, once each |
| Waves.WaveGet | Red-CPM.py:49 | Membership in the wave, stated through the dictionary lookup |
| Waves.WaveProgress | Red-CPM.py:44-113 | A nonempty wave strictly reduces the number of unprocessed activities, so the outer loop terminates |
| Waves.WaveFacts | Red-CPM.py:44-54 | Once everything is processed the order ends. An empty wave before that means failure. Otherwise the order is the wave followed by the rest |
| Waves.ScheduleConcat | Red-CPM.py:44-113 | A wave of ready activities followed by a valid schedule of the rest is a valid schedule |
| Waves.OrderFromSchedule | Red-CPM.py:44-113 | A successful wave order processes every activity after all of its predecessors, each exactly once |
| Waves.FailureIsStuck | Red-CPM.py:52-54 | When the waves fail, some nonempty set of activities each has an unprocessable predecessor in that set or outside the table: a cycle or a broken dependency |
| Waves.StuckIsFailure | Red-CPM.py:52-54 | Such a stuck set makes the waves fail |
| Waves.FailureIffStuck | Red-CPM.py:52-54 | The error path is taken exactly when a stuck set exists |
| Waves.TopOrder | Red-CPM.py:44-113 | The processing order lists every activity once, each after all of its predecessors |
| Waves.PosDeps | Red-CPM.py:49 | Every predecessor of an activity is processed strictly before it |
| AoaNetwork.TasksShape | Red-CPM.py:15-20 | `tareas` has distinct keys, and they are exactly the activity names |
| AoaNetwork.TasksPreds | Red-CPM.py:17-22 | Every stored predecessor set lies within the union of all predecessors |
| AoaNetwork.TasksLast | Red-CPM.py:15-20 | A name that is not repeated later maps to the predecessor set of its last item |
| AoaNetwork.AllPredsIff | Red-CPM.py:22 | A name is in `tareas_predecesoras` exactly when some item lists it |
| AoaNetwork.Preprocess | Red-CPM.py:15-22 | The loop produces `tareas`, `todas_las_tareas` (the keys of `tareas`) and `tareas_predecesoras` |
| AoaNetwork.Pick | Red-CPM.py:71 | `pop()` of a nonempty set yields a member |
| AoaNetwork.Step | Red-CPM.py:57-113 | One activity adds one end-node entry and appends exactly one block, keeping the earlier blocks |
| AoaNetwork.Run | Red-CPM.py:44-113 | Folding the steps over the order records an end node for every processed activity, and one block each |
| AoaNetwork.DummyEdges | Red-CPM.py:79-85 | One dummy edge per end node, labelled `Fic (src->conv)`, from that node to the convergence node |
| AoaNetwork.PostPass | Red-CPM.py:117-122 | The post-pass keeps the number of edges and redirects each edge independently |
| AoaNetwork.ComputeWave | Red-CPM.py:46-50 | The scan of `tareas` computes the wave |
| AoaNetwork.AddDummies | Red-CPM.py:76-87 | The loop over the end nodes visits each end node once, and appends its dummy edges to the edge list |
| AoaNetwork.FindStart | Red-CPM.py:59-87 | The start node, the counter and the appended dummy edges are those of `Open` |
| AoaNetwork.ProcessActivity | Red-CPM.py:57-113 | One inner-loop iteration carries out the ghost step on the edge list, end-node map, counter and terminal |
| AoaNetwork.RedirectFinalEdges | Red-CPM.py:117-122 | The post-pass loop equals `PostPass` |
| AoaNetwork.Advance | Red-CPM.py:56-113 | Processing one more activity keeps the loop state equal to the fold over the order so far |
| AoaNetwork.ProcessNext | Red-CPM.py:56-113 | Processing one ready activity extends the order and keeps the state in agreement |
| AoaNetwork.ProcessWave | Red-CPM.py:56-113 | Processing a wave appends it to the order and keeps the state in agreement with the fold |
| AoaNetwork.BuildWaves | Red-CPM.py:27-113 | The outer loop succeeds exactly when the dependencies are resolvable. Its order is then the wave order, and its state is the fold over it |
| AoaNetwork.BuildNetwork | Red-CPM.py:1-124 | The result is `[]` on the error path (every case where the waves get stuck). Otherwise it is the network of the wave order, for the dummy order chosen, which is also `[]` for empty input |
| AoaNetwork.PlanIs | Red-CPM.py:27-124 | A successful loop state is the fold that defines the network |
| AoaProperties.RunInRange | Red-CPM.py:36-102 | Every allocated node lies between 2 and the counter. The start is 1 or an allocated node. Dummy sources are older than their convergence node |
| AoaProperties.RunLayout | Red-CPM.py:89-102 | Every final activity ends on the terminal node. Every other activity ends on a node of its own, which is not the terminal |
| AoaProperties.RunFresh | Red-CPM.py:76-77 | Every convergence node is fresh. It is not the terminal, no activity ends on it, and no other convergence shares it |
| AoaProperties.StepLinked | Red-CPM.py:62-87 | A new block starts on node 1 exactly without predecessors. It starts on the shared end node when all predecessors share it. Otherwise it has dummy edges from exactly their (at least two) end nodes |
| AoaProperties.BlocksMatchSnoc | Red-CPM.py:57-113 | The blocks of an order match its activities when the front matches and the last block is the last activity's |
| AoaProperties.RunBlocks | Red-CPM.py:57-113 | Every block of the fold is its activity's edge, ending where that activity ends and linked to its predecessors' end nodes |
| AoaEdges.ActsFlatten | Red-CPM.py:85-109 | Without the dummy edges, the edge list is the activity edges in processing order |
| AoaEdges.FlattenMember | Red-CPM.py:85-109 | Every edge is an activity edge or a dummy edge into some block's start |
| AoaEdges.DummyInFlatten | Red-CPM.py:79-85 | Each chosen dummy source gives an edge into its convergence node |
| AoaEdges.FlattenLength | Red-CPM.py:79-109 | There are as many edges as activities plus dummy edges |
| AoaEdges.ActsPostPass | Red-CPM.py:117-122 | The post-pass and the removal of dummy edges commute |
| AoaEdges.PostPassKeepsBlocks | Red-CPM.py:117-122 | Activity edges that already end on the terminal are left unchanged |
| AoaTheorems.PlanOrder | Red-CPM.py:44-113 | The wave order lists every activity once, each after its predecessors |
| AoaTheorems.PlanBuilt | Red-CPM.py:27-113 | The fold over the wave order satisfies all the build invariants |
| AoaTheorems.NetworkActivities | Red-CPM.py:104-113 | Every activity has exactly one edge, and the activity edges follow the processing order |
| AoaTheorems.NetworkEndNodes | Red-CPM.py:89-102 | An activity edge ends on the terminal exactly when the activity is final; distinct non-final activities end on distinct nodes |
| AoaTheorems.NetworkStart | Red-CPM.py:62-64 | An activity edge leaves node 1 exactly when the activity has no predecessors, and no edge enters node 1 |
| AoaTheorems.NetworkPrecedence | Red-CPM.py:62-87 | For every precedence p → x, p's edge ends where x's edge starts, or a dummy edge joins the two nodes |
| AoaTheorems.NetworkDummies | Red-CPM.py:73-87 | Every dummy edge is labelled with its own source and target, and goes from an older node to a newer one: never a self-loop |
| AoaTheorems.FlatConvergence | Red-CPM.py:76-87 | Before the post-pass, the edges entering a convergence node are exactly the dummy edges created for it |
| AoaTheorems.NetworkConvergence | Red-CPM.py:73-87 | The edges of the network entering a convergence node are exactly its dummy edges, one from each predecessor end node |
| AoaTheorems.NetworkPostPassIdle | Red-CPM.py:115-122 | The post-pass never redirects an edge: the network is the wave loop's edge list |
| AoaTheorems.NetworkSize | Red-CPM.py:79-109 | The network has one edge per activity plus one per dummy source |
| CpmTable.TableShape | ruta_critica.py:7-21 | `actividades` has distinct keys, exactly the activity names |
| CpmTable.TableLast | ruta_critica.py:8-21 | A name that is not repeated later holds its last item's predecessor list and duration |
| CpmTable.BuildTable | ruta_critica.py:7-21 | The loop builds the table |
| CpmTable.DepGraphGet | ruta_critica.py:36-37 | The followed predecessors of an activity are its listed predecessors other than `"-"` |
| CpmTable.RankDeps | ruta_critica.py:30-43 | Under acyclicity, every followed predecessor is an activity of lower rank |
| CpmTable.ReadyDefined | ruta_critica.py:27 | An acyclic table names only defined predecessors, so the lookup at line 27 never fails |
| CpmTable.SuccIff | ruta_critica.py:23-27 | x is a successor of p exactly when x is an activity that lists p |
| CpmTable.SuccRank | ruta_critica.py:23-27 | Successors rank strictly above their predecessor |
| CpmTable.SuccCount | ruta_critica.py:23-27 | x occurs among p's successors as often as p occurs in x's predecessor list |
| CpmTable.SuccSource | ruta_critica.py:23-27 | Every successor is an activity |
| CpmTable.LinkSuccessors | ruta_critica.py:23-27 | The loop gives every activity its successor list `Succ` |
| CpmTable.FinalList | ruta_critica.py:53-54 | The final activities are exactly those without successors, in table order |
| CpmTimes.NetShape | ruta_critica.py:7-27 | The map view has the same activities, successors and ranks for every name |
| CpmTimes.NetLinked | ruta_critica.py:23-27 | Every activity is among the successors of each of its predecessors |
| CpmTimes.NetReady | ruta_critica.py:7-27 | An acyclic table gives a ranked, linked view with distinct names |
| CpmTimes.MaxOf | ruta_critica.py:50 | `max()` of a nonempty sequence is an element, and no element exceeds it |
| CpmTimes.MaxEFBounds | ruta_critica.py:35-39 | The running maximum bounds every scanned predecessor's EF, and is 0 or one of them |
| CpmTimes.EarlyStart | ruta_critica.py:34-43 | ES is 0 without predecessors. Otherwise it is at least every predecessor's EF, and equals one of them |
| CpmTimes.DurationIsMax | ruta_critica.py:50 | The project duration bounds every EF and is reached by some activity |
| CpmTimes.MinSuccessorLS | ruta_critica.py:75-77 | The loop computes the smallest LS of the successors |
| CpmTimes.MinLSBounds | ruta_critica.py:75-77 | The running minimum is finite once a successor is scanned, bounds each scanned successor's LS, and equals one of them |
| CpmTimes.LateFinish | ruta_critica.py:58-59 | A final activity finishes late at the project duration. Otherwise its LF is at most every successor's LS and equals one of them |
| CpmTimes.LateFinishBound | ruta_critica.py:58-79 | No LF exceeds the project duration |
| CpmTimes.SlackNonnegative | ruta_critica.py:88-89 | Slack equals LF − EF and is never negative |
| CpmTimes.CriticalActivity | ruta_critica.py:88-89 | Some activity has zero slack |
| CpmTimes.Forward | ruta_critica.py:30-43 | The memoised recursion returns EF(x), and leaves every memo entry equal to the recurrence over a larger settled set containing x |
| CpmTimes.ForwardPass | ruta_critica.py:45-47 | After the loop every ES and EF entry is the recurrence's value |
| CpmTimes.DurationOfMemo | ruta_critica.py:50 | The maximum over the EF memo is the project duration |
| CpmTimes.SeedFinals | ruta_critica.py:58-60 | The final activities are seeded with LF = duration and LS = duration − dur; all others stay infinite |
| CpmTimes.Conclude | ruta_critica.py:73-81 | Settling a visited activity writes its LF and LS as the recurrence says (finals keep their seed) |
| CpmTimes.Backward | ruta_critica.py:65-81 | The visited-set recursion settles x and keeps every memo entry equal to the recurrence |
| CpmTimes.BackwardPass | ruta_critica.py:56-85 | After the loop every LS and LF entry is finite and equals the recurrence |
| CpmTimes.SlackPass | ruta_critica.py:87-89 | The slack loop yields the table of ES, EF, LS, LF and slack of every activity |
| CpmTimes.TimesTableGet | ruta_critica.py:88-91 | Every activity's row in the result holds its recurrence values |
| CpmTimes.FinalsListed | ruta_critica.py:53-54 | `finales` holds exactly the activities without successors |
| CpmTimes.LinkTable | ruta_critica.py:7-27 | The table and successor loops give the table and its successor map |
| CpmTimes.Prepare | ruta_critica.py:7-54 | The set-up yields the ranked, linked view of the table and the final activities |
| CpmTimes.Times | ruta_critica.py:45-91 | The passes return the times table and the project duration |
| CpmTimes.CpmTimes | ruta_critica.py:1-91 | `calcular_tiempos_cpm` returns, for every activity, its ES, EF, LS, LF and slack as the recurrences define them, and the project duration |
| CpmRoutes.StartList | ruta_critica.py:113-114 | `inicio` holds exactly the activities whose predecessor list is empty or `["-"]` |
| CpmRoutes.WeightConcat | ruta_critica.py:121 | Route durations add up over concatenation |
| CpmRoutes.RoutesFromSound | ruta_critica.py:119-128 | Every route the search appends extends the current path, through x, along a successor chain to a final activity, and carries its duration |
| CpmRoutes.RoutesFromComplete | ruta_critica.py:119-128 | Every successor chain from x to a final activity is found |
| CpmRoutes.RouteSound | ruta_critica.py:113-132 | Every route runs from a start activity to a final activity along successors, and its length is its duration |
| CpmRoutes.RouteComplete | ruta_critica.py:113-132 | Every such chain is among the routes |
| CpmRoutes.Search | ruta_critica.py:119-128 | `buscar_rutas` appends exactly the routes `RoutesFrom` describes |
| CpmRoutes.SearchAll | ruta_critica.py:130-132 | The loop over `inicio` collects the routes of every start activity in order |
| CpmRoutes.SortDescending | ruta_critica.py:134 | The sorted routes are in non-increasing duration |
| CpmRoutes.SortPerm | ruta_critica.py:134 | The sorted routes are a permutation of the routes |
| CpmRoutes.SortStable | ruta_critica.py:134 | Routes of equal duration keep their relative order |
| CpmRoutes.FindRoutes | ruta_critica.py:94-135 | `encontrar_rutas_cpm` returns every route sorted by duration, longest first, stably |
| CpmRoutes.ChainBound | ruta_critica.py:34-43 | Along a successor chain, the durations fit between the first ES and the last EF |
| CpmRoutes.RouteBound | ruta_critica.py:119-128 | No route is longer than the project duration |
| CpmRoutes.CriticalHead | ruta_critica.py:34-43 | Following predecessors whose EF sets ES leads back to a start as a chain, whose duration is EF(x) |
| CpmRoutes.CriticalTail | ruta_critica.py:58-79 | From an activity finishing at the project duration, successors with the same EF lead to a final activity |
| CpmRoutes.CriticalChain | ruta_critica.py:29-89 | Some chain from a start to a final activity is exactly as long as the project |
| CpmRoutes.EarlyAlong | ruta_critica.py:34-43 | Along a chain, each activity starts early no sooner than the durations before it |
| CpmRoutes.LateAlong | ruta_critica.py:73-79 | Along a chain to a final activity, each LF plus the later durations stays within the project duration |
| CpmRoutes.ZeroSlackAt | ruta_critica.py:88-89 | On a chain as long as the project, every activity has zero slack |
| CpmRoutes.CriticalPath | ruta_critica.py:88-89 | A continuous path of zero-slack activities runs from a start activity to a final one, and is as long as the project |
| CpmRoutes.CriticalRoute | ruta_critica.py:113-132 | Some route found is as long as the project |
| CpmRoutes.LongestRoute | ruta_critica.py:134-135 | The first route of the sorted result is as long as the project duration |

## Left out

- Printing. The error message at line 53 of `Red-CPM.py`, the example data and the display code after each
  function are output only and are not modelled. `mostrar_analisis_completo` only prints the results it
  obtains from the two modelled functions.
- The unused `dur` field that `construir_red_cpm` stores (line 20 of `Red-CPM.py`) is kept in the item but
  never read, as in the code.
- The order of Python's set iteration (lines 67-79 of `Red-CPM.py`) is unknown to the model. It only orders
  the dummy edges of one convergence node. `AoaNetwork.BuildNetwork` exposes the order it used as a ghost
  parameter.
- Durations are natural numbers. Floating-point and negative durations are not modelled.
- `float('inf')` is `CpmTimes.Time.Inf`. After the backward pass every LF and LS is finite.
- Dictionaries updated in place (`actividades[nodo]['ES'] = …`) are modelled as separate memo maps, one per
  field. `CpmTimes.SlackPass` assembles the rows only at the end. Aliasing between the nested records does
  not arise in the code and is not modelled.
- `rutas`, which `buscar_rutas` appends to as a variable of its enclosing scope, is threaded through
  `CpmRoutes.Search` as an in/out value.
- The rank that orders activities for the recursion proofs is ghost. It has no counterpart in the code.
- Python's recursion limit is not modelled.
- CpmTimes.CpmTimes requires a nonempty table without cycles or undefined predecessors. On other input the
  code raises KeyError (an undefined predecessor at line 27), recurses without end (a cycle at line 38), or
  applies `max()` to an empty sequence (line 50). None of these is a result to model.
- CpmRoutes.FindRoutes requires a table without cycles or undefined predecessors, the condition of
  CpmTimes.CpmTimes. That condition comes from `calcular_tiempos_cpm`, whose recursion at line 38 diverges on
  every cycle. The route search itself fails only on two kinds of input:
  - an undefined predecessor (KeyError at line 111);
  - a cycle reachable from `inicio` (unbounded recursion at line 128).
  On input whose cycles no start activity reaches, the code still returns the routes it finds. The model
  excludes such input and does not describe that result.
- CpmRoutes.LongestRoute, CpmRoutes.CriticalRoute, CpmRoutes.CriticalChain and CpmRoutes.CriticalPath also
  require that every activity without followed predecessors appears in `inicio`. A predecessor list such as
  `"-,-"` is skipped token by token at lines 36-37, yet it is not a start at lines 113-114. Such an activity
  has ES 0 but begins no route.
- AoaTheorems.NetworkPrecedence, AoaTheorems.NetworkDummies, AoaTheorems.NetworkConvergence and
  AoaTheorems.NetworkPostPassIdle assume that
  no final activity is named like a dummy label, e.g. `Fic (2->5)`. The post-pass at lines 117-122 compares
  edge labels with final names as text. Such a name would otherwise redirect that dummy edge.
