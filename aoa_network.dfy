/** construir_red_cpm (Red-CPM.py:1-124): builds an activity-on-arrow network.
    Activities are processed in waves; every activity becomes one edge between
    event nodes numbered by a counter, with dummy edges "Fic (src->conv)" into a
    fresh convergence node where its predecessors end on different nodes, and all
    final activities end on one terminal node created when first needed.

    The specification is ghost: `Step` is one iteration of the inner loop (lines
    57-113) and `Run` folds it over the wave order. The only freedom is the order
    of the dummy edges of one convergence, which follows Python's set iteration
    (line 79); the method reports the order it chose in the ghost `groups`. */
module AoaNetwork {
  import opened Base
  import opened Activities
  import opened Waves

  /** The 'actividad' text of an edge: an activity name, or the dummy label
      f'Fic ({nodo_fin}->{nodo_convergencia})' (line 81) kept as its two numbers. */
  datatype Label = Name(name: string) | Fic(src: int, conv: int)

  /** An entry of grafo_aristas: {actividad: act, inicio: source, fin: target}. */
  datatype Edge = Edge(act: Label, source: int, target: int)

  /** Node 1 is always the start node (lines 36-37). */
  const StartNode := 1

  function DigitChar(d: nat): char
    requires d < 10
  {
    "0123456789"[d]
  }

  /** Python's str() of an int. */
  function IntToString(i: int): string
  {
    if i < 0 then "-" + NatToString(-i) else NatToString(i)
  }

  function NatToString(n: nat): string
  {
    if n < 10 then [DigitChar(n)] else NatToString(n / 10) + [DigitChar(n % 10)]
  }

  /** The text of a label, as the post-pass compares it with activity names. */
  function LabelText(l: Label): string
  {
    match l
    case Name(n) => n
    case Fic(src, conv) => "Fic (" + IntToString(src) + "->" + IntToString(conv) + ")"
  }

  function DummyEdge(src: int, conv: int): Edge
  {
    Edge(Fic(src, conv), src, conv)
  }

  // ---------------------------------------------------------------------------
  // Pre-processing (lines 10-25)

  /** tareas: activity name -> set of predecessor names; a repeated name keeps its
      first position and takes the last predecessor set. */
  function Tasks(data: seq<Item>): Graph
  {
    if data == [] then []
    else
      var last := data[|data| - 1];
      Put(Tasks(data[..|data| - 1]), last.name, PreSet(last.spec))
  }

  /** tareas_predecesoras: every name listed as a predecessor by any record. */
  function AllPreds(data: seq<Item>): set<string>
  {
    if data == [] then {} else AllPreds(data[..|data| - 1]) + PreSet(data[|data| - 1].spec)
  }

  /** tareas_finales: the activities no record lists as a predecessor. */
  function Finals(data: seq<Item>): set<string>
  {
    Keys(Tasks(data)) - AllPreds(data)
  }

  lemma {:induction false} TasksShape(data: seq<Item>)
    ensures DistinctKeys(Tasks(data))
    ensures Keys(Tasks(data)) == Names(data)
  {
    if data != [] {
      TasksShape(data[..|data| - 1]);
      NamesSnoc(data);
    }
  }

  /** Every recorded predecessor set is part of tareas_predecesoras. */
  lemma {:induction false} TasksPreds(data: seq<Item>, x: string)
    requires x in Keys(Tasks(data))
    ensures Get(Tasks(data), x) <= AllPreds(data)
  {
    var front := data[..|data| - 1];
    var last := data[|data| - 1];
    TasksShape(front);
    if x != last.name {
      TasksPreds(front, x);
    }
  }

  /** tareas[actividad] = ... overwrites: the entry of a name holds the predecessor set
      of the last record with that name. */
  lemma {:induction false} TasksLast(data: seq<Item>, k: int)
    requires 0 <= k < |data|
    requires forall j :: k < j < |data| ==> data[j].name != data[k].name
    ensures data[k].name in Keys(Tasks(data))
    ensures Get(Tasks(data), data[k].name) == PreSet(data[k].spec)
  {
    var m := |data| - 1;
    var front, last := data[..m], data[m];
    var t := Tasks(front);
    assert Tasks(data) == Put(t, last.name, PreSet(last.spec));
    if k == m {
      assert data[k] == last;
    } else {
      assert front[k] == data[k];
      assert data[k].name != last.name;
      forall j | k < j < m ensures front[j].name != front[k].name {
        assert front[j] == data[j];
      }
      TasksLast(front, k);
      TasksShape(front);
      assert Get(Tasks(data), data[k].name) == Get(t, data[k].name);
    }
  }

  /** Every name a record lists is in tareas_predecesoras. */
  lemma {:induction false} AllPredsHas(data: seq<Item>, i: int)
    requires 0 <= i < |data|
    ensures PreSet(data[i].spec) <= AllPreds(data)
  {
    var m := |data| - 1;
    if i != m {
      assert data[..m][i] == data[i];
      AllPredsHas(data[..m], i);
    }
  }

  /** Every name in tareas_predecesoras is listed by some record. */
  lemma {:induction false} AllPredsFrom(data: seq<Item>, p: string) returns (i: int)
    requires p in AllPreds(data)
    ensures 0 <= i < |data| && p in PreSet(data[i].spec)
  {
    var m := |data| - 1;
    if p in PreSet(data[m].spec) {
      i := m;
    } else {
      i := AllPredsFrom(data[..m], p);
      assert data[..m][i] == data[i];
    }
  }

  /** tareas_predecesoras holds exactly the names some record lists as a predecessor. */
  lemma AllPredsIff(data: seq<Item>, p: string)
    ensures p in AllPreds(data) <==> exists i :: 0 <= i < |data| && p in PreSet(data[i].spec)
  {
    if p in AllPreds(data) {
      var i := AllPredsFrom(data, p);
    }
    if i :| 0 <= i < |data| && p in PreSet(data[i].spec) {
      AllPredsHas(data, i);
    }
  }

  /** Lines 15-22 as a loop. */
  method Preprocess(data: seq<Item>) returns (tasks: Graph, all: set<string>, preds: set<string>)
    ensures tasks == Tasks(data) && all == Keys(tasks) && preds == AllPreds(data)
    ensures DistinctKeys(tasks)
  {
    tasks, all, preds := [], {}, {};
    for i := 0 to |data|
      invariant tasks == Tasks(data[..i]) && all == Keys(tasks) && preds == AllPreds(data[..i])
      invariant DistinctKeys(tasks)
    {
      var item := data[i];
      assert data[..i + 1][..i] == data[..i];
      var predecessors := PreSet(item.spec);
      tasks := Put(tasks, item.name, predecessors);
      all := all + {item.name};
      preds := preds + predecessors;
    }
    assert data[..|data|] == data;
  }

  // ---------------------------------------------------------------------------
  // The specification of the main loop

  /** What one activity contributes: the dummy edges dummies -> start (only when it
      needed a convergence node) followed by its own edge start -> end. */
  datatype Block = Block(name: string, dummies: set<int>, start: int, end: int)

  /** The state of the loop: the blocks emitted so far, nodo_fin_actividad,
      nodo_counter and nodo_final_proyecto (-1 until created). */
  datatype Build = Build(blocks: seq<Block>, endNode: map<string, int>, counter: int, terminal: int)

  /** Before the loop: node 1 is the start node and the counter stands at 2 (lines 36-41). */
  function Init(): Build
  {
    Build([], map[], 2, -1)
  }

  /** The start node of an activity, its dummy sources and the counter after it. */
  datatype Opening = Opening(node: int, dummies: set<int>, counter: int)

  /** The end node of an activity, the terminal and the counter after it. */
  datatype Closing = Closing(node: int, terminal: int, counter: int)

  /** nodos_fin_predecesores (line 67). The wave order makes sure that every
      predecessor is already recorded when it is looked up. */
  function EndsOf(endNode: map<string, int>, pre: set<string>): set<int>
  {
    set p | p in pre && p in endNode :: endNode[p]
  }

  lemma SingletonElement(s: set<int>, a: int, b: int)
    requires |s| == 1 && a in s && b in s
    ensures a == b
  {
    assert |s - {a}| == 0;
    assert s - {a} == {};
  }

  lemma HasElement(s: set<int>)
    requires |s| > 0
    ensures exists e :: e in s
  {
    assert (forall e: int :: e !in s) ==> s == {};
  }

  /** The element of a one-element set, as set.pop() gives it (line 71). */
  ghost function Pick(s: set<int>): (e: int)
    requires |s| > 0
    ensures e in s
  {
    HasElement(s);
    var e :| e in s; e
  }

  /** Lines 60-87: node 1 without predecessors, the common end node when the
      predecessors all end on one node, otherwise a fresh convergence node. */
  ghost function Open(endNode: map<string, int>, counter: int, pre: set<string>): Opening
  {
    var ends := EndsOf(endNode, pre);
    if pre == {} then Opening(StartNode, {}, counter)
    else if |ends| == 1 then Opening(Pick(ends), {}, counter)
    else Opening(counter, ends, counter + 1)
  }

  /** Lines 90-102: a final activity ends on the terminal, created on first use;
      any other activity on a fresh node. */
  function Close(counter: int, terminal: int, final: bool): Closing
  {
    if final then
      if terminal == -1 then Closing(counter, counter, counter + 1)
      else Closing(terminal, terminal, counter)
    else Closing(counter, terminal, counter + 1)
  }

  /** One iteration of the inner loop for activity x (lines 57-113). */
  ghost function Step(b: Build, x: string, pre: set<string>, final: bool): (r: Build)
    ensures r.endNode.Keys == b.endNode.Keys + {x}
    ensures |r.blocks| == |b.blocks| + 1 && r.blocks[..|b.blocks|] == b.blocks
  {
    var op := Open(b.endNode, b.counter, pre);
    var cl := Close(op.counter, b.terminal, final);
    Build(b.blocks + [Block(x, op.dummies, op.node, cl.node)], b.endNode[x := cl.node], cl.counter, cl.terminal)
  }

  /** The loop state after processing the activities of o in this order. */
  ghost function Run(g: Graph, finals: set<string>, o: seq<string>): (b: Build)
    requires Elems(o) <= Keys(g)
    ensures b.endNode.Keys == Elems(o) && |b.blocks| == |o|
  {
    if o == [] then Init()
    else
      var front := o[..|o| - 1];
      var x := o[|o| - 1];
      assert o == front + [x];
      ElemsSnoc(front, x);
      Step(Run(g, finals, front), x, Get(g, x), x in finals)
  }

  /** The dummy edges of one convergence, in the chosen order. */
  function DummyEdges(srcs: seq<int>, conv: int): (es: seq<Edge>)
    ensures |es| == |srcs|
    ensures forall i :: 0 <= i < |srcs| ==> es[i] == DummyEdge(srcs[i], conv)
  {
    seq(|srcs|, i requires 0 <= i < |srcs| => DummyEdge(srcs[i], conv))
  }

  /** groups[i] lists the dummy sources of blocks[i], each once. */
  ghost predicate ValidGroups(blocks: seq<Block>, groups: seq<seq<int>>)
  {
    && |groups| == |blocks|
    && forall i :: 0 <= i < |blocks| ==> Distinct(groups[i]) && Elems(groups[i]) == blocks[i].dummies
  }

  /** grafo_aristas before the post-pass: each block's dummy edges, then its own edge. */
  function Flatten(blocks: seq<Block>, groups: seq<seq<int>>): seq<Edge>
    requires |groups| == |blocks|
  {
    if blocks == [] then []
    else
      var n := |blocks| - 1;
      Flatten(blocks[..n], groups[..n]) + DummyEdges(groups[n], blocks[n].start)
        + [Edge(Name(blocks[n].name), blocks[n].start, blocks[n].end)]
  }

  /** Lines 119-122 applied to one edge. */
  function Redirect(e: Edge, finals: set<string>, terminal: int): Edge
  {
    if LabelText(e.act) in finals && e.target != terminal then e.(target := terminal) else e
  }

  /** The post-pass (lines 117-122). */
  function PostPass(edges: seq<Edge>, finals: set<string>, terminal: int): (r: seq<Edge>)
    ensures |r| == |edges|
    ensures forall i :: 0 <= i < |edges| ==> r[i] == Redirect(edges[i], finals, terminal)
  {
    seq(|edges|, i requires 0 <= i < |edges| => Redirect(edges[i], finals, terminal))
  }

  /** The loop state at the end of a successful build. */
  ghost function Plan(data: seq<Item>): Build
    requires Resolvable(Tasks(data))
  {
    TasksShape(data);
    var g := Tasks(data);
    Run(g, Finals(data), TopOrder(g))
  }

  /** grafo_aristas as returned (line 124), for the dummy-edge order `groups`. */
  ghost function Network(data: seq<Item>, groups: seq<seq<int>>): seq<Edge>
    requires Resolvable(Tasks(data)) && |groups| == |Plan(data).blocks|
  {
    var b := Plan(data);
    PostPass(Flatten(b.blocks, groups), Finals(data), b.terminal)
  }

  // ---------------------------------------------------------------------------
  // The implementation

  /** The wave scan of lines 46-50. */
  method ComputeWave(tasks: Graph, processed: set<string>) returns (wave: seq<string>)
    ensures wave == Wave(tasks, processed)
  {
    wave := [];
    for i := 0 to |tasks|
      invariant wave == Wave(tasks[..i], processed)
    {
      var (activity, pre) := tasks[i];
      assert tasks[..i + 1][..i] == tasks[..i];
      assert forall k :: 0 <= k < i ==> (ReadyAt(tasks[..i + 1], k, processed) <==> ReadyAt(tasks[..i], k, processed));
      if activity !in processed && pre <= processed {
        wave := wave + [activity];
      }
    }
    assert tasks[..|tasks|] == tasks;
  }

  /** Lines 78-83: one dummy edge from every end node in `ends` to the convergence node,
      in the iteration order of the set. */
  method AddDummies(edges0: seq<Edge>, ends: set<int>, conv: int) returns (edges: seq<Edge>, ghost group: seq<int>)
    ensures Distinct(group) && Elems(group) == ends
    ensures edges == edges0 + DummyEdges(group, conv)
  {
    var es, rest := edges0, ends;
    ghost var gs: seq<int> := [];
    while rest != {}
      invariant rest <= ends && Distinct(gs)
      invariant Elems(gs) == ends - rest
      invariant es == edges0 + DummyEdges(gs, conv)
      decreases |rest|
    {
      HasElement(rest);
      var e :| e in rest;
      es := es + [DummyEdge(e, conv)];
      ElemsSnoc(gs, e);
      gs := gs + [e];
      rest := rest - {e};
    }
    edges, group := es, gs;
  }

  /** Lines 60-87: finds the start node, emitting the dummy edges of a convergence. */
  method FindStart(edges0: seq<Edge>, endNode: map<string, int>, counter0: int, pre: set<string>)
    returns (edges: seq<Edge>, node: int, counter: int, ghost group: seq<int>)
    requires pre <= endNode.Keys
    ensures var op := Open(endNode, counter0, pre);
            && node == op.node && counter == op.counter
            && Distinct(group) && Elems(group) == op.dummies
            && edges == edges0 + DummyEdges(group, node)
  {
    edges, counter, group := edges0, counter0, [];
    node := -1;
    if pre == {} {
      node := StartNode;
    } else {
      var ends := set p | p in pre :: endNode[p];
      assert ends == EndsOf(endNode, pre);
      if |ends| == 1 {
        HasElement(ends);
        var e :| e in ends;
        SingletonElement(ends, e, Pick(ends));
        node := e;
      } else {
        node := counter;
        counter := counter + 1;
        edges, group := AddDummies(edges0, ends, node);
      }
    }
  }

  /** The variables of the wave loop: grafo_aristas, nodo_fin_actividad,
      nodo_counter and nodo_final_proyecto. */
  datatype Loop = Loop(edges: seq<Edge>, endNode: map<string, int>, counter: int, terminal: int)

  /** What processing x does to the loop variables (lines 57-113) when the dummy
      edges of a convergence come out in the order `group`. */
  ghost function Emit(l: Loop, x: string, pre: set<string>, final: bool, group: seq<int>): Loop
  {
    var op := Open(l.endNode, l.counter, pre);
    var cl := Close(op.counter, l.terminal, final);
    Loop(l.edges + DummyEdges(group, op.node) + [Edge(Name(x), op.node, cl.node)], l.endNode[x := cl.node], cl.counter, cl.terminal)
  }

  /** The body of the inner loop for one activity (lines 57-113). */
  method ProcessActivity(edges0: seq<Edge>, endNode0: map<string, int>, counter0: int, terminal0: int,
                         x: string, pre: set<string>, isFinal: bool)
    returns (edges: seq<Edge>, endNode: map<string, int>, counter: int, terminal: int, ghost group: seq<int>)
    requires pre <= endNode0.Keys
    ensures Loop(edges, endNode, counter, terminal) == Emit(Loop(edges0, endNode0, counter0, terminal0), x, pre, isFinal, group)
    ensures Distinct(group) && Elems(group) == Open(endNode0, counter0, pre).dummies
  {
    var nodeStartCurrent;
    edges, nodeStartCurrent, counter, group := FindStart(edges0, endNode0, counter0, pre);
    terminal := terminal0;
    var nodeEndCurrent := -1;
    if isFinal {
      if terminal == -1 {
        terminal := counter;
        counter := counter + 1;
      }
      nodeEndCurrent := terminal;
    } else {
      nodeEndCurrent := counter;
      counter := counter + 1;
    }
    edges := edges + [Edge(Name(x), nodeStartCurrent, nodeEndCurrent)];
    endNode := endNode0[x := nodeEndCurrent];
  }

  /** The post-pass loop (lines 117-122), updating the edges in place. */
  method RedirectFinalEdges(edges0: seq<Edge>, finals: set<string>, terminal: int) returns (edges: seq<Edge>)
    ensures edges == PostPass(edges0, finals, terminal)
  {
    edges := edges0;
    for i := 0 to |edges|
      invariant |edges| == |edges0|
      invariant forall k :: 0 <= k < i ==> edges[k] == Redirect(edges0[k], finals, terminal)
      invariant forall k :: i <= k < |edges| ==> edges[k] == edges0[k]
    {
      if LabelText(edges[i].act) in finals && edges[i].target != terminal {
        edges := edges[i := edges[i].(target := terminal)];
      }
    }
  }

  /** The loop variables after processing `order` with the dummy edges of each
      convergence in the order `groups`; None when order or groups do not fit. */
  ghost function Expected(tasks: Graph, finals: set<string>, order: seq<string>, groups: seq<seq<int>>): Option<Loop>
  {
    if Elems(order) <= Keys(tasks) then
      var b := Run(tasks, finals, order);
      if ValidGroups(b.blocks, groups) then Some(Loop(Flatten(b.blocks, groups), b.endNode, b.counter, b.terminal))
      else None
    else None
  }

  /** The loop variables l are those Run reaches after `order`. */
  ghost predicate Agrees(tasks: Graph, finals: set<string>, order: seq<string>, groups: seq<seq<int>>, l: Loop)
  {
    Expected(tasks, finals, order, groups) == Some(l)
  }

  /** Processing x after order keeps the loop variables in step with Run. */
  lemma Advance(tasks: Graph, finals: set<string>, order: seq<string>, groups: seq<seq<int>>, l: Loop,
                x: string, group: seq<int>)
    requires Agrees(tasks, finals, order, groups, l) && x in Keys(tasks)
    requires Distinct(group) && Elems(group) == Open(l.endNode, l.counter, Get(tasks, x)).dummies
    ensures Agrees(tasks, finals, order + [x], groups + [group], Emit(l, x, Get(tasks, x), x in finals, group))
  {
    var b := Run(tasks, finals, order);
    ElemsSnoc(order, x);
    assert (order + [x])[..|order|] == order;
    var b' := Run(tasks, finals, order + [x]);
    assert b' == Step(b, x, Get(tasks, x), x in finals);
    var blk := b'.blocks[|b.blocks|];
    assert b'.blocks == b.blocks + [blk];
    FlattenSnoc(b.blocks, groups, blk, group);
  }

  lemma FlattenSnoc(blocks: seq<Block>, groups: seq<seq<int>>, blk: Block, group: seq<int>)
    requires ValidGroups(blocks, groups) && Distinct(group) && Elems(group) == blk.dummies
    ensures ValidGroups(blocks + [blk], groups + [group])
    ensures Flatten(blocks + [blk], groups + [group]) ==
            Flatten(blocks, groups) + DummyEdges(group, blk.start) + [Edge(Name(blk.name), blk.start, blk.end)]
  {
    assert (blocks + [blk])[..|blocks|] == blocks;
    assert (groups + [group])[..|groups|] == groups;
  }

  /** Bookkeeping for one step through a wave. */
  lemma WaveStep(order0: seq<string>, wave: seq<string>, j: int)
    requires 0 <= j < |wave|
    ensures (order0 + wave[..j]) + [wave[j]] == order0 + wave[..j + 1]
    ensures Elems(order0 + wave[..j + 1]) == Elems(order0 + wave[..j]) + {wave[j]}
  {
    assert wave[..j + 1] == wave[..j] + [wave[j]];
    ElemsSnoc(order0 + wave[..j], wave[j]);
  }

  lemma AgreesKeys(tasks: Graph, finals: set<string>, order: seq<string>, groups: seq<seq<int>>, l: Loop)
    requires Agrees(tasks, finals, order, groups, l)
    ensures l.endNode.Keys == Elems(order)
  {
  }

  /** One activity of a wave (lines 57-113), with the ghost bookkeeping. */
  method ProcessNext(tasks: Graph, finals: set<string>, x: string, ghost order: seq<string>, ghost groups: seq<seq<int>>,
                     edges0: seq<Edge>, endNode0: map<string, int>, counter0: int, terminal0: int)
    returns (edges: seq<Edge>, endNode: map<string, int>, counter: int, terminal: int, ghost group: seq<int>)
    requires x in Keys(tasks) && Get(tasks, x) <= Elems(order)
    requires Agrees(tasks, finals, order, groups, Loop(edges0, endNode0, counter0, terminal0))
    ensures Agrees(tasks, finals, order + [x], groups + [group], Loop(edges, endNode, counter, terminal))
  {
    ghost var l := Loop(edges0, endNode0, counter0, terminal0);
    AgreesKeys(tasks, finals, order, groups, l);
    edges, endNode, counter, terminal, group := ProcessActivity(edges0, endNode0, counter0, terminal0, x, Get(tasks, x), x in finals);
    Advance(tasks, finals, order, groups, l, x, group);
  }

  /** One wave of the inner loop (lines 56-113). */
  method ProcessWave(tasks: Graph, finals: set<string>, wave: seq<string>,
                     edges0: seq<Edge>, endNode0: map<string, int>, counter0: int, terminal0: int,
                     processed0: set<string>, ghost order0: seq<string>, ghost groups0: seq<seq<int>>)
    returns (edges: seq<Edge>, endNode: map<string, int>, counter: int, terminal: int,
             processed: set<string>, ghost order: seq<string>, ghost groups: seq<seq<int>>)
    requires processed0 == Elems(order0)
    requires forall y :: y in wave ==> y in Keys(tasks) && Get(tasks, y) <= processed0
    requires Agrees(tasks, finals, order0, groups0, Loop(edges0, endNode0, counter0, terminal0))
    ensures order == order0 + wave && processed == Elems(order)
    ensures Agrees(tasks, finals, order, groups, Loop(edges, endNode, counter, terminal))
  {
    var es, ends, c, t, done := edges0, endNode0, counter0, terminal0, processed0;
    ghost var o, gs := order0, groups0;
    for j := 0 to |wave|
      invariant o == order0 + wave[..j] && done == Elems(o) && processed0 <= done
      invariant Agrees(tasks, finals, o, gs, Loop(es, ends, c, t))
    {
      var x := wave[j];
      WaveStep(order0, wave, j);
      ghost var group := [];
      es, ends, c, t, group := ProcessNext(tasks, finals, x, o, gs, es, ends, c, t);
      gs := gs + [group];
      o := o + [x];
      done := done + {x};
    }
    edges, endNode, counter, terminal, processed, order, groups := es, ends, c, t, done, o, gs;
  }

  /** The wave loop (lines 27-113): ok is false when a wave comes out empty
      (line 52); otherwise the loop variables are those of Run on the order. */
  method BuildWaves(tasks: Graph, all: set<string>, finals: set<string>)
    returns (ok: bool, edges: seq<Edge>, endNode: map<string, int>, counter: int, terminal: int,
             ghost order: seq<string>, ghost groups: seq<seq<int>>)
    requires DistinctKeys(tasks) && all == Keys(tasks)
    ensures ok <==> Resolvable(tasks)
    ensures ok ==> OrderFrom(tasks, {}) == Some(order)
    ensures ok ==> Agrees(tasks, finals, order, groups, Loop(edges, endNode, counter, terminal))
  {
    var es: seq<Edge>, ends: map<string, int>, done: set<string> := [], map[], {};
    var c := StartNode + 1;
    var t := -1;
    ghost var o: seq<string>, gs: seq<seq<int>> := [], [];
    PrependAssoc([], [], OrderFrom(tasks, {}));
    while |done| < |all|
      invariant done == Elems(o) && done <= Keys(tasks)
      invariant OrderFrom(tasks, {}) == Prepend(o, OrderFrom(tasks, done))
      invariant Agrees(tasks, finals, o, gs, Loop(es, ends, c, t))
      decreases |Keys(tasks) - done|
    {
      var wave := ComputeWave(tasks, done);
      WaveFacts(tasks, done);
      if wave == [] {
        return false, es, ends, c, t, o, gs;
      }
      ghost var o0 := o;
      es, ends, c, t, done, o, gs := ProcessWave(tasks, finals, wave, es, ends, c, t, done, o, gs);
      ElemsConcat(o0, wave);
      PrependAssoc(o0, wave, OrderFrom(tasks, done));
    }
    WaveFacts(tasks, done);
    PrependAssoc(o, [], OrderFrom(tasks, done));
    return true, es, ends, c, t, o, gs;
  }

  /** construir_red_cpm: the network, or [] when some activity can never be processed. */
  method BuildNetwork(data: seq<Item>) returns (edges: seq<Edge>, ghost groups: seq<seq<int>>)
    ensures !Resolvable(Tasks(data)) ==> edges == []
    ensures Resolvable(Tasks(data)) ==>
      && ValidGroups(Plan(data).blocks, groups)
      && edges == Network(data, groups)
  {
    var tasks, all, preds := Preprocess(data);
    var finals := all - preds;
    var ok, endNode, counter, terminal;
    ghost var order;
    ok, edges, endNode, counter, terminal, order, groups := BuildWaves(tasks, all, finals);
    if !ok {
      return [], groups;
    }
    PlanIs(data, order, groups, Loop(edges, endNode, counter, terminal));
    edges := RedirectFinalEdges(edges, finals, terminal);
  }

  lemma PlanIs(data: seq<Item>, order: seq<string>, groups: seq<seq<int>>, l: Loop)
    requires OrderFrom(Tasks(data), {}) == Some(order)
    requires Agrees(Tasks(data), Finals(data), order, groups, l)
    ensures Resolvable(Tasks(data))
    ensures ValidGroups(Plan(data).blocks, groups)
    ensures l.edges == Flatten(Plan(data).blocks, groups) && l.terminal == Plan(data).terminal
  {
    TasksShape(data);
  }
}
