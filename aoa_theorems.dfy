/** The guarantees of the network construir_red_cpm (Red-CPM.py:1-124) returns for input
    whose wave loop finishes, stated on the edge list itself. Position i of the
    activity edges belongs to o[i], the i-th activity of the processing order. */
module AoaTheorems {
  import opened Base
  import opened Activities
  import opened Waves
  import opened AoaNetwork
  import opened AoaProperties
  import opened AoaEdges

  // ---------------------------------------------------------------------------
  // A loop state with the invariants of Run, and the edges it yields

  /** The loop state b was built along o and keeps the invariants of Run. */
  ghost predicate Built(b: Build, g: Graph, o: seq<string>, finals: set<string>)
  {
    && PredsFirst(g, o) && InRange(b) && EndLayout(b, finals) && BlocksMatch(b, g, o)
    && finals <= b.endNode.Keys
  }

  /** The activity edge at position i is the edge of o[i]. */
  lemma BuiltActs(b: Build, g: Graph, o: seq<string>, finals: set<string>, groups: seq<seq<int>>)
    requires Built(b, g, o, finals) && |groups| == |b.blocks|
    ensures var a := Acts(PostPass(Flatten(b.blocks, groups), finals, b.terminal));
            && |a| == |o|
            && forall i :: 0 <= i < |o| ==> a[i] == Edge(Name(o[i]), b.blocks[i].start, b.endNode[o[i]])
  {
    ActsPostPass(Flatten(b.blocks, groups), finals, b.terminal);
    ActsFlatten(b.blocks, groups);
    PostPassKeepsBlocks(b.blocks, finals, b.terminal);
  }

  lemma BuiltEnds(b: Build, g: Graph, o: seq<string>, finals: set<string>, groups: seq<seq<int>>)
    requires Built(b, g, o, finals) && |groups| == |b.blocks|
    ensures var a := Acts(PostPass(Flatten(b.blocks, groups), finals, b.terminal));
            && |a| == |o|
            && (forall i :: 0 <= i < |o| ==> (o[i] in finals <==> a[i].target == b.terminal))
            && (forall i, j :: 0 <= i < |o| && 0 <= j < |o| && i != j && o[i] !in finals ==> a[i].target != a[j].target)
  {
    BuiltActs(b, g, o, finals, groups);
  }

  /** An edge of the flattened blocks never enters node 1. */
  lemma FlatTarget(b: Build, groups: seq<seq<int>>, e: Edge)
    requires InRange(b) && ValidGroups(b.blocks, groups) && e in Flatten(b.blocks, groups)
    ensures e.target >= 2
  {
    FlattenMember(b.blocks, groups, e);
    var i :| 0 <= i < |b.blocks| &&
      (e == BlockEdge(b.blocks[i]) || (e == DummyEdge(e.source, b.blocks[i].start) && e.source in groups[i]));
    assert BlockInRange(b.blocks[i], b.counter);
    if e != BlockEdge(b.blocks[i]) {
      assert e.source in b.blocks[i].dummies;
    }
  }

  /** A dummy edge of the flattened blocks is labelled with its own two nodes and runs
      from a lower node to a higher one, so it is no self-loop. */
  lemma FlatDummy(b: Build, groups: seq<seq<int>>, e: Edge)
    requires InRange(b) && ValidGroups(b.blocks, groups) && e in Flatten(b.blocks, groups) && e.act.Fic?
    ensures e == DummyEdge(e.source, e.target) && e.source < e.target
  {
    FlattenMember(b.blocks, groups, e);
    var i :| 0 <= i < |b.blocks| &&
      (e == BlockEdge(b.blocks[i]) || (e == DummyEdge(e.source, b.blocks[i].start) && e.source in groups[i]));
    assert BlockInRange(b.blocks[i], b.counter);
    assert e.source in b.blocks[i].dummies;
  }

  lemma NoEdgeIntoStart(b: Build, g: Graph, o: seq<string>, finals: set<string>, groups: seq<seq<int>>)
    requires Built(b, g, o, finals) && ValidGroups(b.blocks, groups)
    ensures var e := PostPass(Flatten(b.blocks, groups), finals, b.terminal);
            forall k :: 0 <= k < |e| ==> e[k].target != StartNode
  {
    var f := Flatten(b.blocks, groups);
    forall k | 0 <= k < |f| ensures Redirect(f[k], finals, b.terminal).target != StartNode {
      FlatTarget(b, groups, f[k]);
      var x := LabelText(f[k].act);
      if x in finals {
        assert x in b.endNode && b.endNode[x] == b.terminal;
      }
    }
  }

  lemma BuiltStart(b: Build, g: Graph, o: seq<string>, finals: set<string>, groups: seq<seq<int>>)
    requires Built(b, g, o, finals) && |groups| == |b.blocks|
    ensures var a := Acts(PostPass(Flatten(b.blocks, groups), finals, b.terminal));
            && |a| == |o|
            && forall i :: 0 <= i < |o| ==> (a[i].source == StartNode <==> Get(g, o[i]) == {})
  {
    BuiltActs(b, g, o, finals, groups);
  }

  /** No final activity bears the text of a dummy edge, so the post-pass leaves the
      dummy edges alone. */
  ghost predicate NoDummyNames(finals: set<string>)
  {
    forall src, conv :: LabelText(Fic(src, conv)) !in finals
  }

  lemma BuiltPrecedence(b: Build, g: Graph, o: seq<string>, finals: set<string>, groups: seq<seq<int>>)
    requires Built(b, g, o, finals) && ValidGroups(b.blocks, groups) && NoDummyNames(finals)
    ensures var e := PostPass(Flatten(b.blocks, groups), finals, b.terminal);
            var a := Acts(e);
            && |a| == |o|
            && forall i, j :: 0 <= i < |o| && 0 <= j < |o| && o[j] in Get(g, o[i]) ==>
                 a[j].target == a[i].source || DummyEdge(a[j].target, a[i].source) in e
  {
    var f := Flatten(b.blocks, groups);
    var e := PostPass(f, finals, b.terminal);
    var a := Acts(e);
    BuiltActs(b, g, o, finals, groups);
    forall i, j | 0 <= i < |o| && 0 <= j < |o| && o[j] in Get(g, o[i])
      ensures a[j].target == a[i].source || DummyEdge(a[j].target, a[i].source) in e
    {
      var blk := b.blocks[i];
      var d := b.endNode[o[j]];
      assert Linked(blk, Get(g, o[i]), b.endNode);
      if blk.dummies != {} {
        assert d in EndsOf(b.endNode, Get(g, o[i]));
        assert d in groups[i];
        DummyInFlatten(b.blocks, groups, i, d);
        PostPassKeeps(f, finals, b.terminal, DummyEdge(d, blk.start));
      }
    }
  }

  // ---------------------------------------------------------------------------
  // The network of the input

  /** The processing order of the input: its activities, each once, each after all of
      its predecessors. */
  lemma PlanOrder(data: seq<Item>)
    requires Resolvable(Tasks(data))
    ensures DistinctKeys(Tasks(data))
    ensures PredsFirst(Tasks(data), TopOrder(Tasks(data)))
    ensures Elems(TopOrder(Tasks(data))) == Names(data)
  {
    TasksShape(data);
  }

  lemma PlanBuilt(data: seq<Item>)
    requires Resolvable(Tasks(data))
    ensures DistinctKeys(Tasks(data))
    ensures Built(Plan(data), Tasks(data), TopOrder(Tasks(data)), Finals(data))
  {
    PlanOrder(data);
    var g := Tasks(data);
    var o := TopOrder(g);
    RunInRange(g, Finals(data), o);
    RunLayout(g, Finals(data), o);
    RunBlocks(g, Finals(data), o);
  }

  /** Every activity of the input has exactly one edge: the activity edges follow the
      processing order, which lists each activity once. */
  lemma NetworkActivities(data: seq<Item>, groups: seq<seq<int>>)
    requires Resolvable(Tasks(data)) && ValidGroups(Plan(data).blocks, groups)
    ensures DistinctKeys(Tasks(data))
    ensures var o := TopOrder(Tasks(data));
            var a := Acts(Network(data, groups));
            && Distinct(o) && Elems(o) == Names(data)
            && |a| == |o| && forall i :: 0 <= i < |o| ==> a[i].act == Name(o[i])
  {
    PlanOrder(data);
    PlanBuilt(data);
    BuiltActs(Plan(data), Tasks(data), TopOrder(Tasks(data)), Finals(data), groups);
  }

  /** Lines 89-102 and 117-122: an activity edge ends on the terminal exactly when the
      activity is final; a non-final activity's end node is its own. */
  lemma NetworkEndNodes(data: seq<Item>, groups: seq<seq<int>>)
    requires Resolvable(Tasks(data)) && ValidGroups(Plan(data).blocks, groups)
    ensures DistinctKeys(Tasks(data))
    ensures var o := TopOrder(Tasks(data));
            var a := Acts(Network(data, groups));
            && |a| == |o|
            && (forall i :: 0 <= i < |o| ==> (o[i] in Finals(data) <==> a[i].target == Plan(data).terminal))
            && (forall i, j :: 0 <= i < |o| && 0 <= j < |o| && i != j && o[i] !in Finals(data) ==>
                  a[i].target != a[j].target)
  {
    PlanBuilt(data);
    BuiltActs(Plan(data), Tasks(data), TopOrder(Tasks(data)), Finals(data), groups);
    BuiltEnds(Plan(data), Tasks(data), TopOrder(Tasks(data)), Finals(data), groups);
  }

  /** Lines 62-64: an activity edge leaves node 1 exactly when the activity has no
      predecessors, and no edge, dummy or not, enters node 1. */
  lemma NetworkStart(data: seq<Item>, groups: seq<seq<int>>)
    requires Resolvable(Tasks(data)) && ValidGroups(Plan(data).blocks, groups)
    ensures DistinctKeys(Tasks(data))
    ensures var o := TopOrder(Tasks(data));
            var a := Acts(Network(data, groups));
            && |a| == |o|
            && forall i :: 0 <= i < |o| ==> (a[i].source == StartNode <==> Get(Tasks(data), o[i]) == {})
    ensures var e := Network(data, groups);
            forall k :: 0 <= k < |e| ==> e[k].target != StartNode
  {
    PlanBuilt(data);
    BuiltActs(Plan(data), Tasks(data), TopOrder(Tasks(data)), Finals(data), groups);
    BuiltStart(Plan(data), Tasks(data), TopOrder(Tasks(data)), Finals(data), groups);
    NoEdgeIntoStart(Plan(data), Tasks(data), TopOrder(Tasks(data)), Finals(data), groups);
  }

  /** Every precedence p -> x of the input is in the network: the edge of p ends on the
      node where the edge of x starts, or a dummy edge joins the two. */
  lemma NetworkPrecedence(data: seq<Item>, groups: seq<seq<int>>)
    requires Resolvable(Tasks(data)) && ValidGroups(Plan(data).blocks, groups)
    requires NoDummyNames(Finals(data))
    ensures DistinctKeys(Tasks(data))
    ensures var o := TopOrder(Tasks(data));
            var e := Network(data, groups);
            var a := Acts(e);
            && |a| == |o|
            && forall i, j :: 0 <= i < |o| && 0 <= j < |o| && o[j] in Get(Tasks(data), o[i]) ==>
                 a[j].target == a[i].source || DummyEdge(a[j].target, a[i].source) in e
  {
    PlanBuilt(data);
    BuiltActs(Plan(data), Tasks(data), TopOrder(Tasks(data)), Finals(data), groups);
    BuiltPrecedence(Plan(data), Tasks(data), TopOrder(Tasks(data)), Finals(data), groups);
  }

  /** Every dummy edge of e is labelled Fic (src->conv) with its own source and target,
      and its source is an older node than its target, so it is no self-loop. */
  predicate DummiesWellFormed(e: seq<Edge>)
  {
    forall k :: 0 <= k < |e| && e[k].act.Fic? ==> e[k] == DummyEdge(e[k].source, e[k].target) && e[k].source < e[k].target
  }

  /** Lines 76-85: the dummy edges of the network are well formed. */
  lemma NetworkDummies(data: seq<Item>, groups: seq<seq<int>>)
    requires Resolvable(Tasks(data)) && ValidGroups(Plan(data).blocks, groups)
    requires NoDummyNames(Finals(data))
    ensures DummiesWellFormed(Network(data, groups))
  {
    PlanBuilt(data);
    BuiltDummies(Plan(data), Finals(data), groups);
  }

  lemma BuiltDummies(b: Build, finals: set<string>, groups: seq<seq<int>>)
    requires InRange(b) && ValidGroups(b.blocks, groups) && NoDummyNames(finals)
    ensures DummiesWellFormed(PostPass(Flatten(b.blocks, groups), finals, b.terminal))
  {
    FlatDummies(b, groups);
    PostPassDummies(Flatten(b.blocks, groups), finals, b.terminal);
  }

  lemma FlatDummies(b: Build, groups: seq<seq<int>>)
    requires InRange(b) && ValidGroups(b.blocks, groups)
    ensures DummiesWellFormed(Flatten(b.blocks, groups))
  {
    var f := Flatten(b.blocks, groups);
    forall k | 0 <= k < |f| && f[k].act.Fic?
      ensures f[k] == DummyEdge(f[k].source, f[k].target) && f[k].source < f[k].target
    {
      FlatDummy(b, groups, f[k]);
    }
  }

  /** The post-pass leaves every dummy edge as it is. */
  lemma PostPassDummies(f: seq<Edge>, finals: set<string>, terminal: int)
    requires NoDummyNames(finals) && DummiesWellFormed(f)
    ensures DummiesWellFormed(PostPass(f, finals, terminal))
  {
    var e := PostPass(f, finals, terminal);
    forall k | 0 <= k < |e| && e[k].act.Fic? ensures e[k] == f[k] {
      assert e[k] == Redirect(f[k], finals, terminal);
      assert LabelText(Fic(f[k].act.src, f[k].act.conv)) !in finals;
    }
  }

  /** The post-pass changes nothing: a final activity's edge already ends on the
      terminal, and no dummy edge bears a final name. */
  lemma BuiltPostPassIdle(b: Build, g: Graph, o: seq<string>, finals: set<string>, groups: seq<seq<int>>)
    requires Built(b, g, o, finals) && ValidGroups(b.blocks, groups) && NoDummyNames(finals)
    ensures PostPass(Flatten(b.blocks, groups), finals, b.terminal) == Flatten(b.blocks, groups)
  {
    var f := Flatten(b.blocks, groups);
    forall k | 0 <= k < |f| ensures Redirect(f[k], finals, b.terminal) == f[k] {
      FlattenMember(b.blocks, groups, f[k]);
      var i :| 0 <= i < |b.blocks| &&
        (f[k] == BlockEdge(b.blocks[i]) || (f[k] == DummyEdge(f[k].source, b.blocks[i].start) && f[k].source in groups[i]));
      if f[k] == BlockEdge(b.blocks[i]) {
        assert b.blocks[i].name == o[i] && b.blocks[i].end == b.endNode[o[i]];
      } else {
        assert LabelText(Fic(f[k].source, b.blocks[i].start)) !in finals;
      }
    }
  }

  /** Lines 115-122 never redirect an edge: the network is the edge list the wave loop
      built. */
  lemma NetworkPostPassIdle(data: seq<Item>, groups: seq<seq<int>>)
    requires Resolvable(Tasks(data)) && ValidGroups(Plan(data).blocks, groups)
    requires NoDummyNames(Finals(data))
    ensures Network(data, groups) == Flatten(Plan(data).blocks, groups)
  {
    PlanBuilt(data);
    BuiltPostPassIdle(Plan(data), Tasks(data), TopOrder(Tasks(data)), Finals(data), groups);
  }

  /** The edges of the flattened blocks that enter a convergence node are exactly the
      dummy edges created for it. */
  lemma FlatConvergence(b: Build, groups: seq<seq<int>>, i: nat)
    requires InRange(b) && Fresh(b) && ValidGroups(b.blocks, groups)
    requires i < |b.blocks| && b.blocks[i].dummies != {}
    ensures var c, f := b.blocks[i].start, Flatten(b.blocks, groups);
            forall e :: e in f && e.target == c <==> e in DummyEdges(groups[i], c)
  {
    var c, f := b.blocks[i].start, Flatten(b.blocks, groups);
    assert ConvergesAlone(b, i);
    forall e | e in f && e.target == c ensures e in DummyEdges(groups[i], c) {
      FlattenMember(b.blocks, groups, e);
      var j :| 0 <= j < |b.blocks| &&
        (e == BlockEdge(b.blocks[j]) || (e == DummyEdge(e.source, b.blocks[j].start) && e.source in groups[j]));
      assert e != BlockEdge(b.blocks[j]);
      assert e.source in b.blocks[j].dummies;
      assert j == i;
      var k := IndexOf(groups[i], e.source);
      assert DummyEdges(groups[i], c)[k] == e;
    }
    forall e | e in DummyEdges(groups[i], c) ensures e in f && e.target == c {
      var es := DummyEdges(groups[i], c);
      var k :| 0 <= k < |es| && es[k] == e;
      DummyInFlatten(b.blocks, groups, i, groups[i][k]);
    }
  }

  /** Lines 73-87: a convergence node is entered by its own dummy edges, one from each
      predecessor end node, and by no other edge of the network. */
  lemma NetworkConvergence(data: seq<Item>, groups: seq<seq<int>>, i: nat)
    requires Resolvable(Tasks(data)) && ValidGroups(Plan(data).blocks, groups)
    requires NoDummyNames(Finals(data))
    requires i < |Plan(data).blocks| && Plan(data).blocks[i].dummies != {}
    ensures var c, e := Plan(data).blocks[i].start, Network(data, groups);
            forall d :: d in e && d.target == c <==> d in DummyEdges(groups[i], c)
  {
    PlanOrder(data);
    RunInRange(Tasks(data), Finals(data), TopOrder(Tasks(data)));
    RunFresh(Tasks(data), Finals(data), TopOrder(Tasks(data)));
    NetworkPostPassIdle(data, groups);
    FlatConvergence(Plan(data), groups, i);
  }

  /** One edge per activity plus one dummy edge per convergence source. */
  lemma NetworkSize(data: seq<Item>, groups: seq<seq<int>>)
    requires Resolvable(Tasks(data)) && ValidGroups(Plan(data).blocks, groups)
    ensures |Network(data, groups)| == |Names(data)| + DummyCount(Plan(data).blocks)
  {
    PlanOrder(data);
    DistinctCard(TopOrder(Tasks(data)));
    FlattenLength(Plan(data).blocks, groups);
  }
}
