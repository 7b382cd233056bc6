/** What the network of construir_red_cpm (Red-CPM.py) guarantees, proved about the
    ghost specification `Run` and lifted to the edges the method returns. */
module AoaProperties {
  import opened Base
  import opened Activities
  import opened Waves
  import opened AoaNetwork

  // ---------------------------------------------------------------------------
  // Node numbers

  /** The start node is 1; every allocated node lies in [2, counter). A block with
      dummy edges starts on a convergence node allocated after all of its sources. */
  ghost predicate BlockInRange(blk: Block, counter: int)
  {
    && 1 <= blk.start < counter
    && 2 <= blk.end < counter
    && (blk.dummies != {} ==> 2 <= blk.start)
    && forall d :: d in blk.dummies ==> 2 <= d < blk.start
  }

  ghost predicate InRange(b: Build)
  {
    && b.counter >= 2
    && (b.terminal == -1 || 2 <= b.terminal < b.counter)
    && (forall x :: x in b.endNode ==> 2 <= b.endNode[x] < b.counter)
    && (forall i :: 0 <= i < |b.blocks| ==> BlockInRange(b.blocks[i], b.counter))
  }

  lemma EndsInRange(endNode: map<string, int>, pre: set<string>, counter: int)
    requires forall x :: x in endNode ==> 2 <= endNode[x] < counter
    ensures forall e :: e in EndsOf(endNode, pre) ==> 2 <= e < counter
  {
  }

  lemma StepInRange(b: Build, x: string, pre: set<string>, final: bool)
    requires InRange(b)
    ensures InRange(Step(b, x, pre, final))
  {
    var op := Open(b.endNode, b.counter, pre);
    var cl := Close(op.counter, b.terminal, final);
    var ends := EndsOf(b.endNode, pre);
    EndsInRange(b.endNode, pre, b.counter);
    if pre != {} && |ends| == 1 {
      assert Pick(ends) in ends;
    }
    var r := Step(b, x, pre, final);
    assert BlockInRange(r.blocks[|b.blocks|], r.counter);
    forall i | 0 <= i < |b.blocks| ensures BlockInRange(r.blocks[i], r.counter) {
      assert r.blocks[i] == b.blocks[i];
    }
  }

  /** Every node the loop has allocated lies in [2, counter). */
  lemma {:induction false} RunInRange(g: Graph, finals: set<string>, o: seq<string>)
    requires Elems(o) <= Keys(g)
    ensures InRange(Run(g, finals, o))
  {
    if o != [] {
      var front := o[..|o| - 1];
      var x := o[|o| - 1];
      assert o == front + [x];
      ElemsSnoc(front, x);
      RunInRange(g, finals, front);
      StepInRange(Run(g, finals, front), x, Get(g, x), x in finals);
    }
  }

  // ---------------------------------------------------------------------------
  // End nodes

  /** Every final activity ends on the terminal node; every other activity ends on a
      node of its own, which is not the terminal. */
  ghost predicate EndLayout(b: Build, finals: set<string>)
  {
    && (forall x :: x in b.endNode && x in finals ==> b.endNode[x] == b.terminal)
    && (forall x :: x in b.endNode && x !in finals ==> b.endNode[x] != b.terminal)
    && (forall x, y :: x in b.endNode && y in b.endNode && x != y && x !in finals ==> b.endNode[x] != b.endNode[y])
  }

  lemma StepLayout(b: Build, finals: set<string>, x: string, pre: set<string>)
    requires InRange(b) && EndLayout(b, finals)
    ensures EndLayout(Step(b, x, pre, x in finals), finals)
  {
    var op := Open(b.endNode, b.counter, pre);
    assert op.counter >= b.counter;
  }

  /** Lines 89-102 over the whole loop: the finals share one terminal node, created the
      first time a final activity is met, and no two other activities share an end node. */
  lemma {:induction false} RunLayout(g: Graph, finals: set<string>, o: seq<string>)
    requires Elems(o) <= Keys(g)
    ensures EndLayout(Run(g, finals, o), finals)
  {
    if o != [] {
      var front := o[..|o| - 1];
      var x := o[|o| - 1];
      assert o == front + [x];
      ElemsSnoc(front, x);
      RunLayout(g, finals, front);
      RunInRange(g, finals, front);
      StepLayout(Run(g, finals, front), finals, x, Get(g, x));
    }
  }

  // ---------------------------------------------------------------------------
  // Convergence nodes

  /** The convergence node of block i (lines 76-77) is used by nothing else: it is not
      the terminal, no activity ends on it and no other convergence shares it. */
  ghost predicate ConvergesAlone(b: Build, i: int)
    requires 0 <= i < |b.blocks|
  {
    var c := b.blocks[i].start;
    && c != b.terminal
    && (forall x :: x in b.endNode ==> b.endNode[x] != c)
    && (forall j :: 0 <= j < |b.blocks| ==> b.blocks[j].end != c)
    && (forall j :: 0 <= j < |b.blocks| && j != i && b.blocks[j].dummies != {} ==> b.blocks[j].start != c)
  }

  /** Every convergence node is fresh. */
  ghost predicate Fresh(b: Build)
  {
    forall i :: 0 <= i < |b.blocks| && b.blocks[i].dummies != {} ==> ConvergesAlone(b, i)
  }

  /** The nodes one step allocates are at least the old counter. */
  lemma StepAllocates(b: Build, x: string, pre: set<string>, final: bool)
    requires InRange(b)
    ensures var r := Step(b, x, pre, final);
            var n := |b.blocks|;
            && (r.blocks[n].dummies != {} ==> r.blocks[n].start == b.counter)
            && (r.blocks[n].end == b.terminal || r.blocks[n].end >= b.counter + (if r.blocks[n].dummies != {} then 1 else 0))
            && (r.terminal == b.terminal || r.terminal >= b.counter + (if r.blocks[n].dummies != {} then 1 else 0))
            && r.endNode[x] == r.blocks[n].end
  {
    var ends := EndsOf(b.endNode, pre);
    if pre != {} && |ends| == 1 {
      assert Pick(ends) in ends;
    }
  }

  lemma StepFresh(b: Build, x: string, pre: set<string>, final: bool)
    requires InRange(b) && Fresh(b)
    ensures Fresh(Step(b, x, pre, final))
  {
    var r := Step(b, x, pre, final);
    var n := |b.blocks|;
    StepAllocates(b, x, pre, final);
    assert r.endNode == b.endNode[x := r.blocks[n].end];
    forall i | 0 <= i < |r.blocks| && r.blocks[i].dummies != {} ensures ConvergesAlone(r, i) {
      var c := r.blocks[i].start;
      if i < n {
        assert r.blocks[i] == b.blocks[i] && ConvergesAlone(b, i);
        assert BlockInRange(b.blocks[i], b.counter);
        forall j | 0 <= j < |r.blocks| ensures r.blocks[j].end != c {
          if j < n { assert r.blocks[j] == b.blocks[j]; }
        }
        forall j | 0 <= j < |r.blocks| && j != i && r.blocks[j].dummies != {} ensures r.blocks[j].start != c {
          if j < n { assert r.blocks[j] == b.blocks[j]; }
        }
      } else {
        assert c == b.counter;
        forall j | 0 <= j < n ensures r.blocks[j].end != c && (r.blocks[j].dummies != {} ==> r.blocks[j].start != c) {
          assert r.blocks[j] == b.blocks[j] && BlockInRange(b.blocks[j], b.counter);
        }
      }
    }
  }

  /** Lines 76-77 over the whole loop: every convergence node is fresh. */
  lemma {:induction false} RunFresh(g: Graph, finals: set<string>, o: seq<string>)
    requires Elems(o) <= Keys(g)
    ensures Fresh(Run(g, finals, o))
  {
    if o != [] {
      var front := o[..|o| - 1];
      var x := o[|o| - 1];
      assert o == front + [x];
      ElemsSnoc(front, x);
      RunFresh(g, finals, front);
      RunInRange(g, finals, front);
      StepFresh(Run(g, finals, front), x, Get(g, x), x in finals);
    }
  }

  // ---------------------------------------------------------------------------
  // Blocks and precedence

  /** How the block of an activity with predecessors `pre` hangs on their end nodes:
      it starts on node 1 exactly when it has no predecessors; without dummy edges all
      predecessors end on its start node; with dummy edges their sources are exactly
      the (at least two) end nodes of the predecessors. */
  ghost predicate Linked(blk: Block, pre: set<string>, endNode: map<string, int>)
  {
    && pre <= endNode.Keys
    && (blk.start == StartNode <==> pre == {})
    && (blk.dummies == {} ==> forall p :: p in pre ==> endNode[p] == blk.start)
    && (blk.dummies != {} ==> blk.dummies == EndsOf(endNode, pre) && |blk.dummies| >= 2)
  }

  lemma EndsOfUpdate(m: map<string, int>, pre: set<string>, x: string, v: int)
    requires x !in pre
    ensures EndsOf(m[x := v], pre) == EndsOf(m, pre)
  {
    assert forall p :: p in pre ==> (p in m[x := v] <==> p in m) && (p in m ==> m[x := v][p] == m[p]);
  }

  lemma LinkedUpdate(blk: Block, pre: set<string>, m: map<string, int>, x: string, v: int)
    requires x !in pre && Linked(blk, pre, m)
    ensures Linked(blk, pre, m[x := v])
  {
    EndsOfUpdate(m, pre, x, v);
  }

  /** The block of x, as Step appends it, is linked to the end nodes of x's predecessors. */
  lemma StepLinked(b: Build, x: string, pre: set<string>, final: bool)
    requires InRange(b) && pre <= b.endNode.Keys && x !in pre
    ensures var r := Step(b, x, pre, final);
            Linked(r.blocks[|b.blocks|], pre, r.endNode)
  {
    var ends := EndsOf(b.endNode, pre);
    var op := Open(b.endNode, b.counter, pre);
    var r := Step(b, x, pre, final);
    var blk := r.blocks[|b.blocks|];
    assert blk.start == op.node && blk.dummies == op.dummies;
    EndsInRange(b.endNode, pre, b.counter);
    EndsOfUpdate(b.endNode, pre, x, r.endNode[x]);
    if pre != {} {
      var p0 :| p0 in pre;
      assert b.endNode[p0] in ends;
      if |ends| == 1 {
        forall p | p in pre ensures b.endNode[p] == blk.start {
          SingletonElement(ends, b.endNode[p], Pick(ends));
        }
      }
    }
  }

  /** Every activity of o is processed once, after all of its predecessors (what the
      wave order guarantees). */
  ghost predicate PredsFirst(g: Graph, o: seq<string>)
  {
    && Distinct(o)
    && forall i :: 0 <= i < |o| ==> o[i] in Keys(g) && Get(g, o[i]) <= Elems(o[..i])
  }

  /** Block i is the block of o[i]: its edge is named o[i], ends where o[i] ends and is
      linked to the end nodes of o[i]'s predecessors. */
  ghost predicate BlocksMatch(b: Build, g: Graph, o: seq<string>)
  {
    && |b.blocks| == |o|
    && forall i :: 0 <= i < |o| ==>
         && o[i] in Keys(g) && o[i] in b.endNode
         && b.blocks[i].name == o[i] && b.blocks[i].end == b.endNode[o[i]]
         && Linked(b.blocks[i], Get(g, o[i]), b.endNode)
  }

  lemma PredsFirstFront(g: Graph, o: seq<string>)
    requires o != [] && PredsFirst(g, o)
    ensures PredsFirst(g, o[..|o| - 1])
    ensures o[|o| - 1] !in o[..|o| - 1]
  {
    var front := o[..|o| - 1];
    assert forall i :: 0 <= i < |front| ==> front[i] == o[i] && front[..i] == o[..i];
  }

  /** Processing x after the activities of front leaves the earlier blocks matched. */
  lemma OldBlocksMatch(g: Graph, b: Build, front: seq<string>, x: string, r: Build)
    requires PredsFirst(g, front) && BlocksMatch(b, g, front) && x !in front
    requires |r.blocks| == |front| + 1 && x in r.endNode
    requires r.blocks[..|front|] == b.blocks && r.endNode == b.endNode[x := r.endNode[x]]
    ensures forall i :: 0 <= i < |front| ==>
              && front[i] in r.endNode
              && r.blocks[i].name == front[i] && r.blocks[i].end == r.endNode[front[i]]
              && Linked(r.blocks[i], Get(g, front[i]), r.endNode)
  {
    forall i | 0 <= i < |front|
      ensures r.blocks[i].name == front[i] && r.blocks[i].end == r.endNode[front[i]]
      ensures Linked(r.blocks[i], Get(g, front[i]), r.endNode)
    {
      assert r.blocks[i] == r.blocks[..|front|][i];
      assert front[i] != x;
      assert x !in Get(g, front[i]) by {
        assert forall y :: y in front[..i] ==> y in front;
      }
      LinkedUpdate(b.blocks[i], Get(g, front[i]), b.endNode, x, r.endNode[x]);
    }
  }

  /** The blocks of Run, built along an order that lists predecessors first. */
  lemma {:induction false} RunBlocks(g: Graph, finals: set<string>, o: seq<string>)
    requires PredsFirst(g, o) && Elems(o) <= Keys(g)
    ensures BlocksMatch(Run(g, finals, o), g, o)
  {
    if o != [] {
      var front := o[..|o| - 1];
      var x := o[|o| - 1];
      assert o == front + [x];
      ElemsSnoc(front, x);
      PredsFirstFront(g, o);
      RunBlocks(g, finals, front);
      RunInRange(g, finals, front);
      var b := Run(g, finals, front);
      var r := Step(b, x, Get(g, x), x in finals);
      assert o[..|front|] == front;
      StepLinked(b, x, Get(g, x), x in finals);
      OldBlocksMatch(g, b, front, x, r);
      assert r.blocks[|front|].name == x && r.blocks[|front|].end == r.endNode[x];
      BlocksMatchSnoc(g, r, o);
    }
  }

  /** The match of the earlier blocks and of the last one make the match of all. */
  lemma BlocksMatchSnoc(g: Graph, r: Build, o: seq<string>)
    requires o != [] && |r.blocks| == |o| && Elems(o) <= Keys(g)
    requires var front := o[..|o| - 1];
             forall i :: 0 <= i < |front| ==>
               && front[i] in r.endNode
               && r.blocks[i].name == front[i] && r.blocks[i].end == r.endNode[front[i]]
               && Linked(r.blocks[i], Get(g, front[i]), r.endNode)
    requires var x, n := o[|o| - 1], |o| - 1;
             && x in r.endNode && r.blocks[n].name == x && r.blocks[n].end == r.endNode[x]
             && Linked(r.blocks[n], Get(g, x), r.endNode)
    ensures BlocksMatch(r, g, o)
  {
    var front := o[..|o| - 1];
    forall i | 0 <= i < |o|
      ensures o[i] in Keys(g) && o[i] in r.endNode
      ensures r.blocks[i].name == o[i] && r.blocks[i].end == r.endNode[o[i]]
      ensures Linked(r.blocks[i], Get(g, o[i]), r.endNode)
    {
      assert o[i] in Elems(o);
      if i < |front| {
        assert front[i] == o[i];
      }
    }
  }
}
