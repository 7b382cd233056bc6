/** The edge list of construir_red_cpm (Red-CPM.py:28-124), seen through the blocks it
    is made of: each activity edge once, in processing order, plus the dummy edges, and
    the post-pass of lines 117-122. */
module AoaEdges {
  import opened Base
  import opened AoaNetwork

  /** The edge of the activity of a block (lines 105-109). */
  function BlockEdge(blk: Block): Edge
  {
    Edge(Name(blk.name), blk.start, blk.end)
  }

  function BlockEdges(blocks: seq<Block>): (es: seq<Edge>)
    ensures |es| == |blocks| && forall i :: 0 <= i < |blocks| ==> es[i] == BlockEdge(blocks[i])
  {
    seq(|blocks|, i requires 0 <= i < |blocks| => BlockEdge(blocks[i]))
  }

  /** The activity edges of a list, in order (the dummy edges left out). */
  function Acts(edges: seq<Edge>): seq<Edge>
  {
    if edges == [] then []
    else
      var rest := Acts(edges[..|edges| - 1]);
      if edges[|edges| - 1].act.Name? then rest + [edges[|edges| - 1]] else rest
  }

  lemma {:induction false} ActsConcat(a: seq<Edge>, b: seq<Edge>)
    ensures Acts(a + b) == Acts(a) + Acts(b)
    decreases |b|
  {
    if b == [] {
      assert a + b == a;
    } else {
      var front := b[..|b| - 1];
      assert (a + b)[..|a + b| - 1] == a + front;
      ActsConcat(a, front);
    }
  }

  lemma {:induction false} ActsDummies(srcs: seq<int>, conv: int)
    ensures Acts(DummyEdges(srcs, conv)) == []
  {
    if srcs != [] {
      var front := srcs[..|srcs| - 1];
      assert DummyEdges(srcs, conv)[..|srcs| - 1] == DummyEdges(front, conv);
      ActsDummies(front, conv);
    }
  }

  /** Leaving out the dummy edges leaves exactly one edge per block, in block order. */
  lemma {:induction false} ActsFlatten(blocks: seq<Block>, groups: seq<seq<int>>)
    requires |groups| == |blocks|
    ensures Acts(Flatten(blocks, groups)) == BlockEdges(blocks)
  {
    if blocks != [] {
      var n := |blocks| - 1;
      var prev := Flatten(blocks[..n], groups[..n]);
      var ds := DummyEdges(groups[n], blocks[n].start);
      var e := BlockEdge(blocks[n]);
      ActsFlatten(blocks[..n], groups[..n]);
      ActsConcat(prev + ds, [e]);
      ActsConcat(prev, ds);
      ActsDummies(groups[n], blocks[n].start);
      ActsOne(e);
      BlockEdgesSnoc(blocks);
    }
  }

  lemma ActsOne(e: Edge)
    requires e.act.Name?
    ensures Acts([e]) == [e]
  {
    assert [e][..0] == [];
  }

  lemma BlockEdgesSnoc(blocks: seq<Block>)
    requires blocks != []
    ensures BlockEdges(blocks) == BlockEdges(blocks[..|blocks| - 1]) + [BlockEdge(blocks[|blocks| - 1])]
  {
  }

  /** Every dummy source chosen for a block gives a dummy edge into its start node. */
  lemma {:induction false} DummyInFlatten(blocks: seq<Block>, groups: seq<seq<int>>, i: int, d: int)
    requires |groups| == |blocks| && 0 <= i < |blocks| && d in groups[i]
    ensures DummyEdge(d, blocks[i].start) in Flatten(blocks, groups)
  {
    var n := |blocks| - 1;
    var prev := Flatten(blocks[..n], groups[..n]);
    var ds := DummyEdges(groups[n], blocks[n].start);
    assert Flatten(blocks, groups) == prev + ds + [BlockEdge(blocks[n])];
    if i < n {
      assert blocks[..n][i] == blocks[i] && groups[..n][i] == groups[i];
      DummyInFlatten(blocks[..n], groups[..n], i, d);
    } else {
      var k :| 0 <= k < |groups[n]| && groups[n][k] == d;
      assert ds[k] == DummyEdge(d, blocks[i].start);
    }
  }

  /** Every edge is the activity edge of some block or a dummy edge into the start node
      of a block from one of its chosen sources. */
  lemma {:induction false} FlattenMember(blocks: seq<Block>, groups: seq<seq<int>>, e: Edge)
    requires |groups| == |blocks| && e in Flatten(blocks, groups)
    ensures exists i :: 0 <= i < |blocks| &&
              (e == BlockEdge(blocks[i]) || (e == DummyEdge(e.source, blocks[i].start) && e.source in groups[i]))
  {
    var n := |blocks| - 1;
    var prev := Flatten(blocks[..n], groups[..n]);
    var ds := DummyEdges(groups[n], blocks[n].start);
    assert Flatten(blocks, groups) == prev + ds + [BlockEdge(blocks[n])];
    if e in prev {
      FlattenMember(blocks[..n], groups[..n], e);
      var i :| 0 <= i < n && (e == BlockEdge(blocks[..n][i]) || (e == DummyEdge(e.source, blocks[..n][i].start) && e.source in groups[..n][i]));
      assert blocks[..n][i] == blocks[i] && groups[..n][i] == groups[i];
    } else if e in ds {
      var k :| 0 <= k < |ds| && ds[k] == e;
      assert e.target == blocks[n].start && e.source == groups[n][k];
    } else {
      assert e == BlockEdge(blocks[n]);
    }
  }

  function DummyCount(blocks: seq<Block>): nat
  {
    if blocks == [] then 0 else DummyCount(blocks[..|blocks| - 1]) + |blocks[|blocks| - 1].dummies|
  }

  /** One edge per activity plus one per dummy source. */
  lemma {:induction false} FlattenLength(blocks: seq<Block>, groups: seq<seq<int>>)
    requires ValidGroups(blocks, groups)
    ensures |Flatten(blocks, groups)| == |blocks| + DummyCount(blocks)
  {
    if blocks != [] {
      var n := |blocks| - 1;
      assert ValidGroups(blocks[..n], groups[..n]) by {
        assert forall i :: 0 <= i < n ==> blocks[..n][i] == blocks[i] && groups[..n][i] == groups[i];
      }
      FlattenLength(blocks[..n], groups[..n]);
      DistinctCard(groups[n]);
    }
  }

  // ---------------------------------------------------------------------------
  // The post-pass

  lemma PostPassSnoc(edges: seq<Edge>, e: Edge, finals: set<string>, terminal: int)
    ensures PostPass(edges + [e], finals, terminal) == PostPass(edges, finals, terminal) + [Redirect(e, finals, terminal)]
  {
  }

  /** The post-pass changes only targets, so it keeps the activity edges in place. */
  lemma {:induction false} ActsPostPass(edges: seq<Edge>, finals: set<string>, terminal: int)
    ensures Acts(PostPass(edges, finals, terminal)) == PostPass(Acts(edges), finals, terminal)
  {
    if edges != [] {
      var front := edges[..|edges| - 1];
      var e := edges[|edges| - 1];
      assert edges == front + [e];
      PostPassSnoc(front, e, finals, terminal);
      var pp := PostPass(edges, finals, terminal);
      assert pp[..|pp| - 1] == PostPass(front, finals, terminal);
      ActsPostPass(front, finals, terminal);
      if e.act.Name? {
        PostPassSnoc(Acts(front), e, finals, terminal);
      }
    }
  }

  /** When every final activity already ends on the terminal, the post-pass leaves the
      activity edges as they are. */
  lemma PostPassKeepsBlocks(blocks: seq<Block>, finals: set<string>, terminal: int)
    requires forall i :: 0 <= i < |blocks| && blocks[i].name in finals ==> blocks[i].end == terminal
    ensures PostPass(BlockEdges(blocks), finals, terminal) == BlockEdges(blocks)
  {
  }

  /** An edge whose text is no final name survives the post-pass unchanged. */
  lemma PostPassKeeps(edges: seq<Edge>, finals: set<string>, terminal: int, e: Edge)
    requires e in edges && LabelText(e.act) !in finals
    ensures e in PostPass(edges, finals, terminal)
  {
    var k :| 0 <= k < |edges| && edges[k] == e;
    assert PostPass(edges, finals, terminal)[k] == e;
  }
}
