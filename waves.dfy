/** Resolution of a precedence graph in waves (Red-CPM.py:43-56): each wave holds, in
    dictionary order, every unprocessed activity whose predecessors are all processed.
    The same notion gives the acyclicity precondition of the CPM passes. */
module Waves {
  import opened Base

  /** Activity name -> set of predecessor names, in dictionary order. */
  type Graph = Dict<set<string>>

  predicate ReadyAt(g: Graph, i: int, done: set<string>)
    requires 0 <= i < |g|
  {
    g[i].0 !in done && g[i].1 <= done
  }

  /** tareas_para_agregar: the ready activities, in dictionary order. */
  function Wave(g: Graph, done: set<string>): (w: seq<string>)
    ensures forall x :: x in w <==> exists i :: 0 <= i < |g| && g[i].0 == x && ReadyAt(g, i, done)
    ensures DistinctKeys(g) ==> Distinct(w)
  {
    if g == [] then []
    else
      var front := g[..|g| - 1];
      var w := Wave(front, done);
      assert forall i :: 0 <= i < |front| ==> front[i] == g[i];
      assert forall i :: 0 <= i < |front| ==> (ReadyAt(front, i, done) <==> ReadyAt(g, i, done));
      assert DistinctKeys(g) ==> g[|g| - 1].0 !in w;
      if ReadyAt(g, |g| - 1, done) then w + [g[|g| - 1].0] else w
  }

  lemma WaveGet(g: Graph, done: set<string>, x: string)
    requires DistinctKeys(g)
    ensures x in Wave(g, done) <==> x in Keys(g) && x !in done && Get(g, x) <= done
  {
  }

  lemma WaveProgress(g: Graph, done: set<string>)
    requires Wave(g, done) != []
    ensures |Keys(g) - (done + Elems(Wave(g, done)))| < |Keys(g) - done|
  {
    var w := Wave(g, done);
    assert w[0] in w;
    StrictSubsetCard(Keys(g) - (done + Elems(w)), Keys(g) - done);
  }

  function Prepend(o: seq<string>, r: Option<seq<string>>): Option<seq<string>>
  {
    match r
    case None => None
    case Some(rest) => Some(o + rest)
  }

  lemma PrependAssoc(a: seq<string>, b: seq<string>, r: Option<seq<string>>)
    ensures Prepend(a, Prepend(b, r)) == Prepend(a + b, r)
    ensures Prepend([], r) == r
    ensures Prepend(a, Some([])) == Some(a)
  {
    assert a + [] == a;
    if r.Some? {
      assert a + (b + r.value) == (a + b) + r.value;
      assert [] + r.value == r.value;
    }
  }

  /** The processing order of the wave loop started from the processed set `done`:
      the waves one after another, or None when a wave is empty before every
      activity is processed (a cycle or an undefined predecessor). */
  function OrderFrom(g: Graph, done: set<string>): Option<seq<string>>
    decreases |Keys(g) - done|
  {
    if Keys(g) <= done then Some([])
    else
      var w := Wave(g, done);
      if w == [] then None
      else
        WaveProgress(g, done);
        Prepend(w, OrderFrom(g, done + Elems(w)))
  }

  /** Every activity can be processed: the wave loop finishes. */
  predicate Resolvable(g: Graph)
  {
    OrderFrom(g, {}).Some?
  }

  /** What one pass of the wave loop (lines 44-56) relies on. */
  lemma WaveFacts(g: Graph, done: set<string>)
    requires DistinctKeys(g) && done <= Keys(g)
    ensures |done| >= |Keys(g)| ==> OrderFrom(g, done) == Some([])
    ensures var w := Wave(g, done);
            && Distinct(w)
            && (forall y :: y in w ==> y in Keys(g) && y !in done && Get(g, y) <= done)
            && (|done| < |Keys(g)| && w == [] ==> OrderFrom(g, done) == None)
            && (|done| < |Keys(g)| && w != [] ==>
                  && OrderFrom(g, done) == Prepend(w, OrderFrom(g, done + Elems(w)))
                  && |Keys(g) - (done + Elems(w))| < |Keys(g) - done|)
  {
    SubsetCard(done, Keys(g));
    if Keys(g) <= done {
      SubsetCard(Keys(g), done);
    }
    var w := Wave(g, done);
    forall y | y in w ensures y in Keys(g) && y !in done && Get(g, y) <= done {
      WaveGet(g, done, y);
    }
    if w != [] {
      WaveProgress(g, done);
    }
  }

  /** A schedule: every activity once, each after all of its predecessors. */
  ghost predicate Schedule(g: Graph, done: set<string>, o: seq<string>)
  {
    && Distinct(o)
    && (forall x :: x in o ==> x in Keys(g) && x !in done)
    && (forall x :: x in Keys(g) ==> x in done || x in o)
    && (forall i :: 0 <= i < |o| ==> forall p :: p in Get(g, o[i]) ==> p in done || p in o[..i])
  }

  /** Processing the wave w first and then a schedule for the rest is a schedule. */
  lemma ScheduleConcat(g: Graph, done: set<string>, w: seq<string>, rest: seq<string>)
    requires DistinctKeys(g) && Distinct(w)
    requires forall x :: x in w ==> x in Keys(g) && x !in done && Get(g, x) <= done
    requires Schedule(g, done + Elems(w), rest)
    ensures Schedule(g, done, w + rest)
  {
    var done' := done + Elems(w);
    var o := w + rest;
    forall i, j | 0 <= i < j < |o| ensures o[i] != o[j] {
      if j < |w| {
      } else if i < |w| {
        assert o[j] == rest[j - |w|];
        assert o[i] == w[i] && w[i] in Elems(w);
      } else {
        assert o[i] == rest[i - |w|] && o[j] == rest[j - |w|];
      }
    }
    forall i | 0 <= i < |o| ensures forall p :: p in Get(g, o[i]) ==> p in done || p in o[..i] {
      if i >= |w| {
        assert o[i] == rest[i - |w|];
        forall p | p in Get(g, o[i]) ensures p in done || p in o[..i] {
          assert p in done' || p in rest[..i - |w|];
          if p in rest[..i - |w|] {
            var k :| 0 <= k < i - |w| && rest[k] == p;
            assert o[..i][|w| + k] == p;
          } else if p !in done {
            var k :| 0 <= k < |w| && w[k] == p;
            assert o[..i][k] == p;
          }
        }
      } else {
        assert o[i] == w[i];
      }
    }
  }

  lemma {:induction false} OrderFromSchedule(g: Graph, done: set<string>)
    requires DistinctKeys(g)
    requires OrderFrom(g, done).Some?
    ensures Schedule(g, done, OrderFrom(g, done).value)
    decreases |Keys(g) - done|
  {
    if !(Keys(g) <= done) {
      var w := Wave(g, done);
      WaveProgress(g, done);
      var done' := done + Elems(w);
      OrderFromSchedule(g, done');
      forall x | x in w ensures x in Keys(g) && x !in done && Get(g, x) <= done {
        WaveGet(g, done, x);
      }
      ScheduleConcat(g, done, w, OrderFrom(g, done').value);
    }
  }

  /** An activity set that can never be processed: each member waits for a member
      of the set itself or for a name that is no activity at all. */
  ghost predicate Stuck(g: Graph, u: set<string>)
  {
    && u != {}
    && u <= Keys(g)
    && forall x :: x in u ==> exists p :: p in Get(g, x) && (p in u || p !in Keys(g))
  }

  lemma {:induction false} FailureIsStuck(g: Graph, done: set<string>)
    requires DistinctKeys(g)
    requires OrderFrom(g, done).None?
    ensures exists u :: Stuck(g, u)
    decreases |Keys(g) - done|
  {
    var w := Wave(g, done);
    assert !(Keys(g) <= done);
    if w == [] {
      var u := Keys(g) - done;
      var x0 :| x0 in Keys(g) && x0 !in done;
      assert x0 in u;
      forall x | x in u ensures exists p :: p in Get(g, x) && (p in u || p !in Keys(g)) {
        WaveGet(g, done, x);
        var p :| p in Get(g, x) && p !in done;
      }
      assert Stuck(g, u);
    } else {
      WaveProgress(g, done);
      FailureIsStuck(g, done + Elems(w));
    }
  }

  /** No member of a stuck set is ever ready. */
  lemma StuckNotReady(g: Graph, done: set<string>, u: set<string>)
    requires DistinctKeys(g)
    requires Stuck(g, u) && done <= Keys(g) && u * done == {}
    ensures u * (done + Elems(Wave(g, done))) == {}
  {
    assert forall p :: p in done ==> p !in u by {
      forall p | p in done ensures p !in u {
        assert p !in u * done;
      }
    }
    forall x | x in Wave(g, done) ensures x !in u {
      WaveGet(g, done, x);
    }
  }

  lemma {:induction false} StuckIsFailure(g: Graph, done: set<string>, u: set<string>)
    requires DistinctKeys(g)
    requires Stuck(g, u) && done <= Keys(g) && u * done == {}
    ensures OrderFrom(g, done).None?
    decreases |Keys(g) - done|
  {
    var x0 :| x0 in u;
    assert !(Keys(g) <= done);
    if Wave(g, done) != [] {
      WaveFacts(g, done);
      StuckNotReady(g, done, u);
      StuckIsFailure(g, done + Elems(Wave(g, done)), u);
    }
  }

  /** The wave loop fails exactly when some activities can never be processed. */
  lemma FailureIffStuck(g: Graph)
    requires DistinctKeys(g)
    ensures !Resolvable(g) <==> exists u :: Stuck(g, u)
  {
    if !Resolvable(g) {
      FailureIsStuck(g, {});
    }
    if u :| Stuck(g, u) {
      StuckIsFailure(g, {}, u);
    }
  }

  /** The order in which the wave loop processes the activities. */
  function TopOrder(g: Graph): (o: seq<string>)
    requires DistinctKeys(g) && Resolvable(g)
    ensures Distinct(o)
    ensures forall x :: x in o <==> x in Keys(g)
    ensures forall i :: 0 <= i < |o| ==> forall p :: p in Get(g, o[i]) ==> p in o[..i]
  {
    OrderFromSchedule(g, {});
    OrderFrom(g, {}).value
  }

  /** Position of an activity in TopOrder: every predecessor has a smaller one. */
  function Pos(g: Graph, x: string): (n: nat)
    requires DistinctKeys(g) && Resolvable(g) && x in Keys(g)
    ensures n < |Keys(g)|
  {
    var o := TopOrder(g);
    DistinctCard(o);
    assert Elems(o) == Keys(g);
    IndexOf(o, x)
  }

  lemma PosDeps(g: Graph, x: string)
    requires DistinctKeys(g) && Resolvable(g) && x in Keys(g)
    ensures forall p :: p in Get(g, x) ==> p in Keys(g) && Pos(g, p) < Pos(g, x)
  {
    var o := TopOrder(g);
    var n := IndexOf(o, x);
    forall p | p in Get(g, x) ensures p in Keys(g) && IndexOf(o, p) < n {
      assert p in o[..n];
      var k :| 0 <= k < n && o[..n][k] == p;
    }
  }

}
