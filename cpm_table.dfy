/** The activity table and successor lists shared by calcular_tiempos_cpm and
    encontrar_rutas_cpm (ruta_critica.py:6-27 and 97-117). */
module CpmTable {
  import opened Base
  import opened Activities
  import opened Waves
  import opened Successors

  /** The part of an activity record read from the input: the comma-split predecessor
      list (empty for "-") and the duration. */
  datatype Activity = Activity(preds: seq<string>, duration: nat)

  /** actividades after lines 7-21: one record per name, a repeated name keeping its
      first position and taking the last record. */
  function Table(data: seq<Item>): Dict<Activity>
  {
    if data == [] then []
    else
      var last := data[|data| - 1];
      Put(Table(data[..|data| - 1]), last.name, Activity(PredList(last.spec), last.duration))
  }

  /** The table has one entry per distinct name of the input. */
  lemma {:induction false} TableShape(data: seq<Item>)
    ensures DistinctKeys(Table(data))
    ensures Keys(Table(data)) == Names(data)
  {
    if data != [] {
      TableShape(data[..|data| - 1]);
      NamesSnoc(data);
    }
  }

  lemma {:induction false} TableDistinct(data: seq<Item>)
    ensures DistinctKeys(Table(data))
  {
    if data != [] {
      TableDistinct(data[..|data| - 1]);
    }
  }

  /** The entry of a name is read from the last record with that name. */
  lemma {:induction false} TableLast(data: seq<Item>, k: int)
    requires 0 <= k < |data|
    requires forall j :: k < j < |data| ==> data[j].name != data[k].name
    ensures data[k].name in Keys(Table(data))
    ensures Get(Table(data), data[k].name) == Activity(PredList(data[k].spec), data[k].duration)
  {
    var n := |data| - 1;
    var front, x := data[..n], data[k].name;
    var t := Table(front);
    var v := Activity(PredList(data[k].spec), data[k].duration);
    TableDistinct(front);
    var r := Put(t, data[n].name, Activity(PredList(data[n].spec), data[n].duration));
    assert Table(data) == r;
    if k < n {
      assert front[k] == data[k];
      assert forall j :: k < j < |front| ==> front[j] == data[j];
      TableLast(front, k);
      assert x != data[n].name;
      assert x in Keys(r) && Get(r, x) == Get(t, x);
    } else {
      assert x in Keys(r) && Get(r, x) == v;
    }
  }

  /** Lines 7-21 as a loop. */
  method BuildTable(data: seq<Item>) returns (acts: Dict<Activity>)
    ensures acts == Table(data)
    ensures DistinctKeys(acts) && Keys(acts) == Names(data)
  {
    acts := [];
    for i := 0 to |data|
      invariant acts == Table(data[..i])
    {
      assert data[..i + 1][..i] == data[..i];
      acts := Put(acts, data[i].name, Activity(PredList(data[i].spec), data[i].duration));
    }
    assert data[..|data|] == data;
    TableShape(data);
  }

  // ---------------------------------------------------------------------------
  // Dependencies

  /** The predecessors the passes follow: a "-" inside a list is skipped (lines 26,
      37 and 110). */
  function Deps(a: Activity): set<string>
  {
    set p | p in a.preds && p != "-"
  }

  function DepGraph(acts: Dict<Activity>): (g: Graph)
    ensures Keys(g) == Keys(acts)
    ensures DistinctKeys(acts) ==> DistinctKeys(g)
  {
    var g := seq(|acts|, i requires 0 <= i < |acts| => (acts[i].0, Deps(acts[i].1)));
    assert forall i :: 0 <= i < |acts| ==> g[i].0 == acts[i].0;
    g
  }

  lemma DepGraphGet(acts: Dict<Activity>, x: string)
    requires DistinctKeys(acts) && x in Keys(acts)
    ensures Get(DepGraph(acts), x) == Deps(Get(acts, x))
  {
    var g := DepGraph(acts);
    var i :| 0 <= i < |g| && g[i] == (x, Get(g, x));
    assert acts[i].0 == x;
  }

  /** What both functions demand of their input: every predecessor they follow names
      an activity (otherwise line 27 raises KeyError) and no activity depends on
      itself through its predecessors (otherwise the recursion never ends). This is
      exactly the condition under which the wave loop of Red-CPM.py succeeds. */
  predicate Ready(acts: Dict<Activity>)
  {
    DistinctKeys(acts) && Resolvable(DepGraph(acts))
  }

  /** Every followed predecessor names an activity: what lines 23-27 demand. */
  predicate Defined(acts: Dict<Activity>)
  {
    forall i, p :: 0 <= i < |acts| && p in acts[i].1.preds && p != "-" ==> p in Keys(acts)
  }

  /** The position of an activity in the wave order: a rank that every predecessor
      lies below. */
  function Rank(acts: Dict<Activity>, x: string): (n: nat)
    requires Ready(acts) && x in Keys(acts)
    ensures n < |Keys(acts)|
  {
    Pos(DepGraph(acts), x)
  }

  lemma RankDeps(acts: Dict<Activity>, x: string, p: string)
    requires Ready(acts) && x in Keys(acts) && p in Deps(Get(acts, x))
    ensures p in Keys(acts) && Rank(acts, p) < Rank(acts, x)
  {
    DepGraphGet(acts, x);
    PosDeps(DepGraph(acts), x);
  }

  lemma ReadyDefined(acts: Dict<Activity>)
    requires Ready(acts)
    ensures Defined(acts)
  {
    forall i, p | 0 <= i < |acts| && p in acts[i].1.preds && p != "-" ensures p in Keys(acts) {
      assert acts[i].0 in Keys(acts);
      assert Get(acts, acts[i].0) == acts[i].1;
      RankDeps(acts, acts[i].0, p);
    }
  }

  // ---------------------------------------------------------------------------
  // Successor lists (lines 23-27 and 108-111)

  /** The successor list of p: every activity, in table order, once per occurrence of p
      in its predecessor list; "-" collects none. */
  function Succ(acts: Dict<Activity>, p: string): seq<string>
  {
    if acts == [] || p == "-" then []
    else
      var last := acts[|acts| - 1];
      Succ(acts[..|acts| - 1], p) + Repeat(last.0, Count(p, last.1.preds))
  }

  /** x follows p exactly when x is an activity that depends on p. */
  lemma {:induction false} SuccIff(acts: Dict<Activity>, p: string, x: string)
    requires DistinctKeys(acts)
    ensures x in Succ(acts, p) <==> x in Keys(acts) && p in Deps(Get(acts, x))
  {
    if acts != [] && p != "-" {
      var n := |acts| - 1;
      var front, last := acts[..n], acts[n];
      DictSnoc(acts);
      SuccIff(front, p, x);
      CountPositive(p, last.1.preds);
    }
  }

  /** A successor lies above its predecessor in the wave order. */
  lemma SuccRank(acts: Dict<Activity>, p: string, x: string)
    requires Ready(acts) && p in Keys(acts) && x in Succ(acts, p)
    ensures x in Keys(acts) && Rank(acts, p) < Rank(acts, x)
  {
    SuccIff(acts, p, x);
    RankDeps(acts, x, p);
  }

  /** The number of times x follows p is the number of times x lists p. */
  lemma {:induction false} SuccCount(acts: Dict<Activity>, p: string, x: string)
    requires DistinctKeys(acts) && x in Keys(acts) && p != "-"
    ensures Count(x, Succ(acts, p)) == Count(p, Get(acts, x).preds)
  {
    var n := |acts| - 1;
    var front, last := acts[..n], acts[n];
    assert DistinctKeys(front);
    assert acts == front + [last];
    CountAppend(x, Succ(front, p), Repeat(last.0, Count(p, last.1.preds)));
    CountRepeat(x, last.0, Count(p, last.1.preds));
    if x == last.0 {
      assert forall i :: 0 <= i < n ==> front[i].0 == acts[i].0 && acts[i].0 != x;
      CountAbsent(front, p, x);
    } else {
      var i :| 0 <= i < |acts| && acts[i].0 == x;
      assert front[i] == acts[i];
      SuccCount(front, p, x);
    }
  }

  lemma CountAbsent(acts: Dict<Activity>, p: string, x: string)
    requires x !in Keys(acts)
    ensures Count(x, Succ(acts, p)) == 0
  {
    SuccSource(acts, p, x);
    CountPositive(x, Succ(acts, p));
  }

  lemma {:induction false} SuccSource(acts: Dict<Activity>, p: string, x: string)
    ensures x in Succ(acts, p) ==> x in Keys(acts)
  {
    if acts != [] && p != "-" {
      var n := |acts| - 1;
      var front, last := acts[..n], acts[n];
      SuccSource(front, p, x);
      var r := Repeat(last.0, Count(p, last.1.preds));
      assert Succ(acts, p) == Succ(front, p) + r;
      assert forall i :: 0 <= i < n ==> front[i] == acts[i];
      assert forall y :: y in r ==> y == acts[n].0;
    }
  }

  lemma SuccStep(acts: Dict<Activity>, i: nat)
    requires i < |acts|
    ensures forall p :: Succ(acts[..i + 1], p) ==
                        Succ(acts[..i], p) + (if p == "-" then [] else Repeat(acts[i].0, Count(p, acts[i].1.preds)))
  {
    assert acts[..i + 1][..i] == acts[..i];
  }

  /** The inner loop's step: appending x to the list of predecessor ps[j] unless it is "-". */
  lemma LinkStep(acts: Dict<Activity>, i: nat, j: nat, before: map<string, seq<string>>, after: map<string, seq<string>>)
    requires i < |acts| && j < |acts[i].1.preds|
    requires forall p :: p in before ==>
               before[p] == Succ(acts[..i], p) + (if p == "-" then [] else Repeat(acts[i].0, Count(p, acts[i].1.preds[..j])))
    requires acts[i].1.preds[j] != "-" ==> acts[i].1.preds[j] in before
    requires var q := acts[i].1.preds[j];
             after == if q == "-" then before else before[q := before[q] + [acts[i].0]]
    ensures after.Keys == before.Keys
    ensures forall p :: p in after ==>
              after[p] == Succ(acts[..i], p) + (if p == "-" then [] else Repeat(acts[i].0, Count(p, acts[i].1.preds[..j + 1])))
  {
    var x, ps := acts[i].0, acts[i].1.preds;
    ExtendCount(x, ps, j);
    forall p | p in after
      ensures after[p] == Succ(acts[..i], p) + (if p == "-" then [] else Repeat(x, Count(p, ps[..j + 1])))
    {
      if p != "-" {
        ConcatAssoc(Succ(acts[..i], p), Repeat(x, Count(p, ps[..j])), if p == ps[j] then [x] else []);
      }
    }
  }

  /** The outer loop's step: the lists after item i hold the successors of acts[..i + 1]. */
  lemma NextItem(acts: Dict<Activity>, i: nat, succ: map<string, seq<string>>)
    requires i < |acts|
    requires forall p :: p in succ ==>
               succ[p] == Succ(acts[..i], p) + (if p == "-" then [] else Repeat(acts[i].0, Count(p, acts[i].1.preds)))
    ensures forall p :: p in succ ==> succ[p] == Succ(acts[..i + 1], p)
  {
    SuccStep(acts, i);
  }

  /** Lines 23-27 (and 108-111): every record's name is appended to the list of each
      predecessor it names, in table order. */
  method LinkSuccessors(acts: Dict<Activity>) returns (succ: map<string, seq<string>>)
    requires Defined(acts)
    ensures succ.Keys == Keys(acts)
    ensures forall p :: p in succ ==> succ[p] == Succ(acts, p)
  {
    succ := map k | k in Keys(acts) :: [];
    for i := 0 to |acts|
      invariant succ.Keys == Keys(acts)
      invariant forall p :: p in succ ==> succ[p] == Succ(acts[..i], p)
    {
      var name, ps := acts[i].0, acts[i].1.preds;
      assert forall p :: Count(p, ps[..0]) == 0 by { assert ps[..0] == []; }
      for j := 0 to |ps|
        invariant succ.Keys == Keys(acts)
        invariant forall p :: p in succ ==>
                    succ[p] == Succ(acts[..i], p) + (if p == "-" then [] else Repeat(name, Count(p, ps[..j])))
      {
        var before := succ;
        if ps[j] != "-" {
          succ := succ[ps[j] := succ[ps[j]] + [name]];
        }
        LinkStep(acts, i, j, before, succ);
      }
      assert ps[..|ps|] == ps;
      NextItem(acts, i, succ);
    }
    assert acts[..|acts|] == acts;
  }

  // ---------------------------------------------------------------------------
  // Final and start activities

  /** finales (lines 53-54 and 116-117): the names, in table order, with an empty
      successor list. */
  function FinalList(ks: seq<string>, succ: map<string, seq<string>>): (fs: seq<string>)
    requires forall i :: 0 <= i < |ks| ==> ks[i] in succ
    ensures forall x :: x in fs <==> x in ks && succ[x] == []
  {
    if ks == [] then []
    else
      var rest := FinalList(ks[..|ks| - 1], succ);
      var k := ks[|ks| - 1];
      assert forall x :: x in ks <==> x in ks[..|ks| - 1] || x == k;
      if succ[k] == [] then rest + [k] else rest
  }
}
