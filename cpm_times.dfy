/** calcular_tiempos_cpm (ruta_critica.py:1-91): the forward pass (ES, EF), the
    project duration, the backward pass (LF, LS) and the slack. The recurrences
    are recursive functions over a map view of the table ranked by the wave order;
    the passes are methods that fill memo tables as the Python closures do, proved
    to agree with the recurrences. */
module CpmTimes {
  import opened Base
  import opened Activities
  import opened Successors
  import opened CpmTable

  /** A late time: an integer or float('inf'), the initial LS and LF (lines 18-19). */
  datatype Time = Fin(n: int) | Inf

  /** Python's min(a, b): a unless b is smaller. */
  function Min(a: Time, b: Time): Time
  {
    if b.Fin? && (a.Inf? || b.n < a.n) then b else a
  }

  /** a - d, where inf - d is inf. */
  function Minus(a: Time, d: int): Time
  {
    if a.Fin? then Fin(a.n - d) else Inf
  }

  /** Python's max(a, b): a unless b is larger. */
  function Max(a: int, b: int): int
  {
    if b > a then b else a
  }

  // ---------------------------------------------------------------------------
  // The table as the recurrences read it

  /** The names in table order, each name's record (tareas[x]), its successor list
      (lines 23-27) and its rank in the wave order. */
  datatype Net = Net(keys: seq<string>, act: map<string, Activity>,
                     succ: map<string, seq<string>>, rank: map<string, nat>)

  /** Every successor is an activity ranked above its predecessor: what the route
      search needs to terminate. */
  ghost predicate Routable(n: Net)
  {
    && n.act.Keys == Elems(n.keys) && n.succ.Keys == n.act.Keys && n.rank.Keys == n.act.Keys
    && (forall x :: x in n.rank ==> n.rank[x] < |n.keys|)
    && (forall x, j :: x in n.succ && 0 <= j < |n.succ[x]| ==>
          n.succ[x][j] in n.act && n.rank[x] < n.rank[n.succ[x][j]])
  }

  /** Every followed predecessor and every successor is an activity; predecessors
      rank below and successors above; each successor has x as a predecessor. */
  ghost predicate Ranked(n: Net)
  {
    && Routable(n)
    && (forall x, j :: x in n.act && 0 <= j < |n.act[x].preds| && n.act[x].preds[j] != "-" ==>
          n.act[x].preds[j] in n.act && n.rank[n.act[x].preds[j]] < n.rank[x])
    && (forall x, j :: x in n.succ && 0 <= j < |n.succ[x]| ==> x in Deps(n.act[n.succ[x][j]]))
  }

  /** Every predecessor p of x lists x among its successors. */
  ghost predicate Linked(n: Net)
  {
    forall x, p :: x in n.act && p in Deps(n.act[x]) ==> p in n.succ && x in n.succ[p]
  }

  /** The records of a table by name. */
  function ActOf(acts: Dict<Activity>): map<string, Activity>
  {
    map x | x in Keys(acts) :: Get(acts, x)
  }

  /** The successor lists of a table by name. */
  function SuccOf(acts: Dict<Activity>): map<string, seq<string>>
  {
    map x | x in Keys(acts) :: Succ(acts, x)
  }

  /** The wave ranks of a table by name. */
  ghost function RankOf(acts: Dict<Activity>): map<string, nat>
    requires Ready(acts)
  {
    map x | x in Keys(acts) :: Rank(acts, x)
  }

  /** The view of a table. */
  ghost function NetOf(acts: Dict<Activity>): Net
    requires Ready(acts)
  {
    Net(KeySeq(acts), ActOf(acts), SuccOf(acts), RankOf(acts))
  }

  /** The names in table order are the names of the table, each once. */
  lemma NetKeys(acts: Dict<Activity>)
    requires DistinctKeys(acts)
    ensures Elems(KeySeq(acts)) == Keys(acts) && Distinct(KeySeq(acts)) && |Keys(acts)| == |acts|
  {
    var ks := KeySeq(acts);
    forall y | y in Keys(acts) ensures y in ks {
      var i :| 0 <= i < |acts| && acts[i].0 == y;
      assert ks[i] == y;
    }
    DistinctCard(ks);
  }

  lemma NetPreds(acts: Dict<Activity>)
    requires Ready(acts)
    ensures var n := NetOf(acts);
            forall x, j :: x in n.act && 0 <= j < |n.act[x].preds| && n.act[x].preds[j] != "-" ==>
              n.act[x].preds[j] in n.act && n.rank[n.act[x].preds[j]] < n.rank[x]
  {
    var act, rank := ActOf(acts), RankOf(acts);
    forall x, j | x in act && 0 <= j < |act[x].preds| && act[x].preds[j] != "-"
      ensures act[x].preds[j] in act && rank[act[x].preds[j]] < rank[x]
    {
      RankDeps(acts, x, act[x].preds[j]);
    }
  }

  /** The names, records and ranks of the view cover the same names. */
  lemma NetShape(acts: Dict<Activity>)
    requires Ready(acts)
    ensures var n := NetOf(acts);
            && n.act.Keys == Elems(n.keys) && n.succ.Keys == n.act.Keys && n.rank.Keys == n.act.Keys
            && (forall x :: x in n.rank ==> n.rank[x] < |n.keys|)
  {
    NetKeys(acts);
  }

  lemma NetSuccs(acts: Dict<Activity>)
    requires Ready(acts)
    ensures var n := NetOf(acts);
            forall x, j :: x in n.succ && 0 <= j < |n.succ[x]| ==>
              n.succ[x][j] in n.act && n.rank[x] < n.rank[n.succ[x][j]]
  {
    var act, succ, rank := ActOf(acts), SuccOf(acts), RankOf(acts);
    forall x, j | x in succ && 0 <= j < |succ[x]|
      ensures succ[x][j] in act && rank[x] < rank[succ[x][j]]
    {
      SuccRank(acts, x, succ[x][j]);
    }
  }

  lemma NetDeps(acts: Dict<Activity>)
    requires Ready(acts)
    ensures var n := NetOf(acts);
            forall x, j :: x in n.succ && 0 <= j < |n.succ[x]| ==> n.succ[x][j] in n.act && x in Deps(n.act[n.succ[x][j]])
  {
    var act, succ := ActOf(acts), SuccOf(acts);
    forall x, j | x in succ && 0 <= j < |succ[x]| ensures succ[x][j] in act && x in Deps(act[succ[x][j]]) {
      SuccIff(acts, x, succ[x][j]);
    }
  }

  lemma LinkedAt(acts: Dict<Activity>, x: string, p: string)
    requires Ready(acts) && x in Keys(acts) && p in Deps(Get(acts, x))
    ensures p in Keys(acts) && x in Succ(acts, p)
  {
    RankDeps(acts, x, p);
    SuccIff(acts, p, x);
  }

  lemma NetLinked(acts: Dict<Activity>)
    requires Ready(acts)
    ensures var act, succ := ActOf(acts), SuccOf(acts);
            forall x, p :: x in act && p in Deps(act[x]) ==> p in succ && x in succ[p]
  {
    var act, succ := ActOf(acts), SuccOf(acts);
    forall x, p | x in act && p in Deps(act[x]) ensures p in succ && x in succ[p] {
      LinkedAt(acts, x, p);
    }
  }

  /** The view of a table whose predecessors are all defined and acyclic is ranked
      and linked, and lists every name once. */
  lemma NetReady(acts: Dict<Activity>)
    requires Ready(acts)
    ensures Ranked(NetOf(acts)) && Linked(NetOf(acts)) && Distinct(NetOf(acts).keys)
    ensures |NetOf(acts).keys| == |acts|
  {
    NetRoutable(acts);
    NetPreds(acts);
    NetDeps(acts);
    NetLinked(acts);
    NetKeys(acts);
  }

  lemma NetRoutable(acts: Dict<Activity>)
    requires Ready(acts)
    ensures Routable(NetOf(acts))
  {
    NetShape(acts);
    NetSuccs(acts);
  }

  // ---------------------------------------------------------------------------
  // The forward recurrences (lines 30-43)

  /** EF = ES + duration (line 42). */
  function EF(n: Net, x: string): int
    requires Ranked(n) && x in n.act
    decreases n.rank[x], 2
  {
    ES(n, x) + n.act[x].duration
  }

  /** ES: the largest EF among the predecessors, 0 when there are none (lines 35-41). */
  function ES(n: Net, x: string): int
    requires Ranked(n) && x in n.act
    decreases n.rank[x], 1
  {
    MaxEF(n, x, |n.act[x].preds|)
  }

  /** es after the loop of lines 36-39 has read the first k predecessors: max(es, EF(p))
      for each p other than "-", starting from 0. */
  function MaxEF(n: Net, x: string, k: nat): (m: int)
    requires Ranked(n) && x in n.act && k <= |n.act[x].preds|
    ensures m >= 0
    decreases n.rank[x], 0, k
  {
    if k == 0 then 0
    else
      var p := n.act[x].preds[k - 1];
      var m := MaxEF(n, x, k - 1);
      if p == "-" then m else Max(m, EF(n, p))
  }

  /** The largest element of a nonempty list (Python's max over an iterable). */
  function MaxOf(s: seq<int>): (m: int)
    requires s != []
    ensures forall i :: 0 <= i < |s| ==> s[i] <= m
    ensures exists i :: 0 <= i < |s| && s[i] == m
  {
    if |s| == 1 then s[0]
    else
      var m := MaxOf(s[..|s| - 1]);
      assert forall i :: 0 <= i < |s| - 1 ==> s[..|s| - 1][i] == s[i];
      Max(m, s[|s| - 1])
  }

  /** The EF values in table order. */
  function EFs(n: Net): (s: seq<int>)
    requires Ranked(n)
    ensures |s| == |n.keys|
  {
    seq(|n.keys|, i requires 0 <= i < |n.keys| => assert n.keys[i] in Elems(n.keys); EF(n, n.keys[i]))
  }

  /** duracion_proyecto (line 50): the largest EF of all activities. */
  function Duration(n: Net): int
    requires Ranked(n) && n.keys != []
  {
    MaxOf(EFs(n))
  }

  // ---------------------------------------------------------------------------
  // The backward recurrences (lines 56-79)

  /** LF: the project duration for a final activity (line 59), otherwise the smallest
      LS among the successors (lines 75-78). */
  function LF(n: Net, x: string): int
    requires Ranked(n) && n.keys != [] && x in n.act
    decreases |n.keys| - n.rank[x], 1
  {
    var k := |n.succ[x]|;
    if k == 0 then Duration(n) else MinLS(n, x, k).n
  }

  /** LS = LF - duration (lines 60 and 79). */
  function LS(n: Net, x: string): int
    requires Ranked(n) && n.keys != [] && x in n.act
    decreases |n.keys| - n.rank[x], 2
  {
    LF(n, x) - n.act[x].duration
  }

  /** lf after the loop of lines 75-77 has read the first k successors: min(lf, LS(s))
      for each s, starting from inf. */
  function MinLS(n: Net, x: string, k: nat): (m: Time)
    requires Ranked(n) && n.keys != [] && x in n.act && k <= |n.succ[x]|
    ensures m.Fin? <==> k > 0
    decreases |n.keys| - n.rank[x], 0, k
  {
    if k == 0 then Inf
    else Min(MinLS(n, x, k - 1), Fin(LS(n, n.succ[x][k - 1])))
  }

  /** holgura = LS - ES (line 89). */
  function Slack(n: Net, x: string): int
    requires Ranked(n) && n.keys != [] && x in n.act
  {
    LS(n, x) - ES(n, x)
  }

  // ---------------------------------------------------------------------------
  // What the recurrences mean

  lemma {:induction false} MaxEFBounds(n: Net, x: string, k: nat)
    requires Ranked(n) && x in n.act && k <= |n.act[x].preds|
    ensures var ps := n.act[x].preds;
            forall j :: 0 <= j < k && ps[j] != "-" ==> ps[j] in n.act && EF(n, ps[j]) <= MaxEF(n, x, k)
    ensures var ps := n.act[x].preds;
            MaxEF(n, x, k) == 0 ||
            exists j :: 0 <= j < k && ps[j] != "-" && ps[j] in n.act && MaxEF(n, x, k) == EF(n, ps[j])
  {
    if k > 0 {
      MaxEFBounds(n, x, k - 1);
    }
  }

  /** Lines 34-41: an activity without predecessors starts at 0; otherwise it starts at
      the largest EF among its predecessors. */
  lemma EarlyStart(n: Net, x: string)
    requires Ranked(n) && x in n.act
    ensures Deps(n.act[x]) == {} ==> ES(n, x) == 0
    ensures forall p :: p in Deps(n.act[x]) ==> p in n.act && EF(n, p) <= ES(n, x)
    ensures Deps(n.act[x]) != {} ==> exists p :: p in Deps(n.act[x]) && p in n.act && ES(n, x) == EF(n, p)
  {
    var ps := n.act[x].preds;
    MaxEFBounds(n, x, |ps|);
    forall p | p in Deps(n.act[x]) ensures p in n.act && EF(n, p) <= ES(n, x) {
      var j :| 0 <= j < |ps| && ps[j] == p;
    }
    if ES(n, x) != 0 {
      var j :| 0 <= j < |ps| && ps[j] != "-" && ps[j] in n.act && ES(n, x) == EF(n, ps[j]);
      assert ps[j] in Deps(n.act[x]);
    } else if Deps(n.act[x]) != {} {
      var p :| p in Deps(n.act[x]);
      assert EF(n, p) == 0;
    }
  }

  /** Line 50: the project duration is the largest EF. */
  lemma DurationIsMax(n: Net)
    requires Ranked(n) && n.keys != []
    ensures forall x :: x in n.act ==> EF(n, x) <= Duration(n)
    ensures exists x :: x in n.act && EF(n, x) == Duration(n)
  {
    var s := EFs(n);
    forall x | x in n.act ensures EF(n, x) <= Duration(n) {
      var i :| 0 <= i < |n.keys| && n.keys[i] == x;
      assert s[i] == EF(n, x);
    }
    var i :| 0 <= i < |s| && s[i] == Duration(n);
    assert n.keys[i] in Elems(n.keys);
  }

  lemma {:induction false} MinLSBounds(n: Net, x: string, k: nat)
    requires Ranked(n) && n.keys != [] && x in n.act && k <= |n.succ[x]|
    ensures var ss := n.succ[x];
            forall j :: 0 <= j < k ==> ss[j] in n.act && MinLS(n, x, k).n <= LS(n, ss[j])
    ensures var ss := n.succ[x];
            k > 0 ==> exists j :: 0 <= j < k && ss[j] in n.act && MinLS(n, x, k).n == LS(n, ss[j])
  {
    if k > 0 {
      MinLSBounds(n, x, k - 1);
    }
  }

  /** Lines 58-59 and 74-78: a final activity finishes late at the project duration;
      any other finishes late at the smallest LS among its successors. */
  lemma LateFinish(n: Net, x: string)
    requires Ranked(n) && n.keys != [] && x in n.act
    ensures n.succ[x] == [] ==> LF(n, x) == Duration(n)
    ensures forall s :: s in n.succ[x] ==> s in n.act && LF(n, x) <= LS(n, s)
    ensures n.succ[x] != [] ==> exists s :: s in n.succ[x] && s in n.act && LF(n, x) == LS(n, s)
  {
    var ss := n.succ[x];
    MinLSBounds(n, x, |ss|);
    forall s | s in ss ensures s in n.act && LF(n, x) <= LS(n, s) {
      var j :| 0 <= j < |ss| && ss[j] == s;
    }
    if ss != [] {
      var j :| 0 <= j < |ss| && ss[j] in n.act && MinLS(n, x, |ss|).n == LS(n, ss[j]);
      assert ss[j] in ss;
    }
  }

  /** No activity finishes late after the project duration. */
  lemma {:induction false} LateFinishBound(n: Net, x: string)
    requires Ranked(n) && n.keys != [] && x in n.act
    ensures LF(n, x) <= Duration(n)
    decreases |n.keys| - n.rank[x]
  {
    LateFinish(n, x);
    if n.succ[x] != [] {
      var s :| s in n.succ[x] && s in n.act && LF(n, x) == LS(n, s);
      var j :| 0 <= j < |n.succ[x]| && n.succ[x][j] == s;
      LateFinishBound(n, s);
    }
  }

  /** Slack = LS - ES = LF - EF, and it is never negative: every activity can finish
      late no earlier than it can finish early. */
  lemma {:induction false} SlackNonnegative(n: Net, x: string)
    requires Ranked(n) && n.keys != [] && x in n.act
    ensures Slack(n, x) == LF(n, x) - EF(n, x)
    ensures Slack(n, x) >= 0
    decreases |n.keys| - n.rank[x]
  {
    LateFinish(n, x);
    if n.succ[x] == [] {
      DurationIsMax(n);
    } else {
      var s :| s in n.succ[x] && s in n.act && LF(n, x) == LS(n, s);
      var j :| 0 <= j < |n.succ[x]| && n.succ[x][j] == s;
      SlackNonnegative(n, s);
      EarlyStart(n, s);
    }
  }

  /** Some activity has zero slack: one whose EF is the project duration. */
  lemma CriticalActivity(n: Net)
    requires Ranked(n) && n.keys != []
    ensures exists x :: x in n.act && Slack(n, x) == 0
  {
    DurationIsMax(n);
    var x :| x in n.act && EF(n, x) == Duration(n);
    LateFinishBound(n, x);
    SlackNonnegative(n, x);
  }

  // ---------------------------------------------------------------------------
  // The forward pass

  /** The ES column of the memo once the activities in done are computed; the others
      still hold their initial 0 (line 16). */
  function EsTable(n: Net, done: set<string>): map<string, int>
    requires Ranked(n)
  {
    map y | y in n.act :: if y in done then ES(n, y) else 0
  }

  /** The EF column likewise (line 17). */
  function EfTable(n: Net, done: set<string>): map<string, int>
    requires Ranked(n)
  {
    map y | y in n.act :: if y in done then EF(n, y) else 0
  }

  /** Storing the ES and EF of x settles x. */
  lemma Settle(n: Net, done: set<string>, x: string, es: map<string, int>, ef: map<string, int>, e: int)
    requires Ranked(n) && x in n.act
    requires es == EsTable(n, done) && ef == EfTable(n, done) && e == ES(n, x)
    ensures es[x := e] == EsTable(n, done + {x})
    ensures ef[x := e + n.act[x].duration] == EfTable(n, done + {x})
  {
  }

  /** calcular_forward (lines 30-43): a positive EF in the memo is returned as it is;
      otherwise the predecessors are computed first, then ES and EF are stored. */
  method Forward(ghost n: Net, act: map<string, Activity>, x: string,
                 ghost done0: set<string>, es0: map<string, int>, ef0: map<string, int>)
    returns (r: int, ghost done: set<string>, es: map<string, int>, ef: map<string, int>)
    requires Ranked(n) && act == n.act && x in act && done0 <= act.Keys
    requires es0 == EsTable(n, done0) && ef0 == EfTable(n, done0)
    ensures done0 <= done <= act.Keys && x in done
    ensures es == EsTable(n, done) && ef == EfTable(n, done)
    ensures r == EF(n, x)
    decreases n.rank[x]
  {
    if ef0[x] > 0 {
      return ef0[x], done0, es0, ef0;
    }
    done, es, ef := done0, es0, ef0;
    var e := 0;
    var ps := act[x].preds;
    for k := 0 to |ps|
      invariant done0 <= done <= act.Keys
      invariant es == EsTable(n, done) && ef == EfTable(n, done)
      invariant e == MaxEF(n, x, k)
    {
      if ps[k] != "-" {
        var pe;
        pe, done, es, ef := Forward(n, act, ps[k], done, es, ef);
        e := Max(e, pe);
      }
    }
    Settle(n, done, x, es, ef, e);
    es := es[x := e];
    ef := ef[x := e + act[x].duration];
    done := done + {x};
    r := ef[x];
  }

  /** Lines 16-17 and 46-47: from the initial zeros, the forward pass over every
      activity in table order. */
  method ForwardPass(ghost n: Net, keys: seq<string>, act: map<string, Activity>)
    returns (es: map<string, int>, ef: map<string, int>)
    requires Ranked(n) && keys == n.keys && act == n.act
    ensures es == EsTable(n, act.Keys) && ef == EfTable(n, act.Keys)
  {
    es := map k | k in act :: 0;
    ef := es;
    ghost var done: set<string> := {};
    assert es == EsTable(n, done) && ef == EfTable(n, done);
    for i := 0 to |keys|
      invariant done <= act.Keys
      invariant es == EsTable(n, done) && ef == EfTable(n, done)
      invariant forall j :: 0 <= j < i ==> keys[j] in done
    {
      assert keys[i] in Elems(keys);
      var r;
      r, done, es, ef := Forward(n, act, keys[i], done, es, ef);
    }
    assert done == act.Keys by {
      forall y | y in act ensures y in done {
        var j :| 0 <= j < |keys| && keys[j] == y;
      }
    }
  }

  // ---------------------------------------------------------------------------
  // The backward pass

  /** The final activities: those without successors. */
  function FinalSet(n: Net): set<string>
    requires n.act.Keys <= n.succ.Keys
  {
    set y | y in n.act && n.succ[y] == []
  }

  /** The LS column once the activities in known are computed; the others still hold
      their initial inf (line 18). */
  function LsTable(n: Net, known: set<string>): map<string, Time>
    requires Ranked(n) && n.keys != []
  {
    map y | y in n.act :: if y in known then Fin(LS(n, y)) else Inf
  }

  /** The LF column likewise (line 19). */
  function LfTable(n: Net, known: set<string>): map<string, Time>
    requires Ranked(n) && n.keys != []
  {
    map y | y in n.act :: if y in known then Fin(LF(n, y)) else Inf
  }

  /** Storing the LF and LS of x finishes x. */
  lemma Finish(n: Net, known: set<string>, x: string, ls: map<string, Time>, lf: map<string, Time>, m: Time)
    requires Ranked(n) && n.keys != [] && x in n.act
    requires ls == LsTable(n, known) && lf == LfTable(n, known) && m == Fin(LF(n, x))
    ensures lf[x := m] == LfTable(n, known + {x})
    ensures ls[x := Minus(m, n.act[x].duration)] == LsTable(n, known + {x})
  {
    assert Minus(m, n.act[x].duration) == Fin(LS(n, x));
  }

  /** lf after lines 75-77, once every successor has its LS. */
  method MinSuccessorLS(ghost n: Net, succ: map<string, seq<string>>, x: string,
                        ghost known: set<string>, ls: map<string, Time>)
    returns (m: Time)
    requires Ranked(n) && n.keys != [] && succ == n.succ && x in succ
    requires ls == LsTable(n, known) && forall j :: 0 <= j < |succ[x]| ==> succ[x][j] in known
    ensures m == MinLS(n, x, |succ[x]|)
  {
    var ss := succ[x];
    m := Inf;
    for k := 0 to |ss|
      invariant m == MinLS(n, x, k)
    {
      m := Min(m, ls[ss[k]]);
    }
  }

  /** Lines 74-80: once its successors are visited, a non-final activity gets the
      smallest LS among them as LF, and LS = LF - duration; a final one keeps the
      values seeded for it. */
  method Conclude(ghost n: Net, act: map<string, Activity>, succ: map<string, seq<string>>,
                  finales: seq<string>, x: string, ghost known: set<string>,
                  ls0: map<string, Time>, lf0: map<string, Time>)
    returns (ls: map<string, Time>, lf: map<string, Time>)
    requires Ranked(n) && n.keys != [] && act == n.act && succ == n.succ && x in act
    requires Elems(finales) == FinalSet(n) && FinalSet(n) <= known
    requires forall j :: 0 <= j < |succ[x]| ==> succ[x][j] in known
    requires ls0 == LsTable(n, known) && lf0 == LfTable(n, known)
    ensures ls == LsTable(n, known + {x}) && lf == LfTable(n, known + {x})
  {
    if x !in finales {
      assert x !in Elems(finales);
      var m := MinSuccessorLS(n, succ, x, known, ls0);
      Finish(n, known, x, ls0, lf0, m);
      lf := lf0[x := m];
      ls := ls0[x := Minus(m, act[x].duration)];
    } else {
      assert x in Elems(finales);
      assert known + {x} == known;
      ls, lf := ls0, lf0;
    }
  }

  /** calcular_backward (lines 65-81): an unvisited activity first has its successors
      processed, then its LF and LS settled; then it is marked visited. */
  method Backward(ghost n: Net, act: map<string, Activity>, succ: map<string, seq<string>>,
                  finales: seq<string>, x: string,
                  visited0: set<string>, ls0: map<string, Time>, lf0: map<string, Time>)
    returns (visited: set<string>, ls: map<string, Time>, lf: map<string, Time>)
    requires Ranked(n) && n.keys != [] && act == n.act && succ == n.succ && x in act
    requires Elems(finales) == FinalSet(n) && visited0 <= act.Keys
    requires ls0 == LsTable(n, visited0 + FinalSet(n)) && lf0 == LfTable(n, visited0 + FinalSet(n))
    ensures visited0 <= visited <= act.Keys && x in visited
    ensures ls == LsTable(n, visited + FinalSet(n)) && lf == LfTable(n, visited + FinalSet(n))
    decreases |n.keys| - n.rank[x]
  {
    if x in visited0 {
      return visited0, ls0, lf0;
    }
    visited, ls, lf := visited0, ls0, lf0;
    var ss := succ[x];
    for k := 0 to |ss|
      invariant visited0 <= visited <= act.Keys
      invariant ls == LsTable(n, visited + FinalSet(n)) && lf == LfTable(n, visited + FinalSet(n))
      invariant forall j :: 0 <= j < k ==> ss[j] in visited
    {
      visited, ls, lf := Backward(n, act, succ, finales, ss[k], visited, ls, lf);
    }
    ls, lf := Conclude(n, act, succ, finales, x, visited + FinalSet(n), ls, lf);
    assert (visited + FinalSet(n)) + {x} == (visited + {x}) + FinalSet(n);
    visited := visited + {x};
  }

  /** Lines 18-19 and 58-60: from the initial inf, every final activity gets LF = the
      project duration and LS = LF minus its own duration. */
  method SeedFinals(ghost n: Net, act: map<string, Activity>, finales: seq<string>, d: int)
    returns (ls: map<string, Time>, lf: map<string, Time>)
    requires Ranked(n) && n.keys != [] && act == n.act && d == Duration(n)
    requires Elems(finales) == FinalSet(n)
    ensures ls == LsTable(n, FinalSet(n)) && lf == LfTable(n, FinalSet(n))
  {
    ls := map k | k in act :: Inf;
    lf := ls;
    assert ls == LsTable(n, Elems(finales[..0])) && lf == LfTable(n, Elems(finales[..0]));
    for i := 0 to |finales|
      invariant ls == LsTable(n, Elems(finales[..i])) && lf == LfTable(n, Elems(finales[..i]))
    {
      var x := finales[i];
      assert x in Elems(finales);
      Finish(n, Elems(finales[..i]), x, ls, lf, Fin(d));
      lf := lf[x := Fin(d)];
      ls := ls[x := Fin(d - act[x].duration)];
      assert finales[..i + 1] == finales[..i] + [x];
      ElemsSnoc(finales[..i], x);
    }
    assert finales[..|finales|] == finales;
  }

  /** Lines 56-85: seed the finals, then the backward pass over every activity in
      table order. */
  method BackwardPass(ghost n: Net, keys: seq<string>, act: map<string, Activity>,
                      succ: map<string, seq<string>>, finales: seq<string>, d: int)
    returns (ls: map<string, Time>, lf: map<string, Time>)
    requires Ranked(n) && n.keys != [] && keys == n.keys && act == n.act && succ == n.succ
    requires d == Duration(n) && Elems(finales) == FinalSet(n)
    ensures ls == LsTable(n, act.Keys) && lf == LfTable(n, act.Keys)
  {
    ls, lf := SeedFinals(n, act, finales, d);
    var visited: set<string> := {};
    assert visited + FinalSet(n) == FinalSet(n);
    for i := 0 to |keys|
      invariant visited <= act.Keys
      invariant ls == LsTable(n, visited + FinalSet(n)) && lf == LfTable(n, visited + FinalSet(n))
      invariant forall j :: 0 <= j < i ==> keys[j] in visited
    {
      assert keys[i] in Elems(keys);
      visited, ls, lf := Backward(n, act, succ, finales, keys[i], visited, ls, lf);
    }
    assert visited + FinalSet(n) == act.Keys by {
      forall y | y in act ensures y in visited {
        var j :| 0 <= j < |keys| && keys[j] == y;
      }
    }
  }

  // ---------------------------------------------------------------------------
  // The whole computation

  /** The record of an activity as calcular_tiempos_cpm returns it. */
  datatype Record = Record(preds: seq<string>, duration: nat, succ: seq<string>,
                           es: int, ef: int, ls: Time, lf: Time, slack: Time)

  function Row(n: Net, x: string): Record
    requires Ranked(n) && n.keys != [] && x in n.act
  {
    var a := n.act[x];
    Record(a.preds, a.duration, n.succ[x], ES(n, x), EF(n, x), Fin(LS(n, x)), Fin(LF(n, x)), Fin(Slack(n, x)))
  }

  /** The dict calcular_tiempos_cpm returns: every activity's row, in table order. */
  function TimesTable(n: Net): (t: Dict<Record>)
    requires Ranked(n) && n.keys != []
    ensures |t| == |n.keys|
  {
    seq(|n.keys|, i requires 0 <= i < |n.keys| => assert n.keys[i] in Elems(n.keys); (n.keys[i], Row(n, n.keys[i])))
  }

  /** A memo column read in table order. */
  function Column(keys: seq<string>, memo: map<string, int>): (s: seq<int>)
    requires forall i :: 0 <= i < |keys| ==> keys[i] in memo
    ensures |s| == |keys| && forall i :: 0 <= i < |keys| ==> s[i] == memo[keys[i]]
  {
    seq(|keys|, i requires 0 <= i < |keys| => memo[keys[i]])
  }

  /** The duration is computed from the memo the forward pass left (line 50). */
  lemma DurationOfMemo(n: Net, ef: map<string, int>)
    requires Ranked(n) && n.keys != [] && ef == EfTable(n, n.act.Keys)
    ensures forall i :: 0 <= i < |n.keys| ==> n.keys[i] in ef
    ensures MaxOf(Column(n.keys, ef)) == Duration(n)
  {
    assert forall i :: 0 <= i < |n.keys| ==> n.keys[i] in Elems(n.keys);
    assert Column(n.keys, ef) == EFs(n);
  }

  /** Lines 88-89: the slack of every activity, the rows assembled in table order. */
  method SlackPass(ghost n: Net, keys: seq<string>, act: map<string, Activity>, succ: map<string, seq<string>>,
                   es: map<string, int>, ef: map<string, int>, ls: map<string, Time>, lf: map<string, Time>)
    returns (table: Dict<Record>)
    requires Ranked(n) && n.keys != [] && keys == n.keys && act == n.act && succ == n.succ
    requires es == EsTable(n, act.Keys) && ef == EfTable(n, act.Keys)
    requires ls == LsTable(n, act.Keys) && lf == LfTable(n, act.Keys)
    ensures table == TimesTable(n)
  {
    table := [];
    for i := 0 to |keys|
      invariant table == TimesTable(n)[..i]
    {
      var x := keys[i];
      assert x in Elems(keys);
      var slack := Minus(ls[x], es[x]);
      table := table + [(x, Record(act[x].preds, act[x].duration, succ[x], es[x], ef[x], ls[x], lf[x], slack))];
      assert TimesTable(n)[..i + 1] == TimesTable(n)[..i] + [TimesTable(n)[i]];
    }
    assert TimesTable(n)[..|keys|] == TimesTable(n);
  }

  /** The returned dict has the names of the table as keys, each once. */
  lemma TimesTableKeys(n: Net)
    requires Ranked(n) && n.keys != [] && Distinct(n.keys)
    ensures var t := TimesTable(n); DistinctKeys(t) && Keys(t) == n.act.Keys
  {
    var t := TimesTable(n);
    assert forall i :: 0 <= i < |t| ==> t[i].0 == n.keys[i];
    forall y | y in n.act ensures y in Keys(t) {
      var i :| 0 <= i < |n.keys| && n.keys[i] == y;
      assert t[i].0 == y;
    }
  }

  /** Each name of the returned dict holds its row. */
  lemma TimesTableGet(n: Net, x: string)
    requires Ranked(n) && n.keys != [] && Distinct(n.keys) && x in n.act
    ensures var t := TimesTable(n); x in Keys(t) && Get(t, x) == Row(n, x)
  {
    TimesTableKeys(n);
    var t := TimesTable(n);
    var i :| 0 <= i < |n.keys| && n.keys[i] == x;
    assert t[i] == (x, Row(n, x));
  }

  /** The names finales lists (lines 56-57) are exactly the final activities. */
  lemma FinalsListed(n: Net, keys: seq<string>, succ: map<string, seq<string>>)
    requires Ranked(n) && keys == n.keys && succ == n.succ
    ensures forall i :: 0 <= i < |keys| ==> keys[i] in succ
    ensures Elems(FinalList(keys, succ)) == FinalSet(n)
  {
    assert forall i :: 0 <= i < |keys| ==> keys[i] in Elems(keys);
  }

  lemma SuccOfLinked(acts: Dict<Activity>, succ: map<string, seq<string>>)
    requires succ.Keys == Keys(acts) && forall p :: p in succ ==> succ[p] == Succ(acts, p)
    ensures succ == SuccOf(acts)
  {
  }

  /** Lines 7-27: the table and its successor lists. */
  method LinkTable(data: seq<Item>) returns (acts: Dict<Activity>, succ: map<string, seq<string>>)
    requires Ready(Table(data))
    ensures acts == Table(data) && (data != [] ==> acts != []) && succ == SuccOf(acts)
  {
    acts := BuildTable(data);
    assert data != [] ==> data[0].name in Keys(acts);
    ReadyDefined(acts);
    succ := LinkSuccessors(acts);
    SuccOfLinked(acts, succ);
  }

  /** Lines 7-27 and 56-57: the table, its successor lists and its final activities. */
  method Prepare(data: seq<Item>)
    returns (ghost n: Net, keys: seq<string>, act: map<string, Activity>,
             succ: map<string, seq<string>>, finales: seq<string>)
    requires data != [] && Ready(Table(data))
    ensures n == NetOf(Table(data)) && Ranked(n) && Linked(n) && Distinct(n.keys) && n.keys != []
    ensures keys == n.keys && act == n.act && succ == n.succ && Elems(finales) == FinalSet(n)
  {
    var acts;
    acts, succ := LinkTable(data);
    NetReady(acts);
    n := NetOf(acts);
    keys := KeySeq(acts);
    act := ActOf(acts);
    FinalsListed(n, keys, succ);
    finales := FinalList(keys, succ);
  }

  /** Lines 16-91 on the prepared table: both passes and the slack. */
  method Times(ghost n: Net, keys: seq<string>, act: map<string, Activity>,
               succ: map<string, seq<string>>, finales: seq<string>)
    returns (table: Dict<Record>, duration: int)
    requires Ranked(n) && n.keys != [] && keys == n.keys && act == n.act && succ == n.succ
    requires Elems(finales) == FinalSet(n)
    ensures table == TimesTable(n) && duration == Duration(n)
  {
    var es, ef := ForwardPass(n, keys, act);
    DurationOfMemo(n, ef);
    duration := MaxOf(Column(keys, ef));
    var ls, lf := BackwardPass(n, keys, act, succ, finales, duration);
    table := SlackPass(n, keys, act, succ, es, ef, ls, lf);
  }

  /** calcular_tiempos_cpm: the dict of ES, EF, LS, LF and slack, in input order, and
      the project duration. */
  method CpmTimes(data: seq<Item>) returns (table: Dict<Record>, duration: int)
    requires data != [] && Ready(Table(data))
    ensures Ranked(NetOf(Table(data))) && NetOf(Table(data)).keys != []
    ensures table == TimesTable(NetOf(Table(data)))
    ensures duration == Duration(NetOf(Table(data)))
  {
    ghost var n;
    var keys, act, succ, finales;
    n, keys, act, succ, finales := Prepare(data);
    table, duration := Times(n, keys, act, succ, finales);
  }
}
