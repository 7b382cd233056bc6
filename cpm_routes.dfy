/** encontrar_rutas_cpm (ruta_critica.py:94-135): every route from a start activity
    to a final one, found by the depth-first search buscar_rutas, then sorted by
    duration, longest first. */
module CpmRoutes {
  import opened Base
  import opened Activities
  import opened Successors
  import opened CpmTable
  import opened CpmTimes

  /** A route and its duration, as the tuples of rutas. */
  datatype Route = Route(path: seq<string>, length: int)

  /** inicio (lines 113-114): an activity whose predecessor list is empty or the
      single token "-". */
  predicate IsStart(a: Activity)
  {
    a.preds == [] || a.preds == ["-"]
  }

  /** inicio: the start activities in table order. */
  function StartList(keys: seq<string>, act: map<string, Activity>): (ss: seq<string>)
    requires forall i :: 0 <= i < |keys| ==> keys[i] in act
    ensures forall x :: x in ss <==> x in keys && IsStart(act[x])
  {
    if keys == [] then []
    else
      var k := keys[|keys| - 1];
      var rest := StartList(keys[..|keys| - 1], act);
      assert forall x :: x in keys <==> x in keys[..|keys| - 1] || x == k;
      if IsStart(act[k]) then rest + [k] else rest
  }

  // ---------------------------------------------------------------------------
  // The routes buscar_rutas finds

  /** The routes buscar_rutas(x, path, total) appends (lines 119-128): x and its
      duration are added; a final x closes the route, any other continues through
      each successor in order. */
  function RoutesFrom(n: Net, x: string, path: seq<string>, total: int): seq<Route>
    requires Routable(n) && x in n.act
    decreases |n.keys| - n.rank[x], 1
  {
    var p, t := path + [x], total + n.act[x].duration;
    if n.succ[x] == [] then [Route(p, t)] else RoutesVia(n, x, |n.succ[x]|, p, t)
  }

  /** The routes through the first k successors of x (lines 127-128). */
  function RoutesVia(n: Net, x: string, k: nat, p: seq<string>, t: int): seq<Route>
    requires Routable(n) && x in n.act && k <= |n.succ[x]|
    decreases |n.keys| - n.rank[x], 0, k
  {
    if k == 0 then [] else RoutesVia(n, x, k - 1, p, t) + RoutesFrom(n, n.succ[x][k - 1], p, t)
  }

  /** The routes from each activity of ss in turn (lines 130-132). */
  function RoutesOf(n: Net, ss: seq<string>): seq<Route>
    requires Routable(n) && forall i :: 0 <= i < |ss| ==> ss[i] in n.act
  {
    if ss == [] then []
    else RoutesOf(n, ss[..|ss| - 1]) + RoutesFrom(n, ss[|ss| - 1], [], 0)
  }

  /** inicio, over the network: the start activities, all of them activities. */
  function Starts(n: Net): (ss: seq<string>)
    requires Routable(n)
    ensures forall i :: 0 <= i < |ss| ==> ss[i] in n.act
    ensures forall x :: x in ss <==> x in n.act && IsStart(n.act[x])
  {
    assert forall i :: 0 <= i < |n.keys| ==> n.keys[i] in Elems(n.keys);
    var ss := StartList(n.keys, n.act);
    assert forall i :: 0 <= i < |ss| ==> ss[i] in ss;
    ss
  }

  /** rutas before sorting: the routes from every start activity. */
  function AllRoutes(n: Net): seq<Route>
    requires Routable(n)
  {
    RoutesOf(n, Starts(n))
  }

  // ---------------------------------------------------------------------------
  // Chains of activities

  /** q follows successor links. */
  ghost predicate Chain(n: Net, q: seq<string>)
  {
    && q != []
    && (forall i :: 0 <= i < |q| ==> q[i] in n.act && q[i] in n.succ)
    && (forall i :: 0 <= i < |q| - 1 ==> q[i + 1] in n.succ[q[i]])
  }

  /** The sum of the durations along q. */
  function Weight(n: Net, q: seq<string>): int
    requires forall i :: 0 <= i < |q| ==> q[i] in n.act
  {
    if q == [] then 0 else n.act[q[0]].duration + Weight(n, q[1..])
  }

  lemma {:induction false} WeightConcat(n: Net, a: seq<string>, b: seq<string>)
    requires forall i :: 0 <= i < |a| ==> a[i] in n.act
    requires forall i :: 0 <= i < |b| ==> b[i] in n.act
    ensures forall i :: 0 <= i < |a + b| ==> (a + b)[i] in n.act
    ensures Weight(n, a + b) == Weight(n, a) + Weight(n, b)
  {
    if a == [] {
      assert a + b == b;
    } else {
      assert (a + b)[0] == a[0];
      assert (a + b)[1..] == a[1..] + b;
      WeightConcat(n, a[1..], b);
    }
  }

  /** Two chains joined by a successor link make a chain. */
  lemma ChainJoin(n: Net, a: seq<string>, b: seq<string>)
    requires Chain(n, a) && Chain(n, b) && b[0] in n.succ[a[|a| - 1]]
    ensures Chain(n, a + b)
  {
    var q := a + b;
    forall i | 0 <= i < |q| - 1 ensures q[i + 1] in n.succ[q[i]] {
      if i < |a| - 1 {
      } else if i == |a| - 1 {
      } else {
        assert q[i] == b[i - |a|] && q[i + 1] == b[i + 1 - |a|];
      }
    }
  }

  lemma ChainTail(n: Net, q: seq<string>)
    requires Chain(n, q) && |q| > 1
    ensures Chain(n, q[1..])
  {
    assert forall i :: 0 <= i < |q| - 1 ==> q[1..][i] == q[i + 1];
  }

  // ---------------------------------------------------------------------------
  // Soundness and completeness of the search

  lemma {:induction false} RoutesViaMember(n: Net, x: string, k: nat, p: seq<string>, t: int, r: Route)
    requires Routable(n) && x in n.act && k <= |n.succ[x]| && r in RoutesVia(n, x, k, p, t)
    ensures exists j :: 0 <= j < k && r in RoutesFrom(n, n.succ[x][j], p, t)
  {
    if r !in RoutesFrom(n, n.succ[x][k - 1], p, t) {
      RoutesViaMember(n, x, k - 1, p, t, r);
    }
  }

  lemma {:induction false} RoutesViaContains(n: Net, x: string, k: nat, j: nat, p: seq<string>, t: int, r: Route)
    requires Routable(n) && x in n.act && j < k <= |n.succ[x]| && r in RoutesFrom(n, n.succ[x][j], p, t)
    ensures r in RoutesVia(n, x, k, p, t)
  {
    if j < k - 1 {
      RoutesViaContains(n, x, k - 1, j, p, t, r);
    }
  }

  /** A path whose first |path| + 1 activities are path + [x]. */
  lemma PathStep(rp: seq<string>, path: seq<string>, x: string)
    requires |rp| > |path| && rp[..|path| + 1] == path + [x]
    ensures rp[..|path|] == path && rp[|path|] == x
    ensures rp[|path|..] == [x] + rp[|path| + 1..] && rp[|path|..][1..] == rp[|path| + 1..]
  {
    assert rp[..|path|] == rp[..|path| + 1][..|path|];
    assert rp[|path|] == rp[..|path| + 1][|path|];
  }

  /** Every route the search from x appends extends the route so far by a chain from
      x to a final activity, with its duration added to the total. */
  lemma {:induction false} RoutesFromSound(n: Net, x: string, path: seq<string>, total: int, r: Route)
    requires Routable(n) && x in n.act && r in RoutesFrom(n, x, path, total)
    ensures |r.path| > |path| && r.path[..|path|] == path && r.path[|path|] == x
    ensures var q := r.path[|path|..];
            Chain(n, q) && n.succ[q[|q| - 1]] == [] && r.length == total + Weight(n, q)
    decreases |n.keys| - n.rank[x]
  {
    var p, t := path + [x], total + n.act[x].duration;
    if n.succ[x] == [] {
      assert r == Route(p, t);
      assert r.path[|path|..] == [x];
    } else {
      RoutesViaMember(n, x, |n.succ[x]|, p, t, r);
      var j :| 0 <= j < |n.succ[x]| && r in RoutesFrom(n, n.succ[x][j], p, t);
      var s := n.succ[x][j];
      RoutesFromSound(n, s, p, t, r);
      var q, q' := r.path[|path|..], r.path[|p|..];
      PathStep(r.path, path, x);
      ChainOne(n, x);
      ChainJoin(n, [x], q');
    }
  }

  /** Every chain from x to a final activity is found by the search from x. */
  lemma {:induction false} RoutesFromComplete(n: Net, x: string, path: seq<string>, total: int, q: seq<string>, r: Route)
    requires Routable(n) && Chain(n, q) && q[0] == x && n.succ[q[|q| - 1]] == []
    requires r == Route(path + q, total + Weight(n, q))
    ensures r in RoutesFrom(n, x, path, total)
    decreases |q|
  {
    var p, t := path + [x], total + n.act[x].duration;
    if |q| == 1 {
      assert q == [x];
    } else {
      var s := q[1];
      var j :| 0 <= j < |n.succ[x]| && n.succ[x][j] == s;
      ChainTail(n, q);
      assert p + q[1..] == path + q;
      RoutesFromComplete(n, s, p, t, q[1..], r);
      RoutesViaContains(n, x, |n.succ[x]|, j, p, t, r);
    }
  }

  lemma {:induction false} RoutesOfMember(n: Net, ss: seq<string>, r: Route)
    requires Routable(n) && (forall i :: 0 <= i < |ss| ==> ss[i] in n.act) && r in RoutesOf(n, ss)
    ensures exists i :: 0 <= i < |ss| && r in RoutesFrom(n, ss[i], [], 0)
  {
    var m := |ss| - 1;
    if r !in RoutesFrom(n, ss[m], [], 0) {
      RoutesOfMember(n, ss[..m], r);
      var i :| 0 <= i < m && r in RoutesFrom(n, ss[..m][i], [], 0);
      assert ss[..m][i] == ss[i];
    }
  }

  lemma {:induction false} RoutesOfContains(n: Net, ss: seq<string>, i: nat, r: Route)
    requires Routable(n) && (forall i :: 0 <= i < |ss| ==> ss[i] in n.act)
    requires i < |ss| && r in RoutesFrom(n, ss[i], [], 0)
    ensures r in RoutesOf(n, ss)
  {
    var m := |ss| - 1;
    if i < m {
      assert ss[..m][i] == ss[i];
      RoutesOfContains(n, ss[..m], i, r);
    }
  }

  /** The start activity the search found r from. */
  lemma RouteStart(n: Net, r: Route) returns (x: string)
    requires Routable(n) && r in AllRoutes(n)
    ensures x in n.act && IsStart(n.act[x]) && r in RoutesFrom(n, x, [], 0)
  {
    var ss := Starts(n);
    RoutesOfMember(n, ss, r);
    var i :| 0 <= i < |ss| && r in RoutesFrom(n, ss[i], [], 0);
    x := ss[i];
  }

  /** Lines 113-128: every route found starts at a start activity, follows successor
      links to a final activity, and has the summed duration of its activities. */
  lemma RouteSound(n: Net, r: Route)
    requires Routable(n) && r in AllRoutes(n)
    ensures Chain(n, r.path) && IsStart(n.act[r.path[0]]) && n.succ[r.path[|r.path| - 1]] == []
    ensures r.length == Weight(n, r.path)
  {
    var x := RouteStart(n, r);
    RoutesFromSound(n, x, [], 0, r);
    assert r.path[0..] == r.path;
  }

  /** The routes from a start activity are among all routes. */
  lemma StartRoute(n: Net, x: string, r: Route)
    requires Routable(n) && x in n.act && IsStart(n.act[x]) && r in RoutesFrom(n, x, [], 0)
    ensures r in AllRoutes(n)
  {
    var ss := Starts(n);
    var i :| 0 <= i < |ss| && ss[i] == x;
    RoutesOfContains(n, ss, i, r);
  }

  /** Every chain from a start activity to a final one is found. */
  lemma RouteComplete(n: Net, q: seq<string>)
    requires Routable(n) && Chain(n, q) && IsStart(n.act[q[0]]) && n.succ[q[|q| - 1]] == []
    ensures Route(q, Weight(n, q)) in AllRoutes(n)
  {
    ChainFound(n, q);
    StartRoute(n, q[0], Route(q, Weight(n, q)));
  }

  /** A chain to a final activity is among the routes of its first activity. */
  lemma ChainFound(n: Net, q: seq<string>)
    requires Routable(n) && Chain(n, q) && n.succ[q[|q| - 1]] == []
    ensures Route(q, Weight(n, q)) in RoutesFrom(n, q[0], [], 0)
  {
    assert [] + q == q;
    RoutesFromComplete(n, q[0], [], 0, q, Route(q, Weight(n, q)));
  }

  // ---------------------------------------------------------------------------
  // The search as the Python code runs it

  /** buscar_rutas (lines 119-128), appending to the outer list rutas. */
  method Search(ghost n: Net, act: map<string, Activity>, succ: map<string, seq<string>>,
                finales: seq<string>, x: string, path: seq<string>, total: int, rutas0: seq<Route>)
    returns (rutas: seq<Route>)
    requires Routable(n) && act == n.act && succ == n.succ && x in act && Elems(finales) == FinalSet(n)
    ensures rutas == rutas0 + RoutesFrom(n, x, path, total)
    decreases |n.keys| - n.rank[x]
  {
    var ruta := path + [x];
    var duracion := total + act[x].duration;
    if x in finales {
      assert x in Elems(finales);
      rutas := rutas0 + [Route(ruta, duracion)];
      return;
    }
    assert x !in Elems(finales);
    rutas := rutas0;
    var ss := succ[x];
    for k := 0 to |ss|
      invariant rutas == rutas0 + RoutesVia(n, x, k, ruta, duracion)
    {
      ConcatAssoc(rutas0, RoutesVia(n, x, k, ruta, duracion), RoutesFrom(n, ss[k], ruta, duracion));
      rutas := Search(n, act, succ, finales, ss[k], ruta, duracion, rutas);
    }
  }

  /** Lines 130-132: the search from every start activity in turn. */
  method SearchAll(ghost n: Net, act: map<string, Activity>, succ: map<string, seq<string>>,
                   finales: seq<string>, inicio: seq<string>)
    returns (rutas: seq<Route>)
    requires Routable(n) && act == n.act && succ == n.succ && Elems(finales) == FinalSet(n)
    requires forall i :: 0 <= i < |inicio| ==> inicio[i] in act
    ensures rutas == RoutesOf(n, inicio)
  {
    rutas := [];
    for i := 0 to |inicio|
      invariant rutas == RoutesOf(n, inicio[..i])
    {
      assert inicio[..i + 1][..i] == inicio[..i];
      rutas := Search(n, act, succ, finales, inicio[i], [], 0, rutas);
    }
    assert inicio[..|inicio|] == inicio;
  }

  // ---------------------------------------------------------------------------
  // sorted(rutas, key=duration, reverse=True) (line 134)

  /** Place r after every route at least as long: the stable insertion a descending
      sort performs. */
  function Insert(s: seq<Route>, r: Route): seq<Route>
  {
    if s == [] then [r]
    else if s[0].length < r.length then [r] + s
    else [s[0]] + Insert(s[1..], r)
  }

  /** Python's sorted by duration with reverse=True, which is stable. */
  function SortByLength(rs: seq<Route>): seq<Route>
  {
    if rs == [] then [] else Insert(SortByLength(rs[..|rs| - 1]), rs[|rs| - 1])
  }

  predicate Descending(s: seq<Route>)
  {
    forall i, j :: 0 <= i < j < |s| ==> s[i].length >= s[j].length
  }

  /** r alone when its length is l, nothing otherwise. */
  function Kept(r: Route, l: int): seq<Route>
  {
    if r.length == l then [r] else []
  }

  /** The routes of s of length l, in order. */
  function OfLength(s: seq<Route>, l: int): seq<Route>
  {
    if s == [] then []
    else Kept(s[0], l) + OfLength(s[1..], l)
  }

  lemma {:induction false} DescendingTail(s: seq<Route>)
    requires Descending(s) && s != []
    ensures Descending(s[1..])
  {
    assert forall i :: 0 <= i < |s| - 1 ==> s[1..][i] == s[i + 1];
  }

  /** Inserting r into routes no longer than l leaves them no longer than l. */
  lemma {:induction false} InsertBound(s: seq<Route>, r: Route, l: int)
    requires r.length <= l && forall i :: 0 <= i < |s| ==> s[i].length <= l
    ensures forall i :: 0 <= i < |Insert(s, r)| ==> Insert(s, r)[i].length <= l
  {
    if s != [] && s[0].length >= r.length {
      InsertBound(s[1..], r, l);
    }
  }

  lemma {:induction false} InsertDescending(s: seq<Route>, r: Route)
    requires Descending(s)
    ensures Descending(Insert(s, r))
  {
    if s != [] && s[0].length >= r.length {
      DescendingTail(s);
      InsertDescending(s[1..], r);
      InsertBound(s[1..], r, s[0].length);
    }
  }

  lemma {:induction false} InsertPerm(s: seq<Route>, r: Route)
    ensures multiset(Insert(s, r)) == multiset(s) + multiset{r}
  {
    if s == [] {
    } else if s[0].length < r.length {
      assert Insert(s, r) == [r] + s;
    } else {
      InsertPerm(s[1..], r);
      assert s == [s[0]] + s[1..];
      assert Insert(s, r) == [s[0]] + Insert(s[1..], r);
    }
  }

  lemma OfLengthCons(a: Route, s: seq<Route>, l: int)
    ensures OfLength([a] + s, l) == Kept(a, l) + OfLength(s, l)
  {
    assert ([a] + s)[0] == a && ([a] + s)[1..] == s;
  }

  lemma {:induction false} InsertOfLength(s: seq<Route>, r: Route, l: int)
    requires Descending(s)
    ensures OfLength(Insert(s, r), l) == OfLength(s, l) + Kept(r, l)
  {
    if s == [] {
      OfLengthCons(r, [], l);
    } else if s[0].length < r.length {
      OfLengthCons(r, s, l);
      if r.length == l {
        NoneOfLength(s, l);
      }
    } else {
      DescendingTail(s);
      InsertOfLength(s[1..], r, l);
      OfLengthCons(s[0], Insert(s[1..], r), l);
      ConcatAssoc(Kept(s[0], l), OfLength(s[1..], l), Kept(r, l));
    }
  }

  /** A descending list whose head is shorter than l has no route of length l. */
  lemma {:induction false} NoneOfLength(s: seq<Route>, l: int)
    requires Descending(s) && s != [] && s[0].length < l
    ensures OfLength(s, l) == []
  {
    if |s| > 1 {
      DescendingTail(s);
      NoneOfLength(s[1..], l);
    } else {
      assert s[1..] == [];
    }
  }

  lemma {:induction false} OfLengthSnoc(s: seq<Route>, r: Route, l: int)
    ensures OfLength(s + [r], l) == OfLength(s, l) + Kept(r, l)
  {
    if s == [] {
      assert OfLength([r], l) == Kept(r, l) + OfLength([], l);
    } else {
      assert (s + [r])[1..] == s[1..] + [r];
      OfLengthSnoc(s[1..], r, l);
    }
  }

  /** The sort orders the routes longest first. */
  lemma {:induction false} SortDescending(rs: seq<Route>)
    ensures Descending(SortByLength(rs))
  {
    if rs != [] {
      SortDescending(rs[..|rs| - 1]);
      InsertDescending(SortByLength(rs[..|rs| - 1]), rs[|rs| - 1]);
    }
  }

  /** The sort keeps every route found, as often as it was found. */
  lemma {:induction false} SortPerm(rs: seq<Route>)
    ensures multiset(SortByLength(rs)) == multiset(rs)
  {
    if rs != [] {
      var front, r := rs[..|rs| - 1], rs[|rs| - 1];
      SortPerm(front);
      InsertPerm(SortByLength(front), r);
      assert rs == front + [r];
    }
  }

  /** The sort keeps the order in which routes of equal duration were found. */
  lemma {:induction false} SortStable(rs: seq<Route>, l: int)
    ensures OfLength(SortByLength(rs), l) == OfLength(rs, l)
  {
    if rs != [] {
      var front, r := rs[..|rs| - 1], rs[|rs| - 1];
      SortStable(front, l);
      SortDescending(front);
      InsertOfLength(SortByLength(front), r, l);
      assert rs == front + [r];
      OfLengthSnoc(front, r, l);
    }
  }

  /** encontrar_rutas_cpm: every route from a start to a final activity, longest
      first. */
  method FindRoutes(data: seq<Item>) returns (rutas: seq<Route>)
    requires Ready(Table(data))
    ensures Ranked(NetOf(Table(data)))
    ensures rutas == SortByLength(AllRoutes(NetOf(Table(data))))
  {
    var acts, succ := LinkTable(data);
    NetReady(acts);
    ghost var n := NetOf(acts);
    var keys, act := KeySeq(acts), ActOf(acts);
    FinalsListed(n, keys, succ);
    var finales := FinalList(keys, succ);
    assert forall i :: 0 <= i < |keys| ==> keys[i] in Elems(keys);
    var inicio := StartList(keys, act);
    assert inicio == Starts(n);
    var found := SearchAll(n, act, succ, finales, inicio);
    rutas := SortByLength(found);
  }

  // ---------------------------------------------------------------------------
  // The longest route (lines 172-175)

  /** Along a chain, durations add up to at most the EF of its last activity minus
      the ES of its first. */
  lemma {:induction false} ChainBound(n: Net, q: seq<string>)
    requires Ranked(n) && Chain(n, q)
    ensures ES(n, q[0]) + Weight(n, q) <= EF(n, q[|q| - 1])
  {
    if |q| > 1 {
      ChainTail(n, q);
      ChainBound(n, q[1..]);
      var j :| 0 <= j < |n.succ[q[0]]| && n.succ[q[0]][j] == q[1];
      EarlyStart(n, q[1]);
    }
  }

  /** No route is longer than the project duration. */
  lemma RouteBound(n: Net, r: Route)
    requires Ranked(n) && n.keys != [] && r in AllRoutes(n)
    ensures r.length <= Duration(n)
  {
    RouteSound(n, r);
    ChainBound(n, r.path);
    DurationIsMax(n);
  }

  /** A single activity is a chain weighing its own duration. */
  lemma ChainOne(n: Net, x: string)
    requires x in n.act && x in n.succ
    ensures Chain(n, [x]) && Weight(n, [x]) == n.act[x].duration
  {
    assert Weight(n, [x]) == n.act[x].duration + Weight(n, []);
  }

  /** A chain extended by one successor of its last activity. */
  lemma ChainSnoc(n: Net, h: seq<string>, x: string)
    requires Chain(n, h) && x in n.act && x in n.succ && x in n.succ[h[|h| - 1]]
    ensures Chain(n, h + [x]) && (h + [x])[0] == h[0]
    ensures Weight(n, h + [x]) == Weight(n, h) + n.act[x].duration
  {
    ChainOne(n, x);
    ChainJoin(n, h, [x]);
    WeightConcat(n, h, [x]);
  }

  /** A predecessor of x whose EF is the ES of x; x is among its successors. */
  lemma CriticalPred(n: Net, x: string) returns (p: string)
    requires Ranked(n) && Linked(n) && x in n.act && Deps(n.act[x]) != {}
    ensures p in n.act && n.rank[p] < n.rank[x] && EF(n, p) == ES(n, x)
    ensures x in n.succ[p]
  {
    EarlyStart(n, x);
    p :| p in Deps(n.act[x]) && p in n.act && ES(n, x) == EF(n, p);
    var j :| 0 <= j < |n.act[x].preds| && n.act[x].preds[j] == p;
  }

  /** A chain into x that starts at an activity without followed predecessors and whose
      durations add up to EF(x): each step goes back to a predecessor whose EF is the
      ES of the next. */
  lemma {:induction false} CriticalHead(n: Net, x: string) returns (q: seq<string>)
    requires Ranked(n) && Linked(n) && x in n.act
    ensures Chain(n, q) && q[|q| - 1] == x && Deps(n.act[q[0]]) == {} && Weight(n, q) == EF(n, x)
    decreases n.rank[x]
  {
    if Deps(n.act[x]) == {} {
      EarlyStart(n, x);
      q := [x];
      ChainOne(n, x);
    } else {
      var p := CriticalPred(n, x);
      var h := CriticalHead(n, p);
      q := h + [x];
      ChainSnoc(n, h, x);
    }
  }

  /** A chain from x to a final activity adding nothing to the EF of x, when that EF is
      the project duration: every successor then has duration 0. */
  lemma {:induction false} CriticalTail(n: Net, x: string) returns (q: seq<string>)
    requires Ranked(n) && n.keys != [] && x in n.act && EF(n, x) == Duration(n)
    ensures Chain(n, q) && q[0] == x && n.succ[q[|q| - 1]] == [] && Weight(n, q) == n.act[x].duration
    decreases |n.keys| - n.rank[x]
  {
    if n.succ[x] == [] {
      q := [x];
      ChainOne(n, x);
    } else {
      var s := n.succ[x][0];
      EarlyStart(n, s);
      DurationIsMax(n);
      var t := CriticalTail(n, s);
      q := [x] + t;
      ChainJoin(n, [x], t);
      assert q[1..] == t;
    }
  }

  /** A chain ending at x glued to a chain starting at x. */
  lemma JoinAt(n: Net, h: seq<string>, t: seq<string>)
    requires Chain(n, h) && Chain(n, t) && h[|h| - 1] == t[0]
    ensures Chain(n, h + t[1..]) && (h + t[1..])[0] == h[0]
    ensures (h + t[1..])[|h + t[1..]| - 1] == t[|t| - 1]
    ensures Weight(n, h + t[1..]) + n.act[t[0]].duration == Weight(n, h) + Weight(n, t)
  {
    if |t| > 1 {
      ChainTail(n, t);
      ChainJoin(n, h, t[1..]);
    } else {
      assert h + t[1..] == h;
    }
    assert t == [t[0]] + t[1..];
    WeightConcat(n, [t[0]], t[1..]);
    WeightConcat(n, h, t[1..]);
    assert Weight(n, [t[0]]) == n.act[t[0]].duration + Weight(n, []);
  }

  /** An activity finishing last. */
  lemma LastFinisher(n: Net) returns (x: string)
    requires Ranked(n) && n.keys != []
    ensures x in n.act && EF(n, x) == Duration(n)
  {
    DurationIsMax(n);
    x :| x in n.act && EF(n, x) == Duration(n);
  }

  /** A critical chain through x, from a start activity to a final one. */
  lemma ChainThrough(n: Net, x: string) returns (q: seq<string>)
    requires Ranked(n) && Linked(n) && n.keys != [] && x in n.act && EF(n, x) == Duration(n)
    ensures Chain(n, q) && Deps(n.act[q[0]]) == {} && n.succ[q[|q| - 1]] == [] && Weight(n, q) == Duration(n)
  {
    var h := CriticalHead(n, x);
    var t := CriticalTail(n, x);
    JoinAt(n, h, t);
    q := h + t[1..];
  }

  /** A chain from a start activity to a final one as long as the project. */
  lemma CriticalChain(n: Net) returns (q: seq<string>)
    requires Ranked(n) && Linked(n) && n.keys != [] && StartsCover(n)
    ensures Chain(n, q) && IsStart(n.act[q[0]]) && n.succ[q[|q| - 1]] == [] && Weight(n, q) == Duration(n)
  {
    var x := LastFinisher(n);
    q := ChainThrough(n, x);
  }

  /** Along a chain, an activity starts early no sooner than the durations before it
      add up to. */
  lemma {:induction false} EarlyAlong(n: Net, q: seq<string>, i: nat)
    requires Ranked(n) && Chain(n, q) && i < |q|
    ensures ES(n, q[0]) + Weight(n, q[..i]) <= ES(n, q[i])
  {
    if i == 0 {
      assert q[..0] == [];
    } else {
      EarlyAlong(n, q, i - 1);
      var p := q[i - 1];
      var j :| 0 <= j < |n.succ[p]| && n.succ[p][j] == q[i];
      EarlyStart(n, q[i]);
      assert q[..i] == q[..i - 1] + [p];
      WeightConcat(n, q[..i - 1], [p]);
      assert Weight(n, [p]) == n.act[p].duration + Weight(n, []);
    }
  }

  /** Along a chain to a final activity, an activity finishes late no later than the
      project duration less the durations after it. */
  lemma {:induction false} LateAlong(n: Net, q: seq<string>, i: nat)
    requires Ranked(n) && n.keys != [] && Chain(n, q) && n.succ[q[|q| - 1]] == [] && i < |q|
    ensures LF(n, q[i]) + Weight(n, q[i + 1..]) <= Duration(n)
    decreases |q| - i
  {
    LateFinish(n, q[i]);
    if i == |q| - 1 {
      assert q[i + 1..] == [];
    } else {
      LateAlong(n, q, i + 1);
      assert q[i + 1] in n.succ[q[i]];
      assert q[i + 1..][1..] == q[i + 2..];
    }
  }

  /** The weight of a chain split around position i. */
  lemma WeightAround(n: Net, q: seq<string>, i: nat)
    requires (forall k :: 0 <= k < |q| ==> q[k] in n.act) && i < |q|
    ensures Weight(n, q) == Weight(n, q[..i]) + n.act[q[i]].duration + Weight(n, q[i + 1..])
  {
    assert q == q[..i] + q[i..];
    WeightConcat(n, q[..i], q[i..]);
    assert q[i..][1..] == q[i + 1..];
  }

  /** On a chain from an activity without predecessors to a final one, as long as the
      project, every activity has zero slack. */
  lemma ZeroSlackAt(n: Net, q: seq<string>, i: nat)
    requires Ranked(n) && n.keys != [] && Chain(n, q) && Deps(n.act[q[0]]) == {}
    requires n.succ[q[|q| - 1]] == [] && Weight(n, q) == Duration(n) && i < |q|
    ensures Slack(n, q[i]) == 0
  {
    EarlyStart(n, q[0]);
    EarlyAlong(n, q, i);
    LateAlong(n, q, i);
    WeightAround(n, q, i);
    SlackNonnegative(n, q[i]);
  }

  /** A continuous path of zero-slack activities from a start activity to a final one:
      the critical path. */
  lemma CriticalPath(n: Net) returns (q: seq<string>)
    requires Ranked(n) && Linked(n) && n.keys != [] && StartsCover(n)
    ensures Chain(n, q) && IsStart(n.act[q[0]]) && n.succ[q[|q| - 1]] == [] && Weight(n, q) == Duration(n)
    ensures forall i :: 0 <= i < |q| ==> Slack(n, q[i]) == 0
  {
    var x := LastFinisher(n);
    q := ChainThrough(n, x);
    forall i | 0 <= i < |q| ensures Slack(n, q[i]) == 0 {
      ZeroSlackAt(n, q, i);
    }
  }

  /** Some route is exactly as long as the project. */
  lemma CriticalRoute(n: Net) returns (r: Route)
    requires Ranked(n) && Linked(n) && n.keys != [] && StartsCover(n)
    ensures r in AllRoutes(n) && r.length == Duration(n)
  {
    var q := CriticalChain(n);
    RouteComplete(n, q);
    r := Route(q, Weight(n, q));
  }

  /** Every activity without followed predecessors is a start of lines 113-114: no
      predecessor list is made only of several "-" tokens. */
  ghost predicate StartsCover(n: Net)
  {
    forall x :: x in n.act && Deps(n.act[x]) == {} ==> IsStart(n.act[x])
  }

  /** The first route of the result is as long as the project, so it is critical. */
  lemma LongestRoute(n: Net)
    requires Ranked(n) && Linked(n) && n.keys != [] && StartsCover(n)
    ensures SortByLength(AllRoutes(n)) != []
    ensures SortByLength(AllRoutes(n))[0].length == Duration(n)
  {
    var rs := AllRoutes(n);
    var s := SortByLength(rs);
    var r := CriticalRoute(n);
    SortDescending(rs);
    SortPerm(rs);
    assert r in multiset(s);
    var i :| 0 <= i < |s| && s[i] == r;
    assert s[0] in multiset(rs);
    RouteBound(n, s[0]);
  }
}
