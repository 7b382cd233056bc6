/** The successor map of Sucesores.py: every activity name mapped to the list of
    activities that name it as a predecessor, in input order. */
module Successors {
  import opened Base
  import opened Activities

  function Repeat(x: string, n: nat): (r: seq<string>)
    ensures |r| == n && forall i :: 0 <= i < n ==> r[i] == x
  {
    if n == 0 then [] else Repeat(x, n - 1) + [x]
  }

  /** The successors recorded for p: each item, in input order, contributes its own
      name once per occurrence of p in its comma-split predecessor list. */
  function SuccOf(data: seq<Item>, p: string): seq<string>
  {
    if data == [] then []
    else
      var last := data[|data| - 1];
      SuccOf(data[..|data| - 1], p) + Repeat(last.name, Count(p, PredList(last.spec)))
  }

  /** The successor lists grow in input order: a later item's contribution comes after
      an earlier item's. */
  lemma {:induction false} SuccOfAppend(d1: seq<Item>, d2: seq<Item>, p: string)
    ensures SuccOf(d1 + d2, p) == SuccOf(d1, p) + SuccOf(d2, p)
    decreases |d2|
  {
    if d2 == [] {
      assert d1 + d2 == d1;
    } else {
      var front, last := d2[..|d2| - 1], d2[|d2| - 1];
      assert (d1 + d2)[..|d1 + d2| - 1] == d1 + front;
      SuccOfAppend(d1, front, p);
      ConcatAssoc(SuccOf(d1, p), SuccOf(front, p), Repeat(last.name, Count(p, PredList(last.spec))));
    }
  }

  /** An activity whose spec is "-" adds no successor to anyone, wherever it stands. */
  lemma NoPredecessorsNoSuccessors(d1: seq<Item>, a: Item, d2: seq<Item>, p: string)
    requires a.spec == "-"
    ensures SuccOf(d1 + [a] + d2, p) == SuccOf(d1 + d2, p)
  {
    assert PredList(a.spec) == [];
    assert [a][..0] == [];
    assert SuccOf([a], p) == [];
    SuccOfAppend(d1 + [a], d2, p);
    SuccOfAppend(d1, [a], p);
    SuccOfAppend(d1, d2, p);
  }

  /** The item `it` is named x and lists p as a predecessor. */
  predicate Refers(it: Item, p: string, x: string)
  {
    it.name == x && p in PredList(it.spec)
  }

  /** Every recorded successor comes from an item that lists p. */
  lemma {:induction false} SuccessorSound(data: seq<Item>, p: string, x: string)
    requires x in SuccOf(data, p)
    ensures exists i :: 0 <= i < |data| && Refers(data[i], p, x)
  {
    var front := data[..|data| - 1];
    var last := data[|data| - 1];
    var n := Count(p, PredList(last.spec));
    assert SuccOf(data, p) == SuccOf(front, p) + Repeat(last.name, n);
    if x in SuccOf(front, p) {
      SuccessorSound(front, p, x);
      var i :| 0 <= i < |front| && Refers(front[i], p, x);
      assert data[i] == front[i];
    } else {
      CountPositive(p, PredList(last.spec));
      assert Refers(data[|data| - 1], p, x);
    }
  }

  /** The successor list of p seen around item i. */
  lemma SuccSplit(data: seq<Item>, i: int, p: string)
    requires 0 <= i < |data|
    ensures SuccOf(data, p) ==
            SuccOf(data[..i], p) + Repeat(data[i].name, Count(p, PredList(data[i].spec))) + SuccOf(data[i + 1..], p)
  {
    SuccOfStep(data, i);
    assert data == data[..i + 1] + data[i + 1..];
    SuccOfAppend(data[..i + 1], data[i + 1..], p);
  }

  lemma InMiddle(a: seq<string>, x: string, n: nat, c: seq<string>)
    requires n > 0
    ensures x in a + Repeat(x, n) + c
  {
    assert (a + Repeat(x, n) + c)[|a|] == x;
  }

  /** Every item that lists p is recorded as a successor of p. */
  lemma SuccessorComplete(data: seq<Item>, p: string, i: int)
    requires 0 <= i < |data| && p in PredList(data[i].spec)
    ensures data[i].name in SuccOf(data, p)
  {
    SuccSplit(data, i, p);
    CountPositive(p, PredList(data[i].spec));
    InMiddle(SuccOf(data[..i], p), data[i].name, Count(p, PredList(data[i].spec)), SuccOf(data[i + 1..], p));
  }

  /** x is a successor of p exactly when some item named x lists p as a predecessor. */
  lemma SuccessorIff(data: seq<Item>, p: string, x: string)
    ensures x in SuccOf(data, p) <==> exists i :: 0 <= i < |data| && Refers(data[i], p, x)
  {
    if x in SuccOf(data, p) {
      SuccessorSound(data, p, x);
    }
    if i :| 0 <= i < |data| && Refers(data[i], p, x) {
      SuccessorComplete(data, p, i);
    }
  }

  /** How often the items named x list p as a predecessor. */
  function References(data: seq<Item>, x: string, p: string): nat
  {
    if data == [] then 0
    else
      var last := data[|data| - 1];
      References(data[..|data| - 1], x, p) + (if last.name == x then Count(p, PredList(last.spec)) else 0)
  }

  lemma {:induction false} CountRepeat(x: string, y: string, n: nat)
    ensures Count(x, Repeat(y, n)) == if x == y then n else 0
  {
    if n > 0 {
      assert Repeat(y, n)[..n - 1] == Repeat(y, n - 1);
      CountRepeat(x, y, n - 1);
    }
  }

  lemma {:induction false} CountAppend(x: string, s: seq<string>, t: seq<string>)
    ensures Count(x, s + t) == Count(x, s) + Count(x, t)
    decreases |t|
  {
    if t != [] {
      assert (s + t)[..|s + t| - 1] == s + t[..|t| - 1];
      CountAppend(x, s, t[..|t| - 1]);
    } else {
      assert s + t == s;
    }
  }

  /** x appears in the list of p once for every occurrence of p in the predecessor
      lists of the items named x. */
  lemma {:induction false} SuccessorMultiplicity(data: seq<Item>, p: string, x: string)
    ensures Count(x, SuccOf(data, p)) == References(data, x, p)
  {
    if data != [] {
      var front := data[..|data| - 1];
      var last := data[|data| - 1];
      SuccessorMultiplicity(front, p, x);
      CountAppend(x, SuccOf(front, p), Repeat(last.name, Count(p, PredList(last.spec))));
      CountRepeat(x, last.name, Count(p, PredList(last.spec)));
    }
  }

  /** Number of entries of l that belong to ks (predecessor references that name a key). */
  function CountIn(l: seq<string>, ks: set<string>): nat
  {
    if l == [] then 0 else CountIn(l[..|l| - 1], ks) + (if l[|l| - 1] in ks then 1 else 0)
  }

  /** Predecessor references in data that name one of the activities in ks. */
  function DefinedRefs(data: seq<Item>, ks: set<string>): nat
  {
    if data == [] then 0
    else DefinedRefs(data[..|data| - 1], ks) + CountIn(PredList(data[|data| - 1].spec), ks)
  }

  /** Total length of the lists of the keys ks. */
  function SumLengths(data: seq<Item>, ks: seq<string>): nat
  {
    if ks == [] then 0 else SumLengths(data, ks[..|ks| - 1]) + |SuccOf(data, ks[|ks| - 1])|
  }

  function SumCounts(ks: seq<string>, l: seq<string>): nat
  {
    if ks == [] then 0 else SumCounts(ks[..|ks| - 1], l) + Count(ks[|ks| - 1], l)
  }

  lemma {:induction false} SumCountsSingle(ks: seq<string>, t: string)
    requires Distinct(ks)
    ensures SumCounts(ks, [t]) == if t in ks then 1 else 0
  {
    if ks != [] {
      var front := ks[..|ks| - 1];
      SumCountsSingle(front, t);
      assert [t][..0] == [];
      assert t in ks <==> t in front || t == ks[|ks| - 1];
      assert t == ks[|ks| - 1] ==> t !in front;
    }
  }

  lemma {:induction false} SumCountsSnoc(ks: seq<string>, l: seq<string>, t: string)
    ensures SumCounts(ks, l + [t]) == SumCounts(ks, l) + SumCounts(ks, [t])
  {
    if ks != [] {
      var front := ks[..|ks| - 1];
      SumCountsSnoc(front, l, t);
      assert (l + [t])[..|l|] == l;
      assert [t][..0] == [];
    }
  }

  /** Summing, over distinct keys, the occurrences of each key in l counts the entries
      of l that are keys. */
  lemma {:induction false} SumCountsIsCountIn(ks: seq<string>, l: seq<string>)
    requires Distinct(ks)
    ensures SumCounts(ks, l) == CountIn(l, Elems(ks))
    decreases |l|
  {
    if l == [] {
      SumCountsEmpty(ks);
    } else {
      var front := l[..|l| - 1];
      var t := l[|l| - 1];
      assert l == front + [t];
      SumCountsIsCountIn(ks, front);
      SumCountsSnoc(ks, front, t);
      SumCountsSingle(ks, t);
    }
  }

  lemma {:induction false} SumCountsEmpty(ks: seq<string>)
    ensures SumCounts(ks, []) == 0
  {
    if ks != [] { SumCountsEmpty(ks[..|ks| - 1]); }
  }

  lemma {:induction false} SumLengthsSnoc(data: seq<Item>, a: Item, ks: seq<string>)
    ensures SumLengths(data + [a], ks) == SumLengths(data, ks) + SumCounts(ks, PredList(a.spec))
  {
    if ks != [] {
      SumLengthsSnoc(data, a, ks[..|ks| - 1]);
      assert (data + [a])[..|data|] == data;
    }
  }

  lemma {:induction false} SumLengthsEmpty(ks: seq<string>)
    ensures SumLengths([], ks) == 0
  {
    if ks != [] { SumLengthsEmpty(ks[..|ks| - 1]); }
  }

  /** The lists of distinct keys ks hold, together, exactly as many entries as there
      are predecessor references naming one of those keys. */
  lemma {:induction false} TotalSuccessors(data: seq<Item>, ks: seq<string>)
    requires Distinct(ks)
    ensures SumLengths(data, ks) == DefinedRefs(data, Elems(ks))
    decreases |data|
  {
    if data == [] {
      SumLengthsEmpty(ks);
    } else {
      var front := data[..|data| - 1];
      var a := data[|data| - 1];
      assert data == front + [a];
      TotalSuccessors(front, ks);
      SumLengthsSnoc(front, a, ks);
      SumCountsIsCountIn(ks, PredList(a.spec));
    }
  }

  lemma SuccOfStep(data: seq<Item>, i: nat)
    requires i < |data|
    ensures forall p :: SuccOf(data[..i + 1], p) ==
                        SuccOf(data[..i], p) + Repeat(data[i].name, Count(p, PredList(data[i].spec)))
  {
    assert data[..i + 1][..i] == data[..i];
  }

  lemma ExtendCount(x: string, preds: seq<string>, j: nat)
    requires j < |preds|
    ensures forall p :: Repeat(x, Count(p, preds[..j + 1])) ==
                        Repeat(x, Count(p, preds[..j])) + (if p == preds[j] then [x] else [])
    ensures j == 0 ==> forall p :: Repeat(x, Count(p, preds[..j])) == []
  {
    assert preds[..j + 1][..j] == preds[..j];
  }

  /** {actividad: [] for actividad in todas_las_actividades} */
  function EmptyLists(names: seq<string>): (d: Dict<seq<string>>)
    ensures DistinctKeys(d)
    ensures Keys(d) == Elems(names)
    ensures forall k :: k in Keys(d) ==> Get(d, k) == []
  {
    if names == [] then [] else Put(EmptyLists(names[..|names| - 1]), names[|names| - 1], [])
  }

  /** The keys of the initial dictionary keep the order of first occurrence. */
  lemma {:induction false} EmptyListsOrder(names: seq<string>)
    ensures KeySeq(EmptyLists(names)) == Dedup(names)
  {
    if names != [] {
      var front, k := names[..|names| - 1], names[|names| - 1];
      EmptyListsOrder(front);
      PutKeySeq(EmptyLists(front), k, []);
    }
  }

  /** The list of one key p after one pass of the inner loop. */
  lemma AppendAt(a: seq<string>, before: seq<string>, after: seq<string>,
                 name: string, preds: seq<string>, j: nat, p: string)
    requires j < |preds|
    requires before == a + Repeat(name, Count(p, preds[..j]))
    requires after == if p == preds[j] then before + [name] else before
    ensures after == a + Repeat(name, Count(p, preds[..j + 1]))
  {
    assert preds[..j + 1][..j] == preds[..j];
    var b := Repeat(name, Count(p, preds[..j]));
    if p == preds[j] {
      assert Repeat(name, Count(p, preds[..j + 1])) == b + [name];
      ConcatAssoc(a, b, [name]);
    } else {
      assert Count(p, preds[..j + 1]) == Count(p, preds[..j]);
    }
  }

  /** One pass of the inner loop keeps its invariant when preds[j] is a key: appending
      `name` to its list extends the lists by the occurrences in preds[..j + 1]. */
  lemma AppendPut(succ0: Dict<seq<string>>, before: Dict<seq<string>>, succ: Dict<seq<string>>,
                  name: string, preds: seq<string>, j: nat)
    requires j < |preds| && preds[j] in Keys(before) && Keys(before) == Keys(succ0)
    requires forall p :: p in Keys(before) ==> Get(before, p) == Get(succ0, p) + Repeat(name, Count(p, preds[..j]))
    requires Keys(succ) == Keys(before) && Get(succ, preds[j]) == Get(before, preds[j]) + [name]
    requires forall p :: p in Keys(before) && p != preds[j] ==> Get(succ, p) == Get(before, p)
    ensures forall p :: p in Keys(succ) ==> Get(succ, p) == Get(succ0, p) + Repeat(name, Count(p, preds[..j + 1]))
  {
    forall p | p in Keys(succ)
      ensures Get(succ, p) == Get(succ0, p) + Repeat(name, Count(p, preds[..j + 1]))
    {
      AppendAt(Get(succ0, p), Get(before, p), Get(succ, p), name, preds, j, p);
    }
  }

  /** One pass of the inner loop keeps its invariant when preds[j] is not a key: no
      list changes, and no key counts preds[j]. */
  lemma AppendSkip(succ0: Dict<seq<string>>, succ: Dict<seq<string>>,
                   name: string, preds: seq<string>, j: nat)
    requires j < |preds| && preds[j] !in Keys(succ) && Keys(succ) == Keys(succ0)
    requires forall p :: p in Keys(succ) ==> Get(succ, p) == Get(succ0, p) + Repeat(name, Count(p, preds[..j]))
    ensures forall p :: p in Keys(succ) ==> Get(succ, p) == Get(succ0, p) + Repeat(name, Count(p, preds[..j + 1]))
  {
    forall p | p in Keys(succ)
      ensures Get(succ, p) == Get(succ0, p) + Repeat(name, Count(p, preds[..j + 1]))
    {
      AppendAt(Get(succ0, p), Get(succ, p), Get(succ, p), name, preds, j, p);
    }
  }

  /** The inner loop of encontrar_sucesores: the activity `name` is appended to the
      list of every predecessor in preds that is a key, once per occurrence. */
  method AppendSuccessor(succ0: Dict<seq<string>>, name: string, preds: seq<string>)
    returns (succ: Dict<seq<string>>)
    requires DistinctKeys(succ0)
    ensures DistinctKeys(succ) && KeySeq(succ) == KeySeq(succ0) && Keys(succ) == Keys(succ0)
    ensures forall p :: p in Keys(succ) ==> Get(succ, p) == Get(succ0, p) + Repeat(name, Count(p, preds))
  {
    var d := succ0;
    assert forall p :: Count(p, preds[..0]) == 0;
    for j := 0 to |preds|
      invariant DistinctKeys(d) && KeySeq(d) == KeySeq(succ0) && Keys(d) == Keys(succ0)
      invariant forall p :: p in Keys(d) ==> Get(d, p) == Get(succ0, p) + Repeat(name, Count(p, preds[..j]))
    {
      var pre := preds[j];
      if pre in Keys(d) {
        ghost var before := d;
        d := Put(d, pre, Get(d, pre) + [name]);
        AppendPut(succ0, before, d, name, preds, j);
      } else {
        AppendSkip(succ0, d, name, preds, j);
      }
    }
    assert preds[..|preds|] == preds;
    succ := d;
  }

  /** [item[0] for item in datos_actividades] */
  function NameList(data: seq<Item>): (names: seq<string>)
    ensures Elems(names) == Names(data)
  {
    var names := seq(|data|, i requires 0 <= i < |data| => data[i].name);
    assert Elems(names) == Names(data) by {
      forall n | n in Names(data) ensures n in Elems(names) {
        var i :| 0 <= i < |data| && data[i].name == n;
        assert names[i] == n;
      }
    }
    names
  }

  lemma TotalOfDict(data: seq<Item>, succ: Dict<seq<string>>)
    requires DistinctKeys(succ) && Keys(succ) == Names(data)
    ensures SumLengths(data, KeySeq(succ)) == DefinedRefs(data, Names(data))
  {
    var ks := KeySeq(succ);
    assert Distinct(ks);
    assert Elems(ks) == Keys(succ);
    TotalSuccessors(data, ks);
  }

  /** One pass of the outer loop keeps its invariant. */
  lemma ItemStep(data: seq<Item>, i: int, before: Dict<seq<string>>, succ: Dict<seq<string>>)
    requires 0 <= i < |data| && Keys(succ) == Keys(before)
    requires forall p :: p in Keys(before) ==> Get(before, p) == SuccOf(data[..i], p)
    requires forall p :: p in Keys(succ) ==>
               Get(succ, p) == Get(before, p) + Repeat(data[i].name, Count(p, PredList(data[i].spec)))
    ensures forall p :: p in Keys(succ) ==> Get(succ, p) == SuccOf(data[..i + 1], p)
  {
    SuccOfStep(data, i);
  }

  /** The outer loop of encontrar_sucesores (lines 16-31), from the empty lists. */
  method FillSuccessors(data: seq<Item>, d0: Dict<seq<string>>) returns (succ: Dict<seq<string>>)
    requires DistinctKeys(d0)
    requires forall p :: p in Keys(d0) ==> Get(d0, p) == []
    ensures DistinctKeys(succ) && KeySeq(succ) == KeySeq(d0) && Keys(succ) == Keys(d0)
    ensures forall p :: p in Keys(succ) ==> Get(succ, p) == SuccOf(data, p)
  {
    var d := d0;
    for i := 0 to |data|
      invariant DistinctKeys(d) && KeySeq(d) == KeySeq(d0) && Keys(d) == Keys(d0)
      invariant forall p :: p in Keys(d) ==> Get(d, p) == SuccOf(data[..i], p)
    {
      var item := data[i];
      ghost var before := d;
      if item.spec != "-" {
        var preds := Split(item.spec);
        d := AppendSuccessor(d, item.name, preds);
      }
      ItemStep(data, i, before, d);
    }
    assert data[..|data|] == data;
    succ := d;
  }

  /** encontrar_sucesores (Sucesores.py:1-33): the list of every activity holds, in
      input order, the activities that name it as a predecessor. */
  method FindSuccessors(data: seq<Item>) returns (succ: Dict<seq<string>>)
    ensures DistinctKeys(succ)
    ensures Keys(succ) == Names(data)
    ensures KeySeq(succ) == Dedup(NameList(data))
    ensures forall p :: p in Keys(succ) ==> Get(succ, p) == SuccOf(data, p)
  {
    var names := NameList(data);
    var d := EmptyLists(names);
    EmptyListsOrder(names);
    succ := FillSuccessors(data, d);
  }
}
