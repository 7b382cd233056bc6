/** Shared building blocks: an Option type (Python's float('inf') and "not found"),
    an insertion-ordered dictionary keyed by activity name (Python's dict), and
    small sequence helpers. */
module Base {

  datatype Option<T> = None | Some(value: T)

  /** A Python dict with string keys: an association list in insertion order. */
  type Dict<T> = seq<(string, T)>

  function Keys<T>(d: Dict<T>): set<string>
  {
    set i | 0 <= i < |d| :: d[i].0
  }

  predicate DistinctKeys<T>(d: Dict<T>)
  {
    forall i, j :: 0 <= i < j < |d| ==> d[i].0 != d[j].0
  }

  lemma KeysTail<T>(d: Dict<T>, k: string)
    requires |d| > 0 && k in Keys(d) && d[0].0 != k
    ensures k in Keys(d[1..])
  {
    var i :| 0 <= i < |d| && d[i].0 == k;
    assert d[1..][i - 1].0 == k;
  }

  /** d[k]: the value stored under the first (with distinct keys: the only) entry for k. */
  function Get<T>(d: Dict<T>, k: string): (v: T)
    requires k in Keys(d)
    ensures exists i :: 0 <= i < |d| && d[i] == (k, v)
    ensures DistinctKeys(d) ==> forall i :: 0 <= i < |d| && d[i].0 == k ==> d[i].1 == v
  {
    if d[0].0 == k then d[0].1
    else
      KeysTail(d, k);
      var v := Get(d[1..], k);
      assert forall i :: 1 <= i < |d| ==> d[i] == d[1..][i - 1];
      v
  }

  /** A dictionary seen as its front and its last entry. */
  lemma DictSnoc<T>(d: Dict<T>)
    requires |d| > 0 && DistinctKeys(d)
    ensures var front, last := d[..|d| - 1], d[|d| - 1];
            && DistinctKeys(front) && last.0 !in Keys(front)
            && Keys(d) == Keys(front) + {last.0}
            && Get(d, last.0) == last.1
            && forall x :: x in Keys(front) ==> Get(d, x) == Get(front, x)
  {
    var n := |d| - 1;
    var front, last := d[..n], d[n];
    assert forall i :: 0 <= i < n ==> front[i] == d[i];
    assert d[n].0 in Keys(d);
    forall x | x in Keys(d) ensures x in Keys(front) || x == last.0 {
      var i :| 0 <= i < |d| && d[i].0 == x;
      if i < n { assert front[i].0 == x; }
    }
    forall x | x in Keys(front) ensures Get(d, x) == Get(front, x) {
      var i :| 0 <= i < n && front[i] == (x, Get(front, x));
      assert d[i] == front[i];
    }
  }

  /** d[k] = v: replaces the value in place when k is present, appends (k, v) otherwise. */
  function Put<T>(d: Dict<T>, k: string, v: T): (r: Dict<T>)
    ensures Keys(r) == Keys(d) + {k}
    ensures DistinctKeys(d) ==> DistinctKeys(r)
    ensures Get(r, k) == v
    ensures DistinctKeys(d) ==> forall k' :: k' in Keys(d) && k' != k ==> Get(r, k') == Get(d, k')
    ensures k !in Keys(d) ==> r == d + [(k, v)]
    ensures k in Keys(d) ==> |r| == |d| && forall i :: 0 <= i < |d| ==> r[i].0 == d[i].0
  {
    if k in Keys(d) then
      var r := seq(|d|, i requires 0 <= i < |d| => if d[i].0 == k then (k, v) else d[i]);
      assert forall i :: 0 <= i < |d| ==> r[i].0 == d[i].0;
      assert Keys(r) == Keys(d);
      r
    else
      var r := d + [(k, v)];
      assert r[|d|].0 == k;
      assert forall i :: 0 <= i < |d| ==> r[i] == d[i];
      r
  }

  /** The keys of a dictionary, in order. */
  function KeySeq<T>(d: Dict<T>): (ks: seq<string>)
    ensures |ks| == |d| && forall i :: 0 <= i < |d| ==> ks[i] == d[i].0
  {
    seq(|d|, i requires 0 <= i < |d| => d[i].0)
  }

  /** Assignment appends a new key at the end and leaves the key order otherwise alone. */
  lemma PutKeySeq<T>(d: Dict<T>, k: string, v: T)
    ensures KeySeq(Put(d, k, v)) == if k in Keys(d) then KeySeq(d) else KeySeq(d) + [k]
  {
  }

  /** Number of occurrences of x in s. */
  function Count<T(==)>(x: T, s: seq<T>): (n: nat)
    ensures n <= |s|
  {
    if s == [] then 0 else Count(x, s[..|s| - 1]) + (if s[|s| - 1] == x then 1 else 0)
  }

  lemma {:induction false} CountPositive<T>(x: T, s: seq<T>)
    ensures Count(x, s) > 0 <==> x in s
  {
    if s != [] {
      var front := s[..|s| - 1];
      CountPositive(x, front);
      assert s == front + [s[|s| - 1]];
    }
  }

  function Elems<T>(s: seq<T>): set<T>
  {
    set x | x in s
  }

  lemma ElemsSnoc<T>(s: seq<T>, x: T)
    ensures Elems(s + [x]) == Elems(s) + {x}
  {
    assert forall y :: y in s + [x] <==> y in s || y == x;
  }

  lemma ElemsConcat<T>(s: seq<T>, t: seq<T>)
    ensures Elems(s + t) == Elems(s) + Elems(t)
  {
    assert forall y :: y in s + t <==> y in s || y in t;
  }

  predicate Distinct<T(==)>(s: seq<T>)
  {
    forall i, j :: 0 <= i < j < |s| ==> s[i] != s[j]
  }

  lemma {:induction false} DistinctCard<T>(s: seq<T>)
    requires Distinct(s)
    ensures |Elems(s)| == |s|
  {
    if s != [] {
      var t := s[..|s| - 1];
      DistinctCard(t);
      assert s == t + [s[|s| - 1]];
      ElemsSnoc(t, s[|s| - 1]);
      assert s[|s| - 1] !in t;
    }
  }

  /** The elements of s, each once, in the order of their first occurrence: the key
      order of a dictionary that is assigned the keys of s in turn. */
  function Dedup<T(==)>(s: seq<T>): (r: seq<T>)
    ensures Distinct(r) && Elems(r) == Elems(s)
  {
    if s == [] then []
    else
      var front, x := s[..|s| - 1], s[|s| - 1];
      var f := Dedup(front);
      assert s == front + [x];
      ElemsSnoc(front, x);
      ElemsSnoc(f, x);
      if x in f then f else f + [x]
  }

  lemma ConcatAssoc<T>(a: seq<T>, b: seq<T>, c: seq<T>)
    ensures (a + b) + c == a + (b + c)
  {
  }

  /** Position of x in s. */
  function IndexOf<T(==)>(s: seq<T>, x: T): (i: nat)
    requires x in s
    ensures i < |s| && s[i] == x
    ensures Distinct(s) ==> forall j :: 0 <= j < |s| && s[j] == x ==> j == i
  {
    if s[0] == x then 0 else 1 + IndexOf(s[1..], x)
  }

  lemma SubsetCard<T>(a: set<T>, b: set<T>)
    requires a <= b
    ensures |a| <= |b|
    ensures |a| == |b| ==> a == b
  {
    assert b == a + (b - a);
  }

  lemma StrictSubsetCard<T>(a: set<T>, b: set<T>)
    requires a < b
    ensures |a| < |b|
  {
    SubsetCard(a, b);
  }
}
