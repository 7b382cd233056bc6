/** The input shared by all three routines: a list of (name, predecessor spec,
    duration) records, where the spec is "-" or a comma-separated list of names. */
module Activities {
  import opened Base

  datatype Item = Item(name: string, spec: string, duration: nat)

  /** Python's s.split(','): the pieces between commas, empty pieces kept, no trimming. */
  function Split(s: string): (parts: seq<string>)
    ensures |parts| >= 1
    ensures forall i :: 0 <= i < |parts| ==> ',' !in parts[i]
  {
    if s == [] then [[]]
    else
      var rest := Split(s[1..]);
      if s[0] == ',' then [[]] + rest
      else [[s[0]] + rest[0]] + rest[1..]
  }

  /** There is one piece more than there are commas. */
  lemma {:induction false} SplitLength(s: string)
    ensures |Split(s)| == Count(',', s) + 1
  {
    if s != [] {
      SplitLength(s[1..]);
      assert s == [s[0]] + s[1..];
      CountCons(',', s[0], s[1..]);
    }
  }

  lemma CountCons<T>(x: T, y: T, s: seq<T>)
    ensures Count(x, [y] + s) == (if x == y then 1 else 0) + Count(x, s)
    decreases |s|
  {
    if s != [] {
      assert ([y] + s)[..|s|] == [y] + s[..|s| - 1];
      CountCons(x, y, s[..|s| - 1]);
    }
  }

  /** ','.join(parts), the inverse of Split. */
  function Join(parts: seq<string>): string
    requires |parts| >= 1
  {
    if |parts| == 1 then parts[0] else parts[0] + [','] + Join(parts[1..])
  }

  lemma {:induction false} JoinSplit(s: string)
    ensures Join(Split(s)) == s
  {
    if s != [] {
      JoinSplit(s[1..]);
      assert s == [s[0]] + s[1..];
      if s[0] != ',' {
        JoinPush(s[0], Split(s[1..]));
      }
    }
  }

  /** Putting a character in front of the first piece puts it in front of the joined text. */
  lemma JoinPush(c: char, parts: seq<string>)
    requires |parts| >= 1
    ensures Join([[c] + parts[0]] + parts[1..]) == [c] + Join(parts)
  {
    var q := [[c] + parts[0]] + parts[1..];
    assert q[1..] == parts[1..];
    if |parts| > 1 {
      PushAssoc(c, parts[0], Join(parts[1..]));
    }
  }

  lemma PushAssoc(c: char, a: string, b: string)
    ensures ([c] + a) + [','] + b == [c] + (a + [','] + b)
  {
  }

  lemma {:induction false} SplitNoComma(a: string, b: string)
    requires ',' !in a
    ensures Split(a + [','] + b) == [a] + Split(b)
    ensures Split(a) == [a]
  {
    if a != [] {
      assert (a + [','] + b)[1..] == a[1..] + [','] + b;
      SplitNoComma(a[1..], b);
      assert [a[0]] + a[1..] == a;
    } else {
      assert [] + [','] + b == [','] + b;
      assert ([','] + b)[1..] == b;
    }
  }

  lemma {:induction false} SplitJoin(parts: seq<string>)
    requires |parts| >= 1
    requires forall i :: 0 <= i < |parts| ==> ',' !in parts[i]
    ensures Split(Join(parts)) == parts
  {
    if |parts| == 1 {
      SplitNoComma(parts[0], []);
    } else {
      SplitJoin(parts[1..]);
      SplitNoComma(parts[0], Join(parts[1..]));
      assert [parts[0]] + parts[1..] == parts;
    }
  }

  /** The predecessor names of a spec, as `item[1].split(',') if item[1] != '-' else []`. */
  function PredList(spec: string): (ps: seq<string>)
    ensures ps == [] <==> spec == "-"
  {
    if spec == "-" then [] else Split(spec)
  }

  /** Joining the names again gives back every spec other than "-". */
  lemma PredListJoin(spec: string)
    requires spec != "-"
    ensures Join(PredList(spec)) == spec
  {
    JoinSplit(spec);
  }

  /** The same names as a set, as `set(item[1].split(','))` in the network builder. */
  function PreSet(spec: string): (ps: set<string>)
    ensures forall p :: p in ps <==> p in PredList(spec)
    ensures ps == {} <==> spec == "-"
  {
    var l := PredList(spec);
    assert l != [] ==> l[0] in l;
    set p | p in l
  }

  /** The set of activity names in the input. */
  function Names(data: seq<Item>): (ns: set<string>)
    ensures forall i :: 0 <= i < |data| ==> data[i].name in ns
    ensures forall n :: n in ns ==> exists i :: 0 <= i < |data| && data[i].name == n
  {
    set i | 0 <= i < |data| :: data[i].name
  }

  lemma NamesSnoc(data: seq<Item>)
    requires data != []
    ensures Names(data) == Names(data[..|data| - 1]) + {data[|data| - 1].name}
  {
    var front := data[..|data| - 1];
    forall n | n in Names(data) ensures n in Names(front) + {data[|data| - 1].name} {
      var i :| 0 <= i < |data| && data[i].name == n;
      if i < |front| { assert front[i] == data[i]; }
    }
    forall n | n in Names(front) ensures n in Names(data) {
      var i :| 0 <= i < |front| && front[i].name == n;
      assert data[i] == front[i];
    }
  }
}
