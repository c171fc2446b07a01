/**
  Position tables, match vectors and back-linked chains: the data the engine works on.
 */
module MatchVectors {
  import opened Wrappers
  import opened LcsSpec

  // ----- Position tables -----

  ghost predicate Descending(s: seq<nat>) {
    forall p, q :: 0 <= p < q < |s| ==> s[q] < s[p]
  }

  /** d maps each key of y[start..end] to exactly its positions there, last one first. */
  ghost predicate PositionsOf<K>(d: map<K, seq<nat>>, y: seq<K>, start: nat, end: nat) {
    && end <= |y|
    && (forall k :: k in d ==> d[k] != [] && ColumnsOf(d[k], y, start, end, k))
    && (forall p :: start <= p < end ==> y[p] in d && p in d[y[p]])
  }

  /** Positions of k in y[start..end], descending. */
  ghost predicate ColumnsOf<K>(s: seq<nat>, y: seq<K>, start: nat, end: nat, k: K)
    requires end <= |y|
  {
    Descending(s) && forall t :: 0 <= t < |s| ==> start <= s[t] < end && y[s[t]] == k
  }

  /** Putting the next position in front of its key's list extends the table by one column. */
  lemma PositionAdded<K>(d: map<K, seq<nat>>, y: seq<K>, start: nat, index: nat)
    requires start <= index < |y| && PositionsOf(d, y, start, index)
    ensures var k := y[index];
            PositionsOf(d[k := [index] + if k in d then d[k] else []], y, start, index + 1)
  {
    var k := y[index];
    var r := d[k := [index] + if k in d then d[k] else []];
    forall p | start <= p < index + 1
      ensures y[p] in r && p in r[y[p]]
    {
      PositionKept(d, y, start, index, p);
    }
    forall c | c in r
      ensures r[c] != [] && ColumnsOf(r[c], y, start, index + 1, c)
    {
      if c in d {
        assert ColumnsOf(d[c], y, start, index, c);
      }
    }
  }

  lemma PositionKept<K>(d: map<K, seq<nat>>, y: seq<K>, start: nat, index: nat, p: nat)
    requires start <= p <= index < |y| && PositionsOf(d, y, start, index)
    ensures var k := y[index];
            k == y[p] ==> p in [index] + if k in d then d[k] else []
  {
    var k := y[index];
    if p < index && k == y[p] {
      assert p in d[k];
    }
  }

  /** Builds the position table of collection[start..end]; end is one more than the source's last index. */
  method WithPositionsOfInInterval<T, K(==)>(collection: seq<T>, start: nat, end: nat, key: T -> K)
    returns (d: map<K, seq<nat>>)
    requires start <= end <= |collection|
    ensures PositionsOf(d, Keys(collection, key), start, end)
  {
    d := map[];
    ghost var y := Keys(collection, key);
    var index := start;
    while index < end
      invariant start <= index <= end
      invariant PositionsOf(d, y, start, index)
    {
      var k := key(collection[index]);
      PositionAdded(d, y, start, index);
      if k in d {
        d := d[k := [index] + d[k]];
      } else {
        d := d[k := [index]];
        assert [index] == [index] + [];
      }
      index := index + 1;
    }
  }

  // ----- Match vectors -----

  /** A Perl array whose undefined slots are None. */
  type Vector = seq<Option<nat>>

  /** Assignment to a Perl array element: the array grows when the index is beyond its end. */
  function StoreAt(v: Vector, i: nat, j: nat): (r: Vector)
    ensures |r| == if i < |v| then |v| else i + 1
    ensures forall p :: 0 <= p < |r| ==> r[p] == if p == i then Some(j) else if p < |v| then v[p] else None
  {
    seq(if i < |v| then |v| else i + 1, p => if p == i then Some(j) else if 0 <= p < |v| then v[p] else None)
  }

  /** The defined slots, as index pairs in order. */
  function Pairs(v: Vector): seq<(nat, nat)> {
    if v == [] then []
    else
      var n := |v| - 1;
      Pairs(v[..n]) + match v[n] case None => [] case Some(j) => [(n, j)]
  }

  /** Defined slots pair equal keys, in strictly increasing order. */
  ghost predicate PartialMatch<K>(v: Vector, x: seq<K>, y: seq<K>) {
    && |v| <= |x|
    && (forall i :: 0 <= i < |v| && v[i].Some? ==> v[i].value < |y| && x[i] == y[v[i].value])
    && (forall p, q :: 0 <= p < q < |v| && v[p].Some? && v[q].Some? ==> v[p].value < v[q].value)
  }

  /** What the engine returns: a partial match whose last slot, if any, is a match. */
  ghost predicate MatchVector<K>(v: Vector, x: seq<K>, y: seq<K>) {
    PartialMatch(v, x, y) && (v != [] ==> v[|v| - 1].Some?)
  }

  /** A match vector of maximum size. */
  ghost predicate OptimalVector<K>(v: Vector, x: seq<K>, y: seq<K>) {
    MatchVector(v, x, y) && |Pairs(v)| == Lcs(x, y)
  }

  /** The t-th pair is a defined slot; later pairs are later slots. */
  lemma {:induction false} PairsAt(v: Vector, t: nat)
    requires t < |Pairs(v)|
    ensures Pairs(v)[t].0 < |v| && v[Pairs(v)[t].0] == Some(Pairs(v)[t].1)
    ensures forall s :: 0 <= s < t ==> Pairs(v)[s].0 < Pairs(v)[t].0
  {
    var n := |v| - 1;
    var m := Pairs(v[..n]);
    if t < |m| {
      PairsAt(v[..n], t);
    } else {
      forall s | 0 <= s < t
        ensures m[s].0 < n
      {
        PairsAt(v[..n], s);
      }
    }
  }

  lemma PairsMatch<K>(v: Vector, x: seq<K>, y: seq<K>)
    requires PartialMatch(v, x, y)
    ensures Matching(x, y, Pairs(v))
  {
    var m := Pairs(v);
    forall t | 0 <= t < |m|
      ensures m[t].0 < |v| && v[m[t].0] == Some(m[t].1)
    {
      PairsAt(v, t);
    }
    forall s, t | 0 <= s < t < |m|
      ensures m[s].0 < m[t].0 && m[s].1 < m[t].1
    {
      PairsAt(v, t);
      assert v[m[s].0].Some? && v[m[t].0].Some?;
    }
  }

  /** Every defined slot appears among the pairs. */
  lemma {:induction false} PairsComplete(v: Vector, i: nat)
    requires i < |v| && v[i].Some?
    ensures (i, v[i].value) in Pairs(v)
  {
    var n := |v| - 1;
    if i < n {
      PairsComplete(v[..n], i);
    }
  }

  /** Filling an undefined slot adds one pair. */
  lemma {:induction false} StoreAddsPair(v: Vector, i: nat, j: nat)
    requires i < |v| ==> v[i].None?
    ensures |Pairs(StoreAt(v, i, j))| == |Pairs(v)| + 1
    decreases if i < |v| then |v| else i
  {
    var r := StoreAt(v, i, j);
    var n := |r| - 1;
    if i < n {
      assert r[..n] == StoreAt(v[..n], i, j);
      StoreAddsPair(v[..n], i, j);
    } else if i < |v| {
      assert r[..n] == v[..n];
    } else {
      assert r[..n] == v + seq(i - |v|, _ => None);
      UndefinedTail(v, i - |v|);
    }
  }

  lemma {:induction false} UndefinedTail(v: Vector, n: nat)
    ensures |Pairs(v + seq(n, _ => None))| == |Pairs(v)|
  {
    var r := v + seq(n, _ => None);
    if n == 0 {
      assert r == v;
    } else {
      assert r[..|r| - 1] == v + seq(n - 1, _ => None);
      UndefinedTail(v, n - 1);
    }
  }

  // ----- Back-linked chains -----

  /** A common subsequence as the engine builds it: the last pair first, sharing its tail. */
  datatype Link = Nil | Node(prev: Link, i: nat, j: nat)

  function Length(l: Link): nat {
    match l case Nil => 0 case Node(prev, _, _) => Length(prev) + 1
  }

  /** A chain of matches inside the window x[i0..i1], y[j0..j1]. */
  ghost predicate Chain<K>(x: seq<K>, y: seq<K>, l: Link, i0: nat, i1: nat, j0: nat, j1: nat) {
    match l
    case Nil => true
    case Node(prev, i, j) =>
      && i0 <= i < i1 && j0 <= j < j1 && i < |x| && j < |y| && x[i] == y[j]
      && Chain(x, y, prev, i0, i, j0, j)
  }
}
