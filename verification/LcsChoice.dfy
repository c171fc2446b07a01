/**
  Which longest common subsequence the engine picks, as a function of the two key sequences: common
  ends first, then the chain that the threshold rows build.  All functions that ask the engine for
  two lists therefore see the same matches.
 */
module LcsChoice {
  import opened Wrappers
  import opened LcsSpec
  import opened Thresholds
  import opened MatchVectors

  // ----- Common ends -----

  /** How far the two sequences agree from position i on. */
  ghost function CommonStart<K>(x: seq<K>, y: seq<K>, i: nat): (n: nat)
    requires i <= |x| && i <= |y|
    ensures i <= n <= |x| && n <= |y|
    decreases |x| - i
  {
    if i < |x| && i < |y| && x[i] == y[i] then CommonStart(x, y, i + 1) else i
  }

  /** How many elements agree at the ends, n of them being known to, without going below `start`. */
  ghost function CommonEnd<K>(x: seq<K>, y: seq<K>, start: nat, n: nat): (m: nat)
    requires start + n <= |x| && start + n <= |y|
    ensures n <= m && start + m <= |x| && start + m <= |y|
    decreases |x| - n
  {
    if start + n < |x| && start + n < |y| && x[|x| - n - 1] == y[|y| - n - 1] then CommonEnd(x, y, start, n + 1) else n
  }

  // ----- Rows -----

  /** The positions of a key in y[j0..j1], last one first. */
  ghost function Columns<K>(y: seq<K>, k: K, j0: nat, j1: nat): seq<nat>
    requires j0 <= j1 <= |y|
  {
    if j0 == j1 then []
    else (if y[j1 - 1] == k then [j1 - 1] else []) + Columns(y, k, j0, j1 - 1)
  }

  lemma {:induction false} ColumnsListed<K>(y: seq<K>, k: K, j0: nat, j1: nat, s: seq<nat>)
    requires j0 <= j1 <= |y| && ColumnsOf(s, y, j0, j1, k)
    requires forall c :: j0 <= c < j1 && y[c] == k ==> c in s
    ensures s == Columns(y, k, j0, j1)
  {
    hide ColumnsOf;
    if j0 == j1 {
      NoColumns(y, k, j0, s);
    } else if y[j1 - 1] == k {
      LastListed(y, k, j0, j1, s);
      ColumnsListed(y, k, j0, j1 - 1, s[1..]);
    } else {
      LastNotListed(y, k, j0, j1, s);
      ColumnsListed(y, k, j0, j1 - 1, s);
    }
  }

  lemma NoColumns<K>(y: seq<K>, k: K, j0: nat, s: seq<nat>)
    requires j0 <= |y| && ColumnsOf(s, y, j0, j0, k)
    ensures s == []
  {
    var first := (s + [j0])[0];
    assert first >= j0;
  }

  lemma LastListed<K>(y: seq<K>, k: K, j0: nat, j1: nat, s: seq<nat>)
    requires j0 < j1 <= |y| && ColumnsOf(s, y, j0, j1, k) && y[j1 - 1] == k
    requires forall c :: j0 <= c < j1 && y[c] == k ==> c in s
    ensures s != [] && s[0] == j1 - 1 && ColumnsOf(s[1..], y, j0, j1 - 1, k)
    ensures forall c :: j0 <= c < j1 - 1 && y[c] == k ==> c in s[1..]
  {
    var n: nat := j1 - 1;
    assert n in s;
    var rest := s[1..];
    assert s == [s[0]] + rest;
    assert forall t :: 0 <= t < |rest| ==> rest[t] < s[0];
    assert s[0] == n;
  }

  lemma LastNotListed<K>(y: seq<K>, k: K, j0: nat, j1: nat, s: seq<nat>)
    requires j0 < j1 <= |y| && ColumnsOf(s, y, j0, j1, k) && y[j1 - 1] != k
    ensures ColumnsOf(s, y, j0, j1 - 1, k)
  {
    forall t | 0 <= t < |s|
      ensures s[t] < j1 - 1
    {
      assert s[t] != j1 - 1;
    }
  }

  /** The thresholds and the chains that end at them. */
  datatype Rows = Rows(thresh: seq<nat>, links: seq<Link>)

  /** The first place from k on whose threshold is not below j. */
  function PlaceFrom(t: seq<nat>, j: nat, k: nat): (r: nat)
    requires k <= |t|
    ensures r <= |t|
    decreases |t| - k
  {
    if k < |t| && t[k] < j then PlaceFrom(t, j, k + 1) else k
  }

  lemma {:induction false} PlaceIsUnique(t: seq<nat>, j: nat, k: nat, at: nat)
    requires k <= at && InsertionPoint(t, j, at)
    ensures PlaceFrom(t, j, k) == at
    decreases at - k
  {
    if k < at {
      PlaceIsUnique(t, j, k + 1, at);
    }
  }

  /** Column j of row i is entered. */
  function AfterColumn(r: Rows, i: nat, j: nat): Rows {
    var at := PlaceFrom(r.thresh, j, 0);
    if j in r.thresh || at > |r.links| then r
    else Rows(Put(r.thresh, at, j), Put(r.links, at, Node(if at != 0 then r.links[at - 1] else Nil, i, j)))
  }

  /** The first c columns of row i. */
  function AfterColumns(r: Rows, i: nat, columns: seq<nat>, c: nat): Rows
    requires c <= |columns|
  {
    if c == 0 then r else AfterColumn(AfterColumns(r, i, columns, c - 1), i, columns[c - 1])
  }

  /** The rows from i0 up to i. */
  ghost function AfterRows<K>(x: seq<K>, y: seq<K>, i0: nat, i: nat, j0: nat, j1: nat): Rows
    requires i0 <= i <= |x| && j0 <= j1 <= |y|
  {
    if i == i0 then Rows([], [])
    else
      var columns := Columns(y, x[i - 1], j0, j1);
      AfterColumns(AfterRows(x, y, i0, i - 1, j0, j1), i - 1, columns, |columns|)
  }

  /** The pairs of a chain, first one first. */
  function ChainPairs(l: Link): seq<(nat, nat)> {
    match l case Nil => [] case Node(prev, i, j) => ChainPairs(prev) + [(i, j)]
  }

  /** What the rows of a window choose. */
  ghost function Chosen<K>(x: seq<K>, y: seq<K>, i0: nat, i1: nat, j0: nat, j1: nat): seq<(nat, nat)>
    requires i0 <= i1 <= |x| && j0 <= j1 <= |y|
  {
    var r := AfterRows(x, y, i0, i1, j0, j1);
    if r.thresh == [] || |r.links| < |r.thresh| then [] else ChainPairs(r.links[|r.thresh| - 1])
  }

  /** n pairs from (i, j) on. */
  function Diagonal(i: nat, j: nat, n: nat): seq<(nat, nat)> {
    seq(n, t requires 0 <= t => (i + t, j + t))
  }

  /** The matches of two lists: common ends are pruned first.  Against a prepared table nothing is pruned. */
  ghost function Picked<K>(x: seq<K>, y: seq<K>, prepared: bool): seq<(nat, nat)> {
    if prepared then Chosen(x, y, 0, |x|, 0, |y|)
    else
      var s := CommonStart(x, y, 0);
      var e := CommonEnd(x, y, s, 0);
      Diagonal(0, 0, s) + Chosen(x, y, s, |x| - e, s, |y| - e) + Diagonal(|x| - e, |y| - e, e)
  }

  /** Entering a column where the search put it is entering it. */
  lemma EnteredAt(r: Rows, i: nat, j: nat, at: nat)
    requires j !in r.thresh && InsertionPoint(r.thresh, j, at) && at <= |r.links|
    ensures AfterColumn(r, i, j) ==
            Rows(Put(r.thresh, at, j), Put(r.links, at, Node(if at != 0 then r.links[at - 1] else Nil, i, j)))
  {
    PlaceIsUnique(r.thresh, j, 0, at);
  }

  // ----- What a match vector holds -----

  /** Every pair of m is in the vector. */
  ghost predicate Holds(v: Vector, m: seq<(nat, nat)>) {
    forall t :: 0 <= t < |m| ==> m[t].0 < |v| && v[m[t].0] == Some(m[t].1)
  }

  /** What is defined in v is the same in the later vector. */
  ghost predicate Keeps(v: Vector, later: Vector) {
    forall p :: 0 <= p < |v| && v[p].Some? ==> p < |later| && later[p] == v[p]
  }

  lemma KeepsHolds(v: Vector, later: Vector, m: seq<(nat, nat)>)
    requires Keeps(v, later) && Holds(v, m)
    ensures Holds(later, m)
  {
  }

  lemma StoreKeeps(before: Vector, v: Vector, i: nat, j: nat, done: seq<(nat, nat)>)
    requires Keeps(before, v) && Holds(v, done) && (i < |v| ==> v[i].None?)
    ensures Keeps(before, StoreAt(v, i, j)) && Holds(StoreAt(v, i, j), [(i, j)] + done)
  {
  }

  ghost predicate Ascending(m: seq<(nat, nat)>) {
    forall s, t :: 0 <= s < t < |m| ==> m[s].0 < m[t].0
  }

  /** Where pair t of m is among the pairs of the vector: not before position t. */
  lemma {:induction false} HeldAt(v: Vector, m: seq<(nat, nat)>, t: nat) returns (p: nat)
    requires Holds(v, m) && Ascending(m) && Ascending(Pairs(v)) && t < |m|
    ensures t <= p < |Pairs(v)| && Pairs(v)[p] == m[t]
  {
    PairsComplete(v, m[t].0);
    p :| 0 <= p < |Pairs(v)| && Pairs(v)[p] == m[t];
    if t > 0 {
      var q := HeldAt(v, m, t - 1);
      assert q < p;
    }
  }

  /** The same from the end: not behind it. */
  lemma {:induction false} HeldBefore(v: Vector, m: seq<(nat, nat)>, t: nat) returns (p: nat)
    requires Holds(v, m) && Ascending(m) && Ascending(Pairs(v)) && t < |m|
    ensures p < |Pairs(v)| && |m| - t <= |Pairs(v)| - p && Pairs(v)[p] == m[t]
    decreases |m| - t
  {
    PairsComplete(v, m[t].0);
    p :| 0 <= p < |Pairs(v)| && Pairs(v)[p] == m[t];
    if t + 1 < |m| {
      var q := HeldBefore(v, m, t + 1);
      assert p < q;
    }
  }

  /** A vector that holds all of an ascending list, and no more pairs, is that list. */
  lemma HoldsExactly(v: Vector, m: seq<(nat, nat)>)
    requires Holds(v, m) && Ascending(m) && |Pairs(v)| == |m|
    ensures Pairs(v) == m
  {
    forall s, t | 0 <= s < t < |Pairs(v)|
      ensures Pairs(v)[s].0 < Pairs(v)[t].0
    {
      PairsAt(v, t);
    }
    forall t | 0 <= t < |m|
      ensures Pairs(v)[t] == m[t]
    {
      var p := HeldAt(v, m, t);
      var q := HeldBefore(v, m, t);
      assert Pairs(v)[p] == Pairs(v)[q];
    }
  }
}
