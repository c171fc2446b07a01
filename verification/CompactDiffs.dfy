/**
  compact_diff: the flat list of index pairs at which hunks begin and end.
 */
module CompactDiffs {
  import opened LcsSpec
  import opened LcsEngine
  import opened LcsApi
  import opened Walks

  /** x[i0..i1] and y[j0..j1] are equal, key by key. */
  ghost predicate SameRun<K>(x: seq<K>, y: seq<K>, i0: nat, j0: nat, i1: nat, j1: nat)
    requires i0 <= i1 <= |x| && j0 <= j1 <= |y|
  {
    x[i0..i1] == y[j0..j1]
  }

  /** No key of x[i0..i1] occurs in y[j0..j1]. */
  ghost predicate DifferentRun<K>(x: seq<K>, y: seq<K>, i0: nat, j0: nat, i1: nat, j1: nat)
    requires i0 <= i1 <= |x| && j0 <= j1 <= |y|
  {
    forall i, j :: i0 <= i < i1 && j0 <= j < j1 ==> x[i] != y[j]
  }

  /** A hunk between two cuts. */
  ghost predicate HunkOk<K>(x: seq<K>, y: seq<K>, i0: nat, j0: nat, i1: nat, j1: nat, same: bool, mayBeEmpty: bool) {
    && i0 <= i1 <= |x| && j0 <= j1 <= |y|
    && (mayBeEmpty || i0 < i1 || j0 < j1)
    && if same then SameRun(x, y, i0, j0, i1, j1) else DifferentRun(x, y, i0, j0, i1, j1)
  }

  /** The hunk between cuts k and k + 1: even ones are the same, odd ones differ, only the first may be empty. */
  ghost predicate HunkAt<K>(x: seq<K>, y: seq<K>, c: seq<nat>, k: nat)
    requires 2 * k + 3 < |c|
  {
    HunkOk(x, y, c[2 * k], c[2 * k + 1], c[2 * k + 2], c[2 * k + 3], k % 2 == 0, k == 0)
  }

  /** n cuts from the beginning of both sequences to (i, j), with good hunks between them. */
  ghost predicate CutsTo<K>(x: seq<K>, y: seq<K>, c: seq<nat>, n: nat, i: nat, j: nat) {
    && n > 0 && |c| == 2 * n && c[0] == 0 && c[1] == 0 && c[2 * n - 2] == i && c[2 * n - 1] == j
    && i <= |x| && j <= |y|
    && forall k :: 0 <= k < n - 1 ==> HunkAt(x, y, c, k)
  }

  /** The number of elements in the hunks that are the same. */
  ghost function SameTotal(c: seq<nat>): int
    decreases |c|
  {
    if |c| < 4 then 0
    else SameTotal(c[..|c| - 2]) + if |c| % 4 == 0 then c[|c| - 2] as int - c[|c| - 4] as int else 0
  }

  lemma CutAdded<K>(x: seq<K>, y: seq<K>, c: seq<nat>, n: nat, i: nat, j: nat, i': nat, j': nat)
    requires CutsTo(x, y, c, n, i, j) && HunkOk(x, y, i, j, i', j', n % 2 == 1, n == 1)
    ensures CutsTo(x, y, c + [i', j'], n + 1, i', j')
    ensures SameTotal(c + [i', j']) == SameTotal(c) + if n % 2 == 1 then i' - i else 0
  {
    var d := c + [i', j'];
    assert d[..|d| - 2] == c;
    forall k | 0 <= k < n
      ensures HunkAt(x, y, d, k)
    {
      if k < n - 1 {
        assert HunkAt(x, y, c, k);
      }
    }
  }

  /** The first t pairs of the matching lie before (i, j), the others not. */
  ghost predicate Split(m: seq<(nat, nat)>, t: nat, i: nat, j: nat) {
    match m
    case _ => t <= |m| && Below(m[..t], i, j) && NotBelow(m[t..], i, j)
  }

  /** The gap up to the next match, or to the ends, contains no equal keys. */
  lemma GapDiffers<K>(x: seq<K>, y: seq<K>, m: seq<(nat, nat)>, t: nat, i: nat, j: nat, i': nat, j': nat)
    requires Matching(x, y, m) && |m| == Lcs(x, y) && Split(m, t, i, j)
    requires i <= i' <= |x| && j <= j' <= |y|
    requires NotBelow(m[t..], i', j')
    ensures DifferentRun(x, y, i, j, i', j')
  {
    forall p, q | i <= p < i' && j <= q < j'
      ensures x[p] != y[q]
    {
      forall s | 0 <= s < t
        ensures m[s].0 < p && m[s].1 < q
      {
        assert m[s] == m[..t][s];
      }
      forall s | t <= s < |m|
        ensures p < m[s].0 && q < m[s].1
      {
        assert m[s] == m[t..][s - t];
      }
      NothingToAdd(x, y, m, t, p, q);
    }
  }

  /** Passing the next match, when it is right here. */
  lemma MatchPassed<K>(x: seq<K>, y: seq<K>, m: seq<(nat, nat)>, t: nat, i: nat, j: nat)
    requires Matching(x, y, m) && Split(m, t, i, j) && t < |m| && m[t] == (i, j)
    ensures Split(m, t + 1, i + 1, j + 1)
  {
    forall s | 0 <= s < t + 1
      ensures m[s].0 < i + 1 && m[s].1 < j + 1
    {
      if s < t {
        assert m[s] == m[..t][s];
      }
    }
    forall s | t + 1 <= s < |m|
      ensures i + 1 <= m[s].0 && j + 1 <= m[s].1
    {
      assert m[t].0 < m[s].0 && m[t].1 < m[s].1;
    }
  }

  /** Jumping over a gap to the next match. */
  lemma GapJumped<K>(x: seq<K>, y: seq<K>, m: seq<(nat, nat)>, t: nat, i: nat, j: nat)
    requires Matching(x, y, m) && Split(m, t, i, j) && t < |m|
    ensures i <= m[t].0 < |x| && j <= m[t].1 < |y|
    ensures Split(m, t, m[t].0, m[t].1) && NotBelow(m[t..], m[t].0, m[t].1)
  {
    assert m[t..][0] == m[t];
    forall s | t <= s < |m|
      ensures m[t].0 <= m[s].0 && m[t].1 <= m[s].1
    {
    }
    assert forall s :: 0 <= s < t ==> m[..t][s] == m[s];
  }

  /** The state of a same hunk that began at (i0, j0) and has reached (i, j). */
  ghost predicate InSame<K>(x: seq<K>, y: seq<K>, i0: nat, j0: nat, i: nat, j: nat) {
    match x
    case _ => i0 <= i <= |x| && j0 <= j <= |y| && SameRun(x, y, i0, j0, i, j)
  }

  lemma SameGrows<K>(x: seq<K>, y: seq<K>, i0: nat, j0: nat, i: nat, j: nat)
    requires InSame(x, y, i0, j0, i, j) && i < |x| && j < |y| && x[i] == y[j]
    ensures InSame(x, y, i0, j0, i + 1, j + 1)
  {
    assert x[i0..i + 1] == x[i0..i] + [x[i]] && y[j0..j + 1] == y[j0..j] + [y[j]];
  }

  /** Runs along matches as long as they follow one another. */
  method FollowSame<K>(ghost x: seq<K>, ghost y: seq<K>, am: seq<nat>, bm: seq<nat>, ghost m: seq<(nat, nat)>, ghost t0: nat,
                       i0: nat, j0: nat)
    returns (am': seq<nat>, bm': seq<nat>, i: nat, j: nat, ghost t: nat)
    requires Matching(x, y, m) && Split(m, t0, i0, j0) && i0 <= |x| && j0 <= |y|
    requires am == Firsts(m[t0..]) && bm == Seconds(m[t0..])
    ensures t0 <= t && Split(m, t, i, j) && am' == Firsts(m[t..]) && bm' == Seconds(m[t..])
    ensures InSame(x, y, i0, j0, i, j) && i - i0 == t - t0
    ensures t < |m| ==> m[t] != (i, j)
    ensures t0 < |m| && m[t0] == (i0, j0) ==> t0 < t
  {
    am', bm', i, j, t := am, bm, i0, j0, t0;
    while |am'| != 0 && i == am'[0] && j == bm'[0]
      invariant t0 <= t && Split(m, t, i, j) && am' == Firsts(m[t..]) && bm' == Seconds(m[t..])
      invariant InSame(x, y, i0, j0, i, j) && i - i0 == t - t0
      decreases |am'|
    {
      assert m[t..][0] == m[t] && m[t + 1..] == m[t..][1..];
      MatchPassed(x, y, m, t, i, j);
      SameGrows(x, y, i0, j0, i, j);
      am', bm' := am'[1..], bm'[1..];
      i, j, t := i + 1, j + 1, t + 1;
    }
    if t < |m| {
      assert m[t..][0] == m[t];
    }
    if t0 < |m| {
      assert m[t0..][0] == m[t0];
    }
  }

  /** Which cuts compact_diff may return: they partition both sequences, with as much as possible the same. */
  ghost predicate CompactResult<K>(x: seq<K>, y: seq<K>, c: seq<nat>, n: nat) {
    CutsTo(x, y, c, n, |x|, |y|) && n >= 2 && SameTotal(c) == Lcs(x, y)
  }

  /** The loop of compact_diff before it follows a same hunk from (i, j). */
  ghost predicate HunkBegins<K>(x: seq<K>, y: seq<K>, m: seq<(nat, nat)>, c: seq<nat>, n: nat, t: nat, i: nat, j: nat) {
    && Matching(x, y, m) && |m| == Lcs(x, y)
    && CutsTo(x, y, c, n, i, j) && n % 2 == 1 && Split(m, t, i, j) && SameTotal(c) == t
    && (n > 1 ==> t < |m| && m[t] == (i, j))
  }

  /** ... and after it. */
  ghost predicate HunkEnded<K>(x: seq<K>, y: seq<K>, m: seq<(nat, nat)>, c: seq<nat>, n: nat, t: nat, i: nat, j: nat) {
    && Matching(x, y, m) && |m| == Lcs(x, y)
    && CutsTo(x, y, c, n, i, j) && n % 2 == 0 && Split(m, t, i, j) && SameTotal(c) == t
    && (t < |m| ==> m[t] != (i, j))
  }

  lemma SameEnds<K>(x: seq<K>, y: seq<K>, m: seq<(nat, nat)>, c: seq<nat>, n: nat, t: nat, i: nat, j: nat,
                    t': nat, i': nat, j': nat)
    requires HunkBegins(x, y, m, c, n, t, i, j)
    requires Split(m, t', i', j') && InSame(x, y, i, j, i', j') && i' - i == t' - t
    requires t' < |m| ==> m[t'] != (i', j')
    requires t < |m| && m[t] == (i, j) ==> t < t'
    ensures HunkEnded(x, y, m, c + [i', j'], n + 1, t', i', j')
  {
    CutAdded(x, y, c, n, i, j, i', j');
  }

  lemma DifferenceEnds<K>(x: seq<K>, y: seq<K>, m: seq<(nat, nat)>, c: seq<nat>, n: nat, t: nat, i: nat, j: nat)
    requires HunkEnded(x, y, m, c, n, t, i, j) && t < |m|
    ensures HunkBegins(x, y, m, c + [m[t].0, m[t].1], n + 1, t, m[t].0, m[t].1)
  {
    GapJumped(x, y, m, t, i, j);
    GapDiffers(x, y, m, t, i, j, m[t].0, m[t].1);
    CutAdded(x, y, c, n, i, j, m[t].0, m[t].1);
  }

  lemma LastDifference<K>(x: seq<K>, y: seq<K>, m: seq<(nat, nat)>, c: seq<nat>, n: nat, i: nat, j: nat)
    requires HunkEnded(x, y, m, c, n, |m|, i, j)
    ensures i <= |x| && j <= |y|
    ensures if i < |x| || j < |y| then CompactResult(x, y, c + [|x|, |y|], n + 1) else CompactResult(x, y, c, n)
  {
    if i < |x| || j < |y| {
      GapDiffers(x, y, m, |m|, i, j, |x|, |y|);
      CutAdded(x, y, c, n, i, j, |x|, |y|);
    }
  }

  lemma FirstCut<K>(x: seq<K>, y: seq<K>, m: seq<(nat, nat)>)
    requires Matching(x, y, m) && |m| == Lcs(x, y)
    ensures HunkBegins(x, y, m, [0, 0], 1, 0, 0, 0)
  {
  }

  method CompactDiff<T, K(==)>(a: seq<T>, b: seq<T>, key: T -> K) returns (cdiff: seq<nat>)
    ensures CompactResult(Keys(a, key), Keys(b, key), cdiff, |cdiff| / 2)
  {
    hide Window, Matching, HunkAt, SameTotal;
    var answer := LcsIdx(Items(a), Items(b), Keys(a, key), Keys(b, key), key);
    var (am, bm) := answer.value;
    ghost var m := Zip(am, bm);
    assert am == Firsts(m) && bm == Seconds(m);
    ghost var n;
    cdiff, n := FollowMatches(Keys(a, key), Keys(b, key), |a|, |b|, am, bm, m);
    assert |cdiff| == 2 * n;
  }

  method FollowMatches<K>(ghost x: seq<K>, ghost y: seq<K>, lengthA: nat, lengthB: nat,
                          am0: seq<nat>, bm0: seq<nat>, ghost m: seq<(nat, nat)>)
    returns (cdiff: seq<nat>, ghost n: nat)
    requires lengthA == |x| && lengthB == |y|
    requires Matching(x, y, m) && |m| == Lcs(x, y) && am0 == Firsts(m) && bm0 == Seconds(m)
    ensures CompactResult(x, y, cdiff, n)
  {
    var am, bm, ai: nat, bi: nat := am0, bm0, 0, 0;
    ghost var t := 0;
    cdiff, n := [ai, bi], 1;
    FirstCut(x, y, m);
    assert m[0..] == m;
    while true
      invariant HunkBegins(x, y, m, cdiff, n, t, ai, bi)
      invariant am == Firsts(m[t..]) && bm == Seconds(m[t..])
      decreases |m| - t, n == 1
    {
      ghost var t0, ai0, bi0 := t, ai, bi;
      am, bm, ai, bi, t := FollowSame(x, y, am, bm, m, t, ai, bi);
      SameEnds(x, y, m, cdiff, n, t0, ai0, bi0, t, ai, bi);
      cdiff, n := cdiff + [ai, bi], n + 1;
      if |am| == 0 {
        break;
      }
      DifferenceEnds(x, y, m, cdiff, n, t, ai, bi);
      assert m[t..][0] == m[t];
      ai, bi := am[0], bm[0];
      cdiff, n := cdiff + [ai, bi], n + 1;
    }
    LastDifference(x, y, m, cdiff, n, ai, bi);
    if ai < lengthA || bi < lengthB {
      cdiff, n := cdiff + [lengthA, lengthB], n + 1;
    }
  }
}
