/**
  What "longest common subsequence" means, stated on sequences of keys.

  `Window` is the length of the longest common subsequence of x[i0..i] and y[j0..j].  It is a plain
  recursive definition; `WindowIsUpperBound` and `WindowIsAttained` show that it is the maximum
  over all matchings, so that an algorithm proved to compute it is optimal.
 */
module LcsSpec {
  import opened Numbers

  /** The sequence of keys that a key generator assigns to a sequence of elements. */
  function Keys<T, K>(s: seq<T>, key: T -> K): (r: seq<K>)
    ensures |r| == |s|
    ensures forall i :: 0 <= i < |s| ==> r[i] == key(s[i])
  {
    seq(|s|, i requires 0 <= i < |s| => key(s[i]))
  }

  ghost function Window<K>(x: seq<K>, y: seq<K>, i0: nat, i: nat, j0: nat, j: nat): nat
    requires i0 <= i <= |x| && j0 <= j <= |y|
    decreases i - i0 + j - j0
  {
    if i == i0 || j == j0 then 0
    else if x[i - 1] == y[j - 1] then 1 + Window(x, y, i0, i - 1, j0, j - 1)
    else Max(Window(x, y, i0, i - 1, j0, j), Window(x, y, i0, i, j0, j - 1))
  }

  /** The length of the longest common subsequence of two whole sequences. */
  ghost function Lcs<K>(x: seq<K>, y: seq<K>): nat {
    Window(x, y, 0, |x|, 0, |y|)
  }

  /** A matching: index pairs of equal keys, strictly increasing on both sides. */
  ghost predicate Matching<K>(x: seq<K>, y: seq<K>, m: seq<(nat, nat)>) {
    && (forall t :: 0 <= t < |m| ==> m[t].0 < |x| && m[t].1 < |y| && x[m[t].0] == y[m[t].1])
    && (forall s, t :: 0 <= s < t < |m| ==> m[s].0 < m[t].0 && m[s].1 < m[t].1)
  }

  ghost predicate Within(m: seq<(nat, nat)>, i0: nat, i: nat, j0: nat, j: nat) {
    forall t :: 0 <= t < |m| ==> i0 <= m[t].0 < i && j0 <= m[t].1 < j
  }

  // ----- Window is the maximum over all matchings -----

  lemma {:induction false} WindowIsUpperBound<K>(x: seq<K>, y: seq<K>, m: seq<(nat, nat)>,
                                                 i0: nat, i: nat, j0: nat, j: nat)
    requires i0 <= i <= |x| && j0 <= j <= |y|
    requires Matching(x, y, m) && Within(m, i0, i, j0, j)
    ensures |m| <= Window(x, y, i0, i, j0, j)
    decreases i - i0 + j - j0
  {
    if m != [] {
      var last := m[|m| - 1];
      if x[i - 1] == y[j - 1] {
        WindowIsUpperBound(x, y, m[..|m| - 1], i0, i - 1, j0, j - 1);
      } else if last.0 < i - 1 {
        WindowIsUpperBound(x, y, m, i0, i - 1, j0, j);
      } else {
        WindowIsUpperBound(x, y, m, i0, i, j0, j - 1);
      }
    }
  }

  lemma {:induction false} WindowIsAttained<K>(x: seq<K>, y: seq<K>, i0: nat, i: nat, j0: nat, j: nat)
    returns (m: seq<(nat, nat)>)
    requires i0 <= i <= |x| && j0 <= j <= |y|
    ensures Matching(x, y, m) && Within(m, i0, i, j0, j)
    ensures |m| == Window(x, y, i0, i, j0, j)
    decreases i - i0 + j - j0
  {
    if i == i0 || j == j0 {
      m := [];
    } else if x[i - 1] == y[j - 1] {
      var m' := WindowIsAttained(x, y, i0, i - 1, j0, j - 1);
      m := m' + [(i - 1, j - 1)];
    } else if Window(x, y, i0, i, j0, j - 1) <= Window(x, y, i0, i - 1, j0, j) {
      m := WindowIsAttained(x, y, i0, i - 1, j0, j);
    } else {
      m := WindowIsAttained(x, y, i0, i, j0, j - 1);
    }
  }

  /** Lcs is the largest size of a matching: no matching is longer, and some matching is that long. */
  lemma LcsIsMaximum<K>(x: seq<K>, y: seq<K>)
    ensures forall m :: Matching(x, y, m) ==> |m| <= Lcs(x, y)
    ensures exists m :: Matching(x, y, m) && |m| == Lcs(x, y)
  {
    forall m | Matching(x, y, m)
      ensures |m| <= Lcs(x, y)
    {
      WindowIsUpperBound(x, y, m, 0, |x|, 0, |y|);
    }
    var m := WindowIsAttained(x, y, 0, |x|, 0, |y|);
  }

  // ----- How Window grows -----

  /** Enlarging the window by one row or one column adds at most one, and never loses anything. */
  lemma {:induction false} WindowGrows<K>(x: seq<K>, y: seq<K>, i0: nat, i: nat, j0: nat, j: nat)
    requires i0 <= i <= |x| && j0 <= j <= |y|
    ensures i < |x| ==> Window(x, y, i0, i, j0, j) <= Window(x, y, i0, i + 1, j0, j) <= Window(x, y, i0, i, j0, j) + 1
    ensures j < |y| ==> Window(x, y, i0, i, j0, j) <= Window(x, y, i0, i, j0, j + 1) <= Window(x, y, i0, i, j0, j) + 1
    decreases i - i0 + j - j0
  {
    if i > i0 {
      WindowGrows(x, y, i0, i - 1, j0, j);
    }
    if j > j0 {
      WindowGrows(x, y, i0, i, j0, j - 1);
    }
  }

  lemma {:induction false} WindowMonotone<K>(x: seq<K>, y: seq<K>, i0: nat, i: nat, j0: nat, j: nat, j': nat)
    requires i0 <= i <= |x| && j0 <= j <= j' <= |y|
    ensures Window(x, y, i0, i, j0, j) <= Window(x, y, i0, i, j0, j')
    decreases j' - j
  {
    if j < j' {
      WindowMonotone(x, y, i0, i, j0, j, j' - 1);
      WindowGrows(x, y, i0, i, j0, j' - 1);
    }
  }

  // ----- One row of the threshold algorithm -----

  /** Row i has a match at some column in [q, j). */
  ghost predicate HasMatch<K>(x: seq<K>, y: seq<K>, i: nat, q: nat, j: nat)
    requires i < |x| && j <= |y|
  {
    exists p :: q <= p < j && x[i] == y[p]
  }

  /** A row without a match in the window changes nothing. */
  lemma {:induction false} RowWithoutMatch<K>(x: seq<K>, y: seq<K>, i0: nat, i: nat, j0: nat, j: nat)
    requires i0 <= i < |x| && j0 <= j <= |y|
    requires !HasMatch(x, y, i, j0, j)
    ensures Window(x, y, i0, i + 1, j0, j) == Window(x, y, i0, i, j0, j)
    decreases j
  {
    if j > j0 {
      RowWithoutMatch(x, y, i0, i, j0, j - 1);
      WindowGrows(x, y, i0, i, j0, j - 1);
    }
  }

  /** Any match at column p makes the row at least one better than the previous row was before p. */
  lemma RowAtLeast<K>(x: seq<K>, y: seq<K>, i0: nat, i: nat, j0: nat, p: nat, j: nat)
    requires i0 <= i < |x| && j0 <= p < j <= |y| && x[i] == y[p]
    ensures Window(x, y, i0, i + 1, j0, j) >= Window(x, y, i0, i, j0, p) + 1
  {
    WindowMonotone(x, y, i0, i + 1, j0, p + 1, j);
  }

  /** If p is the last match before column j, that bound and the previous row are all there is. */
  lemma {:induction false} RowAtLastMatch<K>(x: seq<K>, y: seq<K>, i0: nat, i: nat, j0: nat, p: nat, j: nat)
    requires i0 <= i < |x| && j0 <= p < j <= |y| && x[i] == y[p]
    requires !HasMatch(x, y, i, p + 1, j)
    ensures Window(x, y, i0, i + 1, j0, j) == Max(Window(x, y, i0, i, j0, j), Window(x, y, i0, i, j0, p) + 1)
    decreases j
  {
    if j == p + 1 {
      WindowGrows(x, y, i0, i, j0, p);
    } else {
      assert x[i] != y[j - 1];
      RowAtLastMatch(x, y, i0, i, j0, p, j - 1);
      WindowGrows(x, y, i0, i, j0, j - 1);
    }
  }

  // ----- Pruning common ends loses nothing -----

  lemma {:induction false} PruneFirst<K>(x: seq<K>, y: seq<K>, i0: nat, i: nat, j0: nat, j: nat)
    requires i0 < i <= |x| && j0 < j <= |y| && x[i0] == y[j0]
    ensures Window(x, y, i0, i, j0, j) == 1 + Window(x, y, i0 + 1, i, j0 + 1, j)
    decreases i - i0 + j - j0
  {
    if i == i0 + 1 && j == j0 + 1 {
    } else if i == i0 + 1 {
      if x[i - 1] != y[j - 1] {
        PruneFirst(x, y, i0, i, j0, j - 1);
      }
    } else if j == j0 + 1 {
      if x[i - 1] != y[j - 1] {
        PruneFirst(x, y, i0, i - 1, j0, j);
      }
    } else if x[i - 1] == y[j - 1] {
      PruneFirst(x, y, i0, i - 1, j0, j - 1);
    } else {
      PruneFirst(x, y, i0, i - 1, j0, j);
      PruneFirst(x, y, i0, i, j0, j - 1);
    }
  }

  /** Swapping the two sequences does not change the length. */
  lemma {:induction false} WindowSymmetric<K>(x: seq<K>, y: seq<K>, i0: nat, i: nat, j0: nat, j: nat)
    requires i0 <= i <= |x| && j0 <= j <= |y|
    ensures Window(x, y, i0, i, j0, j) == Window(y, x, j0, j, i0, i)
    decreases i - i0 + j - j0
  {
    if i != i0 && j != j0 {
      WindowSymmetric(x, y, i0, i - 1, j0, j - 1);
      WindowSymmetric(x, y, i0, i - 1, j0, j);
      WindowSymmetric(x, y, i0, i, j0, j - 1);
    }
  }
}
