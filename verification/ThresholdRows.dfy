/**
  The invariant of the Hunt-McIlroy threshold array, stated on values, and the proof that one
  insertion keeps it.

  `RowInvariant` says that after all rows before i the array t answers every question about the
  window: a common subsequence of length k + 1 fits before column j exactly when t[k] < j.  So t[k]
  is the least column ending a common subsequence of length k + 1.  `MidRow` is the same for a row
  whose matches at columns >= q have been entered, the columns being visited in descending order.
 */
module ThresholdRows {
  import opened Numbers
  import opened LcsSpec
  import opened Thresholds

  /** Row i counts for the columns behind one of its own matches at or after q. */
  ghost function MidWindow<K>(x: seq<K>, y: seq<K>, i0: nat, i: nat, j0: nat, q: nat, j: nat): nat
    requires i0 <= i < |x| && j0 <= j <= |y|
  {
    if HasMatch(x, y, i, q, j) then Window(x, y, i0, i + 1, j0, j) else Window(x, y, i0, i, j0, j)
  }

  /** Exactly the first n thresholds lie before column j. */
  ghost predicate Before(t: seq<nat>, j: nat, n: nat) {
    forall k :: 0 <= k < |t| ==> (t[k] < j <==> k < n)
  }

  ghost predicate RowInvariant<K>(x: seq<K>, y: seq<K>, i0: nat, i: nat, j0: nat, j1: nat, t: seq<nat>)
    requires i0 <= i <= |x| && j0 <= j1 <= |y|
  {
    && Increasing(t)
    && |t| == Window(x, y, i0, i, j0, j1)
    && forall j :: j0 <= j <= j1 ==> Before(t, j, Window(x, y, i0, i, j0, j))
  }

  ghost predicate MidRow<K>(x: seq<K>, y: seq<K>, i0: nat, i: nat, j0: nat, j1: nat, q: nat, t: seq<nat>)
    requires i0 <= i < |x| && j0 <= j1 <= |y|
  {
    && Increasing(t)
    && |t| == MidWindow(x, y, i0, i, j0, q, j1)
    && forall j :: j0 <= j <= j1 ==> Before(t, j, MidWindow(x, y, i0, i, j0, q, j))
  }

  lemma RowStarts<K>(x: seq<K>, y: seq<K>, i0: nat, i: nat, j0: nat, j1: nat, t: seq<nat>)
    requires i0 <= i < |x| && j0 <= j1 <= |y|
    requires RowInvariant(x, y, i0, i, j0, j1, t)
    ensures MidRow(x, y, i0, i, j0, j1, j1, t)
  {
  }

  /** Columns without a match can be skipped. */
  lemma SkipColumns<K>(x: seq<K>, y: seq<K>, i0: nat, i: nat, j0: nat, j1: nat, q: nat, q': nat, t: seq<nat>)
    requires i0 <= i < |x| && j0 <= j1 <= |y| && q' <= q
    requires MidRow(x, y, i0, i, j0, j1, q, t)
    requires forall p :: q' <= p < q && p < |y| ==> x[i] != y[p]
    ensures MidRow(x, y, i0, i, j0, j1, q', t)
  {
    forall j | j0 <= j <= j1
      ensures MidWindow(x, y, i0, i, j0, q, j) == MidWindow(x, y, i0, i, j0, q', j)
    {
      assert HasMatch(x, y, i, q, j) == HasMatch(x, y, i, q', j);
    }
  }

  lemma RowEnds<K>(x: seq<K>, y: seq<K>, i0: nat, i: nat, j0: nat, j1: nat, t: seq<nat>)
    requires i0 <= i < |x| && j0 <= j1 <= |y|
    requires MidRow(x, y, i0, i, j0, j1, j0, t)
    ensures RowInvariant(x, y, i0, i + 1, j0, j1, t)
  {
    var next := i + 1;
    if !HasMatch(x, y, i, j0, j1) {
      RowWithoutMatch(x, y, i0, i, j0, j1);
    }
    forall j | j0 <= j <= j1
      ensures Before(t, j, Window(x, y, i0, next, j0, j))
    {
      assert Before(t, j, MidWindow(x, y, i0, i, j0, j0, j));
      if !HasMatch(x, y, i, j0, j) {
        RowWithoutMatch(x, y, i0, i, j0, j);
      }
    }
  }

  /** The insertion point of a match is the length of the best chain it can extend. */
  lemma InsertionPointIsWindow<K>(x: seq<K>, y: seq<K>, i0: nat, i: nat, j0: nat, j1: nat,
                                  p: nat, t: seq<nat>, k: nat)
    requires i0 <= i < |x| && j0 <= p < j1 <= |y|
    requires MidRow(x, y, i0, i, j0, j1, p + 1, t) && InsertionPoint(t, p, k)
    ensures k == Window(x, y, i0, i, j0, p)
  {
    assert !HasMatch(x, y, i, p + 1, p);
    assert Before(t, p, MidWindow(x, y, i0, i, j0, p + 1, p));
    if k > 0 {
      assert t[k - 1] < p;
    }
    if k < |t| {
      assert p <= t[k];
    } else {
      WindowMonotone(x, y, i0, i, j0, p, j1);
      WindowGrows(x, y, i0, i, j0, j1);
    }
  }

  /** How entering the match at p changes the length available before column j. */
  lemma MidWindowStep<K>(x: seq<K>, y: seq<K>, i0: nat, i: nat, j0: nat, p: nat, j: nat)
    requires i0 <= i < |x| && j0 <= p < |y| && j0 <= j <= |y| && x[i] == y[p]
    ensures MidWindow(x, y, i0, i, j0, p, j)
         == if j <= p then MidWindow(x, y, i0, i, j0, p + 1, j)
            else Max(MidWindow(x, y, i0, i, j0, p + 1, j), Window(x, y, i0, i, j0, p) + 1)
  {
    if p < j {
      assert HasMatch(x, y, i, p, j);
      RowAtLeast(x, y, i0, i, j0, p, j);
      if !HasMatch(x, y, i, p + 1, j) {
        RowAtLastMatch(x, y, i0, i, j0, p, j);
      }
    }
  }

  /** Entering one match keeps the invariant. */
  lemma EnterMatch<K>(x: seq<K>, y: seq<K>, i0: nat, i: nat, j0: nat, j1: nat, p: nat, t: seq<nat>, k: nat)
    requires i0 <= i < |x| && j0 <= p < j1 <= |y| && x[i] == y[p]
    requires MidRow(x, y, i0, i, j0, j1, p + 1, t) && InsertionPoint(t, p, k)
    ensures MidRow(x, y, i0, i, j0, j1, p, Put(t, k, p))
  {
    var t' := Put(t, k, p);
    InsertionPointIsWindow(x, y, i0, i, j0, j1, p, t, k);
    MidWindowStep(x, y, i0, i, j0, p, j1);
    forall j | j0 <= j <= j1
      ensures Before(t', j, MidWindow(x, y, i0, i, j0, p, j))
    {
      MidWindowStep(x, y, i0, i, j0, p, j);
      assert Before(t, j, MidWindow(x, y, i0, i, j0, p + 1, j));
      if j <= p {
        assert !HasMatch(x, y, i, p + 1, j);
        WindowMonotone(x, y, i0, i, j0, j, p);
      }
    }
  }
}
