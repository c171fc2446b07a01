/**
  sdiff: the two sequences side by side.
 */
module SideBySide {
  import opened LcsSpec
  import opened LcsChoice
  import opened Turns
  import opened Walks
  import opened Traversals
  import opened DiffHunks

  /** ['-', x, ""], ['+', "", y], ['c', x, y] and ['u', x, y]. */
  datatype Row<T> = Removed(left: T) | Added(right: T) | Changed(left: T, right: T) | Unchanged(left: T, right: T)

  /** The left column, rows that show nothing there left out. */
  ghost function LeftColumn<T>(rows: seq<Row<T>>): seq<T> {
    if rows == [] then []
    else LeftColumn(rows[..|rows| - 1]) + match rows[|rows| - 1] case Added(_) => [] case r => [r.left]
  }

  ghost function RightColumn<T>(rows: seq<Row<T>>): seq<T> {
    if rows == [] then []
    else RightColumn(rows[..|rows| - 1]) + match rows[|rows| - 1] case Removed(_) => [] case r => [r.right]
  }

  ghost function UnchangedRows<T>(rows: seq<Row<T>>): nat {
    if rows == [] then 0
    else UnchangedRows(rows[..|rows| - 1]) + if rows[|rows| - 1].Unchanged? then 1 else 0
  }

  function RowOf<T>(e: Event, a: seq<T>, b: seq<T>): seq<Row<T>>
    requires EventIn(e, |a|, |b|)
  {
    match e
    case Match(i, j) => [Unchanged(a[i], b[j])]
    case DiscardA(i, _) => [Removed(a[i])]
    case DiscardB(_, j) => [Added(b[j])]
    case Change(i, j) => [Changed(a[i], b[j])]
    case AFinished(_) => []
    case BFinished(_) => []
  }

  ghost function RowsOf<T>(es: seq<Event>, a: seq<T>, b: seq<T>): seq<Row<T>>
    requires Indexed(es, |a|, |b|)
  {
    if es == [] then [] else RowsOf(es[..|es| - 1], a, b) + RowOf(es[|es| - 1], a, b)
  }

  // ----- The columns are the sequences -----

  lemma ColumnsExtend<T>(rows: seq<Row<T>>, r: Row<T>)
    ensures LeftColumn(rows + [r]) == LeftColumn(rows) + if r.Added? then [] else [r.left]
    ensures RightColumn(rows + [r]) == RightColumn(rows) + if r.Removed? then [] else [r.right]
    ensures UnchangedRows(rows + [r]) == UnchangedRows(rows) + if r.Unchanged? then 1 else 0
  {
    assert (rows + [r])[..|rows|] == rows;
  }

  ghost predicate ColumnsUpTo<T>(rows: seq<Row<T>>, a: seq<T>, b: seq<T>, i: nat, j: nat, n: nat) {
    && i <= |a| && j <= |b|
    && LeftColumn(rows) == a[..i] && RightColumn(rows) == b[..j] && UnchangedRows(rows) == n
  }

  lemma RowAppended<T>(rows: seq<Row<T>>, e: Event, a: seq<T>, b: seq<T>, ai: nat, bi: nat, i: nat, j: nat, n: nat)
    requires ColumnsUpTo(rows, a, b, ai, bi, n) && i <= |a| && j <= |b| && EventIn(e, |a|, |b|)
    requires if e.Match? then e == Match(ai, bi) && i == ai + 1 && j == bi + 1 else Leads(e, ai, bi, i, j)
    ensures ColumnsUpTo(rows + RowOf(e, a, b), a, b, i, j, n + if e.Match? then 1 else 0)
  {
    if e.AFinished? || e.BFinished? {
      assert rows + [] == rows;
    } else {
      ColumnsExtend(rows, RowOf(e, a, b)[0]);
    }
  }

  lemma {:induction false} ColumnsOfWalk<T>(es: seq<Event>, a: seq<T>, b: seq<T>, i: nat, j: nat)
    requires Walk(es, i, j) && i <= |a| && j <= |b| && Indexed(es, |a|, |b|)
    ensures ColumnsUpTo(RowsOf(es, a, b), a, b, i, j, |Matched(es)|)
    decreases |es|
  {
    if es != [] {
      var before, e := es[..|es| - 1], es[|es| - 1];
      var ai, bi := LastStep(es, i, j);
      ColumnsOfWalk(before, a, b, ai, bi);
      RowAppended(RowsOf(before, a, b), e, a, b, ai, bi, i, j, |Matched(before)|);
    }
  }

  // ----- Rows tell the truth -----

  /** 'u' rows pair equal keys and 'c' rows different ones. */
  ghost predicate RowTrue<T, K>(r: Row<T>, key: T -> K) {
    match r
    case Unchanged(l, r) => key(l) == key(r)
    case Changed(l, r) => key(l) != key(r)
    case _ => true
  }

  /** A change pairs different keys: it lies between two matches of an optimal walk. */
  lemma ChangeDiffers<K>(x: seq<K>, y: seq<K>, es: seq<Event>, k: nat, ai: nat, bi: nat)
    requires OptimalWalk(es, x, y) && k < |es| && es[k] == Change(ai, bi) && Walk(es[..k + 1], ai + 1, bi + 1)
    ensures ai < |x| && bi < |y| && x[ai] != y[bi]
  {
    assert es[..k + 1][..k] == es[..k] && es[..k + 1][k] == es[k];
    assert Matched(es[..k + 1]) == Matched(es[..k]);
    RunIsDifferent(x, y, es, k, k + 1, ai, bi, ai + 1, bi + 1, ai, bi);
  }

  /** The rows of any beginning `part` of an optimal walk. */
  lemma {:induction false} RowsTrue<T, K>(es: seq<Event>, part: seq<Event>, a: seq<T>, b: seq<T>, key: T -> K, i: nat, j: nat)
    requires part <= es && Indexed(part, |a|, |b|) && Walk(part, i, j)
    requires OptimalWalk(es, Keys(a, key), Keys(b, key))
    requires Matching(Keys(a, key), Keys(b, key), Matched(part))
    ensures forall t :: 0 <= t < |RowsOf(part, a, b)| ==> RowTrue(RowsOf(part, a, b)[t], key)
    decreases |part|
  {
    if part != [] {
      var n := |part|;
      var before, e := part[..n - 1], part[n - 1];
      var ai, bi := LastStep(part, i, j);
      PrefixMatches(part, Keys(a, key), Keys(b, key));
      assert forall k :: 0 <= k < n - 1 ==> before[k] == part[k];
      RowsTrue(es, before, a, b, key, ai, bi);
      if e.Change? {
        assert part == es[..n];
        ChangeDiffers(Keys(a, key), Keys(b, key), es, n - 1, ai, bi);
      }
      assert forall t :: 0 <= t < |RowOf(e, a, b)| ==> RowTrue(RowOf(e, a, b)[t], key);
    }
  }

  /** What sdiff promises of its rows. */
  ghost predicate SideBySideResult<T, K>(rows: seq<Row<T>>, a: seq<T>, b: seq<T>, key: T -> K) {
    && LeftColumn(rows) == a && RightColumn(rows) == b
    && UnchangedRows(rows) == Lcs(Keys(a, key), Keys(b, key))
    && (forall t :: 0 <= t < |rows| ==> RowTrue(rows[t], key)) && Aligned(rows)
  }

  /** Elements are paired before any is shown by itself: such a row is followed by more of its side or a 'u' row. */
  ghost predicate Aligned<T>(rows: seq<Row<T>>) {
    forall t :: 0 < t < |rows| ==> MayFollow(rows[t - 1], rows[t])
  }

  predicate MayFollow<T>(r: Row<T>, s: Row<T>) {
    && (r.Removed? ==> s.Removed? || s.Unchanged?)
    && (r.Added? ==> s.Added? || s.Unchanged?)
  }

  /** Without finished callbacks every event gives one row. */
  lemma {:induction false} OneRowEach<T>(es: seq<Event>, a: seq<T>, b: seq<T>, k: nat)
    requires Indexed(es, |a|, |b|) && NoneFinished(es)
    ensures |RowsOf(es, a, b)| == |es|
    ensures k < |es| ==> EventIn(es[k], |a|, |b|) && [RowsOf(es, a, b)[k]] == RowOf(es[k], a, b)
    decreases |es|
  {
    if es != [] {
      OneRowEach(es[..|es| - 1], a, b, if k < |es| - 1 then k else 0);
    }
  }

  lemma RowsAligned<T>(es: seq<Event>, a: seq<T>, b: seq<T>, m: seq<(nat, nat)>)
    requires Indexed(es, |a|, |b|) && Traversal(es, m, |a|, |b|, AsChanges, AsChanges)
    ensures Aligned(RowsOf(es, a, b))
  {
    OneRowEach(es, a, b, 0);
    var rows := RowsOf(es, a, b);
    forall t | 0 < t < |rows|
      ensures MayFollow(rows[t - 1], rows[t])
    {
      OneRowEach(es, a, b, t - 1);
      OneRowEach(es, a, b, t);
      ChangesFirst(es, t - 1, m, |a|, |b|);
      assert RowOf(es[t - 1], a, b)[0] == rows[t - 1] && RowOf(es[t], a, b)[0] == rows[t];
    }
  }

  lemma WalkIsSideBySide<T, K>(es: seq<Event>, a: seq<T>, b: seq<T>, key: T -> K)
    requires OptimalWalk(es, Keys(a, key), Keys(b, key)) && Indexed(es, |a|, |b|)
    requires Traversal(es, Matched(es), |a|, |b|, AsChanges, AsChanges)
    ensures SideBySideResult(RowsOf(es, a, b), a, b, key)
  {
    RowsAligned(es, a, b, Matched(es));
    hide LeftColumn, RightColumn, UnchangedRows, RowTrue, RowsOf, Walk, Matched, Window;
    ColumnsOfWalk(es, a, b, |a|, |b|);
    assert a[..|a|] == a && b[..|b|] == b;
    RowsTrue(es, es, a, b, key, |a|, |b|);
  }

  /**
    sdiff.  `es` is the traversal behind the rows; between two 'u' rows there are first 'c' rows and then
    either '-' rows or '+' rows, since a '-' and a '+' row would have been paired.
   */
  method Sdiff<T, K(==)>(a: seq<T>, b: seq<T>, key: T -> K) returns (rows: seq<Row<T>>, ghost es: seq<Event>)
    ensures SideBySideResult(rows, a, b, key)
    ensures Balanced(es) && Indexed(es, |a|, |b|) && rows == RowsOf(es, a, b)
    ensures Traversal(es, Picked(Keys(a, key), Keys(b, key), false), |a|, |b|, AsChanges, AsChanges)
  {
    hide Picked, Traversal, SideBySideResult;
    var events := TraverseBalanced(a, b, true, key);
    es := events;
    WalkIndexed(es, |a|, |b|, |a|, |b|);
    WalkIsSideBySide(es, a, b, key);
    rows := RunCallbacks(events, a, b);
  }

  /** Calls the callbacks of sdiff for each event. */
  method RunCallbacks<T>(events: seq<Event>, a: seq<T>, b: seq<T>) returns (rows: seq<Row<T>>)
    requires Indexed(events, |a|, |b|)
    ensures rows == RowsOf(events, a, b)
  {
    rows := [];
    for k := 0 to |events|
      invariant Indexed(events[..k], |a|, |b|)
      invariant rows == RowsOf(events[..k], a, b)
    {
      assert events[..k + 1][..k] == events[..k] && events[..k + 1][k] == events[k];
      assert EventIn(events[k], |a|, |b|);
      match events[k] {
        case Match(i, j) => rows := rows + [Unchanged(a[i], b[j])];
        case DiscardA(i, _) => rows := rows + [Removed(a[i])];
        case DiscardB(_, j) => rows := rows + [Added(b[j])];
        case Change(i, j) => rows := rows + [Changed(a[i], b[j])];
        case AFinished(_) =>
        case BFinished(_) =>
      }
    }
    assert events[..|events|] == events;
  }
}
