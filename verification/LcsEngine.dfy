/**
  The longest-common-subsequence engine: pruning of common ends, the threshold rows, and the walk
  along the back-links.
 */
module LcsEngine {
  import opened Wrappers
  import opened LcsSpec
  import opened Thresholds
  import opened ThresholdRows
  import opened MatchVectors
  import opened LcsChoice

  /** The second input: a list of elements, or the position table that `Prepare` made of one. */
  datatype Source<T, !K> = Items(items: seq<T>) | Prepared(positions: map<K, seq<nat>>)

  /** The engine either counts or returns the match vector. */
  datatype Answer = Count(n: nat) | Matches(vector: Vector)

  /** Two key sequences and the part x[i0..i1], y[j0..j1] still to be matched. */
  datatype Problem<K> = Problem(x: seq<K>, y: seq<K>, i0: nat, i1: nat, j0: nat, j1: nat) {
    ghost predicate Valid() {
      i0 <= i1 <= |x| && j0 <= j1 <= |y|
    }
  }

  // ----- The state of the row loop -----

  /** links[k] is a chain of length k + 1 ending at column t[k]; the first `settled` ones end before row i. */
  ghost predicate LinksInvariant<K>(p: Problem<K>, i: nat, t: seq<nat>, links: seq<Link>, settled: nat) {
    && |links| == |t|
    && forall k :: 0 <= k < |t| ==>
         && links[k].Node? && links[k].j == t[k]
         && Length(links[k]) == k + 1
         && Chain(p.x, p.y, links[k], p.i0, i + 1, p.j0, p.j1)
         && (k < settled ==> links[k].i < i)
  }

  /** Everything that holds in row i once its matches at columns >= q have been entered. */
  ghost predicate RowState<K>(p: Problem<K>, i: nat, q: nat, t: seq<nat>, links: seq<Link>) {
    match p
    case Problem(x, y, i0, i1, j0, j1) =>
      && p.Valid() && i0 <= i < i1 && j0 <= q <= j1
      && MidRow(x, y, i0, i, j0, j1, q, t)
      && LinksInvariant(p, i, t, links, Window(x, y, i0, i, j0, q))
  }

  /** What holds when all rows before i have been entered. */
  ghost predicate BetweenRows<K>(p: Problem<K>, i: nat, t: seq<nat>, links: seq<Link>) {
    match p
    case Problem(x, y, i0, i1, j0, j1) =>
      && p.Valid() && i0 <= i <= i1
      && RowInvariant(x, y, i0, i, j0, j1, t)
      && LinksInvariant(p, i, t, links, |t|)
  }

  lemma RowsBegin<K>(p: Problem<K>)
    requires p.Valid()
    ensures BetweenRows(p, p.i0, [], [])
  {
  }

  lemma BeginRow<K>(p: Problem<K>, i: nat, t: seq<nat>, links: seq<Link>)
    requires i < p.i1 && BetweenRows(p, i, t, links)
    ensures RowState(p, i, p.j1, t, links)
  {
    RowStarts(p.x, p.y, p.i0, i, p.j0, p.j1, t);
  }

  lemma EndRow<K>(p: Problem<K>, i: nat, q: nat, t: seq<nat>, links: seq<Link>)
    requires RowState(p, i, q, t, links)
    requires forall c :: p.j0 <= c < q ==> p.x[i] != p.y[c]
    ensures BetweenRows(p, i + 1, t, links)
  {
    SkipColumns(p.x, p.y, p.i0, i, p.j0, p.j1, q, p.j0, t);
    RowEnds(p.x, p.y, p.i0, i, p.j0, p.j1, t);
    forall k | 0 <= k < |t|
      ensures Chain(p.x, p.y, links[k], p.i0, i + 2, p.j0, p.j1)
    {
      assert links[k].Node? && links[k].j == t[k];
    }
  }

  // ----- One column of a row -----

  /** links[at] may extend the chain before it, which ended in an earlier row. */
  lemma LinkEntered<K>(p: Problem<K>, i: nat, t: seq<nat>, links: seq<Link>, settled: nat, at: nat, j: nat)
    requires LinksInvariant(p, i, t, links, settled)
    requires p.Valid() && p.i0 <= i < p.i1 && p.j0 <= j < p.j1 && p.x[i] == p.y[j]
    requires InsertionPoint(t, j, at) && at <= settled
    ensures at <= |links|
    ensures var node := Node(if at != 0 then links[at - 1] else Nil, i, j);
            LinksInvariant(p, i, Put(t, at, j), Put(links, at, node), at)
  {
    var node := Node(if at != 0 then links[at - 1] else Nil, i, j);
    if at != 0 {
      assert links[at - 1].j == t[at - 1] < j;
      ChainNarrows(p, links[at - 1], i + 1, i, j);
    }
    assert Chain(p.x, p.y, node, p.i0, i + 1, p.j0, p.j1);
    assert Length(node) == at + 1;
  }

  lemma ChainNarrows<K>(p: Problem<K>, l: Link, i1: nat, i: nat, j: nat)
    requires Chain(p.x, p.y, l, p.i0, i1, p.j0, p.j1) && l.Node? && l.i < i && l.j < j
    ensures Chain(p.x, p.y, l, p.i0, i, p.j0, j)
  {
  }

  /** One match j: t[at] becomes j, and links[at] extends the chain before it. */
  lemma EnterLink<K>(p: Problem<K>, i: nat, q: nat, j: nat, t: seq<nat>, links: seq<Link>, at: nat)
    requires RowState(p, i, q, t, links)
    requires p.j0 <= j < q && p.x[i] == p.y[j] && forall c :: j < c < q ==> p.x[i] != p.y[c]
    requires InsertionPoint(t, j, at)
    ensures at <= |links|
    ensures var node := Node(if at != 0 then links[at - 1] else Nil, i, j);
            RowState(p, i, j, Put(t, at, j), Put(links, at, node))
  {
    var Problem(x, y, i0, _, j0, j1) := p;
    SkipColumns(x, y, i0, i, j0, j1, q, j + 1, t);
    EnterMatch(x, y, i0, i, j0, j1, j, t, at);
    InsertionPointIsWindow(x, y, i0, i, j0, j1, j, t, at);
    WindowMonotone(x, y, i0, i, j0, j, q);
    LinkEntered(p, i, t, links, Window(x, y, i0, i, j0, q), at, j);
  }

  lemma MidRowIncreases<K>(x: seq<K>, y: seq<K>, i0: nat, i: nat, j0: nat, j1: nat, q: nat, t: seq<nat>)
    requires i0 <= i < |x| && j0 <= j1 <= |y| && MidRow(x, y, i0, i, j0, j1, q, t)
    ensures Increasing(t)
  {
  }

  lemma PutSame(t: seq<nat>, at: nat)
    requires Increasing(t) && at < |t|
    ensures InsertionPoint(t, t[at], at) && Put(t, at, t[at]) == t
  {
  }

  /** A match whose column is already a threshold changes nothing. */
  lemma SkipLink<K>(p: Problem<K>, i: nat, q: nat, j: nat, t: seq<nat>, links: seq<Link>)
    requires RowState(p, i, q, t, links)
    requires p.j0 <= j < q && p.x[i] == p.y[j] && forall c :: j < c < q ==> p.x[i] != p.y[c]
    requires j in t
    ensures RowState(p, i, j, t, links)
  {
    hide MidRow, Window, Put, InsertionPoint;
    var Problem(x, y, i0, _, j0, j1) := p;
    var at: nat :| at < |t| && t[at] == j;
    MidRowIncreases(x, y, i0, i, j0, j1, q, t);
    PutSame(t, at);
    SkipColumns(x, y, i0, i, j0, j1, q, j + 1, t);
    EnterMatch(x, y, i0, i, j0, j1, j, t, at);
    WindowMonotone(x, y, i0, i, j0, j, q);
  }

  /** The columns at which row i has a match, last one first. */
  ghost predicate RowColumns<K>(p: Problem<K>, i: nat, columns: seq<nat>) {
    match p
    case Problem(x, y, i0, i1, j0, j1) =>
      && p.Valid() && i0 <= i < i1 && Descending(columns)
      && (forall t :: 0 <= t < |columns| ==> j0 <= columns[t] < j1 && x[i] == y[columns[t]])
      && (forall c :: j0 <= c < j1 && x[i] == y[c] ==> c in columns)
  }

  /** The column entered last before the c-th one; the end of the window before the first. */
  ghost function Entered<K>(p: Problem<K>, columns: seq<nat>, c: nat): nat
    requires c <= |columns|
  {
    if c == 0 then p.j1 else columns[c - 1]
  }

  /** Between two consecutive columns of a row there is no match. */
  lemma ColumnsAdjacent<K>(p: Problem<K>, i: nat, columns: seq<nat>, c: nat, j: nat)
    requires RowColumns(p, i, columns) && c <= |columns|
    requires p.j0 <= j < Entered(p, columns, c) && (c < |columns| ==> columns[c] < j)
    ensures p.x[i] != p.y[j]
  {
    forall t | 0 <= t < |columns|
      ensures columns[t] != j
    {
      if 0 < c && t < c - 1 {
        assert columns[c - 1] < columns[t];
      }
    }
    assert j !in columns;
  }

  /** Where column j goes, and the array afterwards. */
  ghost predicate Searched(before: seq<nat>, after: seq<nat>, j: nat, k: Option<nat>) {
    match k
    case None => j in before && after == before
    case Some(at) => j !in before && InsertionPoint(before, j, at) && after == Put(before, at, j)
  }

  /** The links after column j was put at k: a new chain there, or no change. */
  function Linked(links: seq<Link>, i: nat, j: nat, k: Option<nat>): seq<Link>
    requires k.Some? ==> k.value <= |links|
  {
    match k
    case None => links
    case Some(at) => Put(links, at, Node(if at != 0 then links[at - 1] else Nil, i, j))
  }

  /** What searching the c-th column with result k does to the row state. */
  lemma EnterColumn<K>(p: Problem<K>, i: nat, columns: seq<nat>, c: nat,
                       t: seq<nat>, links: seq<Link>, k: Option<nat>, t': seq<nat>)
    requires RowColumns(p, i, columns) && c < |columns|
    requires RowState(p, i, Entered(p, columns, c), t, links)
    requires Searched(t, t', columns[c], k)
    ensures k.Some? ==> k.value <= |links|
    ensures RowState(p, i, Entered(p, columns, c + 1), t', Linked(links, i, columns[c], k))
  {
    var q, j := Entered(p, columns, c), columns[c];
    forall d | j < d < q
      ensures p.x[i] != p.y[d]
    {
      ColumnsAdjacent(p, i, columns, c, d);
    }
    match k
    case None => SkipLink(p, i, q, j, t, links);
    case Some(at) => EnterLink(p, i, q, j, t, links, at);
  }

  /** The same step, of the rows as a value. */
  lemma ColumnEntered(r: Rows, i: nat, j: nat, k: Option<nat>, t': seq<nat>)
    requires Searched(r.thresh, t', j, k) && (k.Some? ==> k.value <= |r.links|)
    ensures AfterColumn(r, i, j) == Rows(t', Linked(r.links, i, j, k))
  {
    if k.Some? {
      EnteredAt(r, i, j, k.value);
    }
  }

  lemma RowFinished<K>(p: Problem<K>, i: nat, columns: seq<nat>, t: seq<nat>, links: seq<Link>)
    requires RowColumns(p, i, columns)
    requires RowState(p, i, Entered(p, columns, |columns|), t, links)
    ensures BetweenRows(p, i + 1, t, links)
  {
    var q := Entered(p, columns, |columns|);
    forall d | p.j0 <= d < q
      ensures p.x[i] != p.y[d]
    {
      ColumnsAdjacent(p, i, columns, |columns|, d);
    }
    EndRow(p, i, q, t, links);
  }

  /** The hint handed from one column to the next: a place whose threshold is the column entered last. */
  ghost predicate HintGood(t: seq<nat>, k: Option<nat>, q: nat) {
    k.Some? && k.value != 0 ==> k.value < |t| && t[k.value] == q
  }

  /** Finds the place of column j, trying the previous place first. */
  method PlaceColumn(thresh: NumberArray, j: nat, previous: Option<nat>, ghost q: nat) returns (k: Option<nat>)
    requires Increasing(thresh.items) && HintGood(thresh.items, previous, q) && j < q
    modifies thresh
    ensures Searched(old(thresh.items), thresh.items, j, k) && HintGood(thresh.items, k, j)
  {
    k := previous;
    if k.Some? && k.value != 0 && thresh.items[k.value] > j && thresh.items[k.value - 1] < j {
      thresh.items := thresh.items[k.value := j];
    } else {
      k := thresh.ReplaceNextLargerWith(j, if k.Some? then k.value else 0);
    }
  }

  lemma RowFacts<K>(p: Problem<K>, i: nat, columns: seq<nat>, c: nat, t: seq<nat>, links: seq<Link>)
    requires RowColumns(p, i, columns) && c < |columns|
    requires RowState(p, i, Entered(p, columns, c), t, links)
    ensures Increasing(t) && columns[c] < Entered(p, columns, c)
  {
  }

  /** Enters every match of row i of the first input, columns in descending order. */
  method EnterRow<K>(ghost p: Problem<K>, i: nat, columns: seq<nat>, thresh: NumberArray, links: seq<Link>)
    returns (links': seq<Link>)
    requires RowColumns(p, i, columns) && BetweenRows(p, i, thresh.items, links)
    modifies thresh
    ensures BetweenRows(p, i + 1, thresh.items, links')
    ensures Rows(thresh.items, links') == AfterColumns(Rows(old(thresh.items), links), i, columns, |columns|)
  {
    hide MidRow, AfterColumn;
    links' := links;
    var k: Option<nat> := Some(0);
    var c := 0;
    BeginRow(p, i, thresh.items, links);
    while c < |columns|
      invariant c <= |columns|
      invariant RowState(p, i, Entered(p, columns, c), thresh.items, links')
      invariant HintGood(thresh.items, k, Entered(p, columns, c))
      invariant Rows(thresh.items, links') == AfterColumns(Rows(old(thresh.items), links), i, columns, c)
    {
      var j := columns[c];
      ghost var t := thresh.items;
      RowFacts(p, i, columns, c, t, links');
      k := PlaceColumn(thresh, j, k, Entered(p, columns, c));
      EnterColumn(p, i, columns, c, t, links', k, thresh.items);
      ColumnEntered(Rows(t, links'), i, j, k, thresh.items);
      links' := Linked(links', i, j, k);
      c := c + 1;
    }
    RowFinished(p, i, columns, thresh.items, links');
  }

  // ----- Writing matches into the vector -----

  /** The defined slots of v lie outside the window: before it on both sides, or behind it. */
  ghost predicate Outside(v: Vector, i0: nat, i1: nat, j0: nat, j1: nat) {
    forall p :: 0 <= p < |v| && v[p].Some? ==> (p < i0 && v[p].value < j0) || (i1 <= p && j1 <= v[p].value)
  }

  /** v matches everything pruned so far or found by the rows: n pairs, all outside the window. */
  ghost predicate Filled<K>(p: Problem<K>, v: Vector, n: nat) {
    match p
    case Problem(x, y, i0, i1, j0, j1) =>
      MatchVector(v, x, y) && |Pairs(v)| == n && Outside(v, i0, i1, j0, j1)
  }

  /** Storing a match inside the window keeps the vector a match vector. */
  lemma StoreMatch<K>(x: seq<K>, y: seq<K>, v: Vector, i0: nat, i1: nat, j0: nat, j1: nat, i: nat, j: nat)
    requires MatchVector(v, x, y) && Outside(v, i0, i1, j0, j1)
    requires i0 <= i < i1 && j0 <= j < j1 && i < |x| && j < |y| && x[i] == y[j]
    ensures MatchVector(StoreAt(v, i, j), x, y)
    ensures |Pairs(StoreAt(v, i, j))| == |Pairs(v)| + 1
  {
    StoreAddsPair(v, i, j);
    var r := StoreAt(v, i, j);
    forall p, q | 0 <= p < q < |r| && r[p].Some? && r[q].Some?
      ensures r[p].value < r[q].value
    {
      if p != i {
        assert r[p] == v[p];
      }
      if q != i {
        assert r[q] == v[q];
      }
    }
  }

  /** A match stored at the window's first or last pair, or above where the window is then cut. */
  lemma StoreFills<K>(p: Problem<K>, v: Vector, n: nat, i: nat, j: nat)
    requires Filled(p, v, n)
    requires p.i0 <= i < p.i1 && p.j0 <= j < p.j1 && i < |p.x| && j < |p.y| && p.x[i] == p.y[j]
    ensures Filled(p.(i1 := i, j1 := j), StoreAt(v, i, j), n + 1)
    ensures i == p.i0 && j == p.j0 ==> Filled(p.(i0 := i + 1, j0 := j + 1), StoreAt(v, i, j), n + 1)
    ensures i < |v| ==> v[i].None?
  {
    StoreMatch(p.x, p.y, v, p.i0, p.i1, p.j0, p.j1, i, j);
  }

  ghost predicate ChainIn<K>(p: Problem<K>, l: Link) {
    match p
    case Problem(x, y, i0, i1, j0, j1) => Chain(x, y, l, i0, i1, j0, j1)
  }

  /** Writes a chain into the match vector, last pair first. */
  method FollowLinks<K>(ghost p: Problem<K>, last: Link, v: Vector, ghost n: nat) returns (v': Vector)
    requires Filled(p, v, n) && ChainIn(p, last)
    ensures MatchVector(v', p.x, p.y) && |Pairs(v')| == n + Length(last)
    ensures Keeps(v, v') && Holds(v', ChainPairs(last))
  {
    hide Filled, ChainIn, Keeps, Holds, ChainPairs, Length, StoreAt;
    v' := v;
    var link := last;
    ghost var w, m: nat, done: seq<(nat, nat)> := p, n, [];
    NothingStored(v, last);
    while link != Nil
      invariant w.x == p.x && w.y == p.y
      invariant Filled(w, v', m) && ChainIn(w, link)
      invariant m + Length(link) == n + Length(last)
      invariant Keeps(v, v') && Holds(v', done) && ChainPairs(last) == ChainPairs(link) + done
      decreases link
    {
      LinkInWindow(w, link);
      StoreFills(w, v', m, link.i, link.j);
      StoreKeeps(v, v', link.i, link.j, done);
      LinkStored(link, done);
      v' := StoreAt(v', link.i, link.j);
      w, m, done := w.(i1 := link.i, j1 := link.j), m + 1, [(link.i, link.j)] + done;
      link := link.prev;
    }
    FilledIsMatch(w, v', m);
    AllStored(done);
  }

  lemma NothingStored(v: Vector, last: Link)
    ensures Keeps(v, v) && Holds(v, []) && ChainPairs(last) == ChainPairs(last) + []
  {
  }

  lemma LinkStored(l: Link, done: seq<(nat, nat)>)
    requires l.Node?
    ensures Length(l) == Length(l.prev) + 1
    ensures ChainPairs(l) + done == ChainPairs(l.prev) + ([(l.i, l.j)] + done)
  {
  }

  lemma AllStored(done: seq<(nat, nat)>)
    ensures Length(Nil) == 0 && ChainPairs(Nil) + done == done
  {
  }

  lemma LinkInWindow<K>(p: Problem<K>, l: Link)
    requires ChainIn(p, l) && l.Node?
    ensures p.i0 <= l.i < p.i1 && p.j0 <= l.j < p.j1 && l.i < |p.x| && l.j < |p.y| && p.x[l.i] == p.y[l.j]
    ensures ChainIn(p.(i1 := l.i, j1 := l.j), l.prev)
  {
  }

  lemma FilledIsMatch<K>(p: Problem<K>, v: Vector, n: nat)
    requires Filled(p, v, n)
    ensures MatchVector(v, p.x, p.y) && |Pairs(v)| == n
  {
  }

  // ----- Pruning -----

  /** The pruned ends are matched in v, and the window holds exactly the rest of the problem. */
  ghost predicate Pruned<K>(p: Problem<K>, v: Vector, pruned: nat) {
    match p
    case Problem(x, y, i0, i1, j0, j1) =>
      p.Valid() && Filled(p, v, pruned) && Lcs(x, y) == pruned + Window(x, y, i0, i1, j0, j1)
  }

  lemma NothingPruned<K>(x: seq<K>, y: seq<K>)
    ensures Pruned(Problem(x, y, 0, |x|, 0, |y|), [], 0)
  {
  }

  lemma PruneAtStart<K>(p: Problem<K>, v: Vector, pruned: nat)
    requires Pruned(p, v, pruned) && p.i0 < p.i1 && p.j0 < p.j1 && p.x[p.i0] == p.y[p.j0]
    ensures Pruned(p.(i0 := p.i0 + 1, j0 := p.j0 + 1), StoreAt(v, p.i0, p.j0), pruned + 1)
  {
    PruneFirst(p.x, p.y, p.i0, p.i1, p.j0, p.j1);
    StoreFills(p, v, pruned, p.i0, p.j0);
  }

  lemma PruneAtEnd<K>(p: Problem<K>, v: Vector, pruned: nat)
    requires Pruned(p, v, pruned) && p.i0 < p.i1 && p.j0 < p.j1 && p.x[p.i1 - 1] == p.y[p.j1 - 1]
    ensures Pruned(p.(i1 := p.i1 - 1, j1 := p.j1 - 1), StoreAt(v, p.i1 - 1, p.j1 - 1), pruned + 1)
  {
    StoreFills(p, v, pruned, p.i1 - 1, p.j1 - 1);
  }

  /** Matches the common elements at the beginning. */
  method PruneStart<T, K(==)>(a: seq<T>, b: seq<T>, key: T -> K)
    returns (v: Vector, pruned: nat, aStart: nat, bStart: nat)
    ensures Pruned(Problem(Keys(a, key), Keys(b, key), aStart, |a|, bStart, |b|), v, pruned)
    ensures aStart == bStart == pruned == CommonStart(Keys(a, key), Keys(b, key), 0) && Holds(v, Diagonal(0, 0, aStart))
  {
    hide Pruned, Holds, CommonStart, Diagonal, StoreAt;
    ghost var x, y := Keys(a, key), Keys(b, key);
    aStart, bStart, v, pruned := 0, 0, [], 0;
    NothingPruned(x, y);
    NoEndMatched(v, 0, 0);
    while aStart < |a| && bStart < |b| && key(a[aStart]) == key(b[bStart])
      invariant aStart == bStart == pruned <= |a| && aStart <= |b| && CommonStart(x, y, aStart) == CommonStart(x, y, 0)
      invariant Pruned(Problem(x, y, aStart, |a|, bStart, |b|), v, pruned) && Holds(v, Diagonal(0, 0, aStart))
    {
      StartMatched(x, y, v, aStart, pruned);
      PruneAtStart(Problem(x, y, aStart, |a|, bStart, |b|), v, pruned);
      v, pruned := StoreAt(v, aStart, bStart), pruned + 1;
      aStart, bStart := aStart + 1, bStart + 1;
    }
    StartEnds(x, y, aStart);
  }

  lemma StartMatched<K>(x: seq<K>, y: seq<K>, v: Vector, i: nat, pruned: nat)
    requires i < |x| && i < |y| && x[i] == y[i] && Pruned(Problem(x, y, i, |x|, i, |y|), v, pruned)
    requires Holds(v, Diagonal(0, 0, i))
    ensures CommonStart(x, y, i) == CommonStart(x, y, i + 1)
    ensures Holds(StoreAt(v, i, i), Diagonal(0, 0, i + 1))
  {
    hide Window;
    StoreFills(Problem(x, y, i, |x|, i, |y|), v, pruned, i, i);
    var m, later := Diagonal(0, 0, i + 1), StoreAt(v, i, i);
    forall t | 0 <= t < |m|
      ensures m[t].0 < |later| && later[m[t].0] == Some(m[t].1)
    {
      assert t < i ==> m[t] == Diagonal(0, 0, i)[t];
    }
  }

  lemma StartEnds<K>(x: seq<K>, y: seq<K>, i: nat)
    requires i <= |x| && i <= |y| && !(i < |x| && i < |y| && x[i] == y[i])
    ensures CommonStart(x, y, i) == i
  {
  }

  /**
    Matches the common elements at the end of what PruneStart left.  aEnd and bEnd are one more than
    the source's last indices aFinish and bFinish.
   */
  method PruneEnd<T, K(==)>(a: seq<T>, b: seq<T>, key: T -> K, v0: Vector, pruned0: nat, aStart: nat, bStart: nat)
    returns (v: Vector, pruned: nat, aEnd: nat, bEnd: nat)
    requires aStart == bStart && Pruned(Problem(Keys(a, key), Keys(b, key), aStart, |a|, bStart, |b|), v0, pruned0)
    ensures Pruned(Problem(Keys(a, key), Keys(b, key), aStart, aEnd, bStart, bEnd), v, pruned)
    ensures aStart <= |a| && aStart <= |b|
    ensures var e := CommonEnd(Keys(a, key), Keys(b, key), aStart, 0);
            && aEnd == |a| - e && bEnd == |b| - e && pruned == pruned0 + e
            && Keeps(v0, v) && Holds(v, Diagonal(aEnd, bEnd, e))
  {
    hide Pruned, Holds, Keeps, CommonEnd, Diagonal, StoreAt;
    ghost var x, y := Keys(a, key), Keys(b, key);
    aEnd, bEnd, v, pruned := |a|, |b|, v0, pruned0;
    PrunedInRange(Problem(x, y, aStart, aEnd, bStart, bEnd), v, pruned);
    NoEndMatched(v, |a|, |b|);
    while aStart < aEnd && bStart < bEnd && key(a[aEnd - 1]) == key(b[bEnd - 1])
      invariant aStart <= aEnd <= |a| && bStart <= bEnd <= |b| && |a| - aEnd == |b| - bEnd == pruned - pruned0
      invariant CommonEnd(x, y, aStart, |a| - aEnd) == CommonEnd(x, y, aStart, 0)
      invariant Pruned(Problem(x, y, aStart, aEnd, bStart, bEnd), v, pruned)
      invariant Keeps(v0, v) && Holds(v, Diagonal(aEnd, bEnd, |a| - aEnd))
    {
      EndMatched(x, y, v0, v, aStart, |a| - aEnd, pruned);
      PruneAtEnd(Problem(x, y, aStart, aEnd, bStart, bEnd), v, pruned);
      aEnd, bEnd := aEnd - 1, bEnd - 1;
      v, pruned := StoreAt(v, aEnd, bEnd), pruned + 1;
    }
    EndEnds(x, y, aStart, |a| - aEnd);
  }

  lemma PrunedInRange<K>(p: Problem<K>, v: Vector, pruned: nat)
    requires Pruned(p, v, pruned)
    ensures p.Valid()
  {
  }

  lemma NoEndMatched(v: Vector, i: nat, j: nat)
    ensures Keeps(v, v) && Holds(v, Diagonal(i, j, 0))
  {
  }

  lemma EndMatched<K>(x: seq<K>, y: seq<K>, v0: Vector, v: Vector, start: nat, n: nat, pruned: nat)
    requires start + n < |x| && start + n < |y| && x[|x| - n - 1] == y[|y| - n - 1]
    requires Pruned(Problem(x, y, start, |x| - n, start, |y| - n), v, pruned)
    requires Keeps(v0, v) && Holds(v, Diagonal(|x| - n, |y| - n, n))
    ensures CommonEnd(x, y, start, n) == CommonEnd(x, y, start, n + 1)
    ensures var i, j := |x| - n - 1, |y| - n - 1;
            Keeps(v0, StoreAt(v, i, j)) && Holds(StoreAt(v, i, j), Diagonal(i, j, n + 1))
  {
    hide Window, Keeps, Holds, StoreAt;
    var i, j := |x| - n - 1, |y| - n - 1;
    StoreFills(Problem(x, y, start, |x| - n, start, |y| - n), v, pruned, i, j);
    StoreKeeps(v0, v, i, j, Diagonal(i + 1, j + 1, n));
    assert Diagonal(i, j, n + 1) == [(i, j)] + Diagonal(i + 1, j + 1, n);
  }

  lemma EndEnds<K>(x: seq<K>, y: seq<K>, start: nat, n: nat)
    requires start + n <= |x| && start + n <= |y|
    requires !(start + n < |x| && start + n < |y| && x[|x| - n - 1] == y[|y| - n - 1])
    ensures CommonEnd(x, y, start, n) == n
  {
  }

  // ----- The whole engine -----

  lemma ColumnsOfRow<K>(p: Problem<K>, i: nat, d: map<K, seq<nat>>)
    requires p.Valid() && p.i0 <= i < p.i1 && PositionsOf(d, p.y, p.j0, p.j1)
    ensures p.x[i] in d ==> RowColumns(p, i, d[p.x[i]])
    ensures p.x[i] !in d ==> RowColumns(p, i, [])
    ensures (if p.x[i] in d then d[p.x[i]] else []) == Columns(p.y, p.x[i], p.j0, p.j1)
  {
    var k := p.x[i];
    var s := if k in d then d[k] else [];
    if k !in d {
      assert ColumnsOf([], p.y, p.j0, p.j1, k);
    }
    ColumnsListed(p.y, k, p.j0, p.j1, s);
  }

  /** Runs the threshold algorithm over all rows of the window. */
  method EnterRows<T, K(==)>(a: seq<T>, key: T -> K, ghost p: Problem<K>, aStart: nat, aEnd: nat,
                             bMatches: map<K, seq<nat>>)
    returns (thresh: NumberArray, links: seq<Link>)
    requires p.Valid() && p.x == Keys(a, key) && p.i0 == aStart && p.i1 == aEnd
    requires PositionsOf(bMatches, p.y, p.j0, p.j1)
    ensures BetweenRows(p, aEnd, thresh.items, links)
    ensures Rows(thresh.items, links) == AfterRows(p.x, p.y, p.i0, p.i1, p.j0, p.j1)
  {
    hide BetweenRows, RowColumns, PositionsOf, AfterColumns, Columns;
    thresh := new NumberArray();
    links := [];
    RowsBegin(p);
    var i := aStart;
    while i < aEnd
      invariant aStart <= i <= aEnd
      invariant BetweenRows(p, i, thresh.items, links)
      invariant Rows(thresh.items, links) == AfterRows(p.x, p.y, p.i0, i, p.j0, p.j1)
    {
      var ai := key(a[i]);
      ColumnsOfRow(p, i, bMatches);
      if ai in bMatches {
        links := EnterRow(p, i, bMatches[ai], thresh, links);
      } else {
        EmptyRow(p, i, thresh.items, links);
      }
      i := i + 1;
    }
  }

  lemma EmptyRow<K>(p: Problem<K>, i: nat, t: seq<nat>, links: seq<Link>)
    requires RowColumns(p, i, []) && BetweenRows(p, i, t, links)
    ensures BetweenRows(p, i + 1, t, links) && AfterColumns(Rows(t, links), i, [], 0) == Rows(t, links)
  {
    BeginRow(p, i, t, links);
    RowFinished(p, i, [], t, links);
  }

  lemma RowsDone<K>(p: Problem<K>, v: Vector, pruned: nat, t: seq<nat>, links: seq<Link>)
    requires Pruned(p, v, pruned) && BetweenRows(p, p.i1, t, links)
    ensures Lcs(p.x, p.y) == pruned + |t| && |links| == |t|
    ensures t != [] ==> Length(links[|t| - 1]) == |t| && ChainIn(p, links[|t| - 1])
  {
    if t != [] {
      var l := links[|t| - 1];
      assert Length(l) == |t|;
    }
  }

  /** The chain of the last threshold is what the rows choose. */
  lemma ChosenChain<K>(p: Problem<K>, t: seq<nat>, links: seq<Link>)
    requires p.Valid() && Rows(t, links) == AfterRows(p.x, p.y, p.i0, p.i1, p.j0, p.j1) && |links| == |t|
    ensures Chosen(p.x, p.y, p.i0, p.i1, p.j0, p.j1) == if t == [] then [] else ChainPairs(links[|t| - 1])
  {
    hide AfterRows;
  }

  lemma {:induction false} ChainAscends<K>(p: Problem<K>, l: Link)
    requires ChainIn(p, l)
    ensures Ascending(ChainPairs(l)) && |ChainPairs(l)| == Length(l)
    ensures forall t :: 0 <= t < |ChainPairs(l)| ==> p.i0 <= ChainPairs(l)[t].0 < p.i1
    decreases l
  {
    if l.Node? {
      ChainAscends(p.(i1 := l.i, j1 := l.j), l.prev);
    }
  }

  /** Common start, chain and common end are together all that the vector holds. */
  lemma PickedHeld(v: Vector, s: nat, chain: seq<(nat, nat)>, i: nat, j: nat, e: nat)
    requires Holds(v, Diagonal(0, 0, s)) && Holds(v, chain) && Holds(v, Diagonal(i, j, e))
    requires Ascending(chain) && s <= i && forall t :: 0 <= t < |chain| ==> s <= chain[t].0 < i
    requires |Pairs(v)| == s + |chain| + e
    ensures Pairs(v) == Diagonal(0, 0, s) + chain + Diagonal(i, j, e)
  {
    var m := Diagonal(0, 0, s) + chain + Diagonal(i, j, e);
    forall t | 0 <= t < |m|
      ensures m[t].0 < |v| && v[m[t].0] == Some(m[t].1)
    {
      if t < s {
        assert m[t] == Diagonal(0, 0, s)[t];
      } else if t < s + |chain| {
        assert m[t] == chain[t - s];
      } else {
        assert m[t] == Diagonal(i, j, e)[t - s - |chain|];
      }
    }
    HoldsExactly(v, m);
  }

  /** The pruned ends of two lists, or the empty ends before a prepared table, are in the vector. */
  ghost predicate EndsHeld<K>(p: Problem<K>, v: Vector, pruned: nat, prepared: bool) {
    && p.Valid() && Holds(v, Diagonal(0, 0, p.i0)) && Holds(v, Diagonal(p.i1, p.j1, |p.x| - p.i1))
    && p.i0 == p.j0 && |p.x| - p.i1 == |p.y| - p.j1 && pruned == p.i0 + |p.x| - p.i1
    && (prepared ==> p.i0 == 0 && p.i1 == |p.x|)
    && (!prepared ==> p.i0 == CommonStart(p.x, p.y, 0) && |p.x| - p.i1 == CommonEnd(p.x, p.y, p.i0, 0))
  }

  lemma PickedIs<K>(p: Problem<K>, v: Vector, later: Vector, pruned: nat, prepared: bool, chain: seq<(nat, nat)>)
    requires EndsHeld(p, v, pruned, prepared) && Keeps(v, later) && Holds(later, chain)
    requires chain == Chosen(p.x, p.y, p.i0, p.i1, p.j0, p.j1) && |Pairs(later)| == pruned + |chain|
    requires Ascending(chain) && forall t :: 0 <= t < |chain| ==> p.i0 <= chain[t].0 < p.i1
    ensures Pairs(later) == Picked(p.x, p.y, prepared)
  {
    hide Chosen, CommonStart, CommonEnd, Holds, Keeps, Ascending;
    var e := |p.x| - p.i1;
    KeepsHolds(v, later, Diagonal(0, 0, p.i0));
    KeepsHolds(v, later, Diagonal(p.i1, p.j1, e));
    PickedHeld(later, p.i0, chain, p.i1, p.j1, e);
    if prepared {
      assert Diagonal(0, 0, 0) + chain + Diagonal(p.i1, p.j1, 0) == chain;
    }
  }

  /** What is left of the problem: two lists are pruned first, a prepared table is taken as it is. */
  method Begin<T, K(==)>(a: seq<T>, b: Source<T, K>, ghost y: seq<K>, key: T -> K)
    returns (ghost p: Problem<K>, aStart: nat, aEnd: nat, vector: Vector, pruned: nat, bMatches: map<K, seq<nat>>)
    requires b.Items? ==> y == Keys(b.items, key)
    requires b.Prepared? ==> PositionsOf(b.positions, y, 0, |y|)
    ensures p.x == Keys(a, key) && p.y == y && p.i0 == aStart && p.i1 == aEnd
    ensures Pruned(p, vector, pruned) && EndsHeld(p, vector, pruned, b.Prepared?)
    ensures PositionsOf(bMatches, y, p.j0, p.j1)
  {
    hide PositionsOf, Holds, Keeps, Filled, Window, Diagonal;
    ghost var x := Keys(a, key);
    match b {
      case Prepared(positions) =>
        aStart, aEnd, vector, pruned, bMatches := 0, |a|, [], 0, positions;
        p := Problem(x, y, 0, |x|, 0, |y|);
        NothingPruned(x, y);
        NoEndMatched([], 0, 0);
        NoEndMatched([], |x|, |y|);
      case Items(items) =>
        var bStart, bEnd;
        vector, pruned, aStart, bStart := PruneStart(a, items, key);
        ghost var v := vector;
        vector, pruned, aEnd, bEnd := PruneEnd(a, items, key, vector, pruned, aStart, bStart);
        KeepsHolds(v, vector, Diagonal(0, 0, aStart));
        bMatches := WithPositionsOfInInterval(items, bStart, bEnd, key);
        p := Problem(x, y, aStart, aEnd, bStart, bEnd);
    }
  }

  /**
    The engine.  `y` is the key sequence behind b: the keys of the items, or the sequence whose
    position table was prepared.  It returns the length of the longest common subsequence, or a
    match vector of that size, which holds the matches that LcsChoice picks.
   */
  method LongestCommonSubsequence<T, K(==)>(a: seq<T>, b: Source<T, K>, ghost y: seq<K>, counting: bool, key: T -> K)
    returns (r: Answer)
    requires b.Items? ==> y == Keys(b.items, key)
    requires b.Prepared? ==> PositionsOf(b.positions, y, 0, |y|)
    ensures counting ==> r == Count(Lcs(Keys(a, key), y))
    ensures !counting ==> r.Matches? && OptimalVector(r.vector, Keys(a, key), y)
    ensures !counting ==> Pairs(r.vector) == Picked(Keys(a, key), y, b.Prepared?)
  {
    hide PositionsOf, EndsHeld, Pruned, BetweenRows, AfterRows, Window, Chosen, Picked, MatchVector;
    ghost var p;
    var aStart, aEnd, vector, pruned, bMatches;
    p, aStart, aEnd, vector, pruned, bMatches := Begin(a, b, y, key);
    PrunedInRange(p, vector, pruned);
    var thresh, links := EnterRows(a, key, p, aStart, aEnd, bMatches);
    RowsDone(p, vector, pruned, thresh.items, links);
    ChosenChain(p, thresh.items, links);
    PrunedIsFilled(p, vector, pruned);
    ghost var before := vector;
    if |thresh.items| != 0 {
      if counting {
        return Count(pruned + |thresh.items|);
      }
      var last := links[|thresh.items| - 1];
      ChainAscends(p, last);
      vector := FollowLinks(p, last, vector, pruned);
      PickedIs(p, before, vector, pruned, b.Prepared?, ChainPairs(last));
    } else if counting {
      return Count(pruned);
    } else {
      FilledIsMatch(p, vector, pruned);
      NoEndMatched(vector, 0, 0);
      PickedIs(p, before, vector, pruned, b.Prepared?, []);
    }
    return Matches(vector);
  }

  lemma PrunedIsFilled<K>(p: Problem<K>, v: Vector, pruned: nat)
    requires Pruned(p, v, pruned)
    ensures Filled(p, v, pruned)
  {
  }
}
