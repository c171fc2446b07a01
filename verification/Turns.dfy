/**
  In which order a traversal passes what lies between two matches, and behind the last one.
 */
module Turns {
  import opened MatchVectors
  import opened Walks

  datatype Manner =
    /** All elements of a, then all of b. */
    | FirstA
    /** One of a and one of b in turn until one side ends, then the rest of the other. */
    | InTurn
    /** The same, the elements that are passed in turn being paired as changes. */
    | AsChanges

  /** Where the gap behind the first c matches begins, and where it ends. */
  function GapStart(m: seq<(nat, nat)>, c: nat): (nat, nat)
    requires c <= |m|
  {
    if c == 0 then (0, 0) else (m[c - 1].0 + 1, m[c - 1].1 + 1)
  }

  function GapEnd(m: seq<(nat, nat)>, c: nat, n: nat, l: nat): (nat, nat)
    requires c <= |m|
  {
    if c < |m| then m[c] else (n, l)
  }

  /** The event has its turn in a gap that leads from one position to another. */
  predicate Timely(e: Event, manner: Manner, from: (nat, nat), to: (nat, nat)) {
    match e
    case DiscardA(i, j) =>
      manner == FirstA || j == to.1 || (manner == InTurn && i - from.0 == j - from.1)
    case DiscardB(i, j) =>
      i == to.0 || (manner == InTurn && i - from.0 == j - from.1 + 1)
    case Change(_, _) => manner == AsChanges
    case _ => true
  }

  /** Event k, of a traversal along m of lists of lengths n and l: `inner` before a match, `last` behind all of them. */
  ghost predicate TimelyAt(es: seq<Event>, k: nat, m: seq<(nat, nat)>, n: nat, l: nat, inner: Manner, last: Manner)
    requires k < |es|
  {
    var c := |Matched(es[..k])|;
    c <= |m| && Timely(es[k], if c < |m| then inner else last, GapStart(m, c), GapEnd(m, c, n, l))
  }

  ghost predicate Ordered(es: seq<Event>, m: seq<(nat, nat)>, n: nat, l: nat, inner: Manner, last: Manner) {
    forall k :: 0 <= k < |es| ==> TimelyAt(es, k, m, n, l, inner, last)
  }

  lemma OrderedNext(es: seq<Event>, e: Event, m: seq<(nat, nat)>, n: nat, l: nat, inner: Manner, last: Manner)
    requires Ordered(es, m, n, l, inner, last)
    requires var c := |Matched(es)|;
             c <= |m| && Timely(e, if c < |m| then inner else last, GapStart(m, c), GapEnd(m, c, n, l))
    ensures Ordered(es + [e], m, n, l, inner, last)
  {
    var longer := es + [e];
    assert longer[..|es|] == es;
    forall k | 0 <= k < |longer|
      ensures TimelyAt(longer, k, m, n, l, inner, last)
    {
      if k < |es| {
        assert TimelyAt(es, k, m, n, l, inner, last) && longer[..k] == es[..k];
      }
    }
  }

  /** The pairs of the first slots are the first pairs; a defined slot is the next pair. */
  lemma {:induction false} NextPair(v: Vector, slot: nat, k: nat)
    requires slot <= k <= |v|
    ensures |Pairs(v[..slot])| <= |Pairs(v[..k])|
    ensures slot < k && v[slot].Some? ==>
              var c := |Pairs(v[..slot])|; c < |Pairs(v[..k])| && Pairs(v[..k])[c] == (slot, v[slot].value)
    decreases k
  {
    if slot < k {
      NextPair(v, slot, k - 1);
      assert v[..k][..k - 1] == v[..k - 1];
    }
  }

  /** Before the last defined slot there is a pair to come. */
  lemma PairAhead(v: Vector, slot: nat)
    requires slot < |v| && v[|v| - 1].Some?
    ensures |Pairs(v[..slot])| < |Pairs(v)|
  {
    NextPair(v, slot, |v| - 1);
    NextPair(v, |v| - 1, |v|);
    assert v[..|v|] == v;
  }

  // ----- There is only one such traversal -----

  /** A traversal of lists of lengths n and l along m, with no finished callbacks. */
  ghost predicate Traversal(es: seq<Event>, m: seq<(nat, nat)>, n: nat, l: nat, inner: Manner, last: Manner) {
    && Walk(es, n, l) && Matched(es) == m && Ordered(es, m, n, l, inner, last)
    && NoneFinished(es)
  }

  ghost predicate NoneFinished(es: seq<Event>) {
    forall k :: 0 <= k < |es| ==> !es[k].AFinished? && !es[k].BFinished?
  }

  lemma {:induction false} NoneCounted(es: seq<Event>)
    requires Occurrences(es, A_FINISHED) == 0 && Occurrences(es, B_FINISHED) == 0
    ensures NoneFinished(es)
  {
    if es != [] {
      NoneCounted(es[..|es| - 1]);
      assert es == es[..|es| - 1] + [es[|es| - 1]];
    }
  }

  /** The event with which a traversal goes on from (i, j), c matches having been passed. */
  function NextEvent(i: nat, j: nat, m: seq<(nat, nat)>, c: nat, n: nat, l: nat, inner: Manner, last: Manner): Event
    requires c <= |m|
  {
    var from, to, manner := GapStart(m, c), GapEnd(m, c, n, l), if c < |m| then inner else last;
    if i == to.0 && j == to.1 then Match(i, j)
    else if i == to.0 then DiscardB(i, j)
    else if j == to.1 then DiscardA(i, j)
    else if manner == AsChanges then Change(i, j)
    else if manner == FirstA || i - from.0 == j - from.1 then DiscardA(i, j)
    else DiscardB(i, j)
  }

  /** Where a walk is after its first k events. */
  lemma {:induction false} PositionAt(es: seq<Event>, k: nat, n: nat, l: nat) returns (i: nat, j: nat)
    requires Walk(es, n, l) && k <= |es|
    ensures Walk(es[..k], i, j)
    decreases |es|
  {
    if k == |es| {
      i, j := n, l;
      assert es[..k] == es;
    } else {
      var ai, bi := LastStep(es, n, l);
      i, j := PositionAt(es[..|es| - 1], k, ai, bi);
      assert es[..|es| - 1][..k] == es[..k];
    }
  }

  /** No event leads beyond the end of its gap, and a match is the end of it. */
  lemma StaysInGap(es: seq<Event>, k: nat, n: nat, l: nat, i: nat, j: nat, i': nat, j': nat)
    requires Walk(es, n, l) && k < |es| && Walk(es[..k], i, j) && Walk(es[..k + 1], i', j')
    ensures var m, c := Matched(es), |Matched(es[..k])|;
            && c <= |m|
            && if es[k].Match? then c < |m| && es[k] == Match(i, j) && m[c] == (i, j)
               else Leads(es[k], i, j, i', j') && i' <= GapEnd(m, c, n, l).0 && j' <= GapEnd(m, c, n, l).1
  {
    var now := es[..k + 1];
    assert now[..k] == es[..k] && now[k] == es[k];
    var ai, bi := LastStep(now, i', j');
    WalkEndsOnce(es[..k], ai, bi, i, j);
    MatchedAfter(es, k + 1, i', j', n, l);
    WalkMonotone(es, k + 1, i', j', n, l);
    var m, c := Matched(es), |Matched(es[..k])|;
    assert m[..|Matched(now)|] == Matched(now);
    if es[k].Match? {
      assert Matched(now) == Matched(es[..k]) + [(i, j)];
      assert m[c] == Matched(now)[c];
    } else {
      assert Matched(now) == Matched(es[..k]);
      if c < |m| {
        assert m[c] == m[c..][0];
      }
    }
  }

  /** The event is the one and only that may come next. */
  lemma NextIs(es: seq<Event>, k: nat, m: seq<(nat, nat)>, n: nat, l: nat, inner: Manner, last: Manner, i: nat, j: nat)
    requires Traversal(es, m, n, l, inner, last) && k < |es| && Walk(es[..k], i, j)
    ensures |Matched(es[..k])| <= |m|
    ensures (i, j) != GapEnd(m, |Matched(es[..k])|, n, l) || |Matched(es[..k])| < |m|
    ensures es[k] == NextEvent(i, j, m, |Matched(es[..k])|, n, l, inner, last)
  {
    hide Walk, Matched;
    var i', j' := PositionAt(es, k + 1, n, l);
    StaysInGap(es, k, n, l, i, j, i', j');
    assert TimelyAt(es, k, m, n, l, inner, last);
  }

  lemma {:induction false} SameSoFar(es: seq<Event>, fs: seq<Event>, k: nat, m: seq<(nat, nat)>, n: nat, l: nat, inner: Manner, last: Manner)
    requires Traversal(es, m, n, l, inner, last) && Traversal(fs, m, n, l, inner, last) && k <= |es| && k <= |fs|
    ensures es[..k] == fs[..k]
  {
    hide Traversal;
    if k > 0 {
      SameSoFar(es, fs, k - 1, m, n, l, inner, last);
      WalksOn(es, m, n, l, inner, last);
      var i, j := PositionAt(es, k - 1, n, l);
      NextIs(es, k - 1, m, n, l, inner, last, i, j);
      NextIs(fs, k - 1, m, n, l, inner, last, i, j);
      assert es[..k] == es[..k - 1] + [es[k - 1]] && fs[..k] == fs[..k - 1] + [fs[k - 1]];
    }
  }

  lemma WalksOn(es: seq<Event>, m: seq<(nat, nat)>, n: nat, l: nat, inner: Manner, last: Manner)
    requires Traversal(es, m, n, l, inner, last)
    ensures Walk(es, n, l) && Matched(es) == m
  {
  }

  lemma NoLonger(es: seq<Event>, fs: seq<Event>, m: seq<(nat, nat)>, n: nat, l: nat, inner: Manner, last: Manner)
    requires Traversal(es, m, n, l, inner, last) && Traversal(fs, m, n, l, inner, last)
    ensures |fs| <= |es|
  {
    hide Traversal;
    if |es| < |fs| {
      SameSoFar(es, fs, |es|, m, n, l, inner, last);
      WalksOn(es, m, n, l, inner, last);
      assert es[..|es|] == es;
      NextIs(fs, |es|, m, n, l, inner, last, n, l);
    }
  }

  /** Lists, matches and manners determine the traversal. */
  lemma OnlyTraversal(es: seq<Event>, fs: seq<Event>, m: seq<(nat, nat)>, n: nat, l: nat, inner: Manner, last: Manner)
    requires Traversal(es, m, n, l, inner, last) && Traversal(fs, m, n, l, inner, last)
    ensures es == fs
  {
    NoLonger(es, fs, m, n, l, inner, last);
    NoLonger(fs, es, m, n, l, inner, last);
    SameSoFar(es, fs, |es|, m, n, l, inner, last);
    assert es[..|es|] == es && fs[..|fs|] == fs;
  }

  /** When changes are paired off, an element passed by itself is followed by another of its side or by a match. */
  lemma ChangesFirst(es: seq<Event>, k: nat, m: seq<(nat, nat)>, n: nat, l: nat)
    requires Traversal(es, m, n, l, AsChanges, AsChanges) && k + 1 < |es|
    ensures es[k].DiscardA? ==> es[k + 1].DiscardA? || es[k + 1].Match?
    ensures es[k].DiscardB? ==> es[k + 1].DiscardB? || es[k + 1].Match?
  {
    var i, j := PositionAt(es, k, n, l);
    var i', j' := PositionAt(es, k + 1, n, l);
    NextIs(es, k, m, n, l, AsChanges, AsChanges, i, j);
    NextIs(es, k + 1, m, n, l, AsChanges, AsChanges, i', j');
    StaysInGap(es, k, n, l, i, j, i', j');
    if !es[k].Match? {
      assert es[..k + 1][..k] == es[..k] && Matched(es[..k + 1]) == Matched(es[..k]);
    }
  }
}
