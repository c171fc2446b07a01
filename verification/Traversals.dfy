/**
  traverse_sequences and traverse_balanced.  The callbacks are recorded as events, in the order in
  which they are called.
 */
module Traversals {
  import opened Wrappers
  import opened LcsSpec
  import opened MatchVectors
  import opened LcsChoice
  import opened LcsEngine
  import opened LcsApi
  import opened Turns
  import opened Walks

  /** The events of a complete traversal of two key sequences along a longest common subsequence. */
  ghost predicate OptimalWalk<K>(es: seq<Event>, x: seq<K>, y: seq<K>) {
    && Walk(es, |x|, |y|)
    && Matching(x, y, Matched(es)) && |Matched(es)| == Lcs(x, y)
  }

  /** The state before slot ai of the match vector: the slots so far are walked, the rest lies ahead. */
  ghost predicate WalkState(v: Vector, slot: nat, es: seq<Event>, ai: nat, bi: nat) {
    && slot <= |v| && Walk(es, ai, bi) && Matched(es) == Pairs(v[..slot])
    && Ahead(v, slot, bi)
  }

  /** Later matches are not before column bi. */
  ghost predicate Ahead(v: Vector, slot: nat, bi: nat) {
    forall p :: slot <= p < |v| && v[p].Some? ==> bi <= v[p].value
  }

  lemma StepMatch<K>(x: seq<K>, y: seq<K>, v: Vector, es: seq<Event>, ai: nat, bi: nat)
    requires PartialMatch(v, x, y) && ai < |v| && v[ai] == Some(bi)
    requires WalkState(v, ai, es, ai, bi)
    ensures WalkState(v, ai + 1, es + [Match(ai, bi)], ai + 1, bi + 1)
  {
    Append(es, Match(ai, bi));
    PairsExtend(v, ai);
  }

  /** A slot without a match may be passed at any time before the next match. */
  lemma PassSlot(v: Vector, slot: nat, es: seq<Event>, ai: nat, bi: nat)
    requires WalkState(v, slot, es, ai, bi) && slot < |v| && v[slot].None?
    ensures WalkState(v, slot + 1, es, ai, bi)
  {
    PairsExtend(v, slot);
  }

  lemma Step(v: Vector, slot: nat, es: seq<Event>, ai: nat, bi: nat, e: Event, ai': nat, bi': nat)
    requires WalkState(v, slot, es, ai, bi) && Leads(e, ai, bi, ai', bi') && Ahead(v, slot, bi')
    ensures WalkState(v, slot, es + [e], ai', bi')
  {
    Append(es, e);
  }

  /** No CHANGE event, and the given numbers of calls of the two optional callbacks. */
  ghost predicate Calls(es: seq<Event>, aCalled: nat, bCalled: nat) {
    && Occurrences(es, CHANGE) == 0
    && Occurrences(es, A_FINISHED) == aCalled && Occurrences(es, B_FINISHED) == bCalled
  }

  lemma CallsStep(es: seq<Event>, aCalled: nat, bCalled: nat, e: Event)
    requires Calls(es, aCalled, bCalled) && !e.Change?
    ensures Calls(es + [e], aCalled + if e.AFinished? then 1 else 0, bCalled + if e.BFinished? then 1 else 0)
  {
    Append(es, e);
  }

  // ----- traverse_sequences -----

  lemma NothingOrdered(m: seq<(nat, nat)>, n: nat, l: nat, inner: Manner, last: Manner)
    ensures Ordered([], m, n, l, inner, last)
  {
  }

  /** At slot ai: elements of a that are not matched go first, those of b come just before the match. */
  lemma OnTurn(v: Vector, es: seq<Event>, ai: nat, e: Event, n: nat, l: nat)
    requires ai < |v| && v[|v| - 1].Some? && Matched(es) == Pairs(v[..ai])
    requires Ordered(es, Pairs(v), n, l, FirstA, InTurn)
    requires e.Match? || e.DiscardA? || (e.DiscardB? && e.ai == ai && v[ai].Some?)
    ensures Ordered(es + [e], Pairs(v), n, l, FirstA, InTurn)
  {
    hide Ordered, Pairs;
    PairAhead(v, ai);
    NextPair(v, ai, |v|);
    assert v[..|v|] == v;
    OrderedNext(es, e, Pairs(v), n, l, FirstA, InTurn);
  }

  /** Walks along the match vector; stops just behind its last match. */
  method WalkMatches<K>(ghost x: seq<K>, ghost y: seq<K>, v: Vector) returns (es: seq<Event>, bi: nat)
    requires MatchVector(v, x, y)
    ensures WalkState(v, |v|, es, |v|, bi) && bi == TailStart(v)
    ensures Calls(es, 0, 0) && Ordered(es, Pairs(v), |x|, |y|, FirstA, InTurn)
  {
    hide Ordered, Timely;
    es, bi := [], 0;
    NothingOrdered(Pairs(v), |x|, |y|, FirstA, InTurn);
    var ai := 0;
    while ai < |v|
      invariant ai <= |v|
      invariant WalkState(v, ai, es, ai, bi)
      invariant ai == 0 ==> bi == 0
      invariant ai > 0 && v[ai - 1].Some? ==> bi == v[ai - 1].value + 1
      invariant Calls(es, 0, 0) && Ordered(es, Pairs(v), |x|, |y|, FirstA, InTurn)
    {
      match v[ai] {
        case Some(bLine) =>
          while bi < bLine
            invariant bi <= bLine
            invariant WalkState(v, ai, es, ai, bi)
            invariant Calls(es, 0, 0) && Ordered(es, Pairs(v), |x|, |y|, FirstA, InTurn)
          {
            OnTurn(v, es, ai, DiscardB(ai, bi), |x|, |y|);
            AheadOf(x, y, v, ai, bi + 1);
            Step(v, ai, es, ai, bi, DiscardB(ai, bi), ai, bi + 1);
            CallsStep(es, 0, 0, DiscardB(ai, bi));
            es, bi := es + [DiscardB(ai, bi)], bi + 1;
          }
          OnTurn(v, es, ai, Match(ai, bi), |x|, |y|);
          StepMatch(x, y, v, es, ai, bi);
          CallsStep(es, 0, 0, Match(ai, bi));
          es, bi := es + [Match(ai, bi)], bi + 1;
        case None =>
          OnTurn(v, es, ai, DiscardA(ai, bi), |x|, |y|);
          Step(v, ai, es, ai, bi, DiscardA(ai, bi), ai + 1, bi);
          CallsStep(es, 0, 0, DiscardA(ai, bi));
          PassSlot(v, ai, es + [DiscardA(ai, bi)], ai + 1, bi);
          es := es + [DiscardA(ai, bi)];
      }
      ai := ai + 1;
    }
  }

  lemma AheadOf<K>(x: seq<K>, y: seq<K>, v: Vector, slot: nat, bi: nat)
    requires PartialMatch(v, x, y) && slot < |v| && v[slot].Some? && bi <= v[slot].value
    ensures Ahead(v, slot, bi)
  {
  }

  /** The first index of b behind the last match. */
  function TailStart(v: Vector): nat {
    if v != [] && v[|v| - 1].Some? then v[|v| - 1].value + 1 else 0
  }

  /** The positions behind the last match. */
  function TailOf(m: seq<(nat, nat)>): (nat, nat) {
    if m == [] then (0, 0) else (m[|m| - 1].0 + 1, m[|m| - 1].1 + 1)
  }

  lemma TailOfVector(v: Vector)
    requires v != [] ==> v[|v| - 1].Some?
    ensures TailOf(Pairs(v)) == (|v|, TailStart(v))
  {
  }

  /**
    A finished callback is given the last index of its sequence, at the moment when that sequence has
    been walked and the other one, in step with it, as far.
   */
  ghost predicate FinishedAt(es: seq<Event>, k: nat, n: nat, m: nat, ta: nat, tb: nat)
    requires k < |es|
  {
    match es[k]
    case AFinished(last) => last == n - 1 && ta <= n && Walk(es[..k], n, tb + (n - ta))
    case BFinished(last) => last == m - 1 && tb <= m && Walk(es[..k], ta + (m - tb), m)
    case _ => true
  }

  ghost predicate Finishes(es: seq<Event>, n: nat, m: nat, ta: nat, tb: nat) {
    forall k :: 0 <= k < |es| ==> FinishedAt(es, k, n, m, ta, tb)
  }

  lemma FinishesNext(es: seq<Event>, n: nat, m: nat, ta: nat, tb: nat, e: Event)
    requires Finishes(es, n, m, ta, tb)
    requires e.AFinished? ==> e.lastA == n - 1 && ta <= n && Walk(es, n, tb + (n - ta))
    requires e.BFinished? ==> e.lastB == m - 1 && tb <= m && Walk(es, ta + (m - tb), m)
    ensures Finishes(es + [e], n, m, ta, tb)
  {
    hide Walk;
    var longer := es + [e];
    assert longer[..|es|] == es;
    forall k | 0 <= k < |longer|
      ensures FinishedAt(longer, k, n, m, ta, tb)
    {
      if k < |es| {
        assert FinishedAt(es, k, n, m, ta, tb) && longer[..k] == es[..k];
      }
    }
  }

  lemma {:induction false} NoneYet(es: seq<Event>, n: nat, m: nat, ta: nat, tb: nat)
    requires Calls(es, 0, 0)
    ensures Finishes(es, n, m, ta, tb)
  {
    if es != [] {
      var before, e := es[..|es| - 1], es[|es| - 1];
      NoneYet(before, n, m, ta, tb);
      FinishesNext(before, n, m, ta, tb, e);
      assert before + [e] == es;
    }
  }

  /**
    traverse_sequences.  hasAFinished and hasBFinished say whether the caller supplied those
    callbacks.  Each is called at most once, and exactly when its sequence runs out first behind the
    last match; the other sequence's discards are reported all the same.
   */
  method TraverseSequences<T, K(==)>(a: seq<T>, b: seq<T>, hasAFinished: bool, hasBFinished: bool, key: T -> K)
    returns (es: seq<Event>)
    ensures OptimalWalk(es, Keys(a, key), Keys(b, key)) && Occurrences(es, CHANGE) == 0
    ensures Matched(es) == Picked(Keys(a, key), Keys(b, key), false)
    ensures Ordered(es, Matched(es), |a|, |b|, FirstA, InTurn)
    ensures var (ta, tb) := TailOf(Matched(es));
            && Finishes(es, |a|, |b|, ta, tb)
            && Occurrences(es, A_FINISHED) == (if hasAFinished && |a| - ta < |b| - tb then 1 else 0)
            && Occurrences(es, B_FINISHED) == (if hasBFinished && |b| - tb < |a| - ta then 1 else 0)
  {
    hide Picked, Finishes, Window;
    var answer := LongestCommonSubsequence(a, Items(b), Keys(b, key), false, key);
    var v, bi := answer.vector, 0;
    es, bi := WalkMatches(Keys(a, key), Keys(b, key), v);
    NoneYet(es, |a|, |b|, |v|, bi);
    TailOfVector(v);
    assert v[..|v|] == v;
    es := WalkTail(v, es, |a|, |b|, |v|, bi, hasAFinished, hasBFinished);
    PairsMatch(v, Keys(a, key), Keys(b, key));
  }

  /** What the tail loop keeps: i and j are the positions, ta and tb where the tail began. */
  ghost predicate TailState(v: Vector, es: seq<Event>, n: nat, m: nat, ta: nat, tb: nat, i: nat, j: nat,
                            aCalled: nat, bCalled: nat)
  {
    && WalkState(v, |v|, es, i, j) && ta <= i <= n && tb <= j <= m
    && Calls(es, aCalled, bCalled) && Finishes(es, n, m, ta, tb)
    && InTail(v, es, n, m, ta, tb)
  }

  /** All matches are passed, and everything had its turn. */
  ghost predicate InTail(v: Vector, es: seq<Event>, n: nat, m: nat, ta: nat, tb: nat) {
    && Matched(es) == Pairs(v) && TailOf(Pairs(v)) == (ta, tb)
    && Ordered(es, Pairs(v), n, m, FirstA, InTurn)
  }

  lemma TailTurn(v: Vector, es: seq<Event>, n: nat, m: nat, ta: nat, tb: nat, e: Event)
    requires InTail(v, es, n, m, ta, tb) && !e.Match? && !e.Change?
    requires e.DiscardA? ==> e.ai - ta == e.bi - tb || e.bi == m
    requires e.DiscardB? ==> e.ai - ta == e.bi - tb + 1 || e.ai == n
    ensures InTail(v, es + [e], n, m, ta, tb)
  {
    hide Pairs, Ordered;
    OrderedNext(es, e, Pairs(v), n, m, FirstA, InTurn);
    Append(es, e);
  }

  lemma TailStep(v: Vector, es: seq<Event>, n: nat, m: nat, ta: nat, tb: nat, i: nat, j: nat,
                 aCalled: nat, bCalled: nat, e: Event, i': nat, j': nat)
    requires TailState(v, es, n, m, ta, tb, i, j, aCalled, bCalled)
    requires Leads(e, i, j, i', j') && !e.Change? && i' <= n && j' <= m
    requires e.AFinished? ==> e.lastA == n - 1 && i == n && j == tb + (n - ta)
    requires e.BFinished? ==> e.lastB == m - 1 && j == m && i == ta + (m - tb)
    requires e.DiscardA? ==> i - ta == j - tb || j == m
    requires e.DiscardB? ==> i - ta == j - tb + 1 || i == n
    ensures TailState(v, es + [e], n, m, ta, tb, i', j',
                      aCalled + if e.AFinished? then 1 else 0, bCalled + if e.BFinished? then 1 else 0)
  {
    hide Finishes, Calls, Walk, InTail;
    TailTurn(v, es, n, m, ta, tb, e);
    Step(v, |v|, es, i, j, e, i', j');
    CallsStep(es, aCalled, bCalled, e);
    FinishesNext(es, n, m, ta, tb, e);
  }

  /** Discards the rest of b. */
  method DiscardRestB(ghost v: Vector, es0: seq<Event>, ghost n: nat, m: nat, ghost ta: nat, ghost tb: nat,
                      i: nat, j0: nat, ghost aCalled: nat, ghost bCalled: nat)
    returns (es: seq<Event>, j: nat)
    requires TailState(v, es0, n, m, ta, tb, i, j0, aCalled, bCalled) && i == n
    ensures TailState(v, es, n, m, ta, tb, i, j, aCalled, bCalled) && j == m
  {
    es, j := es0, j0;
    while j < m
      invariant j <= m && TailState(v, es, n, m, ta, tb, i, j, aCalled, bCalled)
    {
      TailStep(v, es, n, m, ta, tb, i, j, aCalled, bCalled, DiscardB(i, j), i, j + 1);
      es, j := es + [DiscardB(i, j)], j + 1;
    }
  }

  /** Discards the rest of a. */
  method DiscardRestA(ghost v: Vector, es0: seq<Event>, n: nat, ghost m: nat, ghost ta: nat, ghost tb: nat,
                      i0: nat, j: nat, ghost aCalled: nat, ghost bCalled: nat)
    returns (es: seq<Event>, i: nat)
    requires TailState(v, es0, n, m, ta, tb, i0, j, aCalled, bCalled) && j == m
    ensures TailState(v, es, n, m, ta, tb, i, j, aCalled, bCalled) && i == n
  {
    es, i := es0, i0;
    while i < n
      invariant i <= n && TailState(v, es, n, m, ta, tb, i, j, aCalled, bCalled)
    {
      TailStep(v, es, n, m, ta, tb, i, j, aCalled, bCalled, DiscardA(i, j), i + 1, j);
      es, i := es + [DiscardA(i, j)], i + 1;
    }
  }

  /** How far the two tails have been walked: in step while both last. */
  ghost predicate InStep(n: nat, m: nat, ta: nat, tb: nat, i: nat, j: nat) {
    && (i < n && j < m ==> i - ta == j - tb)
    && (i == n && j < m ==> n - ta < m - tb && n - ta <= j - tb)
    && (j == m && i < n ==> m - tb < n - ta && m - tb <= i - ta)
  }

  /** The tail behind the last match: one element of each side in turn until one side ends, then the rest. */
  method WalkTail(ghost v: Vector, es0: seq<Event>, n: nat, m: nat, ta: nat, tb: nat, hasAFinished: bool, hasBFinished: bool)
    returns (es: seq<Event>)
    requires TailState(v, es0, n, m, ta, tb, ta, tb, 0, 0)
    ensures TailState(v, es, n, m, ta, tb, n, m,
                      if hasAFinished && n - ta < m - tb then 1 else 0,
                      if hasBFinished && m - tb < n - ta then 1 else 0)
  {
    es := es0;
    var i: nat, j: nat, finishedA: bool, finishedB: bool := ta, tb, hasAFinished, hasBFinished;
    while i < n || j < m
      invariant TailState(v, es, n, m, ta, tb, i, j,
                          if hasAFinished && !finishedA then 1 else 0, if hasBFinished && !finishedB then 1 else 0)
      invariant InStep(n, m, ta, tb, i, j)
      invariant hasAFinished && !finishedA ==> n - ta < m - tb
      invariant hasBFinished && !finishedB ==> m - tb < n - ta
      invariant finishedA && n - ta < m - tb ==> j - tb <= n - ta
      invariant finishedB && m - tb < n - ta ==> i - ta <= m - tb
      invariant finishedA ==> hasAFinished
      invariant finishedB ==> hasBFinished
      decreases n - i + m - j
    {
      ghost var ca := if hasAFinished && !finishedA then 1 else 0;
      ghost var cb := if hasBFinished && !finishedB then 1 else 0;
      if i == n && j < m {
        if finishedA {
          TailStep(v, es, n, m, ta, tb, i, j, ca, cb, AFinished(n - 1), i, j);
          es, finishedA, ca := es + [AFinished(n - 1)], false, ca + 1;
        } else {
          es, j := DiscardRestB(v, es, n, m, ta, tb, i, j, ca, cb);
        }
      }
      if j == m && i < n {
        if finishedB {
          TailStep(v, es, n, m, ta, tb, i, j, ca, cb, BFinished(m - 1), i, j);
          es, finishedB, cb := es + [BFinished(m - 1)], false, cb + 1;
        } else {
          es, i := DiscardRestA(v, es, n, m, ta, tb, i, j, ca, cb);
        }
      }
      if i < n {
        TailStep(v, es, n, m, ta, tb, i, j, ca, cb, DiscardA(i, j), i + 1, j);
        es, i := es + [DiscardA(i, j)], i + 1;
      }
      if j < m {
        TailStep(v, es, n, m, ta, tb, i, j, ca, cb, DiscardB(i, j), i, j + 1);
        es, j := es + [DiscardB(i, j)], j + 1;
      }
    }
  }

  // ----- traverse_balanced -----

  /** An element only of a, respectively only of b, was reported since the last match. */
  ghost predicate DiscardedA(es: seq<Event>) {
    es != [] && !es[|es| - 1].Match? && (es[|es| - 1].DiscardA? || DiscardedA(es[..|es| - 1]))
  }

  ghost predicate DiscardedB(es: seq<Event>) {
    es != [] && !es[|es| - 1].Match? && (es[|es| - 1].DiscardB? || DiscardedB(es[..|es| - 1]))
  }

  /** Between two matches at most one side has elements of its own: the rest is paired off as changes. */
  ghost predicate Balanced(es: seq<Event>) {
    es == [] || (!(DiscardedA(es) && DiscardedB(es)) && Balanced(es[..|es| - 1]))
  }

  /** A gap before position (ma, mb) that is walked with changes first. */
  ghost predicate GapState(v: Vector, slot: nat, es: seq<Event>, ai: nat, bi: nat, ma: nat, mb: nat, hasChange: bool) {
    && WalkState(v, slot, es, ai, bi) && ai <= ma && bi <= mb && Ahead(v, slot, mb)
    && (hasChange ==> Balanced(es) && (DiscardedA(es) ==> bi == mb) && (DiscardedB(es) ==> ai == ma))
    && (!hasChange ==> Occurrences(es, CHANGE) == 0)
  }

  lemma GapStep(v: Vector, slot: nat, es: seq<Event>, ai: nat, bi: nat, ma: nat, mb: nat, hasChange: bool,
                e: Event, ai': nat, bi': nat)
    requires GapState(v, slot, es, ai, bi, ma, mb, hasChange)
    requires Leads(e, ai, bi, ai', bi') && ai' <= ma && bi' <= mb
    requires e.Change? ==> hasChange
    requires hasChange && e.DiscardA? ==> bi == mb
    requires hasChange && e.DiscardB? ==> ai == ma
    requires Ahead(v, slot, bi')
    ensures GapState(v, slot, es + [e], ai', bi', ma, mb, hasChange)
  {
    Step(v, slot, es, ai, bi, e, ai', bi');
    Append(es, e);
  }

  function GapManner(hasChange: bool): Manner {
    if hasChange then AsChanges else InTurn
  }

  /** So far everything had its turn, and the gap the walk is in leads to (ma, mb). */
  ghost predicate GapTurn(v: Vector, es: seq<Event>, ma: nat, mb: nat, n: nat, l: nat, hasChange: bool) {
    var m, c, manner := Pairs(v), |Matched(es)|, GapManner(hasChange);
    Ordered(es, m, n, l, manner, manner) && NoneFinished(es) && c <= |m| && GapEnd(m, c, n, l) == (ma, mb)
  }

  /** Where the gap began. */
  ghost function GapFrom(v: Vector, es: seq<Event>): (nat, nat)
    requires |Matched(es)| <= |Pairs(v)|
  {
    GapStart(Pairs(v), |Matched(es)|)
  }

  lemma TurnTaken(v: Vector, es: seq<Event>, ma: nat, mb: nat, n: nat, l: nat, hasChange: bool, e: Event)
    requires GapTurn(v, es, ma, mb, n, l, hasChange) && !e.Match? && !e.AFinished? && !e.BFinished?
    requires Timely(e, GapManner(hasChange), GapFrom(v, es), (ma, mb))
    ensures GapTurn(v, es + [e], ma, mb, n, l, hasChange) && GapFrom(v, es + [e]) == GapFrom(v, es)
  {
    hide Pairs, Ordered, Timely;
    OrderedNext(es, e, Pairs(v), n, l, GapManner(hasChange), GapManner(hasChange));
    Append(es, e);
  }

  /** Walks up to position (ma, mb), pairing off elements of both sides as long as there are any. */
  method WalkGap(ghost v: Vector, ghost slot: nat, es0: seq<Event>, ai0: nat, bi0: nat, ma: nat, mb: nat, hasChange: bool,
                 ghost n: nat, ghost l: nat)
    returns (es: seq<Event>)
    requires GapState(v, slot, es0, ai0, bi0, ma, mb, hasChange)
    requires GapTurn(v, es0, ma, mb, n, l, hasChange) && GapFrom(v, es0) == (ai0, bi0)
    ensures GapState(v, slot, es, ma, mb, ma, mb, hasChange) && GapTurn(v, es, ma, mb, n, l, hasChange)
  {
    hide GapTurn, GapFrom, WalkState;
    TurnBounds(v, es0, ma, mb, n, l, hasChange);
    es := es0;
    var ai: nat, bi: nat := ai0, bi0;
    while ai < ma || bi < mb
      invariant GapState(v, slot, es, ai, bi, ma, mb, hasChange)
      invariant GapTurn(v, es, ma, mb, n, l, hasChange) && |Matched(es)| <= |Pairs(v)| && GapFrom(v, es) == (ai0, bi0)
      invariant ai < ma && bi < mb ==> ai - ai0 == bi - bi0
      decreases ma - ai + mb - bi
    {
      assert ai <= ma && bi <= mb && Ahead(v, slot, mb);
      if ai < ma && bi < mb {
        if hasChange {
          TurnTaken(v, es, ma, mb, n, l, hasChange, Change(ai, bi));
          GapStep(v, slot, es, ai, bi, ma, mb, hasChange, Change(ai, bi), ai + 1, bi + 1);
          es, ai, bi := es + [Change(ai, bi)], ai + 1, bi + 1;
        } else {
          TurnTaken(v, es, ma, mb, n, l, hasChange, DiscardA(ai, bi));
          GapStep(v, slot, es, ai, bi, ma, mb, hasChange, DiscardA(ai, bi), ai + 1, bi);
          es, ai := es + [DiscardA(ai, bi)], ai + 1;
          TurnTaken(v, es, ma, mb, n, l, hasChange, DiscardB(ai, bi));
          GapStep(v, slot, es, ai, bi, ma, mb, hasChange, DiscardB(ai, bi), ai, bi + 1);
          es, bi := es + [DiscardB(ai, bi)], bi + 1;
        }
      } else if ai < ma {
        TurnTaken(v, es, ma, mb, n, l, hasChange, DiscardA(ai, bi));
        GapStep(v, slot, es, ai, bi, ma, mb, hasChange, DiscardA(ai, bi), ai + 1, bi);
        es, ai := es + [DiscardA(ai, bi)], ai + 1;
      } else {
        TurnTaken(v, es, ma, mb, n, l, hasChange, DiscardB(ai, bi));
        GapStep(v, slot, es, ai, bi, ma, mb, hasChange, DiscardB(ai, bi), ai, bi + 1);
        es, bi := es + [DiscardB(ai, bi)], bi + 1;
      }
    }
  }

  /** What the outer loop keeps: all slots before `slot` are done and nothing is pending since the last match. */
  ghost predicate GapsDone(v: Vector, slot: nat, es: seq<Event>, ai: nat, bi: nat, hasChange: bool, m: nat) {
    && WalkState(v, slot, es, ai, bi) && ai <= slot && bi <= m
    && !DiscardedA(es) && !DiscardedB(es)
    && (hasChange ==> Balanced(es)) && (!hasChange ==> Occurrences(es, CHANGE) == 0)
  }

  lemma TurnBounds(v: Vector, es: seq<Event>, ma: nat, mb: nat, n: nat, l: nat, hasChange: bool)
    requires GapTurn(v, es, ma, mb, n, l, hasChange)
    ensures |Matched(es)| <= |Pairs(v)|
  {
  }

  /** Before the next gap everything had its turn, and the walk is where the gap begins. */
  ghost predicate BetweenGaps(v: Vector, es: seq<Event>, ai: nat, bi: nat, n: nat, l: nat, hasChange: bool) {
    && Ordered(es, Pairs(v), n, l, GapManner(hasChange), GapManner(hasChange))
    && NoneFinished(es) && |Matched(es)| <= |Pairs(v)| && GapFrom(v, es) == (ai, bi)
  }

  lemma GapOpens(v: Vector, slot: nat, es: seq<Event>, ai: nat, bi: nat, n: nat, l: nat, hasChange: bool)
    requires BetweenGaps(v, es, ai, bi, n, l, hasChange) && slot <= |v| && Matched(es) == Pairs(v[..slot])
    requires slot < |v| ==> v[slot].Some?
    ensures if slot < |v| then GapTurn(v, es, slot, v[slot].value, n, l, hasChange) else GapTurn(v, es, n, l, n, l, hasChange)
    ensures GapFrom(v, es) == (ai, bi)
  {
    hide Ordered, Pairs;
    NextPair(v, slot, |v|);
    assert v[..|v|] == v;
  }

  lemma GapCloses(v: Vector, ma: nat, mb: nat, es: seq<Event>, n: nat, l: nat, hasChange: bool)
    requires ma < |v| && v[ma] == Some(mb) && GapTurn(v, es, ma, mb, n, l, hasChange) && Matched(es) == Pairs(v[..ma])
    ensures BetweenGaps(v, es + [Match(ma, mb)], ma + 1, mb + 1, n, l, hasChange)
  {
    hide Ordered, Pairs;
    NextPair(v, ma, |v|);
    assert v[..|v|] == v;
    OrderedNext(es, Match(ma, mb), Pairs(v), n, l, GapManner(hasChange), GapManner(hasChange));
    Append(es, Match(ma, mb));
  }

  lemma MatchFound<K>(x: seq<K>, y: seq<K>, v: Vector, ma: nat, es: seq<Event>, ai: nat, bi: nat, hasChange: bool)
    requires PartialMatch(v, x, y) && GapsDone(v, ma, es, ai, bi, hasChange, |y|) && ma < |v| && v[ma].Some?
    ensures GapState(v, ma, es, ai, bi, ma, v[ma].value, hasChange)
  {
  }

  lemma MatchDone<K>(x: seq<K>, y: seq<K>, v: Vector, ma: nat, mb: nat, es: seq<Event>, hasChange: bool)
    requires PartialMatch(v, x, y) && ma < |v| && v[ma] == Some(mb)
    requires GapState(v, ma, es, ma, mb, ma, mb, hasChange)
    ensures GapsDone(v, ma + 1, es + [Match(ma, mb)], ma + 1, mb + 1, hasChange, |y|)
  {
    StepMatch(x, y, v, es, ma, mb);
    Append(es, Match(ma, mb));
  }

  lemma SlotPassed(v: Vector, slot: nat, es: seq<Event>, ai: nat, bi: nat, hasChange: bool, m: nat)
    requires GapsDone(v, slot, es, ai, bi, hasChange, m) && slot < |v| && v[slot].None?
    ensures GapsDone(v, slot + 1, es, ai, bi, hasChange, m)
  {
    PassSlot(v, slot, es, ai, bi);
  }

  lemma TailGap(v: Vector, es: seq<Event>, ai: nat, bi: nat, hasChange: bool, n: nat, m: nat)
    requires |v| <= n && GapsDone(v, |v|, es, ai, bi, hasChange, m)
    ensures GapState(v, |v|, es, ai, bi, n, m, hasChange)
  {
  }

  /** traverse_balanced.  hasChange says whether the caller supplied a CHANGE callback. */
  method TraverseBalanced<T, K(==)>(a: seq<T>, b: seq<T>, hasChange: bool, key: T -> K)
    returns (es: seq<Event>)
    ensures OptimalWalk(es, Keys(a, key), Keys(b, key))
    ensures Matched(es) == Picked(Keys(a, key), Keys(b, key), false)
    ensures if hasChange then Balanced(es) else Occurrences(es, CHANGE) == 0
    ensures Traversal(es, Matched(es), |a|, |b|, GapManner(hasChange), GapManner(hasChange))
  {
    hide Picked, Window, BetweenGaps, Ordered;
    ghost var x, y := Keys(a, key), Keys(b, key);
    var answer := LongestCommonSubsequence(a, Items(b), Keys(b, key), false, key);
    var v := answer.vector;
    var ai: nat, bi: nat;
    es, ai, bi := WalkGaps(x, y, v, hasChange);
    assert v[..|v|] == v;
    TailGap(v, es, ai, bi, hasChange, |a|, |b|);
    GapOpens(v, |v|, es, ai, bi, |a|, |b|, hasChange);
    es := WalkGap(v, |v|, es, ai, bi, |a|, |b|, hasChange, |a|, |b|);
    PairsMatch(v, x, y);
  }

  /** Finds one match after the other and walks the gap before it. */
  method WalkGaps<K>(ghost x: seq<K>, ghost y: seq<K>, v: Vector, hasChange: bool)
    returns (es: seq<Event>, ai: nat, bi: nat)
    requires PartialMatch(v, x, y)
    ensures GapsDone(v, |v|, es, ai, bi, hasChange, |y|) && BetweenGaps(v, es, ai, bi, |x|, |y|, hasChange)
  {
    es, ai, bi := [], 0, 0;
    var ma: int := -1;
    while true
      invariant -1 <= ma < |v|
      invariant GapsDone(v, ma + 1, es, ai, bi, hasChange, |y|) && BetweenGaps(v, es, ai, bi, |x|, |y|, hasChange)
      decreases |v| - ma
    {
      ma := ma + 1;
      while ma < |v| && v[ma].None?
        invariant 0 <= ma <= |v|
        invariant GapsDone(v, ma, es, ai, bi, hasChange, |y|)
      {
        SlotPassed(v, ma, es, ai, bi, hasChange, |y|);
        ma := ma + 1;
      }
      if ma == |v| {
        break;
      }
      var mb := v[ma].value;
      MatchFound(x, y, v, ma, es, ai, bi, hasChange);
      GapOpens(v, ma, es, ai, bi, |x|, |y|, hasChange);
      es := WalkGap(v, ma, es, ai, bi, ma, mb, hasChange, |x|, |y|);
      GapCloses(v, ma, mb, es, |x|, |y|, hasChange);
      MatchDone(x, y, v, ma, mb, es, hasChange);
      es, ai, bi := es + [Match(ma, mb)], ma + 1, mb + 1;
    }
  }
}
