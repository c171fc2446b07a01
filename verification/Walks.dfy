/**
  Walks over two sequences: the callback events that a traversal makes, and what any such walk
  implies.  Everything diff and sdiff promise follows from "the events walk over both sequences" and
  "the matches are a longest common subsequence".
 */
module Walks {
  import opened LcsSpec

  /** One callback, with the two positions it is given. */
  datatype Event =
    | Match(ai: nat, bi: nat)
    | DiscardA(ai: nat, bi: nat)
    | DiscardB(ai: nat, bi: nat)
    | Change(ai: nat, bi: nat)
    | AFinished(lastA: int)
    | BFinished(lastB: int)

  /** es leads from the two beginnings to positions (i, j), every event being given the positions it starts from. */
  ghost predicate Walk(es: seq<Event>, i: nat, j: nat)
    decreases |es|
  {
    if es == [] then i == 0 && j == 0
    else
      var before := es[..|es| - 1];
      match es[|es| - 1]
      case Match(ai, bi) => i == ai + 1 && j == bi + 1 && Walk(before, ai, bi)
      case DiscardA(ai, bi) => i == ai + 1 && j == bi && Walk(before, ai, bi)
      case DiscardB(ai, bi) => i == ai && j == bi + 1 && Walk(before, ai, bi)
      case Change(ai, bi) => i == ai + 1 && j == bi + 1 && Walk(before, ai, bi)
      case AFinished(_) => Walk(before, i, j)
      case BFinished(_) => Walk(before, i, j)
  }

  /** The index pairs of the MATCH events. */
  ghost function Matched(es: seq<Event>): seq<(nat, nat)> {
    if es == [] then []
    else
      Matched(es[..|es| - 1]) +
      match es[|es| - 1] case Match(ai, bi) => [(ai, bi)] case _ => []
  }

  datatype Kind = MATCH | DISCARD_A | DISCARD_B | CHANGE | A_FINISHED | B_FINISHED

  function KindOf(e: Event): Kind {
    match e
    case Match(_, _) => MATCH
    case DiscardA(_, _) => DISCARD_A
    case DiscardB(_, _) => DISCARD_B
    case Change(_, _) => CHANGE
    case AFinished(_) => A_FINISHED
    case BFinished(_) => B_FINISHED
  }

  /** How many events are of one kind. */
  ghost function Occurrences(es: seq<Event>, kind: Kind): nat {
    if es == [] then 0 else Occurrences(es[..|es| - 1], kind) + if KindOf(es[|es| - 1]) == kind then 1 else 0
  }

  lemma Append(es: seq<Event>, e: Event)
    ensures (es + [e])[..|es|] == es && (es + [e])[|es|] == e
    ensures Matched(es + [e]) == Matched(es) + match e case Match(ai, bi) => [(ai, bi)] case _ => []
    ensures forall kind :: Occurrences(es + [e], kind) == Occurrences(es, kind) + if KindOf(e) == kind then 1 else 0
  {
    assert (es + [e])[..|es|] == es;
  }

  /** Where the last event of a walk started. */
  lemma LastStep(es: seq<Event>, i: nat, j: nat) returns (ai: nat, bi: nat)
    requires es != [] && Walk(es, i, j)
    ensures Walk(es[..|es| - 1], ai, bi)
    ensures var e := es[|es| - 1];
            if e.Match? then e == Match(ai, bi) && i == ai + 1 && j == bi + 1 else Leads(e, ai, bi, i, j)
  {
    match es[|es| - 1]
    case Match(x, y) => ai, bi := x, y;
    case DiscardA(x, y) => ai, bi := x, y;
    case DiscardB(x, y) => ai, bi := x, y;
    case Change(x, y) => ai, bi := x, y;
    case AFinished(_) => ai, bi := i, j;
    case BFinished(_) => ai, bi := i, j;
  }

  /** One event that is not a match: where it starts and where it leads. */
  ghost predicate Leads(e: Event, ai: nat, bi: nat, ai': nat, bi': nat) {
    match e
    case DiscardA(i, j) => i == ai && j == bi && ai' == ai + 1 && bi' == bi
    case DiscardB(i, j) => i == ai && j == bi && ai' == ai && bi' == bi + 1
    case Change(i, j) => i == ai && j == bi && ai' == ai + 1 && bi' == bi + 1
    case AFinished(_) => ai' == ai && bi' == bi
    case BFinished(_) => ai' == ai && bi' == bi
    case Match(_, _) => false
  }

  // ----- Positions never go back -----

  lemma {:induction false} WalkMonotone(es: seq<Event>, k: nat, i0: nat, j0: nat, i: nat, j: nat)
    requires k <= |es| && Walk(es[..k], i0, j0) && Walk(es, i, j)
    ensures i0 <= i && j0 <= j
    decreases |es|
  {
    if k == |es| {
      assert es[..k] == es;
      WalkEndsOnce(es, i0, j0, i, j);
    } else {
      var before := es[..|es| - 1];
      assert before[..k] == es[..k];
      match es[|es| - 1]
      case Match(ai, bi) => WalkMonotone(before, k, i0, j0, ai, bi);
      case DiscardA(ai, bi) => WalkMonotone(before, k, i0, j0, ai, bi);
      case DiscardB(ai, bi) => WalkMonotone(before, k, i0, j0, ai, bi);
      case Change(ai, bi) => WalkMonotone(before, k, i0, j0, ai, bi);
      case AFinished(_) => WalkMonotone(before, k, i0, j0, i, j);
      case BFinished(_) => WalkMonotone(before, k, i0, j0, i, j);
    }
  }

  lemma {:induction false} WalkEndsOnce(es: seq<Event>, i0: nat, j0: nat, i: nat, j: nat)
    requires Walk(es, i0, j0) && Walk(es, i, j)
    ensures i0 == i && j0 == j
    decreases |es|
  {
    if es != [] {
      match es[|es| - 1]
      case AFinished(_) => WalkEndsOnce(es[..|es| - 1], i0, j0, i, j);
      case BFinished(_) => WalkEndsOnce(es[..|es| - 1], i0, j0, i, j);
      case _ =>
    }
  }

  // ----- Every index is visited once -----

  /** A walk visits each index of a once, by a match, a change or a discard; and each index of b likewise. */
  lemma {:induction false} WalkCounts(es: seq<Event>, i: nat, j: nat)
    requires Walk(es, i, j)
    ensures i == |Matched(es)| + Occurrences(es, CHANGE) + Occurrences(es, DISCARD_A)
    ensures j == |Matched(es)| + Occurrences(es, CHANGE) + Occurrences(es, DISCARD_B)
    decreases |es|
  {
    if es != [] {
      var before := es[..|es| - 1];
      match es[|es| - 1]
      case Match(ai, bi) => WalkCounts(before, ai, bi);
      case DiscardA(ai, bi) => WalkCounts(before, ai, bi);
      case DiscardB(ai, bi) => WalkCounts(before, ai, bi);
      case Change(ai, bi) => WalkCounts(before, ai, bi);
      case AFinished(_) => WalkCounts(before, i, j);
      case BFinished(_) => WalkCounts(before, i, j);
    }
  }

  // ----- Between two matches of an optimal walk nothing is equal -----

  /** A pair that fits between the pairs of a longest matching cannot have equal keys. */
  lemma NothingToAdd<K>(x: seq<K>, y: seq<K>, m: seq<(nat, nat)>, k: nat, i: nat, j: nat)
    requires Matching(x, y, m) && |m| == Lcs(x, y) && k <= |m| && i < |x| && j < |y|
    requires forall t :: 0 <= t < k ==> m[t].0 < i && m[t].1 < j
    requires forall t :: k <= t < |m| ==> i < m[t].0 && j < m[t].1
    ensures x[i] != y[j]
  {
    if x[i] == y[j] {
      var longer := seq(|m| + 1, t requires 0 <= t <= |m| => if t < k then m[t] else if t == k then (i, j) else m[t - 1]);
      WindowIsUpperBound(x, y, longer, 0, |x|, 0, |y|);
    }
  }

  ghost predicate Below(m: seq<(nat, nat)>, i: nat, j: nat) {
    forall t :: 0 <= t < |m| ==> m[t].0 < i && m[t].1 < j
  }

  ghost predicate NotBelow(m: seq<(nat, nat)>, i: nat, j: nat) {
    forall t :: 0 <= t < |m| ==> i <= m[t].0 && j <= m[t].1
  }

  lemma {:induction false} MatchedBelow(es: seq<Event>, i: nat, j: nat)
    requires Walk(es, i, j)
    ensures Below(Matched(es), i, j)
    decreases |es|
  {
    if es != [] {
      var before := es[..|es| - 1];
      match es[|es| - 1]
      case Match(ai, bi) => MatchedBelow(before, ai, bi);
      case DiscardA(ai, bi) => MatchedBelow(before, ai, bi);
      case DiscardB(ai, bi) => MatchedBelow(before, ai, bi);
      case Change(ai, bi) => MatchedBelow(before, ai, bi);
      case AFinished(_) => MatchedBelow(before, i, j);
      case BFinished(_) => MatchedBelow(before, i, j);
    }
  }

  /** What is matched after position k starts from where the walk was then. */
  lemma {:induction false} MatchedAfter(es: seq<Event>, k: nat, i0: nat, j0: nat, i: nat, j: nat)
    requires k <= |es| && Walk(es[..k], i0, j0) && Walk(es, i, j)
    ensures |Matched(es[..k])| <= |Matched(es)|
    ensures Matched(es)[..|Matched(es[..k])|] == Matched(es[..k])
    ensures NotBelow(Matched(es)[|Matched(es[..k])|..], i0, j0)
    decreases |es|
  {
    if k == |es| {
      assert es[..k] == es;
    } else {
      var before := es[..|es| - 1];
      assert before[..k] == es[..k];
      match es[|es| - 1]
      case Match(ai, bi) => MatchedAfter(before, k, i0, j0, ai, bi); WalkMonotone(before, k, i0, j0, ai, bi);
      case DiscardA(ai, bi) => MatchedAfter(before, k, i0, j0, ai, bi);
      case DiscardB(ai, bi) => MatchedAfter(before, k, i0, j0, ai, bi);
      case Change(ai, bi) => MatchedAfter(before, k, i0, j0, ai, bi);
      case AFinished(_) => MatchedAfter(before, k, i0, j0, i, j);
      case BFinished(_) => MatchedAfter(before, k, i0, j0, i, j);
    }
  }

  /**
    If no match happens between positions lo and hi of an optimal walk, no element of a passed there
    has the key of an element of b passed there.
   */
  lemma RunIsDifferent<K>(x: seq<K>, y: seq<K>, es: seq<Event>, lo: nat, hi: nat,
                          i0: nat, j0: nat, i1: nat, j1: nat, i: nat, j: nat)
    requires lo <= hi <= |es| && Walk(es, |x|, |y|)
    requires Matching(x, y, Matched(es)) && |Matched(es)| == Lcs(x, y)
    requires Walk(es[..lo], i0, j0) && Walk(es[..hi], i1, j1)
    requires Matched(es[..lo]) == Matched(es[..hi])
    requires i0 <= i < i1 && j0 <= j < j1
    ensures i < |x| && j < |y| && x[i] != y[j]
  {
    WalkMonotone(es, hi, i1, j1, |x|, |y|);
    MatchedBelow(es[..lo], i0, j0);
    MatchedAfter(es, lo, i0, j0, |x|, |y|);
    MatchedAfter(es, hi, i1, j1, |x|, |y|);
    var k := |Matched(es[..lo])|;
    assert Matched(es)[..k] == Matched(es[..lo]);
    forall t | k <= t < |Matched(es)|
      ensures i < Matched(es)[t].0 && j < Matched(es)[t].1
    {
      assert Matched(es)[t] == Matched(es)[k..][t - k];
    }
    forall t | 0 <= t < k
      ensures Matched(es)[t].0 < i && Matched(es)[t].1 < j
    {
      assert Matched(es)[t] == Matched(es)[..k][t];
    }
    NothingToAdd(x, y, Matched(es), k, i, j);
  }
}
