/**
  diff: the callbacks that collect hunks, and what the collected hunks do.
 */
module DiffHunks {
  import opened Wrappers
  import opened Lists
  import opened LcsSpec
  import opened LcsChoice
  import opened Turns
  import opened Walks
  import opened Traversals
  import opened EditScripts

  type Hunk<T> = seq<Edit<T>>

  /** The two lists the callbacks write to: finished hunks, and the hunk being collected. */
  datatype Collected<T> = Collected(done: seq<Hunk<T>>, hunk: Hunk<T>)

  ghost predicate Indexed(es: seq<Event>, n: nat, m: nat) {
    forall k :: 0 <= k < |es| ==> EventIn(es[k], n, m)
  }

  predicate EventIn(e: Event, n: nat, m: nat) {
    match e
    case Match(i, j) => i < n && j < m
    case DiscardA(i, _) => i < n
    case DiscardB(_, j) => j < m
    case Change(i, j) => i < n && j < m
    case AFinished(_) => true
    case BFinished(_) => true
  }

  function Close<T>(c: Collected<T>): Collected<T> {
    Collected(if c.hunk != [] then c.done + [c.hunk] else c.done, [])
  }

  /** The edit an event stands for, if any. */
  function EditOf<T>(e: Event, a: seq<T>, b: seq<T>): Hunk<T>
    requires EventIn(e, |a|, |b|)
  {
    match e
    case DiscardA(i, _) => [Delete(i, a[i])]
    case DiscardB(_, j) => [Insert(j, b[j])]
    case _ => []
  }

  function OnEvent<T>(c: Collected<T>, e: Event, a: seq<T>, b: seq<T>): Collected<T>
    requires EventIn(e, |a|, |b|)
  {
    if e.Match? then Close(c) else c.(hunk := c.hunk + EditOf(e, a, b))
  }

  ghost function Collect<T>(es: seq<Event>, a: seq<T>, b: seq<T>): Collected<T>
    requires Indexed(es, |a|, |b|)
  {
    if es == [] then Collected([], [])
    else OnEvent(Collect(es[..|es| - 1], a, b), es[|es| - 1], a, b)
  }

  /** All edits of a walk, in order, hunk boundaries forgotten. */
  ghost function EditsOf<T>(es: seq<Event>, a: seq<T>, b: seq<T>): seq<Edit<T>>
    requires Indexed(es, |a|, |b|)
  {
    if es == [] then [] else EditsOf(es[..|es| - 1], a, b) + EditOf(es[|es| - 1], a, b)
  }

  ghost function EditsIn<T>(hunks: seq<Hunk<T>>): seq<Edit<T>> {
    Flatten(hunks, |hunks|)
  }

  /** The object the callbacks of diff share. */
  class HunkCollector<T> {
    const a: seq<T>
    const b: seq<T>
    var retval: seq<Hunk<T>>
    var hunk: Hunk<T>

    constructor (a: seq<T>, b: seq<T>)
      ensures this.a == a && this.b == b && State() == Collected([], [])
    {
      this.a, this.b, retval, hunk := a, b, [], [];
    }

    function State(): Collected<T>
      reads this
    {
      Collected(retval, hunk)
    }

    method Discard(i: nat, ghost j: nat)
      requires i < |a|
      modifies this
      ensures State() == OnEvent(old(State()), DiscardA(i, j), a, b)
    {
      hunk := hunk + [Delete(i, a[i])];
    }

    method Add(ghost i: nat, j: nat)
      requires j < |b|
      modifies this
      ensures State() == OnEvent(old(State()), DiscardB(i, j), a, b)
    {
      hunk := hunk + [Insert(j, b[j])];
    }

    method Matched()
      modifies this
      ensures State() == Close(old(State()))
    {
      if 0 < |hunk| {
        retval := retval + [hunk];
      }
      hunk := [];
    }
  }

  // ----- Applying the edits of a walk -----

  lemma {:induction false} WalkIndexed(es: seq<Event>, i: nat, j: nat, n: nat, m: nat)
    requires Walk(es, i, j) && i <= n && j <= m
    ensures Indexed(es, n, m)
    decreases |es|
  {
    if es != [] {
      var before := es[..|es| - 1];
      match es[|es| - 1] {
        case Match(ai, bi) => WalkIndexed(before, ai, bi, n, m);
        case DiscardA(ai, bi) => WalkIndexed(before, ai, bi, n, m);
        case DiscardB(ai, bi) => WalkIndexed(before, ai, bi, n, m);
        case Change(ai, bi) => WalkIndexed(before, ai, bi, n, m);
        case AFinished(_) => WalkIndexed(before, i, j, n, m);
        case BFinished(_) => WalkIndexed(before, i, j, n, m);
      }
      assert forall k :: 0 <= k < |before| ==> es[k] == before[k];
    }
  }

  /** Output so far plus what the next edit or the end would copy up to position i. */
  function Pending<T>(a: seq<T>, p: Progress<T>, i: nat): seq<T>
    requires p.taken <= i <= |a|
  {
    p.out + a[p.taken..i]
  }

  /** At positions (i, j) the script has, in effect, turned a[..i] into b[..j]. */
  ghost predicate InSync<T, K>(a: seq<T>, b: seq<T>, key: T -> K, p: Progress<T>, i: nat, j: nat) {
    && p.taken <= i <= |a| && j <= |b|
    && |Pending(a, p, i)| == j
    && forall t :: 0 <= t < j ==> key(Pending(a, p, i)[t]) == key(b[t])
  }

  lemma SyncMatch<T, K>(a: seq<T>, b: seq<T>, key: T -> K, p: Progress<T>, i: nat, j: nat)
    requires InSync(a, b, key, p, i, j) && i < |a| && j < |b| && key(a[i]) == key(b[j])
    ensures InSync(a, b, key, p, i + 1, j + 1)
  {
    assert Pending(a, p, i + 1) == Pending(a, p, i) + [a[i]];
  }

  lemma SyncDelete<T, K>(a: seq<T>, b: seq<T>, key: T -> K, p: Progress<T>, i: nat, j: nat)
    requires InSync(a, b, key, p, i, j) && i < |a|
    ensures var e := Delete(i, a[i]); Applied(a, p, e).Some? && InSync(a, b, key, Applied(a, p, e).value, i + 1, j)
  {
    assert Pending(a, Progress(i + 1, p.out + a[p.taken..i]), i + 1) == Pending(a, p, i);
  }

  lemma SyncInsert<T, K>(a: seq<T>, b: seq<T>, key: T -> K, p: Progress<T>, i: nat, j: nat)
    requires InSync(a, b, key, p, i, j) && j < |b|
    ensures var e := Insert(j, b[j]); Applied(a, p, e).Some? && InSync(a, b, key, Applied(a, p, e).value, i, j + 1)
  {
    assert Pending(a, Progress(i, p.out + a[p.taken..i] + [b[j]]), i) == Pending(a, p, i) + [b[j]];
  }

  lemma {:induction false} WalkPatches<T, K>(es: seq<Event>, a: seq<T>, b: seq<T>, key: T -> K, i: nat, j: nat)
    requires Walk(es, i, j) && i <= |a| && j <= |b| && Indexed(es, |a|, |b|)
    requires Occurrences(es, CHANGE) == 0 && Matching(Keys(a, key), Keys(b, key), Matched(es))
    ensures Patched(a, EditsOf(es, a, b)).Some?
    ensures InSync(a, b, key, Patched(a, EditsOf(es, a, b)).value, i, j)
    decreases |es|
  {
    if es != [] {
      var before := es[..|es| - 1];
      var e := es[|es| - 1];
      PrefixMatches(es, Keys(a, key), Keys(b, key));
      var edits := EditsOf(before, a, b);
      assert edits + [] == edits;
      match e {
        case Match(ai, bi) =>
          WalkPatches(before, a, b, key, ai, bi);
          SyncMatch(a, b, key, Patched(a, edits).value, ai, bi);
        case DiscardA(ai, bi) =>
          WalkPatches(before, a, b, key, ai, bi);
          SyncDelete(a, b, key, Patched(a, edits).value, ai, bi);
          LastApplied(a, edits, Delete(ai, a[ai]));
        case DiscardB(ai, bi) =>
          WalkPatches(before, a, b, key, ai, bi);
          SyncInsert(a, b, key, Patched(a, edits).value, ai, bi);
          LastApplied(a, edits, Insert(bi, b[bi]));
        case AFinished(_) => WalkPatches(before, a, b, key, i, j);
        case BFinished(_) => WalkPatches(before, a, b, key, i, j);
      }
    }
  }

  lemma LastApplied<T>(a: seq<T>, edits: seq<Edit<T>>, e: Edit<T>)
    requires Patched(a, edits).Some?
    ensures Patched(a, edits + [e]) == Applied(a, Patched(a, edits).value, e)
  {
    assert (edits + [e])[..|edits|] == edits;
  }

  /** The matches of a walk without its last event, and whether that event is an equal pair. */
  lemma PrefixMatches<K>(es: seq<Event>, x: seq<K>, y: seq<K>)
    requires es != [] && Matching(x, y, Matched(es))
    ensures Matching(x, y, Matched(es[..|es| - 1]))
    ensures es[|es| - 1].Match? ==>
      var e := es[|es| - 1]; e.ai < |x| && e.bi < |y| && x[e.ai] == y[e.bi]
  {
    var m := Matched(es[..|es| - 1]);
    if es[|es| - 1].Match? {
      var e := es[|es| - 1];
      assert Matched(es) == m + [(e.ai, e.bi)];
      MatchingSplits(x, y, m, (e.ai, e.bi));
    } else {
      assert Matched(es) == m;
    }
  }

  lemma MatchingSplits<K>(x: seq<K>, y: seq<K>, m: seq<(nat, nat)>, pair: (nat, nat))
    requires Matching(x, y, m + [pair])
    ensures Matching(x, y, m) && pair.0 < |x| && pair.1 < |y| && x[pair.0] == y[pair.1]
  {
    var all := m + [pair];
    assert all[|m|] == pair;
    assert forall t :: 0 <= t < |m| ==> all[t] == m[t];
  }

  /** Applying all edits of a complete walk turns a into a sequence with the keys of b. */
  lemma WalkTransforms<T, K>(es: seq<Event>, a: seq<T>, b: seq<T>, key: T -> K)
    requires Walk(es, |a|, |b|) && Indexed(es, |a|, |b|) && Occurrences(es, CHANGE) == 0
    requires Matching(Keys(a, key), Keys(b, key), Matched(es))
    ensures Patch(a, EditsOf(es, a, b)).Some?
    ensures Keys(Patch(a, EditsOf(es, a, b)).value, key) == Keys(b, key)
  {
    WalkPatches(es, a, b, key, |a|, |b|);
    var p := Patched(a, EditsOf(es, a, b)).value;
    assert Pending(a, p, |a|) == Patch(a, EditsOf(es, a, b)).value;
  }

  // ----- The same walk seen from b -----

  function Mirrored(e: Event): Event {
    match e
    case Match(i, j) => Match(j, i)
    case DiscardA(i, j) => DiscardB(j, i)
    case DiscardB(i, j) => DiscardA(j, i)
    case Change(i, j) => Change(j, i)
    case AFinished(l) => BFinished(l)
    case BFinished(l) => AFinished(l)
  }

  function Mirror(es: seq<Event>): (r: seq<Event>)
    ensures |r| == |es|
  {
    seq(|es|, k requires 0 <= k < |es| => Mirrored(es[k]))
  }

  function Swapped(m: seq<(nat, nat)>): (r: seq<(nat, nat)>)
    ensures |r| == |m|
  {
    seq(|m|, t requires 0 <= t < |m| => (m[t].1, m[t].0))
  }

  lemma {:induction false} MirrorWalks(es: seq<Event>, i: nat, j: nat)
    requires Walk(es, i, j)
    ensures Walk(Mirror(es), j, i) && Matched(Mirror(es)) == Swapped(Matched(es))
    ensures Occurrences(Mirror(es), CHANGE) == Occurrences(es, CHANGE)
    decreases |es|
  {
    if es != [] {
      var before := es[..|es| - 1];
      assert Mirror(es)[..|es| - 1] == Mirror(before);
      match es[|es| - 1]
      case Match(ai, bi) => MirrorWalks(before, ai, bi);
      case DiscardA(ai, bi) => MirrorWalks(before, ai, bi);
      case DiscardB(ai, bi) => MirrorWalks(before, ai, bi);
      case Change(ai, bi) => MirrorWalks(before, ai, bi);
      case AFinished(_) => MirrorWalks(before, i, j);
      case BFinished(_) => MirrorWalks(before, i, j);
    }
  }

  lemma {:induction false} MirrorEdits<T>(es: seq<Event>, a: seq<T>, b: seq<T>)
    requires Indexed(es, |a|, |b|)
    ensures Indexed(Mirror(es), |b|, |a|) && EditsOf(Mirror(es), b, a) == Inverse(EditsOf(es, a, b))
    decreases |es|
  {
    forall k | 0 <= k < |es|
      ensures EventIn(Mirror(es)[k], |b|, |a|)
    {
      assert EventIn(es[k], |a|, |b|);
    }
    if es != [] {
      var before := es[..|es| - 1];
      assert Mirror(es)[..|es| - 1] == Mirror(before);
      MirrorEdits(before, a, b);
    }
  }

  /** Applying the inverse edits turns b back into a sequence with the keys of a. */
  lemma WalkUndone<T, K>(es: seq<Event>, a: seq<T>, b: seq<T>, key: T -> K)
    requires Walk(es, |a|, |b|) && Indexed(es, |a|, |b|) && Occurrences(es, CHANGE) == 0
    requires Matching(Keys(a, key), Keys(b, key), Matched(es))
    ensures Patch(b, Inverse(EditsOf(es, a, b))).Some?
    ensures Keys(Patch(b, Inverse(EditsOf(es, a, b))).value, key) == Keys(a, key)
  {
    MirrorWalks(es, |a|, |b|);
    MirrorEdits(es, a, b);
    SwappedMatches(Keys(a, key), Keys(b, key), Matched(es));
    WalkTransforms(Mirror(es), b, a, key);
  }

  lemma SwappedMatches<K>(x: seq<K>, y: seq<K>, m: seq<(nat, nat)>)
    requires Matching(x, y, m)
    ensures Matching(y, x, Swapped(m))
  {
  }

  // ----- Hunks are runs between matches -----

  /** Every edit of h deletes an element of a[i0..i1] or inserts one of b[j0..j1]. */
  ghost predicate EditsWithin<T>(h: Hunk<T>, a: seq<T>, b: seq<T>, i0: nat, j0: nat, i1: nat, j1: nat) {
    forall t :: 0 <= t < |h| ==>
      match h[t]
      case Delete(p, item) => i0 <= p < i1 && p < |a| && item == a[p]
      case Insert(q, item) => j0 <= q < j1 && q < |b| && item == b[q]
  }

  /** h was collected between positions lo and hi of the walk, where nothing matched. */
  ghost predicate RunOf<T>(es: seq<Event>, a: seq<T>, b: seq<T>, h: Hunk<T>,
                           lo: nat, hi: nat, i0: nat, j0: nat, i1: nat, j1: nat)
  {
    && lo <= hi <= |es| && Walk(es[..lo], i0, j0) && Walk(es[..hi], i1, j1)
    && Matched(es[..lo]) == Matched(es[..hi])
    && EditsWithin(h, a, b, i0, j0, i1, j1)
  }

  ghost predicate IsRun<T>(es: seq<Event>, a: seq<T>, b: seq<T>, h: Hunk<T>) {
    exists lo: nat, hi: nat, i0: nat, j0: nat, i1: nat, j1: nat :: RunOf(es, a, b, h, lo, hi, i0, j0, i1, j1)
  }

  ghost predicate IsOpenRun<T>(es: seq<Event>, a: seq<T>, b: seq<T>, h: Hunk<T>, i: nat, j: nat) {
    exists lo: nat, i0: nat, j0: nat :: RunOf(es, a, b, h, lo, |es|, i0, j0, i, j)
  }

  lemma RunLasts<T>(es: seq<Event>, e: Event, a: seq<T>, b: seq<T>, h: Hunk<T>)
    requires IsRun(es, a, b, h)
    ensures IsRun(es + [e], a, b, h)
  {
    var lo: nat, hi: nat, i0: nat, j0: nat, i1: nat, j1: nat :| RunOf(es, a, b, h, lo, hi, i0, j0, i1, j1);
    assert (es + [e])[..lo] == es[..lo] && (es + [e])[..hi] == es[..hi];
    assert RunOf(es + [e], a, b, h, lo, hi, i0, j0, i1, j1);
  }

  /** Every finished hunk is non-empty and a run; the open hunk is a run up to the present. */
  ghost predicate HunksOf<T>(es: seq<Event>, a: seq<T>, b: seq<T>, c: Collected<T>, i: nat, j: nat) {
    match c
    case Collected(done, hunk) =>
      && (forall k :: 0 <= k < |done| ==> done[k] != [] && IsRun(es, a, b, done[k]))
      && IsOpenRun(es, a, b, hunk, i, j)
      && EditsIn(done) + hunk == EditsOf'(es, a, b)
  }

  ghost function EditsOf'<T>(es: seq<Event>, a: seq<T>, b: seq<T>): seq<Edit<T>> {
    if Indexed(es, |a|, |b|) then EditsOf(es, a, b) else []
  }

  lemma CloseHunks<T>(es: seq<Event>, a: seq<T>, b: seq<T>, c: Collected<T>, i: nat, j: nat)
    requires HunksOf(es, a, b, c, i, j)
    ensures forall k :: 0 <= k < |Close(c).done| ==> Close(c).done[k] != [] && IsRun(es, a, b, Close(c).done[k])
    ensures EditsIn(Close(c).done) == EditsOf'(es, a, b)
  {
    var lo: nat, i0: nat, j0: nat :| RunOf(es, a, b, c.hunk, lo, |es|, i0, j0, i, j);
    assert IsRun(es, a, b, c.hunk);
    if c.hunk != [] {
      FlattenAppend(c.done, c.hunk);
    } else {
      assert EditsIn(c.done) + [] == EditsIn(c.done);
    }
  }

  lemma HunkGrows<T>(es: seq<Event>, a: seq<T>, b: seq<T>, c: Collected<T>, i: nat, j: nat, e: Event, i': nat, j': nat)
    requires HunksOf(es, a, b, c, i, j) && Indexed(es + [e], |a|, |b|) && EventIn(e, |a|, |b|)
    requires Leads(e, i, j, i', j') && !e.Change? && Walk(es, i, j)
    ensures HunksOf(es + [e], a, b, OnEvent(c, e, a, b), i', j')
  {
    var es' := es + [e];
    forall k | 0 <= k < |c.done|
      ensures IsRun(es', a, b, c.done[k])
    {
      RunLasts(es, e, a, b, c.done[k]);
    }
    OpenRunGrows(es, a, b, c.hunk, i, j, e, i', j');
    EditsExtend(es, a, b, e);
    assert EditsIn(c.done) + (c.hunk + EditOf(e, a, b)) == EditsIn(c.done) + c.hunk + EditOf(e, a, b);
  }

  lemma OpenRunGrows<T>(es: seq<Event>, a: seq<T>, b: seq<T>, h: Hunk<T>, i: nat, j: nat, e: Event, i': nat, j': nat)
    requires IsOpenRun(es, a, b, h, i, j) && EventIn(e, |a|, |b|)
    requires Leads(e, i, j, i', j') && !e.Change? && Walk(es, i, j)
    ensures IsOpenRun(es + [e], a, b, h + EditOf(e, a, b), i', j')
  {
    var es', h' := es + [e], h + EditOf(e, a, b);
    var lo: nat, i0: nat, j0: nat :| RunOf(es, a, b, h, lo, |es|, i0, j0, i, j);
    Append(es, e);
    WalkMonotone(es, lo, i0, j0, i, j);
    assert es'[..lo] == es[..lo] && es'[..|es'|] == es' && es[..|es|] == es;
    WithinGrows(h, a, b, i0, j0, i, j, e, i', j');
    assert RunOf(es', a, b, h', lo, |es'|, i0, j0, i', j');
  }

  lemma WithinGrows<T>(h: Hunk<T>, a: seq<T>, b: seq<T>, i0: nat, j0: nat, i: nat, j: nat, e: Event, i': nat, j': nat)
    requires EditsWithin(h, a, b, i0, j0, i, j) && i0 <= i && j0 <= j
    requires EventIn(e, |a|, |b|) && Leads(e, i, j, i', j')
    ensures EditsWithin(h + EditOf(e, a, b), a, b, i0, j0, i', j')
  {
  }

  lemma EditsExtend<T>(es: seq<Event>, a: seq<T>, b: seq<T>, e: Event)
    requires Indexed(es + [e], |a|, |b|)
    ensures Indexed(es, |a|, |b|) && EventIn(e, |a|, |b|)
    ensures EditsOf(es + [e], a, b) == EditsOf(es, a, b) + EditOf(e, a, b)
  {
    assert (es + [e])[|es|] == e && (es + [e])[..|es|] == es;
    assert forall k :: 0 <= k < |es| ==> (es + [e])[k] == es[k];
  }

  lemma HunkCloses<T>(es: seq<Event>, a: seq<T>, b: seq<T>, c: Collected<T>, i: nat, j: nat)
    requires HunksOf(es, a, b, c, i, j) && Walk(es, i, j) && Indexed(es + [Match(i, j)], |a|, |b|)
    ensures HunksOf(es + [Match(i, j)], a, b, Close(c), i + 1, j + 1)
  {
    var es' := es + [Match(i, j)];
    var done := Close(c).done;
    CloseHunks(es, a, b, c, i, j);
    forall k | 0 <= k < |done|
      ensures IsRun(es', a, b, done[k])
    {
      RunLasts(es, Match(i, j), a, b, done[k]);
    }
    Append(es, Match(i, j));
    assert es'[..|es'|] == es';
    assert Walk(es', i + 1, j + 1);
    assert RunOf(es', a, b, [], |es'|, |es'|, i + 1, j + 1, i + 1, j + 1);
    EditsExtend(es, a, b, Match(i, j));
    assert EditsIn(done) + [] == EditsIn(done) && EditsOf(es, a, b) + [] == EditsOf(es, a, b);
  }

  lemma {:induction false} CollectHunks<T>(es: seq<Event>, a: seq<T>, b: seq<T>, i: nat, j: nat)
    requires Walk(es, i, j) && i <= |a| && j <= |b| && Indexed(es, |a|, |b|) && Occurrences(es, CHANGE) == 0
    ensures HunksOf(es, a, b, Collect(es, a, b), i, j)
    decreases |es|
  {
    if es == [] {
      var hunk: Hunk<T> := [];
      assert RunOf(es, a, b, hunk, 0, 0, 0, 0, 0, 0);
    } else {
      var before := es[..|es| - 1];
      var e := es[|es| - 1];
      assert es == before + [e];
      var c := Collect(before, a, b);
      var ai, bi := LastStep(es, i, j);
      CollectHunks(before, a, b, ai, bi);
      if e.Match? {
        HunkCloses(before, a, b, c, ai, bi);
      } else {
        HunkGrows(before, a, b, c, ai, bi, e, i, j);
      }
    }
  }

  /** No element deleted in the hunk has the key of an element inserted in it. */
  ghost predicate DifferentKeys<T, K>(h: Hunk<T>, key: T -> K) {
    forall s, t :: 0 <= s < |h| && 0 <= t < |h| && h[s].Delete? && h[t].Insert? ==> key(h[s].item) != key(h[t].item)
  }

  lemma RunsDiffer<T, K>(es: seq<Event>, a: seq<T>, b: seq<T>, key: T -> K, h: Hunk<T>)
    requires OptimalWalk(es, Keys(a, key), Keys(b, key)) && IsRun(es, a, b, h)
    ensures DifferentKeys(h, key)
  {
    var lo: nat, hi: nat, i0: nat, j0: nat, i1: nat, j1: nat :| RunOf(es, a, b, h, lo, hi, i0, j0, i1, j1);
    forall s, t | 0 <= s < |h| && 0 <= t < |h| && h[s].Delete? && h[t].Insert?
      ensures key(h[s].item) != key(h[t].item)
    {
      RunIsDifferent(Keys(a, key), Keys(b, key), es, lo, hi, i0, j0, i1, j1, h[s].pos, h[t].pos);
    }
  }

  // ----- Where hunks are cut -----

  /** The edit is before the pair, respectively behind it, in its own list. */
  predicate BeforePair<T>(e: Edit<T>, pair: (nat, nat)) {
    match e case Delete(p, _) => p < pair.0 case Insert(q, _) => q < pair.1
  }

  predicate BehindPair<T>(e: Edit<T>, pair: (nat, nat)) {
    match e case Delete(p, _) => pair.0 < p case Insert(q, _) => pair.1 < q
  }

  ghost predicate AllBefore<T>(h: Hunk<T>, pair: (nat, nat)) {
    forall t :: 0 <= t < |h| ==> BeforePair(h[t], pair)
  }

  ghost predicate AllBehind<T>(h: Hunk<T>, pair: (nat, nat)) {
    forall t :: 0 <= t < |h| ==> BehindPair(h[t], pair)
  }

  /** The pair does not lie inside the hunk. */
  ghost predicate Beside<T>(h: Hunk<T>, pair: (nat, nat)) {
    AllBefore(h, pair) || AllBehind(h, pair)
  }

  /** Some pair lies between the hunk at k and the one before it. */
  ghost predicate CutBefore<T>(hunks: seq<Hunk<T>>, k: nat, m: seq<(nat, nat)>)
    requires 0 < k < |hunks|
  {
    exists u :: 0 <= u < |m| && Between(hunks, k, m, u)
  }

  ghost predicate Between<T>(hunks: seq<Hunk<T>>, k: nat, m: seq<(nat, nat)>, u: nat)
    requires 0 < k < |hunks| && u < |m|
  {
    AllBefore(hunks[k - 1], m[u]) && AllBehind(hunks[k], m[u])
  }

  /** The hunks are cut at the pairs and nowhere else. */
  ghost predicate CutAt<T>(hunks: seq<Hunk<T>>, m: seq<(nat, nat)>) {
    && (forall k, u :: 0 <= k < |hunks| && 0 <= u < |m| ==> Beside(hunks[k], m[u]))
    && (forall k :: 0 < k < |hunks| ==> CutBefore(hunks, k, m))
  }

  /** While the walk is at (i, j): the open hunk is behind all matches, the last finished one before the last of them. */
  ghost predicate CutState<T>(c: Collected<T>, m: seq<(nat, nat)>, i: nat, j: nat) {
    && CutAt(c.done, m) && Below(m, i, j)
    && (forall k :: 0 <= k < |c.done| ==> AllBefore(c.done[k], (i, j))) && AllBefore(c.hunk, (i, j))
    && (forall u :: 0 <= u < |m| ==> AllBehind(c.hunk, m[u]))
    && (c.done != [] ==> m != [] && AllBefore(c.done[|c.done| - 1], m[|m| - 1]))
  }

  lemma CutGrows<T>(c: Collected<T>, m: seq<(nat, nat)>, i: nat, j: nat, e: Event, a: seq<T>, b: seq<T>, i': nat, j': nat)
    requires CutState(c, m, i, j) && Leads(e, i, j, i', j') && EventIn(e, |a|, |b|) && !e.Change?
    ensures CutState(c.(hunk := c.hunk + EditOf(e, a, b)), m, i', j')
  {
    var h := c.hunk + EditOf(e, a, b);
    forall u | 0 <= u < |m|
      ensures AllBehind(h, m[u])
    {
      assert AllBehind(c.hunk, m[u]);
    }
    forall k | 0 <= k < |c.done|
      ensures AllBefore(c.done[k], (i', j'))
    {
      assert AllBefore(c.done[k], (i, j));
    }
  }

  lemma CutEnds<T>(c: Collected<T>, m: seq<(nat, nat)>, i: nat, j: nat)
    requires CutState(c, m, i, j)
    ensures CutAt(Close(c).done, m)
  {
    hide AllBefore, AllBehind;
    var done := Close(c).done;
    forall k | 0 < k < |done|
      ensures CutBefore(done, k, m)
    {
      if k < |c.done| {
        assert CutBefore(c.done, k, m);
        var u :| 0 <= u < |m| && Between(c.done, k, m, u);
        assert Between(done, k, m, u);
      } else {
        assert Between(done, k, m, |m| - 1);
      }
    }
  }

  lemma CutCloses<T>(c: Collected<T>, m: seq<(nat, nat)>, i: nat, j: nat)
    requires CutState(c, m, i, j)
    ensures CutState(Close(c), m + [(i, j)], i + 1, j + 1)
  {
    var done, longer := Close(c).done, m + [(i, j)];
    CutEnds(c, m, i, j);
    forall k | 0 < k < |done|
      ensures CutBefore(done, k, longer)
    {
      assert CutBefore(done, k, m);
      var u :| 0 <= u < |m| && Between(done, k, m, u);
      assert Between(done, k, longer, u);
    }
  }

  /** The hunks of a walk are cut at its matches. */
  lemma {:induction false} CollectedCut<T>(es: seq<Event>, a: seq<T>, b: seq<T>, i: nat, j: nat)
    requires Walk(es, i, j) && i <= |a| && j <= |b| && Indexed(es, |a|, |b|) && Occurrences(es, CHANGE) == 0
    ensures CutState(Collect(es, a, b), Matched(es), i, j)
    decreases |es|
  {
    hide CutState;
    if es == [] {
      NothingCut<T>();
    } else {
      var before, e := es[..|es| - 1], es[|es| - 1];
      var ai, bi := LastStep(es, i, j);
      CollectedCut(before, a, b, ai, bi);
      if e.Match? {
        CutCloses(Collect(before, a, b), Matched(before), ai, bi);
      } else {
        CutGrows(Collect(before, a, b), Matched(before), ai, bi, e, a, b, i, j);
        assert Matched(es) == Matched(before);
      }
    }
  }

  lemma NothingCut<T>()
    ensures CutState(Collected<T>.Collected([], []), [], 0, 0)
  {
  }

  /** Some pair lies between any two hunks. */
  lemma {:induction false} PairBetween<T>(hunks: seq<Hunk<T>>, m: seq<(nat, nat)>, k: nat, l: nat) returns (u: nat)
    requires CutAt(hunks, m) && k < l < |hunks| && forall h :: h in hunks ==> h != []
    requires forall s, t :: 0 <= s < t < |m| ==> m[s].0 < m[t].0 && m[s].1 < m[t].1
    ensures u < |m| && AllBefore(hunks[k], m[u]) && AllBehind(hunks[l], m[u])
    decreases l
  {
    assert CutBefore(hunks, l, m);
    var w: nat :| w < |m| && Between(hunks, l, m, w);
    if l == k + 1 {
      u := w;
    } else {
      u := PairBetween(hunks, m, k, l - 1);
      assert hunks[l - 1] in hunks;
      var e := hunks[l - 1][0];
      assert BehindPair(e, m[u]) && BeforePair(e, m[w]);
      assert u < w;
    }
  }

  /**
    Two edits are in one hunk exactly when no match lies between them.
   */
  lemma SameHunkExactly<T>(hunks: seq<Hunk<T>>, m: seq<(nat, nat)>, k: nat, s: nat, l: nat, t: nat)
    requires CutAt(hunks, m) && (forall h :: h in hunks ==> h != [])
    requires forall s, t :: 0 <= s < t < |m| ==> m[s].0 < m[t].0 && m[s].1 < m[t].1
    requires k <= l < |hunks| && s < |hunks[k]| && t < |hunks[l]|
    ensures k == l <==>
            forall u :: 0 <= u < |m| ==> !(BeforePair(hunks[k][s], m[u]) && BehindPair(hunks[l][t], m[u]))
  {
    if k < l {
      var u := PairBetween(hunks, m, k, l);
      assert BeforePair(hunks[k][s], m[u]) && BehindPair(hunks[l][t], m[u]);
    } else {
      forall u | 0 <= u < |m|
        ensures !(BeforePair(hunks[k][s], m[u]) && BehindPair(hunks[l][t], m[u]))
      {
        assert Beside(hunks[k], m[u]);
      }
    }
  }

  // ----- diff -----

  lemma {:induction false} EditsCounted<T>(es: seq<Event>, a: seq<T>, b: seq<T>)
    requires Indexed(es, |a|, |b|)
    ensures |EditsOf(es, a, b)| == Occurrences(es, DISCARD_A) + Occurrences(es, DISCARD_B)
    decreases |es|
  {
    if es != [] {
      EditsCounted(es[..|es| - 1], a, b);
    }
  }

  /** Every edit of the hunk carries the element at its position. */
  ghost predicate Recorded<T>(h: Hunk<T>, a: seq<T>, b: seq<T>) {
    EditsWithin(h, a, b, 0, 0, |a|, |b|)
  }

  lemma RunsRecorded<T>(es: seq<Event>, a: seq<T>, b: seq<T>, h: Hunk<T>)
    requires IsRun(es, a, b, h)
    ensures Recorded(h, a, b)
  {
    var lo: nat, hi: nat, i0: nat, j0: nat, i1: nat, j1: nat :| RunOf(es, a, b, h, lo, hi, i0, j0, i1, j1);
  }

  /** What diff promises of its hunks. */
  ghost predicate DiffResult<T, K>(hunks: seq<Hunk<T>>, a: seq<T>, b: seq<T>, key: T -> K) {
    var edits := EditsIn(hunks);
    // The hunks turn a into b and b into a, as far as keys can tell ...
    && Patch(a, edits).Some? && Keys(Patch(a, edits).value, key) == Keys(b, key)
    && Patch(b, Inverse(edits)).Some? && Keys(Patch(b, Inverse(edits)).value, key) == Keys(a, key)
    // ... with as few edits as possible ...
    && |edits| == |a| + |b| - 2 * Lcs(Keys(a, key), Keys(b, key))
    // ... and no hunk is empty or replaces an element by an equal one.
    && (forall k :: 0 <= k < |hunks| ==> hunks[k] != [] && Recorded(hunks[k], a, b) && DifferentKeys(hunks[k], key))
  }

  lemma CollectedIsDiff<T, K>(es: seq<Event>, a: seq<T>, b: seq<T>, key: T -> K)
    requires OptimalWalk(es, Keys(a, key), Keys(b, key)) && Occurrences(es, CHANGE) == 0
    requires Indexed(es, |a|, |b|)
    ensures DiffResult(Close(Collect(es, a, b)).done, a, b, key)
  {
    var c := Collect(es, a, b);
    var hunks := Close(c).done;
    CollectHunks(es, a, b, |a|, |b|);
    CloseHunks(es, a, b, c, |a|, |b|);
    WalkTransforms(es, a, b, key);
    WalkUndone(es, a, b, key);
    EditsCounted(es, a, b);
    WalkCounts(es, |a|, |b|);
    forall k | 0 <= k < |hunks|
      ensures hunks[k] != [] && Recorded(hunks[k], a, b) && DifferentKeys(hunks[k], key)
    {
      RunsRecorded(es, a, b, hunks[k]);
      RunsDiffer(es, a, b, key, hunks[k]);
    }
  }

  /**
    diff.  The hunks are cut at the matches of the two lists and nowhere else; `es` is the traversal
    whose discards they are.
   */
  method Diff<T, K(==)>(a: seq<T>, b: seq<T>, key: T -> K) returns (hunks: seq<Hunk<T>>, ghost es: seq<Event>)
    ensures DiffResult(hunks, a, b, key)
    ensures CutAt(hunks, Picked(Keys(a, key), Keys(b, key), false))
    ensures OptimalWalk(es, Keys(a, key), Keys(b, key)) && Indexed(es, |a|, |b|)
    ensures Traversal(es, Picked(Keys(a, key), Keys(b, key), false), |a|, |b|, FirstA, InTurn)
    ensures hunks == Close(Collect(es, a, b)).done && EditsIn(hunks) == EditsOf(es, a, b)
  {
    hide Picked, Finishes, DiffResult, Ordered;
    var events := TraverseSequences(a, b, false, false, key);
    es := events;
    NoneCounted(es);
    WalkIndexed(es, |a|, |b|, |a|, |b|);
    CollectedIsDiff(es, a, b, key);
    CollectedCut(es, a, b, |a|, |b|);
    CutEnds(Collect(es, a, b), Matched(es), |a|, |b|);
    CollectHunks(es, a, b, |a|, |b|);
    CloseHunks(es, a, b, Collect(es, a, b), |a|, |b|);
    hunks := RunCallbacks(events, a, b);
  }

  /** Calls the callbacks of diff for each event, and the last one once more at the end. */
  method RunCallbacks<T>(events: seq<Event>, a: seq<T>, b: seq<T>) returns (hunks: seq<Hunk<T>>)
    requires Indexed(events, |a|, |b|)
    ensures hunks == Close(Collect(events, a, b)).done
  {
    var collector := new HunkCollector<T>(a, b);
    for k := 0 to |events|
      invariant collector.a == a && collector.b == b
      invariant Indexed(events[..k], |a|, |b|)
      invariant collector.State() == Collect(events[..k], a, b)
    {
      assert events[..k + 1][..k] == events[..k] && events[..k + 1][k] == events[k];
      assert EventIn(events[k], |a|, |b|);
      match events[k] {
        case Match(_, _) => collector.Matched();
        case DiscardA(i, j) => collector.Discard(i, j);
        case DiscardB(i, j) => collector.Add(i, j);
        case Change(_, _) =>
        case AFinished(_) =>
        case BFinished(_) =>
      }
    }
    assert events[..|events|] == events;
    collector.Matched();
    hunks := collector.retval;
  }

  /** With keys that tell elements apart, as the default key generator's do, the patch gives b itself. */
  lemma ExactPatch<T(!new), K>(hunks: seq<Hunk<T>>, a: seq<T>, b: seq<T>, key: T -> K)
    requires DiffResult(hunks, a, b, key)
    requires forall s, t :: key(s) == key(t) ==> s == t
    ensures Patch(a, EditsIn(hunks)) == Some(b) && Patch(b, Inverse(EditsIn(hunks))) == Some(a)
  {
    SameKeys(Patch(a, EditsIn(hunks)).value, b, key);
    SameKeys(Patch(b, Inverse(EditsIn(hunks))).value, a, key);
  }

  lemma SameKeys<T(!new), K>(c: seq<T>, d: seq<T>, key: T -> K)
    requires Keys(c, key) == Keys(d, key)
    requires forall s, t :: key(s) == key(t) ==> s == t
    ensures c == d
  {
    assert |Keys(c, key)| == |c|;
    forall t | 0 <= t < |c|
      ensures c[t] == d[t]
    {
      assert Keys(c, key)[t] == Keys(d, key)[t];
    }
  }
}
