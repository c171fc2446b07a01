/**
  build_diff: the text that decides whether a test's output is the expected one.
 */
module BuildDiff {
  import opened Wrappers
  import opened Numbers
  import opened LcsSpec
  import opened HunkObject
  import opened Tokenizer

  /** One piece of text appended to the result: an unchanged line, dots, or a '-' or '+' line. */
  datatype Line<T> = Context(item: T) | Dots | Minus(item: T) | Plus(item: T)

  function Text(l: Line<string>): (r: string)
    ensures r != ""
  {
    match l
    case Context(t) => "  " + t + "\n"
    case Dots => "...\n"
    case Minus(t) => "- " + t + "\n"
    case Plus(t) => "+ " + t + "\n"
  }

  /** The string the caller measures: undef counts as empty. */
  function Output(lines: Option<seq<Line<string>>>): string {
    match lines
    case None => ""
    case Some(ls) => Concatenated(ls)
  }

  function Concatenated(lines: seq<Line<string>>): (r: string)
    ensures r == "" <==> lines == []
  {
    if lines == [] then "" else Concatenated(lines[..|lines| - 1]) + Text(lines[|lines| - 1])
  }

  function Minuses<T>(items: seq<T>): seq<Line<T>> {
    seq(|items|, t requires 0 <= t < |items| => Minus(items[t]))
  }

  function Pluses<T>(items: seq<T>): seq<Line<T>> {
    seq(|items|, t requires 0 <= t < |items| => Plus(items[t]))
  }

  /** At most two lines from the beginning, respectively from the end. */
  function FirstLines<T>(items: seq<T>): seq<Line<T>> {
    seq(Min(2, |items|), t requires 0 <= t < Min(2, |items|) => Context(items[t]))
  }

  function LastLines<T>(items: seq<T>): seq<Line<T>> {
    var n := Min(2, |items|);
    seq(n, t requires 0 <= t < n => Context(items[|items| - n + t]))
  }

  /** An unchanged hunk shows two lines at each end that borders on a change. */
  function SameLines<T>(items: seq<T>, first: bool, last: bool): seq<Line<T>> {
    (if first then [] else FirstLines(items))
    + (if |items| > 2 then [Dots] else [])
    + (if last then [] else LastLines(items))
  }

  /** One hunk as the object shows it: its items in both lists, and whether they are unchanged. */
  datatype Shown<T> = Shown(left: seq<T>, right: seq<T>, same: bool)

  /** The lines for one hunk. */
  function HunkLines<T>(h: Shown<T>, first: bool, last: bool): seq<Line<T>> {
    if h.same then SameLines(h.left, first, last) else Minuses(h.left) + Pluses(h.right)
  }

  /** The lines for the first p of the hunks. */
  ghost function LinesUpTo<T>(hs: seq<Shown<T>>, p: nat): seq<Line<T>>
    requires p <= |hs|
  {
    if p == 0 then [] else LinesUpTo(hs, p - 1) + HunkLines(hs[p - 1], p == 1, p == |hs|)
  }

  /** The whole result: undef without hunks, "" for a single unchanged hunk, all lines otherwise. */
  ghost function Expected<T>(hs: seq<Shown<T>>): Option<seq<Line<T>>> {
    if hs == [] then None
    else if |hs| == 1 && hs[0].same then Some([])
    else Some(LinesUpTo(hs, |hs|))
  }

  /** The hunk at position p. */
  ghost function ShownAt<T>(a: seq<T>, b: seq<T>, cuts: seq<nat>, same: nat, p: nat): Shown<T>
    requires 1 <= p && 2 * p + 1 < |cuts|
    requires cuts[2 * p - 2] <= cuts[2 * p] <= |a| && cuts[2 * p - 1] <= cuts[2 * p + 1] <= |b|
  {
    Shown(a[cuts[2 * p - 2]..cuts[2 * p]], b[cuts[2 * p - 1]..cuts[2 * p + 1]], p % 2 == same)
  }

  /** hs lists the hunks that the cuts delimit. */
  ghost predicate Lists<T>(hs: seq<Shown<T>>, a: seq<T>, b: seq<T>, cuts: seq<nat>, same: nat, end: nat) {
    && HunkList(a, b, cuts, end, same) && |hs| == end - 1
    && forall p :: 1 <= p < end ==> IsShown(hs, a, b, cuts, same, p)
  }

  ghost predicate IsShown<T>(hs: seq<Shown<T>>, a: seq<T>, b: seq<T>, cuts: seq<nat>, same: nat, p: nat)
    requires 1 <= p <= |hs| && 2 * p + 1 < |cuts|
  {
    && cuts[2 * p - 2] <= cuts[2 * p] <= |a| && cuts[2 * p - 1] <= cuts[2 * p + 1] <= |b|
    && hs[p - 1] == ShownAt(a, b, cuts, same, p)
  }

  lemma ListExists<T>(a: seq<T>, b: seq<T>, cuts: seq<nat>, same: nat, end: nat) returns (hs: seq<Shown<T>>)
    requires HunkList(a, b, cuts, end, same)
    ensures Lists(hs, a, b, cuts, same, end)
  {
    HunksDelimit(a, b, cuts, end, same);
    hs := seq(end - 1, k requires 0 <= k < end - 1 => ShownAt(a, b, cuts, same, k + 1));
    forall p | 1 <= p < end
      ensures IsShown(hs, a, b, cuts, same, p)
    {
      assert hs[p - 1] == ShownAt(a, b, cuts, same, p);
    }
  }

  // ----- When there is nothing to show -----

  lemma {:induction false} LcsOfEqual<K>(x: seq<K>, n: nat)
    requires n <= |x|
    ensures Window(x, x, 0, n, 0, n) == n
  {
    if n > 0 {
      LcsOfEqual(x, n - 1);
    }
  }

  /** Unchanged items are at most all items, and fewer on one side once there is a changed hunk. */
  lemma {:induction false} SameLengthBound<K>(x: seq<K>, y: seq<K>, cuts: seq<nat>, end: nat, same: nat, p: nat, changed: nat)
    requires HunkList(x, y, cuts, end, same) && p < end
    ensures SameLength(cuts, same, p) <= cuts[2 * p] && SameLength(cuts, same, p) <= cuts[2 * p + 1]
    ensures 1 <= changed <= p && changed % 2 != same ==>
      SameLength(cuts, same, p) < cuts[2 * p] || SameLength(cuts, same, p) < cuts[2 * p + 1]
  {
    if p > 0 {
      SameLengthBound(x, y, cuts, end, same, p - 1, changed);
      assert HunkPosition(x, y, cuts, p, same);
      if p % 2 == same {
        assert |x[cuts[2 * p - 2]..cuts[2 * p]]| == |y[cuts[2 * p - 1]..cuts[2 * p + 1]]|;
      }
    }
  }

  /** Equal sequences have no changed hunk, hence at most one hunk. */
  lemma EqualHasNoChange<T>(a: seq<T>, cuts: seq<nat>, end: nat, same: nat)
    requires HunkList(a, a, cuts, end, same)
    ensures end <= 2 && (end == 2 ==> same == 1)
  {
    LcsOfEqual(a, |a|);
    if end > 1 && 1 % 2 != same {
      SameLengthBound(a, a, cuts, end, same, end - 1, 1);
    } else if end > 2 {
      SameLengthBound(a, a, cuts, end, same, end - 1, 2);
    }
  }

  /** Every hunk shows something, and parities alternate. */
  ghost predicate Proper<T>(hs: seq<Shown<T>>) {
    && (forall k :: 0 <= k < |hs| ==> if hs[k].same then hs[k].left != [] else |hs[k].left| + |hs[k].right| > 0)
    && (|hs| > 1 ==> hs[0].same != hs[1].same)
  }

  lemma ListedIsProper<T>(hs: seq<Shown<T>>, a: seq<T>, b: seq<T>, cuts: seq<nat>, same: nat, end: nat)
    requires Lists(hs, a, b, cuts, same, end)
    ensures Proper(hs)
  {
    forall k | 0 <= k < |hs|
      ensures if hs[k].same then hs[k].left != [] else |hs[k].left| + |hs[k].right| > 0
    {
      assert IsShown(hs, a, b, cuts, same, k + 1);
      assert HunkPosition(a, b, cuts, k + 1, same);
    }
    if |hs| > 1 {
      assert IsShown(hs, a, b, cuts, same, 1) && IsShown(hs, a, b, cuts, same, 2);
    }
  }

  /** A changed hunk shows at least one line. */
  lemma {:induction false} ChangeShows<T>(hs: seq<Shown<T>>, p: nat, changed: nat)
    requires changed < p <= |hs| && !hs[changed].same && |hs[changed].left| + |hs[changed].right| > 0
    ensures LinesUpTo(hs, p) != []
  {
    if p - 1 != changed {
      ChangeShows(hs, p - 1, changed);
    }
  }

  /** Two different lists have a changed hunk. */
  lemma SingleSameIsEqual<T>(hs: seq<Shown<T>>, a: seq<T>, b: seq<T>, cuts: seq<nat>, same: nat)
    requires Lists(hs, a, b, cuts, same, 2) && hs[0].same
    ensures a == b && a != []
  {
    assert IsShown(hs, a, b, cuts, same, 1) && HunkPosition(a, b, cuts, 1, same);
    assert a[0..|a|] == a && b[0..|b|] == b;
  }

  /** Nothing is shown exactly when the two lists are equal. */
  lemma NothingShown<T>(hs: seq<Shown<T>>, a: seq<T>, b: seq<T>, cuts: seq<nat>, same: nat, end: nat)
    requires Lists(hs, a, b, cuts, same, end)
    ensures Expected(hs).None? <==> a == [] && b == []
    ensures Expected(hs).None? || Expected(hs).value == [] <==> a == b
  {
    ListedIsProper(hs, a, b, cuts, same, end);
    if a == b {
      EqualHasNoChange(a, cuts, end, same);
    }
    if |hs| > 0 {
      assert IsShown(hs, a, b, cuts, same, 1);
    }
    if |hs| == 1 && hs[0].same {
      SingleSameIsEqual(hs, a, b, cuts, same);
    } else if |hs| > 0 {
      ChangeShows(hs, |hs|, if hs[0].same then 1 else 0);
    }
  }

  /** The result has zero length exactly when the two line lists are equal; undef is for two empty lists. */
  lemma OracleSound(hs: seq<Shown<string>>, a: seq<string>, b: seq<string>, cuts: seq<nat>, same: nat, end: nat)
    requires Lists(hs, a, b, cuts, same, end)
    ensures Output(Expected(hs)) == "" <==> a == b
    ensures Expected(hs).None? <==> a == [] && b == []
  {
    NothingShown(hs, a, b, cuts, same, end);
  }

  // ----- What the lines tell -----

  /** The items of the '-' lines, of the '+' lines, and of the unchanged lines. */
  function MinusItems<T>(lines: seq<Line<T>>): seq<T> {
    if lines == [] then []
    else MinusItems(lines[..|lines| - 1]) + match lines[|lines| - 1] case Minus(t) => [t] case _ => []
  }

  function PlusItems<T>(lines: seq<Line<T>>): seq<T> {
    if lines == [] then []
    else PlusItems(lines[..|lines| - 1]) + match lines[|lines| - 1] case Plus(t) => [t] case _ => []
  }

  function ContextItems<T>(lines: seq<Line<T>>): seq<T> {
    if lines == [] then []
    else ContextItems(lines[..|lines| - 1]) + match lines[|lines| - 1] case Context(t) => [t] case _ => []
  }

  lemma {:induction false} ItemsAppend<T>(a: seq<Line<T>>, b: seq<Line<T>>)
    ensures MinusItems(a + b) == MinusItems(a) + MinusItems(b)
    ensures PlusItems(a + b) == PlusItems(a) + PlusItems(b)
    ensures ContextItems(a + b) == ContextItems(a) + ContextItems(b)
    decreases |b|
  {
    if b == [] {
      assert a + b == a;
    } else {
      assert (a + b)[..|a + b| - 1] == a + b[..|b| - 1];
      ItemsAppend(a, b[..|b| - 1]);
    }
  }

  /** What a list of lines of one kind tells. */
  lemma {:induction false} OneKind<T>(lines: seq<Line<T>>, items: seq<T>)
    requires |lines| == |items|
    requires (forall t :: 0 <= t < |items| ==> lines[t] == Minus(items[t]))
             || (forall t :: 0 <= t < |items| ==> lines[t] == Plus(items[t]))
             || (forall t :: 0 <= t < |items| ==> lines[t] == Context(items[t]))
    ensures lines == [] || lines[0].Minus? ==> MinusItems(lines) == items && PlusItems(lines) == [] && ContextItems(lines) == []
    ensures lines == [] || lines[0].Plus? ==> MinusItems(lines) == [] && PlusItems(lines) == items && ContextItems(lines) == []
    ensures lines == [] || lines[0].Context? ==> MinusItems(lines) == [] && PlusItems(lines) == [] && ContextItems(lines) == items
  {
    if lines != [] {
      OneKind(lines[..|lines| - 1], items[..|items| - 1]);
    }
  }

  /** The items of an unchanged hunk that are next to a change, at most two at each end. */
  function Bordering<T>(items: seq<T>, first: bool, last: bool): seq<T> {
    (if first then [] else items[..Min(2, |items|)]) + (if last then [] else items[|items| - Min(2, |items|)..])
  }

  lemma EndsTell<T>(items: seq<T>)
    ensures var n := Min(2, |items|);
            && MinusItems(FirstLines(items)) == [] && PlusItems(FirstLines(items)) == []
            && ContextItems(FirstLines(items)) == items[..n]
            && MinusItems(LastLines(items)) == [] && PlusItems(LastLines(items)) == []
            && ContextItems(LastLines(items)) == items[|items| - n..]
  {
    hide MinusItems, PlusItems, ContextItems;
    var n := Min(2, |items|);
    NothingTold<T>();
    OneKind(FirstLines(items), items[..n]);
    OneKind(LastLines(items), items[|items| - n..]);
  }

  lemma SameTells<T>(items: seq<T>, first: bool, last: bool)
    ensures var lines := SameLines(items, first, last);
            MinusItems(lines) == [] && PlusItems(lines) == [] && ContextItems(lines) == Bordering(items, first, last)
  {
    hide MinusItems, PlusItems, ContextItems, FirstLines, LastLines;
    EndsTell(items);
    NothingTold<T>();
    var head := if first then [] else FirstLines(items);
    var middle := if |items| > 2 then [Dots] else [];
    var tail := if last then [] else LastLines(items);
    DotsTell(middle);
    ItemsAppend(head, middle);
    ItemsAppend(head + middle, tail);
  }

  lemma DotsTell<T>(lines: seq<Line<T>>)
    requires lines == [] || lines == [Dots]
    ensures MinusItems(lines) == [] && PlusItems(lines) == [] && ContextItems(lines) == []
  {
    if lines != [] {
      assert lines[..0] == [];
    }
  }

  lemma HunkTells<T>(h: Shown<T>, first: bool, last: bool)
    ensures var lines := HunkLines(h, first, last);
            && MinusItems(lines) == (if h.same then [] else h.left)
            && PlusItems(lines) == (if h.same then [] else h.right)
            && ContextItems(lines) == (if h.same then Bordering(h.left, first, last) else [])
  {
    if h.same {
      SameTells(h.left, first, last);
    } else {
      OneKind(Minuses(h.left), h.left);
      OneKind(Pluses(h.right), h.right);
      ItemsAppend(Minuses(h.left), Pluses(h.right));
    }
  }

  // ----- The lines and the two lists -----

  /** The cuts delimit parts of a list up to position p; `side` is 0 for the first list and 1 for the second. */
  ghost predicate Delimits<T>(s: seq<T>, cuts: seq<nat>, side: nat, p: nat) {
    && side < 2 && 2 * p + 1 < |cuts| && cuts[side] == 0
    && forall q :: 1 <= q <= p ==> cuts[2 * q - 2 + side] <= cuts[2 * q + side] <= |s|
  }

  ghost function PartAt<T>(s: seq<T>, cuts: seq<nat>, side: nat, p: nat): seq<T>
    requires p > 0 && Delimits(s, cuts, side, p)
  {
    s[cuts[2 * p - 2 + side]..cuts[2 * p + side]]
  }

  /** The elements inside the unchanged hunks up to position p, and those outside. */
  ghost function Inside<T>(s: seq<T>, cuts: seq<nat>, side: nat, same: nat, p: nat): seq<T>
    requires Delimits(s, cuts, side, p)
  {
    if p == 0 then []
    else Inside(s, cuts, side, same, p - 1) + if p % 2 == same then PartAt(s, cuts, side, p) else []
  }

  ghost function Outside<T>(s: seq<T>, cuts: seq<nat>, side: nat, same: nat, p: nat): seq<T>
    requires Delimits(s, cuts, side, p)
  {
    if p == 0 then []
    else Outside(s, cuts, side, same, p - 1) + if p % 2 == same then [] else PartAt(s, cuts, side, p)
  }

  /** The elements of unchanged hunks that are next to a change. */
  ghost function AllBordering<T>(s: seq<T>, cuts: seq<nat>, same: nat, p: nat, end: nat): seq<T>
    requires Delimits(s, cuts, 0, p)
  {
    if p == 0 then []
    else AllBordering(s, cuts, same, p - 1, end)
         + if p % 2 == same then Bordering(PartAt(s, cuts, 0, p), p == 1, p == end - 1) else []
  }

  lemma ListsDelimit<T>(hs: seq<Shown<T>>, a: seq<T>, b: seq<T>, cuts: seq<nat>, same: nat, end: nat, p: nat)
    requires Lists(hs, a, b, cuts, same, end) && p < end
    ensures Delimits(a, cuts, 0, p) && Delimits(b, cuts, 1, p) && |hs| == end - 1 && 2 * p + 1 < |cuts|
  {
    HunksDelimit(a, b, cuts, end, same);
  }

  lemma PartsShown<T>(hs: seq<Shown<T>>, a: seq<T>, b: seq<T>, cuts: seq<nat>, same: nat, end: nat, p: nat)
    requires Lists(hs, a, b, cuts, same, end) && 0 < p < end
    requires Delimits(a, cuts, 0, p) && Delimits(b, cuts, 1, p)
    ensures |hs| == end - 1 && hs[p - 1] == Shown(PartAt(a, cuts, 0, p), PartAt(b, cuts, 1, p), p % 2 == same)
  {
    hide HunkList;
    assert IsShown(hs, a, b, cuts, same, p);
  }

  /** The '-' lines show what is outside in the first list, the '+' lines what is outside in the second. */
  lemma {:induction false} LinesTell<T>(hs: seq<Shown<T>>, a: seq<T>, b: seq<T>, cuts: seq<nat>, same: nat, end: nat, p: nat)
    requires Lists(hs, a, b, cuts, same, end) && p < end
    ensures Delimits(a, cuts, 0, p) && Delimits(b, cuts, 1, p)
    ensures MinusItems(LinesUpTo(hs, p)) == Outside(a, cuts, 0, same, p)
    ensures PlusItems(LinesUpTo(hs, p)) == Outside(b, cuts, 1, same, p)
    ensures ContextItems(LinesUpTo(hs, p)) == AllBordering(a, cuts, same, p, end)
  {
    hide Lists, Delimits, HunkLines, Bordering, PartAt, MinusItems, PlusItems, ContextItems;
    ListsDelimit(hs, a, b, cuts, same, end, p);
    if p == 0 {
      NothingTold<T>();
    } else {
      LinesTell(hs, a, b, cuts, same, end, p - 1);
      PartsShown(hs, a, b, cuts, same, end, p);
      HunkTells(hs[p - 1], p == 1, p == |hs|);
      ItemsAppend(LinesUpTo(hs, p - 1), HunkLines(hs[p - 1], p == 1, p == |hs|));
    }
  }

  // ----- Two lists of lines, merged -----

  /** s consists of the elements of u and those of v, both in their order. */
  ghost predicate IsMerge<T>(s: seq<T>, u: seq<T>, v: seq<T>)
    decreases |s|
  {
    if s == [] then u == [] && v == []
    else
      || (u != [] && u[|u| - 1] == s[|s| - 1] && IsMerge(s[..|s| - 1], u[..|u| - 1], v))
      || (v != [] && v[|v| - 1] == s[|s| - 1] && IsMerge(s[..|s| - 1], u, v[..|v| - 1]))
  }

  lemma {:induction false} MergeAppend<T>(s: seq<T>, u: seq<T>, v: seq<T>, t: seq<T>)
    requires IsMerge(s, u, v)
    ensures IsMerge(s + t, u + t, v) && IsMerge(s + t, u, v + t)
    decreases |t|
  {
    if t == [] {
      assert s + t == s && u + t == u && v + t == v;
    } else {
      var t' := t[..|t| - 1];
      MergeAppend(s, u, v, t');
      assert (s + t)[..|s + t| - 1] == s + t' && (u + t)[..|u + t| - 1] == u + t' && (v + t)[..|v + t| - 1] == v + t';
    }
  }

  lemma NothingMerged<T>()
    ensures IsMerge<T>([], [], [])
  {
  }

  /** Each list is merged from its unchanged and its changed elements. */
  lemma {:induction false} PartsMerge<T>(s: seq<T>, cuts: seq<nat>, side: nat, same: nat, p: nat)
    requires Delimits(s, cuts, side, p)
    ensures cuts[2 * p + side] <= |s|
    ensures IsMerge(s[..cuts[2 * p + side]], Inside(s, cuts, side, same, p), Outside(s, cuts, side, same, p))
  {
    hide IsMerge, PartAt, Delimits;
    PartExtends(s, cuts, side, p);
    if p == 0 {
      NothingMerged<T>();
    } else {
      PartsMerge(s, cuts, side, same, p - 1);
      var u, v := Inside(s, cuts, side, same, p - 1), Outside(s, cuts, side, same, p - 1);
      MergeAppend(s[..cuts[2 * p - 2 + side]], u, v, PartAt(s, cuts, side, p));
      NothingAppended(u);
      NothingAppended(v);
    }
  }

  lemma PartExtends<T>(s: seq<T>, cuts: seq<nat>, side: nat, p: nat)
    requires Delimits(s, cuts, side, p)
    ensures 2 * p + side < |cuts| && cuts[2 * p + side] <= |s|
    ensures p == 0 ==> cuts[2 * p + side] == 0
    ensures p > 0 ==>
              && Delimits(s, cuts, side, p - 1) && cuts[2 * p - 2 + side] <= |s|
              && s[..cuts[2 * p + side]] == s[..cuts[2 * p - 2 + side]] + PartAt(s, cuts, side, p)
  {
  }

  lemma NothingAppended<T>(s: seq<T>)
    ensures s + [] == s
  {
  }

  /** The unchanged elements are the same in both lists. */
  lemma {:induction false} InsideAgrees<T>(a: seq<T>, b: seq<T>, cuts: seq<nat>, same: nat, end: nat, p: nat)
    requires HunkList(a, b, cuts, end, same) && p < end
    requires Delimits(a, cuts, 0, p) && Delimits(b, cuts, 1, p)
    ensures Inside(a, cuts, 0, same, p) == Inside(b, cuts, 1, same, p)
    ensures |Inside(a, cuts, 0, same, p)| == SameLength(cuts, same, p)
  {
    hide HunkList, PartAt;
    if p > 0 {
      InsideAgrees(a, b, cuts, same, end, p - 1);
      if p % 2 == same {
        PartsAgree(a, b, cuts, same, end, p);
      }
    }
  }

  lemma PartsAgree<T>(a: seq<T>, b: seq<T>, cuts: seq<nat>, same: nat, end: nat, p: nat)
    requires HunkList(a, b, cuts, end, same) && 0 < p < end && p % 2 == same
    requires Delimits(a, cuts, 0, p) && Delimits(b, cuts, 1, p)
    ensures PartAt(a, cuts, 0, p) == PartAt(b, cuts, 1, p) && |PartAt(a, cuts, 0, p)| == cuts[2 * p] - cuts[2 * p - 2]
  {
    assert HunkPosition(a, b, cuts, p, same);
  }

  /** The lines of a result: none for undef. */
  function ShownLines<T>(res: Option<seq<Line<T>>>): seq<Line<T>> {
    match res case None => [] case Some(lines) => lines
  }

  /**
    What the text says of the two lists, without mention of hunks: the '-' lines are exactly the elements
    of the first that are not kept, the '+' lines those of the second, and what is kept is a longest
    common subsequence.
   */
  ghost predicate TellsDifference<T>(lines: seq<Line<T>>, a: seq<T>, b: seq<T>, kept: seq<T>) {
    && IsMerge(a, kept, MinusItems(lines)) && IsMerge(b, kept, PlusItems(lines)) && |kept| == Lcs(a, b)
  }

  lemma ResultTells<T>(hs: seq<Shown<T>>, a: seq<T>, b: seq<T>, cuts: seq<nat>, same: nat, end: nat) returns (kept: seq<T>)
    requires Lists(hs, a, b, cuts, same, end)
    ensures TellsDifference(ShownLines(Expected(hs)), a, b, kept)
    ensures Delimits(a, cuts, 0, end - 1) && Delimits(b, cuts, 1, end - 1)
    ensures MinusItems(ShownLines(Expected(hs))) == Outside(a, cuts, 0, same, end - 1)
    ensures PlusItems(ShownLines(Expected(hs))) == Outside(b, cuts, 1, same, end - 1)
    ensures !(|hs| == 1 && hs[0].same) ==>
              ContextItems(ShownLines(Expected(hs))) == AllBordering(a, cuts, same, end - 1, end)
  {
    hide Lists, HunkList, Delimits, Inside, Outside, AllBordering, IsMerge, LinesUpTo, MinusItems, PlusItems, ContextItems;
    AllCovered(hs, a, b, cuts, same, end);
    var p := end - 1;
    LinesTell(hs, a, b, cuts, same, end, p);
    PartsMerge(a, cuts, 0, same, p);
    PartsMerge(b, cuts, 1, same, p);
    InsideAgrees(a, b, cuts, same, end, p);
    kept := Inside(a, cuts, 0, same, p);
    NothingTold<T>();
    if |hs| == 1 && hs[0].same {
      PartsShown(hs, a, b, cuts, same, end, 1);
      NothingOutside(a, cuts, 0, same);
      NothingOutside(b, cuts, 1, same);
    }
  }

  lemma NothingTold<T>()
    ensures MinusItems<T>([]) == [] && PlusItems<T>([]) == [] && ContextItems<T>([]) == []
  {
  }

  /** The hunks cover both lists. */
  lemma AllCovered<T>(hs: seq<Shown<T>>, a: seq<T>, b: seq<T>, cuts: seq<nat>, same: nat, end: nat)
    requires Lists(hs, a, b, cuts, same, end)
    ensures end > 0 && |hs| == end - 1 && |cuts| == 2 * end && HunkList(a, b, cuts, end, same)
    ensures SameLength(cuts, same, end - 1) == Lcs(a, b)
    ensures a[..cuts[2 * end - 2]] == a && b[..cuts[2 * end - 1]] == b
    ensures hs == [] ==> LinesUpTo(hs, 0) == []
  {
  }

  lemma NothingOutside<T>(s: seq<T>, cuts: seq<nat>, side: nat, same: nat)
    requires Delimits(s, cuts, side, 1) && 1 % 2 == same
    ensures Outside(s, cuts, side, same, 1) == []
  {
    assert Outside(s, cuts, side, same, 0) == [];
  }

  /** Of a change the '-' lines come first: what follows a '+' line is not a '-' line. */
  ghost predicate MinusFirst<T>(lines: seq<Line<T>>) {
    forall k :: 0 < k < |lines| ==> !(lines[k - 1].Plus? && lines[k].Minus?)
  }

  lemma {:induction false} LinesInOrder<T>(hs: seq<Shown<T>>, p: nat)
    requires 0 < p <= |hs| && Alternates(hs) && |hs| > 1
    ensures MinusFirst(LinesUpTo(hs, p))
    ensures LinesUpTo(hs, p) != [] && (hs[p - 1].same ==> !LinesUpTo(hs, p)[|LinesUpTo(hs, p)| - 1].Plus?)
  {
    var before := LinesUpTo(hs, p - 1);
    HunkInOrder(hs[p - 1], p == 1, p == |hs|);
    if p > 1 {
      LinesInOrder(hs, p - 1);
    }
  }

  /** Changed and unchanged hunks alternate, and none is empty. */
  ghost predicate Alternates<T>(hs: seq<Shown<T>>) {
    && (forall k :: 0 <= k < |hs| ==> if hs[k].same then hs[k].left != [] else |hs[k].left| + |hs[k].right| > 0)
    && (forall k :: 0 < k < |hs| ==> hs[k - 1].same != hs[k].same)
  }

  lemma ListedAlternates<T>(hs: seq<Shown<T>>, a: seq<T>, b: seq<T>, cuts: seq<nat>, same: nat, end: nat)
    requires Lists(hs, a, b, cuts, same, end)
    ensures Alternates(hs)
  {
    ListedIsProper(hs, a, b, cuts, same, end);
    forall k | 0 < k < |hs|
      ensures hs[k - 1].same != hs[k].same
    {
      assert IsShown(hs, a, b, cuts, same, k) && IsShown(hs, a, b, cuts, same, k + 1);
    }
  }

  lemma ResultInOrder<T>(hs: seq<Shown<T>>, a: seq<T>, b: seq<T>, cuts: seq<nat>, same: nat, end: nat)
    requires Lists(hs, a, b, cuts, same, end)
    ensures MinusFirst(ShownLines(Expected(hs)))
  {
    ListedAlternates(hs, a, b, cuts, same, end);
    if |hs| == 1 {
      HunkInOrder(hs[0], true, true);
      assert LinesUpTo(hs, 0) == [] && LinesUpTo(hs, 1) == [] + HunkLines(hs[0], true, true);
    } else if |hs| > 1 {
      LinesInOrder(hs, |hs|);
    }
  }

  lemma HunkInOrder<T>(h: Shown<T>, first: bool, last: bool)
    requires if h.same then h.left != [] else |h.left| + |h.right| > 0
    ensures var lines := HunkLines(h, first, last);
            && MinusFirst(lines) && (!(first && last) ==> lines != [])
            && (h.same ==> forall k :: 0 <= k < |lines| ==> !lines[k].Plus? && !lines[k].Minus?)
  {
  }

  // ----- The text itself -----

  /** A line as it is printed, without its line break. */
  function Printed(l: Line<string>): string {
    Text(l)[..|Text(l)| - 1]
  }

  /** What a printed line says: its first two characters tell the kind, the others the item. */
  function ReadLine(s: string): Option<Line<string>> {
    if s == "..." then Some(Dots)
    else if |s| < 2 || s[1] != ' ' then None
    else if s[0] == '-' then Some(Minus(s[2..]))
    else if s[0] == '+' then Some(Plus(s[2..]))
    else if s[0] == ' ' then Some(Context(s[2..]))
    else None
  }

  lemma LineReadBack(l: Line<string>)
    ensures Text(l) == Printed(l) + ['\n'] && Printed(l) != "" && ReadLine(Printed(l)) == Some(l)
  {
    match l
    case Dots =>
    case Minus(t) => assert Printed(l) == "- " + t;
    case Plus(t) => assert Printed(l) == "+ " + t;
    case Context(t) => assert Printed(l) == "  " + t;
  }

  ghost predicate NoBreaks(lines: seq<Line<string>>) {
    forall k :: 0 <= k < |lines| ==> '\n' !in Printed(lines[k])
  }

  /** The text, split at its line breaks and read line by line, gives back all lines. */
  lemma {:induction false} TextReadBack(lines: seq<Line<string>>)
    requires NoBreaks(lines)
    ensures |Tokens(Concatenated(lines), '\n')| == |lines|
    ensures forall k :: 0 <= k < |lines| ==> ReadLine(Tokens(Concatenated(lines), '\n')[k]) == Some(lines[k])
  {
    hide Tokens, ReadLine, Printed, Text;
    if lines == [] {
      NoFields('\n');
    } else {
      var before, l := lines[..|lines| - 1], lines[|lines| - 1];
      TextReadBack(before);
      LineReadBack(l);
      assert forall k :: 0 <= k < |before| ==> before[k] == lines[k];
      EndsWithBreak(before);
      LastLine(Concatenated(before), Printed(l));
      assert Concatenated(lines) == Concatenated(before) + Printed(l) + ['\n'];
      forall k | 0 <= k < |lines|
        ensures ReadLine(Tokens(Concatenated(lines), '\n')[k]) == Some(lines[k])
      {
        if k < |before| {
          assert lines[k] == before[k];
        }
      }
    }
  }

  lemma EndsWithBreak(lines: seq<Line<string>>)
    ensures var text := Concatenated(lines); text == "" || text[|text| - 1] == '\n'
  {
  }

  lemma LastLine(text: string, line: string)
    requires (text == "" || text[|text| - 1] == '\n') && line != "" && '\n' !in line
    ensures Tokens(text + line + ['\n'], '\n') == Tokens(text, '\n') + [line]
  {
    TokensSplit(text + line, "", '\n');
    assert text + line + ['\n'] + "" == text + line + ['\n'];
    TokensOfField(line, '\n');
    if text == "" {
      assert text + line == line;
    } else {
      var start := text[..|text| - 1];
      TokensSplit(start, line, '\n');
      TokensSplit(start, "", '\n');
      assert text == start + ['\n'] && start + ['\n'] + "" == text && text + line == start + ['\n'] + line;
    }
  }

  // ----- build_diff -----

  lemma EndLines<T>(items: seq<T>)
    requires items != []
    ensures var n := |items|;
            && FirstLines(items) == [Context(items[0])] + (if n > 1 then [Context(items[1])] else [])
            && LastLines(items) == (if n > 1 then [Context(items[n - 2])] else []) + [Context(items[n - 1])]
  {
  }

  method ShowSame<T>(items: seq<T>, position: nat, chunkCount: nat) returns (lines: seq<Line<T>>)
    requires items != []
    ensures lines == SameLines(items, position <= 1, chunkCount <= position)
  {
    hide FirstLines, LastLines;
    lines := [];
    var n := |items|;
    EndLines(items);
    if position > 1 {
      lines := lines + [Context(items[0])];
      if n > 1 {
        lines := lines + [Context(items[1])];
      }
      assert lines == FirstLines(items);
    }
    ghost var head := lines;
    if n > 2 {
      lines := lines + [Dots];
    }
    ghost var middle := lines;
    if position < chunkCount {
      if n > 1 {
        lines := lines + [Context(items[n - 2])];
      }
      lines := lines + [Context(items[n - 1])];
      assert lines == middle + LastLines(items);
    }
  }

  /** Appends '- ' and '+ ' lines for a changed hunk. */
  method ShowChange<T>(left: seq<T>, right: seq<T>) returns (lines: seq<Line<T>>)
    ensures lines == Minuses(left) + Pluses(right)
  {
    lines := [];
    for t := 0 to |left|
      invariant lines == Minuses(left[..t])
    {
      lines := lines + [Minus(left[t])];
    }
    assert left[..|left|] == left;
    for t := 0 to |right|
      invariant lines == Minuses(left) + Pluses(right[..t])
    {
      lines := lines + [Plus(right[t])];
    }
    assert right[..|right|] == right;
  }

  /** Shows the hunk the object points at. */
  method ShowHunk<T>(diff: Hunks<T>, chunkCount: nat, ghost h: Shown<T>) returns (lines: seq<Line<T>>)
    requires diff.Valid() && diff.pos > 0 && chunkCount == diff.end - 1
    requires h == ShownAt(diff.seq1, diff.seq2, diff.idx, diff.same, diff.pos) && (h.same ==> h.left != [])
    ensures lines == HunkLines(h, diff.pos == 1, diff.pos == chunkCount)
  {
    var same := diff.Same().value;
    if |same| != 0 {
      lines := ShowSame(same, diff.pos, chunkCount);
    } else {
      lines := ShowChange(diff.Items(1).value, diff.Items(2).value);
    }
  }

  /** The loop of build_diff: position p is current, and everything before it has been shown. */
  ghost predicate Showing<T>(hs: seq<Shown<T>>, p: nat, text: seq<Line<T>>) {
    p <= |hs| && text == LinesUpTo(hs, if p == 0 then |hs| else p - 1)
  }

  lemma ShownNext<T>(hs: seq<Shown<T>>, p: nat, text: seq<Line<T>>)
    requires Showing(hs, p, text) && p > 0
    ensures Showing(hs, NextTo(p, 1, |hs| + 1), text + HunkLines(hs[p - 1], p == 1, p == |hs|))
  {
  }

  lemma NoLines<T>(hs: seq<Shown<T>>)
    ensures LinesUpTo(hs, 0) == []
  {
  }

  /** Shows one hunk after the other, starting from a reset object. */
  method ShowAll<T>(diff: Hunks<T>, chunkCount: nat, ghost hs: seq<Shown<T>>) returns (text: seq<Line<T>>)
    requires diff.Valid() && diff.pos == 0 && chunkCount == diff.end - 1
    requires Lists(hs, diff.seq1, diff.seq2, diff.idx, diff.same, diff.end)
    modifies diff
    ensures text == LinesUpTo(hs, |hs|)
  {
    hide LinesUpTo, HunkLines, HunkList;
    assert LinesUpTo(hs, 0) == [] by {
      NoLines(hs);
    }
    ghost var a, b, cuts, same, end := diff.seq1, diff.seq2, diff.idx, diff.same, diff.end;
    ListedIsProper(hs, a, b, cuts, same, end);
    var p := diff.Next(None);
    text := [];
    while p != 0
      invariant diff.seq1 == a && diff.seq2 == b && diff.idx == cuts && diff.same == same && diff.end == end
      invariant diff.Valid() && p == diff.pos
      invariant Showing(hs, p, text)
      decreases if p == 0 then 0 else end - p
    {
      assert IsShown(hs, a, b, cuts, same, p);
      ShownNext(hs, p, text);
      var lines := ShowHunk(diff, chunkCount, hs[p - 1]);
      text := text + lines;
      p := diff.Next(None);
    }
  }

  lemma DefaultKeys(s: seq<string>)
    ensures Keys(s, (t: string) => t) == s
  {
  }

  /**
    build_diff.  No call on the hunk object dies, the text is what the hunks `hs` call for, and it is
    empty exactly when the lists are equal.
   */
  method Build(expected: seq<string>, got: seq<string>)
    returns (res: Option<seq<Line<string>>>, ghost hs: seq<Shown<string>>, ghost cuts: seq<nat>, ghost same: nat,
             ghost end: nat, ghost kept: seq<string>)
    ensures Lists(hs, expected, got, cuts, same, end) && res == Expected(hs)
    ensures TellsDifference(ShownLines(res), expected, got, kept) && MinusFirst(ShownLines(res))
    ensures Delimits(expected, cuts, 0, end - 1) && Delimits(got, cuts, 1, end - 1)
    ensures MinusItems(ShownLines(res)) == Outside(expected, cuts, 0, same, end - 1)
    ensures PlusItems(ShownLines(res)) == Outside(got, cuts, 1, same, end - 1)
    ensures expected != got ==> ContextItems(ShownLines(res)) == AllBordering(expected, cuts, same, end - 1, end)
    ensures Output(res) == "" <==> expected == got
    ensures res.None? <==> expected == [] && got == []
  {
    DefaultKeys(expected);
    DefaultKeys(got);
    var diff := New(expected, got, (t: string) => t);
    cuts, same, end := diff.idx, diff.same, diff.end;
    hs := ListExists(expected, got, cuts, same, end);
    OracleSound(hs, expected, got, cuts, same, end);
    kept := ResultTells(hs, expected, got, cuts, same, end);
    ResultInOrder(hs, expected, got, cuts, same, end);
    if |hs| == 1 && hs[0].same {
      SingleSameIsEqual(hs, expected, got, cuts, same);
    }
    res := BuildFrom(diff, hs);
  }

  method BuildFrom<T>(diff: Hunks<T>, ghost hs: seq<Shown<T>>) returns (res: Option<seq<Line<T>>>)
    requires diff.Valid() && diff.pos == 0
    requires Lists(hs, diff.seq1, diff.seq2, diff.idx, diff.same, diff.end)
    modifies diff
    ensures res == Expected(hs)
  {
    ListedIsProper(hs, diff.seq1, diff.seq2, diff.idx, diff.same, diff.end);
    var oldBase := diff.SetBase(Some(1));
    var chunkCount := diff.Next(Some(-1));
    assert chunkCount == diff.end - 1 == |hs|;
    if chunkCount == 1 {
      assert IsShown(hs, diff.seq1, diff.seq2, diff.idx, diff.same, 1);
    }
    if chunkCount == 1 && |diff.Same().value| != 0 {
      return Some([]);
    }
    diff.Reset(0);
    var text := ShowAll(diff, chunkCount, hs);
    res := if chunkCount == 0 then None else Some(text);
  }
}
