/**
  Edit scripts: what it means to apply the output of diff, and the bound no script can beat.
 */
module EditScripts {
  import opened Wrappers
  import opened LcsSpec

  /** ['-', position in the first sequence, element] or ['+', position in the second sequence, element]. */
  datatype Edit<T> = Delete(pos: nat, item: T) | Insert(pos: nat, item: T)

  /** How far a script got: elements taken from the input, output so far. */
  datatype Progress<T> = Progress(taken: nat, out: seq<T>)

  /**
    Applies one edit.  A deletion copies everything before its position and skips one element; an
    insertion copies until the output has reached its position and adds one element.  An edit whose
    position does not fit is rejected.
   */
  function Applied<T>(a: seq<T>, p: Progress<T>, e: Edit<T>): Option<Progress<T>> {
    match e
    case Delete(pos, _) =>
      if p.taken <= pos < |a| then Some(Progress(pos + 1, p.out + a[p.taken..pos])) else None
    case Insert(pos, item) =>
      var next := p.taken + pos - |p.out|;
      if p.taken <= next <= |a| then Some(Progress(next, p.out + a[p.taken..next] + [item])) else None
  }

  /** Applies a script, edit by edit. */
  function Patched<T>(a: seq<T>, edits: seq<Edit<T>>): Option<Progress<T>> {
    if edits == [] then Some(Progress(0, []))
    else
      match Patched(a, edits[..|edits| - 1])
      case None => None
      case Some(p) => Applied(a, p, edits[|edits| - 1])
  }

  function Patch<T>(a: seq<T>, edits: seq<Edit<T>>): Option<seq<T>> {
    match Patched(a, edits)
    case Some(Progress(taken, out)) => if taken <= |a| then Some(out + a[taken..]) else None
    case None => None
  }

  /** The script that undoes an edit script. */
  function Inverse<T>(edits: seq<Edit<T>>): (r: seq<Edit<T>>)
    ensures |r| == |edits|
  {
    seq(|edits|, t requires 0 <= t < |edits| =>
      match edits[t] case Delete(p, item) => Insert(p, item) case Insert(q, item) => Delete(q, item))
  }

  // ----- No script is shorter than |a| + |b| - 2 * Lcs -----

  /** The copied elements of one stretch, as pairs. */
  function Stretch(taken: nat, written: nat, n: nat): seq<(nat, nat)> {
    seq(n, t requires 0 <= t < n => (taken + t, written + t))
  }

  lemma CopyStretch<T>(a: seq<T>, out: seq<T>, m: seq<(nat, nat)>, taken: nat, n: nat, rest: seq<T>)
    requires taken + n <= |a| && Matching(a, out, m) && Within(m, 0, taken, 0, |out|)
    ensures var out' := out + a[taken..taken + n] + rest;
            var m' := m + Stretch(taken, |out|, n);
            Matching(a, out', m') && Within(m', 0, taken + n, 0, |out| + n)
  {
    var out' := out + a[taken..taken + n] + rest;
    var m' := m + Stretch(taken, |out|, n);
    forall t | 0 <= t < |m'|
      ensures m'[t].0 < taken + n && m'[t].1 < |out| + n && a[m'[t].0] == out'[m'[t].1]
    {
      if t < |m| {
        assert m'[t] == m[t];
      } else {
        assert m'[t] == (taken + (t - |m|), |out| + (t - |m|));
      }
    }
    forall s, t | 0 <= s < t < |m'|
      ensures m'[s].0 < m'[t].0 && m'[s].1 < m'[t].1
    {
      if t < |m| {
        assert m'[s] == m[s] && m'[t] == m[t];
      } else if s < |m| {
        assert m'[s] == m[s] && m'[t] == (taken + (t - |m|), |out| + (t - |m|));
      }
    }
  }

  /** m pairs what n edits copied from a[..taken] to out; every other element was paid for. */
  ghost predicate Copied<T>(a: seq<T>, p: Progress<T>, m: seq<(nat, nat)>, n: nat) {
    match p
    case Progress(taken, out) =>
      && taken <= |a| && Matching(a, out, m) && Within(m, 0, taken, 0, |out|)
      && n == taken + |out| - 2 * |m|
  }

  lemma DeleteCopies<T>(a: seq<T>, taken: nat, out: seq<T>, m: seq<(nat, nat)>, n: nat, p: nat)
    requires Copied(a, Progress(taken, out), m, n) && taken <= p < |a|
    ensures Copied(a, Progress(p + 1, out + a[taken..p]), m + Stretch(taken, |out|, p - taken), n + 1)
  {
    CopyStretch(a, out, m, taken, p - taken, []);
    assert out + a[taken..p] + [] == out + a[taken..p];
  }

  lemma InsertCopies<T>(a: seq<T>, taken: nat, out: seq<T>, m: seq<(nat, nat)>, n: nat, next: nat, item: T)
    requires Copied(a, Progress(taken, out), m, n) && taken <= next <= |a|
    ensures Copied(a, Progress(next, out + a[taken..next] + [item]), m + Stretch(taken, |out|, next - taken), n + 1)
  {
    CopyStretch(a, out, m, taken, next - taken, [item]);
  }

  lemma EditCopies<T>(a: seq<T>, p: Progress<T>, e: Edit<T>, m: seq<(nat, nat)>, n: nat) returns (m': seq<(nat, nat)>)
    requires Copied(a, p, m, n) && Applied(a, p, e).Some?
    ensures Copied(a, Applied(a, p, e).value, m', n + 1)
  {
    hide Matching, Within, Stretch;
    match e
    case Delete(pos, _) =>
      DeleteCopies(a, p.taken, p.out, m, n, pos);
      m' := m + Stretch(p.taken, |p.out|, pos - p.taken);
    case Insert(pos, item) =>
      var next := p.taken + pos - |p.out|;
      InsertCopies(a, p.taken, p.out, m, n, next, item);
      m' := m + Stretch(p.taken, |p.out|, next - p.taken);
  }

  /** What a script copies is a matching between input and output, and the rest is what it costs. */
  lemma {:induction false} CopiesMatch<T>(a: seq<T>, edits: seq<Edit<T>>) returns (m: seq<(nat, nat)>)
    requires Patched(a, edits).Some?
    ensures Copied(a, Patched(a, edits).value, m, |edits|)
    decreases |edits|
  {
    if edits == [] {
      m := [];
    } else {
      m := CopiesMatch(a, edits[..|edits| - 1]);
      m := EditCopies(a, Patched(a, edits[..|edits| - 1]).value, edits[|edits| - 1], m, |edits| - 1);
    }
  }

  /** Every script that turns a into something with the keys of b has at least |a| + |b| - 2 * Lcs edits. */
  lemma NoShorterScript<T, K>(a: seq<T>, b: seq<T>, edits: seq<Edit<T>>, key: T -> K)
    requires Patch(a, edits).Some? && Keys(Patch(a, edits).value, key) == Keys(b, key)
    ensures |edits| >= |a| + |b| - 2 * Lcs(Keys(a, key), Keys(b, key))
  {
    var m := CopiesMatch(a, edits);
    var Progress(taken, out) := Patched(a, edits).value;
    CopyStretch(a, out, m, taken, |a| - taken, []);
    var m' := m + Stretch(taken, |out|, |a| - taken);
    var c := Patch(a, edits).value;
    assert a[taken..taken + (|a| - taken)] == a[taken..];
    assert out + a[taken..] + [] == c;
    assert Matching(Keys(a, key), Keys(c, key), m');
    assert |Keys(c, key)| == |c|;
    WindowIsUpperBound(Keys(a, key), Keys(b, key), m', 0, |a|, 0, |b|);
  }
}
