/**
  The functions that hand out the engine's result: LCS_length, LCS, LCSidx and prepare.
 */
module LcsApi {
  import opened Wrappers
  import opened LcsSpec
  import opened MatchVectors
  import opened LcsChoice
  import opened LcsEngine

  /** s is the key sequence a source stands for. */
  ghost predicate Denotes<T, K>(s: Source<T, K>, x: seq<K>, key: T -> K) {
    match s
    case Items(items) => x == Keys(items, key)
    case Prepared(positions) => PositionsOf(positions, x, 0, |x|)
  }

  /** The elements of a that a matching selects. */
  function Selected<T>(a: seq<T>, m: seq<(nat, nat)>): seq<T>
    requires forall t :: 0 <= t < |m| ==> m[t].0 < |a|
  {
    seq(|m|, t requires 0 <= t < |m| => a[m[t].0])
  }

  method Prepare<T, K(==)>(items: seq<T>, key: T -> K) returns (d: map<K, seq<nat>>)
    ensures Denotes(Prepared(d), Keys(items, key), key)
  {
    d := WithPositionsOfInInterval(items, 0, |items|, key);
  }

  lemma LcsSymmetric<K>(x: seq<K>, y: seq<K>)
    ensures Lcs(x, y) == Lcs(y, x)
  {
    WindowSymmetric(x, y, 0, |x|, 0, |y|);
  }

  /** Counting gives the same length for a list as for its prepared table, on either side. */
  method LcsLength<T, K(==)>(first: Source<T, K>, second: Source<T, K>, ghost x: seq<K>, ghost y: seq<K>, key: T -> K)
    returns (r: Result<nat>)
    requires Denotes(first, x, key) && Denotes(second, y, key)
    ensures r == if first.Prepared? && second.Prepared? then Died else Ok(Lcs(x, y))
  {
    var answer;
    match (first, second) {
      case (Items(a), _) =>
        answer := LongestCommonSubsequence(a, second, y, true, key);
      case (Prepared(_), Items(b)) =>
        LcsSymmetric(x, y);
        answer := LongestCommonSubsequence(b, first, x, true, key);
      case (Prepared(_), Prepared(_)) =>
        return Died;
    }
    return Ok(answer.n);
  }

  lemma PairsExtend(v: Vector, i: nat)
    requires i < |v|
    ensures Pairs(v[..i + 1]) == Pairs(v[..i]) + if v[i].Some? then [(i, v[i].value)] else []
  {
    assert v[..i + 1][..i] == v[..i];
  }

  /**
    The longest common subsequence itself.  The elements are read out of the first argument, so a
    prepared table there ends the program as soon as there is anything to read.
   */
  method LongestCommon<T, K(==)>(first: Source<T, K>, second: Source<T, K>, ghost x: seq<K>, ghost y: seq<K>, key: T -> K)
    returns (r: Result<seq<T>>, ghost m: seq<(nat, nat)>)
    requires Denotes(first, x, key) && Denotes(second, y, key)
    ensures r.Died? <==> first.Prepared? && (second.Prepared? || Lcs(x, y) > 0)
    ensures r.Ok? && first.Prepared? ==> r.value == []
    ensures first.Items? ==> Matching(x, y, m) && |m| == Lcs(x, y) && r == Ok(Selected(first.items, m))
    ensures first.Items? ==> m == Picked(x, y, second.Prepared?)
  {
    m := [];
    if first.Prepared? && second.Prepared? {
      return Died, m;
    }
    var a := if first.Items? then first.items else second.items;
    var answer;
    if first.Items? {
      answer := LongestCommonSubsequence(a, second, y, false, key);
    } else {
      LcsSymmetric(x, y);
      answer := LongestCommonSubsequence(a, first, x, false, key);
    }
    var v := answer.vector;
    if first.Prepared? {
      var defined := AnyDefined(v);
      return if defined then Died else Ok([]), m;
    }
    PairsMatch(v, x, y);
    m := Pairs(v);
    var elements := SelectDefined(a, v);
    return Ok(elements), m;
  }

  method AnyDefined(v: Vector) returns (found: bool)
    ensures found <==> Pairs(v) != []
  {
    found := false;
    for i := 0 to |v|
      invariant !found ==> Pairs(v[..i]) == []
      invariant found ==> exists p :: 0 <= p < |v| && v[p].Some?
    {
      PairsExtend(v, i);
      if v[i].Some? {
        found := true;
      }
    }
    assert v[..|v|] == v;
    if found {
      var p :| 0 <= p < |v| && v[p].Some?;
      PairsComplete(v, p);
    }
  }

  method SelectDefined<T>(a: seq<T>, v: Vector) returns (elements: seq<T>)
    requires |v| <= |a|
    ensures forall t :: 0 <= t < |Pairs(v)| ==> Pairs(v)[t].0 < |a|
    ensures elements == Selected(a, Pairs(v))
  {
    elements := [];
    for i := 0 to |v|
      invariant |elements| == |Pairs(v[..i])|
      invariant forall t :: 0 <= t < |elements| ==> Pairs(v[..i])[t].0 < |a| && elements[t] == a[Pairs(v[..i])[t].0]
    {
      PairsExtend(v, i);
      if v[i].Some? {
        elements := elements + [a[i]];
      }
    }
    assert v[..|v|] == v;
  }

  /** The columns of a list of pairs. */
  function Firsts(m: seq<(nat, nat)>): seq<nat> {
    seq(|m|, t requires 0 <= t < |m| => m[t].0)
  }

  function Seconds(m: seq<(nat, nat)>): seq<nat> {
    seq(|m|, t requires 0 <= t < |m| => m[t].1)
  }

  /** Two lists of equal length as pairs. */
  function Zip(am: seq<nat>, bm: seq<nat>): seq<(nat, nat)>
    requires |am| == |bm|
  {
    seq(|am|, t requires 0 <= t < |am| == |bm| => (am[t], bm[t]))
  }

  /**
    The longest common subsequence as two index lists.  With a prepared table on the left the engine
    exchanges its inputs, and the lists come out exchanged as well.
   */
  method LcsIdx<T, K(==)>(first: Source<T, K>, second: Source<T, K>, ghost x: seq<K>, ghost y: seq<K>, key: T -> K)
    returns (r: Result<(seq<nat>, seq<nat>)>)
    requires Denotes(first, x, key) && Denotes(second, y, key)
    ensures r.Died? <==> first.Prepared? && second.Prepared?
    ensures r.Ok? ==>
      var (am, bm) := r.value;
      && |am| == |bm| == Lcs(x, y)
      && (if first.Items? then Matching(x, y, Zip(am, bm)) && Zip(am, bm) == Picked(x, y, second.Prepared?)
          else Matching(y, x, Zip(am, bm)) && Zip(am, bm) == Picked(y, x, true))
  {
    hide Picked, Window;
    var answer;
    match (first, second) {
      case (Items(a), _) =>
        answer := LongestCommonSubsequence(a, second, y, false, key);
        PairsMatch(answer.vector, x, y);
      case (Prepared(_), Items(b)) =>
        LcsSymmetric(x, y);
        answer := LongestCommonSubsequence(b, first, x, false, key);
        PairsMatch(answer.vector, y, x);
      case (Prepared(_), Prepared(_)) =>
        return Died;
    }
    var am, bm := DefinedSlots(answer.vector);
    assert Zip(am, bm) == Pairs(answer.vector);
    r := Ok((am, bm));
  }

  method DefinedSlots(v: Vector) returns (am: seq<nat>, bm: seq<nat>)
    ensures am == Firsts(Pairs(v)) && bm == Seconds(Pairs(v))
  {
    am, bm := [], [];
    for i := 0 to |v|
      invariant |am| == |Pairs(v[..i])| && forall t :: 0 <= t < |am| ==> am[t] == Pairs(v[..i])[t].0
    {
      PairsExtend(v, i);
      if v[i].Some? {
        am := am + [i];
      }
    }
    assert v[..|v|] == v;
    for t := 0 to |am|
      invariant |bm| == t && forall s :: 0 <= s < t ==> bm[s] == Pairs(v)[s].1
    {
      PairsAt(v, t);
      bm := bm + [v[am[t]].value];
    }
  }
}
