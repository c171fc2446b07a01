/** Lists of lists, one after the other. */
module Lists {

  /** The first n lists. */
  function Flatten<T>(lists: seq<seq<T>>, n: nat): seq<T>
    requires n <= |lists|
  {
    if n == 0 then [] else Flatten(lists, n - 1) + lists[n - 1]
  }

  lemma {:induction false} FlattenGrows<T>(lists: seq<seq<T>>, m: nat, n: nat)
    requires m <= n <= |lists|
    ensures |Flatten(lists, m)| <= |Flatten(lists, n)|
  {
    if m < n {
      FlattenGrows(lists, m, n - 1);
    }
  }

  lemma {:induction false} FlattenKeeps<T>(lists: seq<seq<T>>, m: nat, n: nat, k: nat)
    requires m <= n <= |lists| && k < |Flatten(lists, m)|
    ensures k < |Flatten(lists, n)| && Flatten(lists, n)[k] == Flatten(lists, m)[k]
  {
    if m < n {
      FlattenKeeps(lists, m, n - 1, k);
    }
  }

  lemma {:induction false} FlattenPrefix<T>(lists: seq<seq<T>>, more: seq<seq<T>>, n: nat)
    requires n <= |lists|
    ensures Flatten(lists + more, n) == Flatten(lists, n)
  {
    if n > 0 {
      FlattenPrefix(lists, more, n - 1);
    }
  }

  lemma FlattenAppend<T>(lists: seq<seq<T>>, list: seq<T>)
    ensures Flatten(lists + [list], |lists| + 1) == Flatten(lists, |lists|) + list
  {
    FlattenPrefix(lists, [list], |lists|);
  }

  /** Element k of list n comes after the lists before it. */
  lemma FlattenAt<T>(lists: seq<seq<T>>, n: nat, k: nat)
    requires n < |lists| && k < |lists[n]|
    ensures var p := |Flatten(lists, n)| + k;
            p < |Flatten(lists, |lists|)| && Flatten(lists, |lists|)[p] == lists[n][k]
  {
    var p := |Flatten(lists, n)| + k;
    assert Flatten(lists, n + 1)[p] == lists[n][k];
    FlattenKeeps(lists, n + 1, |lists|, p);
  }

  /** `own` is found in `all` from position p on. */
  ghost predicate Follows<T>(own: seq<T>, all: seq<T>, p: nat) {
    p + |own| <= |all| && forall k :: 0 <= k < |own| ==> own[k] == all[p + k]
  }

  lemma FlattenFollows<T>(lists: seq<seq<T>>, n: nat)
    requires n < |lists|
    ensures Follows(lists[n], Flatten(lists, |lists|), |Flatten(lists, n)|)
    ensures |Flatten(lists, n + 1)| == |Flatten(lists, n)| + |lists[n]| <= |Flatten(lists, |lists|)|
  {
    FlattenGrows(lists, n + 1, |lists|);
    forall k | 0 <= k < |lists[n]|
      ensures lists[n][k] == Flatten(lists, |lists|)[|Flatten(lists, n)| + k]
    {
      FlattenAt(lists, n, k);
    }
  }

  /** Every position of the whole is in one of the lists. */
  lemma {:induction false} FlattenFind<T>(lists: seq<seq<T>>, n: nat, p: nat) returns (i: nat, k: nat)
    requires n <= |lists| && p < |Flatten(lists, n)|
    ensures i < n && k < |lists[i]| && p == |Flatten(lists, i)| + k
  {
    if p < |Flatten(lists, n - 1)| {
      i, k := FlattenFind(lists, n - 1, p);
    } else {
      i, k := n - 1, p - |Flatten(lists, n - 1)|;
    }
  }
}
