/**
  The threshold array of the Hunt-McIlroy algorithm and the hinted binary search on it.
 */
module Thresholds {
  import opened Wrappers

  ghost predicate Increasing(s: seq<nat>) {
    forall p, q :: 0 <= p < q < |s| ==> s[p] < s[q]
  }

  /** k is where v belongs in s: everything before is smaller, everything from k on is not. */
  ghost predicate InsertionPoint(s: seq<nat>, v: nat, k: nat) {
    && k <= |s|
    && (forall p :: 0 <= p < k ==> s[p] < v)
    && (forall p :: k <= p < |s| ==> v <= s[p])
  }

  /** Overwrite position k, or append when k is the length. */
  function Put<T>(s: seq<T>, k: nat, v: T): (r: seq<T>)
    requires k <= |s|
  {
    if k < |s| then s[k := v] else s + [v]
  }

  /** A Perl array of numbers, passed by reference and changed in place. */
  class NumberArray {
    var items: seq<nat>

    constructor ()
      ensures items == []
    {
      items := [];
    }

    /**
      Replace the next larger element by `value`, or append it.  `hint` is the last index the
      search has to consider; 0 stands for "not given" and selects the last index.  A hint other
      than the last index is only good when the element there is not below `value`.
     */
    method ReplaceNextLargerWith(value: nat, hint: nat) returns (k: Option<nat>)
      requires Increasing(items)
      requires hint != 0 ==> hint < |items| && (hint == |items| - 1 || value <= items[hint])
      modifies this
      ensures k.None? <==> value in old(items)
      ensures k.None? ==> items == old(items)
      ensures k.Some? ==> InsertionPoint(old(items), value, k.value) && items == Put(old(items), k.value, value)
      ensures Increasing(items)
    {
      var high: int := if hint != 0 then hint else |items| - 1;
      if high == -1 || value > items[|items| - 1] {
        items := items + [value];
        return Some(high + 1);
      }
      var low := 0;
      while low <= high
        invariant 0 <= low <= high + 1 <= |items|
        invariant items == old(items)
        invariant forall p :: 0 <= p < low ==> items[p] < value
        invariant forall p :: high < p < |items| ==> value < items[p]
        decreases high - low
      {
        var index := (high + low) / 2;
        var found := items[index];
        if value == found {
          return None;
        } else if value > found {
          low := index + 1;
        } else {
          high := index - 1;
        }
      }
      items := items[low := value];
      return Some(low);
    }
  }
}
