/**
  The positioned object that iterates over the hunks of compact_diff.
 */
module HunkObject {
  import opened Wrappers
  import opened LcsSpec
  import opened CompactDiffs

  /** `cuts` begins and ends with the ends of both sequences; every hunk between cuts is non-empty,
      and the hunk at position p, the p-th from 1, is unchanged exactly when p's parity is `same`.
      The unchanged hunks together are a longest common subsequence. */
  ghost predicate HunkList<K>(x: seq<K>, y: seq<K>, cuts: seq<nat>, end: nat, same: nat) {
    && end > 0 && |cuts| == 2 * end && same < 2
    && cuts[0] == 0 && cuts[1] == 0 && cuts[2 * end - 2] == |x| && cuts[2 * end - 1] == |y|
    && (forall p :: 1 <= p < end ==> HunkPosition(x, y, cuts, p, same))
    && SameLength(cuts, same, end - 1) == Lcs(x, y)
  }

  /** The number of unchanged items in the hunks up to position p. */
  ghost function SameLength(cuts: seq<nat>, same: nat, p: nat): int
    requires 2 * p + 1 < |cuts|
  {
    if p == 0 then 0
    else SameLength(cuts, same, p - 1) + if p % 2 == same then cuts[2 * p] as int - cuts[2 * p - 2] as int else 0
  }

  lemma {:induction false} SameLengthKept(c: seq<nat>, p: nat)
    requires 2 * p + 1 < |c|
    ensures SameLength(c, 1, p) == SameTotal(c[..2 * p + 2])
    ensures 2 * p + 3 < |c| && c[2] == c[0] ==> SameLength(c[2..], 0, p) == SameTotal(c[..2 * p + 4])
  {
    if p > 0 {
      SameLengthKept(c, p - 1);
    }
    assert c[..2 * p + 2][..2 * p] == c[..2 * p];
    if 2 * p + 3 < |c| {
      assert c[..2 * p + 4][..2 * p + 2] == c[..2 * p + 2];
    }
  }

  ghost predicate HunkPosition<K>(x: seq<K>, y: seq<K>, cuts: seq<nat>, p: nat, same: nat)
    requires 1 <= p && 2 * p + 1 < |cuts|
  {
    HunkOk(x, y, cuts[2 * p - 2], cuts[2 * p - 1], cuts[2 * p], cuts[2 * p + 1], p % 2 == same, false)
  }

  /** The position Reset moves to: counted from the end when negative, 0 when there is no such hunk. */
  function ResetTo(pos: int, end: nat): (r: nat)
    ensures end > 0 ==> r < end
    ensures 0 < pos < end || 0 < pos + end < end ==> (r - pos) % end == 0 && r > 0
  {
    var p := if pos < 0 then pos + end else pos;
    if p < 0 || end <= p then 0 else p
  }

  /** The position Next moves to.  From a hunk, moving before the first one resets. */
  function NextTo(pos: nat, steps: int, end: nat): nat {
    if steps == 0 then pos
    else if pos != 0 && pos + steps < 0 then ResetTo(0, end)
    else ResetTo(pos + steps, end)
  }

  /** Next goes through the positions 1, 2, ..., end - 1 and then resets; Prev goes back. */
  lemma NextPrev(pos: nat, end: nat)
    requires pos < end
    ensures NextTo(pos, 1, end) == if pos + 1 < end then pos + 1 else 0
    ensures NextTo(NextTo(pos, 1, end), -1, end) == pos
    ensures NextTo(NextTo(pos, -1, end), 1, end) == pos
    ensures NextTo(0, -1, end) == end - 1
  {
  }

  /** The next position in one direction, 0 behind the last hunk; from 0 either end is entered. */
  function Neighbour(pos: nat, forward: bool, end: nat): nat
    requires pos < end
  {
    if forward then if pos + 1 < end then pos + 1 else 0
    else if pos == 0 then end - 1 else pos - 1
  }

  /** n single steps that stop for good when they leave the hunks. */
  function Walked(pos: nat, n: nat, forward: bool, end: nat): nat
    requires pos < end
    decreases n
  {
    if n == 0 then pos
    else
      var next := Neighbour(pos, forward, end);
      if next == 0 then 0 else Walked(next, n - 1, forward, end)
  }

  /** Next moves by any number of steps as by so many single ones, in either direction, and resets beyond the ends. */
  lemma {:induction false} NextIsSteps(pos: nat, n: nat, end: nat)
    requires pos < end
    ensures NextTo(pos, n, end) == Walked(pos, n, true, end)
    ensures NextTo(pos, 0 - n as int, end) == Walked(pos, n, false, end)
    decreases n
  {
    if n > 0 {
      NextIsSteps(Neighbour(pos, true, end), n - 1, end);
      NextIsSteps(Neighbour(pos, false, end), n - 1, end);
    }
  }

  /** Cutting off an empty first hunk leaves exactly the non-empty ones; otherwise all are non-empty. */
  lemma SpliceIsHunkList<K>(x: seq<K>, y: seq<K>, c: seq<nat>, n: nat)
    requires CompactResult(x, y, c, n)
    ensures |c| >= 4
    ensures c[2] == 0 && c[3] == 0 ==> HunkList(x, y, c[2..], n - 1, 0)
    ensures c[2] != 0 || c[3] != 0 ==> HunkList(x, y, c, n, 1)
  {
    hide SameLength, SameTotal;
    assert HunkAt(x, y, c, 0);
    assert c[..2 * n] == c;
    if c[2] == 0 && c[3] == 0 {
      SameLengthKept(c, n - 2);
      forall p | 1 <= p < n - 1
        ensures HunkPosition(x, y, c[2..], p, 0)
      {
        assert HunkAt(x, y, c, p);
      }
    } else {
      SameLengthKept(c, n - 1);
      forall p | 1 <= p < n
        ensures HunkPosition(x, y, c, p, 1)
      {
        assert HunkAt(x, y, c, p - 1);
      }
    }
  }

  class Hunks<T> {
    var idx: seq<nat>
    var seq1: seq<T>
    var seq2: seq<T>
    var end: nat
    var same: nat
    var base: int
    var pos: nat
    var off: int

    /** Every position has index pairs that delimit items of both sequences. */
    ghost predicate Valid()
      reads this
    {
      && pos < end && off == 2 * pos - 1 && |idx| == 2 * end && same < 2
      && forall p :: 1 <= p < end ==>
           idx[2 * p - 2] <= idx[2 * p] <= |seq1| && idx[2 * p - 1] <= idx[2 * p + 1] <= |seq2|
    }

    /** The hunks are those of compact_diff on the given keys. */
    ghost predicate Shows<K>(x: seq<K>, y: seq<K>)
      reads this
    {
      Valid() && |seq1| == |x| && |seq2| == |y| && HunkList(x, y, idx, end, same)
    }

    constructor (cdif: seq<nat>, same: nat, seq1: seq<T>, seq2: seq<T>)
      ensures idx == cdif && end == (1 + |cdif|) / 2 && this.same == same && this.seq1 == seq1 && this.seq2 == seq2
      ensures base == 0 && pos == 0 && off == -1
    {
      idx, this.same, this.seq1, this.seq2 := cdif, same, seq1, seq2;
      end := (1 + |cdif|) / 2;
      base, pos, off := 0, 0, -1;
    }

    method Reset(newPos: int)
      requires Valid()
      modifies `pos, `off
      ensures Valid() && pos == ResetTo(newPos, end)
    {
      var p := newPos;
      if p < 0 {
        p := p + end;
      }
      if p < 0 || end <= p {
        p := 0;
      }
      pos := p;
      off := 2 * p - 1;
    }

    method Next(steps: Option<int>) returns (r: nat)
      requires Valid()
      modifies `pos, `off
      ensures Valid() && pos == r == NextTo(old(pos), match steps case None => 1 case Some(s) => s, end)
    {
      var s := match steps case None => 1 case Some(s) => s;
      if s != 0 {
        var new' := pos + s;
        if pos != 0 && new' < 0 {
          new' := 0;
        }
        Reset(new');
      }
      r := pos;
    }

    method Prev(steps: Option<int>) returns (r: int)
      requires Valid()
      modifies `pos, `off
      ensures Valid() && pos == NextTo(old(pos), match steps case None => -1 case Some(s) => -s, end)
      ensures r == (if pos == 0 then 0 else pos - end) && r <= 0
    {
      var s := match steps case None => 1 case Some(s) => s;
      var p := Next(Some(-s));
      r := if p != 0 then p - end else p;
    }

    method SetBase(newBase: Option<int>) returns (oldBase: int)
      modifies `base
      ensures oldBase == old(base) && base == match newBase case None => old(base) case Some(b) => b
    {
      oldBase := base;
      if newBase.Some? {
        base := newBase.value;
      }
    }

    /** Where the current hunk begins in a sequence, as an offset into idx. */
    function ChkSeq(sq: nat): Result<nat>
      requires Valid()
      reads this
    {
      if pos != 0 && (sq == 1 || sq == 2) then Ok(sq + off) else Died
    }

    /** The items of the current hunk in sequence 1 or 2. */
    function Items(sq: nat): (r: Result<seq<T>>)
      requires Valid()
      reads this
      ensures r.Died? <==> pos == 0 || (sq != 1 && sq != 2)
      ensures r.Ok? && sq == 1 ==> r.value == seq1[idx[2 * pos - 2]..idx[2 * pos]]
      ensures r.Ok? && sq == 2 ==> r.value == seq2[idx[2 * pos - 1]..idx[2 * pos + 1]]
    {
      match ChkSeq(sq)
      case Died => Died
      case Ok(o) =>
        if sq == 1 then Ok(seq1[idx[o - 2]..idx[o]]) else Ok(seq2[idx[o - 2]..idx[o]])
    }

    /** The first index of the current hunk, also when the hunk has no items in that sequence. */
    function Min(sq: nat, newBase: Option<int>): (r: Result<int>)
      requires Valid()
      reads this
      ensures r.Died? <==> pos == 0 || (sq != 1 && sq != 2)
      ensures r.Ok? ==> r.value == (match newBase case None => base case Some(b) => b) + idx[2 * pos - 3 + sq]
    {
      match ChkSeq(sq)
      case Died => Died
      case Ok(o) => Ok((match newBase case None => base case Some(b) => b) + idx[o - 2])
    }

    /** The last index of the current hunk: one before its first index when it has no items there. */
    function Max(sq: nat, newBase: Option<int>): (r: Result<int>)
      requires Valid()
      reads this
      ensures r.Died? <==> Min(sq, newBase).Died?
      ensures r.Ok? ==> r.value - Min(sq, newBase).value + 1 == |Items(sq).value|
    {
      match ChkSeq(sq)
      case Died => Died
      case Ok(o) => Ok((match newBase case None => base case Some(b) => b) + idx[o] - 1)
    }

    /** The items when the current hunk is unchanged, nothing otherwise. */
    function Same(): (r: Result<seq<T>>)
      requires Valid()
      reads this
      ensures r.Died? <==> pos == 0
    {
      if pos == 0 then Died
      else if same != pos % 2 then Ok([])
      else Items(1)
    }

    /** Which sequences have changed items in the current hunk: bit 1 for the first, bit 2 for the second. */
    method DiffBits() returns (bits: Result<nat>)
      requires Valid()
      ensures bits.Died? <==> pos == 0
      ensures bits.Ok? && same == pos % 2 ==> bits.value == 0
      ensures bits.Ok? && same != pos % 2 ==>
        bits.value == (if Items(1).value != [] then 1 else 0) + (if Items(2).value != [] then 2 else 0)
    {
      if pos == 0 {
        return Died;
      }
      if same == pos % 2 {
        return Ok(0);
      }
      var ret := 0;
      for sq := 1 to 3
        invariant sq > 1 ==> ret % 2 == if Items(1).value != [] then 1 else 0
        invariant ret == (if sq > 1 && Items(1).value != [] then 1 else 0) + (if sq > 2 && Items(2).value != [] then 2 else 0)
      {
        if idx[off + sq - 2] < idx[off + sq] {
          ret := ret + sq;
        }
      }
      return Ok(ret);
    }
  }

  /** Computes the hunks of two sequences; the object starts reset. */
  method New<T, K(==)>(seq1: seq<T>, seq2: seq<T>, key: T -> K) returns (me: Hunks<T>)
    ensures fresh(me) && me.Shows(Keys(seq1, key), Keys(seq2, key)) && me.pos == 0 && me.base == 0
    ensures me.seq1 == seq1 && me.seq2 == seq2
  {
    var cdif := CompactDiff(seq1, seq2, key);
    me := FromCuts(Keys(seq1, key), Keys(seq2, key), cdif, |cdif| / 2, seq1, seq2);
  }

  method FromCuts<T, K>(ghost x: seq<K>, ghost y: seq<K>, cdif0: seq<nat>, ghost n: nat, seq1: seq<T>, seq2: seq<T>)
    returns (me: Hunks<T>)
    requires CompactResult(x, y, cdif0, n) && |seq1| == |x| && |seq2| == |y|
    ensures fresh(me) && me.Shows(x, y) && me.pos == 0 && me.base == 0
    ensures me.seq1 == seq1 && me.seq2 == seq2
  {
    var cdif, same := cdif0, 1;
    SpliceIsHunkList(x, y, cdif, n);
    if 0 == cdif[2] && 0 == cdif[3] {
      same := 0;
      cdif := cdif[2..];
    }
    me := new Hunks<T>(cdif, same, seq1, seq2);
    HunksDelimit(x, y, me.idx, me.end, me.same);
    me.Reset(0);
  }

  lemma HunksDelimit<K>(x: seq<K>, y: seq<K>, cuts: seq<nat>, end: nat, same: nat)
    requires HunkList(x, y, cuts, end, same)
    ensures forall p :: 1 <= p < end ==>
              cuts[2 * p - 2] <= cuts[2 * p] <= |x| && cuts[2 * p - 1] <= cuts[2 * p + 1] <= |y|
  {
    forall p | 1 <= p < end
      ensures cuts[2 * p - 2] <= cuts[2 * p] <= |x| && cuts[2 * p - 1] <= cuts[2 * p + 1] <= |y|
    {
      assert HunkPosition(x, y, cuts, p, same);
    }
  }
}
