/**
  The binomial tree over relative ranks 0 .. size - 1, as the receive loop and the send loop of the
  scatter walk it with their bit masks.
 */
module ScatterTree {
  import opened Numbers

  predicate IsPowerOfTwo(m: nat) {
    m == 1 || (m > 1 && m % 2 == 0 && IsPowerOfTwo(m / 2))
  }

  /** Bitwise and. */
  function And(r: nat, m: nat): nat {
    if r == 0 || m == 0 then 0
    else 2 * And(r / 2, m / 2) + if r % 2 == 1 && m % 2 == 1 then 1 else 0
  }

  /** The lowest set bit of a positive number. */
  function LowBit(r: nat): (m: nat)
    requires r > 0
    ensures 0 < m <= r
  {
    if r % 2 == 1 then 1 else 2 * LowBit(r / 2)
  }

  /** The parent's relative rank: the lowest set bit cleared. */
  function Parent(r: nat): (p: nat)
    requires r > 0
    ensures p < r
  {
    r - LowBit(r)
  }

  /** The least power of two, from m on, that is not below size. */
  function TopMask(m: nat, size: nat): (t: nat)
    requires m > 0
    ensures t >= size && t >= m
    ensures t < 2 * size || t == m
    decreases size - m
  {
    if m >= size then m else TopMask(2 * m, size)
  }

  /** Where the receive loop stops: at the lowest set bit, or at the first mask not below size for the root. */
  function Mask(r: nat, size: nat): nat {
    if r == 0 then TopMask(1, size) else LowBit(r)
  }

  /** The number of blocks in the subtree of relative rank r. */
  function Span(r: nat, size: nat): nat
    requires r < size
  {
    if r == 0 then size else Min(LowBit(r), size - r)
  }

  /** The children of r that the send loop finds with the masks mask, mask / 2, ..., 1. */
  function Children(r: nat, mask: nat, size: nat): seq<nat> {
    if mask == 0 then []
    else (if r + mask < size then [r + mask] else []) + Children(r, mask / 2, size)
  }

  // ----- Bits -----

  lemma {:induction false} LowBitIsPower(r: nat)
    requires r > 0
    ensures IsPowerOfTwo(LowBit(r))
    decreases r
  {
    if r % 2 == 0 {
      LowBitIsPower(r / 2);
    }
  }

  lemma {:induction false} TopMaskIsPower(m: nat, size: nat)
    requires IsPowerOfTwo(m)
    ensures IsPowerOfTwo(TopMask(m, size))
    decreases size - m
  {
    if m < size {
      TopMaskIsPower(2 * m, size);
    }
  }

  lemma MaskIsPower(r: nat, size: nat)
    ensures IsPowerOfTwo(Mask(r, size))
  {
    if r == 0 {
      TopMaskIsPower(1, size);
    } else {
      LowBitIsPower(r);
    }
  }

  /** Testing the bits from below first hits the lowest set bit. */
  lemma {:induction false} AndFindsLowBit(r: nat, mask: nat)
    requires r > 0 && IsPowerOfTwo(mask) && mask <= LowBit(r)
    ensures And(r, mask) != 0 <==> mask == LowBit(r)
    ensures mask != LowBit(r) ==> 2 * mask <= LowBit(r)
    decreases r
  {
    if mask > 1 {
      assert r % 2 == 0;
      AndFindsLowBit(r / 2, mask / 2);
    } else if r % 2 == 0 {
      assert And(r / 2, 0) == 0;
    }
  }

  /** Adding a mask below the lowest set bit makes that mask the lowest set bit. */
  lemma {:induction false} LowBitOfChild(r: nat, mask: nat)
    requires IsPowerOfTwo(mask) && (r > 0 ==> mask < LowBit(r))
    ensures LowBit(r + mask) == mask
    decreases mask
  {
    if mask > 1 {
      if r > 0 {
        assert r % 2 == 0;
      }
      LowBitOfChild(r / 2, mask / 2);
      assert (r + mask) / 2 == r / 2 + mask / 2;
    }
  }

  /** Clearing the lowest set bit leaves a higher one, if any. */
  lemma {:induction false} LowBitOfParent(r: nat)
    requires r > 0 && Parent(r) > 0
    ensures LowBit(r) < LowBit(Parent(r))
    decreases r
  {
    if r % 2 == 0 {
      assert Parent(r) == 2 * Parent(r / 2);
      LowBitOfParent(r / 2);
    }
  }

  // ----- The two loops are inverse to one another -----

  /** Every child the send loop finds below Mask(r) has r as the parent that its receive loop finds. */
  lemma {:induction false} ChildrenHaveParent(r: nat, mask: nat, size: nat)
    requires r < size && (mask == 0 || IsPowerOfTwo(mask)) && mask < Mask(r, size)
    ensures forall k :: 0 <= k < |Children(r, mask, size)| ==>
              var c := Children(r, mask, size)[k]; r < c < size && c <= r + mask && Parent(c) == r
    decreases mask
  {
    if mask > 0 {
      ChildrenHaveParent(r, mask / 2, size);
      LowBitOfChild(r, mask);
      var rest := Children(r, mask / 2, size);
      forall k | 0 <= k < |Children(r, mask, size)|
        ensures var c := Children(r, mask, size)[k]; r < c < size && c <= r + mask && Parent(c) == r
      {
        if r + mask < size {
          if k > 0 {
            assert Children(r, mask, size)[k] == rest[k - 1];
          }
        } else {
          assert Children(r, mask, size) == rest;
        }
      }
    }
  }

  lemma PowerBelow(m: nat, n: nat)
    requires IsPowerOfTwo(m) && IsPowerOfTwo(n) && m < n
    ensures m <= n / 2
    decreases n
  {
    if m > 1 {
      PowerBelow(m / 2, n / 2);
    }
  }

  lemma {:induction false} ChildFound(r: nat, mask: nat, size: nat, m: nat)
    requires IsPowerOfTwo(mask) && IsPowerOfTwo(m) && m <= mask && r + m < size
    ensures r + m in Children(r, mask, size)
    decreases mask
  {
    var rest := Children(r, mask / 2, size);
    if m < mask {
      PowerBelow(m, mask);
      ChildFound(r, mask / 2, size, m);
      var k :| 0 <= k < |rest| && rest[k] == r + m;
      if r + mask < size {
        assert Children(r, mask, size)[k + 1] == r + m;
      }
    } else {
      assert Children(r, mask, size)[0] == r + m;
    }
  }

  /** Every rank but the root is among the children of its parent. */
  lemma ParentHasChild(c: nat, size: nat)
    requires 0 < c < size
    ensures c in Children(Parent(c), Mask(Parent(c), size) / 2, size)
  {
    var p := Parent(c);
    LowBitIsPower(c);
    MaskIsPower(p, size);
    if p > 0 {
      LowBitOfParent(c);
    }
    PowerBelow(LowBit(c), Mask(p, size));
    ChildFound(p, Mask(p, size) / 2, size, LowBit(c));
  }

  /** No child is found twice: the children come in decreasing order. */
  lemma {:induction false} ChildrenDecrease(r: nat, mask: nat, size: nat)
    ensures forall j, k :: 0 <= j < k < |Children(r, mask, size)| ==> Children(r, mask, size)[j] > Children(r, mask, size)[k]
    ensures forall k :: 0 <= k < |Children(r, mask, size)| ==> Children(r, mask, size)[k] <= r + mask
    decreases mask
  {
    if mask > 0 {
      ChildrenDecrease(r, mask / 2, size);
    }
  }

  /** The children of r. */
  function ChildrenOf(r: nat, size: nat): seq<nat> {
    Children(r, Mask(r, size) / 2, size)
  }

  /**
    The send loop's children and the receive loop's parents are the same tree: c is a child of r
    exactly when r is its parent, and it is found once.
   */
  lemma TreeExact(r: nat, c: nat, size: nat)
    requires r < size && c < size
    ensures c in ChildrenOf(r, size) <==> c > 0 && Parent(c) == r
    ensures forall j, k :: 0 <= j < k < |ChildrenOf(r, size)| ==> ChildrenOf(r, size)[j] != ChildrenOf(r, size)[k]
  {
    MaskIsPower(r, size);
    ChildrenHaveParent(r, Mask(r, size) / 2, size);
    ChildrenDecrease(r, Mask(r, size) / 2, size);
    if c > 0 && Parent(c) == r {
      ParentHasChild(c, size);
    }
  }

  // ----- Sizes -----

  /** An inner rank's subtree is at most half of all blocks. */
  lemma InnerSpanAtMostHalf(r: nat, size: nat)
    requires 0 < r < size
    ensures 2 * Span(r, size) <= size
  {
  }

  /** ceil(log2(size)). */
  function CeilLog2(size: nat): (n: nat)
  {
    if size <= 1 then 0 else 1 + CeilLog2((size + 1) / 2)
  }

  function Pow2(n: nat): (p: nat)
    ensures p > 0
  {
    if n == 0 then 1 else 2 * Pow2(n - 1)
  }

  /** CeilLog2 is the exact rounded-up logarithm. */
  lemma {:induction false} CeilLog2Exact(size: nat)
    requires size > 0
    ensures size <= Pow2(CeilLog2(size))
    ensures size > 1 ==> Pow2(CeilLog2(size) - 1) < size
    decreases size
  {
    if size > 1 {
      CeilLog2Exact((size + 1) / 2);
    }
  }

  /** The number of sends fits the request array: at most one per mask. */
  lemma {:induction false} ChildrenAtMostMasks(r: nat, mask: nat, size: nat)
    ensures |Children(r, mask, size)| <= Halvings(mask)
    decreases mask
  {
    if mask > 0 {
      ChildrenAtMostMasks(r, mask / 2, size);
    }
  }

  function Halvings(m: nat): nat {
    if m == 0 then 0 else 1 + Halvings(m / 2)
  }

  lemma {:induction false} HalvingsOfTop(m: nat, size: nat)
    requires 0 < m < 2 * size && IsPowerOfTwo(m)
    ensures Halvings(m / 2) <= CeilLog2(size)
    decreases size
  {
    if m > 1 {
      assert size > 1;
      HalvingsOfTop(m / 2, (size + 1) / 2);
    }
  }

  lemma SendsFitRequests(r: nat, size: nat)
    requires r < size
    ensures |ChildrenOf(r, size)| <= CeilLog2(size)
  {
    MaskIsPower(r, size);
    ChildrenAtMostMasks(r, Mask(r, size) / 2, size);
    HalvingsOfTop(Mask(r, size), size);
  }
}
