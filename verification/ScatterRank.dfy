/**
  The scatter routine as one rank runs it: staging, receiving, forwarding, copying out.

  MPI is represented by values: `incoming` is what the rank's one receive delivers, `outbox` lists the
  messages of its non-blocking sends in order.
 */
module ScatterRank {
  import opened Wrappers
  import opened Numbers
  import opened ScatterTree

  /** A scatter of sendbuf from root over size ranks, `bytes` bytes for each. */
  datatype Scatter<T> = Scatter(size: nat, root: nat, bytes: nat, sendbuf: seq<T>) {
    ghost predicate Valid() {
      root < size && |sendbuf| == size * bytes
    }
  }

  datatype Message<T> = Message(src: nat, dst: nat, payload: seq<T>)

  /** The rank relative to the root, and back. */
  function Rel<T>(s: Scatter<T>, rank: nat): (r: nat)
    requires s.root < s.size && rank < s.size
    ensures r < s.size
  {
    if rank >= s.root then rank - s.root else rank - s.root + s.size
  }

  function Abs<T>(s: Scatter<T>, r: nat): (rank: nat)
    requires s.root < s.size && r < s.size
    ensures rank < s.size && Rel(s, rank) == r
  {
    if r + s.root < s.size then r + s.root else r + s.root - s.size
  }

  // ----- Byte arithmetic -----

  lemma Times(m: nat, n: nat, b: nat)
    ensures (m + n) * b == m * b + n * b
    ensures m <= n ==> m * b <= n * b && (n - m) * b == n * b - m * b
  {
  }

  /** A slice of a slice. */
  lemma SubSlice<T>(s: seq<T>, i: nat, n: nat, skip: nat, k: nat)
    requires i + n <= |s| && skip + k <= n
    ensures s[i..i + n][skip..skip + k] == s[i + skip..i + skip + k]
  {
    var l, r := s[i..i + n][skip..skip + k], s[i + skip..i + skip + k];
    assert |l| == |r| && forall t :: 0 <= t < k ==> l[t] == r[t];
  }

  lemma BlockBounds(r: nat, n: nat, size: nat, b: nat)
    requires r + n <= size
    ensures r * b + n * b <= size * b
  {
    Times(r, n, b);
    Times(r + n, size, b);
  }

  /** Where block q - root of the rotated buffer was before the rotation. */
  lemma RotatedOffset(root: nat, size: nat, q: nat, b: nat)
    requires root < size && q < size
    ensures root * b <= size * b && q * b + b <= size * b
    ensures q >= root ==> (q - root) * b + root * b == q * b && (q - root) * b + b <= size * b - root * b
    ensures q < root ==> 
      (q - root + size) * b + root * b == q * b + size * b
      && size * b - root * b <= (q - root + size) * b && (q - root + size) * b + b <= size * b
  {
    BlockBounds(q, 1, size, b);
    Times(root, size, b);
    if q >= root {
      Times(root, q, b);
    } else {
      Times(q, size - root, b);
      BlockBounds(q - root + size, 1, size, b);
    }
  }

  /** A slice of a rotated sequence that does not cross the seam: p is where it was before. */
  lemma RotatedSlice<T>(s: seq<T>, cut: nat, i: nat, p: nat, n: nat)
    requires cut <= |s| && p + n <= |s|
    requires (i + cut == p && i + n <= |s| - cut) || (i + cut == p + |s| && |s| - cut <= i && i + n <= |s|)
    ensures (s[cut..] + s[..cut])[i..i + n] == s[p..p + n]
  {
    var l, r := (s[cut..] + s[..cut])[i..i + n], s[p..p + n];
    assert |l| == |r| && forall k :: 0 <= k < n ==> l[k] == r[k];
  }

  /** s with t written over it from position `at` on. */
  function Overwrite<T>(s: seq<T>, at: nat, t: seq<T>): (r: seq<T>)
    requires at + |t| <= |s|
    ensures |r| == |s|
  {
    s[..at] + t + s[at + |t|..]
  }

  // ----- What each rank must hold -----

  /** The specification of scatter: rank q gets the q-th block of the root's send buffer. */
  ghost function Block<T>(s: Scatter<T>, q: nat): (t: seq<T>)
    requires s.Valid() && q < s.size
    ensures |t| == s.bytes
  {
    BlockBounds(q, 1, s.size, s.bytes);
    s.sendbuf[q * s.bytes..q * s.bytes + s.bytes]
  }

  /** The send buffer in the order of relative ranks. */
  ghost function Rotated<T>(s: Scatter<T>): (t: seq<T>)
    requires s.Valid()
    ensures |t| == s.size * s.bytes
  {
    Times(s.root, s.size, s.bytes);
    s.sendbuf[s.root * s.bytes..] + s.sendbuf[..s.root * s.bytes]
  }

  /** Blocks r, ..., r + n - 1 of the rotated buffer. */
  ghost function Blocks<T>(s: Scatter<T>, r: nat, n: nat): (t: seq<T>)
    requires s.Valid() && r + n <= s.size
    ensures |t| == n * s.bytes
  {
    BlockBounds(r, n, s.size, s.bytes);
    Rotated(s)[r * s.bytes..r * s.bytes + n * s.bytes]
  }

  /** The data of the whole subtree of relative rank r. */
  ghost function Chunk<T>(s: Scatter<T>, r: nat): seq<T>
    requires s.Valid() && r < s.size
  {
    Blocks(s, r, Span(r, s.size))
  }

  /** A block of the rotated buffer is the block of the rank it is for. */
  lemma RotatedBlock<T>(s: Scatter<T>, q: nat)
    requires s.Valid() && q < s.size
    ensures Blocks(s, Rel(s, q), 1) == Block(s, q)
  {
    var r, b := Rel(s, q), s.bytes;
    RotatedOffset(s.root, s.size, q, b);
    RotatedSlice(s.sendbuf, s.root * b, r * b, q * b, b);
  }

  /** Consecutive blocks inside consecutive blocks. */
  lemma SubBlocks<T>(s: Scatter<T>, r: nat, n: nat, skip: nat, k: nat)
    requires s.Valid() && r + n <= s.size && skip + k <= n
    ensures skip * s.bytes + k * s.bytes <= |Blocks(s, r, n)|
    ensures Blocks(s, r, n)[skip * s.bytes..skip * s.bytes + k * s.bytes] == Blocks(s, r + skip, k)
  {
    var b := s.bytes;
    SubBlockBounds(r, n, skip, k, s.size, b);
    SubSlice(Rotated(s), r * b, n * b, skip * b, k * b);
  }

  lemma SubBlockBounds(r: nat, n: nat, skip: nat, k: nat, size: nat, b: nat)
    requires r + n <= size && skip + k <= n
    ensures r * b + n * b <= size * b && skip * b + k * b <= n * b && (r + skip) * b == r * b + skip * b
  {
    BlockBounds(r, n, size, b);
    BlockBounds(skip, k, n, b);
    Times(r, skip, b);
  }

  /** The message to child c of relative rank r. */
  ghost function MessageTo<T>(s: Scatter<T>, c: nat): Message<T>
    requires s.Valid() && 0 < c < s.size
  {
    Message(Abs(s, Parent(c)), Abs(s, c), Chunk(s, c))
  }

  /** All messages of relative rank r with the masks mask, mask / 2, ..., 1. */
  ghost function Sends<T>(s: Scatter<T>, r: nat, mask: nat): seq<Message<T>>
    requires s.Valid() && r < s.size
  {
    if mask == 0 then []
    else (if r + mask < s.size then [MessageTo(s, r + mask)] else []) + Sends(s, r, mask / 2)
  }

  ghost function Outbox<T>(s: Scatter<T>, r: nat): seq<Message<T>>
    requires s.Valid() && r < s.size
  {
    Sends(s, r, Mask(r, s.size) / 2)
  }

  /** The k-th message goes to the k-th child. */
  lemma {:induction false} SendsToChildren<T>(s: Scatter<T>, r: nat, mask: nat, k: nat)
    requires s.Valid() && r < s.size && k < |Children(r, mask, s.size)|
    ensures |Sends(s, r, mask)| == |Children(r, mask, s.size)|
    ensures 0 < Children(r, mask, s.size)[k] < s.size
    ensures Sends(s, r, mask)[k] == MessageTo(s, Children(r, mask, s.size)[k])
    decreases mask
  {
    hide MessageTo;
    SameCount(s, r, mask);
    if r + mask < s.size {
      if k > 0 {
        SendsToChildren(s, r, mask / 2, k - 1);
      }
    } else {
      SendsToChildren(s, r, mask / 2, k);
    }
  }

  lemma {:induction false} SameCount<T>(s: Scatter<T>, r: nat, mask: nat)
    requires s.Valid() && r < s.size
    ensures |Sends(s, r, mask)| == |Children(r, mask, s.size)|
    decreases mask
  {
    if mask > 0 {
      SameCount(s, r, mask / 2);
    }
  }

  // ----- The routine -----

  /** memcpy of the smaller of the two sizes, unless nothing is to be received. */
  method DatatypeCopy<T>(sendbuf: array<T>, at: nat, sendcount: nat, sendsize: nat,
                         recvbuf: array<T>, to: nat, recvcount: nat, recvsize: nat)
    requires sendbuf != recvbuf
    requires at + Min(sendcount * sendsize, recvcount * recvsize) <= sendbuf.Length
    requires to + Min(sendcount * sendsize, recvcount * recvsize) <= recvbuf.Length
    modifies recvbuf
    ensures recvbuf[..] == Overwrite(old(recvbuf[..]), to,
                             sendbuf[at..at + Min(sendcount * sendsize, recvcount * recvsize)])
  {
    if recvcount > 0 {
      var count := Min(sendcount * sendsize, recvcount * recvsize);
      Memcpy(recvbuf, to, sendbuf[at..at + count]);
    }
  }

  method Memcpy<T>(dst: array<T>, to: nat, data: seq<T>)
    requires to + |data| <= dst.Length
    modifies dst
    ensures dst[..] == Overwrite(old(dst[..]), to, data)
  {
    forall i | 0 <= i < |data| {
      dst[to + i] := data[i];
    }
  }

  /** The receive loop: the mask at which it stops, and the rank it receives from. */
  method FindSource<T>(ghost s: Scatter<T>, rank: nat, size: nat, root: nat, relrank: nat)
    returns (mask: nat, src: Option<nat>)
    requires s.root == root && s.size == size && root < size && rank < size && relrank == Rel(s, rank)
    ensures mask == Mask(relrank, size)
    ensures src == if relrank == 0 then None else Some(Abs(s, Parent(relrank)))
  {
    mask := 1;
    while mask < size
      invariant IsPowerOfTwo(mask)
      invariant relrank == 0 ==> TopMask(mask, size) == TopMask(1, size)
      invariant relrank > 0 ==> mask <= LowBit(relrank)
      decreases size - mask
    {
      if relrank > 0 {
        AndFindsLowBit(relrank, mask);
      }
      if And(relrank, mask) != 0 {
        return mask, Some(if rank >= mask then rank - mask else rank - mask + size);
      }
      mask := 2 * mask;
    }
    src := None;
  }

  // ----- The send loop -----

  /**
    The send loop before it tries `mask`: `reach` is the mask before that one, so that min(reach, size - r)
    blocks are still this rank's to keep or forward; `count` is their number times `per`.
   */
  ghost predicate SendState<T>(s: Scatter<T>, r: nat, mask: nat, reach: nat, outbox: seq<Message<T>>, count: int, per: nat) {
    && s.Valid() && r < s.size && IsPowerOfTwo(reach) && mask == reach / 2 && reach <= Mask(r, s.size)
    && outbox + Sends(s, r, mask) == Outbox(s, r)
    && count == Min(reach, s.size - r) * per
  }

  lemma SendStart<T>(s: Scatter<T>, r: nat, per: nat)
    requires s.Valid() && r < s.size
    ensures SendState(s, r, Mask(r, s.size) / 2, Mask(r, s.size), [], Span(r, s.size) * per, per)
  {
    MaskIsPower(r, s.size);
    assert [] + Sends(s, r, Mask(r, s.size) / 2) == Outbox(s, r);
  }

  /** The number of blocks passed on: the child's whole subtree, which is the upper part of this rank's. */
  lemma ChildSpan(r: nat, mask: nat, reach: nat, size: nat)
    requires r < size && r + mask < size && mask > 0 && IsPowerOfTwo(reach) && mask == reach / 2 && reach <= Mask(r, size)
    ensures LowBit(r + mask) == mask && Parent(r + mask) == r
    ensures Min(reach, size - r) == mask + Span(r + mask, size)
    ensures mask + Span(r + mask, size) <= Span(r, size)
  {
    LowBitOfChild(r, mask);
  }

  lemma SendStep<T>(s: Scatter<T>, r: nat, mask: nat, reach: nat, outbox: seq<Message<T>>, count: int, per: nat)
    requires SendState(s, r, mask, reach, outbox, count, per) && mask > 0 && r + mask < s.size
    ensures count - per * mask == Span(r + mask, s.size) * per
    ensures SendState(s, r, mask / 2, mask, outbox + [MessageTo(s, r + mask)], per * mask, per)
    ensures |outbox| < CeilLog2(s.size)
  {
    CountStep(r, mask, reach, s.size, count, per);
    OutboxGrows(s, r, mask, outbox);
  }

  lemma CountStep(r: nat, mask: nat, reach: nat, size: nat, count: int, per: nat)
    requires r < size && r + mask < size && mask > 0 && IsPowerOfTwo(reach) && mask == reach / 2 && reach <= Mask(r, size)
    requires count == Min(reach, size - r) * per
    ensures count - per * mask == Span(r + mask, size) * per
    ensures Min(mask, size - r) * per == per * mask
    ensures IsPowerOfTwo(mask) && mask <= Mask(r, size)
  {
    ChildSpan(r, mask, reach, size);
    Times(mask, Span(r + mask, size), per);
  }

  lemma OutboxGrows<T>(s: Scatter<T>, r: nat, mask: nat, outbox: seq<Message<T>>)
    requires s.Valid() && mask > 0 && r + mask < s.size && outbox + Sends(s, r, mask) == Outbox(s, r)
    ensures outbox + [MessageTo(s, r + mask)] + Sends(s, r, mask / 2) == Outbox(s, r)
    ensures |outbox| < CeilLog2(s.size)
  {
    var m, rest := MessageTo(s, r + mask), Sends(s, r, mask / 2);
    assert Sends(s, r, mask) == [m] + rest;
    assert outbox + [m] + rest == outbox + ([m] + rest);
    SameCount(s, r, Mask(r, s.size) / 2);
    SendsFitRequests(r, s.size);
  }

  lemma SkipStep<T>(s: Scatter<T>, r: nat, mask: nat, reach: nat, outbox: seq<Message<T>>, count: int, per: nat)
    requires SendState(s, r, mask, reach, outbox, count, per) && mask > 0 && r + mask >= s.size
    ensures SendState(s, r, mask / 2, mask, outbox, count, per)
  {
    assert [] + Sends(s, r, mask / 2) == Sends(s, r, mask / 2);
  }

  /** What lies mask blocks into this rank's data is exactly the child's data. */
  lemma ChildPayload<T>(s: Scatter<T>, r: nat, mask: nat, reach: nat, at: nat, length: nat)
    requires s.Valid() && r < s.size && r + mask < s.size && mask > 0
    requires IsPowerOfTwo(reach) && mask == reach / 2 && reach <= Mask(r, s.size)
    requires at == mask * s.bytes && length == Span(r + mask, s.size) * s.bytes
    ensures Parent(r + mask) == r && at + length <= |Chunk(s, r)|
    ensures Chunk(s, r)[at..at + length] == Chunk(s, r + mask)
  {
    ChildSpan(r, mask, reach, s.size);
    SubBlocks(s, r, Span(r, s.size), mask, Span(r + mask, s.size));
  }

  /** The destination of a send: the child's absolute rank. */
  method ChildRank<T>(ghost s: Scatter<T>, rank: nat, size: nat, mask: nat) returns (dst: nat)
    requires size == s.size && rank < s.size && s.root < s.size && Rel(s, rank) + mask < s.size
    ensures dst == Abs(s, Rel(s, rank) + mask) && rank == Abs(s, Rel(s, rank))
  {
    Wrap(rank + mask, size);
    dst := (rank + mask) % size;
  }

  lemma Wrap(n: nat, size: nat)
    requires 0 < size && n < 2 * size
    ensures n % size == if n < size then n else n - size
  {
    if n >= size {
      assert n == size * 1 + (n - size);
      assert (n - size) / size == 0;
    }
  }

  /** Sends the child behind `mask` its part: everything the rank has from there on. */
  method SendChild<T>(ghost s: Scatter<T>, rank: nat, size: nat, bytes: nat, ghost relrank: nat, mask: nat, ghost reach: nat, ghost outbox: seq<Message<T>>,
                      count: int, per: nat, unit: nat, buf: array<T>)
    returns (m: Message<T>, subcount: int)
    requires size == s.size && bytes == s.bytes && rank < size && s.root < size && relrank == Rel(s, rank)
    requires SendState(s, relrank, mask, reach, outbox, count, per) && mask > 0 && relrank + mask < s.size
    requires per * unit == s.bytes && Chunk(s, relrank) <= buf[..]
    ensures m == MessageTo(s, relrank + mask) && subcount == count - per * mask
  {
    subcount := count - per * mask;
    var at, length := bytes * mask, subcount * unit;
    PayloadIsChunk(s, relrank, mask, reach, buf[..], count, per, unit, subcount, at, length);
    var dst := ChildRank(s, rank, size, mask);
    m := Message(rank, dst, buf[at..at + length]);
  }

  lemma PayloadIsChunk<T>(s: Scatter<T>, r: nat, mask: nat, reach: nat, data: seq<T>, count: int, per: nat, unit: nat,
                          subcount: int, at: int, length: int)
    requires s.Valid() && r < s.size && r + mask < s.size && mask > 0
    requires IsPowerOfTwo(reach) && mask == reach / 2 && reach <= Mask(r, s.size)
    requires count == Min(reach, s.size - r) * per && per * unit == s.bytes && Chunk(s, r) <= data
    requires subcount == count - per * mask && at == s.bytes * mask && length == subcount * unit
    ensures 0 <= at && 0 <= length && at + length <= |data|
    ensures data[at..at + length] == Chunk(s, r + mask) && Parent(r + mask) == r
  {
    PayloadNumbers(r, mask, reach, s.size, count, per, unit, s.bytes, subcount, at, length);
    ChildPayload(s, r, mask, reach, at, length);
    PrefixSlice(data, Chunk(s, r), at, length);
  }

  lemma PayloadNumbers(r: nat, mask: nat, reach: nat, size: nat, count: int, per: nat, unit: nat, bytes: nat,
                       subcount: int, at: int, length: int)
    requires r < size && r + mask < size && mask > 0
    requires IsPowerOfTwo(reach) && mask == reach / 2 && reach <= Mask(r, size)
    requires count == Min(reach, size - r) * per && per * unit == bytes
    requires subcount == count - per * mask && at == bytes * mask && length == subcount * unit
    ensures 0 <= at == mask * bytes && 0 <= length == Span(r + mask, size) * bytes
  {
    CountStep(r, mask, reach, size, count, per);
    PayloadSize(Span(r + mask, size), subcount, per, unit, bytes);
  }

  lemma PrefixSlice<T>(t: seq<T>, p: seq<T>, at: nat, n: nat)
    requires p <= t && at + n <= |p|
    ensures t[at..at + n] == p[at..at + n]
  {
  }

  /**
    The send loop.  `buf` holds the rank's data; count is in elements of `unit` bytes, `per` of them
    to a block: the user's elements for a root 0, single bytes for everybody else.
   */
  method SendLoop<T>(ghost s: Scatter<T>, rank: nat, size: nat, bytes: nat, relrank: nat, mask0: nat, count0: nat,
                     per: nat, unit: nat, buf: array?<T>)
    returns (outbox: seq<Message<T>>, next: nat)
    requires s.Valid() && size == s.size && bytes == s.bytes && rank < size && relrank == Rel(s, rank) && mask0 == Mask(relrank, s.size) / 2
    requires per * unit == s.bytes
    requires mask0 > 0 ==> count0 == Span(relrank, s.size) * per
    requires mask0 > 0 ==> buf != null && Chunk(s, relrank) <= buf[..]
    ensures outbox == Outbox(s, relrank) && next == |outbox| <= CeilLog2(s.size)
  {
    var mask := mask0;
    var count: int := count0;
    outbox, next := [], 0;
    if mask == 0 {
      SameCount(s, relrank, mask);
      return;
    }
    ghost var reach := Mask(relrank, size);
    SendStart(s, relrank, per);
    while mask > 0
      invariant SendState(s, relrank, mask, reach, outbox, count, per)
      invariant next == |outbox|
      decreases mask
    {
      if relrank + mask < size {
        var m, subcount := SendChild(s, rank, size, bytes, relrank, mask, reach, outbox, count, per, unit, buf);
        SendStep(s, relrank, mask, reach, outbox, count, per);
        outbox, next := outbox + [m], next + 1;
        count := count - subcount;
      } else {
        SkipStep(s, relrank, mask, reach, outbox, count, per);
      }
      reach := mask;
      mask := mask / 2;
    }
    SendsDone(s, relrank, outbox);
  }

  lemma PayloadSize(n: nat, subcount: int, per: nat, unit: nat, bytes: nat)
    requires subcount == n * per && per * unit == bytes
    ensures subcount >= 0 && subcount * unit == n * bytes
  {
  }

  lemma SendsDone<T>(s: Scatter<T>, r: nat, outbox: seq<Message<T>>)
    requires s.Valid() && r < s.size && outbox + Sends(s, r, 0) == Outbox(s, r)
    ensures outbox == Outbox(s, r) && |outbox| <= CeilLog2(s.size)
  {
    SameCount(s, r, Mask(r, s.size) / 2);
    SendsFitRequests(r, s.size);
  }

  // ----- The whole routine -----

  lemma RootCounts(sendcount: nat, sendsize: nat, bytes: nat, n: nat)
    requires sendsize * sendcount == bytes
    ensures (sendcount * n) * sendsize == bytes * n
  {
  }

  lemma StageBounds(size: nat, rank: nat, bytes: nat)
    requires rank < size
    ensures bytes * rank + bytes * (size - rank) == bytes * size == size * bytes && bytes * rank == rank * bytes
    ensures 0 <= bytes * rank && 0 <= bytes * (size - rank)
  {
    Times(rank, size - rank, bytes);
  }

  /** The root stages its buffer in relative order unless it is rank 0. */
  method StageRoot<T(0)>(ghost s: Scatter<T>, rank: nat, size: nat, bytes: nat, sendbuf: array<T>, sendcount: nat, sendsize: nat)
    returns (tmpbuf: array<T>)
    requires s.Valid() && size == s.size && bytes == s.bytes && rank == s.root
    requires sendbuf[..] == s.sendbuf && sendsize * sendcount == bytes
    ensures fresh(tmpbuf) && tmpbuf[..] == Rotated(s)
  {
    StageBounds(size, rank, bytes);
    RootCounts(sendcount, sendsize, bytes, size - rank);
    RootCounts(sendcount, sendsize, bytes, rank);
    tmpbuf := new T[bytes * size];
    var low, high := bytes * rank, bytes * (size - rank);
    DatatypeCopy(sendbuf, low, sendcount * (size - rank), sendsize, tmpbuf, 0, high, 1);
    DatatypeCopy(sendbuf, 0, sendcount * rank, sendsize, tmpbuf, high, low, 1);
    StageIsRotation(s.sendbuf, tmpbuf[..], low, high);
  }

  lemma StageIsRotation<T>(send: seq<T>, tmp: seq<T>, low: nat, high: nat)
    requires |send| == low + high == |tmp|
    requires tmp[..high] == send[low..] && tmp[high..] == send[..low]
    ensures tmp == send[low..] + send[..low]
  {
    assert tmp == tmp[..high] + tmp[high..];
  }

  /** The arguments one rank passes, consistent with the scatter as a whole. */
  ghost predicate Arguments<T>(s: Scatter<T>, rank: nat, size: nat, root: nat, sendbuf: array?<T>, sendcount: nat, sendsize: nat,
                               recvbuf: array<T>, recvcount: nat, recvsize: nat)
    reads sendbuf
  {
    && s.Valid() && size == s.size && root == s.root && rank < size
    && sendsize * sendcount == s.bytes && recvsize * recvcount == s.bytes && (sendcount == 0 <==> recvcount == 0)
    && sendbuf != recvbuf && s.bytes <= recvbuf.Length
    && (rank == root ==> sendbuf != null && sendbuf[..] == s.sendbuf)
  }

  /** What an inner rank receives fits its temporary buffer of half of all bytes. */
  lemma InnerFits<T>(s: Scatter<T>, r: nat)
    requires s.Valid() && 0 < r < s.size
    ensures |Chunk(s, r)| <= (s.bytes * s.size) / 2
  {
    InnerSpanAtMostHalf(r, s.size);
    HalfOf(Span(r, s.size), s.size, s.bytes);
  }

  lemma HalfOf(n: nat, size: nat, b: nat)
    requires 2 * n <= size
    ensures n * b <= (b * size) / 2
  {
    Times(2 * n, size, b);
    assert 2 * n * b == 2 * (n * b);
  }

  /** An odd relative rank is a leaf: it receives its own block only. */
  lemma LeafChunk<T>(s: Scatter<T>, rank: nat)
    requires s.Valid() && rank < s.size && Rel(s, rank) % 2 == 1
    ensures Chunk(s, Rel(s, rank)) == Block(s, rank)
  {
    RotatedBlock(s, rank);
  }

  /** The first block of a rank's data is its own. */
  lemma OwnBlock<T>(s: Scatter<T>, rank: nat, data: seq<T>)
    requires s.Valid() && rank < s.size && Chunk(s, Rel(s, rank)) <= data
    ensures s.bytes <= |data| && data[..s.bytes] == Block(s, rank)
  {
    var r := Rel(s, rank);
    SubBlocks(s, r, Span(r, s.size), 0, 1);
    RotatedBlock(s, rank);
    assert Chunk(s, r)[0 * s.bytes..0 * s.bytes + 1 * s.bytes] == Block(s, rank);
    PrefixSlice(data, Chunk(s, r), 0, s.bytes);
  }

  /** A root 0 sends straight from its buffer: nothing is rotated. */
  lemma RootZero<T>(s: Scatter<T>)
    requires s.Valid() && s.root == 0
    ensures Chunk(s, 0) == s.sendbuf
  {
    assert Rotated(s) == s.sendbuf;
  }

  lemma RootChunk<T>(s: Scatter<T>)
    requires s.Valid()
    ensures Chunk(s, 0) == Rotated(s)
  {
  }

  /** Gets the rank's data in place: staged by the root, received by the others. */
  method ObtainData<T(0)>(ghost s: Scatter<T>, rank: nat, size: nat, root: nat, relrank: nat, bytes: nat,
                          sendbuf: array?<T>, sendcount: nat, sendsize: nat,
                          recvbuf: array<T>, ghost recvcount: nat, ghost recvsize: nat, incoming: seq<T>)
    returns (mask: nat, source: Option<nat>, tmpbuf: array?<T>, count: nat)
    requires Arguments(s, rank, size, root, sendbuf, sendcount, sendsize, recvbuf, recvcount, recvsize)
    requires relrank == Rel(s, rank) && bytes == s.bytes
    requires rank != root ==> incoming == Chunk(s, relrank)
    modifies recvbuf
    ensures mask == Mask(relrank, size)
    ensures source == if relrank == 0 then None else Some(Abs(s, Parent(relrank)))
    ensures relrank % 2 == 1 ==> recvbuf[..] == Overwrite(old(recvbuf[..]), 0, Block(s, rank))
    ensures relrank % 2 == 0 ==> recvbuf[..] == old(recvbuf[..])
    ensures relrank % 2 == 0 && rank + root > 0 ==> tmpbuf != null && fresh(tmpbuf) && Chunk(s, relrank) <= tmpbuf[..]
    ensures rank == root == 0 ==> count == size * sendcount
    ensures relrank % 2 == 0 && rank + root > 0 ==> count == Span(relrank, size) * bytes
  {
    tmpbuf, count := null, 0;
    if rank == root {
      if root != 0 {
        tmpbuf := StageRoot(s, rank, size, bytes, sendbuf, sendcount, sendsize);
        count := bytes * size;
        RootChunk(s);
      } else {
        count := sendcount * size;
      }
    }
    mask, source := FindSource(s, rank, size, root, relrank);
    if source.Some? {
      if relrank % 2 == 1 {
        LeafChunk(s, rank);
        Memcpy(recvbuf, 0, incoming);
      } else {
        InnerFits(s, relrank);
        tmpbuf := new T[(bytes * size) / 2];
        Memcpy(tmpbuf, 0, incoming);
        count := |incoming|;
      }
    }
  }

  /**
    binomial_tree_scatter, as run by one rank.  It receives from the rank of its parent, sends every
    child its whole subtree, and leaves exactly its own block in recvbuf.  With nothing to send or
    receive it returns at once.
   */
  method BinomialTreeScatter<T(0)>(ghost s: Scatter<T>, rank: nat, size: nat, root: nat,
                                   sendbuf: array?<T>, sendcount: nat, sendsize: nat,
                                   recvbuf: array<T>, recvcount: nat, recvsize: nat, incoming: seq<T>)
    returns (source: Option<nat>, outbox: seq<Message<T>>)
    requires Arguments(s, rank, size, root, sendbuf, sendcount, sendsize, recvbuf, recvcount, recvsize)
    requires rank != root && recvcount > 0 ==> incoming == Chunk(s, Rel(s, rank))
    modifies recvbuf
    ensures sendcount == 0 ==> source == None && outbox == [] && recvbuf[..] == old(recvbuf[..])
    ensures sendcount > 0 ==> source == if rank == root then None else Some(Abs(s, Parent(Rel(s, rank))))
    ensures sendcount > 0 ==> outbox == Outbox(s, Rel(s, rank))
    ensures sendcount > 0 ==> recvbuf[..] == Overwrite(old(recvbuf[..]), 0, Block(s, rank))
  {
    if (rank == root && sendcount == 0) || (rank != root && recvcount == 0) {
      return None, [];
    }
    var relrank := if rank >= root then rank - root else rank - root + size;
    var bytes := if rank == root then sendsize * sendcount else recvsize * recvcount;
    var mask, tmpbuf, count, next;
    mask, source, tmpbuf, count := ObtainData(s, rank, size, root, relrank, bytes, sendbuf, sendcount, sendsize,
                                              recvbuf, recvcount, recvsize, incoming);
    if rank == root && root == 0 {
      RootZero(s);
      outbox, next := SendLoop(s, rank, size, bytes, relrank, mask / 2, count, sendcount, sendsize, sendbuf);
      OwnBlock(s, rank, sendbuf[..]);
      CopyOut(s, rank, sendbuf, sendcount, sendsize, recvbuf, recvcount, recvsize);
    } else {
      outbox, next := SendLoop(s, rank, size, bytes, relrank, mask / 2, count, bytes, 1, tmpbuf);
      if relrank % 2 == 0 {
        OwnBlock(s, rank, tmpbuf[..]);
        CopyOut(s, rank, tmpbuf, bytes, 1, recvbuf, recvcount, recvsize);
      }
    }
  }

  /** Copies the rank's own block, the first of its data, to the receive buffer. */
  method CopyOut<T>(ghost s: Scatter<T>, ghost rank: nat, data: array<T>, count: nat, unit: nat,
                    recvbuf: array<T>, recvcount: nat, recvsize: nat)
    requires s.Valid() && rank < s.size && data != recvbuf && s.bytes <= recvbuf.Length
    requires count * unit == s.bytes && recvcount * recvsize == s.bytes
    requires s.bytes <= data.Length && data[..s.bytes] == Block(s, rank)
    modifies recvbuf
    ensures recvbuf[..] == Overwrite(old(recvbuf[..]), 0, Block(s, rank))
  {
    assert data[0..s.bytes] == data[..s.bytes];
    DatatypeCopy(data, 0, count, unit, recvbuf, 0, recvcount, recvsize);
  }
}
