/**
  All ranks together: a system of steps with messages in flight, and the proof that every run ends
  with the scatter done.

  The ranks are listed by relative rank; `Abs` gives the rank a process has.  Messages may be
  delivered in any order.  A rank may leave its final wait as soon as it has posted its sends (the
  messages are buffered) or only once they have been received; both are runs of the system.
 */
module ScatterSystem {
  import opened ScatterTree
  import opened ScatterRank

  /** Waiting in the receive; sending, with the data it holds and the number of sends posted; or returned. */
  datatype Phase<T> = Waiting | Sending(data: seq<T>, sent: nat) | Done

  datatype Process<T> = Process(phase: Phase<T>, recvbuf: seq<T>)

  /** `log` keeps every message ever sent. */
  datatype System<T(==)> = System(ranks: seq<Process<T>>, net: multiset<Message<T>>, log: multiset<Message<T>>)

  /** A scatter of something: with nothing to send every rank returns at once. */
  ghost predicate Setting<T(!new)>(s: Scatter<T>, bufs: seq<seq<T>>) {
    s.Valid() && s.bytes > 0 && |bufs| == s.size && forall r :: 0 <= r < s.size ==> |bufs[r]| >= s.bytes
  }

  ghost function Init<T(!new)>(s: Scatter<T>, bufs: seq<seq<T>>): System<T>
    requires Setting(s, bufs)
  {
    System(seq(s.size, r requires 0 <= r < s.size => Process(if r == 0 then Sending(Rotated(s), 0) else Waiting, bufs[r])),
           multiset{}, multiset{})
  }

  // ----- Steps -----

  /** The room for the one message a rank receives: the receive buffer of a leaf, or the temporary one. */
  function Room<T(!new)>(s: Scatter<T>, r: nat): nat {
    if r % 2 == 1 then s.bytes else (s.bytes * s.size) / 2
  }

  /** Relative rank r takes a message from its parent that fits; a leaf takes it into its receive buffer. */
  ghost predicate Receive<T(!new)>(s: Scatter<T>, st: System<T>, st': System<T>, r: nat, m: Message<T>) {
    && 0 < r < s.size && s.root < s.size && |st.ranks| == s.size && st.ranks[r].phase.Waiting?
    && m in st.net && m.dst == Abs(s, r) && m.src == Abs(s, Parent(r))
    && |m.payload| <= Room(s, r) && |m.payload| <= |st.ranks[r].recvbuf| + (if r % 2 == 1 then 0 else |m.payload|)
    && var buf := if r % 2 == 1 then Overwrite(st.ranks[r].recvbuf, 0, m.payload) else st.ranks[r].recvbuf;
       st' == System(st.ranks[r := Process(Sending(m.payload, 0), buf)], st.net - multiset{m}, st.log)
  }

  /** The k-th message a rank cuts out of the data it holds. */
  ghost predicate Cut<T(!new)>(s: Scatter<T>, r: nat, data: seq<T>, c: nat, m: Message<T>) {
    && r < c < s.size && s.root < s.size
    && var at, n := (c - r) * s.bytes, Span(c, s.size) * s.bytes;
       at >= 0 && n >= 0 && at + n <= |data| && m == Message(Abs(s, r), Abs(s, c), data[at..at + n])
  }

  ghost predicate Send<T(!new)>(s: Scatter<T>, st: System<T>, st': System<T>, r: nat, m: Message<T>) {
    && r < s.size == |st.ranks| && st.ranks[r].phase.Sending?
    && var Sending(data, k) := st.ranks[r].phase;
       && k < |ChildrenOf(r, s.size)| && Cut(s, r, data, ChildrenOf(r, s.size)[k], m)
       && st' == System(st.ranks[r := st.ranks[r].(phase := Sending(data, k + 1))],
                        st.net + multiset{m}, st.log + multiset{m})
  }

  /** All sends posted, the rank copies its block out (a leaf has it already) and returns. */
  ghost predicate Finish<T(!new)>(s: Scatter<T>, st: System<T>, st': System<T>, r: nat) {
    && r < s.size == |st.ranks| && st.ranks[r].phase.Sending?
    && var Process(Sending(data, k), buf) := st.ranks[r];
       && k == |ChildrenOf(r, s.size)| && s.bytes <= |data| && s.bytes <= |buf|
       && var buf' := if r % 2 == 1 then buf else Overwrite(buf, 0, data[..s.bytes]);
          st' == System(st.ranks[r := Process(Done, buf')], st.net, st.log)
  }

  ghost predicate Next<T(!new)>(s: Scatter<T>, st: System<T>, st': System<T>) {
    || (exists r, m :: Receive(s, st, st', r, m))
    || (exists r, m :: Send(s, st, st', r, m))
    || (exists r :: Finish(s, st, st', r))
  }

  /** None of r's messages is still on its way. */
  ghost predicate Delivered<T(!new)>(s: Scatter<T>, st: System<T>, r: nat)
    requires s.root < s.size && r < s.size
  {
    forall m :: m in st.net ==> m.src != Abs(s, r)
  }

  /** A step that no MPI implementation can put off: a finish counts only once the sends are received. */
  ghost predicate CertainStep<T(!new)>(s: Scatter<T>, st: System<T>, st': System<T>) {
    || (exists r, m :: Receive(s, st, st', r, m))
    || (exists r, m :: Send(s, st, st', r, m))
    || (exists r :: s.root < s.size && Finish(s, st, st', r) && Delivered(s, st, r))
  }

  // ----- The invariant -----

  /** The number of sends a rank has posted. */
  ghost function SentCount<T(!new)>(s: Scatter<T>, st: System<T>, r: nat): nat
    requires r < |st.ranks|
  {
    match st.ranks[r].phase
    case Waiting => 0
    case Sending(_, k) => k
    case Done => |ChildrenOf(r, s.size)|
  }

  /** The parent of c has posted its message to c. */
  ghost predicate ChildSent<T(!new)>(s: Scatter<T>, st: System<T>, c: nat)
    requires 0 < c < |st.ranks|
  {
    exists k :: 0 <= k < SentCount(s, st, Parent(c)) && k < |ChildrenOf(Parent(c), s.size)|
                && ChildrenOf(Parent(c), s.size)[k] == c
  }

  ghost predicate IsSent<T(!new)>(s: Scatter<T>, st: System<T>, m: Message<T>)
    requires s.Valid() && |st.ranks| == s.size
  {
    m.dst < s.size && Rel(s, m.dst) > 0 && m == MessageTo(s, Rel(s, m.dst)) && ChildSent(s, st, Rel(s, m.dst))
  }

  ghost predicate RankOk<T(!new)>(s: Scatter<T>, buf: seq<T>, r: nat, p: Process<T>)
    requires s.Valid() && r < s.size && s.bytes <= |buf|
  {
    match p.phase
    case Waiting => r > 0 && p.recvbuf == buf
    case Sending(data, k) =>
      && data == Chunk(s, r) && k <= |ChildrenOf(r, s.size)|
      && p.recvbuf == if r % 2 == 1 then Overwrite(buf, 0, Block(s, Abs(s, r))) else buf
    case Done => p.recvbuf == Overwrite(buf, 0, Block(s, Abs(s, r)))
  }

  ghost predicate RanksOk<T(!new)>(s: Scatter<T>, bufs: seq<seq<T>>, st: System<T>) {
    && Setting(s, bufs) && |st.ranks| == s.size
    && (forall r :: 0 <= r < s.size ==> RankOk(s, bufs[r], r, st.ranks[r]))
    && (forall c :: 0 < c < s.size && !st.ranks[c].phase.Waiting? ==> ChildSent(s, st, c))
  }

  /** Exactly the posted messages have been logged, once each; in flight are those not yet received. */
  ghost predicate MessagesOk<T(!new)>(s: Scatter<T>, st: System<T>) {
    && s.Valid() && |st.ranks| == s.size
    && (forall m :: st.log[m] == if IsSent(s, st, m) then 1 else 0)
    && (forall m :: st.net[m] == if IsSent(s, st, m) && st.ranks[Rel(s, m.dst)].phase.Waiting? then 1 else 0)
  }

  ghost predicate Inv<T(!new)>(s: Scatter<T>, bufs: seq<seq<T>>, st: System<T>) {
    RanksOk(s, bufs, st) && MessagesOk(s, st)
  }

  lemma InitInv<T(!new)>(s: Scatter<T>, bufs: seq<seq<T>>)
    requires Setting(s, bufs)
    ensures Inv(s, bufs, Init(s, bufs))
  {
    RootChunk(s);
  }

  lemma RelAbs<T(!new)>(s: Scatter<T>, q: nat)
    requires s.root < s.size && q < s.size
    ensures Abs(s, Rel(s, q)) == q
  {
  }

  /** The only message that can arrive at a waiting rank is the one its parent has for it. */
  lemma ArrivalIsOwn<T(!new)>(s: Scatter<T>, bufs: seq<seq<T>>, st: System<T>, st': System<T>, r: nat, m: Message<T>)
    requires Inv(s, bufs, st) && Receive(s, st, st', r, m)
    ensures m == MessageTo(s, r) && ChildSent(s, st, r) && m.payload == Chunk(s, r)
  {
    assert st.net[m] > 0;
  }

  /** Sends already posted stay posted. */
  lemma SentGrows<T(!new)>(s: Scatter<T>, st: System<T>, st': System<T>, c: nat)
    requires |st.ranks| == |st'.ranks| && 0 < c < |st.ranks|
    requires SentCount(s, st, Parent(c)) <= SentCount(s, st', Parent(c))
    ensures ChildSent(s, st, c) ==> ChildSent(s, st', c)
  {
    if ChildSent(s, st, c) {
      var k :| 0 <= k < SentCount(s, st, Parent(c)) && k < |ChildrenOf(Parent(c), s.size)|
               && ChildrenOf(Parent(c), s.size)[k] == c;
    }
  }

  /** A step that posts no message leaves the set of sent messages as it is. */
  lemma SameSent<T(!new)>(s: Scatter<T>, st: System<T>, st': System<T>)
    requires |st.ranks| == |st'.ranks| == s.size && s.Valid()
    requires forall r :: 0 <= r < s.size ==> SentCount(s, st, r) == SentCount(s, st', r)
    ensures forall c :: 0 < c < s.size ==> ChildSent(s, st, c) == ChildSent(s, st', c)
    ensures forall m :: IsSent(s, st, m) == IsSent(s, st', m)
  {
    forall c | 0 < c < s.size
      ensures ChildSent(s, st, c) == ChildSent(s, st', c)
    {
      SentGrows(s, st, st', c);
      SentGrows(s, st', st, c);
    }
  }

  lemma ReceiveKeepsInv<T(!new)>(s: Scatter<T>, bufs: seq<seq<T>>, st: System<T>, st': System<T>, r: nat, m: Message<T>)
    requires Inv(s, bufs, st) && Receive(s, st, st', r, m)
    ensures Inv(s, bufs, st')
  {
    hide Rel, Abs, Chunk, Room, MessageTo, Overwrite, RankOk;
    ArrivalIsOwn(s, bufs, st, st', r, m);
    SameSent(s, st, st');
    ReceiveKeepsRanks(s, bufs, st, st', r, m);
    ReceiveKeepsMessages(s, st, st', r, m);
  }

  lemma ReceiveKeepsRanks<T(!new)>(s: Scatter<T>, bufs: seq<seq<T>>, st: System<T>, st': System<T>, r: nat, m: Message<T>)
    requires RanksOk(s, bufs, st) && Receive(s, st, st', r, m) && m.payload == Chunk(s, r) && ChildSent(s, st, r)
    requires forall c :: 0 < c < s.size ==> ChildSent(s, st, c) == ChildSent(s, st', c)
    ensures RanksOk(s, bufs, st')
  {
    ReceivedOk(s, bufs[r], r, st.ranks[r], st'.ranks[r], m);
  }

  lemma ReceivedOk<T(!new)>(s: Scatter<T>, buf: seq<T>, r: nat, p: Process<T>, p': Process<T>, m: Message<T>)
    requires s.Valid() && 0 < r < s.size && s.bytes <= |buf| && RankOk(s, buf, r, p) && p.phase.Waiting?
    requires m.payload == Chunk(s, r) && |m.payload| <= Room(s, r)
    requires r % 2 == 1 ==> |m.payload| <= |p.recvbuf|
    requires p' == Process(Sending(m.payload, 0), if r % 2 == 1 then Overwrite(p.recvbuf, 0, m.payload) else p.recvbuf)
    ensures RankOk(s, buf, r, p')
  {
    if r % 2 == 1 {
      LeafChunk(s, Abs(s, r));
    }
  }

  lemma ReceiveKeepsMessages<T(!new)>(s: Scatter<T>, st: System<T>, st': System<T>, r: nat, m: Message<T>)
    requires MessagesOk(s, st) && Receive(s, st, st', r, m) && m == MessageTo(s, r)
    requires forall n :: IsSent(s, st, n) == IsSent(s, st', n)
    ensures MessagesOk(s, st')
  {
    forall n
      ensures st'.net[n] == if IsSent(s, st', n) && st'.ranks[Rel(s, n.dst)].phase.Waiting? then 1 else 0
    {
      assert st.net[n] == if IsSent(s, st, n) && st.ranks[Rel(s, n.dst)].phase.Waiting? then 1 else 0;
    }
  }

  lemma FinishKeepsInv<T(!new)>(s: Scatter<T>, bufs: seq<seq<T>>, st: System<T>, st': System<T>, r: nat)
    requires Inv(s, bufs, st) && Finish(s, st, st', r)
    ensures Inv(s, bufs, st')
  {
    hide Overwrite, MessageTo, ChildSent, Chunk;
    SameSent(s, st, st');
    OwnBlock(s, Abs(s, r), Chunk(s, r));
    forall n
      ensures st'.net[n] == if IsSent(s, st', n) && st'.ranks[Rel(s, n.dst)].phase.Waiting? then 1 else 0
    {
      assert st.net[n] == if IsSent(s, st, n) && st.ranks[Rel(s, n.dst)].phase.Waiting? then 1 else 0;
    }
  }

  /** A child's subtree lies inside its parent's. */
  lemma SpanInside(r: nat, c: nat, size: nat)
    requires 0 < c < size && Parent(c) == r
    ensures c - r + Span(c, size) <= Span(r, size)
  {
    if r > 0 {
      LowBitOfParent(c);
      LowBitIsPower(c);
      LowBitIsPower(r);
      PowerBelow(LowBit(c), LowBit(r));
    }
  }

  /** What a rank with the right data cuts out for a child is the child's message. */
  lemma CutIsMessage<T(!new)>(s: Scatter<T>, r: nat, c: nat, m: Message<T>)
    requires s.Valid() && r < s.size && c in ChildrenOf(r, s.size) && c < s.size
    ensures c > 0 && Parent(c) == r
    ensures Cut(s, r, Chunk(s, r), c, m) <==> m == MessageTo(s, c)
  {
    TreeExact(r, c, s.size);
    SpanInside(r, c, s.size);
    SubBlocks(s, r, Span(r, s.size), c - r, Span(c, s.size));
    Nonnegative(c - r, Span(c, s.size), s.bytes);
  }

  lemma Nonnegative(m: nat, n: nat, b: nat)
    ensures m * b >= 0 && n * b >= 0
  {
  }

  lemma ChildInRange(r: nat, k: nat, size: nat)
    requires r < size && k < |ChildrenOf(r, size)|
    ensures r < ChildrenOf(r, size)[k] < size && Parent(ChildrenOf(r, size)[k]) == r
  {
    MaskIsPower(r, size);
    ChildrenHaveParent(r, Mask(r, size) / 2, size);
  }

  /** Posting the k-th send of r makes exactly the k-th child's message sent. */
  lemma SendPosts<T(!new)>(s: Scatter<T>, st: System<T>, st': System<T>, r: nat, k: nat, c: nat)
    requires s.Valid() && |st.ranks| == |st'.ranks| == s.size && r < s.size && k < |ChildrenOf(r, s.size)|
    requires ChildrenOf(r, s.size)[k] == c && 0 < c < s.size && Parent(c) == r
    requires SentCount(s, st, r) == k && SentCount(s, st', r) == k + 1
    requires forall p :: 0 <= p < s.size && p != r ==> SentCount(s, st, p) == SentCount(s, st', p)
    ensures !ChildSent(s, st, c)
    ensures forall d :: 0 < d < s.size ==> (ChildSent(s, st', d) <==> ChildSent(s, st, d) || d == c)
  {
    TreeExact(r, c, s.size);
    assert ChildSent(s, st', c);
    forall d | 0 < d < s.size
      ensures ChildSent(s, st', d) <==> ChildSent(s, st, d) || d == c
    {
      SentGrows(s, st, st', d);
      if Parent(d) != r {
        SentGrows(s, st', st, d);
      } else if ChildSent(s, st', d) {
        var j :| 0 <= j < SentCount(s, st', Parent(d)) && j < |ChildrenOf(Parent(d), s.size)|
                 && ChildrenOf(Parent(d), s.size)[j] == d;
        assert j < k || d == c;
      }
    }
  }

  lemma SentNext<T(!new)>(s: Scatter<T>, st: System<T>, st': System<T>, c: nat, m: Message<T>)
    requires s.Valid() && |st.ranks| == |st'.ranks| == s.size && 0 < c < s.size && m == MessageTo(s, c)
    requires forall d :: 0 < d < s.size ==> (ChildSent(s, st', d) <==> ChildSent(s, st, d) || d == c)
    ensures forall n :: IsSent(s, st', n) <==> IsSent(s, st, n) || n == m
  {
    hide Chunk, ChildSent;
    forall n
      ensures IsSent(s, st', n) <==> IsSent(s, st, n) || n == m
    {
    }
  }

  /** One more message, to a rank that still waits for it. */
  lemma SendKeepsMessages<T(!new)>(s: Scatter<T>, st: System<T>, st': System<T>, m: Message<T>)
    requires MessagesOk(s, st) && |st'.ranks| == s.size && !IsSent(s, st, m)
    requires st'.net == st.net + multiset{m} && st'.log == st.log + multiset{m}
    requires forall n :: IsSent(s, st', n) <==> IsSent(s, st, n) || n == m
    requires forall p :: 0 <= p < s.size ==> st'.ranks[p].phase.Waiting? == st.ranks[p].phase.Waiting?
    requires m.dst < s.size && st.ranks[Rel(s, m.dst)].phase.Waiting?
    ensures MessagesOk(s, st')
  {
    hide Rel, MessageTo, ChildSent;
    forall n
      ensures st'.log[n] == if IsSent(s, st', n) then 1 else 0
    {
    }
    forall n
      ensures st'.net[n] == if IsSent(s, st', n) && st'.ranks[Rel(s, n.dst)].phase.Waiting? then 1 else 0
    {
      assert st.net[n] == if IsSent(s, st, n) && st.ranks[Rel(s, n.dst)].phase.Waiting? then 1 else 0;
    }
  }

  /** What is cut out of the sender's data is the child's message, and the child still waits for it. */
  lemma SendIsMessage<T(!new)>(s: Scatter<T>, bufs: seq<seq<T>>, st: System<T>, st': System<T>, r: nat, m: Message<T>, c: nat)
    requires RanksOk(s, bufs, st) && Send(s, st, st', r, m)
    requires c == ChildrenOf(r, s.size)[st.ranks[r].phase.sent] && c < s.size
    ensures 0 < c && Parent(c) == r && m == MessageTo(s, c)
  {
    hide Abs, Chunk, Cut, MessageTo, Overwrite, ChildSent;
    assert RankOk(s, bufs[r], r, st.ranks[r]);
    CutIsMessage(s, r, c, m);
  }

  /** Only the sender's count moves. */
  lemma SendCounts<T(!new)>(s: Scatter<T>, st: System<T>, st': System<T>, r: nat, m: Message<T>)
    requires s.Valid() && Send(s, st, st', r, m)
    ensures |st'.ranks| == s.size && SentCount(s, st, r) == st.ranks[r].phase.sent
    ensures SentCount(s, st', r) == st.ranks[r].phase.sent + 1
    ensures forall p :: 0 <= p < s.size && p != r ==> SentCount(s, st, p) == SentCount(s, st', p)
    ensures forall p :: 0 <= p < s.size ==> st'.ranks[p].phase.Waiting? == st.ranks[p].phase.Waiting?
  {
    hide Cut;
  }

  lemma SendKeepsRanks<T(!new)>(s: Scatter<T>, bufs: seq<seq<T>>, st: System<T>, st': System<T>, r: nat, m: Message<T>)
    requires RanksOk(s, bufs, st) && Send(s, st, st', r, m)
    requires forall d :: 0 < d < s.size && ChildSent(s, st, d) ==> ChildSent(s, st', d)
    ensures RanksOk(s, bufs, st')
  {
    hide Cut, ChildSent, Chunk, Overwrite, Abs;
    assert RankOk(s, bufs[r], r, st.ranks[r]);
  }

  lemma SendKeepsInv<T(!new)>(s: Scatter<T>, bufs: seq<seq<T>>, st: System<T>, st': System<T>, r: nat, m: Message<T>)
    requires Inv(s, bufs, st) && Send(s, st, st', r, m)
    ensures Inv(s, bufs, st')
  {
    hide Rel, Abs, Chunk, Cut, MessagesOk, ChildSent, SentCount;
    var k := st.ranks[r].phase.sent;
    var c := ChildrenOf(r, s.size)[k];
    ChildInRange(r, k, s.size);
    SendIsMessage(s, bufs, st, st', r, m, c);
    SendCounts(s, st, st', r, m);
    SendPosts(s, st, st', r, k, c);
    SentNext(s, st, st', c, m);
    SendKeepsMessages(s, st, st', m);
    SendKeepsRanks(s, bufs, st, st', r, m);
  }

  /** Every step keeps the invariant. */
  lemma NextKeepsInv<T(!new)>(s: Scatter<T>, bufs: seq<seq<T>>, st: System<T>, st': System<T>)
    requires Inv(s, bufs, st) && Next(s, st, st')
    ensures Inv(s, bufs, st')
  {
    if r, m :| Receive(s, st, st', r, m) {
      ReceiveKeepsInv(s, bufs, st, st', r, m);
    } else if r, m :| Send(s, st, st', r, m) {
      SendKeepsInv(s, bufs, st, st', r, m);
    } else {
      var r :| Finish(s, st, st', r);
      FinishKeepsInv(s, bufs, st, st', r);
    }
  }

  // ----- No deadlock -----

  /** The first waiting rank, if any rank waits. */
  lemma {:induction false} FirstWaiting<T(!new)>(st: System<T>, n: nat) returns (r: nat)
    requires n < |st.ranks| && st.ranks[n].phase.Waiting?
    ensures r <= n && st.ranks[r].phase.Waiting?
    ensures forall p :: 0 <= p < r ==> !st.ranks[p].phase.Waiting?
  {
    if p: nat :| p < n && st.ranks[p].phase.Waiting? {
      r := FirstWaiting(st, p);
    } else {
      r := n;
    }
  }

  ghost predicate AllDone<T(!new)>(st: System<T>) {
    forall r :: 0 <= r < |st.ranks| ==> st.ranks[r].phase.Done?
  }

  lemma CanReceive<T(!new)>(s: Scatter<T>, bufs: seq<seq<T>>, st: System<T>, r: nat) returns (st': System<T>)
    requires Inv(s, bufs, st) && 0 < r < s.size && st.ranks[r].phase.Waiting? && ChildSent(s, st, r)
    ensures CertainStep(s, st, st')
  {
    var m := MessageTo(s, r);
    assert IsSent(s, st, m);
    assert st.net[m] == 1;
    RoomFits(s, r);
    assert RankOk(s, bufs[r], r, st.ranks[r]);
    var buf := if r % 2 == 1 then Overwrite(st.ranks[r].recvbuf, 0, m.payload) else st.ranks[r].recvbuf;
    st' := System(st.ranks[r := Process(Sending(m.payload, 0), buf)], st.net - multiset{m}, st.log);
    assert Receive(s, st, st', r, m);
  }

  /** No message is ever longer than the buffer it is received into. */
  lemma RoomFits<T(!new)>(s: Scatter<T>, r: nat)
    requires s.Valid() && 0 < r < s.size
    ensures |Chunk(s, r)| <= Room(s, r)
    ensures r % 2 == 1 ==> |Chunk(s, r)| == s.bytes
  {
    InnerFits(s, r);
    if r % 2 == 1 {
      LeafChunk(s, Abs(s, r));
    }
  }

  lemma CanSend<T(!new)>(s: Scatter<T>, bufs: seq<seq<T>>, st: System<T>, r: nat) returns (st': System<T>)
    requires Inv(s, bufs, st) && r < s.size && st.ranks[r].phase.Sending?
    requires st.ranks[r].phase.sent < |ChildrenOf(r, s.size)|
    ensures CertainStep(s, st, st')
  {
    assert RankOk(s, bufs[r], r, st.ranks[r]);
    var Sending(data, k) := st.ranks[r].phase;
    var c := ChildrenOf(r, s.size)[k];
    ChildInRange(r, k, s.size);
    CutIsMessage(s, r, c, MessageTo(s, c));
    st' := Posted(s, st, r, data, k, MessageTo(s, c));
  }

  lemma Posted<T(!new)>(s: Scatter<T>, st: System<T>, r: nat, data: seq<T>, k: nat, m: Message<T>) returns (st': System<T>)
    requires r < s.size == |st.ranks| && st.ranks[r].phase == Sending(data, k)
    requires k < |ChildrenOf(r, s.size)| && Cut(s, r, data, ChildrenOf(r, s.size)[k], m)
    ensures CertainStep(s, st, st')
  {
    st' := System(st.ranks[r := st.ranks[r].(phase := Sending(data, k + 1))], st.net + multiset{m}, st.log + multiset{m});
    assert Send(s, st, st', r, m);
  }

  /** With nobody waiting, nothing is in flight. */
  lemma NobodyWaits<T(!new)>(s: Scatter<T>, st: System<T>)
    requires MessagesOk(s, st) && forall p :: 0 <= p < s.size ==> !st.ranks[p].phase.Waiting?
    ensures st.net == multiset{}
  {
    forall m
      ensures st.net[m] == 0
    {
    }
  }

  lemma CanFinish<T(!new)>(s: Scatter<T>, bufs: seq<seq<T>>, st: System<T>, r: nat) returns (st': System<T>)
    requires Inv(s, bufs, st) && r < s.size && st.ranks[r].phase.Sending?
    requires st.ranks[r].phase.sent == |ChildrenOf(r, s.size)|
    requires forall p :: 0 <= p < s.size ==> !st.ranks[p].phase.Waiting?
    ensures CertainStep(s, st, st')
  {
    assert RankOk(s, bufs[r], r, st.ranks[r]);
    OwnBlock(s, Abs(s, r), Chunk(s, r));
    var Process(Sending(data, k), buf) := st.ranks[r];
    var buf' := if r % 2 == 1 then buf else Overwrite(buf, 0, data[..s.bytes]);
    st' := System(st.ranks[r := Process(Done, buf')], st.net, st.log);
    NobodyWaits(s, st);
    assert Finish(s, st, st', r) && Delivered(s, st, r);
  }

  /**
    In every state in which some rank has not returned, a step can be taken, even if no send completes
    before it is received.
   */
  lemma Progress<T(!new)>(s: Scatter<T>, bufs: seq<seq<T>>, st: System<T>) returns (st': System<T>)
    requires Inv(s, bufs, st) && !AllDone(st)
    ensures CertainStep(s, st, st')
  {
    if n: nat :| n < s.size && st.ranks[n].phase.Waiting? {
      var r := FirstWaiting(st, n);
      assert RankOk(s, bufs[r], r, st.ranks[r]);
      var p := Parent(r);
      assert RankOk(s, bufs[p], p, st.ranks[p]);
      if ChildSent(s, st, r) {
        st' := CanReceive(s, bufs, st, r);
      } else {
        TreeExact(p, r, s.size);
        st' := CanSend(s, bufs, st, p);
      }
    } else {
      var r: nat :| r < s.size && !st.ranks[r].phase.Done?;
      assert RankOk(s, bufs[r], r, st.ranks[r]);
      if st.ranks[r].phase.sent < |ChildrenOf(r, s.size)| {
        st' := CanSend(s, bufs, st, r);
      } else {
        st' := CanFinish(s, bufs, st, r);
      }
    }
  }

  // ----- Termination -----

  /** The steps a rank still has to take. */
  ghost function Work<T(!new)>(s: Scatter<T>, r: nat, p: Process<T>): nat
    requires r < s.size
  {
    match p.phase
    case Waiting => |ChildrenOf(r, s.size)| + 2
    case Sending(_, k) => if k <= |ChildrenOf(r, s.size)| then |ChildrenOf(r, s.size)| - k + 1 else 0
    case Done => 0
  }

  ghost function TotalWork<T(!new)>(s: Scatter<T>, st: System<T>, n: nat): nat
    requires n <= |st.ranks| && |st.ranks| <= s.size
  {
    if n == 0 then 0 else TotalWork(s, st, n - 1) + Work(s, n - 1, st.ranks[n - 1])
  }

  lemma {:induction false} OneLess<T(!new)>(s: Scatter<T>, st: System<T>, st': System<T>, r: nat, n: nat)
    requires |st.ranks| == |st'.ranks| <= s.size && r < |st.ranks| && n <= |st.ranks|
    requires Work(s, r, st.ranks[r]) == Work(s, r, st'.ranks[r]) + 1
    requires forall p :: 0 <= p < |st.ranks| && p != r ==> st.ranks[p] == st'.ranks[p]
    ensures TotalWork(s, st, n) == TotalWork(s, st', n) + if r < n then 1 else 0
  {
    if n > 0 {
      OneLess(s, st, st', r, n - 1);
    }
  }

  /** Every step takes exactly one off the work left, so every run ends. */
  lemma NextWorks<T(!new)>(s: Scatter<T>, bufs: seq<seq<T>>, st: System<T>, st': System<T>)
    requires Inv(s, bufs, st) && Next(s, st, st')
    ensures |st'.ranks| == s.size && TotalWork(s, st, s.size) == TotalWork(s, st', s.size) + 1
  {
    if r, m :| Receive(s, st, st', r, m) {
      ReceiveWorks(s, st, st', r, m);
    } else if r, m :| Send(s, st, st', r, m) {
      SendWorks(s, st, st', r, m);
    } else {
      var r :| Finish(s, st, st', r);
      FinishWorks(s, st, st', r);
    }
  }

  lemma ReceiveWorks<T(!new)>(s: Scatter<T>, st: System<T>, st': System<T>, r: nat, m: Message<T>)
    requires Receive(s, st, st', r, m)
    ensures |st'.ranks| == s.size && TotalWork(s, st, s.size) == TotalWork(s, st', s.size) + 1
  {
    OneLess(s, st, st', r, s.size);
  }

  lemma SendWorks<T(!new)>(s: Scatter<T>, st: System<T>, st': System<T>, r: nat, m: Message<T>)
    requires Send(s, st, st', r, m)
    ensures |st'.ranks| == s.size && TotalWork(s, st, s.size) == TotalWork(s, st', s.size) + 1
  {
    OneLess(s, st, st', r, s.size);
  }

  lemma FinishWorks<T(!new)>(s: Scatter<T>, st: System<T>, st': System<T>, r: nat)
    requires Finish(s, st, st', r)
    ensures |st'.ranks| == s.size && TotalWork(s, st, s.size) == TotalWork(s, st', s.size) + 1
  {
    OneLess(s, st, st', r, s.size);
  }

  // ----- Whole runs -----

  ghost predicate IsRun<T(!new)>(s: Scatter<T>, bufs: seq<seq<T>>, run: seq<System<T>>) {
    && Setting(s, bufs) && run != [] && run[0] == Init(s, bufs)
    && forall i :: 0 <= i < |run| - 1 ==> Next(s, run[i], run[i + 1])
  }

  lemma {:induction false} RunKeepsInv<T(!new)>(s: Scatter<T>, bufs: seq<seq<T>>, run: seq<System<T>>, i: nat)
    requires IsRun(s, bufs, run) && i < |run|
    ensures Inv(s, bufs, run[i])
    ensures |run[i].ranks| == |run[0].ranks| == s.size && i + TotalWork(s, run[i], s.size) == TotalWork(s, run[0], s.size)
  {
    InitInv(s, bufs);
    if i > 0 {
      RunKeepsInv(s, bufs, run, i - 1);
      assert Next(s, run[i - 1], run[i - 1 + 1]);
      NextKeepsInv(s, bufs, run[i - 1], run[i]);
      NextWorks(s, bufs, run[i - 1], run[i]);
    }
  }

  /** A run is complete when no further step is possible. */
  ghost predicate Complete<T(!new)>(s: Scatter<T>, st: System<T>) {
    forall st' :: !CertainStep(s, st, st')
  }

  // ----- Each rank's part of a run is its run of the routine -----

  /** The message relative rank r takes in, and the one it posts, in one step, if it does. */
  ghost function TakenIn<T(!new)>(s: Scatter<T>, st: System<T>, st': System<T>, r: nat): seq<Message<T>> {
    if m :| Receive(s, st, st', r, m) then [m] else []
  }

  ghost function PostedIn<T(!new)>(s: Scatter<T>, st: System<T>, st': System<T>, r: nat): seq<Message<T>> {
    if m :| Send(s, st, st', r, m) then [m] else []
  }

  /** The messages relative rank r takes in, and those it posts, during the first n steps. */
  ghost function TakenBy<T(!new)>(s: Scatter<T>, run: seq<System<T>>, n: nat, r: nat): seq<Message<T>>
    requires n < |run|
  {
    if n == 0 then [] else TakenBy(s, run, n - 1, r) + TakenIn(s, run[n - 1], run[n], r)
  }

  ghost function PostedBy<T(!new)>(s: Scatter<T>, run: seq<System<T>>, n: nat, r: nat): seq<Message<T>>
    requires n < |run|
  {
    if n == 0 then [] else PostedBy(s, run, n - 1, r) + PostedIn(s, run[n - 1], run[n], r)
  }

  /** A send posts the next message of the routine's send loop. */
  lemma SendIsNext<T(!new)>(s: Scatter<T>, bufs: seq<seq<T>>, st: System<T>, st': System<T>, r: nat, m: Message<T>)
    requires RanksOk(s, bufs, st) && Send(s, st, st', r, m)
    ensures st.ranks[r].phase.sent < |Outbox(s, r)| && m == Outbox(s, r)[st.ranks[r].phase.sent]
  {
    hide Abs, Chunk, Cut, MessageTo, RankOk, ChildSent;
    var k := st.ranks[r].phase.sent;
    ChildInRange(r, k, s.size);
    SendIsMessage(s, bufs, st, st', r, m, ChildrenOf(r, s.size)[k]);
    SendsToChildren(s, r, Mask(r, s.size) / 2, k);
  }

  /** In one step a rank posts at most the next message, and its count moves with that. */
  lemma PostedNext<T(!new)>(s: Scatter<T>, bufs: seq<seq<T>>, st: System<T>, st': System<T>, r: nat)
    requires RanksOk(s, bufs, st) && Next(s, st, st') && r < s.size
    ensures |st.ranks| == |st'.ranks| == s.size
    ensures var k, k' := SentCount(s, st, r), SentCount(s, st', r);
            if k' == k then PostedIn(s, st, st', r) == []
            else k' == k + 1 <= |Outbox(s, r)| && PostedIn(s, st, st', r) == [Outbox(s, r)[k]]
  {
    hide Cut, Outbox, RankOk, ChildSent;
    if m :| Send(s, st, st', r, m) {
      forall n | Send(s, st, st', r, n)
        ensures SentCount(s, st, r) < |Outbox(s, r)| && n == Outbox(s, r)[SentCount(s, st, r)]
      {
        SendIsNext(s, bufs, st, st', r, n);
      }
      SendCounts(s, st, st', r, m);
    } else {
      OnlySendsCount(s, st, st', r);
    }
  }

  lemma OnlySendsCount<T(!new)>(s: Scatter<T>, st: System<T>, st': System<T>, r: nat)
    requires s.Valid() && Next(s, st, st') && r < |st.ranks| == s.size
    requires forall m :: !Send(s, st, st', r, m)
    ensures |st'.ranks| == s.size && SentCount(s, st', r) == SentCount(s, st, r)
  {
    hide Cut;
    if p, m :| Receive(s, st, st', p, m) {
    } else if p, m :| Send(s, st, st', p, m) {
    } else {
      var p :| Finish(s, st, st', p);
    }
  }

  /** What a rank has posted is always a prefix of the routine's outbox, in its order. */
  lemma {:induction false} PostedInOrder<T(!new)>(s: Scatter<T>, bufs: seq<seq<T>>, run: seq<System<T>>, n: nat, r: nat)
    requires IsRun(s, bufs, run) && n < |run| && r < s.size
    ensures |run[n].ranks| == s.size && SentCount(s, run[n], r) <= |Outbox(s, r)|
    ensures PostedBy(s, run, n, r) == Outbox(s, r)[..SentCount(s, run[n], r)]
  {
    hide Next, Outbox, RanksOk, MessagesOk, PostedIn, ChildrenOf;
    RunKeepsInv(s, bufs, run, n);
    if n > 0 {
      PostedInOrder(s, bufs, run, n - 1, r);
      RunKeepsInv(s, bufs, run, n - 1);
      PostedNext(s, bufs, run[n - 1], run[n - 1 + 1], r);
    }
  }

  /** In one step a rank takes in at most the message meant for it, and stops waiting with that. */
  lemma TakenNext<T(!new)>(s: Scatter<T>, bufs: seq<seq<T>>, st: System<T>, st': System<T>, r: nat)
    requires Inv(s, bufs, st) && Next(s, st, st') && r < s.size
    ensures |st.ranks| == |st'.ranks| == s.size
    ensures if st'.ranks[r].phase.Waiting? == st.ranks[r].phase.Waiting? then TakenIn(s, st, st', r) == []
            else r > 0 && !st'.ranks[r].phase.Waiting? && TakenIn(s, st, st', r) == [MessageTo(s, r)]
  {
    hide Cut, MessageTo, Abs, Rel, RankOk, MessagesOk, ChildSent;
    if m :| Receive(s, st, st', r, m) {
      forall n | Receive(s, st, st', r, n)
        ensures n == MessageTo(s, r)
      {
        ArrivalIsOwn(s, bufs, st, st', r, n);
      }
    } else if p, m :| Receive(s, st, st', p, m) {
    } else if p, m :| Send(s, st, st', p, m) {
    } else {
      var p :| Finish(s, st, st', p);
    }
  }

  /** What a rank has taken in is the one message the routine asks for, once it has left its receive. */
  lemma {:induction false} TakenOnce<T(!new)>(s: Scatter<T>, bufs: seq<seq<T>>, run: seq<System<T>>, n: nat, r: nat)
    requires IsRun(s, bufs, run) && n < |run| && r < s.size
    ensures |run[n].ranks| == s.size && (r == 0 ==> !run[n].ranks[r].phase.Waiting?)
    ensures TakenBy(s, run, n, r) == if r == 0 || run[n].ranks[r].phase.Waiting? then [] else [MessageTo(s, r)]
  {
    hide MessageTo, Next, RanksOk, MessagesOk, TakenIn;
    RunKeepsInv(s, bufs, run, n);
    if n > 0 {
      TakenOnce(s, bufs, run, n - 1, r);
      RunKeepsInv(s, bufs, run, n - 1);
      TakenNext(s, bufs, run[n - 1], run[n - 1 + 1], r);
    }
  }

  /**
    Scatter, end to end.  When a run can go no further, every rank has returned, no message is left
    over, and each rank q has done what the contract of BinomialTreeScatter says of it: it has taken in
    its data from its parent and nothing else, it has posted the routine's outbox in the routine's
    order, and its block of the root's buffer is at the beginning of its receive buffer, where nothing
    else has changed.  No run is longer than the work at the beginning.
   */
  lemma ScatterCorrect<T(!new)>(s: Scatter<T>, bufs: seq<seq<T>>, run: seq<System<T>>, q: nat)
    requires IsRun(s, bufs, run) && q < s.size
    ensures |run[0].ranks| == s.size && |run| - 1 <= TotalWork(s, run[0], s.size)
    ensures var last, r := run[|run| - 1], Rel(s, q);
            Complete(s, last) ==>
              && AllDone(last) && last.net == multiset{} && |last.ranks| == s.size
              && TakenBy(s, run, |run| - 1, r) == (if q == s.root then [] else [Message(Abs(s, Parent(r)), q, Chunk(s, r))])
              && PostedBy(s, run, |run| - 1, r) == Outbox(s, r)
              && last.ranks[r].recvbuf == Overwrite(bufs[r], 0, Block(s, q))
  {
    hide Outbox, Chunk, Overwrite, CertainStep;
    var last, r := run[|run| - 1], Rel(s, q);
    RunKeepsInv(s, bufs, run, |run| - 1);
    if Complete(s, last) {
      if !AllDone(last) {
        var st' := Progress(s, bufs, last);
      }
      RelAbs(s, q);
      assert RankOk(s, bufs[r], r, last.ranks[r]);
      NobodyWaits(s, last);
      TakenOnce(s, bufs, run, |run| - 1, r);
      PostedInOrder(s, bufs, run, |run| - 1, r);
      OutboxLength(s, r);
    }
  }

  lemma OutboxLength<T(!new)>(s: Scatter<T>, r: nat)
    requires s.Valid() && r < s.size
    ensures |Outbox(s, r)| == |ChildrenOf(r, s.size)|
  {
    SameCount(s, r, Mask(r, s.size) / 2);
  }

  // ----- How many messages -----

  /** The messages for relative ranks 1, ..., n - 1. */
  ghost function AllMessages<T(!new)>(s: Scatter<T>, n: nat): multiset<Message<T>>
    requires s.Valid() && n <= s.size
  {
    if n <= 1 then multiset{} else AllMessages(s, n - 1) + multiset{MessageTo(s, n - 1)}
  }

  lemma {:induction false} AllMessagesOnce<T(!new)>(s: Scatter<T>, n: nat, m: Message<T>)
    requires s.Valid() && 0 < n <= s.size
    ensures |AllMessages(s, n)| == n - 1
    ensures AllMessages(s, n)[m] == if m.dst < s.size && 0 < Rel(s, m.dst) < n && m == MessageTo(s, Rel(s, m.dst)) then 1 else 0
  {
    if n > 1 {
      AllMessagesOnce(s, n - 1, m);
    }
  }

  /** Exactly size - 1 messages are sent in a complete run: one to every rank but the root, from its parent. */
  lemma MessageCount<T(!new)>(s: Scatter<T>, bufs: seq<seq<T>>, run: seq<System<T>>)
    requires IsRun(s, bufs, run) && AllDone(run[|run| - 1])
    ensures run[|run| - 1].log == AllMessages(s, s.size) && |run[|run| - 1].log| == s.size - 1
  {
    var last := run[|run| - 1];
    RunKeepsInv(s, bufs, run, |run| - 1);
    forall m
      ensures last.log[m] == AllMessages(s, s.size)[m]
    {
      AllMessagesOnce(s, s.size, m);
    }
    AllMessagesOnce(s, s.size, MessageOf(s));
  }

  ghost function MessageOf<T(!new)>(s: Scatter<T>): Message<T>
    requires s.Valid()
  {
    Message(0, 0, s.sendbuf)
  }
}
