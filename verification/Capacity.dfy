/**
  The key table has 1000 entries: that is room for every channel of up to 16 ranks.
 */
module Capacity {
  import opened KeyNames
  import opened Links
  import opened Events
  import opened Merges
  import opened Pairing
  import opened Collectives

  /** The size the converter asks for when it creates its key table. */
  const KEY_TABLE_SIZE := 1000

  // ----- Counting channels -----

  /** The channels of a kind from one source to the destinations below n, itself only if `self`. */
  function Row(kind: string, src: nat, n: nat, self: bool): (row: set<Channel>)
    ensures forall c :: c in row <==> c.kind == kind && c.src == src && 0 <= c.dst < n && (self || c.dst != src)
    ensures |row| == if self || src >= n then n else n - 1
  {
    if n == 0 then {}
    else Row(kind, src, n - 1, self) + if self || src != n - 1 then {Channel(kind, src, n - 1)} else {}
  }

  /** The channels of a kind from the sources below m. */
  function Square(kind: string, m: nat, n: nat, self: bool): (square: set<Channel>)
    requires m <= n
    ensures forall c :: c in square <==> c.kind == kind && 0 <= c.src < m && 0 <= c.dst < n && (self || c.dst != c.src)
    ensures |square| == m * (if self then n else n - 1)
  {
    if m == 0 then {}
    else
      var rows, row := Square(kind, m - 1, n, self), Row(kind, m - 1, n, self);
      Product(m, if self then n else n - 1);
      Disjoint(rows, row);
      rows + row
  }

  lemma Product(m: nat, n: nat)
    requires m > 0
    ensures m * n == (m - 1) * n + n
  {
  }

  lemma Disjoint(a: set<Channel>, b: set<Channel>)
    requires a !! b
    ensures |a + b| == |a| + |b|
  {
  }

  /** All channels that n ranks can use: only messages from point to point are to oneself. */
  function Channels(n: nat): set<Channel> {
    Square("ptp", n, n, true) + (Square("1tn", n, n, false) + (Square("1ta", n, n, false) + Square("at1", n, n, false)))
  }

  lemma InChannels(n: nat, c: Channel, p: Pattern)
    requires 0 <= c.src < n && 0 <= c.dst < n && c.kind == QueueKind(p) && (p != Ptp ==> c.dst != c.src)
    ensures c in Channels(n)
  {
    assert c in Square(QueueKind(p), n, n, p == Ptp);
    match p
    case Ptp =>
    case OneTn =>
    case Nt1 =>
    case OneTa =>
    case At1 =>
  }

  lemma ChannelCount(n: nat)
    ensures |Channels(n)| == 4 * (n * n) - 3 * n
  {
    var ptp, toN, toAll, fromAll :=
      Square("ptp", n, n, true), Square("1tn", n, n, false), Square("1ta", n, n, false), Square("at1", n, n, false);
    KindsDiffer();
    Disjoint(toAll, fromAll);
    Disjoint(toN, toAll + fromAll);
    Disjoint(ptp, toN + (toAll + fromAll));
    Minus(n);
  }

  lemma KindsDiffer()
    ensures "ptp" != "1tn" && "ptp" != "1ta" && "ptp" != "at1" && "1tn" != "1ta" && "1tn" != "at1" && "1ta" != "at1"
  {
    assert "ptp"[0] == 'p' && "1tn"[2] == 'n' && "1ta"[2] == 'a' && "at1"[0] == 'a';
  }

  lemma Minus(n: nat)
    ensures n * (n - 1) == n * n - n
  {
  }

  // ----- Ranks that talk to one another only -----

  /** A record of a communicator of n ranks; its point-to-point sends are to ranks of it. */
  predicate Within(e: Event, n: nat) {
    ReadableIn(e, n) && (e.kind == Link(Ptp, Send) ==> e.ints[0] < n)
  }

  ghost predicate AllWithin(traces: seq<seq<Event>>) {
    forall r, i :: 0 <= r < |traces| && 0 <= i < |traces[r]| ==> Within(traces[r][i], |traces|)
  }

  lemma SendWithin(e: Event, n: nat, k: nat)
    requires Within(e, n) && k < |OpsOf(e)| && OpsOf(e)[k].Open?
    ensures OpsOf(e)[k].channel in Channels(n)
  {
    hide Channels;
    InChannels(n, OpsOf(e)[k].channel, e.kind.pattern);
  }

  lemma {:induction false} UsedWithin(ops: seq<LinkOp>, m: nat, n: nat)
    requires m <= |ops| && forall i :: 0 <= i < |ops| && ops[i].Open? ==> ops[i].channel in Channels(n)
    ensures Used(ops, m) <= Channels(n)
  {
    hide Channels;
    if m > 0 {
      UsedWithin(ops, m - 1, n);
    }
  }

  lemma MergedSendWithin(traces: seq<seq<Event>>, sched: seq<nat>, p: nat)
    requires Traces(traces) && Schedules(traces, sched) && AllWithin(traces)
    requires AllReadable(Merged(traces, sched)) && p < |Ops(Merged(traces, sched))| && Ops(Merged(traces, sched))[p].Open?
    ensures Ops(Merged(traces, sched))[p].channel in Channels(|traces|)
  {
    hide OpsOf, Schedules, Channels, Within, Merged;
    var t, k := SiteFound(traces, sched, p);
    OrdinalKept(traces, sched, t, k);
    SendWithin(traces[sched[t]][Place(sched, t)], |traces|, k);
  }

  /** With at most 16 ranks the key table is never full, however their traces are merged. */
  lemma SixteenRanksFit(traces: seq<seq<Event>>, sched: seq<nat>)
    requires |traces| <= 16
    requires Traces(traces) && Schedules(traces, sched) && AllWithin(traces)
    ensures AllReadable(Merged(traces, sched)) && Fits(Ops(Merged(traces, sched)), KEY_TABLE_SIZE)
  {
    hide Traces, Schedules, AllWithin, Merged, Ops, Channels;
    MergedReadable(traces, sched);
    var ops, n := Ops(Merged(traces, sched)), |traces|;
    forall i | 0 <= i < |ops| && ops[i].Open?
      ensures ops[i].channel in Channels(n)
    {
      MergedSendWithin(traces, sched, i);
    }
    UsedWithin(ops, |ops|, n);
    Smaller(Used(ops, |ops|), Channels(n));
    FewChannels(n);
  }

  lemma FewChannels(n: nat)
    requires n <= 16
    ensures |Channels(n)| <= KEY_TABLE_SIZE
  {
    hide Channels;
    ChannelCount(n);
    FewPairs(n);
  }

  lemma FewPairs(n: nat)
    requires n <= 16
    ensures 4 * (n * n) - 3 * n <= KEY_TABLE_SIZE
  {
    assert (16 - n) * n >= 0;
  }
}
