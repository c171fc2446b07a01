/**
  Collective calls share queue names, gathers and scatters even one prefix; still, when all ranks make
  the same collective calls in the same order, every receive is paired with the send of its own call.
 */
module Collectives {
  import opened KeyNames
  import opened Links
  import opened Events
  import opened LinkTrails
  import opened LinkOutput
  import opened Merges
  import opened Translation
  import opened Pairing

  /** A collective call, as far as links are concerned. */
  datatype Collective = Collective(pattern: Pattern, root: nat)

  /** The record belongs to a collective call: every rank adds exactly one such record to each. */
  predicate IsCollective(e: Event) {
    e.kind.Link? && e.kind.pattern != Ptp
  }

  /** The root sends to all or receives from all; the others name it. */
  function CollectiveOf(e: Event): Collective
    requires IsCollective(e) && Readable(e)
  {
    Collective(e.kind.pattern, if NamesPeer(e) then e.ints[0] else e.rank)
  }

  /** In a communicator of n ranks the root gives its size and the others name another rank. */
  predicate InWorld(e: Event, n: nat)
    requires Readable(e)
  {
    IsCollective(e) ==> if NamesPeer(e) then e.ints[0] < n && e.ints[0] != e.rank else e.ints[0] == n
  }

  /** The call moves something from the source to the destination of the channel. */
  predicate Uses(k: Collective, c: Channel, n: nat) {
    && c.kind == QueueKind(k.pattern) && 0 <= c.src < n && 0 <= c.dst < n && c.src != c.dst
    && (if ToAll(k.pattern) then c.src == k.root else c.dst == k.root)
  }

  /** The collective calls of the first n records of a rank. */
  function CallsOf(trace: seq<Event>, n: nat): seq<Collective>
    requires n <= |trace| && AllReadable(trace)
  {
    if n == 0 then [] else CallsOf(trace, n - 1) + CallAt(trace, n - 1)
  }

  function CallAt(trace: seq<Event>, i: nat): seq<Collective>
    requires i < |trace| && AllReadable(trace)
  {
    assert Readable(trace[i]);
    if IsCollective(trace[i]) then [CollectiveOf(trace[i])] else []
  }

  /** How many of the first k calls use the channel. */
  function UseCount(calls: seq<Collective>, k: nat, c: Channel, n: nat): nat
    requires k <= |calls|
  {
    if k == 0 then 0 else UseCount(calls, k - 1, c, n) + if Uses(calls[k - 1], c, n) then 1 else 0
  }

  // ----- One record -----

  /** The channel occurs once, or never, among operations of which no two are equal. */
  lemma {:induction false} OpensOnce(ops: seq<LinkOp>, n: nat, c: Channel, i: nat)
    requires n <= |ops| && i < |ops| && ops[i] == Open(c)
    requires forall k :: 0 <= k < |ops| && k != i ==> ops[k] != Open(c)
    ensures Opens(ops, n, c) == if i < n then 1 else 0
  {
    if n > 0 {
      OpensOnce(ops, n - 1, c, i);
    }
  }

  lemma {:induction false} ClosesOnce(ops: seq<LinkOp>, n: nat, c: Channel, i: nat)
    requires n <= |ops| && i < |ops| && ops[i] == Close(c)
    requires forall k :: 0 <= k < |ops| && k != i ==> ops[k] != Close(c)
    ensures Closes(ops, n, c) == if i < n then 1 else 0
  {
    if n > 0 {
      ClosesOnce(ops, n - 1, c, i);
    }
  }

  lemma {:induction false} NoOpens(ops: seq<LinkOp>, n: nat, c: Channel)
    requires n <= |ops| && Open(c) !in ops
    ensures Opens(ops, n, c) == 0
  {
    if n > 0 {
      NoOpens(ops, n - 1, c);
      assert ops[n - 1] in ops;
    }
  }

  lemma {:induction false} NoCloses(ops: seq<LinkOp>, n: nat, c: Channel)
    requires n <= |ops| && Close(c) !in ops
    ensures Closes(ops, n, c) == 0
  {
    if n > 0 {
      NoCloses(ops, n - 1, c);
      assert ops[n - 1] in ops;
    }
  }

  /** Numbers below this bound are C ints that are not negative. */
  predicate Small(e: Event, n: nat)
    requires Readable(e)
  {
    n <= 0x8000_0000 && e.rank < n && InWorld(e, n)
  }

  /** A record of a call that uses the channel has exactly one operation on it, at either end. */
  lemma UsedOp(e: Event, c: Channel, n: nat) returns (i: nat)
    requires Readable(e) && IsCollective(e) && Small(e, n) && Uses(CollectiveOf(e), c, n)
    requires e.rank == c.src || e.rank == c.dst
    ensures i < |OpsOf(e)| && OpsOf(e)[i] == if e.rank == c.src then Open(c) else Close(c)
  {
    if NamesPeer(e) {
      i := 0;
    } else {
      var other := if e.rank == c.src then c.dst else c.src;
      i := if other < e.rank then other else other - 1;
    }
  }

  /** A record has operations only on channels its call uses. */
  lemma OpUsed(e: Event, c: Channel, n: nat, i: nat)
    requires Readable(e) && IsCollective(e) && Small(e, n) && i < |OpsOf(e)| && OpsOf(e)[i].channel == c
    ensures Uses(CollectiveOf(e), c, n)
    ensures c.src == e.rank || c.dst == e.rank
    ensures OpsOf(e)[i] == if e.rank == c.src then Open(c) else Close(c)
  {
  }

  lemma ApartFrom(e: Event, c: Channel, n: nat, i: nat)
    requires Readable(e) && IsCollective(e) && Small(e, n) && i < |OpsOf(e)| && OpsOf(e)[i].channel == c
    ensures forall k :: 0 <= k < |OpsOf(e)| && k != i ==> OpsOf(e)[k].channel != c
  {
    hide OpsOf;
    forall k | 0 <= k < |OpsOf(e)| && k != i
      ensures OpsOf(e)[k].channel != c
    {
      if k < i {
        OpsApart(e, k, i);
      } else {
        OpsApart(e, i, k);
      }
    }
  }

  /** A record sends on a channel it is the source of once, if its call uses the channel, and else never. */
  lemma RecordSends(e: Event, c: Channel, n: nat)
    requires Readable(e) && Small(e, n) && c.kind != "ptp" && c.src == e.rank
    ensures Opens(OpsOf(e), |OpsOf(e)|, c) == if IsCollective(e) && Uses(CollectiveOf(e), c, n) then 1 else 0
  {
    if IsCollective(e) && Uses(CollectiveOf(e), c, n) {
      var i := UsedOp(e, c, n);
      ApartFrom(e, c, n, i);
      OpensOnce(OpsOf(e), |OpsOf(e)|, c, i);
    } else {
      NotUsed(e, c, n);
      NoOpens(OpsOf(e), |OpsOf(e)|, c);
    }
  }

  lemma RecordReceives(e: Event, c: Channel, n: nat)
    requires Readable(e) && Small(e, n) && c.kind != "ptp" && c.dst == e.rank
    ensures Closes(OpsOf(e), |OpsOf(e)|, c) == if IsCollective(e) && Uses(CollectiveOf(e), c, n) then 1 else 0
  {
    if IsCollective(e) && Uses(CollectiveOf(e), c, n) {
      var i := UsedOp(e, c, n);
      ApartFrom(e, c, n, i);
      ClosesOnce(OpsOf(e), |OpsOf(e)|, c, i);
    } else {
      NotUsed(e, c, n);
      NoCloses(OpsOf(e), |OpsOf(e)|, c);
    }
  }

  lemma NotUsed(e: Event, c: Channel, n: nat)
    requires Readable(e) && Small(e, n) && c.kind != "ptp" && !(IsCollective(e) && Uses(CollectiveOf(e), c, n))
    ensures Open(c) !in OpsOf(e) && Close(c) !in OpsOf(e)
  {
    hide OpsOf, Uses;
    forall i | 0 <= i < |OpsOf(e)|
      ensures OpsOf(e)[i].channel != c
    {
      OpOfLink(e, i);
      if IsCollective(e) && OpsOf(e)[i].channel == c {
        OpUsed(e, c, n, i);
      }
    }
  }

  lemma OpOfLink(e: Event, i: nat)
    requires Readable(e) && i < |OpsOf(e)|
    ensures e.kind.Link? && OpsOf(e)[i].channel.kind == QueueKind(e.kind.pattern)
  {
  }

  // ----- One rank -----

  /** The trace of rank r in a world of n ranks. */
  ghost predicate WorldTrace(trace: seq<Event>, r: nat, n: nat) {
    TraceOf(trace, r) && forall i :: 0 <= i < |trace| ==> ReadableIn(trace[i], n)
  }

  predicate ReadableIn(e: Event, n: nat) {
    Readable(e) && Small(e, n)
  }

  /** How many calls among the first m records use the channel. */
  function UsesBefore(trace: seq<Event>, m: nat, c: Channel, n: nat): nat
    requires AllReadable(trace) && m <= |trace|
  {
    UseCount(CallsOf(trace, m), |CallsOf(trace, m)|, c, n)
  }

  lemma NoUsesYet(trace: seq<Event>, c: Channel, n: nat)
    requires AllReadable(trace)
    ensures UsesBefore(trace, 0, c, n) == 0
  {
  }

  /** A rank's sends on a channel are the calls that use it. */
  lemma {:induction false} SendsAreUses(trace: seq<Event>, m: nat, c: Channel, r: nat, n: nat)
    requires WorldTrace(trace, r, n) && m <= |trace| && c.kind != "ptp" && c.src == r
    ensures Sends(trace, m, c) == UsesBefore(trace, m, c, n)
  {
    hide Sends, Uses, OpsOf, UsesBefore, CollectiveOf;
    if m == 0 {
      NoUsesYet(trace, c, n);
      NoneYet(trace, c);
    } else {
      SendsAreUses(trace, m - 1, c, r, n);
      CountsNext(trace, m - 1, c);
      assert ReadableIn(trace[m - 1], n) && trace[m - 1].rank == r;
      RecordSends(trace[m - 1], c, n);
      UsesNext(trace, m - 1, c, n);
    }
  }

  lemma {:induction false} ReceivesAreUses(trace: seq<Event>, m: nat, c: Channel, r: nat, n: nat)
    requires WorldTrace(trace, r, n) && m <= |trace| && c.kind != "ptp" && c.dst == r
    ensures Receives(trace, m, c) == UsesBefore(trace, m, c, n)
  {
    hide Receives, Uses, OpsOf, UsesBefore, CollectiveOf;
    if m == 0 {
      NoUsesYet(trace, c, n);
      NoneYet(trace, c);
    } else {
      ReceivesAreUses(trace, m - 1, c, r, n);
      CountsNext(trace, m - 1, c);
      assert ReadableIn(trace[m - 1], n) && trace[m - 1].rank == r;
      RecordReceives(trace[m - 1], c, n);
      UsesNext(trace, m - 1, c, n);
    }
  }

  lemma UsesNext(trace: seq<Event>, m: nat, c: Channel, n: nat)
    requires AllReadable(trace) && m < |trace|
    ensures Readable(trace[m])
    ensures UsesBefore(trace, m + 1, c, n) ==
            UsesBefore(trace, m, c, n)
            + if IsCollective(trace[m]) && Uses(CollectiveOf(trace[m]), c, n) then 1 else 0
  {
    assert Readable(trace[m]);
    var calls := CallsOf(trace, m);
    UsesPrefix(calls, CallAt(trace, m), |calls|, c, n);
    assert CallsOf(trace, m + 1) == calls + CallAt(trace, m);
  }

  lemma {:induction false} UsesPrefix(a: seq<Collective>, b: seq<Collective>, k: nat, c: Channel, n: nat)
    requires k <= |a|
    ensures UseCount(a + b, k, c, n) == UseCount(a, k, c, n)
  {
    if k > 0 {
      UsesPrefix(a, b, k - 1, c, n);
    }
  }

  // ----- All ranks -----

  /** n ranks in one communicator, all of which make these collective calls, in this order. */
  ghost predicate World(traces: seq<seq<Event>>, calls: seq<Collective>) {
    |traces| <= 0x8000_0000 && forall r :: 0 <= r < |traces| ==> MakesCalls(traces[r], r, |traces|, calls)
  }

  ghost predicate MakesCalls(trace: seq<Event>, r: nat, n: nat, calls: seq<Collective>) {
    WorldTrace(trace, r, n) && CallsOf(trace, |trace|) == calls
  }

  /** How many collective calls of its rank come before the record of a site. */
  ghost function CallIndex(traces: seq<seq<Event>>, s: Site): nat
    requires IsSite(traces, s)
  {
    |CallsOf(traces[s.rank], s.event)|
  }

  ghost predicate IsCollectiveSite(traces: seq<seq<Event>>, s: Site) {
    IsSite(traces, s) && IsCollective(traces[s.rank][s.event])
  }

  lemma {:induction false} CallsGrow(trace: seq<Event>, m: nat, n: nat) returns (rest: seq<Collective>)
    requires m <= n <= |trace| && AllReadable(trace)
    ensures CallsOf(trace, n) == CallsOf(trace, m) + rest
  {
    if m < n {
      rest := CallsGrow(trace, m, n - 1);
      rest := rest + CallAt(trace, n - 1);
    } else {
      rest := [];
    }
  }

  /** The record of a site is that of the call with the site's index. */
  lemma SiteCall(trace: seq<Event>, m: nat, r: nat, n: nat, calls: seq<Collective>)
    requires MakesCalls(trace, r, n, calls) && m < |trace| && Readable(trace[m]) && IsCollective(trace[m])
    ensures |CallsOf(trace, m)| < |calls| && calls[|CallsOf(trace, m)|] == CollectiveOf(trace[m])
    ensures forall c :: UsesBefore(trace, m, c, n) == UseCount(calls, |CallsOf(trace, m)|, c, n)
  {
    hide Uses, CollectiveOf;
    var rest := CallsGrow(trace, m + 1, |trace|);
    var before := CallsOf(trace, m);
    assert CallsOf(trace, m + 1) == before + [CollectiveOf(trace[m])];
    var others := [CollectiveOf(trace[m])] + rest;
    assert calls == before + others;
    forall c
      ensures UsesBefore(trace, m, c, n) == UseCount(calls, |before|, c, n)
    {
      UsesPrefix(before, others, |before|, c, n);
    }
  }

  /** The ordinal of an operation counts the calls before its own that use the channel. */
  lemma OrdinalIsUses(traces: seq<seq<Event>>, s: Site, calls: seq<Collective>)
    requires World(traces, calls) && IsCollectiveSite(traces, s)
    ensures var k, c := CallIndex(traces, s), OpAt(traces, s).channel;
            && k < |calls| && Uses(calls[k], c, |traces|)
            && Ordinal(traces, s) == UseCount(calls, k, c, |traces|)
  {
    hide Uses, CollectiveOf, OpsOf, Sends, Receives, UsesBefore, InWorld, IsCollective;
    var trace, n, c := traces[s.rank], |traces|, OpAt(traces, s).channel;
    assert MakesCalls(trace, s.rank, n, calls);
    assert ReadableIn(trace[s.event], n) && trace[s.event].rank == s.rank;
    SiteCall(trace, s.event, s.rank, n, calls);
    NotPtp(trace[s.event], s.op);
    OpUsed(trace[s.event], c, n, s.op);
    ApartFrom(trace[s.event], c, n, s.op);
    UsedApart(trace[s.event], c, n);
    if OpAt(traces, s).Open? {
      SendsAreUses(trace, s.event, c, s.rank, n);
      OpensOnce(OpsOf(trace[s.event]), s.op, c, s.op);
    } else {
      ReceivesAreUses(trace, s.event, c, s.rank, n);
      ClosesOnce(OpsOf(trace[s.event]), s.op, c, s.op);
    }
  }

  lemma NotPtp(e: Event, i: nat)
    requires Readable(e) && IsCollective(e) && i < |OpsOf(e)|
    ensures OpsOf(e)[i].channel.kind != "ptp"
  {
    OpOfLink(e, i);
    var k := QueueKind(e.kind.pattern);
    assert k[0] != 'p';
  }

  lemma UsedApart(e: Event, c: Channel, n: nat)
    requires Readable(e) && IsCollective(e) && Uses(CollectiveOf(e), c, n)
    ensures c.src != c.dst
  {
  }

  lemma {:induction false} UsesGrow(calls: seq<Collective>, j: nat, k: nat, c: Channel, n: nat)
    requires j < k <= |calls| && Uses(calls[j], c, n)
    ensures UseCount(calls, j, c, n) < UseCount(calls, k, c, n)
    decreases k
  {
    if j < k - 1 {
      UsesGrow(calls, j, k - 1, c, n);
    }
  }

  /** A send and a receive of collective calls are mates exactly when they are on one channel and of the same call. */
  lemma MatesOfOneCall(traces: seq<seq<Event>>, s: Site, r: Site, calls: seq<Collective>)
    requires World(traces, calls) && IsCollectiveSite(traces, s) && IsCollectiveSite(traces, r)
    requires OpAt(traces, s).Open? && OpAt(traces, r).Close?
    ensures Mates(traces, s, r) <==>
            OpAt(traces, s).channel == OpAt(traces, r).channel && CallIndex(traces, s) == CallIndex(traces, r)
  {
    hide Uses, UseCount, OpAt, Ordinal, CallIndex, World;
    OrdinalIsUses(traces, s, calls);
    OrdinalIsUses(traces, r, calls);
    var c, i, k := OpAt(traces, s).channel, CallIndex(traces, s), CallIndex(traces, r);
    if c == OpAt(traces, r).channel {
      if i < k {
        UsesGrow(calls, i, k, c, |traces|);
      } else if k < i {
        UsesGrow(calls, k, i, c, |traces|);
      }
    }
  }

  lemma {:induction false} NthCall(trace: seq<Event>, n: nat, k: nat) returns (m: nat)
    requires n <= |trace| && AllReadable(trace) && k < |CallsOf(trace, n)|
    ensures m < n && |CallsOf(trace, m)| == k && Readable(trace[m]) && IsCollective(trace[m])
  {
    if k < |CallsOf(trace, n - 1)| {
      m := NthCall(trace, n - 1, k);
    } else {
      m := n - 1;
      assert Readable(trace[m]);
    }
  }

  /** For every receive of a collective call there is a send of the same call, and it is the mate. */
  lemma SendOfCall(traces: seq<seq<Event>>, r: Site, calls: seq<Collective>) returns (s: Site)
    requires World(traces, calls) && IsCollectiveSite(traces, r) && OpAt(traces, r).Close?
    ensures IsCollectiveSite(traces, s) && Mates(traces, s, r) && CallIndex(traces, s) == CallIndex(traces, r)
  {
    hide Uses, UseCount, OpsOf, Ordinal, CollectiveOf, InWorld, IsCollective, CallsOf, WorldTrace, Mates;
    OrdinalIsUses(traces, r, calls);
    var c, k, n := OpAt(traces, r).channel, CallIndex(traces, r), |traces|;
    SourceInRange(calls[k], c, n);
    var trace := traces[c.src];
    WorldSource(traces, c.src, calls);
    var m := NthCall(trace, |trace|, k);
    SiteCall(trace, m, c.src, n, calls);
    WorldRecord(trace, m, c.src, n);
    var i := UsedOp(trace[m], c, n);
    s := Site(c.src, m, i);
    MatesOfOneCall(traces, s, r, calls);
  }

  lemma SourceInRange(k: Collective, c: Channel, n: nat)
    requires Uses(k, c, n)
    ensures 0 <= c.src < n
  {
  }

  lemma WorldSource(traces: seq<seq<Event>>, r: nat, calls: seq<Collective>)
    requires World(traces, calls) && r < |traces|
    ensures MakesCalls(traces[r], r, |traces|, calls) && AllReadable(traces[r]) && TraceOf(traces[r], r)
  {
  }

  lemma WorldRecord(trace: seq<Event>, m: nat, r: nat, n: nat)
    requires WorldTrace(trace, r, n) && m < |trace|
    ensures Readable(trace[m]) && Small(trace[m], n) && trace[m].rank == r
  {
    assert ReadableIn(trace[m], n);
  }

  lemma WorldTraces(traces: seq<seq<Event>>, calls: seq<Collective>)
    requires World(traces, calls)
    ensures Traces(traces)
  {
    forall r | 0 <= r < |traces|
      ensures TraceOf(traces[r], r)
    {
      assert MakesCalls(traces[r], r, |traces|, calls);
    }
  }

  /**
    Whatever else the ranks do, and however a causal merge interleaves them, the output gives a receive
    of a collective call the key of a send exactly when both are on one channel and of the same call.
   */
  lemma CollectiveKeysPair(traces: seq<seq<Event>>, calls: seq<Collective>, sched: seq<nat>,
                           t: nat, k: nat, u: nat, l: nat, o: Options)
    requires World(traces, calls) && Schedules(traces, sched) && Causal(traces, sched) && !o.noLinks
    requires AllReadable(Merged(traces, sched)) && AllCarried(Merged(traces, sched), o)
    requires t < |sched| && IsCollectiveSite(traces, SiteAt(sched, t, k)) && OpAt(traces, SiteAt(sched, t, k)).Open?
    requires u < |sched| && IsCollectiveSite(traces, SiteAt(sched, u, l)) && OpAt(traces, SiteAt(sched, u, l)).Close?
    ensures Traces(traces)
    ensures var trail := Trail(Output(Merged(traces, sched), o));
            && Position(Merged(traces, sched), t, k) < |trail| && Position(Merged(traces, sched), u, l) < |trail|
            && (KeyShown(traces, sched, t, k, o) == KeyShown(traces, sched, u, l, o) <==>
                OpAt(traces, SiteAt(sched, t, k)).channel == OpAt(traces, SiteAt(sched, u, l)).channel &&
                CallIndex(traces, SiteAt(sched, t, k)) == CallIndex(traces, SiteAt(sched, u, l)))
  {
    hide Traces, Schedules, Causal, Merged, Mates, World, AllCarried, KeyShown, Output, OpAt, CallIndex;
    WorldTraces(traces, calls);
    CausalMergePairs(traces, sched, t, k, u, l, o);
    MatesOfOneCall(traces, SiteAt(sched, t, k), SiteAt(sched, u, l), calls);
  }

  /** Before the receive was merged, so was the send of its own call. */
  ghost predicate SentInCall(traces: seq<seq<Event>>, sched: seq<nat>, u: nat, l: nat)
    requires u < |sched| && IsCollectiveSite(traces, SiteAt(sched, u, l))
  {
    exists t: nat, k: nat :: t < u && OfOneCall(traces, sched, t, k, u, l)
  }

  ghost predicate OfOneCall(traces: seq<seq<Event>>, sched: seq<nat>, t: nat, k: nat, u: nat, l: nat)
    requires t < |sched| && u < |sched| && IsCollectiveSite(traces, SiteAt(sched, u, l))
  {
    var s, r := SiteAt(sched, t, k), SiteAt(sched, u, l);
    && IsCollectiveSite(traces, s) && OpAt(traces, s).Open?
    && OpAt(traces, s).channel == OpAt(traces, r).channel && CallIndex(traces, s) == CallIndex(traces, r)
  }

  /** A merge that orders each collective call by itself, and point-to-point messages, is causal. */
  lemma CallOrderIsCausal(traces: seq<seq<Event>>, sched: seq<nat>, calls: seq<Collective>)
    requires World(traces, calls) && Schedules(traces, sched)
    requires forall u: nat, l: nat :: u < |sched| && IsReceive(traces, sched, u, l) ==>
               if IsCollectiveSite(traces, SiteAt(sched, u, l)) then SentInCall(traces, sched, u, l)
               else SentBefore(traces, sched, u, l)
    ensures Causal(traces, sched)
  {
    hide World, Schedules, SentBefore, Mates, IsCollectiveSite, OpAt, CallIndex;
    forall u: nat, l: nat | u < |sched| && IsReceive(traces, sched, u, l)
      ensures SentBefore(traces, sched, u, l)
    {
      if IsCollectiveSite(traces, SiteAt(sched, u, l)) {
        SentInCallBefore(traces, sched, u, l, calls);
      }
    }
  }

  lemma SentInCallBefore(traces: seq<seq<Event>>, sched: seq<nat>, u: nat, l: nat, calls: seq<Collective>)
    requires World(traces, calls) && u < |sched| && IsReceive(traces, sched, u, l)
    requires IsCollectiveSite(traces, SiteAt(sched, u, l)) && SentInCall(traces, sched, u, l)
    ensures SentBefore(traces, sched, u, l)
  {
    hide World, Mates, CallIndex;
    var t: nat, k: nat :| t < u && OfOneCall(traces, sched, t, k, u, l);
    MatesOfOneCall(traces, SiteAt(sched, t, k), SiteAt(sched, u, l), calls);
    assert SendOf(traces, sched, t, k, u, l);
  }
}
