/**
  What it means for a merge to put every receive after its send, told from the fields of the records: of
  each message, and of each collective call.
 */
module Causality {
  import opened KeyNames
  import opened Links
  import opened Events
  import opened Merges
  import opened Pairing
  import opened Collectives
  import opened PointToPoint

  // ----- Messages -----

  /** The message that record u receives was sent before. */
  ghost predicate MessageBefore(traces: seq<seq<Event>>, sched: seq<nat>, u: nat)
    requires u < |sched| && InTraces(traces, sched, u)
  {
    exists t :: 0 <= t < u && SentAt(traces, sched, t, u)
  }

  ghost predicate SentAt(traces: seq<seq<Event>>, sched: seq<nat>, t: nat, u: nat)
    requires t < |sched| && u < |sched| && InTraces(traces, sched, u)
  {
    InTraces(traces, sched, t) && OneMessage(traces, sched[t], Place(sched, t), sched[u], Place(sched, u))
  }

  lemma MessageSentBefore(traces: seq<seq<Event>>, sched: seq<nat>, u: nat)
    requires Traces(traces) && AllWords(traces) && u < |sched| && InTraces(traces, sched, u)
    requires IsMessageSite(traces, SiteAt(sched, u, 0), Recv)
    ensures SentBefore(traces, sched, u, 0) <==> MessageBefore(traces, sched, u)
  {
    hide Traces, AllWords, Mates, OneMessage, OpsOf;
    var r := SiteAt(sched, u, 0);
    if SentBefore(traces, sched, u, 0) {
      var t: nat, k: nat :| t < u && SendOf(traces, sched, t, k, u, 0);
      MatesAlike(traces, SiteAt(sched, t, k), r);
      MatesOfMessage(traces, SiteAt(sched, t, k), r);
      assert SentAt(traces, sched, t, u);
    }
    if MessageBefore(traces, sched, u) {
      var t: nat :| t < u && SentAt(traces, sched, t, u);
      MessageIsSite(traces, sched, t, u);
      MatesOfMessage(traces, SiteAt(sched, t, 0), r);
      assert SendOf(traces, sched, t, 0, u, 0);
    }
  }

  lemma MessageIsSite(traces: seq<seq<Event>>, sched: seq<nat>, t: nat, u: nat)
    requires Traces(traces) && t < |sched| && u < |sched| && InTraces(traces, sched, u) && SentAt(traces, sched, t, u)
    ensures IsMessageSite(traces, SiteAt(sched, t, 0), Send)
  {
    assert TraceOf(traces[sched[t]], sched[t]);
    OneOpOnly(traces[sched[t]][Place(sched, t)]);
  }

  // ----- Collective calls -----

  /** Rank q sends to the collective receive e: the root, or every rank but the receiver. */
  predicate Awaits(e: Event, q: nat, n: nat)
    requires Readable(e) && IsCollective(e)
  {
    e.kind.way == Recv && if NamesPeer(e) then q == e.ints[0] else q < n && q != e.rank
  }

  /** Rank q's record of the collective call of record u was merged before u. */
  ghost predicate CallBefore(traces: seq<seq<Event>>, sched: seq<nat>, u: nat, q: nat)
    requires Traces(traces) && u < |sched| && InTraces(traces, sched, u)
  {
    exists t :: 0 <= t < u && CalledAt(traces, sched, t, u, q)
  }

  ghost predicate CalledAt(traces: seq<seq<Event>>, sched: seq<nat>, t: nat, u: nat, q: nat)
    requires Traces(traces) && t < |sched| && u < |sched| && InTraces(traces, sched, u)
  {
    && InTraces(traces, sched, t) && sched[t] == q
    && IsCollective(RecordAt(traces, sched, t)) && CallsUpTo(traces, sched, t) == CallsUpTo(traces, sched, u)
  }

  /** How many collective calls of its rank come before record t. */
  ghost function CallsUpTo(traces: seq<seq<Event>>, sched: seq<nat>, t: nat): nat
    requires Traces(traces) && t < |sched| && InTraces(traces, sched, t)
  {
    assert TraceOf(traces[sched[t]], sched[t]);
    |CallsOf(traces[sched[t]], Place(sched, t))|
  }

  /** The channel of a collective operation, from the record. */
  lemma CollectivePeer(e: Event, l: nat, n: nat) returns (q: nat)
    requires Readable(e) && IsCollective(e) && Small(e, n) && l < |OpsOf(e)| && e.kind.way == Recv
    ensures OpsOf(e)[l] == Close(Channel(QueueKind(e.kind.pattern), q, e.rank)) && q < n && Awaits(e, q, n)
  {
    q := if NamesPeer(e) then e.ints[0] else Other(e.rank, l);
  }

  lemma PeerOperation(e: Event, q: nat, n: nat) returns (l: nat)
    requires Readable(e) && IsCollective(e) && Small(e, n) && Awaits(e, q, n)
    ensures l < |OpsOf(e)| && OpsOf(e)[l] == Close(Channel(QueueKind(e.kind.pattern), q, e.rank)) && q < n
  {
    l := if NamesPeer(e) || q < e.rank then (if NamesPeer(e) then 0 else q) else q - 1;
  }

  /** The send of a call, found from its record. */
  lemma CallSend(traces: seq<seq<Event>>, sched: seq<nat>, calls: seq<Collective>, t: nat, u: nat, l: nat, q: nat) returns (k: nat)
    requires World(traces, calls) && Traces(traces) && t < |sched| && u < |sched| && InTraces(traces, sched, u)
    requires IsCollectiveSite(traces, SiteAt(sched, u, l)) && OpAt(traces, SiteAt(sched, u, l)).Close?
    requires OpAt(traces, SiteAt(sched, u, l)).channel.src == q && CalledAt(traces, sched, t, u, q)
    ensures SendOf(traces, sched, t, k, u, l)
  {
    hide Uses, UseCount, OpsOf, Ordinal, CollectiveOf, InWorld, IsCollective, CallsOf, WorldTrace, Mates;
    var r, n := SiteAt(sched, u, l), |traces|;
    OrdinalIsUses(traces, r, calls);
    var c, m := OpAt(traces, r).channel, Place(sched, t);
    WorldSource(traces, q, calls);
    WorldRecord(traces[q], m, q, n);
    SiteCall(traces[q], m, q, n, calls);
    k := UsedOp(traces[q][m], c, n);
    MatesOfOneCall(traces, SiteAt(sched, t, k), r, calls);
  }

  lemma CallSentBefore(traces: seq<seq<Event>>, sched: seq<nat>, calls: seq<Collective>, u: nat, l: nat, q: nat)
    requires World(traces, calls) && Traces(traces) && u < |sched| && InTraces(traces, sched, u)
    requires IsCollectiveSite(traces, SiteAt(sched, u, l)) && OpAt(traces, SiteAt(sched, u, l)).Close?
    requires OpAt(traces, SiteAt(sched, u, l)).channel.src == q
    ensures SentBefore(traces, sched, u, l) <==> CallBefore(traces, sched, u, q)
  {
    hide World, Mates, OpsOf, CollectiveOf, CallsOf, Traces;
    var r := SiteAt(sched, u, l);
    if SentBefore(traces, sched, u, l) {
      var t: nat, k: nat :| t < u && SendOf(traces, sched, t, k, u, l);
      var s := SiteAt(sched, t, k);
      MatesAlike(traces, s, r);
      MatesOpen(traces, s, r);
      MatesOfOneCall(traces, s, r, calls);
      assert CalledAt(traces, sched, t, u, q);
    }
    if CallBefore(traces, sched, u, q) {
      var t: nat :| t < u && CalledAt(traces, sched, t, u, q);
      var k := CallSend(traces, sched, calls, t, u, l, q);
    }
  }

  lemma MatesOpen(traces: seq<seq<Event>>, s: Site, r: Site)
    requires Traces(traces) && IsSite(traces, s) && IsSite(traces, r) && Mates(traces, s, r)
    ensures OpAt(traces, s).Open? && OpAt(traces, r).Close? && OpAt(traces, s).channel == OpAt(traces, r).channel
    ensures OpAt(traces, s).channel.src == s.rank
  {
    hide OpsOf, Ordinal;
    OwnOps(traces[s.rank][s.event], s.op);
  }

  // ----- Both -----

  /** What record u receives, if it receives anything, was sent before. */
  ghost predicate AllSentBefore(traces: seq<seq<Event>>, sched: seq<nat>, u: nat)
    requires Traces(traces) && u < |sched| && InTraces(traces, sched, u)
  {
    var e := RecordAt(traces, sched, u);
    && (e.kind == Link(Ptp, Recv) ==> MessageBefore(traces, sched, u))
    && (IsCollective(e) && Readable(e) ==>
          forall q: nat :: Awaits(e, q, |traces|) ==> CallBefore(traces, sched, u, q))
  }

  /** Each message is received after it was sent, and each collective call's data after the call of the rank it comes from. */
  ghost predicate InOrder(traces: seq<seq<Event>>, sched: seq<nat>)
    requires Traces(traces) && Schedules(traces, sched)
  {
    forall u :: 0 <= u < |sched| ==> InTraces(traces, sched, u) && AllSentBefore(traces, sched, u)
  }

  lemma RecordOfWorld(traces: seq<seq<Event>>, sched: seq<nat>, calls: seq<Collective>, u: nat)
    requires World(traces, calls) && Traces(traces) && u < |sched| && InTraces(traces, sched, u)
    ensures var e := RecordAt(traces, sched, u);
            Readable(e) && Small(e, |traces|) && e.rank == sched[u] && TraceOf(traces[sched[u]], sched[u])
  {
    WorldSource(traces, sched[u], calls);
    WorldRecord(traces[sched[u]], Place(sched, u), sched[u], |traces|);
  }

  lemma OrderedThenSent(traces: seq<seq<Event>>, sched: seq<nat>, calls: seq<Collective>, u: nat, l: nat)
    requires World(traces, calls) && Traces(traces) && AllWords(traces) && u < |sched| && InTraces(traces, sched, u)
    requires IsReceive(traces, sched, u, l) && AllSentBefore(traces, sched, u)
    ensures SentBefore(traces, sched, u, l)
  {
    hide World, Traces, AllWords, OpsOf, SentBefore, MessageBefore, CallBefore, Awaits;
    RecordOfWorld(traces, sched, calls, u);
    var e := RecordAt(traces, sched, u);
    WayOfOp(e, l);
    OpOfLink(e, l);
    if IsCollective(e) {
      var q := CollectivePeer(e, l, |traces|);
      CallSentBefore(traces, sched, calls, u, l, q);
    } else {
      OneOpOnly(e);
      MessageSentBefore(traces, sched, u);
    }
  }

  lemma SentThenOrdered(traces: seq<seq<Event>>, sched: seq<nat>, calls: seq<Collective>, u: nat)
    requires World(traces, calls) && Traces(traces) && AllWords(traces) && u < |sched| && InTraces(traces, sched, u)
    requires Causal(traces, sched)
    ensures AllSentBefore(traces, sched, u)
  {
    hide World, Traces, AllWords, OpsOf, SentBefore, MessageBefore, CallBefore, Awaits;
    RecordOfWorld(traces, sched, calls, u);
    var e := RecordAt(traces, sched, u);
    if e.kind == Link(Ptp, Recv) {
      OneOpOnly(e);
      assert IsReceive(traces, sched, u, 0) by {
        WayOfOp(e, 0);
      }
      MessageSentBefore(traces, sched, u);
    } else if IsCollective(e) {
      forall q: nat | Awaits(e, q, |traces|)
        ensures CallBefore(traces, sched, u, q)
      {
        var l := PeerOperation(e, q, |traces|);
        assert IsReceive(traces, sched, u, l);
        CallSentBefore(traces, sched, calls, u, l, q);
      }
    }
  }

  /** A merge is causal, as the queues see it, exactly when it is in order, as the records tell. */
  lemma CausalExactly(traces: seq<seq<Event>>, sched: seq<nat>, calls: seq<Collective>)
    requires World(traces, calls) && AllWords(traces) && Schedules(traces, sched)
    ensures Traces(traces)
    ensures Causal(traces, sched) <==> InOrder(traces, sched)
  {
    hide World, AllWords, SentBefore, AllSentBefore;
    WorldTraces(traces, calls);
    hide Traces;
    if Causal(traces, sched) {
      forall u | 0 <= u < |sched|
        ensures InTraces(traces, sched, u) && AllSentBefore(traces, sched, u)
      {
        SentThenOrdered(traces, sched, calls, u);
      }
    }
    if InOrder(traces, sched) {
      forall u: nat, l: nat | u < |sched| && IsReceive(traces, sched, u, l)
        ensures SentBefore(traces, sched, u, l)
      {
        OrderedThenSent(traces, sched, calls, u, l);
      }
    }
  }
}
