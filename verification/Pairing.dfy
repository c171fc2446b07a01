/**
  The pairing of links does not depend on how the ranks' traces are merged: the k-th send of a channel
  is paired with its k-th receive, whatever keys the two happen to get.
 */
module Pairing {
  import opened KeyNames
  import opened Links
  import opened Lists
  import opened Events
  import opened Translation
  import opened LinkTrails
  import opened LinkOutput
  import opened Merges

  /** Every record of rank r names r, and ranks are C ints. */
  ghost predicate Traces(traces: seq<seq<Event>>) {
    |traces| <= 0x8000_0000 && forall r :: 0 <= r < |traces| ==> TraceOf(traces[r], r)
  }

  ghost predicate TraceOf(trace: seq<Event>, r: nat) {
    AllReadable(trace) && forall i :: 0 <= i < |trace| ==> trace[i].rank == r
  }

  lemma MergedReadable(traces: seq<seq<Event>>, sched: seq<nat>)
    requires Traces(traces) && Schedules(traces, sched)
    ensures AllReadable(Merged(traces, sched))
  {
    forall t | 0 <= t < |sched|
      ensures Readable(Merged(traces, sched)[t])
    {
      MergedAt(traces, sched, t);
    }
  }

  lemma MergedAt(traces: seq<seq<Event>>, sched: seq<nat>, t: nat)
    requires Traces(traces) && Schedules(traces, sched) && t < |sched|
    ensures InTraces(traces, sched, t) && TraceOf(traces[sched[t]], sched[t])
    ensures var e := Merged(traces, sched)[t];
            Readable(e) && e == traces[sched[t]][Place(sched, t)] && e.rank == sched[t]
  {
    assert InTraces(traces, sched, t);
    assert TraceOf(traces[sched[t]], sched[t]);
  }

  /** An event sends only from its own rank and receives only at it. */
  lemma OwnOps(e: Event, k: nat)
    requires Readable(e) && k < |OpsOf(e)| && e.rank < 0x8000_0000
    ensures match OpsOf(e)[k] case Open(c) => c.src == e.rank case Close(c) => c.dst == e.rank
  {
  }

  /** Operations of the channel among the ones of a list that others follow. */
  lemma {:induction false} CountsFollow(own: seq<LinkOp>, n: nat, ops: seq<LinkOp>, p: nat, c: Channel)
    requires n <= |own| && Follows(own, ops, p)
    ensures Opens(ops, p + n, c) == Opens(ops, p, c) + Opens(own, n, c)
    ensures Closes(ops, p + n, c) == Closes(ops, p, c) + Closes(own, n, c)
  {
    if n > 0 {
      CountsFollow(own, n - 1, ops, p, c);
    }
  }

  lemma {:induction false} ForeignCounts(e: Event, n: nat, c: Channel)
    requires Readable(e) && n <= |OpsOf(e)| && e.rank < 0x8000_0000
    ensures c.src != e.rank ==> Opens(OpsOf(e), n, c) == 0
    ensures c.dst != e.rank ==> Closes(OpsOf(e), n, c) == 0
  {
    hide OpsOf;
    if n > 0 {
      ForeignCounts(e, n - 1, c);
      OwnOps(e, n - 1);
    }
  }

  /** Sends of channel c by the first n events of a trace, and receives. */
  function Sends(trace: seq<Event>, n: nat, c: Channel): nat
    requires AllReadable(trace) && n <= |trace|
  {
    OffsetInRange(trace, n);
    Opens(Ops(trace), Offset(trace, n), c)
  }

  function Receives(trace: seq<Event>, n: nat, c: Channel): nat
    requires AllReadable(trace) && n <= |trace|
  {
    OffsetInRange(trace, n);
    Closes(Ops(trace), Offset(trace, n), c)
  }

  lemma CountsNext(trace: seq<Event>, n: nat, c: Channel)
    requires AllReadable(trace) && n < |trace|
    ensures Readable(trace[n])
    ensures Sends(trace, n + 1, c) == Sends(trace, n, c) + Opens(OpsOf(trace[n]), |OpsOf(trace[n])|, c)
    ensures Receives(trace, n + 1, c) == Receives(trace, n, c) + Closes(OpsOf(trace[n]), |OpsOf(trace[n])|, c)
  {
    hide OpsOf;
    EventIsNext(trace, n);
    CountsFollow(OpsOf(trace[n]), |OpsOf(trace[n])|, Ops(trace), Offset(trace, n), c);
  }

  /** A channel's sends in any merge are those in its source's trace, its receives those in its destination's. */
  lemma {:induction false} SendsMerged(traces: seq<seq<Event>>, sched: seq<nat>, n: nat, c: Channel)
    requires Traces(traces) && Schedules(traces, sched) && n <= |sched| && 0 <= c.src < |traces|
    ensures AllReadable(Merged(traces, sched)) && TraceOf(traces[c.src], c.src)
    ensures Count(sched, n, c.src) <= |traces[c.src]|
    ensures Sends(Merged(traces, sched), n, c) == Sends(traces[c.src], Count(sched, n, c.src), c)
  {
    hide Sends, OpsOf;
    MergedReadable(traces, sched);
    CountInTrace(traces, sched, n, c.src);
    assert TraceOf(traces[c.src], c.src);
    if n == 0 {
      NoneYet(Merged(traces, sched), c);
      NoneYet(traces[c.src], c);
    } else {
      SendsMerged(traces, sched, n - 1, c);
      MergedAt(traces, sched, n - 1);
      var e := Merged(traces, sched)[n - 1];
      CountsNext(Merged(traces, sched), n - 1, c);
      ForeignCounts(e, |OpsOf(e)|, c);
      if sched[n - 1] == c.src {
        CountsNext(traces[c.src], Count(sched, n - 1, c.src), c);
      }
    }
  }

  lemma {:induction false} ReceivesMerged(traces: seq<seq<Event>>, sched: seq<nat>, n: nat, c: Channel)
    requires Traces(traces) && Schedules(traces, sched) && n <= |sched| && 0 <= c.dst < |traces|
    ensures AllReadable(Merged(traces, sched)) && TraceOf(traces[c.dst], c.dst)
    ensures Count(sched, n, c.dst) <= |traces[c.dst]|
    ensures Receives(Merged(traces, sched), n, c) == Receives(traces[c.dst], Count(sched, n, c.dst), c)
  {
    hide Receives, OpsOf;
    MergedReadable(traces, sched);
    CountInTrace(traces, sched, n, c.dst);
    assert TraceOf(traces[c.dst], c.dst);
    if n == 0 {
      NoneYet(Merged(traces, sched), c);
      NoneYet(traces[c.dst], c);
    } else {
      ReceivesMerged(traces, sched, n - 1, c);
      MergedAt(traces, sched, n - 1);
      var e := Merged(traces, sched)[n - 1];
      CountsNext(Merged(traces, sched), n - 1, c);
      ForeignCounts(e, |OpsOf(e)|, c);
      if sched[n - 1] == c.dst {
        CountsNext(traces[c.dst], Count(sched, n - 1, c.dst), c);
      }
    }
  }

  lemma NoneYet(trace: seq<Event>, c: Channel)
    requires AllReadable(trace)
    ensures Sends(trace, 0, c) == 0 && Receives(trace, 0, c) == 0
  {
  }

  // ----- Where a link operation is -----

  /** Operation `op` of event `event` of rank `rank`. */
  datatype Site = Site(rank: nat, event: nat, op: nat)

  ghost predicate IsSite(traces: seq<seq<Event>>, s: Site) {
    && s.rank < |traces| && TraceOf(traces[s.rank], s.rank) && s.event < |traces[s.rank]|
    && Readable(traces[s.rank][s.event]) && s.op < |OpsOf(traces[s.rank][s.event])|
  }

  ghost function OpAt(traces: seq<seq<Event>>, s: Site): LinkOp
    requires IsSite(traces, s)
  {
    OpsOf(traces[s.rank][s.event])[s.op]
  }

  /** How many sends of the operation's channel precede it in its rank's trace or, for a receive, receives. */
  ghost function Ordinal(traces: seq<seq<Event>>, s: Site): nat
    requires IsSite(traces, s)
  {
    var trace, own := traces[s.rank], OpsOf(traces[s.rank][s.event]);
    match OpAt(traces, s)
    case Open(c) => Sends(trace, s.event, c) + Opens(own, s.op, c)
    case Close(c) => Receives(trace, s.event, c) + Closes(own, s.op, c)
  }

  /** The send at s and the receive at r are of one channel, and each is the same one there, counting from the first. */
  ghost predicate Mates(traces: seq<seq<Event>>, s: Site, r: Site)
    requires IsSite(traces, s) && IsSite(traces, r)
  {
    && OpAt(traces, s).Open? && OpAt(traces, r).Close?
    && OpAt(traces, s).channel == OpAt(traces, r).channel && Ordinal(traces, s) == Ordinal(traces, r)
  }

  /** The site of operation k of the t-th merged record. */
  function SiteAt(sched: seq<nat>, t: nat, k: nat): Site
    requires t < |sched|
  {
    Site(sched[t], Place(sched, t), k)
  }

  /** The number of operations before it in the merged stream. */
  function Position(events: seq<Event>, t: nat, k: nat): nat
    requires AllReadable(events) && t < |events|
  {
    Offset(events, t) + k
  }

  /** A merge keeps every operation's ordinal on its channel. */
  lemma OrdinalKept(traces: seq<seq<Event>>, sched: seq<nat>, t: nat, k: nat)
    requires Traces(traces) && Schedules(traces, sched) && t < |sched| && IsSite(traces, SiteAt(sched, t, k))
    ensures AllReadable(Merged(traces, sched))
    ensures var ops, p, s := Ops(Merged(traces, sched)), Position(Merged(traces, sched), t, k), SiteAt(sched, t, k);
            && p < |ops| && ops[p] == OpAt(traces, s)
            && (ops[p].Open? ==> Opens(ops, p, ops[p].channel) == Ordinal(traces, s))
            && (ops[p].Close? ==> Closes(ops, p, ops[p].channel) == Ordinal(traces, s))
  {
    hide OpsOf, Schedules, Traces;
    var events := Merged(traces, sched);
    MergedReadable(traces, sched);
    MergedAt(traces, sched, t);
    EventIsNext(events, t);
    RankInRange(traces, sched[t]);
    var own, c := OpsOf(events[t]), OpsOf(events[t])[k].channel;
    OwnOps(events[t], k);
    CountsFollow(own, k, Ops(events), Offset(events, t), c);
    if own[k].Open? {
      SendsMerged(traces, sched, t, c);
    } else {
      ReceivesMerged(traces, sched, t, c);
    }
  }

  lemma RankInRange(traces: seq<seq<Event>>, r: nat)
    requires Traces(traces) && r < |traces|
    ensures r < 0x8000_0000
  {
  }

  // ----- Merges that put every receive after its send -----

  ghost predicate IsReceive(traces: seq<seq<Event>>, sched: seq<nat>, u: nat, l: nat)
    requires u < |sched|
  {
    IsSite(traces, SiteAt(sched, u, l)) && OpAt(traces, SiteAt(sched, u, l)).Close?
  }

  /** The send that belongs to the receive was merged before it. */
  ghost predicate SentBefore(traces: seq<seq<Event>>, sched: seq<nat>, u: nat, l: nat)
    requires u < |sched| && IsSite(traces, SiteAt(sched, u, l))
  {
    exists t: nat, k: nat :: t < u && SendOf(traces, sched, t, k, u, l)
  }

  ghost predicate SendOf(traces: seq<seq<Event>>, sched: seq<nat>, t: nat, k: nat, u: nat, l: nat)
    requires t < |sched| && u < |sched| && IsSite(traces, SiteAt(sched, u, l))
  {
    IsSite(traces, SiteAt(sched, t, k)) && Mates(traces, SiteAt(sched, t, k), SiteAt(sched, u, l))
  }

  ghost predicate Causal(traces: seq<seq<Event>>, sched: seq<nat>) {
    forall u: nat, l: nat ::
      u < |sched| && IsReceive(traces, sched, u, l) ==> SentBefore(traces, sched, u, l)
  }

  lemma PositionsGrow(events: seq<Event>, t: nat, k: nat, u: nat, l: nat)
    requires AllReadable(events) && t < u < |events| && Readable(events[t]) && k < |OpsOf(events[t])|
    ensures Position(events, t, k) < Position(events, u, l)
  {
    hide OpsOf;
    EventIsNext(events, t);
    FlattenGrows(OpLists(events), t + 1, u);
  }

  /** Every operation of the merged stream is at some site. */
  lemma SiteFound(traces: seq<seq<Event>>, sched: seq<nat>, p: nat) returns (t: nat, k: nat)
    requires Traces(traces) && Schedules(traces, sched) && AllReadable(Merged(traces, sched))
    requires p < |Ops(Merged(traces, sched))|
    ensures t < |sched| && IsSite(traces, SiteAt(sched, t, k)) && p == Position(Merged(traces, sched), t, k)
  {
    hide OpsOf, Traces, Schedules;
    var events := Merged(traces, sched);
    t, k := FlattenFind(OpLists(events), |events|, p);
    MergedAt(traces, sched, t);
  }

  lemma {:induction false} OpensGrow(ops: seq<LinkOp>, m: nat, n: nat, c: Channel)
    requires m <= n <= |ops|
    ensures Opens(ops, m, c) <= Opens(ops, n, c)
  {
    if m < n {
      OpensGrow(ops, m, n - 1, c);
    }
  }

  /** A receive whose send was merged before it finds a key. */
  lemma SentThenServed(traces: seq<seq<Event>>, sched: seq<nat>, u: nat, l: nat)
    requires Traces(traces) && Schedules(traces, sched) && u < |sched| && IsReceive(traces, sched, u, l)
    requires SentBefore(traces, sched, u, l)
    ensures AllReadable(Merged(traces, sched)) && Position(Merged(traces, sched), u, l) < |Ops(Merged(traces, sched))|
    ensures Served(Ops(Merged(traces, sched)), Position(Merged(traces, sched), u, l))
  {
    hide OpsOf, Traces, Schedules, Merged, IsSite;
    var t: nat, k: nat :| t < u && SendOf(traces, sched, t, k, u, l);
    OrdinalKept(traces, sched, t, k);
    OrdinalKept(traces, sched, u, l);
    SiteEarlier(traces, sched, t, k, u, l);
    var ops, p, q := Ops(Merged(traces, sched)), Position(Merged(traces, sched), t, k), Position(Merged(traces, sched), u, l);
    OpensGrow(ops, p + 1, q, ops[q].channel);
  }

  lemma SiteEarlier(traces: seq<seq<Event>>, sched: seq<nat>, t: nat, k: nat, u: nat, l: nat)
    requires Traces(traces) && Schedules(traces, sched) && t < u < |sched| && IsSite(traces, SiteAt(sched, t, k))
    requires AllReadable(Merged(traces, sched))
    ensures Position(Merged(traces, sched), t, k) < Position(Merged(traces, sched), u, l)
  {
    hide OpsOf, Traces, Schedules;
    MergedAt(traces, sched, t);
    PositionsGrow(Merged(traces, sched), t, k, u, l);
  }

  /** A receive that finds a key has its send before it. */
  lemma ServedThenSent(traces: seq<seq<Event>>, sched: seq<nat>, u: nat, l: nat)
    requires Traces(traces) && Schedules(traces, sched) && u < |sched| && IsReceive(traces, sched, u, l)
    requires AllReadable(Merged(traces, sched)) && Position(Merged(traces, sched), u, l) < |Ops(Merged(traces, sched))|
    requires Served(Ops(Merged(traces, sched)), Position(Merged(traces, sched), u, l))
    ensures SentBefore(traces, sched, u, l)
  {
    hide OpsOf, Traces, Schedules, Merged, IsSite;
    OrdinalKept(traces, sched, u, l);
    var ops, q := Ops(Merged(traces, sched)), Position(Merged(traces, sched), u, l);
    var c := ops[q].channel;
    var p := OpenedAt(ops, q, c, Closes(ops, q, c));
    var t, k := SiteFound(traces, sched, p);
    OrdinalKept(traces, sched, t, k);
    if u < t {
      SiteEarlier(traces, sched, u, l, t, k);
    }
    if t == u {
      SameWay(traces, sched, u, k, l);
    }
    assert SendOf(traces, sched, t, k, u, l);
  }

  /** All operations of one record are sends, or all are receives. */
  lemma SameWay(traces: seq<seq<Event>>, sched: seq<nat>, t: nat, k: nat, l: nat)
    requires t < |sched| && IsSite(traces, SiteAt(sched, t, k)) && IsSite(traces, SiteAt(sched, t, l))
    ensures OpAt(traces, SiteAt(sched, t, k)).Open? <==> OpAt(traces, SiteAt(sched, t, l)).Open?
  {
  }

  /** A merge puts every receive after its send exactly when no receive of the merged stream lacks a key. */
  lemma CausalIffSound(traces: seq<seq<Event>>, sched: seq<nat>)
    requires Traces(traces) && Schedules(traces, sched)
    ensures AllReadable(Merged(traces, sched))
    ensures Causal(traces, sched) <==> Sound(Ops(Merged(traces, sched)), |Ops(Merged(traces, sched))|)
  {
    hide OpsOf, Traces, Schedules, Merged, IsSite, Served, SentBefore;
    MergedReadable(traces, sched);
    var ops := Ops(Merged(traces, sched));
    if Causal(traces, sched) {
      forall q | 0 <= q < |ops|
        ensures Served(ops, q)
      {
        CausalServes(traces, sched, q);
      }
    }
    if Sound(ops, |ops|) {
      forall u: nat, l: nat | u < |sched| && IsReceive(traces, sched, u, l)
        ensures SentBefore(traces, sched, u, l)
      {
        OrdinalKept(traces, sched, u, l);
        assert Served(ops, Position(Merged(traces, sched), u, l));
        ServedThenSent(traces, sched, u, l);
      }
    }
  }

  lemma CausalServes(traces: seq<seq<Event>>, sched: seq<nat>, q: nat)
    requires Traces(traces) && Schedules(traces, sched) && AllReadable(Merged(traces, sched)) && Causal(traces, sched)
    requires q < |Ops(Merged(traces, sched))|
    ensures Served(Ops(Merged(traces, sched)), q)
  {
    hide OpsOf, Traces, Schedules, Merged, IsSite, SentBefore;
    if Ops(Merged(traces, sched))[q].Close? {
      var u, l := SiteFound(traces, sched, q);
      OrdinalKept(traces, sched, u, l);
      assert IsReceive(traces, sched, u, l);
      SentThenServed(traces, sched, u, l);
    }
  }

  // ----- The theorems -----

  /** The key table has room for every channel received from. */
  ghost predicate AllCarried(events: seq<Event>, o: Options)
    requires AllReadable(events)
  {
    Carried(Ops(events), |Ops(events)|, o.capacity)
  }

  /** The key the output shows for an operation of a merged record. */
  ghost function KeyShown(traces: seq<seq<Event>>, sched: seq<nat>, t: nat, k: nat, o: Options): string
    requires Traces(traces) && Schedules(traces, sched) && t < |sched| && AllReadable(Merged(traces, sched))
    requires Position(Merged(traces, sched), t, k) < |Trail(Output(Merged(traces, sched), o))|
  {
    var r := Trail(Output(Merged(traces, sched), o))[Position(Merged(traces, sched), t, k)];
    if r.StartLink? || r.EndLink? then r.key else ""
  }

  /**
    A merge is translated to its end exactly when it puts each receive after its send and the key table
    has room for every channel received from.
   */
  lemma MergeFailsExactly(traces: seq<seq<Event>>, sched: seq<nat>, o: Options)
    requires Traces(traces) && Schedules(traces, sched) && !o.noLinks && !o.ignoreErrors
    ensures AllReadable(Merged(traces, sched))
    ensures Translated(Merged(traces, sched), |sched|, o).fail <==>
            !(Causal(traces, sched) && AllCarried(Merged(traces, sched), o))
  {
    hide Traces, Schedules, Causal, Translate, Sound, Carried;
    CausalIffSound(traces, sched);
    FailsExactly(Merged(traces, sched), |sched|, o);
  }

  /**
    In every such merge a receive shows the key of a send exactly when the two are mates, which only
    the traces decide: the pairing is the same for all of them.
   */
  lemma CausalMergePairs(traces: seq<seq<Event>>, sched: seq<nat>, t: nat, k: nat, u: nat, l: nat, o: Options)
    requires Traces(traces) && Schedules(traces, sched) && Causal(traces, sched) && !o.noLinks
    requires AllReadable(Merged(traces, sched)) && AllCarried(Merged(traces, sched), o)
    requires t < |sched| && IsSite(traces, SiteAt(sched, t, k)) && OpAt(traces, SiteAt(sched, t, k)).Open?
    requires u < |sched| && IsSite(traces, SiteAt(sched, u, l)) && OpAt(traces, SiteAt(sched, u, l)).Close?
    ensures var trail := Trail(Output(Merged(traces, sched), o));
            && Position(Merged(traces, sched), t, k) < |trail| && Position(Merged(traces, sched), u, l) < |trail|
            && (KeyShown(traces, sched, t, k, o) == KeyShown(traces, sched, u, l, o) <==>
                Mates(traces, SiteAt(sched, t, k), SiteAt(sched, u, l)))
  {
    hide OpsOf, Traces, Schedules, Causal, Merged, IsSite, Carried, Sound, Output, Outcome, Opens, Closes, Ordinal;
    CausalIffSound(traces, sched);
    var events := Merged(traces, sched);
    var p, q := Position(events, t, k), Position(events, u, l);
    OrdinalKept(traces, sched, t, k);
    OrdinalKept(traces, sched, u, l);
    OutputLinks(events, o);
    assert Recorded(Trail(Output(events, o)), Ops(events), p, o.capacity);
    assert Recorded(Trail(Output(events, o)), Ops(events), q, o.capacity);
    SoundOutputPairs(events, p, q, o);
  }
}
