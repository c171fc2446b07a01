/**
  Point-to-point messages, told from the fields of the records alone: the k-th send of one rank to
  another belongs to the k-th receive there from it.  And what it means, on the same fields, that a
  merge puts every receive after its send.
 */
module PointToPoint {
  import opened KeyNames
  import opened Links
  import opened Events
  import opened Translation
  import opened LinkTrails
  import opened LinkOutput
  import opened Merges
  import opened Pairing
  import opened Collectives

  // ----- Messages in a trace -----

  predicate SendTo(e: Event, d: nat) {
    e.kind == Link(Ptp, Send) && e.ints != [] && e.ints[0] == d
  }

  predicate RecvFrom(e: Event, s: nat) {
    e.kind == Link(Ptp, Recv) && e.ints != [] && e.ints[0] == s
  }

  /** How many of the first n records are sends to rank d, and how many receives from rank s. */
  function SendsTo(trace: seq<Event>, n: nat, d: nat): nat
    requires n <= |trace|
  {
    if n == 0 then 0 else SendsTo(trace, n - 1, d) + if SendTo(trace[n - 1], d) then 1 else 0
  }

  function RecvsFrom(trace: seq<Event>, n: nat, s: nat): nat
    requires n <= |trace|
  {
    if n == 0 then 0 else RecvsFrom(trace, n - 1, s) + if RecvFrom(trace[n - 1], s) then 1 else 0
  }

  /** The rank in a point-to-point record is a 32-bit number. */
  predicate Word(e: Event) {
    Readable(e) && (e.kind.Link? && e.kind.pattern == Ptp ==> e.ints[0] < 0x1_0000_0000)
  }

  ghost predicate Words(trace: seq<Event>) {
    forall i :: 0 <= i < |trace| ==> Word(trace[i])
  }

  ghost predicate AllWords(traces: seq<seq<Event>>) {
    forall r :: 0 <= r < |traces| ==> Words(traces[r])
  }

  function Message(s: nat, d: nat): Channel {
    Channel("ptp", s, d)
  }

  lemma RankAsInt(r: nat, n: nat)
    requires r < 0x8000_0000 && n < 0x1_0000_0000
    ensures AsInt(n) == r <==> n == r
  {
    if n < r {
      AsIntInjective(n, r);
    } else if r < n {
      AsIntInjective(r, n);
    }
  }

  /** The operations of records that are not point to point are on other channels. */
  lemma OtherPatterns(e: Event, c: Channel)
    requires Readable(e) && c.kind == "ptp" && !(e.kind.Link? && e.kind.pattern == Ptp)
    ensures Open(c) !in OpsOf(e) && Close(c) !in OpsOf(e)
  {
    hide OpsOf;
    forall i | 0 <= i < |OpsOf(e)|
      ensures OpsOf(e)[i].channel != c
    {
      OpOfLink(e, i);
      NotPtp(e, i);
    }
  }

  lemma OneOpOnly(e: Event)
    requires Readable(e) && e.kind.Link? && e.kind.pattern == Ptp
    ensures OpsOf(e) == [PeerOp(e, e.ints[0])]
  {
  }

  lemma MessageOps(e: Event, s: nat, d: nat)
    requires Word(e) && s < 0x8000_0000 && d < 0x8000_0000
    ensures e.rank == s ==> Opens(OpsOf(e), |OpsOf(e)|, Message(s, d)) == if SendTo(e, d) then 1 else 0
    ensures e.rank == d ==> Closes(OpsOf(e), |OpsOf(e)|, Message(s, d)) == if RecvFrom(e, s) then 1 else 0
  {
    var c := Message(s, d);
    if e.kind.Link? && e.kind.pattern == Ptp {
      OneOpOnly(e);
      RankAsInt(s, e.ints[0]);
      RankAsInt(d, e.ints[0]);
      var own := OpsOf(e);
      assert Opens(own, 0, c) == 0 && Closes(own, 0, c) == 0;
    } else {
      OtherPatterns(e, c);
      NoOpens(OpsOf(e), |OpsOf(e)|, c);
      NoCloses(OpsOf(e), |OpsOf(e)|, c);
    }
  }

  lemma {:induction false} SendsAreMessages(trace: seq<Event>, n: nat, s: nat, d: nat)
    requires TraceOf(trace, s) && Words(trace) && n <= |trace| && s < 0x8000_0000 && d < 0x8000_0000
    ensures Sends(trace, n, Message(s, d)) == SendsTo(trace, n, d)
  {
    hide Sends, OpsOf, SendTo;
    if n == 0 {
      NoneYet(trace, Message(s, d));
    } else {
      SendsAreMessages(trace, n - 1, s, d);
      CountsNext(trace, n - 1, Message(s, d));
      assert Word(trace[n - 1]) && trace[n - 1].rank == s;
      MessageOps(trace[n - 1], s, d);
    }
  }

  lemma {:induction false} ReceivesAreMessages(trace: seq<Event>, n: nat, s: nat, d: nat)
    requires TraceOf(trace, d) && Words(trace) && n <= |trace| && s < 0x8000_0000 && d < 0x8000_0000
    ensures Receives(trace, n, Message(s, d)) == RecvsFrom(trace, n, s)
  {
    hide Receives, OpsOf, RecvFrom;
    if n == 0 {
      NoneYet(trace, Message(s, d));
    } else {
      ReceivesAreMessages(trace, n - 1, s, d);
      CountsNext(trace, n - 1, Message(s, d));
      assert Word(trace[n - 1]) && trace[n - 1].rank == d;
      MessageOps(trace[n - 1], s, d);
    }
  }

  // ----- Mates -----

  /** Record i of rank s and record k of rank d are the same message: it is sent to d and received from s, and as many come before the one as before the other. */
  ghost predicate OneMessage(traces: seq<seq<Event>>, s: nat, i: nat, d: nat, k: nat)
    requires s < |traces| && d < |traces| && i < |traces[s]| && k < |traces[d]|
  {
    && SendTo(traces[s][i], d) && RecvFrom(traces[d][k], s)
    && SendsTo(traces[s], i, d) == RecvsFrom(traces[d], k, s)
  }

  ghost predicate IsMessageSite(traces: seq<seq<Event>>, s: Site, way: Way) {
    IsSite(traces, s) && traces[s.rank][s.event].kind == Link(Ptp, way)
  }

  /** The send and the receive at two sites are mates exactly when they are one message. */
  lemma MatesOfMessage(traces: seq<seq<Event>>, s: Site, r: Site)
    requires Traces(traces) && AllWords(traces) && IsMessageSite(traces, s, Send) && IsMessageSite(traces, r, Recv)
    ensures Mates(traces, s, r) <==> OneMessage(traces, s.rank, s.event, r.rank, r.event)
  {
    hide Sends, Receives, OpsOf, SendsTo, RecvsFrom;
    var e, f := traces[s.rank][s.event], traces[r.rank][r.event];
    assert Word(e) && Word(f) by {
      assert Words(traces[s.rank]) && Words(traces[r.rank]);
    }
    assert e.rank == s.rank && f.rank == r.rank;
    OneOpOnly(e);
    OneOpOnly(f);
    RankAsInt(r.rank, e.ints[0]);
    RankAsInt(s.rank, f.ints[0]);
    if SendTo(e, r.rank) && RecvFrom(f, s.rank) {
      assert Words(traces[s.rank]) && Words(traces[r.rank]);
      SendsAreMessages(traces[s.rank], s.event, s.rank, r.rank);
      ReceivesAreMessages(traces[r.rank], r.event, s.rank, r.rank);
      NothingBefore(OpsOf(e), Message(s.rank, r.rank));
      NothingBefore(OpsOf(f), Message(s.rank, r.rank));
    }
  }

  lemma NothingBefore(ops: seq<LinkOp>, c: Channel)
    ensures Opens(ops, 0, c) == 0 && Closes(ops, 0, c) == 0
  {
  }

  /** Messages and collective calls never mate, and only sends mate with receives. */
  lemma MatesAlike(traces: seq<seq<Event>>, s: Site, r: Site)
    requires IsSite(traces, s) && IsSite(traces, r) && Mates(traces, s, r)
    ensures IsMessageSite(traces, r, Recv) ==> IsMessageSite(traces, s, Send)
    ensures IsCollectiveSite(traces, r) ==> IsCollectiveSite(traces, s)
  {
    hide Ordinal;
    var e, f := traces[s.rank][s.event], traces[r.rank][r.event];
    OpOfLink(e, s.op);
    OpOfLink(f, r.op);
    if IsCollective(e) {
      NotPtp(e, s.op);
    }
    if IsCollective(f) {
      NotPtp(f, r.op);
    }
    WayOfOp(e, s.op);
  }

  // ----- Keys -----

  /**
    However a causal merge interleaves the ranks, the output shows the same key for a send record and a
    receive record exactly when they are one message.
   */
  lemma MessageKeysPair(traces: seq<seq<Event>>, sched: seq<nat>, t: nat, u: nat, o: Options)
    requires Traces(traces) && AllWords(traces) && Schedules(traces, sched) && Causal(traces, sched) && !o.noLinks
    requires AllReadable(Merged(traces, sched)) && AllCarried(Merged(traces, sched), o)
    requires t < |sched| && IsMessageSite(traces, SiteAt(sched, t, 0), Send)
    requires u < |sched| && IsMessageSite(traces, SiteAt(sched, u, 0), Recv)
    ensures var trail := Trail(Output(Merged(traces, sched), o));
            && Position(Merged(traces, sched), t, 0) < |trail| && Position(Merged(traces, sched), u, 0) < |trail|
            && (KeyShown(traces, sched, t, 0, o) == KeyShown(traces, sched, u, 0, o) <==>
                OneMessage(traces, sched[t], Place(sched, t), sched[u], Place(sched, u)))
  {
    hide Traces, AllWords, Schedules, Causal, Merged, Mates, OneMessage, AllCarried, KeyShown, Output, OpsOf;
    var s, r := SiteAt(sched, t, 0), SiteAt(sched, u, 0);
    WayOfOp(traces[s.rank][s.event], 0);
    WayOfOp(traces[r.rank][r.event], 0);
    CausalMergePairs(traces, sched, t, 0, u, 0, o);
    MatesOfMessage(traces, s, r);
  }
}
