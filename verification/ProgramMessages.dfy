/**
  Messages from program to output: the k-th send of one program to another and the k-th message that
  program receives from it have the same key, whatever else the programs do.
 */
module ProgramMessages {
  import opened Events
  import opened Calls
  import opened RankTraces
  import opened RankReceives
  import opened RankRecords
  import opened Programs
  import opened Merges
  import Capacity
  import Causality
  import Collectives
  import LinkOutput
  import LinkTrails
  import Links
  import Paje
  import Pairing
  import PointToPoint
  import Translation

  // ----- Peers -----

  /** Messages are received from ranks of the communicator. */
  ghost predicate SourcesIn(calls: seq<Call>, n: nat) {
    forall m, t :: 0 <= m < |calls| && 0 <= t < |Arrivals(calls, m)| ==> Arrivals(calls, m)[t] < n
  }

  ghost predicate AllSourcesIn(programs: seq<seq<Call>>) {
    forall r :: 0 <= r < |programs| ==> SourcesIn(programs[r], |programs|)
  }

  predicate PeerInside(e: Entry, n: nat) {
    e.kind.Link? && e.kind.pattern == Ptp ==> e.ints != [] && e.ints[0] < n
  }

  ghost predicate PeersInside(entries: seq<Entry>, n: nat) {
    forall i :: 0 <= i < |entries| ==> PeerInside(entries[i], n)
  }

  lemma CallPeers(calls: seq<Call>, m: nat, rank: nat, n: nat)
    requires m < |calls| && DestIn(calls[m], n) && forall t :: 0 <= t < |Arrivals(calls, m)| ==> Arrivals(calls, m)[t] < n
    ensures PeersInside(Entries(State(calls, m), rank, n, calls[m]), n)
  {
    hide State, Outstanding, ReportedFirst, Completions;
    var inner := Inner(State(calls, m), rank, n, calls[m]);
    forall i | 0 <= i < |inner|
      ensures PeerInside(inner[i], n)
    {
      if IsWait(calls[m]) {
        RecordsOfCall(calls, m, rank, n);
        assert Arrivals(calls, m)[i] < n;
      } else if calls[m].Receive? {
        assert Arrivals(calls, m)[0] < n;
      }
    }
  }

  lemma {:induction false} BodyPeers(calls: seq<Call>, m: nat, rank: nat, n: nat)
    requires m <= |calls| && SourcesIn(calls, n) && forall i :: 0 <= i < |calls| ==> DestIn(calls[i], n)
    ensures PeersInside(Body(calls, m, rank, n), n)
  {
    hide Entries, State, Arrivals, PeerInside;
    if m > 0 {
      BodyPeers(calls, m - 1, rank, n);
      CallPeers(calls, m - 1, rank, n);
    }
  }

  lemma ProgramsWords(programs: seq<seq<Call>>, clocks: seq<nat -> real>, calls: seq<Collectives.Collective>)
    requires |clocks| == |programs| <= 0x8000_0000 && AllSameCalls(programs, calls)
    requires AllDestsIn(programs) && AllSourcesIn(programs)
    ensures PointToPoint.AllWords(TracesOf(programs, clocks))
  {
    var traces, n := TracesOf(programs, clocks), |programs|;
    ProgramsMakeWorld(programs, clocks, calls);
    forall r, i | 0 <= r < n && 0 <= i < |traces[r]|
      ensures PointToPoint.Word(traces[r][i])
    {
      assert Collectives.MakesCalls(traces[r], r, n, calls);
      assert Collectives.ReadableIn(traces[r][i], n);
      assert SourcesIn(programs[r], n);
      BodyPeers(programs[r], |programs[r]|, r, n);
      assert PeerInside(Trace(programs[r], r, n)[i], n);
    }
    forall r | 0 <= r < n
      ensures PointToPoint.Words(traces[r])
    {
    }
  }

  // ----- Counting in the stamped trace -----

  lemma {:induction false} StampedSends(entries: seq<Entry>, m: nat, rank: nat, clock: nat -> real, d: nat)
    requires m <= |entries|
    ensures PointToPoint.SendsTo(Stamped(entries, rank, clock), m, d) == Naming(Linked(entries[..m], Send), d)
  {
    hide Linked, Naming;
    if m == 0 {
      NothingLinked(Send);
      NothingNamed(d);
    } else {
      StampedSends(entries, m - 1, rank, clock, d);
      LastNaming(entries, m, Send, d);
    }
  }

  lemma {:induction false} StampedReceives(entries: seq<Entry>, m: nat, rank: nat, clock: nat -> real, s: nat)
    requires m <= |entries|
    ensures PointToPoint.RecvsFrom(Stamped(entries, rank, clock), m, s) == Naming(Linked(entries[..m], Recv), s)
  {
    hide Linked, Naming;
    if m == 0 {
      NothingLinked(Recv);
      NothingNamed(s);
    } else {
      StampedReceives(entries, m - 1, rank, clock, s);
      LastNaming(entries, m, Recv, s);
    }
  }

  lemma LastNaming(entries: seq<Entry>, m: nat, way: Way, peer: nat)
    requires 0 < m <= |entries|
    ensures Naming(Linked(entries[..m], way), peer) ==
            Naming(Linked(entries[..m - 1], way), peer)
            + var e := entries[m - 1];
              if e.kind == Link(Ptp, way) && e.ints != [] && e.ints[0] == peer then 1 else 0
  {
    hide Linked, Naming;
    var before, e := entries[..m - 1], entries[m - 1];
    assert entries[..m] == before + [e];
    LinkedAppend(before, [e], way);
    OneLinked(e, way);
    NamingAppend(Linked(before, way), AsFields(e, way), peer);
    NothingNamed(peer);
    if AsFields(e, way) != [] {
      OneNaming(AsFields(e, way)[0], peer);
      assert AsFields(e, way) == [AsFields(e, way)[0]];
    }
  }

  // ----- One message -----

  /**
    Send i of program s and the t-th message completed by call m of program d are the same message: one
    goes to d, the other comes from s, and each is the same one between the two, counting from the first.
   */
  predicate SameMessage(programs: seq<seq<Call>>, s: nat, i: nat, d: nat, m: nat, t: nat)
    requires s < |programs| && d < |programs| && i < |programs[s]| && m < |programs[d]|
    requires IsSend(programs[s][i]) && t < |Arrivals(programs[d], m)|
  {
    && DestOf(programs[s][i]) == d && Arrivals(programs[d], m)[t] == s
    && MessagesTo(programs[s], i, d) == ArrivedFrom(programs[d], m, s) + CountOf(Arrivals(programs[d], m)[..t], s)
  }

  /** Where the records of the two are. */
  function SendSite(programs: seq<seq<Call>>, s: nat, i: nat): Pairing.Site
    requires s < |programs| && i < |programs[s]|
  {
    Pairing.Site(s, InnerPlace(programs[s], i, s, |programs|, 0), 0)
  }

  function ArrivalSite(programs: seq<seq<Call>>, d: nat, m: nat, t: nat): Pairing.Site
    requires d < |programs| && m < |programs[d]|
  {
    Pairing.Site(d, InnerPlace(programs[d], m, d, |programs|, t), 0)
  }

  /** The fields of the record of a send. */
  lemma SendRecord(programs: seq<seq<Call>>, clocks: seq<nat -> real>, s: nat, i: nat, d: nat)
    requires |clocks| == |programs| && s < |programs| && i < |programs[s]| && IsSend(programs[s][i])
    ensures var trace, p := TracesOf(programs, clocks)[s], SendSite(programs, s, i).event;
            && p < |trace| && trace[p] == Event(Link(Ptp, Send), s, clocks[s](p),
                                                [DestOf(programs[s][i]), SizeOf(programs[s][i])], [Sent(programs[s], i)])
            && PointToPoint.SendsTo(trace, p, d) == MessagesTo(programs[s], i, d)
  {
    hide Trace, Linked, Naming, MessagesTo, Sent, InnerPlace, PointToPoint.SendsTo;
    var n, p := |programs|, SendSite(programs, s, i).event;
    SendPlaced(programs[s], i, s, n, d);
    StampedSends(Trace(programs[s], s, n), p, s, clocks[s], d);
  }

  /** The fields of the record of a message received. */
  lemma ArrivalRecord(programs: seq<seq<Call>>, clocks: seq<nat -> real>, d: nat, m: nat, t: nat, s: nat)
    requires |clocks| == |programs| && d < |programs| && m < |programs[d]| && t < |Arrivals(programs[d], m)|
    ensures var trace, p := TracesOf(programs, clocks)[d], ArrivalSite(programs, d, m, t).event;
            && p < |trace| && trace[p] == Event(Link(Ptp, Recv), d, clocks[d](p), [Arrivals(programs[d], m)[t]], [])
            && PointToPoint.RecvsFrom(trace, p, s) ==
               ArrivedFrom(programs[d], m, s) + CountOf(Arrivals(programs[d], m)[..t], s)
  {
    hide Trace, Linked, Naming, ArrivedFrom, Arrivals, CountOf, InnerPlace, PointToPoint.RecvsFrom;
    var n, p := |programs|, ArrivalSite(programs, d, m, t).event;
    ArrivalPlaced(programs[d], m, t, d, n, s);
    StampedReceives(Trace(programs[d], d, n), p, d, clocks[d], s);
  }

  /** The k-th send to a rank is the mate of the k-th message received there from it, and of nothing else. */
  lemma MessagesMate(programs: seq<seq<Call>>, clocks: seq<nat -> real>, calls: seq<Collectives.Collective>,
                     s: nat, i: nat, d: nat, m: nat, t: nat)
    requires |clocks| == |programs| <= 0x8000_0000 && AllSameCalls(programs, calls)
    requires AllDestsIn(programs) && AllSourcesIn(programs)
    requires s < |programs| && d < |programs| && i < |programs[s]| && m < |programs[d]|
    requires IsSend(programs[s][i]) && t < |Arrivals(programs[d], m)|
    ensures var traces := TracesOf(programs, clocks);
            && Pairing.Traces(traces) && PointToPoint.AllWords(traces)
            && PointToPoint.IsMessageSite(traces, SendSite(programs, s, i), Send)
            && PointToPoint.IsMessageSite(traces, ArrivalSite(programs, d, m, t), Recv)
            && (Pairing.Mates(traces, SendSite(programs, s, i), ArrivalSite(programs, d, m, t)) <==>
                SameMessage(programs, s, i, d, m, t))
            && (PointToPoint.OneMessage(traces, s, SendSite(programs, s, i).event, d, ArrivalSite(programs, d, m, t).event) <==>
                SameMessage(programs, s, i, d, m, t))
  {
    hide TracesOf, AllSameCalls, AllDestsIn, AllSourcesIn, Collectives.World, Pairing.Traces, PointToPoint.AllWords,
         Pairing.Mates, PointToPoint.SendsTo, PointToPoint.RecvsFrom, MessagesTo, ArrivedFrom, Arrivals, CountOf, InnerPlace;
    var traces := TracesOf(programs, clocks);
    ProgramsMakeWorld(programs, clocks, calls);
    Collectives.WorldTraces(traces, calls);
    ProgramsWords(programs, clocks, calls);
    SendRecord(programs, clocks, s, i, d);
    ArrivalRecord(programs, clocks, d, m, t, s);
    IsSiteOf(traces, SendSite(programs, s, i));
    IsSiteOf(traces, ArrivalSite(programs, d, m, t));
    PointToPoint.MatesOfMessage(traces, SendSite(programs, s, i), ArrivalSite(programs, d, m, t));
  }

  lemma IsSiteOf(traces: seq<seq<Event>>, s: Pairing.Site)
    requires Pairing.Traces(traces) && s.rank < |traces| && s.event < |traces[s.rank]| && s.op == 0
    requires var e := traces[s.rank][s.event]; e.kind.Link? && e.kind.pattern == Ptp && e.ints != []
    ensures Pairing.IsSite(traces, s)
  {
    assert Pairing.TraceOf(traces[s.rank], s.rank);
    PointToPoint.OneOpOnly(traces[s.rank][s.event]);
  }

  // ----- The output -----

  /** A merge that is translated to its end. */
  ghost predicate Converts(traces: seq<seq<Event>>, sched: seq<nat>, o: Translation.Options) {
    && Pairing.Traces(traces) && Complete(traces, sched) && Pairing.Causal(traces, sched) && !o.noLinks
    && AllReadable(Merged(traces, sched)) && Pairing.AllCarried(Merged(traces, sched), o)
  }

  lemma ConvertsSmoothly(traces: seq<seq<Event>>, sched: seq<nat>, o: Translation.Options)
    requires Converts(traces, sched, o)
    ensures LinkOutput.Completes(Merged(traces, sched), o)
  {
    hide Pairing.Traces, Pairing.Causal, Merged, Links.Sound;
    Pairing.CausalIffSound(traces, sched);
  }

  /** The link record of an event of one rank, in the output. */
  lemma RecordDrawn(traces: seq<seq<Event>>, sched: seq<nat>, o: Translation.Options, s: Pairing.Site) returns (t: nat)
    requires Converts(traces, sched, o) && Pairing.IsSite(traces, s) && s.op == 0
    ensures t < |sched| && Pairing.SiteAt(sched, t, 0) == s
    ensures var events := Merged(traces, sched);
            var trail, p := LinkTrails.Trail(LinkOutput.Output(events, o)), Pairing.Position(events, t, 0);
            && p < |trail| && traces[s.rank][s.event].kind.Link?
            && LinkOutput.Shows(trail[p], traces[s.rank][s.event])
            && trail[p].key == Pairing.KeyShown(traces, sched, t, 0, o)
  {
    hide Pairing.Causal, Pairing.AllCarried, Merged, LinkOutput.Output, LinkOutput.Completes, LinkTrails.Trail, OpsOf,
         Pairing.Traces, LinkOutput.Shows;
    var events := Merged(traces, sched);
    t := Placed(sched, |sched|, s.rank, s.event);
    Pairing.MergedAt(traces, sched, t);
    ConvertsSmoothly(traces, sched, o);
    LinkOutput.OutputShows(events, o, t, 0);
    assert LinkOutput.Shows(LinkTrails.Trail(LinkOutput.Output(events, o))[Pairing.Position(events, t, 0)], events[t]);
    ShownIsLink(LinkTrails.Trail(LinkOutput.Output(events, o))[Pairing.Position(events, t, 0)], events[t]);
  }

  lemma ShownIsLink(r: Translation.Record, e: Event)
    requires e.kind.Link? && LinkOutput.Shows(r, e)
    ensures r.StartLink? || r.EndLink?
  {
  }

  /** The record of send i of program s, and of the t-th message that call m of program d completes. */
  function SendEvent(programs: seq<seq<Call>>, clocks: seq<nat -> real>, s: nat, i: nat): Event
    requires |clocks| == |programs| && s < |programs| && i < |programs[s]| && IsSend(programs[s][i])
  {
    Event(Link(Ptp, Send), s, clocks[s](SendSite(programs, s, i).event),
          [DestOf(programs[s][i]), SizeOf(programs[s][i])], [Sent(programs[s], i)])
  }

  function ArrivalEvent(programs: seq<seq<Call>>, clocks: seq<nat -> real>, d: nat, m: nat, t: nat): Event
    requires |clocks| == |programs| && d < |programs| && m < |programs[d]| && t < |Arrivals(programs[d], m)|
  {
    Event(Link(Ptp, Recv), d, clocks[d](ArrivalSite(programs, d, m, t).event), [Arrivals(programs[d], m)[t]], [])
  }

  /**
    From programs to the visualizer: in the output of any complete causal merge each send of a program has
    a StartLink, and each message it receives an EndLink, with its process, its time and, for the send,
    its size and mark; the two have the same key exactly when they are the same message.
   */
  lemma MessagesDrawn(programs: seq<seq<Call>>, clocks: seq<nat -> real>, calls: seq<Collectives.Collective>,
                      sched: seq<nat>, o: Translation.Options, s: nat, i: nat, d: nat, m: nat, t: nat)
    returns (p: nat, q: nat)
    requires |clocks| == |programs| <= 0x8000_0000 && AllSameCalls(programs, calls)
    requires AllDestsIn(programs) && AllSourcesIn(programs)
    requires s < |programs| && d < |programs| && i < |programs[s]| && m < |programs[d]|
    requires IsSend(programs[s][i]) && t < |Arrivals(programs[d], m)|
    requires Converts(TracesOf(programs, clocks), sched, o)
    ensures var trail := LinkTrails.Trail(LinkOutput.Output(Merged(TracesOf(programs, clocks), sched), o));
            && p < |trail| && LinkOutput.Shows(trail[p], SendEvent(programs, clocks, s, i))
            && q < |trail| && LinkOutput.Shows(trail[q], ArrivalEvent(programs, clocks, d, m, t))
            && trail[p].StartLink? && trail[q].EndLink?
            && (trail[p].key == trail[q].key <==> SameMessage(programs, s, i, d, m, t))
  {
    hide TracesOf, AllSameCalls, AllDestsIn, AllSourcesIn, Pairing.Traces, PointToPoint.AllWords, Pairing.Mates,
         PointToPoint.OneMessage, SameMessage, Pairing.KeyShown, Merged, LinkOutput.Output, LinkTrails.Trail,
         Pairing.Causal, Pairing.AllCarried, OpsOf, Arrivals, Sent, InnerPlace, Pairing.IsSite;
    var traces := TracesOf(programs, clocks);
    MessagesMate(programs, clocks, calls, s, i, d, m, t);
    SendRecord(programs, clocks, s, i, d);
    ArrivalRecord(programs, clocks, d, m, t, s);
    var x := RecordDrawn(traces, sched, o, SendSite(programs, s, i));
    var y := RecordDrawn(traces, sched, o, ArrivalSite(programs, d, m, t));
    PointToPoint.MessageKeysPair(traces, sched, x, y, o);
    p := Pairing.Position(Merged(traces, sched), x, 0);
    q := Pairing.Position(Merged(traces, sched), y, 0);
  }

  /**
    When up to 16 ranks run programs that talk to one another only and make the same collective calls, and
    their whole traces are merged, the converter fails exactly when the merge does not put each message
    behind its sending and each collective receive behind the calls of the ranks it receives from; and
    the whole output makes sense exactly when it does.
   */
  lemma MergesConvert(programs: seq<seq<Call>>, clocks: seq<nat -> real>, calls: seq<Collectives.Collective>,
                      sched: seq<nat>, o: Translation.Options)
    requires 0 < |programs| == |clocks| <= 16 && AllSameCalls(programs, calls)
    requires AllDestsIn(programs) && AllSourcesIn(programs)
    requires forall r, i: nat :: 0 <= r < |clocks| ==> clocks[r](i) >= 0.0
    requires Complete(TracesOf(programs, clocks), sched)
    requires !o.noLinks && !o.ignoreErrors && o.capacity == Capacity.KEY_TABLE_SIZE
    ensures var traces := TracesOf(programs, clocks);
            && Pairing.Traces(traces) && AllReadable(Merged(traces, sched))
            && var events := Merged(traces, sched);
               var played := Paje.Played(LinkOutput.Output(events, o));
               && (Translation.Translated(events, |events|, o).fail <==> !Causality.InOrder(traces, sched))
               && (played.Some? <==> Causality.InOrder(traces, sched))
               && (played.Some? ==> played.value.alive == map[])
  {
    hide TracesOf, AllSameCalls, AllDestsIn, AllSourcesIn, Pairing.Traces, Pairing.Causal, PointToPoint.AllWords, Merged,
         Causality.InOrder, Paje.Played, Translation.Translated, LinkOutput.Output, Collectives.World;
    var traces := TracesOf(programs, clocks);
    ProgramsMakeWorld(programs, clocks, calls);
    ProgramsWords(programs, clocks, calls);
    Causality.CausalExactly(traces, sched, calls);
    ProgramsConvert(programs, clocks, calls, sched, o);
  }
}
