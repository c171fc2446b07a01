/**
  The traces of MPI programs: they begin and end as they should with every state closed, and programs
  that make the same collective calls have the traces the pairing of collectives asks for.
 */
module Programs {
  import opened Events
  import opened Calls
  import opened RankTraces
  import Capacity
  import Collectives
  import LifeCycles
  import LinkOutput
  import Links
  import Merges
  import Pairing
  import Paje
  import Translation

  /** A trace as the converter reads it: every record has its rank and a time. */
  function Stamped(entries: seq<Entry>, rank: nat, clock: nat -> real): (events: seq<Event>)
    ensures |events| == |entries|
  {
    seq(|entries|, i requires 0 <= i < |entries| =>
      Event(entries[i].kind, rank, clock(i), entries[i].ints, entries[i].longs))
  }

  // ----- Nesting -----

  /** The states open after the first n records. */
  function Open(entries: seq<Entry>, n: nat): int
    requires n <= |entries|
  {
    if n == 0 then 0 else Open(entries, n - 1) + LifeCycles.Change(entries[n - 1].kind)
  }

  lemma {:induction false} StampedDepth(entries: seq<Entry>, n: nat, rank: nat, clock: nat -> real)
    requires n <= |entries|
    ensures LifeCycles.Depth(Stamped(entries, rank, clock), n) == Open(entries, n)
  {
    if n > 0 {
      StampedDepth(entries, n - 1, rank, clock);
    }
  }

  lemma {:induction false} OpenLeft(a: seq<Entry>, b: seq<Entry>, n: nat)
    requires n <= |a|
    ensures Open(a + b, n) == Open(a, n)
  {
    if n > 0 {
      OpenLeft(a, b, n - 1);
    }
  }

  lemma {:induction false} OpenRight(a: seq<Entry>, b: seq<Entry>, n: nat)
    requires n <= |b|
    ensures Open(a + b, |a| + n) == Open(a, |a|) + Open(b, n)
  {
    if n == 0 {
      OpenLeft(a, b, |a|);
    } else {
      OpenRight(a, b, n - 1);
    }
  }

  predicate Ordinary(k: Kind) {
    !k.Init? && !k.FinalizeOut?
  }

  ghost predicate NeverNegative(entries: seq<Entry>) {
    forall n {:trigger Open(entries, n)} :: 0 <= n <= |entries| ==> Open(entries, n) >= 0
  }

  /** All states are closed again, and none is closed that was not opened. */
  ghost predicate Nested(entries: seq<Entry>) {
    && NeverNegative(entries) && Open(entries, |entries|) == 0
    && forall i :: 0 <= i < |entries| ==> Ordinary(entries[i].kind)
  }

  lemma NestedAppend(a: seq<Entry>, b: seq<Entry>)
    requires Nested(a) && Nested(b)
    ensures Nested(a + b)
  {
    forall n | 0 <= n <= |a + b|
      ensures Open(a + b, n) >= 0
    {
      if n <= |a| {
        OpenLeft(a, b, n);
      } else {
        OpenRight(a, b, n - |a|);
      }
    }
    OpenRight(a, b, |b|);
  }

  ghost predicate OnlyLinks(entries: seq<Entry>) {
    forall i :: 0 <= i < |entries| ==> entries[i].kind.Link?
  }

  lemma {:induction false} LinksOpenNothing(entries: seq<Entry>, n: nat)
    requires OnlyLinks(entries) && n <= |entries|
    ensures Open(entries, n) == 0
  {
    if n > 0 {
      LinksOpenNothing(entries, n - 1);
    }
  }

  /** A begin, links, and an end. */
  lemma CallShape(begin: Entry, inner: seq<Entry>)
    requires LifeCycles.Change(begin.kind) == 1 && OnlyLinks(inner)
    ensures Nested([begin] + inner + [OUT])
  {
    var entries := [begin] + inner + [OUT];
    assert Open(entries, 0) == 0 && Open(entries, 1) == 1 && Open([begin], 1) == 1 by {
      assert Open([begin], 0) == 0;
    }
    forall n | 0 <= n <= |entries|
      ensures Open(entries, n) >= 0 && (n == |entries| ==> Open(entries, n) == 0)
    {
      if 1 <= n <= 1 + |inner| {
        OpenInner(begin, inner, n - 1);
      } else if n == 2 + |inner| {
        OpenInner(begin, inner, |inner|);
        assert entries[n - 1] == OUT;
      }
    }
    forall i | 0 <= i < |entries|
      ensures Ordinary(entries[i].kind)
    {
      assert 0 < i <= |inner| ==> entries[i] == inner[i - 1];
    }
  }

  lemma OpenInner(begin: Entry, inner: seq<Entry>, n: nat)
    requires LifeCycles.Change(begin.kind) == 1 && OnlyLinks(inner) && n <= |inner|
    ensures Open([begin] + inner + [OUT], 1 + n) == 1
  {
    OpenLeft([begin] + inner, [OUT], 1 + n);
    OpenRight([begin], inner, n);
    LinksOpenNothing(inner, n);
    assert Open([begin], 0) == 0;
  }

  lemma InnerIsLinks(t: Tracking, rank: nat, size: nat, call: Call)
    ensures OnlyLinks(Inner(t, rank, size, call))
  {
    if call.Waitall? {
      CompletionsReceive(t.irecvs, call.base, call.sources, |call.sources|);
    }
  }

  lemma BeginOpens(t: Tracking, rank: nat, size: nat, call: Call)
    ensures LifeCycles.Change(Begin(t, rank, size, call).kind) == 1
  {
  }

  lemma {:induction false} BodyNested(calls: seq<Call>, n: nat, rank: nat, size: nat)
    requires n <= |calls|
    ensures Nested(Body(calls, n, rank, size))
  {
    hide Inner, Begin, Nested;
    if n == 0 {
      NothingNested();
    } else {
      BodyNested(calls, n - 1, rank, size);
      var t, call := State(calls, n - 1), calls[n - 1];
      InnerIsLinks(t, rank, size, call);
      BeginOpens(t, rank, size, call);
      CallShape(Begin(t, rank, size, call), Inner(t, rank, size, call));
      NestedAppend(Body(calls, n - 1, rank, size), Entries(t, rank, size, call));
    }
  }

  lemma NothingNested()
    ensures Nested([])
  {
  }

  /** The trace of every program is a life cycle. */
  lemma TraceIsLifeCycle(calls: seq<Call>, rank: nat, size: nat, clock: nat -> real)
    ensures LifeCycles.LifeCycle(Stamped(Trace(calls, rank, size), rank, clock))
  {
    hide Body;
    var body := Body(calls, |calls|, rank, size);
    BodyNested(calls, |calls|, rank, size);
    var entries := FIRST + body + LAST;
    var trace := Stamped(entries, rank, clock);
    forall n | 0 <= n <= |entries|
      ensures Open(entries, n) >= 0 && LifeCycles.Depth(trace, n) == Open(entries, n)
      ensures n == |entries| ==> Open(entries, n) == 0
    {
      OpenWhole(body, n);
      StampedDepth(entries, n, rank, clock);
    }
    forall i | 0 <= i < |trace|
      ensures LifeCycles.InPlace(trace, i)
    {
      assert 0 < i <= |body| ==> entries[i] == body[i - 1];
    }
  }

  lemma OpenWhole(body: seq<Entry>, n: nat)
    requires Nested(body) && n <= |body| + 3
    ensures Open(FIRST + body + LAST, n) >= 0
    ensures n == |body| + 3 ==> Open(FIRST + body + LAST, n) == 0
  {
    var start := FIRST + body;
    assert Open(FIRST, 0) == 0 && Open(FIRST, 1) == 0;
    if n <= 1 + |body| {
      OpenLeft(start, LAST, n);
      if n == 0 {
        OpenLeft(FIRST, body, 0);
      } else {
        OpenRight(FIRST, body, n - 1);
      }
    } else {
      OpenRight(FIRST, body, |body|);
      OpenRight(start, LAST, n - |start|);
      assert Open(LAST, 0) == 0 && Open(LAST, 1) == 1 && Open(LAST, 2) == 0;
    }
  }

  // ----- Collective calls -----

  /** The collective call a call is, if it is one. */
  function AsCollective(call: Call): seq<Collectives.Collective> {
    match call
    case Bcast(root, _) => [Collectives.Collective(OneTa, root)]
    case Scatter(root, _) => [Collectives.Collective(OneTn, root)]
    case Gather(root, _) => [Collectives.Collective(Nt1, root)]
    case Reduce(root, _) => [Collectives.Collective(At1, root)]
    case _ => []
  }

  /** The collective calls of a program, in order. */
  function CollectivesOf(calls: seq<Call>, n: nat): seq<Collectives.Collective>
    requires n <= |calls|
  {
    if n == 0 then [] else CollectivesOf(calls, n - 1) + AsCollective(calls[n - 1])
  }

  /** Roots are ranks of the communicator. */
  predicate RootsIn(call: Call, n: nat) {
    match call
    case Bcast(root, _) => root < n
    case Scatter(root, _) => root < n
    case Gather(root, _) => root < n
    case Reduce(root, _) => root < n
    case _ => true
  }

  function AsEvent(e: Entry, rank: nat): Event {
    Event(e.kind, rank, 0.0, e.ints, e.longs)
  }

  predicate EntryOk(e: Entry, rank: nat, n: nat) {
    Readable(AsEvent(e, rank)) && Collectives.InWorld(AsEvent(e, rank), n)
  }

  ghost predicate AllOk(entries: seq<Entry>, rank: nat, n: nat) {
    forall i :: 0 <= i < |entries| ==> EntryOk(entries[i], rank, n)
  }

  function CallOf(e: Entry, rank: nat): seq<Collectives.Collective> {
    if Collectives.IsCollective(AsEvent(e, rank)) && Readable(AsEvent(e, rank))
    then [Collectives.CollectiveOf(AsEvent(e, rank))] else []
  }

  /** The collective calls among the first n records. */
  function CallsIn(entries: seq<Entry>, n: nat, rank: nat): seq<Collectives.Collective>
    requires n <= |entries|
  {
    if n == 0 then [] else CallsIn(entries, n - 1, rank) + CallOf(entries[n - 1], rank)
  }

  lemma CompletionsOk(t: Tracking, rank: nat, n: nat, base: nat, sources: seq<nat>, m: nat)
    requires m <= |sources|
    ensures AllOk(Completions(t.irecvs, base, sources, m), rank, n)
  {
    if m > 0 {
      CompletionsOk(t, rank, n, base, sources, m - 1);
    }
  }

  lemma InnerOk(t: Tracking, rank: nat, n: nat, call: Call)
    requires rank < n && RootsIn(call, n)
    ensures AllOk(Inner(t, rank, n, call), rank, n)
  {
    if call.Waitall? {
      CompletionsOk(t, rank, n, call.base, call.sources, |call.sources|);
    }
  }

  lemma BeginOk(t: Tracking, rank: nat, n: nat, call: Call)
    ensures EntryOk(Begin(t, rank, n, call), rank, n) && CallOf(Begin(t, rank, n, call), rank) == []
  {
  }

  lemma {:induction false} CallsLeft(a: seq<Entry>, b: seq<Entry>, m: nat, rank: nat)
    requires m <= |a|
    ensures CallsIn(a + b, m, rank) == CallsIn(a, m, rank)
  {
    if m > 0 {
      CallsLeft(a, b, m - 1, rank);
    }
  }

  lemma {:induction false} CallsRight(a: seq<Entry>, b: seq<Entry>, m: nat, rank: nat)
    requires m <= |b|
    ensures CallsIn(a + b, |a| + m, rank) == CallsIn(a, |a|, rank) + CallsIn(b, m, rank)
  {
    hide CallOf;
    if m == 0 {
      CallsLeft(a, b, |a|, rank);
    } else {
      CallsRight(a, b, m - 1, rank);
    }
  }

  function AllCallsIn(entries: seq<Entry>, rank: nat): seq<Collectives.Collective> {
    CallsIn(entries, |entries|, rank)
  }

  lemma AllCallsAppend(a: seq<Entry>, b: seq<Entry>, rank: nat)
    ensures AllCallsIn(a + b, rank) == AllCallsIn(a, rank) + AllCallsIn(b, rank)
  {
    CallsRight(a, b, |b|, rank);
  }

  lemma OneCall(e: Entry, rank: nat)
    ensures AllCallsIn([e], rank) == CallOf(e, rank)
  {
    assert CallsIn([e], 0, rank) == [];
  }

  lemma {:induction false} NoCalls(entries: seq<Entry>, n: nat, rank: nat)
    requires n <= |entries|
    requires forall i :: 0 <= i < |entries| ==> !Collectives.IsCollective(AsEvent(entries[i], rank))
    ensures CallsIn(entries, n, rank) == []
  {
    if n > 0 {
      NoCalls(entries, n - 1, rank);
    }
  }

  /** A call's records tell the collective call it is. */
  lemma InnerCalls(t: Tracking, rank: nat, n: nat, call: Call)
    ensures AllCallsIn(Inner(t, rank, n, call), rank) == AsCollective(call)
  {
    hide AllCallsIn;
    var inner := Inner(t, rank, n, call);
    if call.Bcast? || call.Scatter? || call.Gather? || call.Reduce? {
      OneCall(inner[0], rank);
      assert inner == [inner[0]];
    } else {
      InnerPtp(t, rank, n, call);
    }
  }

  lemma InnerPtp(t: Tracking, rank: nat, n: nat, call: Call)
    requires AsCollective(call) == []
    ensures AllCallsIn(Inner(t, rank, n, call), rank) == []
  {
    var inner := Inner(t, rank, n, call);
    if call.Waitall? {
      CompletionsReceive(t.irecvs, call.base, call.sources, |call.sources|);
    }
    NoCalls(inner, |inner|, rank);
  }

  lemma EntriesCalls(t: Tracking, rank: nat, n: nat, call: Call)
    ensures AllCallsIn(Entries(t, rank, n, call), rank) == AsCollective(call)
  {
    hide AllCallsIn, Inner, Begin, CallOf;
    var begin, inner := Begin(t, rank, n, call), Inner(t, rank, n, call);
    AllCallsAppend([begin] + inner, [OUT], rank);
    AllCallsAppend([begin], inner, rank);
    OneCall(begin, rank);
    OneCall(OUT, rank);
    BeginOk(t, rank, n, call);
    OutIsNoCall(rank);
    InnerCalls(t, rank, n, call);
  }

  lemma OutIsNoCall(rank: nat)
    ensures CallOf(OUT, rank) == []
  {
  }

  lemma {:induction false} BodyCalls(calls: seq<Call>, m: nat, rank: nat, n: nat)
    requires m <= |calls|
    ensures AllCallsIn(Body(calls, m, rank, n), rank) == CollectivesOf(calls, m)
  {
    hide AllCallsIn, Entries, AsCollective;
    if m == 0 {
      NoneIn(rank);
    } else {
      BodyCalls(calls, m - 1, rank, n);
      EntriesCalls(State(calls, m - 1), rank, n, calls[m - 1]);
      AllCallsAppend(Body(calls, m - 1, rank, n), Entries(State(calls, m - 1), rank, n, calls[m - 1]), rank);
    }
  }

  lemma NoneIn(rank: nat)
    ensures AllCallsIn([], rank) == []
  {
  }

  lemma {:induction false} BodyOk(calls: seq<Call>, m: nat, rank: nat, n: nat)
    requires m <= |calls| && rank < n && forall i :: 0 <= i < |calls| ==> RootsIn(calls[i], n)
    ensures AllOk(Body(calls, m, rank, n), rank, n)
  {
    hide EntryOk, RootsIn, Inner, Begin;
    if m > 0 {
      BodyOk(calls, m - 1, rank, n);
      var t, call := State(calls, m - 1), calls[m - 1];
      InnerOk(t, rank, n, call);
      BeginOk(t, rank, n, call);
      EndOk(rank, n);
    }
  }

  lemma EndOk(rank: nat, n: nat)
    ensures EntryOk(OUT, rank, n) && AllOk(FIRST, rank, n) && AllOk(LAST, rank, n)
  {
  }

  // ----- Whole traces -----

  lemma TraceOk(calls: seq<Call>, rank: nat, n: nat)
    requires rank < n && forall i :: 0 <= i < |calls| ==> RootsIn(calls[i], n)
    ensures AllOk(Trace(calls, rank, n), rank, n)
    ensures AllCallsIn(Trace(calls, rank, n), rank) == CollectivesOf(calls, |calls|)
  {
    hide EntryOk, RootsIn, Body, AllCallsIn, CollectivesOf;
    var body := Body(calls, |calls|, rank, n);
    BodyOk(calls, |calls|, rank, n);
    EndOk(rank, n);
    BodyCalls(calls, |calls|, rank, n);
    AllCallsAppend(FIRST + body, LAST, rank);
    AllCallsAppend(FIRST, body, rank);
    EndsHaveNoCalls(rank);
  }

  lemma EndsHaveNoCalls(rank: nat)
    ensures AllCallsIn(FIRST, rank) == [] && AllCallsIn(LAST, rank) == []
  {
    NoCalls(FIRST, |FIRST|, rank);
    NoCalls(LAST, |LAST|, rank);
  }

  lemma StampedOk(entries: seq<Entry>, rank: nat, n: nat, clock: nat -> real)
    requires AllOk(entries, rank, n) && rank < n <= 0x8000_0000
    ensures Collectives.WorldTrace(Stamped(entries, rank, clock), rank, n)
  {
    var trace := Stamped(entries, rank, clock);
    forall i | 0 <= i < |trace|
      ensures Collectives.ReadableIn(trace[i], n)
    {
      assert EntryOk(entries[i], rank, n);
    }
    forall i | 0 <= i < |trace|
      ensures Readable(trace[i])
    {
      assert Collectives.ReadableIn(trace[i], n);
    }
  }

  lemma {:induction false} StampedCalls(entries: seq<Entry>, m: nat, rank: nat, clock: nat -> real)
    requires m <= |entries| && AllReadable(Stamped(entries, rank, clock))
    ensures Collectives.CallsOf(Stamped(entries, rank, clock), m) == CallsIn(entries, m, rank)
  {
    if m > 0 {
      StampedCalls(entries, m - 1, rank, clock);
      assert Readable(Stamped(entries, rank, clock)[m - 1]);
    }
  }

  /** The traces of the programs of all ranks. */
  function TracesOf(programs: seq<seq<Call>>, clocks: seq<nat -> real>): (traces: seq<seq<Event>>)
    requires |clocks| == |programs|
    ensures |traces| == |programs|
  {
    seq(|programs|, r requires 0 <= r < |programs| =>
      Stamped(Trace(programs[r], r, |programs|), r, clocks[r]))
  }

  predicate ProgramOk(program: seq<Call>, n: nat, calls: seq<Collectives.Collective>) {
    && (forall i :: 0 <= i < |program| ==> RootsIn(program[i], n))
    && CollectivesOf(program, |program|) == calls
  }

  /** All programs make these collective calls, in this order, with roots in the communicator. */
  ghost predicate AllSameCalls(programs: seq<seq<Call>>, calls: seq<Collectives.Collective>) {
    forall r :: 0 <= r < |programs| ==> ProgramOk(programs[r], |programs|, calls)
  }

  ghost predicate AllDestsIn(programs: seq<seq<Call>>) {
    forall r, i :: 0 <= r < |programs| && 0 <= i < |programs[r]| ==> DestIn(programs[r][i], |programs|)
  }

  /** Programs that make the same collective calls in the same order have traces in which these are paired call by call. */
  lemma ProgramsMakeWorld(programs: seq<seq<Call>>, clocks: seq<nat -> real>, calls: seq<Collectives.Collective>)
    requires |clocks| == |programs| <= 0x8000_0000
    requires AllSameCalls(programs, calls)
    ensures Collectives.World(TracesOf(programs, clocks), calls)
    ensures LifeCycles.AllLifeCycles(TracesOf(programs, clocks))
  {
    hide Trace, CollectivesOf, RootsIn, Stamped;
    var traces := TracesOf(programs, clocks);
    forall r | 0 <= r < |traces|
      ensures Collectives.MakesCalls(traces[r], r, |traces|, calls) && LifeCycles.LifeCycle(traces[r])
    {
      assert ProgramOk(programs[r], |programs|, calls);
      var entries := Trace(programs[r], r, |programs|);
      TraceOk(programs[r], r, |programs|);
      StampedOk(entries, r, |programs|, clocks[r]);
      StampedCalls(entries, |entries|, r, clocks[r]);
      TraceIsLifeCycle(programs[r], r, |programs|, clocks[r]);
    }
  }

  // ----- From programs to a readable output -----

  /** Messages are sent to ranks of the communicator. */
  predicate DestIn(call: Call, n: nat) {
    match call
    case OtherSend(_, dest, _) => dest < n
    case PlainSend(dest, _) => dest < n
    case Isend(dest, _, _) => dest < n
    case _ => true
  }

  predicate SendsInside(e: Entry, n: nat) {
    e.kind == Link(Ptp, Send) ==> e.ints != [] && e.ints[0] < n
  }

  ghost predicate AllInside(entries: seq<Entry>, n: nat) {
    forall i :: 0 <= i < |entries| ==> SendsInside(entries[i], n)
  }

  lemma {:induction false} CompletionsInside(t: Tracking, n: nat, base: nat, sources: seq<nat>, m: nat)
    requires m <= |sources|
    ensures AllInside(Completions(t.irecvs, base, sources, m), n)
  {
    if m > 0 {
      CompletionsInside(t, n, base, sources, m - 1);
    }
  }

  lemma EntriesInside(t: Tracking, rank: nat, n: nat, call: Call)
    requires DestIn(call, n)
    ensures AllInside(Entries(t, rank, n, call), n)
  {
    if call.Waitall? {
      CompletionsInside(t, n, call.base, call.sources, |call.sources|);
    }
  }

  lemma {:induction false} BodyInside(calls: seq<Call>, m: nat, rank: nat, n: nat)
    requires m <= |calls| && forall i :: 0 <= i < |calls| ==> DestIn(calls[i], n)
    ensures AllInside(Body(calls, m, rank, n), n)
  {
    hide Entries, DestIn;
    if m > 0 {
      BodyInside(calls, m - 1, rank, n);
      EntriesInside(State(calls, m - 1), rank, n, calls[m - 1]);
    }
  }

  /** The traces of programs that talk to one another only. */
  lemma ProgramsWithin(programs: seq<seq<Call>>, clocks: seq<nat -> real>, calls: seq<Collectives.Collective>)
    requires |clocks| == |programs| <= 0x8000_0000 && AllSameCalls(programs, calls) && AllDestsIn(programs)
    ensures Capacity.AllWithin(TracesOf(programs, clocks))
  {
    var traces, n := TracesOf(programs, clocks), |programs|;
    ProgramsMakeWorld(programs, clocks, calls);
    forall r, i | 0 <= r < n && 0 <= i < |traces[r]|
      ensures Capacity.Within(traces[r][i], n)
    {
      BodyInside(programs[r], |programs[r]|, r, n);
      assert Collectives.MakesCalls(traces[r], r, n, calls);
      assert Collectives.ReadableIn(traces[r][i], n);
      assert SendsInside(Trace(programs[r], r, n)[i], n);
    }
  }

  lemma MergedTimes(programs: seq<seq<Call>>, clocks: seq<nat -> real>, sched: seq<nat>)
    requires |clocks| == |programs| && Pairing.Traces(TracesOf(programs, clocks))
    requires Merges.Schedules(TracesOf(programs, clocks), sched)
    requires forall r, i: nat :: 0 <= r < |clocks| ==> clocks[r](i) >= 0.0
    ensures forall t :: 0 <= t < |sched| ==> Merges.Merged(TracesOf(programs, clocks), sched)[t].time >= 0.0
  {
    hide Trace, Merges.Schedules;
    var traces := TracesOf(programs, clocks);
    forall t | 0 <= t < |sched|
      ensures Merges.Merged(traces, sched)[t].time >= 0.0
    {
      Pairing.MergedAt(traces, sched, t);
      var r, i := sched[t], Merges.Place(sched, t);
      assert traces[r][i].time == clocks[r](i);
    }
  }

  lemma SomethingMerged(traces: seq<seq<Event>>, sched: seq<nat>)
    requires traces != [] && LifeCycles.AllLifeCycles(traces) && Merges.Complete(traces, sched)
    ensures |sched| > 0 && LifeCycles.NoneHalfway(traces, sched, |sched|)
  {
    assert LifeCycles.LifeCycle(traces[0]) && Merges.Count(sched, |sched|, 0) == |traces[0]|;
  }

  /** With few ranks a run fails exactly when it is not causal. */
  lemma FewRanksFail(traces: seq<seq<Event>>, sched: seq<nat>, o: Translation.Options)
    requires |traces| <= 16 && Pairing.Traces(traces) && Merges.Schedules(traces, sched) && Capacity.AllWithin(traces)
    requires !o.noLinks && !o.ignoreErrors && o.capacity == Capacity.KEY_TABLE_SIZE
    ensures AllReadable(Merges.Merged(traces, sched))
    ensures Translation.Translated(Merges.Merged(traces, sched), |sched|, o).fail <==> !Pairing.Causal(traces, sched)
  {
    hide Pairing.Traces, Merges.Schedules, Pairing.Causal, Merges.Merged, Capacity.AllWithin, Links.Fits, Links.Sound;
    Capacity.SixteenRanksFit(traces, sched);
    Pairing.MergeFailsExactly(traces, sched, o);
    Pairing.CausalIffSound(traces, sched);
    if Pairing.Causal(traces, sched) {
      var ops := Ops(Merges.Merged(traces, sched));
      Links.FitsCarries(ops, |ops|, o.capacity);
    }
  }

  /**
    From programs to the visualizer: when up to 16 ranks run programs that talk to one another only and
    make the same collective calls, and their whole traces are merged, the converter fails exactly when
    the merge puts some receive before its send, and its whole output makes sense, from the first record
    to the last, exactly when it does not fail; nothing is left alive then.
   */
  lemma ProgramsConvert(programs: seq<seq<Call>>, clocks: seq<nat -> real>, calls: seq<Collectives.Collective>,
                        sched: seq<nat>, o: Translation.Options)
    requires 0 < |programs| == |clocks| <= 16 && AllSameCalls(programs, calls) && AllDestsIn(programs)
    requires forall r, i: nat :: 0 <= r < |clocks| ==> clocks[r](i) >= 0.0
    requires Merges.Complete(TracesOf(programs, clocks), sched)
    requires !o.noLinks && !o.ignoreErrors && o.capacity == Capacity.KEY_TABLE_SIZE
    ensures AllReadable(Merges.Merged(TracesOf(programs, clocks), sched))
    ensures var traces := TracesOf(programs, clocks);
            var events := Merges.Merged(traces, sched);
            var played := Paje.Played(LinkOutput.Output(events, o));
            && (Translation.Translated(events, |events|, o).fail <==> !Pairing.Causal(traces, sched))
            && (played.Some? <==> Pairing.Causal(traces, sched))
            && (played.Some? ==> played.value.alive == map[])
  {
    hide TracesOf, Pairing.Traces, Pairing.Causal, Merges.Merged, Capacity.AllWithin, LifeCycles.AllLifeCycles,
         LifeCycles.NoneHalfway, AllSameCalls, AllDestsIn, Paje.Played, Translation.Translated;
    var traces := TracesOf(programs, clocks);
    ProgramsMakeWorld(programs, clocks, calls);
    Collectives.WorldTraces(traces, calls);
    ProgramsWithin(programs, clocks, calls);
    SomethingMerged(traces, sched);
    FewRanksFail(traces, sched, o);
    MergedTimes(programs, clocks, sched);
    var events := Merges.Merged(traces, sched);
    LifeCycles.TimeNotNegative(events, |events|, o);
    LifeCycles.OutputReadable(traces, sched, o);
    if Pairing.Causal(traces, sched) {
      LifeCycles.CompleteRunPlays(traces, sched, o);
    }
  }
}
