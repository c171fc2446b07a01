/**
  Which receives the trace of a rank records: every MPI_Irecv that is completed by MPI_Wait, MPI_Waitall
  or MPI_Waitany, and was not made on a request slot in use, has exactly one record, with its source.
 */
module RankReceives {
  import opened Events
  import opened Requests
  import opened Calls
  import opened RankTraces

  // ----- Receives in the program -----

  predicate IrecvOn(call: Call, slot: nat) {
    call.Irecv? && call.slot == slot
  }

  /** The call completes the request of the slot. */
  predicate Covers(call: Call, slot: nat) {
    match call
    case Wait(s, _) => s == slot
    case Waitall(base, sources) => base <= slot < base + |sources|
    case Waitany(base, index, _) => slot == base + index
    case _ => false
  }

  /** The source in the status of that request. */
  function SourceOf(call: Call, slot: nat): nat
    requires Covers(call, slot)
  {
    match call
    case Wait(_, source) => source
    case Waitall(base, sources) => sources[slot - base]
    case Waitany(_, _, source) => source
  }

  /** Of the first n calls, an MPI_Irecv on the slot has had none that covers it since. */
  predicate Outstanding(calls: seq<Call>, n: nat, slot: nat)
    requires n <= |calls|
  {
    n > 0 && (IrecvOn(calls[n - 1], slot) || (!Covers(calls[n - 1], slot) && Outstanding(calls, n - 1, slot)))
  }

  /** Call i is such an MPI_Irecv. */
  ghost predicate UncoveredSince(calls: seq<Call>, i: nat, n: nat, slot: nat)
    requires n <= |calls|
  {
    i < n && IrecvOn(calls[i], slot) && forall k :: i < k < n ==> !Covers(calls[k], slot)
  }

  lemma {:induction false} OutstandingWhen(calls: seq<Call>, i: nat, n: nat, slot: nat)
    requires n <= |calls| && UncoveredSince(calls, i, n, slot)
    ensures Outstanding(calls, n, slot)
    decreases n
  {
    if i < n - 1 {
      OutstandingWhen(calls, i, n - 1, slot);
    }
  }

  /** Call i is an MPI_Irecv on a slot whose last one is still outstanding. */
  predicate Reuse(calls: seq<Call>, i: nat)
    requires i < |calls|
  {
    calls[i].Irecv? && Outstanding(calls, i, calls[i].slot)
  }

  /** The first of the uncovered ones: it is no reuse. */
  lemma {:induction false} FirstOutstanding(calls: seq<Call>, n: nat, slot: nat) returns (i: nat)
    requires n <= |calls| && Outstanding(calls, n, slot)
    ensures UncoveredSince(calls, i, n, slot) && !Reuse(calls, i)
  {
    if n > 1 && Outstanding(calls, n - 1, slot) {
      i := FirstOutstanding(calls, n - 1, slot);
    } else {
      i := n - 1;
    }
  }

  lemma OutstandingExactly(calls: seq<Call>, n: nat, slot: nat)
    requires n <= |calls|
    ensures Outstanding(calls, n, slot) <==> exists i: nat :: UncoveredSince(calls, i, n, slot)
  {
    if Outstanding(calls, n, slot) {
      var i := FirstOutstanding(calls, n, slot);
    }
    forall i: nat | UncoveredSince(calls, i, n, slot)
      ensures Outstanding(calls, n, slot)
    {
      OutstandingWhen(calls, i, n, slot);
    }
  }

  // ----- The tree of receives holds the outstanding ones -----

  lemma {:induction false} ReapedSlots(irecvs: map<nat, CInt>, base: nat, n: nat, slot: nat)
    ensures slot in Reaped(irecvs, base, n) <==> slot in irecvs && !(base <= slot < base + n)
  {
    if n > 0 {
      ReapedSlots(irecvs, base, n - 1, slot);
    }
  }

  lemma PendingNext(t: Tracking, call: Call, slot: nat)
    ensures slot in Next(t, call).irecvs <==> IrecvOn(call, slot) || (!Covers(call, slot) && slot in t.irecvs)
  {
    if call.Waitall? {
      ReapedSlots(t.irecvs, call.base, |call.sources|, slot);
    }
  }

  /** The tracer has a pending receive on a slot exactly when the program has an outstanding one there. */
  lemma {:induction false} PendingIsOutstanding(calls: seq<Call>, n: nat, slot: nat)
    requires n <= |calls|
    ensures slot in State(calls, n).irecvs <==> Outstanding(calls, n, slot)
  {
    hide Next, Covers, IrecvOn;
    if n > 0 {
      PendingIsOutstanding(calls, n - 1, slot);
      PendingNext(State(calls, n - 1), calls[n - 1], slot);
    }
  }

  // ----- The records of a completing call -----

  /** The outstanding receives among the first m requests of an array, with their sources. */
  function ReportedFirst(calls: seq<Call>, n: nat, base: nat, sources: seq<nat>, m: nat): seq<(nat, nat)>
    requires n <= |calls| && m <= |sources|
  {
    if m == 0 then []
    else
      ReportedFirst(calls, n, base, sources, m - 1)
      + if Outstanding(calls, n, base + m - 1) then [(base + m - 1, sources[m - 1])] else []
  }

  /** The receives that call n completes, as slots and sources. */
  function Reported(calls: seq<Call>, n: nat): seq<(nat, nat)>
    requires n < |calls|
  {
    match calls[n]
    case Wait(slot, source) => if Outstanding(calls, n, slot) then [(slot, source)] else []
    case Waitall(base, sources) => ReportedFirst(calls, n, base, sources, |sources|)
    case Waitany(base, index, source) => if Outstanding(calls, n, base + index) then [(base + index, source)] else []
    case _ => []
  }

  /** Their records. */
  function AsRecords(reported: seq<(nat, nat)>): seq<Entry> {
    seq(|reported|, t requires 0 <= t < |reported| => LinkEntry(Ptp, Recv, [reported[t].1], []))
  }

  lemma {:induction false} ArrayRecords(calls: seq<Call>, n: nat, base: nat, sources: seq<nat>, m: nat)
    requires n <= |calls| && m <= |sources|
    ensures Completions(State(calls, n).irecvs, base, sources, m) == AsRecords(ReportedFirst(calls, n, base, sources, m))
  {
    hide State;
    if m > 0 {
      ArrayRecords(calls, n, base, sources, m - 1);
      ReapedSlots(State(calls, n).irecvs, base, m - 1, base + m - 1);
      PendingIsOutstanding(calls, n, base + m - 1);
    }
  }

  /** Call n adds exactly these records to the trace between its begin and its end. */
  lemma RecordsOfCall(calls: seq<Call>, n: nat, rank: nat, size: nat)
    requires n < |calls| && (calls[n].Wait? || calls[n].Waitall? || calls[n].Waitany?)
    ensures Inner(State(calls, n), rank, size, calls[n]) == AsRecords(Reported(calls, n))
  {
    hide State, Outstanding, Completions, Reaped, ReportedFirst;
    match calls[n]
    case Wait(slot, _) => PendingIsOutstanding(calls, n, slot);
    case Waitall(base, sources) => ArrayRecords(calls, n, base, sources, |sources|);
    case Waitany(base, index, _) => PendingIsOutstanding(calls, n, base + index);
  }

  /** The report is of an outstanding receive, whose source the status at its place gives. */
  predicate TrueInArray(calls: seq<Call>, n: nat, base: nat, sources: seq<nat>, m: nat, report: (nat, nat))
    requires n <= |calls| && m <= |sources|
  {
    base <= report.0 < base + m && report.1 == sources[report.0 - base] && Outstanding(calls, n, report.0)
  }

  lemma {:induction false} ReportedInArray(calls: seq<Call>, n: nat, base: nat, sources: seq<nat>, m: nat, t: nat)
    requires n <= |calls| && m <= |sources| && t < |ReportedFirst(calls, n, base, sources, m)|
    ensures TrueInArray(calls, n, base, sources, m, ReportedFirst(calls, n, base, sources, m)[t])
    decreases m
  {
    hide Outstanding;
    if t < |ReportedFirst(calls, n, base, sources, m - 1)| {
      ReportedInArray(calls, n, base, sources, m - 1, t);
    }
  }

  lemma {:induction false} ReportedAscending(calls: seq<Call>, n: nat, base: nat, sources: seq<nat>, m: nat, t: nat, u: nat)
    requires n <= |calls| && m <= |sources| && t < u < |ReportedFirst(calls, n, base, sources, m)|
    ensures ReportedFirst(calls, n, base, sources, m)[t].0 < ReportedFirst(calls, n, base, sources, m)[u].0
    decreases m
  {
    hide Outstanding;
    if u < |ReportedFirst(calls, n, base, sources, m - 1)| {
      ReportedAscending(calls, n, base, sources, m - 1, t, u);
    } else {
      ReportedInArray(calls, n, base, sources, m - 1, t);
    }
  }

  lemma {:induction false} ReportedFound(calls: seq<Call>, n: nat, base: nat, sources: seq<nat>, m: nat, a: nat) returns (t: nat)
    requires n <= |calls| && a < m <= |sources| && Outstanding(calls, n, base + a)
    ensures var r := ReportedFirst(calls, n, base, sources, m); t < |r| && r[t] == (base + a, sources[a])
    decreases m
  {
    if a < m - 1 {
      t := ReportedFound(calls, n, base, sources, m - 1, a);
    } else {
      t := |ReportedFirst(calls, n, base, sources, m - 1)|;
    }
  }

  /** The report is of an outstanding receive that call n covers, with its source. */
  predicate TrueReport(calls: seq<Call>, n: nat, report: (nat, nat))
    requires n < |calls|
  {
    Covers(calls[n], report.0) && report.1 == SourceOf(calls[n], report.0) && Outstanding(calls, n, report.0)
  }

  lemma ReportIsTrue(calls: seq<Call>, n: nat, t: nat)
    requires n < |calls| && t < |Reported(calls, n)|
    ensures TrueReport(calls, n, Reported(calls, n)[t])
  {
    hide Outstanding;
    if calls[n].Waitall? {
      ReportedInArray(calls, n, calls[n].base, calls[n].sources, |calls[n].sources|, t);
    }
  }

  /** No slot is reported twice by one call. */
  lemma ReportsApart(calls: seq<Call>, n: nat, t: nat, u: nat)
    requires n < |calls| && t < u < |Reported(calls, n)|
    ensures Reported(calls, n)[t].0 != Reported(calls, n)[u].0
  {
    hide Outstanding;
    if calls[n].Waitall? {
      ReportedAscending(calls, n, calls[n].base, calls[n].sources, |calls[n].sources|, t, u);
    }
  }

  /** Every outstanding receive the call covers is reported. */
  lemma CoveredIsReported(calls: seq<Call>, n: nat, slot: nat) returns (t: nat)
    requires n < |calls| && Covers(calls[n], slot) && Outstanding(calls, n, slot)
    ensures t < |Reported(calls, n)| && Reported(calls, n)[t] == (slot, SourceOf(calls[n], slot))
  {
    if calls[n].Waitall? {
      t := ReportedFound(calls, n, calls[n].base, calls[n].sources, |calls[n].sources|, slot - calls[n].base);
    } else {
      t := 0;
    }
  }

  lemma CoversIsWait(call: Call, slot: nat)
    requires Covers(call, slot)
    ensures call.Wait? || call.Waitall? || call.Waitany?
  {
  }

  // ----- One record for each receive -----

  /** Call n is the first that covers the slot after the MPI_Irecv on it at i. */
  ghost predicate CompletedBy(calls: seq<Call>, i: nat, n: nat, slot: nat)
    requires n < |calls|
  {
    UncoveredSince(calls, i, n, slot) && Covers(calls[n], slot)
  }

  /**
    The call that completes an MPI_Irecv adds exactly one record for its slot, with the source of that
    completion; no call in between adds any.
   */
  lemma IrecvRecorded(calls: seq<Call>, i: nat, n: nat, slot: nat, rank: nat, size: nat) returns (t: nat)
    requires n < |calls| && CompletedBy(calls, i, n, slot)
    ensures Inner(State(calls, n), rank, size, calls[n]) == AsRecords(Reported(calls, n))
    ensures t < |Reported(calls, n)| && Reported(calls, n)[t] == (slot, SourceOf(calls[n], slot))
    ensures forall u :: 0 <= u < |Reported(calls, n)| && u != t ==> Reported(calls, n)[u].0 != slot
    ensures forall k, u :: i < k < n && 0 <= u < |Reported(calls, k)| ==> Reported(calls, k)[u].0 != slot
  {
    hide Reported, Covers, Outstanding, SourceOf, Inner, State;
    OutstandingWhen(calls, i, n, slot);
    t := CoveredIsReported(calls, n, slot);
    CoversIsWait(calls[n], slot);
    RecordsOfCall(calls, n, rank, size);
    forall u | 0 <= u < |Reported(calls, n)| && u != t
      ensures Reported(calls, n)[u].0 != slot
    {
      if u < t {
        ReportsApart(calls, n, u, t);
      } else {
        ReportsApart(calls, n, t, u);
      }
    }
    forall k, u | i < k < n && 0 <= u < |Reported(calls, k)|
      ensures Reported(calls, k)[u].0 != slot
    {
      ReportIsTrue(calls, k, u);
    }
  }

  /** Conversely every record is that of exactly one MPI_Irecv that was not made on a slot in use. */
  lemma RecordOwner(calls: seq<Call>, n: nat, t: nat) returns (i: nat)
    requires n < |calls| && t < |Reported(calls, n)|
    ensures var slot := Reported(calls, n)[t].0;
            && CompletedBy(calls, i, n, slot) && !Reuse(calls, i)
            && forall j: nat :: j != i && CompletedBy(calls, j, n, slot) ==> Reuse(calls, j)
  {
    hide Reported, Covers, Outstanding;
    ReportIsTrue(calls, n, t);
    var slot := Reported(calls, n)[t].0;
    i := FirstOutstanding(calls, n, slot);
    forall j: nat | j != i && CompletedBy(calls, j, n, slot)
      ensures Reuse(calls, j)
    {
      if j < i {
        OutstandingWhen(calls, j, i, slot);
      } else {
        OutstandingWhen(calls, i, j, slot);
      }
    }
  }

  // ----- How many receives are recorded -----

  /** How many point-to-point receive records there are. */
  function Received(entries: seq<Entry>): nat {
    if entries == [] then 0
    else Received(entries[..|entries| - 1]) + if entries[|entries| - 1].kind == Link(Ptp, Recv) then 1 else 0
  }

  lemma {:induction false} ReceivedAppend(a: seq<Entry>, b: seq<Entry>)
    ensures Received(a + b) == Received(a) + Received(b)
    decreases |b|
  {
    if b == [] {
      assert a + b == a;
    } else {
      assert (a + b)[..|a + b| - 1] == a + b[..|b| - 1];
      ReceivedAppend(a, b[..|b| - 1]);
    }
  }

  lemma OneReceived(e: Entry)
    ensures Received([e]) == if e.kind == Link(Ptp, Recv) then 1 else 0
  {
    assert [e][..0] == [];
  }

  /** Blocking and immediate receives among the first n calls. */
  function Receives(calls: seq<Call>, n: nat): nat
    requires n <= |calls|
  {
    if n == 0 then 0 else Receives(calls, n - 1) + if calls[n - 1].Receive? || calls[n - 1].Irecv? then 1 else 0
  }

  function Reuses(calls: seq<Call>, n: nat): nat
    requires n <= |calls|
  {
    if n == 0 then 0 else Reuses(calls, n - 1) + if Reuse(calls, n - 1) then 1 else 0
  }

  /** How many receives are pending. */
  function Pending(irecvs: map<nat, CInt>): nat {
    |irecvs|
  }

  lemma CompletionCount(irecvs: map<nat, CInt>, slot: nat, source: nat)
    ensures Received(Completion(irecvs, slot, source)) + Pending(irecvs - {slot}) == Pending(irecvs)
  {
    var entries := Completion(irecvs, slot, source);
    if slot in irecvs {
      OneReceived(entries[0]);
      assert irecvs == (irecvs - {slot})[slot := irecvs[slot]];
    } else {
      assert irecvs - {slot} == irecvs;
    }
  }

  lemma {:induction false} CompletionsCount(irecvs: map<nat, CInt>, base: nat, sources: seq<nat>, n: nat)
    requires n <= |sources|
    ensures Received(Completions(irecvs, base, sources, n)) + Pending(Reaped(irecvs, base, n)) == Pending(irecvs)
  {
    hide Received, Completion, Pending;
    if n == 0 {
      ReceivedNone();
    } else {
      CompletionsCount(irecvs, base, sources, n - 1);
      var pending := Reaped(irecvs, base, n - 1);
      CompletionCount(pending, base + n - 1, sources[n - 1]);
      ReceivedAppend(Completions(irecvs, base, sources, n - 1), Completion(pending, base + n - 1, sources[n - 1]));
    }
  }

  /** What a call records and what stays pending. */
  lemma CallReceives(t: Tracking, rank: nat, size: nat, call: Call)
    ensures Received(Entries(t, rank, size, call)) + Pending(Next(t, call).irecvs) == Pending(t.irecvs) + NewReceive(t, call)
  {
    hide Received, Begin, Inner, Next, NewReceive, Pending;
    var begin, inner := Begin(t, rank, size, call), Inner(t, rank, size, call);
    ReceivedAppend([begin] + inner, [OUT]);
    ReceivedAppend([begin], inner);
    OneReceived(begin);
    OneReceived(OUT);
    BeginIsNoLink(t, rank, size, call);
    if call.Wait? || call.Waitall? || call.Waitany? {
      WaitsReceive(t, rank, size, call);
    } else {
      InnerReceived(t, rank, size, call);
    }
  }

  function NewReceive(t: Tracking, call: Call): nat {
    if call.Receive? || (call.Irecv? && call.slot !in t.irecvs) then 1 else 0
  }

  lemma BeginIsNoLink(t: Tracking, rank: nat, size: nat, call: Call)
    ensures !Begin(t, rank, size, call).kind.Link?
  {
  }

  lemma WaitsReceive(t: Tracking, rank: nat, size: nat, call: Call)
    requires call.Wait? || call.Waitall? || call.Waitany?
    ensures Received(Inner(t, rank, size, call)) + Pending(Next(t, call).irecvs) == Pending(t.irecvs) + NewReceive(t, call)
  {
    hide Received, Completion, Completions, Reaped, Pending;
    match call
    case Wait(slot, source) => CompletionCount(t.irecvs, slot, source);
    case Waitall(base, sources) => CompletionsCount(t.irecvs, base, sources, |sources|);
    case Waitany(base, index, source) => CompletionCount(t.irecvs, base + index, source);
  }

  lemma InnerReceived(t: Tracking, rank: nat, size: nat, call: Call)
    requires !call.Wait? && !call.Waitall? && !call.Waitany?
    ensures Received(Inner(t, rank, size, call)) + Pending(Next(t, call).irecvs) == Pending(t.irecvs) + NewReceive(t, call)
  {
    hide Received;
    var inner := Inner(t, rank, size, call);
    ReceivedNone();
    if inner != [] {
      OneReceived(inner[0]);
      assert inner == [inner[0]];
    }
  }

  lemma ReceivedNone()
    ensures Received([]) == 0
  {
  }

  /** Every receive is recorded, still pending, or was lost because its slot was in use. */
  lemma {:induction false} ReceivesBalance(calls: seq<Call>, n: nat, rank: nat, size: nat)
    requires n <= |calls|
    ensures Received(Body(calls, n, rank, size)) + Pending(State(calls, n).irecvs) + Reuses(calls, n) == Receives(calls, n)
  {
    hide Received, Entries, Next;
    if n == 0 {
      ReceivedNone();
    } else {
      ReceivesBalance(calls, n - 1, rank, size);
      var t := State(calls, n - 1);
      CallReceives(t, rank, size, calls[n - 1]);
      if calls[n - 1].Irecv? {
        PendingIsOutstanding(calls, n - 1, calls[n - 1].slot);
      }
      ReceivedAppend(Body(calls, n - 1, rank, size), Entries(t, rank, size, calls[n - 1]));
    }
  }

  lemma {:induction false} NoReuse(calls: seq<Call>, n: nat)
    requires n <= |calls|
    ensures Reuses(calls, n) == 0 <==> forall i :: 0 <= i < n ==> !Reuse(calls, i)
  {
    if n > 0 {
      NoReuse(calls, n - 1);
    }
  }

  /**
    When no receive is left outstanding, the trace has one receive record for each MPI_Recv and MPI_Irecv
    exactly when no MPI_Irecv was made on a slot where another was outstanding.
   */
  lemma EachReceiveRecorded(calls: seq<Call>, rank: nat, size: nat)
    requires forall slot: nat :: !Outstanding(calls, |calls|, slot)
    ensures Received(Body(calls, |calls|, rank, size)) == Receives(calls, |calls|) <==>
            forall i :: 0 <= i < |calls| ==> !Reuse(calls, i)
  {
    hide Received, Reuse, State;
    ReceivesBalance(calls, |calls|, rank, size);
    NoReuse(calls, |calls|);
    forall slot | slot in State(calls, |calls|).irecvs
      ensures false
    {
      PendingIsOutstanding(calls, |calls|, slot);
    }
    assert State(calls, |calls|).irecvs == map[];
  }
}
