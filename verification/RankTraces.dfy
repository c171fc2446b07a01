/**
  The whole trace of a rank, and what holds of it over any run: which mark each send carries, which mark
  MPI_Wait reports, and how many receives are recorded.
 */
module RankTraces {
  import opened Wrappers
  import opened Events
  import opened Requests
  import opened Calls
  import Tracer

  /** The tracer's variables after the first n calls. */
  function State(calls: seq<Call>, n: nat): Tracking
    requires n <= |calls|
  {
    if n == 0 then FRESH else Next(State(calls, n - 1), calls[n - 1])
  }

  /** The records of the first n calls. */
  function Body(calls: seq<Call>, n: nat, rank: nat, size: nat): seq<Entry>
    requires n <= |calls|
  {
    if n == 0 then []
    else Body(calls, n - 1, rank, size) + Entries(State(calls, n - 1), rank, size, calls[n - 1])
  }

  const FIRST := [Entry(Init, [], [])]
  const LAST := [Entry(Enter("MPI_Finalize"), [], []), Entry(FinalizeOut, [], [])]

  /** The trace of a rank that initialises, makes the calls, and finalises. */
  function Trace(calls: seq<Call>, rank: nat, size: nat): seq<Entry> {
    FIRST + Body(calls, |calls|, rank, size) + LAST
  }

  /** One call of the program goes to its wrapper. */
  method Perform(tracer: Tracer.Rank, call: Call)
    requires tracer.Valid()
    modifies tracer, tracer.irecvs, tracer.isends
    ensures tracer.State() == Next(old(tracer.State()), call)
    ensures tracer.trace == old(tracer.trace) + Entries(old(tracer.State()), tracer.rank, tracer.size, call)
  {
    match call
    case Wrapped(name) => tracer.Wrap(name);
    case OtherSend(name, dest, bytes) => tracer.OtherSend(name, dest, bytes);
    case PlainSend(dest, bytes) => tracer.PlainSend(dest, bytes);
    case Isend(dest, bytes, slot) => tracer.Isend(dest, bytes, slot);
    case Receive(bytes, source) => tracer.Receive(bytes, source);
    case Irecv(bytes, slot) => tracer.Irecv(bytes, slot);
    case Wait(slot, source) => tracer.Wait(slot, source);
    case Waitall(base, sources) => tracer.Waitall(base, sources);
    case Waitany(base, index, source) => tracer.Waitany(base, index, source);
    case Bcast(root, bytes) => tracer.Bcast(root, bytes);
    case Scatter(root, bytes) => tracer.Scatter(root, bytes);
    case Gather(root, count) => tracer.Gather(root, count);
    case Reduce(root, bytes) => tracer.Reduce(root, bytes);
  }

  /** The wrappers of a rank leave the trace. */
  method TraceProgram(calls: seq<Call>, rank: nat, size: nat) returns (trace: seq<Entry>)
    ensures trace == Trace(calls, rank, size)
  {
    hide Entries, Next;
    var tracer := new Tracer.Rank(rank, size);
    for i := 0 to |calls|
      invariant tracer.Valid() && fresh(tracer.irecvs) && fresh(tracer.isends)
      invariant tracer.State() == State(calls, i)
      invariant tracer.trace == FIRST + Body(calls, i, rank, size)
    {
      Perform(tracer, calls[i]);
    }
    tracer.Finalize();
    trace := tracer.trace;
  }

  // ----- Marks -----

  /** How many marked sends the first n calls make. */
  function Sent(calls: seq<Call>, n: nat): nat
    requires n <= |calls|
  {
    if n == 0 then 0 else Sent(calls, n - 1) + if IsSend(calls[n - 1]) then 1 else 0
  }

  /** The marks of the point-to-point send records, in order. */
  function Marks(entries: seq<Entry>): seq<seq<nat>> {
    if entries == [] then []
    else
      var last := entries[|entries| - 1];
      Marks(entries[..|entries| - 1]) + if last.kind == Link(Ptp, Send) then [last.longs] else []
  }

  lemma {:induction false} MarksAppend(a: seq<Entry>, b: seq<Entry>)
    ensures Marks(a + b) == Marks(a) + Marks(b)
    decreases |b|
  {
    if b == [] {
      assert a + b == a;
    } else {
      assert (a + b)[..|a + b| - 1] == a + b[..|b| - 1];
      MarksAppend(a, b[..|b| - 1]);
    }
  }

  lemma {:induction false} NoMarks(entries: seq<Entry>)
    requires forall e :: e in entries ==> e.kind != Link(Ptp, Send)
    ensures Marks(entries) == []
  {
    if entries != [] {
      NoMarks(entries[..|entries| - 1]);
    }
  }

  lemma OneMark(e: Entry)
    ensures Marks([e]) == if e.kind == Link(Ptp, Send) then [e.longs] else []
  {
    assert [e][..0] == [];
  }

  lemma {:induction false} CompletionsReceive(irecvs: map<nat, CInt>, base: nat, sources: seq<nat>, n: nat)
    requires n <= |sources|
    ensures forall e :: e in Completions(irecvs, base, sources, n) ==> e.kind == Link(Ptp, Recv)
  {
    if n > 0 {
      CompletionsReceive(irecvs, base, sources, n - 1);
    }
  }

  lemma CallMarks(t: Tracking, rank: nat, size: nat, call: Call)
    ensures Marks(Entries(t, rank, size, call)) == if IsSend(call) then [[t.sendMark]] else []
  {
    var begin, inner := Begin(t, rank, size, call), Inner(t, rank, size, call);
    MarksAppend([begin] + inner, [OUT]);
    MarksAppend([begin], inner);
    OneMark(begin);
    OneMark(OUT);
    InnerMarks(t, rank, size, call);
  }

  lemma InnerMarks(t: Tracking, rank: nat, size: nat, call: Call)
    ensures Marks(Inner(t, rank, size, call)) == if IsSend(call) then [[t.sendMark]] else []
  {
    var inner := Inner(t, rank, size, call);
    if IsSend(call) {
      OneMark(inner[0]);
    } else {
      if call.Waitall? {
        CompletionsReceive(t.irecvs, call.base, call.sources, |call.sources|);
      }
      NoMarks(inner);
    }
  }

  lemma NextMark(t: Tracking, call: Call)
    ensures Next(t, call).sendMark == t.sendMark + if IsSend(call) then 1 else 0
  {
  }

  /** The k-th point-to-point send of a rank carries mark k. */
  lemma {:induction false} SendsNumbered(calls: seq<Call>, n: nat, rank: nat, size: nat)
    requires n <= |calls|
    ensures State(calls, n).sendMark == Sent(calls, n)
    ensures |Marks(Body(calls, n, rank, size))| == Sent(calls, n)
    ensures forall k :: 0 <= k < Sent(calls, n) ==> Marks(Body(calls, n, rank, size))[k] == [k]
  {
    hide Marks, Entries, Next, IsSend;
    if n == 0 {
      NoMarks([]);
    } else {
      SendsNumbered(calls, n - 1, rank, size);
      NextMark(State(calls, n - 1), calls[n - 1]);
      var t := State(calls, n - 1);
      CallMarks(t, rank, size, calls[n - 1]);
      MarksAppend(Body(calls, n - 1, rank, size), Entries(t, rank, size, calls[n - 1]));
    }
  }

  // ----- What MPI_Wait reports -----

  predicate IsendOn(call: Call, slot: nat) {
    call.Isend? && call.slot == slot
  }

  predicate WaitOn(call: Call, slot: nat) {
    call.Wait? && call.slot == slot
  }

  /** Call i is the first MPI_Isend on the slot since MPI_Wait was last called on it. */
  ghost predicate FirstSinceWait(calls: seq<Call>, n: nat, slot: nat, i: nat)
    requires n <= |calls|
  {
    && i < n && IsendOn(calls[i], slot)
    && (forall k :: i < k < n ==> !WaitOn(calls[k], slot))
    && (forall j :: 0 <= j < i && IsendOn(calls[j], slot) ==> WaitedFor(calls, j, i, slot))
  }

  ghost predicate WaitedFor(calls: seq<Call>, j: nat, i: nat, slot: nat)
    requires i <= |calls|
  {
    exists k :: j < k < i && WaitOn(calls[k], slot)
  }

  /** The same call, found by going through the calls. */
  function Kept(calls: seq<Call>, n: nat, slot: nat): Option<nat>
    requires n <= |calls|
  {
    if n == 0 then None
    else if WaitOn(calls[n - 1], slot) then None
    else
      var before := Kept(calls, n - 1, slot);
      if before == None && IsendOn(calls[n - 1], slot) then Some(n - 1) else before
  }

  lemma {:induction false} NoneKept(calls: seq<Call>, n: nat, slot: nat, j: nat)
    requires n <= |calls| && Kept(calls, n, slot) == None && j < n && IsendOn(calls[j], slot)
    ensures WaitedFor(calls, j, n, slot)
    decreases n
  {
    if WaitOn(calls[n - 1], slot) {
      assert j < n - 1;
    } else {
      NoneKept(calls, n - 1, slot, j);
      var k :| j < k < n - 1 && WaitOn(calls[k], slot);
      assert j < k < n;
    }
  }

  lemma {:induction false} KeptIsFirst(calls: seq<Call>, n: nat, slot: nat)
    requires n <= |calls| && Kept(calls, n, slot).Some?
    ensures FirstSinceWait(calls, n, slot, Kept(calls, n, slot).value) && calls[Kept(calls, n, slot).value].Isend?
  {
    if Kept(calls, n - 1, slot).Some? {
      KeptIsFirst(calls, n - 1, slot);
    } else {
      forall j | 0 <= j < n - 1 && IsendOn(calls[j], slot)
        ensures WaitedFor(calls, j, n - 1, slot)
      {
        NoneKept(calls, n - 1, slot, j);
      }
    }
  }

  /** There is at most one such call, so that Kept finds it whenever there is one. */
  lemma FirstIsKept(calls: seq<Call>, n: nat, slot: nat, i: nat)
    requires n <= |calls| && FirstSinceWait(calls, n, slot, i)
    ensures Kept(calls, n, slot) == Some(i)
  {
    if Kept(calls, n, slot) == None {
      NoneKept(calls, n, slot, i);
    } else {
      var k := Kept(calls, n, slot).value;
      KeptIsFirst(calls, n, slot);
      assert k < i ==> WaitedFor(calls, k, i, slot);
      assert i < k ==> WaitedFor(calls, i, k, slot);
    }
  }

  /** The tree of sends holds, for each slot, the mark of the send that is kept. */
  lemma {:induction false} KeptMark(calls: seq<Call>, n: nat, slot: nat)
    requires n <= |calls|
    ensures slot in State(calls, n).isends <==> Kept(calls, n, slot).Some?
    ensures slot in State(calls, n).isends ==>
              Kept(calls, n, slot).value < n &&
              State(calls, n).isends[slot] == AsInt(Sent(calls, Kept(calls, n, slot).value))
  {
    if n > 0 {
      KeptMark(calls, n - 1, slot);
      MarkIsCount(calls, n - 1);
    }
  }

  lemma MarkIsCount(calls: seq<Call>, n: nat)
    requires n <= |calls|
    ensures State(calls, n).sendMark == Sent(calls, n)
  {
    SendsNumbered(calls, n, 0, 0);
  }

  /** The numbers in the record that begins call n. */
  function Announced(calls: seq<Call>, n: nat, rank: nat, size: nat): seq<nat>
    requires n < |calls|
  {
    Begin(State(calls, n), rank, size, calls[n]).longs
  }

  /** MPI_Wait reports the mark of the first MPI_Isend on its slot since the last MPI_Wait there, and nothing if there is none. */
  lemma WaitReports(calls: seq<Call>, n: nat, slot: nat, rank: nat, size: nat)
    requires n < |calls| && WaitOn(calls[n], slot)
    ensures Announced(calls, n, rank, size) == [] <==> forall i: nat :: !FirstSinceWait(calls, n, slot, i)
    ensures forall i: nat :: FirstSinceWait(calls, n, slot, i) ==>
              Announced(calls, n, rank, size) == [Retold(Sent(calls, i))]
  {
    hide FirstSinceWait;
    KeptMark(calls, n, slot);
    if Kept(calls, n, slot).Some? {
      KeptIsFirst(calls, n, slot);
    }
    forall i: nat | FirstSinceWait(calls, n, slot, i)
      ensures Kept(calls, n, slot) == Some(i)
    {
      FirstIsKept(calls, n, slot, i);
    }
  }

  lemma {:induction false} SentGrows(calls: seq<Call>, m: nat, n: nat)
    requires m <= n <= |calls|
    ensures Sent(calls, m) <= Sent(calls, n)
  {
    if m < n {
      SentGrows(calls, m, n - 1);
    }
  }

  /**
    An MPI_Wait that follows an MPI_Isend on the same slot, no other MPI_Isend or MPI_Wait there between
    them, reports that send's own mark exactly when every earlier MPI_Isend on the slot was completed by
    MPI_Wait and the mark fits a C int.
   */
  lemma OwnMark(calls: seq<Call>, i: nat, n: nat, slot: nat, rank: nat, size: nat)
    requires i < n < |calls| && IsendOn(calls[i], slot) && WaitOn(calls[n], slot)
    requires Sent(calls, n) < 0x8000_0000_0000_0000
    requires forall k :: i < k < n ==> !IsendOn(calls[k], slot) && !WaitOn(calls[k], slot)
    ensures Announced(calls, n, rank, size) == [Sent(calls, i)] <==>
            && Sent(calls, i) < 0x8000_0000
            && forall j :: 0 <= j < i && IsendOn(calls[j], slot) ==> WaitedFor(calls, j, i, slot)
  {
    hide FirstSinceWait, Announced, IsendOn, Retold;
    WaitReports(calls, n, slot, rank, size);
    SentGrows(calls, i, n);
    if forall j :: 0 <= j < i && IsendOn(calls[j], slot) ==> WaitedFor(calls, j, i, slot) {
      OwnIsFirst(calls, i, n, slot);
      RetoldExactly(Sent(calls, i));
    } else {
      var k := EarlierKept(calls, i, n, slot);
      assert Announced(calls, n, rank, size) == [Retold(Sent(calls, k))];
      LaterMark(calls, k, i);
      RetoldForeign(Sent(calls, k), Sent(calls, i));
    }
  }

  lemma LaterMark(calls: seq<Call>, k: nat, i: nat)
    requires k < i <= |calls| && calls[k].Isend?
    ensures Sent(calls, k) < Sent(calls, i)
  {
    SentGrows(calls, k + 1, i);
  }

  lemma OwnIsFirst(calls: seq<Call>, i: nat, n: nat, slot: nat)
    requires i < n <= |calls| && IsendOn(calls[i], slot)
    requires forall k :: i < k < n ==> !IsendOn(calls[k], slot) && !WaitOn(calls[k], slot)
    requires forall j :: 0 <= j < i && IsendOn(calls[j], slot) ==> WaitedFor(calls, j, i, slot)
    ensures FirstSinceWait(calls, n, slot, i)
  {
  }

  /** A send that was not waited for stays in the tree, and an earlier one than i is kept. */
  lemma EarlierKept(calls: seq<Call>, i: nat, n: nat, slot: nat) returns (k: nat)
    requires i < n <= |calls| && IsendOn(calls[i], slot)
    requires forall k :: i < k < n ==> !IsendOn(calls[k], slot) && !WaitOn(calls[k], slot)
    requires !forall j :: 0 <= j < i && IsendOn(calls[j], slot) ==> WaitedFor(calls, j, i, slot)
    ensures k < i && FirstSinceWait(calls, n, slot, k) && calls[k].Isend?
  {
    var j: nat :| 0 <= j < i && IsendOn(calls[j], slot) && !WaitedFor(calls, j, i, slot);
    if Kept(calls, i, slot) == None {
      NoneKept(calls, i, slot, j);
    }
    KeptIsFirst(calls, i, slot);
    k := Kept(calls, i, slot).value;
  }

  /** MPI_Waitall does not forget its sends: a slot it completed may report a stale mark. */
  lemma StaleMark(rank: nat, size: nat)
    ensures var calls := [Isend(0, 1, 7), Waitall(7, [0]), Isend(0, 1, 7), Wait(7, 0)];
            Announced(calls, 3, rank, size) == [0] && Sent(calls, 2) == 1
  {
    var calls := [Isend(0, 1, 7), Waitall(7, [0]), Isend(0, 1, 7), Wait(7, 0)];
    assert Sent(calls, 0) == 0 && Sent(calls, 1) == 1 && Sent(calls, 2) == 1 && Sent(calls, 3) == 2;
    assert FirstSinceWait(calls, 3, 7, 0);
    WaitReports(calls, 3, 7, rank, size);
  }
}
