/**
  What the link records of a rank say, as functions of its program: each send names its destination,
  its size and its mark, each receive the rank it came from; and where in the trace they are.
 */
module RankRecords {
  import opened Events
  import opened Calls
  import opened RankTraces
  import opened RankReceives

  /** The fields of a link record. */
  datatype Fields = Fields(pattern: Pattern, ints: seq<nat>, longs: seq<nat>)

  /** A record as fields, if it goes that way. */
  function AsFields(e: Entry, way: Way): seq<Fields> {
    match e.kind case Link(p, w) => (if w == way then [Fields(p, e.ints, e.longs)] else []) case _ => []
  }

  /** The fields of the send records, or of the receive records, in order. */
  function Linked(entries: seq<Entry>, way: Way): seq<Fields> {
    if entries == [] then []
    else
      var e := entries[|entries| - 1];
      Linked(entries[..|entries| - 1], way) + AsFields(e, way)
  }

  lemma {:induction false} LinkedAppend(a: seq<Entry>, b: seq<Entry>, way: Way)
    ensures Linked(a + b, way) == Linked(a, way) + Linked(b, way)
    decreases |b|
  {
    hide AsFields;
    if b == [] {
      assert a + b == a;
    } else {
      assert (a + b)[..|a + b| - 1] == a + b[..|b| - 1];
      LinkedAppend(a, b[..|b| - 1], way);
    }
  }

  lemma NothingLinked(way: Way)
    ensures Linked([], way) == []
  {
  }

  lemma OneLinked(e: Entry, way: Way)
    ensures Linked([e], way) == AsFields(e, way)
  {
    assert [e][..0] == [];
  }

  // ----- What a program sends and receives -----

  function DestOf(call: Call): nat
    requires IsSend(call)
  {
    match call case OtherSend(_, dest, _) => dest case PlainSend(dest, _) => dest case Isend(dest, _, _) => dest
  }

  function SizeOf(call: Call): nat
    requires IsSend(call)
  {
    match call case OtherSend(_, _, bytes) => bytes case PlainSend(_, bytes) => bytes case Isend(_, bytes, _) => bytes
  }

  /**
    What call n of a rank sends: a message to one rank, with its mark; or its part of a collective call,
    to the root or, by the root, to all.
   */
  function Sending(calls: seq<Call>, n: nat, rank: nat, size: nat): seq<Fields>
    requires n < |calls|
  {
    var call := calls[n];
    if IsSend(call) then [Fields(Ptp, [DestOf(call), SizeOf(call)], [Sent(calls, n)])]
    else match call
         case Bcast(root, bytes) => if rank == root then [Fields(OneTa, [size, bytes], [size])] else []
         case Scatter(root, bytes) => if rank == root then [Fields(OneTn, [size, bytes], [size])] else []
         case Gather(root, count) => if rank != root then [Fields(Nt1, [root, count], [size])] else []
         case Reduce(root, bytes) => if rank != root then [Fields(At1, [root, bytes], [size])] else []
         case _ => []
  }

  /** The sources of the messages that call n completes, in the order of their records. */
  function Arrivals(calls: seq<Call>, n: nat): seq<nat>
    requires n < |calls|
  {
    match calls[n]
    case Receive(_, source) => [source]
    case _ => Sources(Reported(calls, n))
  }

  function Sources(reported: seq<(nat, nat)>): seq<nat> {
    seq(|reported|, t requires 0 <= t < |reported| => reported[t].1)
  }

  function AsMessages(sources: seq<nat>): seq<Fields> {
    seq(|sources|, t requires 0 <= t < |sources| => Fields(Ptp, [sources[t]], []))
  }

  /** What call n of a rank receives: messages, or its part of a collective call. */
  function Receiving(calls: seq<Call>, n: nat, rank: nat, size: nat): seq<Fields>
    requires n < |calls|
  {
    match calls[n]
    case Bcast(root, _) => if rank != root then [Fields(OneTa, [root], [])] else []
    case Scatter(root, _) => if rank != root then [Fields(OneTn, [root], [])] else []
    case Gather(root, _) => if rank == root then [Fields(Nt1, [size], [])] else []
    case Reduce(root, _) => if rank == root then [Fields(At1, [size], [])] else []
    case _ => AsMessages(Arrivals(calls, n))
  }

  /** All that the first n calls send, and all that they receive. */
  function AllSent(calls: seq<Call>, n: nat, rank: nat, size: nat): seq<Fields>
    requires n <= |calls|
  {
    if n == 0 then [] else AllSent(calls, n - 1, rank, size) + Sending(calls, n - 1, rank, size)
  }

  function AllReceived(calls: seq<Call>, n: nat, rank: nat, size: nat): seq<Fields>
    requires n <= |calls|
  {
    if n == 0 then [] else AllReceived(calls, n - 1, rank, size) + Receiving(calls, n - 1, rank, size)
  }

  // ----- The records of one call -----

  lemma {:induction false} ReportsLinked(reported: seq<(nat, nat)>)
    ensures Linked(AsRecords(reported), Send) == []
    ensures Linked(AsRecords(reported), Recv) == AsMessages(Sources(reported))
  {
    hide Linked;
    if reported == [] {
      NothingLinked(Send);
      NothingLinked(Recv);
    } else {
      var before := reported[..|reported| - 1];
      var last := LinkEntry(Ptp, Recv, [reported[|reported| - 1].1], []);
      ReportsLinked(before);
      assert AsRecords(reported) == AsRecords(before) + [last];
      LinkedAppend(AsRecords(before), [last], Send);
      LinkedAppend(AsRecords(before), [last], Recv);
      OneLinked(last, Send);
      OneLinked(last, Recv);
    }
  }

  predicate IsWait(call: Call) {
    call.Wait? || call.Waitall? || call.Waitany?
  }

  lemma WaitLinked(calls: seq<Call>, n: nat, rank: nat, size: nat)
    requires n < |calls| && IsWait(calls[n])
    ensures var inner := Inner(State(calls, n), rank, size, calls[n]);
            Linked(inner, Send) == Sending(calls, n, rank, size) && Linked(inner, Recv) == Receiving(calls, n, rank, size)
  {
    hide Inner, Reported, Linked, State, Sent;
    RecordsOfCall(calls, n, rank, size);
    ReportsLinked(Reported(calls, n));
  }

  lemma OtherLinked(calls: seq<Call>, n: nat, rank: nat, size: nat)
    requires n < |calls| && !IsWait(calls[n]) && State(calls, n).sendMark == Sent(calls, n)
    ensures var inner := Inner(State(calls, n), rank, size, calls[n]);
            if inner == [] then Sending(calls, n, rank, size) == [] && Receiving(calls, n, rank, size) == []
            else
              && inner == [inner[0]] && AsFields(inner[0], Send) == Sending(calls, n, rank, size)
              && AsFields(inner[0], Recv) == Receiving(calls, n, rank, size)
  {
    hide Outstanding, State, Sent;
  }

  lemma InnerLinked(calls: seq<Call>, n: nat, rank: nat, size: nat)
    requires n < |calls|
    ensures var inner := Inner(State(calls, n), rank, size, calls[n]);
            Linked(inner, Send) == Sending(calls, n, rank, size) && Linked(inner, Recv) == Receiving(calls, n, rank, size)
  {
    hide Inner, Sending, Receiving, State, Sent;
    var inner := Inner(State(calls, n), rank, size, calls[n]);
    MarkIsCount(calls, n);
    if IsWait(calls[n]) {
      WaitLinked(calls, n, rank, size);
    } else {
      OtherLinked(calls, n, rank, size);
      if inner != [] {
        OneLinked(inner[0], Send);
        OneLinked(inner[0], Recv);
      }
    }
  }

  lemma EntriesLinked(calls: seq<Call>, n: nat, rank: nat, size: nat, way: Way)
    requires n < |calls|
    ensures Linked(Entries(State(calls, n), rank, size, calls[n]), way) ==
            if way == Send then Sending(calls, n, rank, size) else Receiving(calls, n, rank, size)
  {
    hide Inner, Sending, Receiving, Begin, Linked, State;
    var t := State(calls, n);
    var begin, inner := Begin(t, rank, size, calls[n]), Inner(t, rank, size, calls[n]);
    LinkedAppend([begin] + inner, [OUT], way);
    LinkedAppend([begin], inner, way);
    OneLinked(begin, way);
    OneLinked(OUT, way);
    BeginIsNoLink(t, rank, size, calls[n]);
    InnerLinked(calls, n, rank, size);
  }

  /** The send records of a rank are exactly what its program sends, in order; each carries destination, size and mark. */
  lemma {:induction false} SendsRecorded(calls: seq<Call>, n: nat, rank: nat, size: nat)
    requires n <= |calls|
    ensures Linked(Body(calls, n, rank, size), Send) == AllSent(calls, n, rank, size)
  {
    hide Sending, Entries, State, Linked;
    if n == 0 {
      NothingLinked(Send);
    }
    if n > 0 {
      SendsRecorded(calls, n - 1, rank, size);
      EntriesLinked(calls, n - 1, rank, size, Send);
      LinkedAppend(Body(calls, n - 1, rank, size), Entries(State(calls, n - 1), rank, size, calls[n - 1]), Send);
    }
  }

  /** The receive records of a rank are exactly what its program receives, in order; each names its source. */
  lemma {:induction false} ReceivesRecorded(calls: seq<Call>, n: nat, rank: nat, size: nat)
    requires n <= |calls|
    ensures Linked(Body(calls, n, rank, size), Recv) == AllReceived(calls, n, rank, size)
  {
    hide Receiving, Entries, State, Linked;
    if n == 0 {
      NothingLinked(Recv);
    }
    if n > 0 {
      ReceivesRecorded(calls, n - 1, rank, size);
      EntriesLinked(calls, n - 1, rank, size, Recv);
      LinkedAppend(Body(calls, n - 1, rank, size), Entries(State(calls, n - 1), rank, size, calls[n - 1]), Recv);
    }
  }

  // ----- Where they are -----

  /** The record that begins call n, and the records inside it, in the whole trace. */
  function BeginPlace(calls: seq<Call>, n: nat, rank: nat, size: nat): nat
    requires n < |calls|
  {
    1 + |Body(calls, n, rank, size)|
  }

  function InnerPlace(calls: seq<Call>, n: nat, rank: nat, size: nat, t: nat): nat
    requires n < |calls|
  {
    2 + |Body(calls, n, rank, size)| + t
  }

  lemma {:induction false} BodyGrows(calls: seq<Call>, m: nat, n: nat, rank: nat, size: nat) returns (rest: seq<Entry>)
    requires m <= n <= |calls|
    ensures Body(calls, n, rank, size) == Body(calls, m, rank, size) + rest
  {
    hide Entries, State;
    if m < n {
      rest := BodyGrows(calls, m, n - 1, rank, size);
      rest := rest + Entries(State(calls, n - 1), rank, size, calls[n - 1]);
    } else {
      rest := [];
    }
  }

  /** The trace up to the t-th record inside call n. */
  lemma TraceUpTo(calls: seq<Call>, n: nat, rank: nat, size: nat, t: nat)
    requires n < |calls|
    ensures var begin, inner := Begin(State(calls, n), rank, size, calls[n]), Inner(State(calls, n), rank, size, calls[n]);
            var trace, p := Trace(calls, rank, size), InnerPlace(calls, n, rank, size, t);
            && p - t - 1 < |trace| && trace[p - t - 1] == begin
            && (t <= |inner| ==> p <= |trace| && trace[..p] == FIRST + Body(calls, n, rank, size) + [begin] + inner[..t])
            && (t < |inner| ==> p < |trace| && trace[p] == inner[t])
  {
    hide Begin, Inner, State;
    var begin, inner := Begin(State(calls, n), rank, size, calls[n]), Inner(State(calls, n), rank, size, calls[n]);
    var rest := BodyGrows(calls, n + 1, |calls|, rank, size);
    var before := FIRST + Body(calls, n, rank, size) + [begin];
    assert Trace(calls, rank, size) == before + inner + ([OUT] + rest + LAST);
  }

  /**
    The record that begins a call says what its link record says: the mark of a send or the size of the
    communicator, and the size of a message.  A receive's begin has the size of its buffer.
   */
  lemma BeginsAgree(calls: seq<Call>, n: nat, rank: nat, size: nat)
    requires n < |calls|
    ensures BeginPlace(calls, n, rank, size) < |Trace(calls, rank, size)|
    ensures var begin, sent, call := Trace(calls, rank, size)[BeginPlace(calls, n, rank, size)], Sending(calls, n, rank, size), calls[n];
            && (sent != [] ==> begin.longs == sent[0].longs)
            && (sent == [] && !call.Wait? ==> begin.longs == [])
            && (begin.kind.EnterSend? <==> call.PlainSend? || call.Isend?)
            && (begin.kind.EnterSend? ==> begin.ints == [SizeOf(call)])
            && (begin.kind.EnterRecv? <==> call.Receive? || call.Irecv?)
            && (begin.kind.EnterRecv? ==> begin.ints == [call.bytes])
            && (begin.kind.Enter? || begin.kind.EnterSend? || begin.kind.EnterRecv?)
  {
    TraceUpTo(calls, n, rank, size, 0);
    MarkIsCount(calls, n);
  }

  // ----- Counting messages -----

  /** How many of the first n calls send a message to d. */
  function MessagesTo(calls: seq<Call>, n: nat, d: nat): nat
    requires n <= |calls|
  {
    if n == 0 then 0 else MessagesTo(calls, n - 1, d) + if IsSend(calls[n - 1]) && DestOf(calls[n - 1]) == d then 1 else 0
  }

  function CountOf(list: seq<nat>, x: nat): nat {
    if list == [] then 0 else CountOf(list[..|list| - 1], x) + if list[|list| - 1] == x then 1 else 0
  }

  /** How many messages from s the first n calls complete. */
  function ArrivedFrom(calls: seq<Call>, n: nat, s: nat): nat
    requires n <= |calls|
  {
    if n == 0 then 0 else ArrivedFrom(calls, n - 1, s) + CountOf(Arrivals(calls, n - 1), s)
  }

  /** How many of the fields are of messages that name the rank. */
  function Naming(fields: seq<Fields>, peer: nat): nat {
    if fields == [] then 0
    else
      var f := fields[|fields| - 1];
      Naming(fields[..|fields| - 1], peer) + if f.pattern == Ptp && f.ints != [] && f.ints[0] == peer then 1 else 0
  }

  lemma {:induction false} NamingAppend(a: seq<Fields>, b: seq<Fields>, peer: nat)
    ensures Naming(a + b, peer) == Naming(a, peer) + Naming(b, peer)
    decreases |b|
  {
    if b == [] {
      assert a + b == a;
    } else {
      assert (a + b)[..|a + b| - 1] == a + b[..|b| - 1];
      NamingAppend(a, b[..|b| - 1], peer);
    }
  }

  lemma OneNaming(f: Fields, peer: nat)
    ensures Naming([f], peer) == if f.pattern == Ptp && f.ints != [] && f.ints[0] == peer then 1 else 0
  {
    assert [f][..0] == [];
  }

  lemma {:induction false} SentNaming(calls: seq<Call>, n: nat, rank: nat, size: nat, d: nat)
    requires n <= |calls|
    ensures Naming(AllSent(calls, n, rank, size), d) == MessagesTo(calls, n, d)
  {
    hide Naming, Sending;
    if n == 0 {
      NothingNamed(d);
    } else {
      SentNaming(calls, n - 1, rank, size, d);
      NamingAppend(AllSent(calls, n - 1, rank, size), Sending(calls, n - 1, rank, size), d);
      SendNaming(calls, n - 1, rank, size, d);
    }
  }

  lemma NothingNamed(peer: nat)
    ensures Naming([], peer) == 0
  {
  }

  lemma SendNaming(calls: seq<Call>, n: nat, rank: nat, size: nat, d: nat)
    requires n < |calls|
    ensures Naming(Sending(calls, n, rank, size), d) == if IsSend(calls[n]) && DestOf(calls[n]) == d then 1 else 0
  {
    hide Naming, Sent;
    NothingNamed(d);
    var sent := Sending(calls, n, rank, size);
    if sent != [] {
      OneNaming(sent[0], d);
      assert sent == [sent[0]];
    }
  }

  lemma {:induction false} ArrivalsNaming(sources: seq<nat>, s: nat)
    ensures Naming(AsMessages(sources), s) == CountOf(sources, s)
  {
    if sources != [] {
      var before := sources[..|sources| - 1];
      ArrivalsNaming(before, s);
      assert AsMessages(sources)[..|sources| - 1] == AsMessages(before);
    }
  }

  lemma {:induction false} ReceivedNaming(calls: seq<Call>, n: nat, rank: nat, size: nat, s: nat)
    requires n <= |calls|
    ensures Naming(AllReceived(calls, n, rank, size), s) == ArrivedFrom(calls, n, s)
  {
    hide Naming, Receiving, Arrivals;
    if n == 0 {
      NothingNamed(s);
    } else {
      ReceivedNaming(calls, n - 1, rank, size, s);
      NamingAppend(AllReceived(calls, n - 1, rank, size), Receiving(calls, n - 1, rank, size), s);
      CallNaming(calls, n - 1, rank, size, s);
    }
  }

  lemma CallNaming(calls: seq<Call>, n: nat, rank: nat, size: nat, s: nat)
    requires n < |calls|
    ensures Naming(Receiving(calls, n, rank, size), s) == CountOf(Arrivals(calls, n), s)
  {
    hide Naming, AsMessages, Outstanding;
    NothingNamed(s);
    var received := Receiving(calls, n, rank, size);
    if calls[n].Bcast? || calls[n].Scatter? || calls[n].Gather? || calls[n].Reduce? {
      assert Arrivals(calls, n) == [];
      if received != [] {
        OneNaming(received[0], s);
        assert received == [received[0]];
      }
    } else {
      ArrivalsNaming(Arrivals(calls, n), s);
    }
  }

  // ----- The record of one message -----

  /** What is recorded before the records inside call n. */
  lemma LinkedBefore(calls: seq<Call>, n: nat, rank: nat, size: nat, begin: Entry, part: seq<Entry>, way: Way)
    requires n < |calls| && begin == Begin(State(calls, n), rank, size, calls[n])
    ensures Linked(FIRST + Body(calls, n, rank, size) + [begin] + part, way) ==
            (if way == Send then AllSent(calls, n, rank, size) else AllReceived(calls, n, rank, size)) + Linked(part, way)
  {
    hide Linked, State, Begin;
    var body := Body(calls, n, rank, size);
    LinkedAppend(FIRST + body + [begin], part, way);
    LinkedAppend(FIRST + body, [begin], way);
    LinkedAppend(FIRST, body, way);
    OneLinked(FIRST[0], way);
    OneLinked(begin, way);
    BeginIsNoLink(State(calls, n), rank, size, calls[n]);
    if way == Send {
      SendsRecorded(calls, n, rank, size);
    } else {
      ReceivesRecorded(calls, n, rank, size);
    }
  }

  /** The record of a send: its fields, and how many sends to a rank come before it. */
  lemma SendPlaced(calls: seq<Call>, n: nat, rank: nat, size: nat, d: nat)
    requires n < |calls| && IsSend(calls[n])
    ensures var trace, p := Trace(calls, rank, size), InnerPlace(calls, n, rank, size, 0);
            && p < |trace| && trace[p] == LinkEntry(Ptp, Send, [DestOf(calls[n]), SizeOf(calls[n])], [Sent(calls, n)])
            && Naming(Linked(trace[..p], Send), d) == MessagesTo(calls, n, d)
  {
    hide Naming, Linked, Body, State, Trace, Sent;
    MarkIsCount(calls, n);
    TraceUpTo(calls, n, rank, size, 0);
    var begin, inner := Begin(State(calls, n), rank, size, calls[n]), Inner(State(calls, n), rank, size, calls[n]);
    LinkedBefore(calls, n, rank, size, begin, inner[..0], Send);
    NothingLinked(Send);
    SentNaming(calls, n, rank, size, d);
    assert AllSent(calls, n, rank, size) + [] == AllSent(calls, n, rank, size);
  }

  /** The first t records of a call that completes messages. */
  lemma ArrivalsInside(calls: seq<Call>, n: nat, rank: nat, size: nat, t: nat)
    requires n < |calls| && t < |Arrivals(calls, n)|
    ensures var inner := Inner(State(calls, n), rank, size, calls[n]);
            && |inner| == |Arrivals(calls, n)| && inner[t] == LinkEntry(Ptp, Recv, [Arrivals(calls, n)[t]], [])
            && Linked(inner[..t], Recv) == AsMessages(Arrivals(calls, n)[..t])
  {
    hide State, Outstanding, Linked, ReportedFirst, Completions;
    var inner := Inner(State(calls, n), rank, size, calls[n]);
    if calls[n].Receive? {
      NothingLinked(Recv);
    } else {
      RecordsOfCall(calls, n, rank, size);
      ReportsLinked(Reported(calls, n)[..t]);
      assert inner[..t] == AsRecords(Reported(calls, n)[..t]);
      assert Sources(Reported(calls, n)[..t]) == Arrivals(calls, n)[..t];
    }
  }

  /** The record of the t-th message that a call completes: its source, and how many messages of a rank come before it. */
  lemma ArrivalPlaced(calls: seq<Call>, n: nat, t: nat, rank: nat, size: nat, s: nat)
    requires n < |calls| && t < |Arrivals(calls, n)|
    ensures var trace, p := Trace(calls, rank, size), InnerPlace(calls, n, rank, size, t);
            && p < |trace| && trace[p] == LinkEntry(Ptp, Recv, [Arrivals(calls, n)[t]], [])
            && Naming(Linked(trace[..p], Recv), s) == ArrivedFrom(calls, n, s) + CountOf(Arrivals(calls, n)[..t], s)
  {
    hide Naming, Linked, Body, State, Trace, Arrivals, Inner, Begin;
    TraceUpTo(calls, n, rank, size, t);
    ArrivalsInside(calls, n, rank, size, t);
    var begin, inner := Begin(State(calls, n), rank, size, calls[n]), Inner(State(calls, n), rank, size, calls[n]);
    LinkedBefore(calls, n, rank, size, begin, inner[..t], Recv);
    NamingAppend(AllReceived(calls, n, rank, size), AsMessages(Arrivals(calls, n)[..t]), s);
    ReceivedNaming(calls, n, rank, size, s);
    ArrivalsNaming(Arrivals(calls, n)[..t], s);
  }
}
