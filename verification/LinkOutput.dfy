/**
  The theorems about the links of a whole conversion: when it fails, and which StartLink an EndLink
  of the output belongs to.
 */
module LinkOutput {
  import opened Wrappers
  import opened KeyNames
  import opened Links
  import opened Lists
  import opened Events
  import opened Translation
  import opened LinkTrails

  lemma OffsetInRange(events: seq<Event>, n: nat)
    requires n <= |events| && AllReadable(events)
    ensures Offset(events, n) <= |Ops(events)|
  {
    FlattenGrows(OpLists(events), n, |events|);
  }

  /** Each of the first n receives comes after its send and is on a channel the key table has room for. */
  ghost predicate Smooth(ops: seq<LinkOp>, n: nat, capacity: nat)
    requires n <= |ops|
  {
    Sound(ops, n) && Carried(ops, n, capacity)
  }

  lemma SmoothPrefix(ops: seq<LinkOp>, m: nat, n: nat, capacity: nat)
    requires m <= n <= |ops| && Smooth(ops, n, capacity)
    ensures Smooth(ops, m, capacity)
  {
    forall i | 0 <= i < m
      ensures Served(ops, i) && Carries(ops, i, capacity)
    {
      assert 0 <= i < n;
    }
  }

  lemma MissIffNotSmooth(ops: seq<LinkOp>, n: nat, capacity: nat)
    requires n <= |ops|
    ensures MissBefore(ops, n, capacity) <==> !Smooth(ops, n, capacity)
  {
    NoMissIffSound(ops, n, capacity);
  }

  /**
    Unless errors are ignored, the first n events lead to a failure exactly when a receive among them
    is not preceded by its send, or is on a channel the key table had no room for.
   */
  lemma {:induction false} FailsExactly(events: seq<Event>, n: nat, o: Options)
    requires n <= |events| && AllReadable(events) && !o.noLinks && !o.ignoreErrors
    ensures Offset(events, n) <= |Ops(events)|
    ensures Translated(events, n, o).fail <==> !Smooth(Ops(events), Offset(events, n), o.capacity)
    decreases n
  {
    hide Translate, Smooth;
    OffsetInRange(events, n);
    if n > 0 && Translated(events, n - 1, o).fail {
      FailsExactly(events, n - 1, o);
      OffsetStep(events, n - 1);
      if Smooth(Ops(events), Offset(events, n), o.capacity) {
        SmoothPrefix(Ops(events), Offset(events, n - 1), Offset(events, n), o.capacity);
      }
    } else {
      RunTracks(Translated(events, n, o), events, n, o);
      MissIffNotSmooth(Ops(events), Offset(events, n), o.capacity);
    }
  }

  lemma OffsetStep(events: seq<Event>, n: nat)
    requires n < |events| && AllReadable(events)
    ensures Offset(events, n) <= Offset(events, n + 1)
  {
    FlattenGrows(OpLists(events), n, n + 1);
  }

  /** Nothing of the events after the failing one is translated. */
  lemma NothingAfterFailure(events: seq<Event>, n: nat, o: Options)
    requires n <= |events| && AllReadable(events) && Translated(events, n, o).fail
    ensures Translated(events, |events|, o) == Translated(events, n, o)
  {
    FailureStops(Translated(events, n, o), events, n, |events|, o);
  }

  /** When errors are ignored every event is translated. */
  lemma {:induction false} IgnoringNeverFails(events: seq<Event>, n: nat, o: Options)
    requires n <= |events| && AllReadable(events) && o.ignoreErrors
    ensures !Translated(events, n, o).fail
  {
    hide Translate;
    if n > 0 {
      IgnoringNeverFails(events, n - 1, o);
      IgnoringStep(Translated(events, n - 1, o), events[n - 1], o);
    }
  }

  lemma IgnoringStep(v: View, e: Event, o: Options)
    requires Readable(e) && o.ignoreErrors && !v.fail
    ensures !Translate(v, e, o).fail
  {
    if e.kind.Link? && !o.noLinks {
      IgnoringLinks(v.(time := e.time), e, OpsOf(e), |OpsOf(e)|, o);
    }
  }

  lemma {:induction false} IgnoringLinks(v: View, e: Event, ops: seq<LinkOp>, n: nat, o: Options)
    requires e.kind.Link? && n <= |ops| && o.ignoreErrors && !v.fail
    ensures !LinkedAll(v, e, ops, n, o).fail
  {
    if n > 0 {
      IgnoringLinks(v, e, ops, n - 1, o);
    }
  }

  /** As long as nothing failed, the keys issued on a channel are those taken and then those in its queue. */
  lemma QueuesBalance(events: seq<Event>, n: nat, c: Channel, o: Options)
    requires n <= |events| && AllReadable(events) && !o.noLinks && Live(events, n, o)
    ensures var ops, k := Ops(events), Offset(events, n);
            k <= |ops| && Issued(ops, k, c, o.capacity) ==
                          Taken(ops, k, c, o.capacity) + Queue(Translated(events, n, o).store, c)
  {
    hide Translate;
    RunTracks(Translated(events, n, o), events, n, o);
    Conservation(Ops(events), Offset(events, n), c, o.capacity);
  }

  // ----- The whole output -----

  /** Every event is translated: errors are ignored, or there are none. */
  ghost predicate Completes(events: seq<Event>, o: Options)
    requires AllReadable(events)
  {
    o.ignoreErrors || Smooth(Ops(events), |Ops(events)|, o.capacity)
  }

  lemma CompletesLive(events: seq<Event>, n: nat, o: Options)
    requires n <= |events| && AllReadable(events) && !o.noLinks && Completes(events, o)
    ensures !Translated(events, n, o).fail
  {
    hide Translate;
    if o.ignoreErrors {
      IgnoringNeverFails(events, n, o);
    } else {
      FailsExactly(events, n, o);
      SmoothPrefix(Ops(events), Offset(events, n), |Ops(events)|, o.capacity);
    }
  }

  function Output(events: seq<Event>, o: Options): seq<Record>
    requires AllReadable(events)
  {
    Finished(Translated(events, |events|, o))
  }

  /** The link records of the output are the link operations of the events, in order and each with its key. */
  lemma OutputLinks(events: seq<Event>, o: Options)
    requires AllReadable(events) && !o.noLinks && Completes(events, o)
    ensures TrailOk(Trail(Output(events, o)), Ops(events), |Ops(events)|, o.capacity)
  {
    hide Translate, Completes;
    var v := Translated(events, |events|, o);
    if |events| > 0 {
      CompletesLive(events, |events| - 1, o);
    }
    RunTracks(v, events, |events|, o);
    FinishKeepsTrail(v);
  }

  lemma FinishKeepsTrail(v: View)
    ensures Trail(Finished(v)) == Trail(v.out)
  {
    var records: seq<Record> := if v.time >= 0.0 then [DestroyContainer(v.time, "ROOT", "root")] else [];
    NoLinks(records);
    WriteKeepsTrail(v.out, records);
  }

  /** Two keys are written alike exactly when they are the same key; a missing one is written as nothing. */
  lemma KeyStrings(c: Channel, m: Option<nat>, d: Channel, n: Option<nat>)
    requires m != None && m == n ==> c == d
    ensures KeyString(c, m) == "" <==> m == None
    ensures KeyString(c, m) == KeyString(d, n) <==> m == n
  {
    if m.Some? && n.Some? && KeyString(c, m) == KeyString(d, n) {
      KeyTextInjective(c.src, c.dst, m.value, d.src, d.dst, n.value);
    }
  }

  /**
    The links of the output, of any run that is translated to its end: an EndLink has the key of a
    StartLink exactly when both are of one admitted channel and, of the sends of it that no receive has
    answered, that one has waited longest.
   */
  lemma OutputPairs(events: seq<Event>, p: nat, q: nat, o: Options)
    requires AllReadable(events) && !o.noLinks && Completes(events, o)
    requires var trail := Trail(Output(events, o));
             p < |trail| && q < |trail| && trail[p].StartLink? && trail[q].EndLink?
    ensures var trail, ops := Trail(Output(events, o)), Ops(events);
            && |ops| == |trail| && ops[p].Open? && ops[q].Close?
            && (trail[p].key == "" <==> !Admitted(ops, ops[p].channel, o.capacity))
            && (trail[p].key != "" && trail[p].key == trail[q].key <==>
                var c := ops[q].channel;
                && ops[p].channel == c && Admitted(ops, c, o.capacity) && Waiting(ops, q, c) > 0
                && Opens(ops, p, c) + Waiting(ops, q, c) == Opens(ops, q, c))
  {
    hide Translate, Output, Opens, Waiting, Outcome, Completes, Admitted;
    var trail, ops := Trail(Output(events, o)), Ops(events);
    OutputLinks(events, o);
    assert Recorded(trail, ops, p, o.capacity) && Recorded(trail, ops, q, o.capacity);
    OpenSucceeds(ops, p, o.capacity);
    RunPairs(ops, p, q, o.capacity);
    KeyStrings(ops[p].channel, Outcome(ops, p, o.capacity), ops[q].channel, Outcome(ops, q, o.capacity));
  }

  /**
    When every receive comes after its send, that is the send of which as many precede it as receives
    precede the receive.
   */
  lemma SoundOutputPairs(events: seq<Event>, p: nat, q: nat, o: Options)
    requires AllReadable(events) && !o.noLinks && Smooth(Ops(events), |Ops(events)|, o.capacity)
    requires var trail := Trail(Output(events, o));
             p < |trail| && q < |trail| && trail[p].StartLink? && trail[q].EndLink?
    ensures var trail, ops := Trail(Output(events, o)), Ops(events);
            && |ops| == |trail| && ops[p].Open? && ops[q].Close? && trail[q].key != ""
            && (trail[p].key == trail[q].key <==>
                ops[p].channel == ops[q].channel && Opens(ops, p, ops[p].channel) == Closes(ops, q, ops[q].channel))
  {
    hide Translate, Output, Opens, Closes, Outcome, Admitted;
    var trail, ops := Trail(Output(events, o)), Ops(events);
    OutputLinks(events, o);
    assert Recorded(trail, ops, p, o.capacity) && Recorded(trail, ops, q, o.capacity);
    SoundRunPairs(ops, p, q, o.capacity);
    RunPairs(ops, p, q, o.capacity);
    KeyStrings(ops[q].channel, Outcome(ops, q, o.capacity), ops[p].channel, Outcome(ops, p, o.capacity));
  }

  // ----- What a link record shows besides its key -----

  /** Time, process and kind of link are those of the event; a send shows size and mark. */
  predicate Shows(r: Record, e: Event)
    requires e.kind.Link?
  {
    match e.kind.way
    case Send =>
      && r.StartLink? && r.time == e.time && r.container == "rank" + Digits(e.rank)
      && r.value == LinkValue(e.kind.pattern) && r.extras == SizeMark(e)
    case Recv =>
      && r.EndLink? && r.time == e.time && r.container == "rank" + Digits(e.rank)
      && r.value == LinkValue(e.kind.pattern)
  }

  /**
    A link with a size and a mark that fit a C int and are not -1 shows both, size first; each can be read
    back exactly if it has at most five digits.
   */
  lemma SizeMarkReads(e: Event)
    requires |e.ints| == 2 && |e.longs| == 1 && e.ints[1] < 0x8000_0000 && e.longs[0] < 0x8000_0000
    ensures |SizeMark(e)| == 2
    ensures Value(SizeMark(e)[0]) == e.ints[1] <==> e.ints[1] < 100000
    ensures Value(SizeMark(e)[1]) == e.longs[0] <==> e.longs[0] < 100000
  {
    hide Digits, Value;
    FirstDigits(e.ints[1], 5);
    FirstDigits(e.longs[0], 5);
    HundredThousand();
  }

  lemma HundredThousand()
    ensures Pow10(5) == 100000
  {
    assert Pow10(1) == 10 && Pow10(2) == 100 && Pow10(3) == 1000 && Pow10(4) == 10000;
  }

  ghost predicate AllShow(records: seq<Record>, e: Event) {
    e.kind.Link? && forall k :: 0 <= k < |records| ==> Shows(records[k], e)
  }

  /** An event adds a link record for each of its operations, all of which show it. */
  lemma {:induction false} OneEventShows(v: View, e: Event, ops: seq<LinkOp>, n: nat, o: Options) returns (records: seq<Record>)
    requires e.kind.Link? && n <= |ops| && forall k :: 0 <= k < |ops| ==> (ops[k].Open? <==> e.kind.way == Send)
    ensures Trail(LinkedAll(v, e, ops, n, o).out) == Trail(v.out) + records && |records| == n && AllShow(records, e)
  {
    hide Shows, LinkRecord, Trail, Key;
    if n == 0 {
      records := [];
    } else {
      records := OneEventShows(v, e, ops, n - 1, o);
      var w := LinkedAll(v, e, ops, n - 1, o);
      var r := LinkRecord(e, ops[n - 1], Key(w.store, ops[n - 1], o.capacity));
      OneLinkShows(e, ops[n - 1], Key(w.store, ops[n - 1], o.capacity));
      OneLink(w.out, r);
      records := records + [r];
    }
  }

  lemma OneLinkShows(e: Event, op: LinkOp, key: Option<nat>)
    requires e.kind.Link? && (op.Open? <==> e.kind.way == Send)
    ensures Shows(LinkRecord(e, op, key), e) && IsLink(LinkRecord(e, op, key))
  {
    hide SizeMark, LinkValue, Digits;
  }

  /** The k-th link record of event t shows it. */
  ghost predicate ShownAt(trail: seq<Record>, events: seq<Event>, t: nat, k: nat)
    requires AllReadable(events) && t < |events|
  {
    Readable(events[t]) && k < |OpsOf(events[t])| ==>
      && events[t].kind.Link? && Offset(events, t) + k < |trail|
      && Shows(trail[Offset(events, t) + k], events[t])
  }

  ghost predicate ShownUpTo(trail: seq<Record>, events: seq<Event>, n: nat)
    requires n <= |events| && AllReadable(events)
  {
    |trail| == Offset(events, n) && forall t: nat, k: nat :: t < n ==> ShownAt(trail, events, t, k)
  }

  lemma ShownNext(trail: seq<Record>, records: seq<Record>, events: seq<Event>, n: nat)
    requires n < |events| && AllReadable(events) && ShownUpTo(trail, events, n)
    requires Readable(events[n]) && |records| == |OpsOf(events[n])|
    requires records != [] ==> AllShow(records, events[n])
    ensures ShownUpTo(trail + records, events, n + 1)
  {
    hide OpsOf, Shows;
    EventIsNext(events, n);
    forall t: nat, k: nat | t < n + 1
      ensures ShownAt(trail + records, events, t, k)
    {
      if t < n {
        assert ShownAt(trail, events, t, k);
      } else if k < |OpsOf(events[n])| {
        assert (trail + records)[Offset(events, n) + k] == records[k];
      }
    }
  }

  lemma {:induction false} RunShows(v: View, events: seq<Event>, n: nat, o: Options)
    requires n <= |events| && AllReadable(events) && !o.noLinks && Reached(v, events, n, o) && Live(events, n, o)
    ensures ShownUpTo(Trail(v.out), events, n)
    decreases n
  {
    hide Translate, ShownUpTo, Trail;
    if n == 0 {
      NothingShown(events);
    } else {
      var w := LastStep(v, events, n, o);
      RunShows(w, events, n - 1, o);
      var records := EventShows(w, events[n - 1], o);
      ShownNext(Trail(w.out), records, events, n - 1);
    }
  }

  lemma NothingShown(events: seq<Event>)
    requires AllReadable(events)
    ensures ShownUpTo(Trail(START.out), events, 0)
  {
  }

  lemma EventShows(v: View, e: Event, o: Options) returns (records: seq<Record>)
    requires Readable(e) && !o.noLinks
    ensures Trail(Translate(v, e, o).out) == Trail(v.out) + records && |records| == |OpsOf(e)|
    ensures records != [] ==> AllShow(records, e)
  {
    hide OpsOf, Trail, LinkedAll, Plain;
    if e.kind.Link? {
      forall k | 0 <= k < |OpsOf(e)|
        ensures OpsOf(e)[k].Open? <==> e.kind.way == Send
      {
        WayOfOp(e, k);
      }
      records := OneEventShows(v.(time := e.time), e, OpsOf(e), |OpsOf(e)|, o);
    } else {
      PlainHasNoOps(e);
      PlainKeepsTrail(v, e, o);
      records := [];
    }
  }

  /** Every link record of the output shows time, process, kind and, for a send, size and mark of its event. */
  lemma OutputShows(events: seq<Event>, o: Options, t: nat, k: nat)
    requires AllReadable(events) && !o.noLinks && Completes(events, o) && t < |events|
    ensures ShownAt(Trail(Output(events, o)), events, t, k)
  {
    hide Translate, Completes, ShownAt, Trail;
    var v := Translated(events, |events|, o);
    if |events| > 0 {
      CompletesLive(events, |events| - 1, o);
    }
    RunShows(v, events, |events|, o);
    FinishKeepsTrail(v);
  }
}
