/**
  The records of the output that are not links: each event's containers and states, with its process and
  its time, and with the numbers it carries.
 */
module StateOutput {
  import opened Wrappers
  import opened KeyNames
  import opened Links
  import opened Events
  import opened Translation
  import opened LinkTrails
  import opened LinkOutput
  import LifeCycles

  // ----- What the records of one event tell -----

  function TimeOf(r: Record): real {
    match r
    case CreateContainer(t, _, _, _) => t
    case DestroyContainer(t, _, _) => t
    case PushState(t, _, _, _) => t
    case PopState(t, _) => t
    case StartLink(t, _, _, _, _) => t
    case EndLink(t, _, _, _) => t
  }

  function ContainerOf(r: Record): string {
    match r
    case CreateContainer(_, name, _, _) => name
    case DestroyContainer(_, _, name) => name
    case PushState(_, name, _, _) => name
    case PopState(_, name) => name
    case StartLink(_, name, _, _, _) => name
    case EndLink(_, name, _, _) => name
  }

  /** The state that an event begins, and the numbers shown with it. */
  function StateOf(e: Event): string
    requires e.kind.Enter? || e.kind.EnterSend? || e.kind.EnterRecv?
  {
    match e.kind case Enter(name) => name case EnterSend(name) => name case EnterRecv(name) => name
  }

  function NumbersOf(e: Event): seq<nat>
    requires Readable(e) && (e.kind.Enter? || e.kind.EnterSend? || e.kind.EnterRecv?)
  {
    match e.kind
    case Enter(_) => if |e.longs| == 1 then e.longs else []
    case EnterSend(_) => [e.ints[0], e.longs[0]]
    case EnterRecv(_) => [e.ints[0]]
  }

  /** The printed numbers, read back. */
  ghost predicate Reads(extras: seq<string>, numbers: seq<nat>) {
    |extras| == |numbers| && forall k :: 0 <= k < |extras| ==> Value(extras[k]) == numbers[k]
  }

  /** All records are of the event's time and of its process, but for the root that the first process needs. */
  ghost predicate OfProcess(records: seq<Record>, e: Event, first: bool) {
    forall k :: 0 <= k < |records| ==>
      && TimeOf(records[k]) == e.time
      && (ContainerOf(records[k]) == "rank" + Digits(e.rank) || (first && e.kind.Init? && k == 0))
  }

  /** Unless states are left out, one record begins the state of the event and shows its numbers. */
  ghost predicate BeginsState(records: seq<Record>, e: Event, o: Options)
    requires Readable(e) && (e.kind.Enter? || e.kind.EnterSend? || e.kind.EnterRecv?)
  {
    if o.noStates then records == []
    else
      && |records| == 1 && records[0].PushState? && records[0].value == StateOf(e)
      && Reads(records[0].extras, NumbersOf(e))
  }

  ghost predicate Tells(records: seq<Record>, e: Event, first: bool, o: Options)
    requires Readable(e)
  {
    match e.kind
    case Link(_, _) => records == []
    case Init =>
      && |records| == (if first then 2 else 1)
      && (first ==> records[0] == CreateContainer(e.time, "root", "ROOT", "0"))
      && var own := records[|records| - 1]; own.CreateContainer? && own.kind == "PROCESS" && own.parent == "root"
    case Enter(_) => BeginsState(records, e, o)
    case EnterSend(_) => BeginsState(records, e, o)
    case EnterRecv(_) => BeginsState(records, e, o)
    case Leave => |records| == (if o.noStates then 0 else 1) && (!o.noStates ==> records[0].PopState?)
    case FinalizeOut =>
      && |records| == (if o.noStates then 1 else 2) && (!o.noStates ==> records[0].PopState?)
      && var own := records[|records| - 1]; own.DestroyContainer? && own.kind == "PROCESS"
    case Unknown => records == []
  }

  /** The records of an event tell all of it: process, time, state and numbers. */
  lemma PlainTells(e: Event, rootCreated: bool, o: Options)
    requires Readable(e)
    ensures OfProcess(Plain(e, rootCreated, o), e, !rootCreated) && Tells(Plain(e, rootCreated, o), e, !rootCreated, o)
  {
    if e.kind.Enter? || e.kind.EnterSend? || e.kind.EnterRecv? {
      var numbers := NumbersOf(e);
      forall k | 0 <= k < |numbers|
        ensures Value(Digits(numbers[k])) == numbers[k]
      {
        DigitsValue(numbers[k]);
      }
    }
  }

  // ----- All events -----

  /** The records among the output that are no links, in order. */
  function Rest(out: seq<Record>): seq<Record> {
    if out == [] then []
    else Rest(out[..|out| - 1]) + if IsLink(out[|out| - 1]) then [] else [out[|out| - 1]]
  }

  lemma {:induction false} RestAppend(a: seq<Record>, b: seq<Record>)
    ensures Rest(a + b) == Rest(a) + Rest(b)
    decreases |b|
  {
    if b == [] {
      assert a + b == a;
    } else {
      assert (a + b)[..|a + b| - 1] == a + b[..|b| - 1];
      RestAppend(a, b[..|b| - 1]);
    }
  }

  lemma {:induction false} AllRest(records: seq<Record>)
    requires forall r :: r in records ==> !IsLink(r)
    ensures Rest(records) == records
  {
    if records != [] {
      AllRest(records[..|records| - 1]);
      assert records == records[..|records| - 1] + [records[|records| - 1]];
    }
  }

  /** Some process was created before event n. */
  ghost predicate InitBefore(events: seq<Event>, n: nat)
    requires n <= |events|
  {
    exists i :: 0 <= i < n && events[i].kind.Init?
  }

  /** The container and state records of the first n events. */
  ghost function StateRecords(events: seq<Event>, n: nat, o: Options): seq<Record>
    requires n <= |events| && AllReadable(events)
  {
    if n == 0 then []
    else
      assert Readable(events[n - 1]);
      StateRecords(events, n - 1, o)
      + if events[n - 1].kind.Link? then [] else Plain(events[n - 1], InitBefore(events, n - 1), o)
  }

  lemma {:induction false} LinksAddNone(v: View, e: Event, ops: seq<LinkOp>, n: nat, o: Options)
    requires e.kind.Link? && n <= |ops|
    ensures Rest(LinkedAll(v, e, ops, n, o).out) == Rest(v.out)
  {
    hide LinkRecord, Key, Step;
    if n > 0 {
      LinksAddNone(v, e, ops, n - 1, o);
      var w := LinkedAll(v, e, ops, n - 1, o);
      var r := LinkRecord(e, ops[n - 1], Key(w.store, ops[n - 1], o.capacity));
      LinkIsLink(e, ops[n - 1], Key(w.store, ops[n - 1], o.capacity));
      assert (w.out + [r])[..|w.out|] == w.out;
    }
  }

  lemma EventRest(v: View, e: Event, o: Options)
    requires Readable(e)
    ensures Rest(Translate(v, e, o).out) ==
            Rest(v.out) + if e.kind.Link? then [] else Plain(e, v.rootCreated, o)
  {
    hide OpsOf, Rest, LinkedAll;
    if e.kind.Link? {
      if !o.noLinks {
        LinksAddNone(v.(time := e.time), e, OpsOf(e), |OpsOf(e)|, o);
      }
      assert Rest(v.out) + [] == Rest(v.out);
    } else {
      RestAppend(v.out, Plain(e, v.rootCreated, o));
      PlainNoLinks(e, v.rootCreated, o);
      AllRest(Plain(e, v.rootCreated, o));
    }
  }

  lemma PlainNoLinks(e: Event, rootCreated: bool, o: Options)
    requires Readable(e)
    ensures forall r :: r in Plain(e, rootCreated, o) ==> !IsLink(r)
  {
    assert |Plain(e, rootCreated, o)| <= 2;
  }

  /** Up to and including the first failing event, these are exactly the records written besides links. */
  lemma {:induction false} RunStates(v: View, events: seq<Event>, n: nat, o: Options)
    requires n <= |events| && AllReadable(events) && Reached(v, events, n, o) && Live(events, n, o)
    ensures Rest(v.out) == StateRecords(events, n, o) && v.rootCreated == InitBefore(events, n)
    decreases n
  {
    hide Translate, Rest, Plain, InitBefore;
    if n == 0 {
      NothingRests(events);
    } else {
      var w := LastStep(v, events, n, o);
      RunStates(w, events, n - 1, o);
      EventRest(w, events[n - 1], o);
      LifeCycles.RootNoted(w, events[n - 1], o);
      InitNext(events, n - 1);
    }
  }

  lemma NothingRests(events: seq<Event>)
    ensures Rest(START.out) == [] && !InitBefore(events, 0) && !START.rootCreated
  {
  }

  lemma InitNext(events: seq<Event>, n: nat)
    requires n < |events|
    ensures InitBefore(events, n + 1) <==> InitBefore(events, n) || events[n].kind.Init?
  {
    if InitBefore(events, n) {
      var i :| 0 <= i < n && events[i].kind.Init?;
      assert 0 <= i < n + 1;
    }
  }

  /** Besides the links, the output holds the records of the events and the end of the root. */
  lemma OutputStates(events: seq<Event>, o: Options)
    requires AllReadable(events) && !Translated(events, |events|, o).fail
    ensures var v := Translated(events, |events|, o);
            Rest(Output(events, o)) ==
            StateRecords(events, |events|, o) + if v.time >= 0.0 then [DestroyContainer(v.time, "ROOT", "root")] else []
  {
    hide Translate, Rest;
    var v := Translated(events, |events|, o);
    LifeCycles.StillLive(events, |events|, o);
    RunStates(v, events, |events|, o);
    var last: seq<Record> := if v.time >= 0.0 then [DestroyContainer(v.time, "ROOT", "root")] else [];
    RestAppend(v.out, last);
    AllRest(last);
  }

  lemma LinkIsLink(e: Event, op: LinkOp, key: Option<nat>)
    requires e.kind.Link?
    ensures IsLink(LinkRecord(e, op, key))
  {
  }
}
