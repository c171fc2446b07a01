/**
  What the converter writes for a stream of events, as functions of values.
 */
module Translation {
  import opened Wrappers
  import opened KeyNames
  import opened Links
  import opened Events

  /** The records of the output that matter here. */
  datatype Record =
    | CreateContainer(time: real, name: string, kind: string, parent: string)
    | DestroyContainer(time: real, kind: string, name: string)
    | PushState(time: real, container: string, value: string, extras: seq<string>)
    | PopState(time: real, container: string)
    | StartLink(time: real, container: string, value: string, key: string, extras: seq<string>)
    | EndLink(time: real, container: string, value: string, key: string)

  datatype Options = Options(noLinks: bool, noStates: bool, ignoreErrors: bool, capacity: nat)

  /** The converter's variables, and its output so far. */
  datatype View = View(store: Store, fail: bool, rootCreated: bool, time: real, out: seq<Record>)

  const START := View(EMPTY, false, false, -1.0, [])

  function ProcessName(rank: nat): string {
    "rank" + Digits(rank)
  }

  /** The printed size and mark of a message hold five characters. */
  function Cut(s: string): (t: string)
    ensures |t| <= 5 && t <= s && (|s| <= 5 ==> t == s)
  {
    if |s| <= 5 then s else s[..5]
  }

  /** Size and mark are written when both are there and neither is the int -1. */
  function SizeMark(e: Event): seq<string> {
    if |e.ints| == 2 && |e.longs| == 1 && AsInt(e.ints[1]) != -1 && AsInt(e.longs[0]) != -1
    then [Cut(Decimal(AsInt(e.ints[1]))), Cut(Decimal(AsInt(e.longs[0])))]
    else []
  }

  /** A missing key is written as the empty string. */
  function KeyString(c: Channel, key: Option<nat>): string {
    match key case None => "" case Some(n) => KeyText(c.src, c.dst, n)
  }

  function LinkRecord(e: Event, op: LinkOp, key: Option<nat>): Record
    requires e.kind.Link?
  {
    match op
    case Open(c) => StartLink(e.time, ProcessName(e.rank), LinkValue(e.kind.pattern), KeyString(c, key), SizeMark(e))
    case Close(c) => EndLink(e.time, ProcessName(e.rank), LinkValue(e.kind.pattern), KeyString(c, key))
  }

  /** One link operation: a key is issued or taken, a record written, and a missing key noted. */
  function Linked(v: View, e: Event, op: LinkOp, o: Options): View
    requires e.kind.Link?
  {
    var key := Key(v.store, op, o.capacity);
    v.(store := Step(v.store, op, o.capacity), out := v.out + [LinkRecord(e, op, key)],
       fail := v.fail || (op.Close? && key == None && !o.ignoreErrors))
  }

  /** The first n of an event's link operations. */
  function LinkedAll(v: View, e: Event, ops: seq<LinkOp>, n: nat, o: Options): View
    requires e.kind.Link? && n <= |ops|
  {
    if n == 0 then v else Linked(LinkedAll(v, e, ops, n - 1, o), e, ops[n - 1], o)
  }

  function Write(v: View, records: seq<Record>): View {
    v.(out := v.out + records)
  }

  /** What a state carries: the mark of a collective call, size and mark of a send, size of a receive. */
  function Extras(e: Event): seq<string>
    requires Readable(e)
  {
    match e.kind
    case Enter(_) => if |e.longs| == 1 then [Digits(e.longs[0])] else []
    case EnterSend(_) => [Digits(e.ints[0]), Digits(e.longs[0])]
    case EnterRecv(_) => [Digits(e.ints[0])]
    case _ => []
  }

  /** The root container is created with the first process. */
  function Created(e: Event, rootCreated: bool): seq<Record> {
    (if rootCreated then [] else [CreateContainer(e.time, "root", "ROOT", "0")])
    + [CreateContainer(e.time, ProcessName(e.rank), "PROCESS", "root")]
  }

  function Pushed(e: Event, name: string, extras: seq<string>, o: Options): seq<Record> {
    if o.noStates then [] else [PushState(e.time, ProcessName(e.rank), name, extras)]
  }

  function Popped(e: Event, o: Options): seq<Record> {
    if o.noStates then [] else [PopState(e.time, ProcessName(e.rank))]
  }

  /** The records an event that is no link asks for, by itself. */
  function Plain(e: Event, rootCreated: bool, o: Options): seq<Record>
    requires Readable(e)
  {
    match e.kind
    case Init => Created(e, rootCreated)
    case Enter(name) => Pushed(e, name, Extras(e), o)
    case EnterSend(name) => Pushed(e, name, Extras(e), o)
    case EnterRecv(name) => Pushed(e, name, Extras(e), o)
    case Leave => Popped(e, o)
    case FinalizeOut => Popped(e, o) + [DestroyContainer(e.time, "PROCESS", ProcessName(e.rank))]
    case _ => []
  }

  /** One event. */
  function Translate(v: View, e: Event, o: Options): View
    requires Readable(e)
  {
    var w := v.(time := e.time);
    if e.kind.Link? then
      if o.noLinks then w else LinkedAll(w, e, OpsOf(e), |OpsOf(e)|, o)
    else
      Write(w, Plain(e, v.rootCreated, o)).(rootCreated := v.rootCreated || e.kind.Init?)
  }

  /** The first n events; none after one that failed. */
  function Translated(events: seq<Event>, n: nat, o: Options): View
    requires n <= |events| && AllReadable(events)
  {
    if n == 0 then START
    else
      var v := Translated(events, n - 1, o);
      if v.fail then v else Translate(v, events[n - 1], o)
  }

  /** The root goes last, if any event was read at a time that is not negative. */
  function Finished(v: View): seq<Record> {
    v.out + if v.time >= 0.0 then [DestroyContainer(v.time, "ROOT", "root")] else []
  }

  /** The first n events lead to v. */
  ghost predicate Reached(v: View, events: seq<Event>, n: nat, o: Options)
    requires n <= |events| && AllReadable(events)
  {
    v == Translated(events, n, o)
  }

  lemma ReachedNext(v: View, events: seq<Event>, n: nat, o: Options)
    requires n < |events| && AllReadable(events) && Reached(v, events, n, o)
    ensures Readable(events[n]) && Reached(if v.fail then v else Translate(v, events[n], o), events, n + 1, o)
  {
  }

  /** Nothing is translated after a failure. */
  lemma {:induction false} FailureStops(v: View, events: seq<Event>, m: nat, n: nat, o: Options)
    requires m <= n <= |events| && AllReadable(events) && Reached(v, events, m, o) && v.fail
    ensures Reached(v, events, n, o)
  {
    hide Translate;
    if m < n {
      FailureStops(v, events, m, n - 1, o);
      ReachedNext(v, events, n - 1, o);
    }
  }
}
