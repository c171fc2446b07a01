/**
  The converter: its variables, the key store it works on, and the loop over the events.

  Every method is proved to do to `State()` what Translation says.
 */
module Converter {
  import opened Wrappers
  import opened KeyNames
  import opened Links
  import opened KeyStores
  import opened Events
  import opened Translation

  /** A key or, for a missing one, the empty buffer. */
  function Buffer(key: Option<string>): string {
    match key case None => "" case Some(s) => s
  }

  lemma BufferHoldsKey(c: Channel, key: Option<nat>)
    ensures Buffer(Text(c, key)) == KeyString(c, key)
  {
  }

  /** The size and the mark of a message, each -1 when the event does not have it. */
  method ReadSizeMark(e: Event) returns (extras: seq<string>)
    ensures extras == SizeMark(e)
  {
    var messageSize, mark := -1, -1;
    if |e.ints| == 2 {
      messageSize := AsInt(e.ints[1]);
      if |e.longs| == 1 {
        mark := AsInt(e.longs[0]);
      }
    }
    if messageSize != -1 && mark != -1 {
      extras := [Cut(Decimal(messageSize)), Cut(Decimal(mark))];
    } else {
      extras := [];
    }
  }

  class Translator {
    const options: Options
    const keys: KeyStore
    var fail: bool
    var rootCreated: bool
    var time: real
    var out: seq<Record>

    ghost predicate Valid()
      reads this, keys, keys.table, keys.table.Repr
    {
      keys.Valid() && this !in keys.table.Repr && keys.table.capacity == options.capacity
    }

    ghost function State(): View
      reads this, keys
    {
      View(keys.store, fail, rootCreated, time, out)
    }

    constructor (options: Options)
      ensures Valid() && fresh(keys) && fresh(keys.table.Repr) && State() == START && this.options == options
    {
      this.options := options;
      keys := new KeyStore(options.capacity);
      fail, rootCreated, time, out := false, false, -1.0, [];
    }

    method Emit(record: Record)
      requires Valid()
      modifies `out
      ensures Valid() && out == old(out) + [record]
    {
      out := out + [record];
    }

    method StartLinkTo(e: Event, c: Channel)
      requires Valid() && e.kind.Link? && '#' !in c.kind
      modifies this, keys, keys.table.Repr
      ensures Valid() && fresh(keys.table.Repr - old(keys.table.Repr))
      ensures State() == Linked(old(State()), e, Open(c), options)
    {
      hide SizeMark, ProcessName, LinkValue, Represents;
      BufferHoldsKey(c, Key(keys.store, Open(c), options.capacity));
      var extras := ReadSizeMark(e);
      var key := keys.PutKey(c);
      Emit(StartLink(e.time, ProcessName(e.rank), LinkValue(e.kind.pattern), Buffer(key), extras));
    }

    method EndLinkFrom(e: Event, c: Channel)
      requires Valid() && e.kind.Link? && '#' !in c.kind
      modifies this, keys, keys.table.Repr
      ensures Valid() && fresh(keys.table.Repr - old(keys.table.Repr))
      ensures State() == Linked(old(State()), e, Close(c), options)
    {
      hide ProcessName, LinkValue, Represents;
      BufferHoldsKey(c, Key(keys.store, Close(c), options.capacity));
      var key := keys.GetKey(c);
      if key == None && !options.ignoreErrors {
        fail := true;
      }
      Emit(EndLink(e.time, ProcessName(e.rank), LinkValue(e.kind.pattern), Buffer(key)));
    }

    method LinkTo(e: Event, peer: nat)
      requires Valid() && e.kind.Link?
      modifies this, keys, keys.table.Repr
      ensures Valid() && fresh(keys.table.Repr - old(keys.table.Repr))
      ensures State() == Linked(old(State()), e, PeerOp(e, peer), options)
    {
      if e.kind.way == Send {
        StartLinkTo(e, Channel(QueueKind(e.kind.pattern), AsInt(e.rank), AsInt(peer)));
      } else {
        EndLinkFrom(e, Channel(QueueKind(e.kind.pattern), AsInt(peer), AsInt(e.rank)));
      }
    }

    /** A send to one rank, or a receive from one. */
    method TreatOne(e: Event)
      requires Valid() && e.kind.Link? && Readable(e) && NamesPeer(e)
      modifies this, keys, keys.table.Repr
      ensures Valid() && fresh(keys.table.Repr - old(keys.table.Repr))
      ensures State() == LinkedAll(old(State()), e, OpsOf(e), |OpsOf(e)|, options)
    {
      OneOp(State(), e, options);
      LinkTo(e, e.ints[0]);
    }

    /** A send to all ranks of the communicator but the sender, or a receive from all. */
    method TreatAll(e: Event)
      requires Valid() && e.kind.Link? && Readable(e) && !NamesPeer(e)
      modifies this, keys, keys.table.Repr
      ensures Valid() && fresh(keys.table.Repr - old(keys.table.Repr))
      ensures State() == LinkedAll(old(State()), e, OpsOf(e), |OpsOf(e)|, options)
    {
      ghost var before := State();
      for rank := 0 to e.ints[0]
        invariant Valid() && fresh(keys.table.Repr - old(keys.table.Repr))
        invariant State() == VisitedOthers(before, e, rank, options)
      {
        if rank != e.rank {
          LinkTo(e, rank);
        }
        VisitNext(before, e, rank, options);
      }
      VisitedThemAll(before, e, options);
    }

    /** The body of the loop over the events. */
    method TranslateEvent(e: Event)
      requires Valid() && Readable(e)
      modifies this, keys, keys.table.Repr
      ensures Valid() && fresh(keys.table.Repr - old(keys.table.Repr))
      ensures State() == Translate(old(State()), e, options)
    {
      hide LinkedAll, OpsOf, Plain, Represents;
      time := e.time;
      if e.kind.Link? {
        if !options.noLinks {
          if NamesPeer(e) {
            TreatOne(e);
          } else {
            TreatAll(e);
          }
        }
      } else {
        TranslatePlain(e);
      }
    }

    method CreateContainers(e: Event)
      requires Valid()
      modifies `out, `rootCreated
      ensures Valid() && rootCreated && out == old(out) + Created(e, old(rootCreated))
    {
      if !rootCreated {
        Emit(CreateContainer(e.time, "root", "ROOT", "0"));
        rootCreated := true;
      }
      Emit(CreateContainer(e.time, ProcessName(e.rank), "PROCESS", "root"));
    }

    method Push(e: Event, name: string, extras: seq<string>)
      requires Valid()
      modifies `out
      ensures Valid() && out == old(out) + Pushed(e, name, extras, options)
    {
      if !options.noStates {
        Emit(PushState(e.time, ProcessName(e.rank), name, extras));
      }
    }

    method Pop(e: Event)
      requires Valid()
      modifies `out
      ensures Valid() && out == old(out) + Popped(e, options)
    {
      if !options.noStates {
        Emit(PopState(e.time, ProcessName(e.rank)));
      }
    }

    method TranslatePlain(e: Event)
      requires Valid() && Readable(e) && !e.kind.Link?
      modifies `out, `rootCreated
      ensures Valid() && out == old(out) + Plain(e, old(rootCreated), options)
      ensures rootCreated == (old(rootCreated) || e.kind.Init?)
    {
      match e.kind
      case Init => CreateContainers(e);
      case Enter(name) =>
        if |e.longs| == 1 {
          Push(e, name, [Digits(e.longs[0])]);
        } else {
          Push(e, name, []);
        }
      case EnterSend(name) => Push(e, name, [Digits(e.ints[0]), Digits(e.longs[0])]);
      case EnterRecv(name) => Push(e, name, [Digits(e.ints[0])]);
      case Leave => Pop(e);
      case FinalizeOut =>
        Pop(e);
        Emit(DestroyContainer(e.time, "PROCESS", ProcessName(e.rank)));
      case Unknown =>
    }

    /** The loop over the events: it ends with them, or with the first that fails. */
    method TranslateEvents(events: seq<Event>)
      requires Valid() && AllReadable(events) && State() == START
      modifies this, keys, keys.table.Repr
      ensures Valid() && State() == Translated(events, |events|, options)
    {
      hide Translate;
      var i := 0;
      while i < |events| && !fail
        invariant 0 <= i <= |events| && Valid() && fresh(keys.table.Repr - old(keys.table.Repr))
        invariant Reached(State(), events, i, options)
      {
        ReachedNext(State(), events, i, options);
        TranslateEvent(events[i]);
        i := i + 1;
      }
      if fail {
        FailureStops(State(), events, i, |events|, options);
      }
    }

    /** The whole output. */
    method Convert(events: seq<Event>)
      requires Valid() && AllReadable(events) && State() == START
      modifies this, keys, keys.table.Repr
      ensures Valid() && out == Finished(Translated(events, |events|, options))
      ensures fail == Translated(events, |events|, options).fail
    {
      TranslateEvents(events);
      if time >= 0.0 {
        Emit(DestroyContainer(time, "ROOT", "root"));
      }
    }
  }

  // ----- The loop over the ranks -----

  lemma OneOp(v: View, e: Event, o: Options)
    requires e.kind.Link? && Readable(e) && NamesPeer(e)
    ensures LinkedAll(v, e, OpsOf(e), |OpsOf(e)|, o) == Linked(v, e, PeerOp(e, e.ints[0]), o)
  {
    assert LinkedAll(v, e, OpsOf(e), 0, o) == v;
  }

  /** The state once the ranks below `rank` have been visited. */
  ghost function VisitedOthers(v: View, e: Event, rank: nat, o: Options): View
    requires e.kind.Link? && Readable(e) && !NamesPeer(e) && rank <= e.ints[0]
  {
    LinkedAll(v, e, OpsOf(e), Others(rank, e.rank), o)
  }

  lemma VisitNext(v: View, e: Event, rank: nat, o: Options)
    requires e.kind.Link? && Readable(e) && !NamesPeer(e) && rank < e.ints[0]
    ensures VisitedOthers(v, e, rank + 1, o) ==
            if rank != e.rank then Linked(VisitedOthers(v, e, rank, o), e, PeerOp(e, rank), o)
            else VisitedOthers(v, e, rank, o)
  {
    if rank != e.rank {
      var n := Others(rank, e.rank);
      assert Other(e.rank, n) == rank && Others(rank + 1, e.rank) == n + 1;
      assert OpsOf(e)[n] == PeerOp(e, rank);
    }
  }

  lemma VisitedThemAll(v: View, e: Event, o: Options)
    requires e.kind.Link? && Readable(e) && !NamesPeer(e)
    ensures VisitedOthers(v, e, e.ints[0], o) == LinkedAll(v, e, OpsOf(e), |OpsOf(e)|, o)
  {
  }
}
