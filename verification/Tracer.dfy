/**
  The wrappers of one rank: each appends its records to the trace and keeps the marks and requests.

  Every wrapper is proved to add the records, and to change the variables, as Calls says.
 */
module Tracer {
  import opened Events
  import opened Requests
  import opened Calls

  class Rank {
    const rank: nat
    const size: nat
    var sendMark: nat
    const irecvs: RequestTree
    const isends: RequestTree
    var trace: seq<Entry>

    ghost predicate Valid() {
      irecvs != isends
    }

    ghost function State(): Tracking
      reads this, irecvs, isends
    {
      Tracking(sendMark, irecvs.marks, isends.marks)
    }

    /** MPI_Init */
    constructor (rank: nat, size: nat)
      ensures Valid() && fresh(irecvs) && fresh(isends) && State() == FRESH
      ensures this.rank == rank && this.size == size && trace == [Entry(Init, [], [])]
    {
      this.rank, this.size, sendMark := rank, size, 0;
      irecvs := new RequestTree();
      isends := new RequestTree();
      trace := [Entry(Init, [], [])];
    }

    /** rst_event and its variants */
    method Event(kind: Kind, ints: seq<nat>, longs: seq<nat>)
      modifies `trace
      ensures trace == old(trace) + [Entry(kind, ints, longs)]
    {
      trace := trace + [Entry(kind, ints, longs)];
    }

    method Finalize()
      modifies `trace
      ensures trace == old(trace) + [Entry(Enter("MPI_Finalize"), [], []), Entry(FinalizeOut, [], [])]
    {
      Event(Enter("MPI_Finalize"), [], []);
      Event(FinalizeOut, [], []);
    }

    /** Wrappers that only mark begin and end. */
    method Wrap(name: string)
      requires Valid()
      modifies `trace
      ensures State() == Next(old(State()), Wrapped(name))
      ensures trace == old(trace) + Entries(old(State()), rank, size, Wrapped(name))
    {
      Event(Enter(name), [], []);
      Event(Leave, [], []);
    }

    /** MPI_Bsend and the other sends that give their begin no size. */
    method OtherSend(name: string, dest: nat, bytes: nat)
      requires Valid()
      modifies this
      ensures State() == Next(old(State()), Call.OtherSend(name, dest, bytes))
      ensures trace == old(trace) + Entries(old(State()), rank, size, Call.OtherSend(name, dest, bytes))
    {
      Event(Enter(name), [], [sendMark]);
      Event(Link(Ptp, Send), [dest, bytes], [sendMark]);
      Event(Leave, [], []);
      sendMark := sendMark + 1;
    }

    method PlainSend(dest: nat, bytes: nat)
      requires Valid()
      modifies this
      ensures State() == Next(old(State()), Call.PlainSend(dest, bytes))
      ensures trace == old(trace) + Entries(old(State()), rank, size, Call.PlainSend(dest, bytes))
    {
      Event(EnterSend("MPI_Send"), [bytes], [sendMark]);
      Event(Link(Ptp, Send), [dest, bytes], [sendMark]);
      Event(Leave, [], []);
      sendMark := sendMark + 1;
    }

    method Isend(dest: nat, bytes: nat, slot: nat)
      requires Valid()
      modifies this, isends
      ensures State() == Next(old(State()), Call.Isend(dest, bytes, slot))
      ensures trace == old(trace) + Entries(old(State()), rank, size, Call.Isend(dest, bytes, slot))
    {
      Event(EnterSend("MPI_Isend"), [bytes], [sendMark]);
      Event(Link(Ptp, Send), [dest, bytes], [sendMark]);
      Event(Leave, [], []);
      isends.Insert(slot, AsInt(sendMark));
      sendMark := sendMark + 1;
    }

    method Receive(bytes: nat, source: nat)
      requires Valid()
      modifies `trace
      ensures State() == Next(old(State()), Call.Receive(bytes, source))
      ensures trace == old(trace) + Entries(old(State()), rank, size, Call.Receive(bytes, source))
    {
      Event(EnterRecv("MPI_Recv"), [bytes], []);
      Event(Link(Ptp, Recv), [source], []);
      Event(Leave, [], []);
    }

    method Irecv(bytes: nat, slot: nat)
      requires Valid()
      modifies `trace, irecvs
      ensures State() == Next(old(State()), Call.Irecv(bytes, slot))
      ensures trace == old(trace) + Entries(old(State()), rank, size, Call.Irecv(bytes, slot))
    {
      Event(EnterRecv("MPI_Irecv"), [bytes], []);
      Event(Leave, [], []);
      irecvs.Insert(slot, 1);
    }

    /** If the request was a pending receive, records it and forgets it. */
    method Complete(slot: nat, source: nat)
      modifies `trace, irecvs
      ensures irecvs.marks == old(irecvs.marks) - {slot}
      ensures trace == old(trace) + Completion(old(irecvs.marks), slot, source)
    {
      var pending := irecvs.Check(slot);
      if pending != 0 {
        Event(Link(Ptp, Recv), [source], []);
        irecvs.Remove(slot);
      }
    }

    method Wait(slot: nat, source: nat)
      requires Valid()
      modifies `trace, irecvs, isends
      ensures State() == Next(old(State()), Call.Wait(slot, source))
      ensures trace == old(trace) + Entries(old(State()), rank, size, Call.Wait(slot, source))
    {
      var isend := isends.Check(slot);
      if isend != 0 {
        isends.Remove(slot);
        Event(Enter("MPI_Wait"), [], [Told(isend)]);
      } else {
        Event(Enter("MPI_Wait"), [], []);
      }
      Complete(slot, source);
      Event(Leave, [], []);
    }

    method Waitall(base: nat, sources: seq<nat>)
      requires Valid()
      modifies `trace, irecvs
      ensures State() == Next(old(State()), Call.Waitall(base, sources))
      ensures trace == old(trace) + Entries(old(State()), rank, size, Call.Waitall(base, sources))
    {
      Event(Enter("MPI_Waitall"), [], []);
      ghost var begun, pending := trace, irecvs.marks;
      for i := 0 to |sources|
        invariant irecvs.marks == Reaped(pending, base, i)
        invariant trace == begun + Completions(pending, base, sources, i)
      {
        Complete(base + i, sources[i]);
      }
      Event(Leave, [], []);
    }

    method Waitany(base: nat, index: nat, source: nat)
      requires Valid()
      modifies `trace, irecvs
      ensures State() == Next(old(State()), Call.Waitany(base, index, source))
      ensures trace == old(trace) + Entries(old(State()), rank, size, Call.Waitany(base, index, source))
    {
      Event(Enter("MPI_Waitany"), [], []);
      Complete(base + index, source);
      Event(Leave, [], []);
    }

    method Bcast(root: nat, bytes: nat)
      requires Valid()
      modifies `trace
      ensures State() == Next(old(State()), Call.Bcast(root, bytes))
      ensures trace == old(trace) + Entries(old(State()), rank, size, Call.Bcast(root, bytes))
    {
      if rank == root {
        Event(Enter("MPI_Bcast"), [], [size]);
        Event(Link(OneTa, Send), [size, bytes], [size]);
      } else {
        Event(Enter("MPI_Bcast"), [], []);
      }
      if rank != root {
        Event(Link(OneTa, Recv), [root], []);
      }
      Event(Leave, [], []);
    }

    method Scatter(root: nat, bytes: nat)
      requires Valid()
      modifies `trace
      ensures State() == Next(old(State()), Call.Scatter(root, bytes))
      ensures trace == old(trace) + Entries(old(State()), rank, size, Call.Scatter(root, bytes))
    {
      if rank == root {
        Event(Enter("MPI_Scatter"), [], [size]);
        Event(Link(OneTn, Send), [size, bytes], [size]);
      } else {
        Event(Enter("MPI_Scatter"), [], []);
      }
      if rank != root {
        Event(Link(OneTn, Recv), [root], []);
      }
      Event(Leave, [], []);
    }

    method Gather(root: nat, count: nat)
      requires Valid()
      modifies `trace
      ensures State() == Next(old(State()), Call.Gather(root, count))
      ensures trace == old(trace) + Entries(old(State()), rank, size, Call.Gather(root, count))
    {
      if rank == root {
        Event(Enter("MPI_Gather"), [], []);
      } else {
        Event(Enter("MPI_Gather"), [], [size]);
        Event(Link(Nt1, Send), [root, count], [size]);
      }
      if rank == root {
        Event(Link(Nt1, Recv), [size], []);
      }
      Event(Leave, [], []);
    }

    method Reduce(root: nat, bytes: nat)
      requires Valid()
      modifies `trace
      ensures State() == Next(old(State()), Call.Reduce(root, bytes))
      ensures trace == old(trace) + Entries(old(State()), rank, size, Call.Reduce(root, bytes))
    {
      if rank == root {
        Event(Enter("MPI_Reduce"), [], []);
      } else {
        Event(Enter("MPI_Reduce"), [], [size]);
        Event(Link(At1, Send), [root, bytes], [size]);
      }
      if rank == root {
        Event(Link(At1, Recv), [size], []);
      }
      Event(Leave, [], []);
    }
  }
}
