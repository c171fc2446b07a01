/**
  The MPI calls of one rank and the records their wrappers add to its trace, in MPI_COMM_WORLD.
 */
module Calls {
  import opened Events
  import opened Requests

  /** A call, with what the wrapper learns from MPI: byte counts, and the source of each completed receive. */
  datatype Call =
    /** Any wrapper that only marks its begin and end. */
    | Wrapped(name: string)
    /** MPI_Bsend, MPI_Ibsend, MPI_Irsend, MPI_Issend, MPI_Rsend, MPI_Ssend */
    | OtherSend(name: string, dest: nat, bytes: nat)
    | PlainSend(dest: nat, bytes: nat)
    | Isend(dest: nat, bytes: nat, slot: nat)
    | Receive(bytes: nat, source: nat)
    | Irecv(bytes: nat, slot: nat)
    | Wait(slot: nat, source: nat)
    /** The requests of an array that begins at `base`; `sources` are the sources in the statuses. */
    | Waitall(base: nat, sources: seq<nat>)
    | Waitany(base: nat, index: nat, source: nat)
    | Bcast(root: nat, bytes: nat)
    | Scatter(root: nat, bytes: nat)
    | Gather(root: nat, count: nat)
    | Reduce(root: nat, bytes: nat)

  /** A record before it is stamped with rank and time. */
  datatype Entry = Entry(kind: Kind, ints: seq<nat>, longs: seq<nat>)

  /** The variables of the tracer of a rank. */
  datatype Tracking = Tracking(sendMark: nat, irecvs: map<nat, CInt>, isends: map<nat, CInt>)

  const FRESH := Tracking(0, map[], map[])

  /** Is the call a send that is traced as a link and marked? */
  predicate IsSend(call: Call) {
    call.OtherSend? || call.PlainSend? || call.Isend?
  }

  function LinkEntry(p: Pattern, w: Way, ints: seq<nat>, longs: seq<nat>): Entry {
    Entry(Link(p, w), ints, longs)
  }

  const OUT := Entry(Leave, [], [])

  /** The record of a request that turned out to be a pending receive. */
  function Completion(irecvs: map<nat, CInt>, slot: nat, source: nat): seq<Entry> {
    if slot in irecvs then [LinkEntry(Ptp, Recv, [source], [])] else []
  }

  /** The records of the first n requests of an array, each of which is removed when it is reported. */
  function Completions(irecvs: map<nat, CInt>, base: nat, sources: seq<nat>, n: nat): seq<Entry>
    requires n <= |sources|
  {
    if n == 0 then []
    else Completions(irecvs, base, sources, n - 1)
         + Completion(Reaped(irecvs, base, n - 1), base + n - 1, sources[n - 1])
  }

  function Reaped(irecvs: map<nat, CInt>, base: nat, n: nat): map<nat, CInt> {
    if n == 0 then irecvs else Reaped(irecvs, base, n - 1) - {base + n - 1}
  }

  /** The records between the begin and the end of a call. */
  function Inner(t: Tracking, rank: nat, size: nat, call: Call): seq<Entry> {
    match call
    case Wrapped(_) => []
    case OtherSend(_, dest, bytes) => [LinkEntry(Ptp, Send, [dest, bytes], [t.sendMark])]
    case PlainSend(dest, bytes) => [LinkEntry(Ptp, Send, [dest, bytes], [t.sendMark])]
    case Isend(dest, bytes, _) => [LinkEntry(Ptp, Send, [dest, bytes], [t.sendMark])]
    case Receive(_, source) => [LinkEntry(Ptp, Recv, [source], [])]
    case Irecv(_, _) => []
    case Wait(slot, source) => Completion(t.irecvs, slot, source)
    case Waitall(base, sources) => Completions(t.irecvs, base, sources, |sources|)
    case Waitany(base, index, source) => Completion(t.irecvs, base + index, source)
    case Bcast(root, bytes) =>
      if rank == root then [LinkEntry(OneTa, Send, [size, bytes], [size])] else [LinkEntry(OneTa, Recv, [root], [])]
    case Scatter(root, bytes) =>
      if rank == root then [LinkEntry(OneTn, Send, [size, bytes], [size])] else [LinkEntry(OneTn, Recv, [root], [])]
    case Gather(root, count) =>
      if rank == root then [LinkEntry(Nt1, Recv, [size], [])] else [LinkEntry(Nt1, Send, [root, count], [size])]
    case Reduce(root, bytes) =>
      if rank == root then [LinkEntry(At1, Recv, [size], [])] else [LinkEntry(At1, Send, [root, bytes], [size])]
  }

  /** The record that begins a call. */
  function Begin(t: Tracking, rank: nat, size: nat, call: Call): Entry {
    match call
    case Wrapped(name) => Entry(Enter(name), [], [])
    case OtherSend(name, _, _) => Entry(Enter(name), [], [t.sendMark])
    case PlainSend(_, bytes) => Entry(EnterSend("MPI_Send"), [bytes], [t.sendMark])
    case Isend(_, bytes, _) => Entry(EnterSend("MPI_Isend"), [bytes], [t.sendMark])
    case Receive(bytes, _) => Entry(EnterRecv("MPI_Recv"), [bytes], [])
    case Irecv(bytes, _) => Entry(EnterRecv("MPI_Irecv"), [bytes], [])
    case Wait(slot, _) =>
      Entry(Enter("MPI_Wait"), [], if slot in t.isends then [Told(Found(t.isends, slot))] else [])
    case Waitall(_, _) => Entry(Enter("MPI_Waitall"), [], [])
    case Waitany(_, _, _) => Entry(Enter("MPI_Waitany"), [], [])
    case Bcast(root, _) => Entry(Enter("MPI_Bcast"), [], if rank == root then [size] else [])
    case Scatter(root, _) => Entry(Enter("MPI_Scatter"), [], if rank == root then [size] else [])
    case Gather(root, _) => Entry(Enter("MPI_Gather"), [], if rank == root then [] else [size])
    case Reduce(root, _) => Entry(Enter("MPI_Reduce"), [], if rank == root then [] else [size])
  }

  /** All records of a call. */
  function Entries(t: Tracking, rank: nat, size: nat, call: Call): seq<Entry> {
    [Begin(t, rank, size, call)] + Inner(t, rank, size, call) + [OUT]
  }

  /** The tracer's variables after a call. */
  function Next(t: Tracking, call: Call): Tracking {
    match call
    case OtherSend(_, _, _) => t.(sendMark := t.sendMark + 1)
    case PlainSend(_, _) => t.(sendMark := t.sendMark + 1)
    case Isend(_, _, slot) =>
      t.(sendMark := t.sendMark + 1, isends := Inserted(t.isends, slot, AsInt(t.sendMark)))
    case Irecv(_, slot) => t.(irecvs := Inserted(t.irecvs, slot, 1))
    case Wait(slot, _) => t.(isends := t.isends - {slot}, irecvs := t.irecvs - {slot})
    case Waitall(base, sources) => t.(irecvs := Reaped(t.irecvs, base, |sources|))
    case Waitany(base, index, _) => t.(irecvs := t.irecvs - {base + index})
    case _ => t
  }
}
