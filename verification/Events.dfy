/**
  The event records of a trace, and what each kind of them asks of the key store.
 */
module Events {
  import opened KeyNames
  import opened Links
  import opened Lists

  /** Point to point, gather, scatter, reduce, broadcast: one of each pair of records is sent by one rank to one or to all. */
  datatype Pattern = Ptp | Nt1 | OneTn | At1 | OneTa

  datatype Way = Send | Recv

  datatype Kind =
    | Link(pattern: Pattern, way: Way)
    | Init
    /** MPI_*_IN; blocking and immediate sends and receives carry a size and are kinds of their own. */
    | Enter(name: string)
    | EnterSend(name: string)
    | EnterRecv(name: string)
    /** MPI_*_OUT */
    | Leave
    | FinalizeOut
    /** Any type the converter does not know. */
    | Unknown

  /** A record of one rank, with the 32-bit and the 64-bit numbers attached to it. */
  datatype Event = Event(kind: Kind, rank: nat, time: real, ints: seq<nat>, longs: seq<nat>)

  type CInt = i: int | -0x8000_0000 <= i < 0x8000_0000

  /** A C int assigned from a wider or unsigned number. */
  function AsInt(n: nat): CInt
  {
    if n < 0x8000_0000 then n
    else if n < 0x1_0000_0000 then n - 0x1_0000_0000
    else AsInt(n - 0x1_0000_0000)
  }

  /** The prefix of the queue names of a pattern; gathers and scatters share one. */
  function QueueKind(p: Pattern): (s: string)
    ensures '#' !in s
  {
    match p case Ptp => "ptp" case Nt1 => "1tn" case OneTn => "1tn" case OneTa => "1ta" case At1 => "at1"
  }

  /** The value printed with the links of a pattern. */
  function LinkValue(p: Pattern): string {
    match p case Ptp => "PTP" case Nt1 => "NT1" case OneTn => "1TN" case OneTa => "1TA" case At1 => "AT1"
  }

  /** A send of the pattern goes to every rank of the communicator. */
  predicate ToAll(p: Pattern) {
    p == OneTn || p == OneTa
  }

  /** A receive of the pattern is from every rank of the communicator. */
  predicate FromAll(p: Pattern) {
    p == Nt1 || p == At1
  }

  /** Does the event name one other rank or, else, the size of the communicator? */
  predicate NamesPeer(e: Event)
    requires e.kind.Link?
  {
    match e.kind.way case Send => !ToAll(e.kind.pattern) case Recv => !FromAll(e.kind.pattern)
  }

  /** How many ranks of a communicator of this size are not `self`, and the i-th of them. */
  function Others(size: nat, self: nat): nat {
    if self < size then size - 1 else size
  }

  function Other(self: nat, i: nat): nat {
    if i < self then i else i + 1
  }

  /** The link operation of an event towards one peer. */
  function PeerOp(e: Event, peer: nat): LinkOp
    requires e.kind.Link?
  {
    match e.kind.way
    case Send => Open(Channel(QueueKind(e.kind.pattern), AsInt(e.rank), AsInt(peer)))
    case Recv => Close(Channel(QueueKind(e.kind.pattern), AsInt(peer), AsInt(e.rank)))
  }

  /** The link operations of an event, in the order the converter performs them. */
  function OpsOf(e: Event): seq<LinkOp>
    requires e.kind.Link? ==> e.ints != []
  {
    if !e.kind.Link? then []
    else if NamesPeer(e) then [PeerOp(e, e.ints[0])]
    else seq(Others(e.ints[0], e.rank), i requires 0 <= i => PeerOp(e, Other(e.rank, i)))
  }

  /** Every rank of the communicator but the event's own is visited, once and in order. */
  lemma OthersExact(size: nat, self: nat, r: nat)
    ensures r < size && r != self <==> exists i :: 0 <= i < Others(size, self) && Other(self, i) == r
    ensures forall i, k :: 0 <= i < k < Others(size, self) ==> Other(self, i) < Other(self, k)
  {
    if r < size && r != self {
      var i := if r < self then r else r - 1;
      assert Other(self, i) == r;
    }
  }

  /** The operations of one event are all on different channels. */
  lemma OpsApart(e: Event, i: nat, k: nat)
    requires e.kind.Link? && e.ints != [] && e.ints[0] < 0x1_0000_0000
    requires i < k < |OpsOf(e)|
    ensures OpsOf(e)[i].channel != OpsOf(e)[k].channel
  {
    AsIntInjective(Other(e.rank, i), Other(e.rank, k));
  }

  lemma AsIntInjective(m: nat, n: nat)
    requires m < n < 0x1_0000_0000
    ensures AsInt(m) != AsInt(n)
  {
  }

  /** A record the converter can read: it has the numbers its kind asks for. */
  predicate Readable(e: Event) {
    match e.kind
    case Link(_, _) => e.ints != []
    case EnterSend(_) => e.ints != [] && |e.longs| == 1
    case EnterRecv(_) => |e.ints| == 1
    case _ => true
  }

  /** A send record performs only sends, and a receive record only receives. */
  lemma WayOfOp(e: Event, k: nat)
    requires Readable(e) && k < |OpsOf(e)|
    ensures e.kind.Link? && (OpsOf(e)[k].Open? <==> e.kind.way == Send)
  {
  }

  predicate AllReadable(events: seq<Event>) {
    forall i :: 0 <= i < |events| ==> Readable(events[i])
  }

  function OpLists(events: seq<Event>): (lists: seq<seq<LinkOp>>)
    requires AllReadable(events)
    ensures |lists| == |events|
  {
    seq(|events|, i requires 0 <= i < |events| && Readable(events[i]) => OpsOf(events[i]))
  }

  /** All the link operations of a stream of events. */
  function Ops(events: seq<Event>): seq<LinkOp>
    requires AllReadable(events)
  {
    Flatten(OpLists(events), |events|)
  }

  /** How many of them the first n events perform. */
  function Offset(events: seq<Event>, n: nat): nat
    requires n <= |events| && AllReadable(events)
  {
    |Flatten(OpLists(events), n)|
  }
}
