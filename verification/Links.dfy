/**
  The key queues as values: which link operations a trace performs, and what they do to the queues.

  A key is represented by its number.  Numbers are issued from one counter for all channels.
 */
module Links {
  import opened Wrappers
  import opened KeyNames

  /** `queues` has an entry for every channel that was ever put to; the key table holds `capacity` of them. */
  datatype Store = Store(queues: map<Channel, seq<nat>>, next: nat)

  const EMPTY := Store(map[], 0)

  function Queue(s: Store, c: Channel): seq<nat> {
    if c in s.queues then s.queues[c] else []
  }

  /** The key table has room for the channel. */
  predicate HasRoom(s: Store, c: Channel, capacity: nat) {
    c in s.queues || |s.queues| < capacity
  }

  /** aky_put_key: a fresh key at the end of the channel's queue, or nothing when the table is full. */
  function Put(s: Store, c: Channel, capacity: nat): Store {
    if HasRoom(s, c, capacity) then Store(s.queues[c := Queue(s, c) + [s.next]], s.next + 1) else s
  }

  function PutKey(s: Store, c: Channel, capacity: nat): Option<nat> {
    if HasRoom(s, c, capacity) then Some(s.next) else None
  }

  /** aky_get_key: the oldest key of the channel's queue, if there is one. */
  function Get(s: Store, c: Channel): Store {
    if Queue(s, c) != [] then s.(queues := s.queues[c := Queue(s, c)[1..]]) else s
  }

  function GetKey(s: Store, c: Channel): Option<nat> {
    if Queue(s, c) != [] then Some(Queue(s, c)[0]) else None
  }

  // ----- Runs of link operations -----

  /** A StartLink asks for a fresh key on its channel, an EndLink for the channel's oldest key. */
  datatype LinkOp = Open(channel: Channel) | Close(channel: Channel)

  function Step(s: Store, op: LinkOp, capacity: nat): Store {
    match op case Open(c) => Put(s, c, capacity) case Close(c) => Get(s, c)
  }

  function Key(s: Store, op: LinkOp, capacity: nat): Option<nat> {
    match op case Open(c) => PutKey(s, c, capacity) case Close(c) => GetKey(s, c)
  }

  /** The store after the first n operations. */
  function After(s: Store, ops: seq<LinkOp>, n: nat, capacity: nat): Store
    requires n <= |ops|
  {
    if n == 0 then s else Step(After(s, ops, n - 1, capacity), ops[n - 1], capacity)
  }

  /** The key that operation i of a run from the empty store issues or takes. */
  function Outcome(ops: seq<LinkOp>, i: nat, capacity: nat): Option<nat>
    requires i < |ops|
  {
    Key(After(EMPTY, ops, i, capacity), ops[i], capacity)
  }

  /** The keys issued on a channel by the first n operations, and those taken from it. */
  function Issued(ops: seq<LinkOp>, n: nat, c: Channel, capacity: nat): seq<nat>
    requires n <= |ops|
  {
    if n == 0 then []
    else Issued(ops, n - 1, c, capacity) + (if ops[n - 1] == Open(c) then Listed(Outcome(ops, n - 1, capacity)) else [])
  }

  function Taken(ops: seq<LinkOp>, n: nat, c: Channel, capacity: nat): seq<nat>
    requires n <= |ops|
  {
    if n == 0 then []
    else Taken(ops, n - 1, c, capacity) + (if ops[n - 1] == Close(c) then Listed(Outcome(ops, n - 1, capacity)) else [])
  }

  function Listed(key: Option<nat>): seq<nat> {
    match key case None => [] case Some(k) => [k]
  }

  /** Conservation: the keys issued are those taken, in the same order, and then those still queued. */
  lemma {:induction false} Conservation(ops: seq<LinkOp>, n: nat, c: Channel, capacity: nat)
    requires n <= |ops|
    ensures Issued(ops, n, c, capacity) ==
            Taken(ops, n, c, capacity) + Queue(After(EMPTY, ops, n, capacity), c)
  {
    if n > 0 {
      Conservation(ops, n - 1, c, capacity);
      StepKeeps(After(EMPTY, ops, n - 1, capacity), ops[n - 1], c, capacity);
    }
  }

  /** What one operation does to the queue of any channel. */
  lemma StepKeeps(s: Store, op: LinkOp, c: Channel, capacity: nat)
    ensures op == Open(c) ==> Queue(Step(s, op, capacity), c) == Queue(s, c) + Listed(Key(s, op, capacity))
    ensures op == Close(c) ==> Listed(Key(s, op, capacity)) + Queue(Step(s, op, capacity), c) == Queue(s, c)
    ensures op.channel != c ==> Queue(Step(s, op, capacity), c) == Queue(s, c)
  {
  }

  /** The counter never goes back, and passes every key it issues. */
  lemma {:induction false} CounterGrows(ops: seq<LinkOp>, i: nat, n: nat, capacity: nat)
    requires i <= n <= |ops|
    ensures After(EMPTY, ops, i, capacity).next <= After(EMPTY, ops, n, capacity).next
  {
    if i < n {
      CounterGrows(ops, i, n - 1, capacity);
    }
  }

  /** No key is issued twice, on any two channels. */
  lemma KeysFresh(ops: seq<LinkOp>, i: nat, j: nat, capacity: nat)
    requires i < j < |ops| && ops[i].Open? && ops[j].Open?
    requires Outcome(ops, i, capacity).Some? && Outcome(ops, j, capacity).Some?
    ensures Outcome(ops, i, capacity).value < Outcome(ops, j, capacity).value
  {
    CounterGrows(ops, i + 1, j, capacity);
  }

  lemma {:induction false} IssuedAt(ops: seq<LinkOp>, i: nat, n: nat, capacity: nat)
    requires i < n <= |ops| && ops[i].Open? && Outcome(ops, i, capacity).Some?
    ensures var c := ops[i].channel; var p := |Issued(ops, i, c, capacity)|;
            p < |Issued(ops, n, c, capacity)| && Issued(ops, n, c, capacity)[p] == Outcome(ops, i, capacity).value
    decreases n
  {
    if i < n - 1 {
      IssuedAt(ops, i, n - 1, capacity);
    }
  }

  lemma {:induction false} TakenAt(ops: seq<LinkOp>, j: nat, n: nat, capacity: nat)
    requires j < n <= |ops| && ops[j].Close? && Outcome(ops, j, capacity).Some?
    ensures var c := ops[j].channel; var p := |Taken(ops, j, c, capacity)|;
            p < |Taken(ops, n, c, capacity)| && Taken(ops, n, c, capacity)[p] == Outcome(ops, j, capacity).value
    decreases n
  {
    if j < n - 1 {
      TakenAt(ops, j, n - 1, capacity);
    }
  }

  /** Every issued key was issued by one of the operations. */
  lemma {:induction false} IssuedBy(ops: seq<LinkOp>, n: nat, c: Channel, p: nat, capacity: nat) returns (i: nat)
    requires n <= |ops| && p < |Issued(ops, n, c, capacity)|
    ensures i < n && ops[i] == Open(c) && |Issued(ops, i, c, capacity)| == p
    ensures Outcome(ops, i, capacity) == Some(Issued(ops, n, c, capacity)[p])
  {
    if p < |Issued(ops, n - 1, c, capacity)| {
      i := IssuedBy(ops, n - 1, c, p, capacity);
    } else {
      i := n - 1;
    }
  }

  /** The key taken at j is the one issued on that channel when as many had been issued as are taken before j. */
  lemma TakenFrom(ops: seq<LinkOp>, j: nat, capacity: nat) returns (i: nat)
    requires j < |ops| && ops[j].Close? && Outcome(ops, j, capacity).Some?
    ensures i < j && ops[i] == Open(ops[j].channel) && Outcome(ops, i, capacity) == Outcome(ops, j, capacity)
    ensures |Issued(ops, i, ops[j].channel, capacity)| == |Taken(ops, j, ops[j].channel, capacity)|
  {
    var c := ops[j].channel;
    Conservation(ops, j, c, capacity);
    i := IssuedBy(ops, j, c, |Taken(ops, j, c, capacity)|, capacity);
  }

  /**
    First in, first out: an EndLink carries the key of a StartLink exactly when both are of the same
    channel and of the same ordinal there; it is then the later of the two.
   */
  lemma KeysMatch(ops: seq<LinkOp>, i: nat, j: nat, capacity: nat)
    requires i < |ops| && ops[i].Open? && Outcome(ops, i, capacity).Some?
    requires j < |ops| && ops[j].Close? && Outcome(ops, j, capacity).Some?
    ensures Outcome(ops, i, capacity) == Outcome(ops, j, capacity) <==>
            ops[i].channel == ops[j].channel &&
            |Issued(ops, i, ops[i].channel, capacity)| == |Taken(ops, j, ops[j].channel, capacity)|
    ensures Outcome(ops, i, capacity) == Outcome(ops, j, capacity) ==> i < j
  {
    var k := TakenFrom(ops, j, capacity);
    if k < i {
      KeysFresh(ops, k, i, capacity);
      OrdinalsDiffer(ops, k, i, capacity);
    } else if i < k {
      KeysFresh(ops, i, k, capacity);
      OrdinalsDiffer(ops, i, k, capacity);
    }
  }

  /** Two StartLinks of a channel have different ordinals. */
  lemma OrdinalsDiffer(ops: seq<LinkOp>, i: nat, k: nat, capacity: nat)
    requires i < k < |ops| && ops[i].Open? && Outcome(ops, i, capacity).Some?
    ensures |Issued(ops, i, ops[i].channel, capacity)| < |Issued(ops, k, ops[i].channel, capacity)|
  {
    IssuedAt(ops, i, k, capacity);
  }

  /** A key is taken at most once. */
  lemma TakenOnce(ops: seq<LinkOp>, j: nat, k: nat, capacity: nat)
    requires j < k < |ops| && ops[j].Close? && ops[k].Close?
    requires Outcome(ops, j, capacity).Some? && Outcome(ops, k, capacity).Some?
    ensures Outcome(ops, j, capacity) != Outcome(ops, k, capacity)
  {
    var i := TakenFrom(ops, j, capacity);
    KeysMatch(ops, i, k, capacity);
    TakenAt(ops, j, k, capacity);
  }

  // ----- Which StartLinks get a key -----

  /** The channels used by the first n operations. */
  function Used(ops: seq<LinkOp>, n: nat): set<Channel>
    requires n <= |ops|
  {
    if n == 0 then {} else Used(ops, n - 1) + if ops[n - 1].Open? then {ops[n - 1].channel} else {}
  }

  /** The key table has room for all the channels. */
  predicate Fits(ops: seq<LinkOp>, capacity: nat) {
    |Used(ops, |ops|)| <= capacity
  }

  predicate OpensEarly(ops: seq<LinkOp>, i: nat, c: Channel, capacity: nat)
    requires i < |ops|
  {
    ops[i] == Open(c) && |Used(ops, i)| < capacity
  }

  /** The channel is one of the first `capacity` that are used. */
  ghost predicate Admitted(ops: seq<LinkOp>, c: Channel, capacity: nat) {
    exists i :: 0 <= i < |ops| && OpensEarly(ops, i, c, capacity)
  }

  lemma {:induction false} UsedGrows(ops: seq<LinkOp>, i: nat, n: nat)
    requires i <= n <= |ops|
    ensures Used(ops, i) <= Used(ops, n)
  {
    if i < n {
      UsedGrows(ops, i, n - 1);
    }
  }

  lemma {:induction false} UsedBy(ops: seq<LinkOp>, n: nat, c: Channel) returns (i: nat)
    requires n <= |ops| && c in Used(ops, n)
    ensures i < n && ops[i] == Open(c)
  {
    if c in Used(ops, n - 1) {
      i := UsedBy(ops, n - 1, c);
    } else {
      i := n - 1;
    }
  }

  lemma {:induction false} Smaller(a: set<Channel>, b: set<Channel>)
    requires a <= b
    ensures |a| <= |b|
    ensures |a| == |b| ==> a == b
  {
    if a != {} {
      var c :| c in a;
      Smaller(a - {c}, b - {c});
    }
  }

  /** What the table holds when these channels have been used: all of them, or as many as it can. */
  predicate TableOf(table: set<Channel>, used: set<Channel>, capacity: nat) {
    && table <= used && |table| <= capacity
    && (if |used| <= capacity then table == used else |table| == capacity)
  }

  lemma {:induction false} TableIsUsed(ops: seq<LinkOp>, n: nat, capacity: nat)
    requires n <= |ops|
    ensures TableOf(After(EMPTY, ops, n, capacity).queues.Keys, Used(ops, n), capacity)
  {
    hide TableOf;
    if n == 0 {
      TableOfNothing(capacity);
      assert EMPTY.queues.Keys == {};
    } else {
      TableIsUsed(ops, n - 1, capacity);
      var s, c := After(EMPTY, ops, n - 1, capacity), ops[n - 1].channel;
      if ops[n - 1].Open? {
        TableEnters(s.queues.Keys, Used(ops, n - 1), c, capacity);
        StepTable(s, c, capacity);
      } else {
        assert Get(s, c).queues.Keys == s.queues.Keys;
        assert Used(ops, n) == Used(ops, n - 1);
      }
    }
  }

  lemma TableOfNothing(capacity: nat)
    ensures TableOf({}, {}, capacity)
  {
  }

  lemma StepTable(s: Store, c: Channel, capacity: nat)
    ensures Put(s, c, capacity).queues.Keys ==
            s.queues.Keys + if c in s.queues.Keys || |s.queues.Keys| < capacity then {c} else {}
  {
    assert |s.queues.Keys| == |s.queues|;
  }

  lemma TableEnters(table: set<Channel>, used: set<Channel>, c: Channel, capacity: nat)
    requires TableOf(table, used, capacity)
    ensures TableOf(table + (if c in table || |table| < capacity then {c} else {}), used + {c}, capacity)
  {
    Smaller(table, used);
    Smaller(used, used + {c});
    assert c in used ==> used + {c} == used;
    assert c in table ==> table + {c} == table;
  }

  lemma {:induction false} EntryStays(ops: seq<LinkOp>, i: nat, n: nat, c: Channel, capacity: nat)
    requires i <= n <= |ops| && c in After(EMPTY, ops, i, capacity).queues
    ensures c in After(EMPTY, ops, n, capacity).queues
  {
    if i < n {
      EntryStays(ops, i, n - 1, c, capacity);
    }
  }

  /** Only a StartLink enters a channel, its own. */
  lemma StepEnters(s: Store, op: LinkOp, c: Channel, capacity: nat)
    requires c in Step(s, op, capacity).queues && c !in s.queues
    ensures op == Open(c) && |s.queues.Keys| < capacity
  {
    assert |s.queues.Keys| == |s.queues|;
  }

  /** A channel in the table was entered when there was room. */
  lemma {:induction false} EnteredEarly(ops: seq<LinkOp>, n: nat, c: Channel, capacity: nat)
    requires n <= |ops| && c in After(EMPTY, ops, n, capacity).queues
    ensures Admitted(ops, c, capacity)
  {
    var s := After(EMPTY, ops, n - 1, capacity);
    if c in s.queues {
      EnteredEarly(ops, n - 1, c, capacity);
    } else {
      StepEnters(s, ops[n - 1], c, capacity);
      TableIsUsed(ops, n - 1, capacity);
      assert OpensEarly(ops, n - 1, c, capacity);
    }
  }

  lemma RoomEarly(ops: seq<LinkOp>, i: nat, c: Channel, capacity: nat)
    requires i < |ops| && |Used(ops, i)| < capacity
    ensures HasRoom(After(EMPTY, ops, i, capacity), c, capacity)
  {
    TableIsUsed(ops, i, capacity);
    var s := After(EMPTY, ops, i, capacity);
    assert |s.queues.Keys| == |s.queues|;
  }

  /** A StartLink gets a key exactly when its channel is admitted, whenever it comes. */
  lemma OpenSucceeds(ops: seq<LinkOp>, i: nat, capacity: nat)
    requires i < |ops| && ops[i].Open?
    ensures Outcome(ops, i, capacity).Some? <==> Admitted(ops, ops[i].channel, capacity)
  {
    var c := ops[i].channel;
    if Outcome(ops, i, capacity).Some? {
      EnteredEarly(ops, i + 1, c, capacity);
    }
    if Admitted(ops, c, capacity) {
      var j :| 0 <= j < |ops| && OpensEarly(ops, j, c, capacity);
      if i <= j {
        UsedGrows(ops, i, j);
        Smaller(Used(ops, i), Used(ops, j));
        RoomEarly(ops, i, c, capacity);
      } else {
        RoomEarly(ops, j, c, capacity);
        EntryStays(ops, j + 1, i, c, capacity);
      }
    }
  }

  /** Every StartLink gets a key exactly when the table has room for all the channels. */
  lemma FitsExactly(ops: seq<LinkOp>, capacity: nat)
    ensures Fits(ops, capacity) <==>
            forall i :: 0 <= i < |ops| && ops[i].Open? ==> Outcome(ops, i, capacity).Some?
  {
    hide Outcome, Fits;
    if Fits(ops, capacity) {
      forall i | 0 <= i < |ops| && ops[i].Open?
        ensures Outcome(ops, i, capacity).Some?
      {
        FitsThenIssued(ops, i, capacity);
      }
    } else {
      var i := LeftOut(ops, capacity);
    }
  }

  lemma FitsThenIssued(ops: seq<LinkOp>, i: nat, capacity: nat)
    requires i < |ops| && ops[i].Open? && Fits(ops, capacity)
    ensures Outcome(ops, i, capacity).Some?
  {
    hide Outcome, Admitted, After;
    TableIsUsed(ops, |ops|, capacity);
    UsedGrows(ops, i + 1, |ops|);
    EnteredEarly(ops, |ops|, ops[i].channel, capacity);
    OpenSucceeds(ops, i, capacity);
  }

  /** Without room for all, some StartLink gets no key. */
  lemma LeftOut(ops: seq<LinkOp>, capacity: nat) returns (i: nat)
    requires !Fits(ops, capacity)
    ensures i < |ops| && ops[i].Open? && Outcome(ops, i, capacity) == None
  {
    hide Outcome, After, Used;
    var n := |ops|;
    var table := After(EMPTY, ops, n, capacity).queues.Keys;
    TableIsUsed(ops, n, capacity);
    if Used(ops, n) <= table {
      Smaller(Used(ops, n), table);
    }
    var c :| c in Used(ops, n) && c !in table;
    i := UsedBy(ops, n, c);
    if Outcome(ops, i, capacity).Some? {
      IssuedEnters(ops, i, capacity);
      EntryStays(ops, i + 1, n, c, capacity);
    }
  }

  lemma IssuedEnters(ops: seq<LinkOp>, i: nat, capacity: nat)
    requires i < |ops| && ops[i].Open? && Outcome(ops, i, capacity).Some?
    ensures ops[i].channel in After(EMPTY, ops, i + 1, capacity).queues
  {
  }

  // ----- When an EndLink finds no key -----

  function Opens(ops: seq<LinkOp>, n: nat, c: Channel): nat
    requires n <= |ops|
  {
    if n == 0 then 0 else Opens(ops, n - 1, c) + if ops[n - 1] == Open(c) then 1 else 0
  }

  function Closes(ops: seq<LinkOp>, n: nat, c: Channel): nat
    requires n <= |ops|
  {
    if n == 0 then 0 else Closes(ops, n - 1, c) + if ops[n - 1] == Close(c) then 1 else 0
  }

  /** The StartLinks of the channel that no EndLink has answered yet; one that finds none waiting answers none. */
  function Waiting(ops: seq<LinkOp>, n: nat, c: Channel): nat
    requires n <= |ops|
  {
    if n == 0 then 0
    else
      var w := Waiting(ops, n - 1, c);
      if ops[n - 1] == Open(c) then w + 1 else if ops[n - 1] == Close(c) && w > 0 then w - 1 else w
  }

  predicate Misses(ops: seq<LinkOp>, i: nat, capacity: nat)
    requires i < |ops|
  {
    ops[i].Close? && Outcome(ops, i, capacity) == None
  }

  lemma {:induction false} QueueWaits(ops: seq<LinkOp>, n: nat, c: Channel, capacity: nat)
    requires n <= |ops|
    ensures |Queue(After(EMPTY, ops, n, capacity), c)| == if Admitted(ops, c, capacity) then Waiting(ops, n, c) else 0
  {
    hide Admitted, Queue;
    if n == 0 {
      EmptyQueue(c);
    } else {
      QueueWaits(ops, n - 1, c, capacity);
      QueueSteps(After(EMPTY, ops, n - 1, capacity), ops[n - 1], c, capacity);
      if ops[n - 1] == Open(c) {
        OpenSucceeds(ops, n - 1, capacity);
      }
    }
  }

  lemma EmptyQueue(c: Channel)
    ensures Queue(EMPTY, c) == []
  {
  }

  lemma QueueSteps(s: Store, op: LinkOp, c: Channel, capacity: nat)
    ensures var before, after := |Queue(s, c)|, |Queue(Step(s, op, capacity), c)|;
            && (op == Open(c) ==> after == before + if Key(s, op, capacity).Some? then 1 else 0)
            && (op == Close(c) ==> after == if before > 0 then before - 1 else 0)
            && (op != Open(c) && op != Close(c) ==> after == before)
  {
    StepKeeps(s, op, c, capacity);
  }

  /**
    An EndLink misses its key exactly when its channel is not admitted or no StartLink of it is waiting;
    a miss leaves every queue as it was.
   */
  lemma MissesExactly(ops: seq<LinkOp>, i: nat, capacity: nat)
    requires i < |ops| && ops[i].Close?
    ensures Misses(ops, i, capacity) <==>
            !(Admitted(ops, ops[i].channel, capacity) && Waiting(ops, i, ops[i].channel) > 0)
    ensures Misses(ops, i, capacity) ==> After(EMPTY, ops, i + 1, capacity) == After(EMPTY, ops, i, capacity)
  {
    hide Admitted;
    QueueWaits(ops, i, ops[i].channel, capacity);
  }

  lemma {:induction false} IssuedCount(ops: seq<LinkOp>, n: nat, c: Channel, capacity: nat)
    requires n <= |ops|
    ensures |Issued(ops, n, c, capacity)| == if Admitted(ops, c, capacity) then Opens(ops, n, c) else 0
  {
    hide Admitted, Outcome;
    if n > 0 {
      IssuedCount(ops, n - 1, c, capacity);
      if ops[n - 1] == Open(c) {
        OpenSucceeds(ops, n - 1, capacity);
      }
    }
  }

  /** Of an admitted channel, the keys taken and the ones waiting are the StartLinks. */
  lemma TakenCount(ops: seq<LinkOp>, n: nat, c: Channel, capacity: nat)
    requires n <= |ops| && Admitted(ops, c, capacity)
    ensures |Taken(ops, n, c, capacity)| + Waiting(ops, n, c) == Opens(ops, n, c)
  {
    hide Admitted;
    Conservation(ops, n, c, capacity);
    QueueWaits(ops, n, c, capacity);
    IssuedCount(ops, n, c, capacity);
  }

  /**
    Whose key an EndLink carries, in any run: that of the StartLink of its channel that has waited
    longest, if the channel is admitted and one is waiting.
   */
  lemma RunPairs(ops: seq<LinkOp>, i: nat, j: nat, capacity: nat)
    requires i < |ops| && j < |ops| && ops[i].Open? && ops[j].Close?
    ensures Outcome(ops, i, capacity).Some? && Outcome(ops, i, capacity) == Outcome(ops, j, capacity) <==>
            var c := ops[j].channel;
            && ops[i].channel == c && Admitted(ops, c, capacity) && Waiting(ops, j, c) > 0
            && Opens(ops, i, c) + Waiting(ops, j, c) == Opens(ops, j, c)
  {
    hide Admitted, Outcome;
    OpenSucceeds(ops, i, capacity);
    MissesExactly(ops, j, capacity);
    if Outcome(ops, i, capacity).Some? && Outcome(ops, j, capacity).Some? {
      KeysMatch(ops, i, j, capacity);
      IssuedCount(ops, i, ops[i].channel, capacity);
      TakenCount(ops, j, ops[j].channel, capacity);
    }
  }

  // ----- Runs in which no EndLink comes too early -----

  /** Operation i, if it is an EndLink, has more StartLinks than EndLinks of its channel before it. */
  predicate Served(ops: seq<LinkOp>, i: nat)
    requires i < |ops|
  {
    ops[i].Close? ==> Closes(ops, i, ops[i].channel) < Opens(ops, i, ops[i].channel)
  }

  /** On every channel the k-th receive comes after the k-th send. */
  ghost predicate Sound(ops: seq<LinkOp>, n: nat)
    requires n <= |ops|
  {
    forall i :: 0 <= i < n ==> Served(ops, i)
  }

  ghost predicate Carries(ops: seq<LinkOp>, i: nat, capacity: nat)
    requires i < |ops|
  {
    ops[i].Close? ==> Admitted(ops, ops[i].channel, capacity)
  }

  /** All EndLinks are on admitted channels. */
  ghost predicate Carried(ops: seq<LinkOp>, n: nat, capacity: nat)
    requires n <= |ops|
  {
    forall i :: 0 <= i < n ==> Carries(ops, i, capacity)
  }

  lemma {:induction false} SoundWaits(ops: seq<LinkOp>, n: nat, c: Channel)
    requires n <= |ops| && Sound(ops, n)
    ensures Waiting(ops, n, c) + Closes(ops, n, c) == Opens(ops, n, c)
  {
    if n > 0 {
      SoundWaits(ops, n - 1, c);
      assert Served(ops, n - 1);
    }
  }

  /** No EndLink misses its key exactly when each comes after its StartLink, on an admitted channel. */
  lemma {:induction false} NoMissIffSound(ops: seq<LinkOp>, n: nat, capacity: nat)
    requires n <= |ops|
    ensures (forall i :: 0 <= i < n ==> !Misses(ops, i, capacity)) <==> Sound(ops, n) && Carried(ops, n, capacity)
  {
    hide Misses, Admitted;
    if n > 0 {
      NoMissIffSound(ops, n - 1, capacity);
      if Sound(ops, n - 1) {
        MissesOrServed(ops, n - 1, capacity);
      }
      assert Sound(ops, n) <==> Sound(ops, n - 1) && Served(ops, n - 1);
      assert Carried(ops, n, capacity) <==> Carried(ops, n - 1, capacity) && Carries(ops, n - 1, capacity);
    }
  }

  lemma MissesOrServed(ops: seq<LinkOp>, i: nat, capacity: nat)
    requires i < |ops| && Sound(ops, i)
    ensures Misses(ops, i, capacity) <==> !(Served(ops, i) && Carries(ops, i, capacity))
  {
    hide Admitted, Outcome;
    if ops[i].Close? {
      SoundWaits(ops, i, ops[i].channel);
      MissesExactly(ops, i, capacity);
    }
  }

  /** With room for all channels, each EndLink that comes after its StartLink is on an admitted one. */
  lemma FitsCarries(ops: seq<LinkOp>, n: nat, capacity: nat)
    requires n <= |ops| && Fits(ops, capacity) && Sound(ops, n)
    ensures Carried(ops, n, capacity)
  {
    hide Outcome, Admitted, Fits;
    FitsExactly(ops, capacity);
    forall j | 0 <= j < n
      ensures Carries(ops, j, capacity)
    {
      if ops[j].Close? {
        assert Served(ops, j);
        var i := OpenedAt(ops, j, ops[j].channel, 0);
        OpenSucceeds(ops, i, capacity);
      }
    }
  }

  lemma {:induction false} OpenedAt(ops: seq<LinkOp>, n: nat, c: Channel, k: nat) returns (i: nat)
    requires n <= |ops| && k < Opens(ops, n, c)
    ensures i < n && ops[i] == Open(c) && Opens(ops, i, c) == k
  {
    if k < Opens(ops, n - 1, c) {
      i := OpenedAt(ops, n - 1, c, k);
    } else {
      i := n - 1;
    }
  }

  /**
    In such a run an EndLink carries the key of a StartLink exactly when both are of the same channel
    and as many StartLinks of it come before the one as EndLinks before the other.
   */
  lemma SoundRunPairs(ops: seq<LinkOp>, i: nat, j: nat, capacity: nat)
    requires Sound(ops, |ops|) && Carried(ops, |ops|, capacity)
    requires i < |ops| && j < |ops| && ops[i].Open? && ops[j].Close?
    ensures Outcome(ops, j, capacity).Some?
    ensures Outcome(ops, i, capacity) == Outcome(ops, j, capacity) <==>
            ops[i].channel == ops[j].channel &&
            Opens(ops, i, ops[i].channel) == Closes(ops, j, ops[j].channel)
  {
    hide Admitted, Outcome;
    RunPairs(ops, i, j, capacity);
    assert Served(ops, j) && Carries(ops, j, capacity);
    SoundWaits(ops, j, ops[j].channel);
    MissesExactly(ops, j, capacity);
  }
}
