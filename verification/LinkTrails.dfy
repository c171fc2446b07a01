/**
  What the converter's output says about links: its StartLink and EndLink records are the link
  operations of the events in order, each with its key; the converter fails exactly at the first event
  whose receives exceed the sends before them.
 */
module LinkTrails {
  import opened Wrappers
  import opened Links
  import opened Lists
  import opened Events
  import opened Translation

  predicate IsLink(r: Record) {
    r.StartLink? || r.EndLink?
  }

  /** The link records among the output, in order. */
  function Trail(out: seq<Record>): seq<Record> {
    if out == [] then []
    else Trail(out[..|out| - 1]) + if IsLink(out[|out| - 1]) then [out[|out| - 1]] else []
  }

  lemma {:induction false} TrailAppend(a: seq<Record>, b: seq<Record>)
    ensures Trail(a + b) == Trail(a) + Trail(b)
    decreases |b|
  {
    if b == [] {
      assert a + b == a;
    } else {
      var b' := b[..|b| - 1];
      assert (a + b)[..|a + b| - 1] == a + b';
      TrailAppend(a, b');
    }
  }

  /** The record is that of the operation and carries the key. */
  predicate Describes(r: Record, op: LinkOp, key: Option<nat>) {
    match op
    case Open(c) => r.StartLink? && r.key == KeyString(c, key)
    case Close(c) => r.EndLink? && r.key == KeyString(c, key)
  }

  // ----- One event -----

  predicate Recorded(trail: seq<Record>, ops: seq<LinkOp>, i: nat, capacity: nat)
    requires i < |trail| && i < |ops|
  {
    Describes(trail[i], ops[i], Outcome(ops, i, capacity))
  }

  /** The link records written so far are those of the operations done so far. */
  ghost predicate TrailOk(trail: seq<Record>, ops: seq<LinkOp>, n: nat, capacity: nat)
    requires n <= |ops|
  {
    |trail| == n && forall i {:trigger Recorded(trail, ops, i, capacity)} :: 0 <= i < n ==> Recorded(trail, ops, i, capacity)
  }

  /** The variables represent the first n of all the link operations. */
  ghost predicate Tracks(v: View, ops: seq<LinkOp>, n: nat, o: Options)
    requires n <= |ops|
  {
    match v
    case View(store, fail, _, _, out) =>
      && store == After(EMPTY, ops, n, o.capacity)
      && TrailOk(Trail(out), ops, n, o.capacity)
      && (fail <==> !o.ignoreErrors && MissBefore(ops, n, o.capacity))
  }

  ghost predicate MissBefore(ops: seq<LinkOp>, n: nat, capacity: nat)
    requires n <= |ops|
  {
    exists i :: 0 <= i < n && Misses(ops, i, capacity)
  }

  lemma MissNext(ops: seq<LinkOp>, n: nat, capacity: nat)
    requires n < |ops|
    ensures MissBefore(ops, n + 1, capacity) <==> MissBefore(ops, n, capacity) || Misses(ops, n, capacity)
  {
    if MissBefore(ops, n, capacity) {
      var i :| 0 <= i < n && Misses(ops, i, capacity);
      assert 0 <= i < n + 1;
    }
  }

  lemma TrailOkNext(trail: seq<Record>, r: Record, ops: seq<LinkOp>, n: nat, capacity: nat)
    requires n < |ops| && TrailOk(trail, ops, n, capacity) && Describes(r, ops[n], Outcome(ops, n, capacity))
    ensures TrailOk(trail + [r], ops, n + 1, capacity)
  {
    var longer := trail + [r];
    forall i | 0 <= i < n + 1
      ensures Recorded(longer, ops, i, capacity)
    {
      if i < n {
        assert Recorded(trail, ops, i, capacity) && longer[i] == trail[i];
      } else {
        assert longer[i] == r;
      }
    }
  }

  lemma TracksNext(v: View, e: Event, op: LinkOp, ops: seq<LinkOp>, n: nat, o: Options)
    requires e.kind.Link? && n < |ops| && op == ops[n] && Tracks(v, ops, n, o)
    ensures Tracks(Linked(v, e, op, o), ops, n + 1, o)
  {
    var r := LinkRecord(e, op, Outcome(ops, n, o.capacity));
    OneLink(v.out, r);
    TrailOkNext(Trail(v.out), r, ops, n, o.capacity);
    MissNext(ops, n, o.capacity);
  }

  lemma OneLink(out: seq<Record>, r: Record)
    requires IsLink(r)
    ensures Trail(out + [r]) == Trail(out) + [r]
  {
    assert (out + [r])[..|out|] == out;
  }

  lemma {:induction false} TracksEvent(v: View, e: Event, own: seq<LinkOp>, m: nat, ops: seq<LinkOp>, n: nat, o: Options)
    requires e.kind.Link? && m <= |own| && Follows(own, ops, n) && Tracks(v, ops, n, o)
    ensures Tracks(LinkedAll(v, e, own, m, o), ops, n + m, o)
  {
    hide Tracks, Linked;
    if m == 0 {
      assert LinkedAll(v, e, own, m, o) == v;
    } else {
      TracksEvent(v, e, own, m - 1, ops, n, o);
      var w := LinkedAll(v, e, own, m - 1, o);
      TracksNext(w, e, own[m - 1], ops, n + m - 1, o);
    }
  }

  /** Only store, failure and link records matter. */
  lemma TracksSame(v: View, w: View, ops: seq<LinkOp>, n: nat, o: Options)
    requires n <= |ops| && Tracks(v, ops, n, o)
    requires w.store == v.store && w.fail == v.fail && Trail(w.out) == Trail(v.out)
    ensures Tracks(w, ops, n, o)
  {
  }

  lemma TracksPlain(v: View, e: Event, ops: seq<LinkOp>, n: nat, o: Options)
    requires !e.kind.Link? && Readable(e) && n <= |ops| && Tracks(v, ops, n, o)
    ensures Tracks(Translate(v, e, o), ops, n, o)
  {
    PlainKeepsTrail(v, e, o);
    TracksSame(v, Translate(v, e, o), ops, n, o);
  }

  lemma PlainKeepsTrail(v: View, e: Event, o: Options)
    requires !e.kind.Link? && Readable(e)
    ensures var w := Translate(v, e, o);
            w.store == v.store && w.fail == v.fail && Trail(w.out) == Trail(v.out)
  {
    PlainHasNoLinks(e, v.rootCreated, o);
    WriteKeepsTrail(v.out, Plain(e, v.rootCreated, o));
  }

  lemma WriteKeepsTrail(out: seq<Record>, records: seq<Record>)
    requires Trail(records) == []
    ensures Trail(out + records) == Trail(out)
  {
    TrailAppend(out, records);
    assert Trail(out) + [] == Trail(out);
  }

  lemma PlainHasNoLinks(e: Event, rootCreated: bool, o: Options)
    requires Readable(e)
    ensures Trail(Plain(e, rootCreated, o)) == []
  {
    var records := Plain(e, rootCreated, o);
    assert |records| <= 2 && forall r :: r in records ==> !IsLink(r);
    NoLinks(records);
  }

  lemma {:induction false} NoLinks(records: seq<Record>)
    requires forall r :: r in records ==> !IsLink(r)
    ensures Trail(records) == []
  {
    if records != [] {
      NoLinks(records[..|records| - 1]);
    }
  }

  // ----- All events -----

  /** The operations of event n are the ones that follow those of the events before it. */
  lemma EventIsNext(events: seq<Event>, n: nat)
    requires n < |events| && AllReadable(events)
    ensures Readable(events[n]) && Follows(OpsOf(events[n]), Ops(events), Offset(events, n))
    ensures Offset(events, n + 1) == Offset(events, n) + |OpsOf(events[n])|
  {
    var lists := OpLists(events);
    assert Readable(events[n]) && lists[n] == OpsOf(events[n]);
    FlattenFollows(lists, n);
  }

  /** The variables after n events represent the link operations of these events. */
  ghost predicate Tracked(v: View, events: seq<Event>, n: nat, o: Options)
    requires n <= |events| && AllReadable(events)
  {
    Offset(events, n) <= |Ops(events)| && Tracks(v, Ops(events), Offset(events, n), o)
  }

  lemma TrackedNext(v: View, events: seq<Event>, n: nat, e: Event, o: Options)
    requires n < |events| && AllReadable(events) && e == events[n] && Readable(e) && !o.noLinks && Tracked(v, events, n, o)
    ensures Tracked(Translate(v, e, o), events, n + 1, o)
  {
    hide Translate, OpsOf;
    EventIsNext(events, n);
    TracksTranslate(v, e, Ops(events), Offset(events, n), o);
    TrackedWhen(Translate(v, e, o), events, n + 1, Ops(events), Offset(events, n) + |OpsOf(e)|, o);
  }

  lemma TrackedWhen(v: View, events: seq<Event>, n: nat, ops: seq<LinkOp>, m: nat, o: Options)
    requires n <= |events| && AllReadable(events) && ops == Ops(events) && m == Offset(events, n)
    requires m <= |ops| && Tracks(v, ops, m, o)
    ensures Tracked(v, events, n, o)
  {
  }

  /** No event before the n-th one failed. */
  ghost predicate Live(events: seq<Event>, n: nat, o: Options)
    requires n <= |events| && AllReadable(events)
  {
    n > 0 ==> !Translated(events, n - 1, o).fail
  }

  lemma LastStep(v: View, events: seq<Event>, n: nat, o: Options) returns (w: View)
    requires 0 < n <= |events| && AllReadable(events) && Reached(v, events, n, o) && Live(events, n, o)
    ensures Reached(w, events, n - 1, o) && Live(events, n - 1, o)
    ensures !w.fail && Readable(events[n - 1]) && v == Translate(w, events[n - 1], o)
  {
    w := Translated(events, n - 1, o);
    ReachedNext(w, events, n - 1, o);
  }

  /** Up to the first event that fails, and including it. */
  lemma {:induction false} RunTracks(v: View, events: seq<Event>, n: nat, o: Options)
    requires n <= |events| && AllReadable(events) && !o.noLinks && Reached(v, events, n, o) && Live(events, n, o)
    ensures Tracked(v, events, n, o)
    decreases n
  {
    hide Translate;
    if n == 0 {
      StartTracks(Ops(events), o);
    } else {
      var w := LastStep(v, events, n, o);
      RunTracks(w, events, n - 1, o);
      TrackedNext(w, events, n - 1, events[n - 1], o);
    }
  }

  lemma StartTracks(ops: seq<LinkOp>, o: Options)
    ensures Tracks(START, ops, 0, o)
  {
  }

  lemma TracksTranslate(v: View, e: Event, ops: seq<LinkOp>, n: nat, o: Options)
    requires Readable(e) && !o.noLinks && n <= |ops| && Follows(OpsOf(e), ops, n) && Tracks(v, ops, n, o)
    ensures Tracks(Translate(v, e, o), ops, n + |OpsOf(e)|, o)
  {
    hide OpsOf, LinkedAll, Plain;
    if e.kind.Link? {
      var w := v.(time := e.time);
      TracksSame(v, w, ops, n, o);
      TracksEvent(w, e, OpsOf(e), |OpsOf(e)|, ops, n, o);
    } else {
      PlainHasNoOps(e);
      TracksPlain(v, e, ops, n, o);
    }
  }

  lemma PlainHasNoOps(e: Event)
    requires !e.kind.Link? && Readable(e)
    ensures OpsOf(e) == []
  {
  }
}
