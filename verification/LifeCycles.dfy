/**
  Nesting and life cycle: whatever the interleaving of the ranks, the output of a conversion never pops
  an empty stack, and creates and destroys every container once, in order, with nothing left open.
 */
module LifeCycles {
  import opened Wrappers
  import opened KeyNames
  import opened Links
  import opened Events
  import opened Translation
  import opened LinkTrails
  import opened LinkOutput
  import opened Merges
  import opened Pairing
  import opened Paje

  /** How a record changes the number of open states of its rank. */
  function Change(k: Kind): int {
    match k
    case Enter(_) => 1
    case EnterSend(_) => 1
    case EnterRecv(_) => 1
    case Leave => -1
    case FinalizeOut => -1
    case _ => 0
  }

  /** The states open after the first n records of a trace. */
  function Depth(trace: seq<Event>, n: nat): int
    requires n <= |trace|
  {
    if n == 0 then 0 else Depth(trace, n - 1) + Change(trace[n - 1].kind)
  }

  /** Record i begins the trace if it is MPI_Init's, ends it if it is MPI_Finalize's, and closes a state only if one is open. */
  predicate InPlace(trace: seq<Event>, i: nat)
    requires i < |trace|
  {
    && (trace[i].kind.Init? <==> i == 0)
    && (trace[i].kind.FinalizeOut? <==> i == |trace| - 1)
    && Depth(trace, i) >= 0 && Depth(trace, i + 1) >= 0
  }

  /** A rank's trace from MPI_Init to MPI_Finalize, in which every state that is opened is closed. */
  ghost predicate LifeCycle(trace: seq<Event>) {
    |trace| > 1 && Depth(trace, |trace|) == 0 && forall i :: 0 <= i < |trace| ==> InPlace(trace, i)
  }

  lemma ProcessNamesDiffer(r: nat, q: nat)
    requires r != q
    ensures ProcessName(r) != ProcessName(q)
  {
    if ProcessName(r) == ProcessName(q) {
      assert ProcessName(r)[4..] == Digits(r) && ProcessName(q)[4..] == Digits(q);
      DigitsInjective(r, q);
    }
  }

  lemma ProcessIsNotRoot(r: nat)
    ensures ProcessName(r) != "root"
  {
    assert ProcessName(r)[1] == 'a';
  }

  // ----- One event -----

  /** The scene after an event of a process. */
  function Effect(s: Scene, e: Event, name: string, rootCreated: bool, o: Options): Scene {
    match e.kind
    case Init =>
      var t := if rootCreated then s else s.(alive := s.alive["root" := Container("0", 0)]);
      t.(alive := t.alive[name := Container("root", 0)])
    case FinalizeOut => Scene(s.alive - {name}, s.gone + {name})
    case _ => if o.noStates then s else Deeper(s, name, Change(e.kind))
  }

  /** What an event needs: its process alive, with open states to close, or yet to be created. */
  ghost predicate Welcome(s: Scene, e: Event, name: string, rootCreated: bool, o: Options) {
    match e.kind
    case Init =>
      && name != "root" && name !in s.alive && name !in s.gone && "root" !in s.gone && (rootCreated <==> "root" in s.alive)
    case Leave => name in s.alive && "root" in s.alive && (!o.noStates ==> s.alive[name].depth > 0)
    case FinalizeOut => name in s.alive && s.alive[name].depth == (if o.noStates then 0 else 1) && Childless(s, name)
    case _ => name in s.alive && "root" in s.alive
  }

  lemma LinksPlay(v: View, e: Event, ops: seq<LinkOp>, n: nat, s: Scene, o: Options)
    requires e.kind.Link? && n <= |ops| && Played(v.out) == Some(s)
    requires ProcessName(e.rank) in s.alive && "root" in s.alive
    ensures Played(LinkedAll(v, e, ops, n, o).out) == Some(s)
  {
    hide Played, ProcessName;
    if n > 0 {
      LinksPlay(v, e, ops, n - 1, s, o);
      var w := LinkedAll(v, e, ops, n - 1, o);
      PlayedNext(w.out, LinkRecord(e, ops[n - 1], Key(w.store, ops[n - 1], o.capacity)), s);
    }
  }

  lemma PlainPlays(out: seq<Record>, e: Event, s: Scene, rootCreated: bool, o: Options)
    requires !e.kind.Link? && Readable(e) && Played(out) == Some(s)
    requires Welcome(s, e, ProcessName(e.rank), rootCreated, o)
    ensures Played(out + Plain(e, rootCreated, o)) == Some(Effect(s, e, ProcessName(e.rank), rootCreated, o))
  {
    hide Played, ProcessName, Extras;
    match e.kind
    case Init => CreatedPlays(out, e, s, rootCreated, o);
    case Enter(name) => PushedPlays(out, e, name, s, o);
    case EnterSend(name) => PushedPlays(out, e, name, s, o);
    case EnterRecv(name) => PushedPlays(out, e, name, s, o);
    case Leave => PoppedPlays(out, e, s, o);
    case FinalizeOut => FinalizedPlays(out, e, s, o);
    case Unknown =>
      assert out + [] == out;
      DeeperByNone(s, ProcessName(e.rank));
  }

  lemma CreatedPlays(out: seq<Record>, e: Event, s: Scene, rootCreated: bool, o: Options)
    requires e.kind.Init? && Played(out) == Some(s) && Welcome(s, e, ProcessName(e.rank), rootCreated, o)
    ensures Played(out + Created(e, rootCreated)) == Some(Effect(s, e, ProcessName(e.rank), rootCreated, o))
  {
    hide Played, ProcessName;
    var root := CreateContainer(e.time, "root", "ROOT", "0");
    var process := CreateContainer(e.time, ProcessName(e.rank), "PROCESS", "root");
    if rootCreated {
      PlayedNext(out, process, s);
      assert Created(e, rootCreated) == [process];
    } else {
      PlayedNext(out, root, s);
      PlayedNext(out + [root], process, Read(s, root));
      assert out + Created(e, rootCreated) == out + [root] + [process];
    }
  }

  lemma PushedPlays(out: seq<Record>, e: Event, name: string, s: Scene, o: Options)
    requires Readable(e) && Played(out) == Some(s) && ProcessName(e.rank) in s.alive
    ensures Played(out + Pushed(e, name, Extras(e), o)) ==
            Some(if o.noStates then s else Deeper(s, ProcessName(e.rank), 1))
  {
    hide Played, ProcessName, Extras;
    if o.noStates {
      assert out + [] == out;
    } else {
      PlayedNext(out, PushState(e.time, ProcessName(e.rank), name, Extras(e)), s);
    }
  }

  lemma PoppedPlays(out: seq<Record>, e: Event, s: Scene, o: Options)
    requires Played(out) == Some(s) && ProcessName(e.rank) in s.alive
    requires !o.noStates ==> s.alive[ProcessName(e.rank)].depth > 0
    ensures Played(out + Popped(e, o)) == Some(if o.noStates then s else Deeper(s, ProcessName(e.rank), -1))
  {
    hide Played, ProcessName;
    if o.noStates {
      assert out + [] == out;
    } else {
      PlayedNext(out, PopState(e.time, ProcessName(e.rank)), s);
    }
  }

  lemma FinalizedPlays(out: seq<Record>, e: Event, s: Scene, o: Options)
    requires e.kind.FinalizeOut? && Played(out) == Some(s) && Welcome(s, e, ProcessName(e.rank), true, o)
    ensures Played(out + Plain(e, true, o)) == Some(Effect(s, e, ProcessName(e.rank), true, o))
  {
    hide Played, ProcessName, Popped;
    var name := ProcessName(e.rank);
    var destroy := DestroyContainer(e.time, "PROCESS", name);
    PoppedPlays(out, e, s, o);
    var t := if o.noStates then s else Deeper(s, name, -1);
    assert Childless(t, name);
    PlayedNext(out + Popped(e, o), destroy, t);
    assert out + (Popped(e, o) + [destroy]) == out + Popped(e, o) + [destroy];
    assert t.alive - {name} == s.alive - {name};
  }

  /** One event that fits the scene. */
  lemma EventPlays(v: View, e: Event, s: Scene, o: Options)
    requires Readable(e) && Played(v.out) == Some(s)
    requires Welcome(s, e, ProcessName(e.rank), v.rootCreated, o)
    ensures Played(Translate(v, e, o).out) == Some(Effect(s, e, ProcessName(e.rank), v.rootCreated, o))
  {
    hide Played, ProcessName, OpsOf, Plain;
    if e.kind.Link? {
      DeeperByNone(s, ProcessName(e.rank));
      if !o.noLinks {
        LinksPlay(v.(time := e.time), e, OpsOf(e), |OpsOf(e)|, s, o);
      }
    } else {
      PlainPlays(v.out, e, s, v.rootCreated, o);
    }
  }

  lemma DeeperByNone(s: Scene, name: string)
    ensures Deeper(s, name, 0) == s
  {
    if name in s.alive {
      assert s.alive[name := s.alive[name]] == s.alive;
    }
  }

  // ----- All ranks -----

  /** The container of rank r when i records of its trace have been translated. */
  ghost predicate RankOk(s: Scene, r: nat, trace: seq<Event>, i: nat, o: Options)
    requires i <= |trace|
  {
    var name := ProcessName(r);
    && (name in s.gone <==> i == |trace|)
    && (name in s.alive <==> 0 < i < |trace|)
    && (name in s.alive ==> s.alive[name].parent == "root" && s.alive[name].depth == OpenStates(trace, i, o))
  }

  function OpenStates(trace: seq<Event>, i: nat, o: Options): int
    requires i <= |trace|
  {
    if o.noStates then 0 else Depth(trace, i)
  }

  ghost predicate RootOk(s: Scene, rootCreated: bool) {
    && "root" !in s.gone && (rootCreated <==> "root" in s.alive)
    && (rootCreated ==> s.alive["root"] == Container("0", 0))
  }

  ghost predicate IsProcess(n: nat, name: string) {
    exists r: nat :: r < n && name == ProcessName(r)
  }

  /** Besides the root only processes live, all in the root. */
  ghost predicate OnlyProcesses(s: Scene, n: nat) {
    && (forall name {:trigger IsProcess(n, name)} ::
          name in s.alive && name != "root" ==> IsProcess(n, name) && s.alive[name].parent == "root")
    && (forall name {:trigger IsProcess(n, name)} :: name in s.gone ==> IsProcess(n, name))
  }

  ghost predicate AllLifeCycles(traces: seq<seq<Event>>) {
    forall r :: 0 <= r < |traces| ==> LifeCycle(traces[r])
  }

  ghost predicate RankAt(s: Scene, traces: seq<seq<Event>>, sched: seq<nat>, t: nat, r: nat, o: Options)
    requires t <= |sched| && r < |traces|
  {
    Count(sched, t, r) <= |traces[r]| && RankOk(s, r, traces[r], Count(sched, t, r), o)
  }

  /** The scene after t merged records. */
  ghost predicate SceneOk(s: Scene, traces: seq<seq<Event>>, sched: seq<nat>, t: nat, rootCreated: bool, o: Options)
    requires t <= |sched|
  {
    && (forall r {:trigger RankAt(s, traces, sched, t, r, o)} :: 0 <= r < |traces| ==> RankAt(s, traces, sched, t, r, o))
    && RootOk(s, rootCreated) && (rootCreated <==> t > 0) && OnlyProcesses(s, |traces|)
  }

  lemma NoChildren(s: Scene, n: nat, rootCreated: bool, r: nat)
    requires RootOk(s, rootCreated) && OnlyProcesses(s, n)
    ensures Childless(s, ProcessName(r))
  {
    ProcessIsNotRoot(r);
    forall other | other in s.alive
      ensures s.alive[other].parent != ProcessName(r)
    {
      if other == "root" {
        assert ProcessName(r)[0] == 'r';
      } else {
        assert IsProcess(n, other);
      }
    }
  }

  /** The next record of a life cycle fits the scene. */
  lemma NextWelcome(s: Scene, r: nat, trace: seq<Event>, i: nat, n: nat, rootCreated: bool, o: Options)
    requires LifeCycle(trace) && i < |trace| && RankOk(s, r, trace, i, o) && RootOk(s, rootCreated)
    requires OnlyProcesses(s, n) && (i > 0 ==> rootCreated)
    ensures Welcome(s, trace[i], ProcessName(r), rootCreated, o)
  {
    hide ProcessName;
    ProcessIsNotRoot(r);
    NoChildren(s, n, rootCreated, r);
    assert InPlace(trace, i);
  }

  /** After it, the rank's container is as it should be. */
  lemma NextHere(s: Scene, r: nat, trace: seq<Event>, i: nat, rootCreated: bool, o: Options)
    requires LifeCycle(trace) && i < |trace| && RankOk(s, r, trace, i, o) && RootOk(s, rootCreated)
    requires i > 0 ==> rootCreated
    ensures RankOk(Effect(s, trace[i], ProcessName(r), rootCreated, o), r, trace, i + 1, o)
  {
    hide ProcessName;
    ProcessIsNotRoot(r);
    assert InPlace(trace, i);
  }

  /** All other processes are as before. */
  lemma NextElsewhere(s: Scene, e: Event, r: nat, q: nat, trace: seq<Event>, i: nat, rootCreated: bool, o: Options)
    requires q != r && i <= |trace| && RankOk(s, q, trace, i, o)
    ensures RankOk(Effect(s, e, ProcessName(r), rootCreated, o), q, trace, i, o)
  {
    hide ProcessName;
    ProcessNamesDiffer(r, q);
    ProcessIsNotRoot(q);
  }

  lemma NextRoot(s: Scene, e: Event, r: nat, rootCreated: bool, o: Options)
    requires RootOk(s, rootCreated) && (!rootCreated ==> e.kind.Init?)
    ensures RootOk(Effect(s, e, ProcessName(r), rootCreated, o), rootCreated || e.kind.Init?)
  {
    hide ProcessName;
    ProcessIsNotRoot(r);
  }

  lemma NextProcesses(s: Scene, e: Event, r: nat, n: nat, rootCreated: bool, o: Options)
    requires r < n && OnlyProcesses(s, n)
    ensures OnlyProcesses(Effect(s, e, ProcessName(r), rootCreated, o), n)
  {
    hide ProcessName;
    var s' := Effect(s, e, ProcessName(r), rootCreated, o);
    forall name | name in s'.alive && name != "root"
      ensures IsProcess(n, name) && s'.alive[name].parent == "root"
    {
      assert name != ProcessName(r) ==> IsProcess(n, name);
    }
    forall name | name in s'.gone
      ensures IsProcess(n, name)
    {
      assert name != ProcessName(r) ==> IsProcess(n, name);
    }
  }

  lemma SceneStart(traces: seq<seq<Event>>, sched: seq<nat>, o: Options)
    requires AllLifeCycles(traces)
    ensures SceneOk(NOTHING, traces, sched, 0, false, o)
  {
    forall r | 0 <= r < |traces|
      ensures RankAt(NOTHING, traces, sched, 0, r, o)
    {
      assert LifeCycle(traces[r]);
    }
  }

  /** The next merged record fits the scene, and leads to the next one. */
  lemma SceneNext(s: Scene, traces: seq<seq<Event>>, sched: seq<nat>, t: nat, e: Event, rootCreated: bool, o: Options)
    requires AllLifeCycles(traces) && t < |sched| && InTraces(traces, sched, t) && e == RecordAt(traces, sched, t)
    requires e.rank == sched[t] && SceneOk(s, traces, sched, t, rootCreated, o)
    ensures Welcome(s, e, ProcessName(e.rank), rootCreated, o)
    ensures SceneOk(Effect(s, e, ProcessName(e.rank), rootCreated, o), traces, sched, t + 1, rootCreated || e.kind.Init?, o)
  {
    hide ProcessName, Effect, Welcome, RankOk, LifeCycle, RootOk, OnlyProcesses, InPlace;
    var r, i := sched[t], Place(sched, t);
    var trace := traces[r];
    assert LifeCycle(trace) && RankAt(s, traces, sched, t, r, o);
    LaterThanStart(sched, t);
    NextWelcome(s, r, trace, i, |traces|, rootCreated, o);
    NextHere(s, r, trace, i, rootCreated, o);
    FirstIsInit(trace, i);
    NextRoot(s, e, r, rootCreated, o);
    NextProcesses(s, e, r, |traces|, rootCreated, o);
    var s' := Effect(s, e, ProcessName(r), rootCreated, o);
    var next := t + 1;
    forall q | 0 <= q < |traces|
      ensures RankAt(s', traces, sched, next, q, o)
    {
      assert RankAt(s, traces, sched, t, q, o);
      if q != r {
        NextElsewhere(s, e, r, q, traces[q], Count(sched, t, q), rootCreated, o);
      }
    }
  }

  lemma LaterThanStart(sched: seq<nat>, t: nat)
    requires t < |sched|
    ensures t == 0 ==> Place(sched, t) == 0
  {
  }

  lemma FirstIsInit(trace: seq<Event>, i: nat)
    requires LifeCycle(trace) && i < |trace|
    ensures trace[i].kind.Init? <==> i == 0
  {
    assert InPlace(trace, i);
  }

  /** As long as no link fails, the output can be read, and leads to the scene it should. */
  lemma {:induction false} LiveRunPlays(traces: seq<seq<Event>>, sched: seq<nat>, t: nat, v: View, o: Options)
    returns (s: Scene)
    requires Traces(traces) && AllLifeCycles(traces) && Schedules(traces, sched) && t <= |sched|
    requires AllReadable(Merged(traces, sched)) && Reached(v, Merged(traces, sched), t, o)
    requires Live(Merged(traces, sched), t, o)
    ensures Played(v.out) == Some(s) && SceneOk(s, traces, sched, t, v.rootCreated, o)
    decreases t
  {
    hide ProcessName, Translate, SceneOk, Traces, Schedules, AllLifeCycles, Merged, Effect, Welcome, Played, TraceOf;
    var events := Merged(traces, sched);
    if t == 0 {
      s := NOTHING;
      NothingPlayed();
      SceneStart(traces, sched, o);
    } else {
      var w := LinkTrails.LastStep(v, events, t, o);
      var q := LiveRunPlays(traces, sched, t - 1, w, o);
      MergedAt(traces, sched, t - 1);
      var e := events[t - 1];
      SceneNext(q, traces, sched, t - 1, e, w.rootCreated, o);
      EventPlays(w, e, q, o);
      RootNoted(w, e, o);
      s := Effect(q, e, ProcessName(e.rank), w.rootCreated, o);
    }
  }

  lemma NothingPlayed()
    ensures Played([]) == Some(NOTHING)
  {
  }

  lemma RootNoted(v: View, e: Event, o: Options)
    requires Readable(e)
    ensures Translate(v, e, o).rootCreated == (v.rootCreated || e.kind.Init?)
  {
    hide OpsOf;
    if e.kind.Link? && !o.noLinks {
      LinksNoteNothing(v.(time := e.time), e, OpsOf(e), |OpsOf(e)|, o);
    }
  }

  lemma {:induction false} LinksNoteNothing(v: View, e: Event, ops: seq<LinkOp>, n: nat, o: Options)
    requires e.kind.Link? && n <= |ops|
    ensures var w := LinkedAll(v, e, ops, n, o); w.rootCreated == v.rootCreated && w.time == v.time
  {
    if n > 0 {
      LinksNoteNothing(v, e, ops, n - 1, o);
    }
  }

  /**
    For any merge of the ranks, complete or not, sound or not: what the converter writes before it
    stops can be read, so that it never pops an empty stack or uses a container that was not created or
    is destroyed.
   */
  lemma {:induction false} RunPlays(traces: seq<seq<Event>>, sched: seq<nat>, t: nat, v: View, o: Options)
    requires Traces(traces) && AllLifeCycles(traces) && Schedules(traces, sched) && t <= |sched|
    requires AllReadable(Merged(traces, sched)) && Reached(v, Merged(traces, sched), t, o)
    ensures Played(v.out).Some?
    decreases t
  {
    hide Translate, Traces, Schedules, AllLifeCycles, Merged, Played, Reached;
    var events := Merged(traces, sched);
    if Live(events, t, o) {
      var s := LiveRunPlays(traces, sched, t, v, o);
    } else {
      var w := Before(events, t, v, o);
      RunPlays(traces, sched, t - 1, w, o);
    }
  }

  lemma Before(events: seq<Event>, t: nat, v: View, o: Options) returns (w: View)
    requires t <= |events| && AllReadable(events) && Reached(v, events, t, o) && !Live(events, t, o)
    ensures t > 0 && v == w && Reached(w, events, t - 1, o)
  {
    hide Translate;
    w := Translated(events, t - 1, o);
  }

  // ----- The whole output -----

  /** No rank has begun its trace without ending it. */
  ghost predicate NoneHalfway(traces: seq<seq<Event>>, sched: seq<nat>, t: nat)
    requires t <= |sched|
  {
    forall r :: 0 <= r < |traces| ==> Count(sched, t, r) == 0 || Count(sched, t, r) == |traces[r]|
  }

  /** The root may be destroyed exactly when no process lives in it. */
  lemma RootMayGo(s: Scene, traces: seq<seq<Event>>, sched: seq<nat>, t: nat, o: Options)
    requires t <= |sched| && AllLifeCycles(traces) && SceneOk(s, traces, sched, t, true, o)
    ensures "root" in s.alive && s.alive["root"].depth == 0
    ensures Childless(s, "root") <==> NoneHalfway(traces, sched, t)
  {
    hide ProcessName;
    forall r: nat | r < |traces|
      ensures ProcessName(r) in s.alive <==> Count(sched, t, r) != 0 && Count(sched, t, r) != |traces[r]|
      ensures ProcessName(r) in s.alive ==> s.alive[ProcessName(r)].parent == "root"
    {
      assert RankAt(s, traces, sched, t, r, o) && LifeCycle(traces[r]);
    }
    forall name | name in s.alive && s.alive[name].parent == "root"
      ensures IsProcess(|traces|, name)
    {
      assert "0" != "root";
    }
  }

  /** The record that destroys the root can be read if it fits. */
  lemma RootReadable(v: View, s: Scene)
    requires Played(v.out) == Some(s) && "root" in s.alive && s.alive["root"].depth == 0
    ensures Played(Finished(v)).Some? <==> v.time < 0.0 || Childless(s, "root")
  {
    hide Played;
    if v.time < 0.0 {
      assert Finished(v) == v.out;
    } else {
      PlayedNext(v.out, DestroyContainer(v.time, "ROOT", "root"), s);
    }
  }

  lemma LiveOutput(traces: seq<seq<Event>>, sched: seq<nat>, t: nat, v: View, o: Options)
    requires Traces(traces) && AllLifeCycles(traces) && Schedules(traces, sched) && t <= |sched|
    requires AllReadable(Merged(traces, sched)) && Reached(v, Merged(traces, sched), t, o)
    requires Live(Merged(traces, sched), t, o)
    ensures Played(Finished(v)).Some? <==> v.time < 0.0 || NoneHalfway(traces, sched, t)
  {
    hide Traces, Schedules, AllLifeCycles, Merged, Played, RootOk, OnlyProcesses, Translate, RankAt;
    var s := LiveRunPlays(traces, sched, t, v, o);
    if t == 0 {
      assert Finished(v) == v.out;
    } else {
      RootMayGo(s, traces, sched, t, o);
      RootReadable(v, s);
    }
  }

  /** A record that fails is a link, in the middle of its rank's trace. */
  lemma FailedHalfway(traces: seq<seq<Event>>, sched: seq<nat>, t: nat, v: View, o: Options)
    requires Traces(traces) && AllLifeCycles(traces) && Schedules(traces, sched) && 0 < t <= |sched|
    requires AllReadable(Merged(traces, sched)) && Reached(v, Merged(traces, sched), t, o)
    requires Live(Merged(traces, sched), t, o) && v.fail
    ensures !NoneHalfway(traces, sched, t)
  {
    hide Traces, Schedules, Merged, OpsOf, LinkedAll;
    var events, r := Merged(traces, sched), sched[t - 1];
    var w := LastStep(v, events, t, o);
    MergedAt(traces, sched, t - 1);
    assert events[t - 1].kind.Link?;
    assert LifeCycle(traces[r]) && InPlace(traces[r], Place(sched, t - 1));
    assert Count(sched, t, r) == Place(sched, t - 1) + 1;
  }

  /** The failing record, if there is one. */
  lemma {:induction false} FirstFailure(events: seq<Event>, n: nat, o: Options) returns (t: nat)
    requires n <= |events| && AllReadable(events) && Translated(events, n, o).fail
    ensures 0 < t <= n && Live(events, t, o) && Reached(Translated(events, n, o), events, t, o)
  {
    hide Translate;
    if Translated(events, n - 1, o).fail {
      t := FirstFailure(events, n - 1, o);
    } else {
      t := n;
    }
  }

  /**
    When the whole output can be read.  After the last event the converter destroys the root, even if
    it stopped at a failure or the trace ends early; so the output makes sense to its end exactly when
    that record is not written, or when nothing failed and every rank that began also ended.
   */
  lemma OutputReadable(traces: seq<seq<Event>>, sched: seq<nat>, o: Options)
    requires Traces(traces) && AllLifeCycles(traces) && Schedules(traces, sched)
    ensures AllReadable(Merged(traces, sched))
    ensures var v := Translated(Merged(traces, sched), |sched|, o);
            Played(Output(Merged(traces, sched), o)).Some? <==>
            v.time < 0.0 || (!v.fail && NoneHalfway(traces, sched, |sched|))
  {
    hide Traces, Schedules, AllLifeCycles, Merged, Played, NoneHalfway, Translate;
    MergedReadable(traces, sched);
    var events := Merged(traces, sched);
    var v := Translated(events, |sched|, o);
    if v.fail {
      var t := FirstFailure(events, |sched|, o);
      FailedHalfway(traces, sched, t, v, o);
      LiveOutput(traces, sched, t, v, o);
    } else {
      StillLive(events, |sched|, o);
      LiveOutput(traces, sched, |sched|, v, o);
    }
  }

  // ----- A complete run -----

  /** When every record of every rank has been translated, all processes are gone and only the root lives. */
  lemma OnlyRootLeft(s: Scene, traces: seq<seq<Event>>, sched: seq<nat>, o: Options)
    requires AllLifeCycles(traces) && Complete(traces, sched) && |sched| > 0
    requires SceneOk(s, traces, sched, |sched|, true, o)
    ensures s.alive == map["root" := Container("0", 0)]
    ensures forall r: nat :: r < |traces| ==> ProcessName(r) in s.gone
    ensures forall name :: name in s.gone ==> IsProcess(|traces|, name)
  {
    hide ProcessName;
    forall r: nat | r < |traces|
      ensures ProcessName(r) in s.gone && ProcessName(r) !in s.alive
    {
      assert RankAt(s, traces, sched, |sched|, r, o) && LifeCycle(traces[r]);
    }
    forall name | name in s.alive
      ensures name == "root"
    {
      assert name != "root" ==> IsProcess(|traces|, name);
    }
    forall name | name in s.gone
      ensures IsProcess(|traces|, name)
    {
    }
  }

  lemma RootGoesLast(v: View, s: Scene)
    requires Played(v.out) == Some(s) && s.alive == map["root" := Container("0", 0)] && v.time >= 0.0
    ensures Played(Finished(v)) == Some(Scene(map[], s.gone + {"root"}))
  {
    hide Played;
    var destroy := DestroyContainer(v.time, "ROOT", "root");
    assert Childless(s, "root") by {
      assert "0" != "root";
    }
    PlayedNext(v.out, destroy, s);
    assert s.alive - {"root"} == map[];
  }

  /**
    A complete run in which no link fails, and whose last record is at a time that is not negative:
    the output can be read to its end, where nothing lives any more, and exactly the root and the
    processes have been.
   */
  lemma CompleteRunPlays(traces: seq<seq<Event>>, sched: seq<nat>, o: Options)
    requires Traces(traces) && AllLifeCycles(traces) && Complete(traces, sched) && |sched| > 0
    requires AllReadable(Merged(traces, sched))
    requires var v := Translated(Merged(traces, sched), |sched|, o); !v.fail && v.time >= 0.0
    ensures var played := Played(Output(Merged(traces, sched), o));
            && played.Some? && played.value.alive == map[] && "root" in played.value.gone
            && (forall r: nat :: r < |traces| ==> ProcessName(r) in played.value.gone)
            && (forall name :: name in played.value.gone ==> name == "root" || IsProcess(|traces|, name))
  {
    hide Translate, Traces, Schedules, AllLifeCycles, Merged, Played, SceneOk, ProcessName, Complete, IsProcess;
    CompleteSchedules(traces, sched);
    var events := Merged(traces, sched);
    var v := Translated(events, |sched|, o);
    StillLive(events, |sched|, o);
    var s := LiveRunPlays(traces, sched, |sched|, v, o);
    SceneRoot(s, traces, sched, v.rootCreated, o);
    OnlyRootLeft(s, traces, sched, o);
    RootGoesLast(v, s);
  }

  /** The converter's time is that of some record, once there was one. */
  lemma {:induction false} TimeNotNegative(events: seq<Event>, n: nat, o: Options)
    requires 0 < n <= |events| && AllReadable(events) && forall i :: 0 <= i < |events| ==> events[i].time >= 0.0
    ensures Translated(events, n, o).time >= 0.0
  {
    hide Translate;
    var w := Translated(events, n - 1, o);
    if w.fail {
      TimeNotNegative(events, n - 1, o);
    } else {
      TimeNoted(w, events[n - 1], o);
    }
  }

  lemma TimeNoted(v: View, e: Event, o: Options)
    requires Readable(e)
    ensures Translate(v, e, o).time == e.time
  {
    hide OpsOf;
    if e.kind.Link? && !o.noLinks {
      LinksNoteNothing(v.(time := e.time), e, OpsOf(e), |OpsOf(e)|, o);
    }
  }

  lemma CompleteSchedules(traces: seq<seq<Event>>, sched: seq<nat>)
    requires Complete(traces, sched)
    ensures Schedules(traces, sched)
  {
  }

  lemma StillLive(events: seq<Event>, n: nat, o: Options)
    requires n <= |events| && AllReadable(events) && !Translated(events, n, o).fail
    ensures Live(events, n, o)
  {
    hide Translate;
  }

  lemma SceneRoot(s: Scene, traces: seq<seq<Event>>, sched: seq<nat>, rootCreated: bool, o: Options)
    requires SceneOk(s, traces, sched, |sched|, rootCreated, o) && |sched| > 0
    ensures rootCreated
  {
  }
}
