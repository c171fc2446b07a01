/**
  Interleavings: the records of several ranks merged into one stream that keeps the order of each rank.
 */
module Merges {

  /** How often r occurs among the first n entries of a schedule. */
  function Count(sched: seq<nat>, n: nat, r: nat): nat
    requires n <= |sched|
  {
    if n == 0 then 0 else Count(sched, n - 1, r) + if sched[n - 1] == r then 1 else 0
  }

  /** The place of the t-th merged record in the trace of its rank. */
  function Place(sched: seq<nat>, t: nat): nat
    requires t < |sched|
  {
    Count(sched, t, sched[t])
  }

  /** Every entry takes the next record of a rank that has one. */
  ghost predicate Schedules<T>(traces: seq<seq<T>>, sched: seq<nat>) {
    forall t :: 0 <= t < |sched| ==> InTraces(traces, sched, t)
  }

  predicate InTraces<T>(traces: seq<seq<T>>, sched: seq<nat>, t: nat)
    requires t < |sched|
  {
    sched[t] < |traces| && Place(sched, t) < |traces[sched[t]]|
  }

  function RecordAt<T>(traces: seq<seq<T>>, sched: seq<nat>, t: nat): T
    requires t < |sched| && InTraces(traces, sched, t)
  {
    traces[sched[t]][Place(sched, t)]
  }

  function Merged<T>(traces: seq<seq<T>>, sched: seq<nat>): (all: seq<T>)
    requires Schedules(traces, sched)
    ensures |all| == |sched|
  {
    seq(|sched|, t requires 0 <= t < |sched| && InTraces(traces, sched, t) => RecordAt(traces, sched, t))
  }

  /** All records of all ranks are merged. */
  ghost predicate Complete<T>(traces: seq<seq<T>>, sched: seq<nat>) {
    Schedules(traces, sched) && forall r :: 0 <= r < |traces| ==> Count(sched, |sched|, r) == |traces[r]|
  }

  lemma {:induction false} CountGrows(sched: seq<nat>, m: nat, n: nat, r: nat)
    requires m <= n <= |sched|
    ensures Count(sched, m, r) <= Count(sched, n, r)
  {
    if m < n {
      CountGrows(sched, m, n - 1, r);
    }
  }

  /** Records of one rank are merged in their order. */
  lemma OrderKept(sched: seq<nat>, t: nat, u: nat)
    requires t < u < |sched| && sched[t] == sched[u]
    ensures Place(sched, t) < Place(sched, u)
  {
    CountGrows(sched, t + 1, u, sched[t]);
  }

  /** Of each rank, no more records are merged than it has. */
  lemma {:induction false} CountInTrace<T>(traces: seq<seq<T>>, sched: seq<nat>, n: nat, r: nat)
    requires Schedules(traces, sched) && n <= |sched| && r < |traces|
    ensures Count(sched, n, r) <= |traces[r]|
  {
    if n > 0 {
      CountInTrace(traces, sched, n - 1, r);
      assert InTraces(traces, sched, n - 1);
    }
  }

  /** The i-th record of rank r has been merged once more than i of them have. */
  lemma {:induction false} Placed(sched: seq<nat>, n: nat, r: nat, i: nat) returns (t: nat)
    requires n <= |sched| && i < Count(sched, n, r)
    ensures t < n && sched[t] == r && Place(sched, t) == i
  {
    if i < Count(sched, n - 1, r) {
      t := Placed(sched, n - 1, r, i);
    } else {
      t := n - 1;
    }
  }
}
