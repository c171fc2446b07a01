/**
  What is created from a hostfile, told from the fields of its lines: field j of a line is a container of
  type Lj inside field j + 1, the cluster one of type L0 inside field 1, the host one of type H inside
  the cluster; each where its name occurs first.
 */
module HostfileLevels {
  import opened Wrappers
  import opened KeyNames
  import opened Tokenizer
  import opened Hostfile
  import opened HostfileNesting

  function Fields(line: string): seq<string> {
    Tokens(line, '.')
  }

  /** What is in front of the dash of the first field. */
  function Cluster(line: string, depth: nat): string
    requires Proper(line, depth)
  {
    Tokens(Fields(line)[0], '-')[0]
  }

  predicate OnLine(line: string, depth: nat, name: string)
    requires Proper(line, depth)
  {
    name in Fields(line) || name == Cluster(line, depth)
  }

  /** No line before line i has the name, and no field of it behind field j. */
  ghost predicate NewAt(lines: seq<string>, depth: nat, i: nat, j: nat, name: string)
    requires AllProper(lines, depth) && i < |lines|
  {
    && (forall k :: 0 <= k < i ==> Proper(lines[k], depth) && !OnLine(lines[k], depth, name))
    && Proper(lines[i], depth) && forall k :: j < k < depth ==> Fields(lines[i])[k] != name
  }

  /** Line i is the first to ask for the container, at one of its fields, for its cluster, or for its host. */
  ghost predicate Asks(lines: seq<string>, depth: nat, i: nat, d: Definition)
    requires AllProper(lines, depth) && i < |lines|
  {
    assert Proper(lines[i], depth);
    AsksForField(lines, depth, i, d) || AsksForCluster(lines, depth, i, d) || AsksForHost(lines, depth, i, d)
  }

  ghost predicate AsksForField(lines: seq<string>, depth: nat, i: nat, d: Definition)
    requires AllProper(lines, depth) && i < |lines| && Proper(lines[i], depth)
  {
    exists j: nat :: 0 < j < depth && IsField(lines, depth, i, j, d)
  }

  ghost predicate IsField(lines: seq<string>, depth: nat, i: nat, j: nat, d: Definition)
    requires AllProper(lines, depth) && i < |lines| && Proper(lines[i], depth) && 0 < j < depth
  {
    var fields := Fields(lines[i]);
    && d == Create(fields[j], "L" + Digits(j), if j + 1 < depth then fields[j + 1] else "0")
    && NewAt(lines, depth, i, j, fields[j])
  }

  ghost predicate AsksForCluster(lines: seq<string>, depth: nat, i: nat, d: Definition)
    requires AllProper(lines, depth) && i < |lines| && Proper(lines[i], depth)
  {
    var cluster := Cluster(lines[i], depth);
    d == Create(cluster, "L0", Fields(lines[i])[1]) && NewAt(lines, depth, i, 0, cluster)
  }

  ghost predicate AsksForHost(lines: seq<string>, depth: nat, i: nat, d: Definition)
    requires AllProper(lines, depth) && i < |lines| && Proper(lines[i], depth)
  {
    var host, cluster := Fields(lines[i])[0], Cluster(lines[i], depth);
    d == Create(host, "H", cluster) && NewAt(lines, depth, i, 0, host) && host != cluster
  }

  // ----- Levels and fields -----

  /** The name at a level: the last field is at the top. */
  lemma LevelName(line: string, depth: nat, a: nat)
    requires Proper(line, depth) && a <= depth
    ensures ChainOf(line, depth)[a] ==
            if a < depth - 1 then Fields(line)[depth - 1 - a]
            else if a == depth - 1 then Cluster(line, depth) else Fields(line)[0]
  {
  }

  lemma OnSomeLevel(line: string, depth: nat, name: string)
    requires Proper(line, depth)
    ensures OnLine(line, depth, name) <==> exists a :: 0 <= a <= depth && ChainOf(line, depth)[a] == name
  {
    hide ChainOf;
    if OnLine(line, depth, name) {
      if name == Cluster(line, depth) {
        LevelName(line, depth, depth - 1);
      } else {
        var j: nat :| j < depth && Fields(line)[j] == name;
        LevelName(line, depth, if j > 0 then depth - 1 - j else depth);
      }
    }
    forall a | 0 <= a <= depth && ChainOf(line, depth)[a] == name
      ensures OnLine(line, depth, name)
    {
      LevelName(line, depth, a);
    }
  }

  /** No level of the line above level a has the name. */
  ghost predicate NoneAbove(line: string, depth: nat, a: nat, name: string)
    requires Proper(line, depth) && a <= depth
  {
    forall b :: 0 <= b < a ==> ChainOf(line, depth)[b] != name
  }

  lemma NoneAboveFields(line: string, depth: nat, a: nat, name: string)
    requires Proper(line, depth) && a <= depth
    ensures NoneAbove(line, depth, a, name) <==>
            && (forall k :: 0 < k < depth && depth - 1 - a < k ==> Fields(line)[k] != name)
            && (a == depth ==> Cluster(line, depth) != name)
  {
    hide ChainOf;
    forall b | 0 <= b <= depth
      ensures ChainOf(line, depth)[b] ==
              if b < depth - 1 then Fields(line)[depth - 1 - b]
              else if b == depth - 1 then Cluster(line, depth) else Fields(line)[0]
    {
      LevelName(line, depth, b);
    }
    if NoneAbove(line, depth, a, name) {
      forall k | 0 < k < depth && depth - 1 - a < k
        ensures Fields(line)[k] != name
      {
        assert ChainOf(line, depth)[depth - 1 - k] == Fields(line)[k];
      }
      if a == depth {
        assert ChainOf(line, depth)[depth - 1] == Cluster(line, depth);
      }
    }
  }

  // ----- First places -----

  /** The name is at level a of line i, and nowhere before. */
  ghost predicate IsFirst(lines: seq<string>, depth: nat, i: nat, a: nat, name: string)
    requires AllProper(lines, depth)
  {
    && i < |lines| && a <= depth && At(lines, depth, i, a, name)
    && (forall k :: 0 <= k < i ==> Proper(lines[k], depth) && !OnLine(lines[k], depth, name))
    && Proper(lines[i], depth) && NoneAbove(lines[i], depth, a, name)
  }

  /** What is found first is not found before. */
  lemma {:induction false} FirstIsFirst(lines: seq<string>, n: nat, depth: nat, name: string, i: nat, a: nat)
    requires AllProper(lines, depth) && i < n <= |lines| && a <= depth && At(lines, depth, i, a, name)
    ensures FirstPlace(lines, n, depth, name).Some?
    ensures var (j, b) := FirstPlace(lines, n, depth, name).value; j < i || (j == i && b <= a)
    decreases n
  {
    hide ChainOf, Proper, OnLine;
    assert Proper(lines[n - 1], depth);
    if i < n - 1 {
      FirstIsFirst(lines, n - 1, depth, name, i, a);
    } else {
      LevelFound(ChainOf(lines[i], depth), depth + 1, a);
      if FirstPlace(lines, n - 1, depth, name).Some? {
        FirstIsThere(lines, n - 1, depth, name);
      }
    }
  }

  lemma FirstPlaceIs(lines: seq<string>, depth: nat, i: nat, a: nat, name: string)
    requires AllProper(lines, depth) && i < |lines| && a <= depth
    ensures FirstPlace(lines, |lines|, depth, name) == Some((i, a)) <==> IsFirst(lines, depth, i, a, name)
  {
    hide ChainOf, Proper, OnLine, FirstPlace;
    assert Proper(lines[i], depth);
    if FirstPlace(lines, |lines|, depth, name) == Some((i, a)) {
      FirstIsThere(lines, |lines|, depth, name);
      forall k | 0 <= k < i
        ensures Proper(lines[k], depth) && !OnLine(lines[k], depth, name)
      {
        NotOn(lines, depth, k, i, a, name);
      }
      forall b | 0 <= b < a
        ensures ChainOf(lines[i], depth)[b] != name
      {
        if At(lines, depth, i, b, name) {
          FirstIsFirst(lines, |lines|, depth, name, i, b);
        }
      }
    }
    if IsFirst(lines, depth, i, a, name) {
      FirstIsFirst(lines, |lines|, depth, name, i, a);
      FirstIsThere(lines, |lines|, depth, name);
      var (j, b) := FirstPlace(lines, |lines|, depth, name).value;
      assert Proper(lines[j], depth);
      OnSomeLevel(lines[j], depth, name);
    }
  }

  lemma NotOn(lines: seq<string>, depth: nat, k: nat, i: nat, a: nat, name: string)
    requires AllProper(lines, depth) && k < i < |lines| && FirstPlace(lines, |lines|, depth, name) == Some((i, a))
    ensures Proper(lines[k], depth) && !OnLine(lines[k], depth, name)
  {
    hide ChainOf, Proper, OnLine, FirstPlace;
    assert Proper(lines[k], depth);
    OnSomeLevel(lines[k], depth, name);
    if OnLine(lines[k], depth, name) {
      var b :| 0 <= b <= depth && ChainOf(lines[k], depth)[b] == name;
      FirstIsFirst(lines, |lines|, depth, name, k, b);
    }
  }

  // ----- The containers -----

  /** A container asked for at a level, in terms of the fields. */
  lemma AskedAt(lines: seq<string>, depth: nat, i: nat, a: nat)
    requires AllProper(lines, depth) && i < |lines| && a <= depth
    ensures var d := CreateAt(lines, depth, i, a);
            IsFirst(lines, depth, i, a, d.name) ==> Asks(lines, depth, i, d)
  {
    hide Digits, Tokens, OnLine;
    assert Proper(lines[i], depth);
    var d := CreateAt(lines, depth, i, a);
    if IsFirst(lines, depth, i, a, d.name) {
      hide ChainOf;
      LevelName(lines[i], depth, a);
      NoneAboveFields(lines[i], depth, a, d.name);
      if a > 0 {
        LevelName(lines[i], depth, a - 1);
      }
      if a < depth - 1 {
        assert IsField(lines, depth, i, depth - 1 - a, d);
      } else if a == depth - 1 {
        LevelZero();
      }
    }
  }

  lemma LevelZero()
    ensures "L" + Digits(0) == "L0"
  {
  }

  /** What a line asks for is created there. */
  lemma AskedLevel(lines: seq<string>, depth: nat, i: nat, d: Definition) returns (a: nat)
    requires AllProper(lines, depth) && i < |lines| && Asks(lines, depth, i, d)
    ensures a <= depth && d == CreateAt(lines, depth, i, a) && IsFirst(lines, depth, i, a, d.name)
  {
    hide CreateAt, IsFirst, NewAt, Cluster;
    assert Proper(lines[i], depth);
    if AsksForField(lines, depth, i, d) {
      var j: nat :| 0 < j < depth && IsField(lines, depth, i, j, d);
      a := depth - 1 - j;
      FieldLevel(lines, depth, i, j, d);
    } else if AsksForCluster(lines, depth, i, d) {
      a := depth - 1;
      ClusterLevel(lines, depth, i, d);
    } else {
      a := depth;
      HostLevel(lines, depth, i, d);
    }
  }

  lemma FieldLevel(lines: seq<string>, depth: nat, i: nat, j: nat, d: Definition)
    requires AllProper(lines, depth) && i < |lines| && Proper(lines[i], depth) && 0 < j < depth && IsField(lines, depth, i, j, d)
    ensures d == CreateAt(lines, depth, i, depth - 1 - j) && IsFirst(lines, depth, i, depth - 1 - j, d.name)
  {
    hide Digits, Tokens, OnLine, ChainOf;
    LevelName(lines[i], depth, depth - 1 - j);
    if j + 1 < depth {
      LevelName(lines[i], depth, depth - 2 - j);
    }
    NoneAboveFields(lines[i], depth, depth - 1 - j, d.name);
  }

  lemma ClusterLevel(lines: seq<string>, depth: nat, i: nat, d: Definition)
    requires AllProper(lines, depth) && i < |lines| && Proper(lines[i], depth) && AsksForCluster(lines, depth, i, d)
    ensures d == CreateAt(lines, depth, i, depth - 1) && IsFirst(lines, depth, i, depth - 1, d.name)
  {
    hide Digits, Tokens, OnLine, ChainOf, Cluster;
    LevelZero();
    LevelName(lines[i], depth, depth - 1);
    LevelName(lines[i], depth, depth - 2);
    NoneAboveFields(lines[i], depth, depth - 1, d.name);
  }

  lemma HostLevel(lines: seq<string>, depth: nat, i: nat, d: Definition)
    requires AllProper(lines, depth) && i < |lines| && Proper(lines[i], depth) && AsksForHost(lines, depth, i, d)
    ensures d == CreateAt(lines, depth, i, depth) && IsFirst(lines, depth, i, depth, d.name)
  {
    hide Digits, Tokens, OnLine, ChainOf, Cluster;
    LevelName(lines[i], depth, depth);
    LevelName(lines[i], depth, depth - 1);
    NoneAboveFields(lines[i], depth, depth, d.name);
  }

  /** The containers created from a file are exactly those that its lines ask for, each where its name occurs first. */
  lemma ContainersExactly(lines: seq<string>, depth: nat, d: Definition)
    requires AllProper(lines, depth) && d.Create?
    ensures d in Built(lines, |lines|, depth).out <==> exists i :: 0 <= i < |lines| && Asks(lines, depth, i, d)
  {
    hide Built, CreateAt, FirstPlace, IsFirst, Asks;
    if d in Built(lines, |lines|, depth).out {
      NameOfCreate(lines, depth, d);
      var (i, a) := FirstPlace(lines, |lines|, depth, d.name).value;
      FirstPlaceIs(lines, depth, i, a, d.name);
      AskedAt(lines, depth, i, a);
    }
    forall i | 0 <= i < |lines| && Asks(lines, depth, i, d)
      ensures d in Built(lines, |lines|, depth).out
    {
      var a := AskedLevel(lines, depth, i, d);
      FirstPlaceIs(lines, depth, i, a, d.name);
      AboveIsCreated(lines, depth, d.name);
    }
  }

  /** The list of hosts holds the first field of every line, in order. */
  lemma {:induction false} HostsListed(lines: seq<string>, n: nat, depth: nat)
    requires n <= |lines| && AllProper(lines, depth)
    ensures |Hosts(lines, n, depth)| == n
    ensures forall i :: 0 <= i < n ==> Fields(lines[i]) != [] && Hosts(lines, n, depth)[i] == Fields(lines[i])[0]
  {
    if n > 0 {
      HostsListed(lines, n - 1, depth);
      assert Proper(lines[n - 1], depth);
    }
  }

  // ----- The types -----

  /** The types of a hierarchy of `depth` fields, each with the one it is declared under. */
  predicate TypeOfDepth(depth: nat, name: string, parent: string) {
    || (name == "H" && parent == "L0")
    || exists j: nat :: j < depth && name == "L" + Digits(j) && parent == TypeAbove(depth, j)
  }

  function TypeAbove(depth: nat, j: nat): string {
    if j + 1 < depth then "L" + Digits(j + 1) else "0"
  }

  lemma {:induction false} PlacedDeclares(k: Known, depth: nat, chain: seq<string>, m: nat, a: nat)
    requires m <= |chain| && |chain| == depth + 1 && a < m
    ensures Kind(depth, a) in Placed(k, depth, chain, m).types
  {
    hide Kind, ParentKind, Parent;
    if a < m - 1 {
      PlacedDeclares(k, depth, chain, m - 1, a);
    }
  }

  lemma LevelDeclared(lines: seq<string>, depth: nat, a: nat)
    requires AllProper(lines, depth) && lines != [] && a <= depth
    ensures ContainerType(Kind(depth, a), ParentKind(depth, a)) in Built(lines, |lines|, depth).out
  {
    hide Kind, ParentKind, Proper, ChainOf, Placed;
    var n := |lines|;
    var k := Built(lines, n, depth);
    assert Proper(lines[n - 1], depth);
    PlacedDeclares(Built(lines, n - 1, depth), depth, ChainOf(lines[n - 1], depth), depth + 1, a);
    BuiltForest(lines, n, depth);
    BuiltTypes(lines, n, depth);
    assert DefinedBefore(k.out, |k.out|, Kind(depth, a), true);
    var p: nat :| p < |k.out| && Defines(k.out[p], Kind(depth, a), true);
    assert k.out[p] in k.out;
    OnlyContainerTypes(lines, n, depth);
    LevelTypeUnder(k.out, depth, a, k.out[p].parent);
  }

  /** The level of a type. */
  lemma TypeLevel(depth: nat, a: nat, name: string, parent: string)
    requires depth >= 2 && a <= depth
    ensures Kind(depth, a) == (if a == depth then "H" else "L" + Digits(depth - 1 - a))
    ensures ParentKind(depth, a) == (if a == depth then "L0" else TypeAbove(depth, depth - 1 - a))
  {
  }

  /** The types declared for a file are exactly these. */
  lemma TypesExactly(lines: seq<string>, depth: nat, name: string, parent: string)
    requires AllProper(lines, depth) && lines != []
    ensures ContainerType(name, parent) in Built(lines, |lines|, depth).out <==> TypeOfDepth(depth, name, parent)
  {
    hide Built, Kind, ParentKind, Digits, TypeAbove;
    var out := Built(lines, |lines|, depth).out;
    assert Proper(lines[0], depth);
    BuiltTypes(lines, |lines|, depth);
    if ContainerType(name, parent) in out {
      var a :| 0 <= a <= depth && IsLevelType(ContainerType(name, parent), depth, a);
      TypeLevel(depth, a, name, parent);
    }
    if name == "H" && parent == "L0" {
      TypeLevel(depth, depth, name, parent);
      LevelDeclared(lines, depth, depth);
    }
    forall j: nat | j < depth && name == "L" + Digits(j) && parent == TypeAbove(depth, j)
      ensures ContainerType(name, parent) in out
    {
      TypeLevel(depth, depth - 1 - j, name, parent);
      LevelDeclared(lines, depth, depth - 1 - j);
    }
  }
}
