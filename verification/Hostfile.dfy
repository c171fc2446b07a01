/**
  The hierarchy of containers and container types that is built from a hostfile, line by line.

  A line "cluster-host.site.grid" places the grid at the top, the site in it, the cluster in the site,
  and the host in the cluster; every name and every type is defined when it is met first.
 */
module Hostfile {
  import opened KeyNames
  import opened Tokenizer

  // ----- Definitions -----

  datatype Definition =
    | ContainerType(name: string, parent: string)
    | StateType(name: string, container: string)
    | LinkType(name: string, container: string, source: string, dest: string)
    | Create(name: string, kind: string, parent: string)

  /** The names met so far, and what was written. */
  datatype Known = Known(types: seq<string>, containers: seq<string>, out: seq<Definition>)

  const NOTHING := Known([], [], [])

  function Declared(k: Known, definition: Definition): Known {
    if definition.name in k.types then k
    else k.(types := k.types + [definition.name], out := k.out + [definition])
  }

  function Created(k: Known, name: string, kind: string, parent: string): Known {
    if name in k.containers then k
    else k.(containers := k.containers + [name], out := k.out + [Create(name, kind, parent)])
  }

  // ----- One line -----

  /** The names of a line from the top down to the host; the host's own field is "cluster-host". */
  function Chain(fields: seq<string>, cluster: string): (chain: seq<string>)
    requires |fields| >= 2
    ensures |chain| == |fields| + 1
  {
    var d := |fields|;
    seq(d + 1, i requires 0 <= i <= d =>
      if i < d - 1 then fields[d - 1 - i] else if i == d - 1 then cluster else fields[0])
  }

  /** The type of the i-th of them; `depth` is the number of fields. */
  function Kind(depth: nat, i: nat): string
    requires i <= depth
  {
    if i == depth then "H" else "L" + Digits(depth - 1 - i)
  }

  function ParentKind(depth: nat, i: nat): string
    requires i <= depth
  {
    if i == 0 then "0" else Kind(depth, i - 1)
  }

  function Parent(chain: seq<string>, i: nat): string
    requires i < |chain|
  {
    if i == 0 then "0" else chain[i - 1]
  }

  /** A level's type is declared, and its container created. */
  function PlacedAt(k: Known, depth: nat, chain: seq<string>, i: nat): Known
    requires i < |chain| && |chain| == depth + 1
  {
    Created(Declared(k, ContainerType(Kind(depth, i), ParentKind(depth, i))), chain[i], Kind(depth, i), Parent(chain, i))
  }

  /** The first n levels, from the top. */
  function Placed(k: Known, depth: nat, chain: seq<string>, n: nat): Known
    requires n <= |chain| && |chain| == depth + 1
  {
    if n == 0 then k else PlacedAt(Placed(k, depth, chain, n - 1), depth, chain, n - 1)
  }

  /** The cluster does not matter for the levels above it. */
  lemma {:induction false} ClusterBelow(k: Known, fields: seq<string>, cluster: string, n: nat)
    requires |fields| >= 2 && n <= |fields| - 1
    ensures Placed(k, |fields|, Chain(fields, cluster), n) == Placed(k, |fields|, Chain(fields, ""), n)
  {
    hide Declared, Created, Kind;
    if n > 0 {
      ClusterBelow(k, fields, cluster, n - 1);
    }
  }

  /** The cluster and the host are placed last. */
  lemma LastTwo(k: Known, fields: seq<string>, cluster: string)
    requires |fields| >= 2
    ensures var d, chain := |fields|, Chain(fields, cluster);
            Placed(k, d, chain, d + 1) ==
            Created(Declared(Created(Declared(Placed(k, d, chain, d - 1),
                                              ContainerType("L" + Digits(0), "L" + Digits(1))),
                                     cluster, "L" + Digits(0), fields[1]),
                             ContainerType("H", "L" + Digits(0))),
                    fields[0], "H", cluster)
  {
    hide Declared, Created, Digits;
    var d, chain := |fields|, Chain(fields, cluster);
    assert Placed(k, d, chain, d + 1) == PlacedAt(Placed(k, d, chain, d), d, chain, d);
    assert Placed(k, d, chain, d) == PlacedAt(Placed(k, d, chain, d - 1), d, chain, d - 1);
  }

  /** A line with as many fields as the others, the first of which is "cluster-host". */
  predicate Proper(line: string, depth: nat) {
    |Tokens(line, '.')| == depth >= 2 && |Tokens(Tokens(line, '.')[0], '-')| == 2
  }

  function ChainOf(line: string, depth: nat): (chain: seq<string>)
    requires Proper(line, depth)
    ensures |chain| == depth + 1
  {
    var fields := Tokens(line, '.');
    Chain(fields, Tokens(fields[0], '-')[0])
  }

  function HostOf(line: string, depth: nat): string
    requires Proper(line, depth)
  {
    Tokens(line, '.')[0]
  }

  predicate AllProper(lines: seq<string>, depth: nat) {
    forall i :: 0 <= i < |lines| ==> Proper(lines[i], depth)
  }

  /** The first n lines. */
  function Built(lines: seq<string>, n: nat, depth: nat): Known
    requires n <= |lines| && AllProper(lines, depth)
  {
    if n == 0 then NOTHING
    else
      assert Proper(lines[n - 1], depth);
      Placed(Built(lines, n - 1, depth), depth, ChainOf(lines[n - 1], depth), depth + 1)
  }

  // ----- The reader -----

  /** nf_type_declared */
  method TypeDeclared(types: seq<string>, name: string) returns (found: bool)
    ensures found <==> name in types
  {
    for i := 0 to |types|
      invariant name !in types[..i]
    {
      if types[i] == name {
        return true;
      }
    }
    found := false;
  }

  class Hierarchy {
    var types: seq<string>
    var containers: seq<string>
    var hostnames: seq<string>
    /** The number of fields of the first line, -1 before it was read. */
    var depth: int
    var out: seq<Definition>

    ghost function State(): Known
      reads this
    {
      Known(types, containers, out)
    }

    constructor ()
      ensures State() == NOTHING && hostnames == [] && depth == -1
    {
      types, containers, hostnames, depth, out := [], [], [], -1, [];
    }

    /** nf_container_type_declare, nf_state_type_declare and nf_link_type_declare */
    method DeclareType(definition: Definition)
      modifies `types, `out
      ensures State() == Declared(old(State()), definition)
    {
      var found := TypeDeclared(types, definition.name);
      if found {
        return;
      }
      types := types + [definition.name];
      out := out + [definition];
    }

    method CreateContainer(name: string, kind: string, parent: string)
      modifies `containers, `out
      ensures State() == Created(old(State()), name, kind, parent)
    {
      for i := 0 to |containers|
        invariant name !in containers[..i]
      {
        if containers[i] == name {
          return;
        }
      }
      containers := containers + [name];
      out := out + [Create(name, kind, parent)];
    }

    /** A level: its type is declared, its container created. */
    method Place(kind: string, parentKind: string, name: string, parent: string)
      modifies `types, `containers, `out
      ensures State() == Created(Declared(old(State()), ContainerType(kind, parentKind)), name, kind, parent)
    {
      DeclareType(ContainerType(kind, parentKind));
      CreateContainer(name, kind, parent);
    }

    /** The fields above the cluster, from the last one down. */
    method PlaceHierarchy(fields: seq<string>)
      requires |fields| >= 2
      modifies `types, `containers, `out
      ensures State() == Placed(old(State()), |fields|, Chain(fields, ""), |fields| - 1)
    {
      hide Digits;
      var d := |fields|;
      for j := d downto 1
        invariant State() == Placed(old(State()), d, Chain(fields, ""), d - j)
      {
        var top := j + 1 == d;
        Place("L" + Digits(j), if top then "0" else "L" + Digits(j + 1),
              fields[j], if top then "0" else fields[j + 1]);
      }
    }

    /** One line; false when the program ends because of it. */
    method ReadLine(line: string) returns (ok: bool)
      requires depth == -1 || depth == |Tokens(line, '.')| ==> |Tokens(line, '.')| >= 2
      modifies this
      ensures old(depth) != -1 && old(depth) != |Tokens(line, '.')| ==> !ok
      ensures old(depth) == -1 || old(depth) == |Tokens(line, '.')| ==>
        && depth == |Tokens(line, '.')|
        && (ok <==> Proper(line, depth))
        && (ok ==> && State() == Placed(old(State()), depth, ChainOf(line, depth), depth + 1)
                   && hostnames == old(hostnames) + [HostOf(line, depth)])
    {
      hide PlacedAt, Digits;
      var fields := Tokens(line, '.');
      if depth == -1 {
        depth := |fields|;
      } else if depth != |fields| {
        return false;
      }
      PlaceHierarchy(fields);
      var cluster := Tokens(fields[0], '-');
      if |cluster| != 2 {
        return false;
      }
      ClusterBelow(old(State()), fields, cluster[0], |fields| - 1);
      Place("L" + Digits(0), "L" + Digits(1), cluster[0], fields[1]);
      Place("H", "L" + Digits(0), fields[0], cluster[0]);
      LastTwo(old(State()), fields, cluster[0]);
      hostnames := hostnames + [fields[0]];
      ok := true;
    }
  }

  /** The lines of a file until one ends the program. */
  method ReadFile(lines: seq<string>) returns (h: Hierarchy, ok: bool)
    requires lines != [] ==> |Tokens(lines[0], '.')| >= 2
    ensures fresh(h)
    ensures ok <==> lines == [] || AllProper(lines, |Tokens(lines[0], '.')|)
    ensures ok && lines != [] ==>
      var depth := |Tokens(lines[0], '.')|;
      h.State() == Built(lines, |lines|, depth) && h.hostnames == Hosts(lines, |lines|, depth)
  {
    hide Proper, Placed;
    h := new Hierarchy();
    if lines == [] {
      return h, true;
    }
    ghost var depth := |Tokens(lines[0], '.')|;
    for i := 0 to |lines|
      invariant fresh(h) && h.depth == (if i == 0 then -1 else depth)
      invariant AllProper(lines[..i], depth)
      invariant h.State() == Built(lines[..i], i, depth) && h.hostnames == Hosts(lines[..i], i, depth)
    {
      ok := h.ReadLine(lines[i]);
      if !ok {
        ProperFields(lines[i], depth);
        assert !Proper(lines[i], depth);
        return;
      }
      ProperFields(lines[i], depth);
      assert lines[..i + 1] == lines[..i] + [lines[i]];
      assert forall k :: 0 <= k < i ==> Proper(lines[..i][k], depth) && lines[..i + 1][k] == lines[..i][k];
      BuiltPrefix(lines[..i], [lines[i]], i, depth);
    }
    assert lines[..|lines|] == lines;
    ok := true;
  }

  lemma ProperFields(line: string, depth: nat)
    ensures Proper(line, depth) ==> |Tokens(line, '.')| == depth
  {
  }

  /** The hosts of the first n lines. */
  function Hosts(lines: seq<string>, n: nat, depth: nat): seq<string>
    requires n <= |lines| && AllProper(lines, depth)
  {
    if n == 0 then []
    else
      assert Proper(lines[n - 1], depth);
      Hosts(lines, n - 1, depth) + [HostOf(lines[n - 1], depth)]
  }

  lemma {:induction false} BuiltPrefix(a: seq<string>, b: seq<string>, n: nat, depth: nat)
    requires n <= |a| && AllProper(a, depth) && AllProper(a + b, depth)
    ensures Built(a + b, n, depth) == Built(a, n, depth) && Hosts(a + b, n, depth) == Hosts(a, n, depth)
  {
    hide Proper, Placed;
    if n > 0 {
      BuiltPrefix(a, b, n - 1, depth);
      assert (a + b)[n - 1] == a[n - 1] && Proper(a[n - 1], depth);
    }
  }

  // ----- The forest -----

  /** Some definition before position n, of a type or of a container, has this name. */
  ghost predicate DefinedBefore(out: seq<Definition>, n: nat, name: string, asType: bool)
    requires n <= |out|
  {
    exists j :: 0 <= j < n && Defines(out[j], name, asType)
  }

  predicate Defines(d: Definition, name: string, asType: bool) {
    d.name == name && d.Create? == !asType
  }

  /** A definition is the first of its name, and what it refers to is defined before it. */
  ghost predicate WellPlaced(out: seq<Definition>, i: nat)
    requires i < |out|
  {
    && !DefinedBefore(out, i, out[i].name, !out[i].Create?)
    && match out[i]
       case ContainerType(_, parent) => parent == "0" || DefinedBefore(out, i, parent, true)
       case Create(_, kind, parent) =>
         DefinedBefore(out, i, kind, true) && (parent == "0" || DefinedBefore(out, i, parent, false))
       case _ => true
  }

  /** Every definition is well placed, and the two lists hold the names defined. */
  ghost predicate Forest(k: Known) {
    && (forall i :: 0 <= i < |k.out| ==> WellPlaced(k.out, i))
    && (forall name :: name in k.types <==> DefinedBefore(k.out, |k.out|, name, true))
    && (forall name :: name in k.containers <==> DefinedBefore(k.out, |k.out|, name, false))
  }

  lemma DefinedExtend(out: seq<Definition>, d: Definition, n: nat, name: string, asType: bool)
    requires n <= |out|
    ensures DefinedBefore(out + [d], n, name, asType) <==> DefinedBefore(out, n, name, asType)
    ensures DefinedBefore(out + [d], |out| + 1, name, asType) <==>
            DefinedBefore(out, |out|, name, asType) || Defines(d, name, asType)
  {
    var longer := out + [d];
    assert forall j :: 0 <= j < |out| ==> longer[j] == out[j];
    assert longer[|out|] == d;
  }

  lemma WellPlacedExtend(out: seq<Definition>, d: Definition, i: nat)
    requires i < |out| && WellPlaced(out, i)
    ensures WellPlaced(out + [d], i)
  {
    hide DefinedBefore;
    forall name, asType
      ensures DefinedBefore(out + [d], i, name, asType) <==> DefinedBefore(out, i, name, asType)
    {
      DefinedExtend(out, d, i, name, asType);
    }
  }

  lemma ForestGrows(k: Known, d: Definition, types: seq<string>, containers: seq<string>)
    requires Forest(k)
    requires types == (if d.Create? then k.types else k.types + [d.name])
    requires containers == (if d.Create? then k.containers + [d.name] else k.containers)
    requires WellPlaced(k.out + [d], |k.out|)
    ensures Forest(Known(types, containers, k.out + [d]))
  {
    hide WellPlaced, DefinedBefore;
    var out := k.out + [d];
    forall i | 0 <= i < |out|
      ensures WellPlaced(out, i)
    {
      if i < |k.out| {
        WellPlacedExtend(k.out, d, i);
      }
    }
    forall name, asType
      ensures DefinedBefore(out, |out|, name, asType) <==>
              DefinedBefore(k.out, |k.out|, name, asType) || Defines(d, name, asType)
    {
      DefinedExtend(k.out, d, 0, name, asType);
    }
    ForestKnown(Known(types, containers, out), k, d);
  }

  lemma ForestKnown(k: Known, before: Known, d: Definition)
    requires Forest(before) && k.out == before.out + [d]
    requires k.types == (if d.Create? then before.types else before.types + [d.name])
    requires k.containers == (if d.Create? then before.containers + [d.name] else before.containers)
    requires forall i :: 0 <= i < |k.out| ==> WellPlaced(k.out, i)
    requires forall name, asType :: DefinedBefore(k.out, |k.out|, name, asType) <==>
               DefinedBefore(before.out, |before.out|, name, asType) || Defines(d, name, asType)
    ensures Forest(k)
  {
    hide WellPlaced, DefinedBefore;
    forall name
      ensures name in k.types <==> DefinedBefore(k.out, |k.out|, name, true)
      ensures name in k.containers <==> DefinedBefore(k.out, |k.out|, name, false)
    {
      assert name in before.types <==> DefinedBefore(before.out, |before.out|, name, true);
      assert name in before.containers <==> DefinedBefore(before.out, |before.out|, name, false);
    }
  }

  lemma DeclaredForest(k: Known, name: string, parent: string)
    requires Forest(k) && (parent == "0" || parent in k.types)
    ensures Forest(Declared(k, ContainerType(name, parent))) && name in Declared(k, ContainerType(name, parent)).types
  {
    hide DefinedBefore;
    if name !in k.types {
      var d := ContainerType(name, parent);
      DefinedExtend(k.out, d, |k.out|, name, true);
      DefinedExtend(k.out, d, |k.out|, parent, true);
      ForestGrows(k, d, k.types + [name], k.containers);
    }
  }

  lemma CreatedForest(k: Known, name: string, kind: string, parent: string)
    requires Forest(k) && kind in k.types && (parent == "0" || parent in k.containers)
    ensures Forest(Created(k, name, kind, parent)) && name in Created(k, name, kind, parent).containers
  {
    hide DefinedBefore;
    if name !in k.containers {
      var d := Create(name, kind, parent);
      DefinedExtend(k.out, d, |k.out|, name, false);
      DefinedExtend(k.out, d, |k.out|, kind, true);
      DefinedExtend(k.out, d, |k.out|, parent, false);
      ForestGrows(k, d, k.types, k.containers + [name]);
    }
  }

  lemma {:induction false} PlacedForest(k: Known, depth: nat, chain: seq<string>, n: nat)
    requires Forest(k) && n <= |chain| && |chain| == depth + 1
    ensures Forest(Placed(k, depth, chain, n))
    ensures n > 0 ==> chain[n - 1] in Placed(k, depth, chain, n).containers && Kind(depth, n - 1) in Placed(k, depth, chain, n).types
  {
    hide Forest, Kind;
    if n > 0 {
      PlacedForest(k, depth, chain, n - 1);
      var before := Placed(k, depth, chain, n - 1);
      DeclaredForest(before, Kind(depth, n - 1), ParentKind(depth, n - 1));
      var declared := Declared(before, ContainerType(Kind(depth, n - 1), ParentKind(depth, n - 1)));
      CreatedForest(declared, chain[n - 1], Kind(depth, n - 1), Parent(chain, n - 1));
    }
  }

  lemma NothingIsForest()
    ensures Forest(NOTHING)
  {
  }

  /**
    From any number of lines: every type and every container is defined once, under "0" or under one
    defined strictly before it.
   */
  lemma {:induction false} BuiltForest(lines: seq<string>, n: nat, depth: nat)
    requires n <= |lines| && AllProper(lines, depth)
    ensures Forest(Built(lines, n, depth))
  {
    hide Forest, Proper;
    if n == 0 {
      NothingIsForest();
    } else {
      BuiltForest(lines, n - 1, depth);
      assert Proper(lines[n - 1], depth);
      PlacedForest(Built(lines, n - 1, depth), depth, ChainOf(lines[n - 1], depth), depth + 1);
    }
  }

  // ----- Which containers there are -----

  /** The name is at some level of one of the first n lines. */
  ghost predicate Listed(lines: seq<string>, n: nat, depth: nat, name: string)
    requires n <= |lines| && AllProper(lines, depth)
  {
    exists i, a :: 0 <= i < n && 0 <= a <= depth && At(lines, depth, i, a, name)
  }

  ghost predicate At(lines: seq<string>, depth: nat, i: nat, a: nat, name: string)
    requires i < |lines| && a <= depth && AllProper(lines, depth)
  {
    Proper(lines[i], depth) && ChainOf(lines[i], depth)[a] == name
  }

  lemma {:induction false} PlacedNames(k: Known, depth: nat, chain: seq<string>, n: nat, name: string)
    requires n <= |chain| && |chain| == depth + 1
    ensures name in Placed(k, depth, chain, n).containers <==> name in k.containers || name in chain[..n]
  {
    hide Kind;
    if n > 0 {
      PlacedNames(k, depth, chain, n - 1, name);
      assert chain[..n] == chain[..n - 1] + [chain[n - 1]];
    }
  }

  /** Exactly the names on the lines become containers: sites, clusters and hosts, each of them. */
  lemma {:induction false} BuiltNames(lines: seq<string>, n: nat, depth: nat, name: string)
    requires n <= |lines| && AllProper(lines, depth)
    ensures name in Built(lines, n, depth).containers <==> Listed(lines, n, depth, name)
  {
    hide Proper, ChainOf;
    if n > 0 {
      BuiltNames(lines, n - 1, depth, name);
      assert Proper(lines[n - 1], depth);
      PlacedNames(Built(lines, n - 1, depth), depth, ChainOf(lines[n - 1], depth), depth + 1, name);
      ListedNext(lines, n - 1, depth, name);
    }
  }

  lemma ListedNext(lines: seq<string>, n: nat, depth: nat, name: string)
    requires n < |lines| && AllProper(lines, depth) && Proper(lines[n], depth)
    ensures Listed(lines, n + 1, depth, name) <==>
            Listed(lines, n, depth, name) || name in ChainOf(lines[n], depth)[..depth + 1]
  {
    hide Proper, ChainOf;
    var chain := ChainOf(lines[n], depth);
    if Listed(lines, n + 1, depth, name) {
      var i, a :| 0 <= i < n + 1 && 0 <= a <= depth && At(lines, depth, i, a, name);
      assert i < n ==> Listed(lines, n, depth, name);
      assert i == n ==> chain[a] == name && chain[a] in chain[..depth + 1];
    }
    if name in chain[..depth + 1] {
      var a :| 0 <= a <= depth && chain[a] == name;
      assert At(lines, depth, n, a, name);
    }
    if Listed(lines, n, depth, name) {
      var i, a :| 0 <= i < n && 0 <= a <= depth && At(lines, depth, i, a, name);
      assert 0 <= i < n + 1;
    }
  }

  lemma {:induction false} HostsListed(lines: seq<string>, n: nat, depth: nat, i: nat)
    requires i < n <= |lines| && AllProper(lines, depth)
    ensures |Hosts(lines, n, depth)| == n && Proper(lines[i], depth) && Hosts(lines, n, depth)[i] == HostOf(lines[i], depth)
    decreases n
  {
    hide Proper;
    HostsCount(lines, n, depth);
    assert Proper(lines[i], depth);
    if i < n - 1 {
      HostsListed(lines, n - 1, depth, i);
    } else {
      HostsCount(lines, n - 1, depth);
    }
  }

  lemma {:induction false} HostsCount(lines: seq<string>, n: nat, depth: nat)
    requires n <= |lines| && AllProper(lines, depth)
    ensures |Hosts(lines, n, depth)| == n
  {
    hide Proper;
    if n > 0 {
      HostsCount(lines, n - 1, depth);
    }
  }

  /** Every host that is listed is a container. */
  lemma HostsExist(lines: seq<string>, depth: nat)
    requires AllProper(lines, depth)
    ensures forall h :: h in Hosts(lines, |lines|, depth) ==> h in Built(lines, |lines|, depth).containers
  {
    hide Proper;
    HostsCount(lines, |lines|, depth);
    forall h | h in Hosts(lines, |lines|, depth)
      ensures h in Built(lines, |lines|, depth).containers
    {
      var i: nat :| i < |lines| && Hosts(lines, |lines|, depth)[i] == h;
      HostsListed(lines, |lines|, depth, i);
      HostLast(lines[i], depth);
      assert At(lines, depth, i, depth, h);
      BuiltNames(lines, |lines|, depth, h);
    }
  }

  lemma HostLast(line: string, depth: nat)
    requires Proper(line, depth)
    ensures ChainOf(line, depth)[depth] == HostOf(line, depth)
  {
  }
}
