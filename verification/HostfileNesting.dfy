/**
  When the types of the hostfile hierarchy nest like the containers they are the types of.
 */
module HostfileNesting {
  import opened Wrappers
  import opened KeyNames
  import opened Tokenizer
  import opened Hostfile

  // ----- Where a name occurs first -----

  /** The first of the first m levels of a line at which the name occurs. */
  function FirstLevel(chain: seq<string>, m: nat, name: string): (level: Option<nat>)
    requires m <= |chain|
    ensures level.Some? ==> level.value < m && chain[level.value] == name
  {
    if m == 0 then None
    else
      var before := FirstLevel(chain, m - 1, name);
      if before.None? && chain[m - 1] == name then Some(m - 1) else before
  }

  /** The first line, and the first level there, at which the name occurs. */
  function FirstPlace(lines: seq<string>, n: nat, depth: nat, name: string): Option<(nat, nat)>
    requires n <= |lines| && AllProper(lines, depth)
    decreases n, 0
  {
    if n == 0 then None else FirstSoFar(lines, n - 1, depth + 1, depth, name)
  }

  /** The same among the first i lines and the first m levels of the next one. */
  function FirstSoFar(lines: seq<string>, i: nat, m: nat, depth: nat, name: string): Option<(nat, nat)>
    requires i < |lines| && m <= depth + 1 && AllProper(lines, depth)
    decreases i, 1
  {
    assert Proper(lines[i], depth);
    match FirstPlace(lines, i, depth, name)
    case Some(place) => Some(place)
    case None =>
      match FirstLevel(ChainOf(lines[i], depth), m, name) case Some(a) => Some((i, a)) case None => None
  }

  /** The name is where it is found first. */
  lemma {:induction false} FirstIsThere(lines: seq<string>, n: nat, depth: nat, name: string)
    requires n <= |lines| && AllProper(lines, depth) && FirstPlace(lines, n, depth, name).Some?
    ensures var (i, a) := FirstPlace(lines, n, depth, name).value;
            i < n && a <= depth && At(lines, depth, i, a, name)
  {
    hide ChainOf, Proper;
    assert Proper(lines[n - 1], depth);
    if FirstPlace(lines, n - 1, depth, name).Some? {
      FirstIsThere(lines, n - 1, depth, name);
    }
  }

  lemma {:induction false} LevelFound(chain: seq<string>, m: nat, a: nat)
    requires a < m <= |chain|
    ensures FirstLevel(chain, m, chain[a]).Some? && FirstLevel(chain, m, chain[a]).value <= a
    decreases m
  {
    if a < m - 1 {
      LevelFound(chain, m - 1, a);
    }
  }

  /** A name that is on a line is found first somewhere. */
  lemma {:induction false} Found(lines: seq<string>, n: nat, depth: nat, i: nat, a: nat, name: string)
    requires i < n <= |lines| && AllProper(lines, depth) && a <= depth && At(lines, depth, i, a, name)
    ensures FirstPlace(lines, n, depth, name).Some?
    decreases n
  {
    hide ChainOf, Proper;
    assert Proper(lines[n - 1], depth);
    if i < n - 1 {
      Found(lines, n - 1, depth, i, a, name);
    } else {
      LevelFound(ChainOf(lines[i], depth), depth + 1, a);
    }
  }

  // ----- Every container is created where its name occurs first -----

  /** The container a line asks for at a level. */
  function CreateAt(lines: seq<string>, depth: nat, i: nat, a: nat): (d: Definition)
    requires i < |lines| && a <= depth && AllProper(lines, depth)
    ensures d.Create?
  {
    assert Proper(lines[i], depth);
    var chain := ChainOf(lines[i], depth);
    Create(chain[a], Kind(depth, a), Parent(chain, a))
  }

  /** Up to some point in the file, the name was created at its first place, or has not been met. */
  ghost predicate CreatedAtFirst(k: Known, lines: seq<string>, depth: nat, name: string, place: Option<(nat, nat)>)
    requires AllProper(lines, depth)
  {
    match place
    case None => name !in k.containers && forall d :: d in k.out && d.Create? ==> d.name != name
    case Some((i, a)) =>
      && i < |lines| && a <= depth && name in k.containers && CreateAt(lines, depth, i, a) in k.out
      && CreateAt(lines, depth, i, a).name == name
      && forall d :: d in k.out && d.Create? && d.name == name ==> d == CreateAt(lines, depth, i, a)
  }

  /** Placing a level creates its name, unless that was met before, and no other. */
  lemma PlacedOnce(k: Known, lines: seq<string>, depth: nat, i: nat, m: nat, name: string)
    requires i < |lines| && m <= depth && AllProper(lines, depth) && Proper(lines[i], depth)
    requires CreatedAtFirst(k, lines, depth, name, FirstSoFar(lines, i, m, depth, name))
    ensures CreatedAtFirst(PlacedAt(k, depth, ChainOf(lines[i], depth), m), lines, depth, name,
                           FirstSoFar(lines, i, m + 1, depth, name))
  {
    hide ChainOf, Proper, Kind, ParentKind, Parent, FirstPlace;
    var after := PlacedAt(k, depth, ChainOf(lines[i], depth), m);
    var first := FirstSoFar(lines, i, m, depth, name);
    if first.None? && ChainOf(lines[i], depth)[m] == name {
      var d := CreateAt(lines, depth, i, m);
      assert after.out[|after.out| - 1] == d && d in after.out;
    }
  }

  lemma {:induction false} LinePlaced(k: Known, lines: seq<string>, depth: nat, i: nat, m: nat, name: string)
    requires i < |lines| && m <= depth + 1 && AllProper(lines, depth) && Proper(lines[i], depth)
    requires CreatedAtFirst(k, lines, depth, name, FirstPlace(lines, i, depth, name))
    ensures CreatedAtFirst(Placed(k, depth, ChainOf(lines[i], depth), m), lines, depth, name,
                           FirstSoFar(lines, i, m, depth, name))
  {
    hide ChainOf, Proper, CreatedAtFirst, FirstPlace, PlacedAt;
    if m > 0 {
      LinePlaced(k, lines, depth, i, m - 1, name);
      PlacedOnce(Placed(k, depth, ChainOf(lines[i], depth), m - 1), lines, depth, i, m - 1, name);
    }
  }

  lemma {:induction false} BuiltAtFirst(lines: seq<string>, n: nat, depth: nat, name: string)
    requires n <= |lines| && AllProper(lines, depth)
    ensures CreatedAtFirst(Built(lines, n, depth), lines, depth, name, FirstPlace(lines, n, depth, name))
  {
    hide ChainOf, Proper, Placed, FirstSoFar;
    if n > 0 {
      BuiltAtFirst(lines, n - 1, depth, name);
      assert Proper(lines[n - 1], depth);
      LinePlaced(Built(lines, n - 1, depth), lines, depth, n - 1, depth + 1, name);
    }
  }

  // ----- Types -----

  lemma KindInjective(depth: nat, a: nat, b: nat)
    requires a <= depth && b <= depth && Kind(depth, a) == Kind(depth, b)
    ensures a == b
  {
    if a != depth && b != depth {
      assert Kind(depth, a)[1..] == Digits(depth - 1 - a) && Kind(depth, b)[1..] == Digits(depth - 1 - b);
      DigitsInjective(depth - 1 - a, depth - 1 - b);
    } else {
      assert Kind(depth, a)[0] == Kind(depth, b)[0];
    }
  }

  /** The declared types are those of levels, each under the type of the level above. */
  ghost predicate LevelTypes(out: seq<Definition>, depth: nat) {
    forall d :: d in out && d.ContainerType? ==> exists a :: 0 <= a <= depth && IsLevelType(d, depth, a)
  }

  predicate IsLevelType(d: Definition, depth: nat, a: nat)
    requires a <= depth
  {
    d == ContainerType(Kind(depth, a), ParentKind(depth, a))
  }

  lemma {:induction false} PlacedTypes(k: Known, depth: nat, chain: seq<string>, m: nat)
    requires m <= |chain| && |chain| == depth + 1 && LevelTypes(k.out, depth)
    ensures LevelTypes(Placed(k, depth, chain, m).out, depth)
  {
    hide Kind, ParentKind, Parent;
    if m > 0 {
      PlacedTypes(k, depth, chain, m - 1);
      assert IsLevelType(ContainerType(Kind(depth, m - 1), ParentKind(depth, m - 1)), depth, m - 1);
    }
  }

  lemma {:induction false} BuiltTypes(lines: seq<string>, n: nat, depth: nat)
    requires n <= |lines| && AllProper(lines, depth)
    ensures LevelTypes(Built(lines, n, depth).out, depth)
  {
    hide Proper, ChainOf, Placed;
    if n > 0 {
      BuiltTypes(lines, n - 1, depth);
      assert Proper(lines[n - 1], depth);
      PlacedTypes(Built(lines, n - 1, depth), depth, ChainOf(lines[n - 1], depth), depth + 1);
    }
  }

  /** A level's type is declared under the type of the level above, and under no other. */
  lemma LevelTypeUnder(out: seq<Definition>, depth: nat, a: nat, parent: string)
    requires LevelTypes(out, depth) && a <= depth && ContainerType(Kind(depth, a), parent) in out
    ensures parent == ParentKind(depth, a)
  {
    hide Kind, ParentKind;
    var b :| 0 <= b <= depth && IsLevelType(ContainerType(Kind(depth, a), parent), depth, b);
    KindInjective(depth, a, b);
  }

  /** A container's type is declared, namely under the type of the level above. */
  lemma TypeDeclaration(lines: seq<string>, depth: nat, i: nat, a: nat)
    requires AllProper(lines, depth) && i < |lines| && a <= depth
    requires CreateAt(lines, depth, i, a) in Built(lines, |lines|, depth).out
    ensures ContainerType(Kind(depth, a), ParentKind(depth, a)) in Built(lines, |lines|, depth).out
  {
    hide Kind, ParentKind, Built, Proper, ChainOf;
    var out := Built(lines, |lines|, depth).out;
    BuiltForest(lines, |lines|, depth);
    BuiltTypes(lines, |lines|, depth);
    var p: nat :| p < |out| && out[p] == CreateAt(lines, depth, i, a);
    assert WellPlaced(out, p);
    var j: nat :| j < p && Defines(out[j], Kind(depth, a), true);
    assert out[j] in out;
    OnlyContainerTypes(lines, |lines|, depth);
    LevelTypeUnder(out, depth, a, out[j].parent);
  }

  lemma {:induction false} OnlyContainerTypes(lines: seq<string>, n: nat, depth: nat)
    requires n <= |lines| && AllProper(lines, depth)
    ensures forall d :: d in Built(lines, n, depth).out ==> d.ContainerType? || d.Create?
  {
    hide Proper, ChainOf, Placed;
    if n > 0 {
      OnlyContainerTypes(lines, n - 1, depth);
      assert Proper(lines[n - 1], depth);
      PlacedOnlyThem(Built(lines, n - 1, depth), depth, ChainOf(lines[n - 1], depth), depth + 1);
    }
  }

  lemma {:induction false} PlacedOnlyThem(k: Known, depth: nat, chain: seq<string>, m: nat)
    requires m <= |chain| && |chain| == depth + 1 && forall d :: d in k.out ==> d.ContainerType? || d.Create?
    ensures forall d :: d in Placed(k, depth, chain, m).out ==> d.ContainerType? || d.Create?
  {
    hide Kind, ParentKind, Parent;
    if m > 0 {
      PlacedOnlyThem(k, depth, chain, m - 1);
    }
  }

  // ----- The theorem -----

  /** The container's type is declared right below the type of the container it is in. */
  ghost predicate Nests(out: seq<Definition>, d: Definition)
    requires d.Create?
  {
    if d.parent == "0" then ContainerType(d.kind, "0") in out
    else exists c :: c in out && HoldsIn(c, d, out)
  }

  ghost predicate HoldsIn(c: Definition, d: Definition, out: seq<Definition>)
    requires d.Create?
  {
    c.Create? && c.name == d.parent && ContainerType(d.kind, c.kind) in out
  }

  ghost predicate AllNest(out: seq<Definition>) {
    forall d :: d in out && d.Create? ==> Nests(out, d)
  }

  /** Where the name occurs first, the name above it is not "0" and occurs first at the level above. */
  predicate Aligned(lines: seq<string>, depth: nat, name: string)
    requires AllProper(lines, depth)
  {
    match FirstPlace(lines, |lines|, depth, name)
    case None => true
    case Some((i, a)) => (FirstIsThere(lines, |lines|, depth, name); a == 0 || AlignedAt(lines, depth, i, a))
  }

  predicate AlignedAt(lines: seq<string>, depth: nat, i: nat, a: nat)
    requires i < |lines| && 0 < a <= depth && AllProper(lines, depth)
  {
    assert Proper(lines[i], depth);
    var above := ChainOf(lines[i], depth)[a - 1];
    above != "0" &&
    match FirstPlace(lines, |lines|, depth, above) case None => false case Some((_, b)) => b == a - 1
  }

  lemma KindIsNotZero(depth: nat, a: nat)
    requires a <= depth
    ensures Kind(depth, a) != "0"
  {
    assert Kind(depth, a)[0] != '0';
  }

  /** A container at its first place nests exactly if the name above is aligned with it. */
  lemma NestsExactly(lines: seq<string>, depth: nat, i: nat, a: nat)
    requires AllProper(lines, depth) && i < |lines| && a <= depth
    requires CreateAt(lines, depth, i, a) in Built(lines, |lines|, depth).out
    ensures Nests(Built(lines, |lines|, depth).out, CreateAt(lines, depth, i, a)) <==>
            (a == 0 || AlignedAt(lines, depth, i, a))
  {
    hide Kind, Built, Proper, ChainOf, FirstPlace, LevelTypes;
    var out, d := Built(lines, |lines|, depth).out, CreateAt(lines, depth, i, a);
    assert Proper(lines[i], depth);
    TypeDeclaration(lines, depth, i, a);
    BuiltTypes(lines, |lines|, depth);
    if a > 0 {
      var above := ChainOf(lines[i], depth)[a - 1];
      if above == "0" {
        KindIsNotZero(depth, a - 1);
        if ContainerType(Kind(depth, a), "0") in out {
          LevelTypeUnder(out, depth, a, "0");
        }
      } else {
        assert At(lines, depth, i, a - 1, above);
        Found(lines, |lines|, depth, i, a - 1, above);
        FirstIsThere(lines, |lines|, depth, above);
        AboveIsCreated(lines, depth, above);
        var (j, b) := FirstPlace(lines, |lines|, depth, above).value;
        var c := CreateAt(lines, depth, j, b);
        if b == a - 1 {
          assert HoldsIn(c, d, out);
        }
        if Nests(out, d) {
          var c' :| c' in out && HoldsIn(c', d, out);
          assert c' == c;
          LevelTypeUnder(out, depth, a, c.kind);
          KindInjective(depth, b, a - 1);
        }
      }
    }
  }

  lemma AboveIsCreated(lines: seq<string>, depth: nat, name: string)
    requires AllProper(lines, depth) && FirstPlace(lines, |lines|, depth, name).Some?
    ensures var (j, b) := FirstPlace(lines, |lines|, depth, name).value; var out := Built(lines, |lines|, depth).out;
            && j < |lines| && b <= depth && CreateAt(lines, depth, j, b) in out && CreateAt(lines, depth, j, b).name == name
            && forall c :: c in out && c.Create? && c.name == name ==> c == CreateAt(lines, depth, j, b)
  {
    hide FirstPlace, Built, CreateAt;
    BuiltAtFirst(lines, |lines|, depth, name);
  }

  /**
    The types of all containers nest like the containers exactly if every name is aligned: where it
    occurs first, what is above it is not called "0" and occurs first at the level above.
   */
  lemma NestingExactly(lines: seq<string>, depth: nat)
    requires AllProper(lines, depth)
    ensures AllNest(Built(lines, |lines|, depth).out) <==> forall name :: Aligned(lines, depth, name)
  {
    hide FirstPlace, Built, CreateAt, AlignedAt, Nests;
    var out := Built(lines, |lines|, depth).out;
    if AllNest(out) {
      forall name
        ensures Aligned(lines, depth, name)
      {
        if FirstPlace(lines, |lines|, depth, name).Some? {
          FirstIsThere(lines, |lines|, depth, name);
          AboveIsCreated(lines, depth, name);
          var (i, a) := FirstPlace(lines, |lines|, depth, name).value;
          assert Nests(out, CreateAt(lines, depth, i, a));
          NestsExactly(lines, depth, i, a);
        }
      }
    }
    if forall name :: Aligned(lines, depth, name) {
      forall d | d in out && d.Create?
        ensures Nests(out, d)
      {
        NameOfCreate(lines, depth, d);
        assert Aligned(lines, depth, d.name);
        var (i, a) := FirstPlace(lines, |lines|, depth, d.name).value;
        NestsExactly(lines, depth, i, a);
      }
    }
  }

  /** Every container that is created is that of its name's first place. */
  lemma NameOfCreate(lines: seq<string>, depth: nat, d: Definition)
    requires AllProper(lines, depth) && d in Built(lines, |lines|, depth).out && d.Create?
    ensures FirstPlace(lines, |lines|, depth, d.name).Some?
    ensures var (i, a) := FirstPlace(lines, |lines|, depth, d.name).value;
            i < |lines| && a <= depth && d == CreateAt(lines, depth, i, a)
  {
    hide FirstPlace, Built, CreateAt;
    BuiltAtFirst(lines, |lines|, depth, d.name);
  }

  // ----- Files in which no name occurs at two levels -----

  ghost predicate OneLevelEach(lines: seq<string>, depth: nat)
    requires AllProper(lines, depth)
  {
    forall i, j, a, b, name ::
      0 <= i < |lines| && 0 <= j < |lines| && 0 <= a <= depth && 0 <= b <= depth ==>
        (At(lines, depth, i, a, name) && At(lines, depth, j, b, name) ==> a == b)
  }

  /** If no name occurs at two levels, and none is "0", the types of the containers nest as the containers do. */
  lemma TypesNest(lines: seq<string>, depth: nat)
    requires AllProper(lines, depth) && OneLevelEach(lines, depth) && !Listed(lines, |lines|, depth, "0")
    ensures AllNest(Built(lines, |lines|, depth).out)
  {
    hide FirstPlace, ChainOf, Proper, Built;
    forall name
      ensures Aligned(lines, depth, name)
    {
      if FirstPlace(lines, |lines|, depth, name).Some? {
        FirstIsThere(lines, |lines|, depth, name);
        var (i, a) := FirstPlace(lines, |lines|, depth, name).value;
        if a > 0 {
          assert Proper(lines[i], depth);
          var above := ChainOf(lines[i], depth)[a - 1];
          assert At(lines, depth, i, a - 1, above);
          Found(lines, |lines|, depth, i, a - 1, above);
          FirstIsThere(lines, |lines|, depth, above);
        }
      }
    }
    NestingExactly(lines, depth);
  }

  // ----- Lines that break the nesting -----

  predicate Plain(s: string) {
    s != "" && '.' !in s && '-' !in s
  }

  /** The fields of a joined line are found, and its chain of names. */
  lemma JoinedLine(cluster: string, host: string, above: seq<string>)
    requires Plain(cluster) && Plain(host) && above != [] && forall f :: f in above ==> f != "" && '.' !in f
    ensures var both := Join([cluster, host], '-'); var line := Join([both] + above, '.');
            && Proper(line, |above| + 1) && ChainOf(line, |above| + 1) == Chain([both] + above, cluster)
  {
    hide Tokens, Join, Plain;
    var both := Join([cluster, host], '-');
    JoinedHost(cluster, host);
    var fields := [both] + above;
    forall f | f in fields
      ensures f != "" && '.' !in f
    {
      assert f == both || f in above;
    }
    TokensOfJoin(fields, '.');
  }

  lemma JoinedHost(cluster: string, host: string)
    requires Plain(cluster) && Plain(host)
    ensures var both := Join([cluster, host], '-');
            && both != "" && '.' !in both && both == cluster + ['-'] + host && Tokens(both, '-') == [cluster, host]
  {
    hide Tokens;
    assert Join([host], '-') == host;
    TokensOfJoin([cluster, host], '-');
  }

  /** Where the names of the only line occur first. */
  lemma OnlyLine(line: string, depth: nat, name: string)
    requires AllProper([line], depth) && Proper(line, depth)
    ensures FirstPlace([line], 1, depth, name) ==
            match FirstLevel(ChainOf(line, depth), depth + 1, name) case Some(a) => Some((0, a)) case None => None
  {
    hide ChainOf, FirstLevel;
    assert FirstPlace([line], 0, depth, name) == None;
  }

  /** A cluster that has the name of the grid: it is found at the top, and the host is placed in it there. */
  lemma NameAtTwoLevels(grid: string, site: string, host: string)
    requires Plain(grid) && Plain(site) && Plain(host) && grid != site
    ensures var line := Join([Join([grid, host], '-'), site, grid], '.');
            && AllProper([line], 3) && !OneLevelEach([line], 3) && !AllNest(Built([line], 1, 3).out)
  {
    var both := Join([grid, host], '-');
    var line := Join([both, site, grid], '.');
    JoinedLine(grid, host, [site, grid]);
    assert [both] + [site, grid] == [both, site, grid];
    var chain := Chain([both, site, grid], grid);
    assert ChainOf(line, 3) == chain && chain == [grid, site, grid, both];
    JoinedHost(grid, host);
    assert both[|grid|] == '-' && '-' in both;
    BadCluster(line, grid, site, both);
  }

  lemma BadCluster(line: string, grid: string, site: string, both: string)
    requires Proper(line, 3) && ChainOf(line, 3) == [grid, site, grid, both]
    requires grid != site && both != grid && both != site
    ensures AllProper([line], 3) && !OneLevelEach([line], 3) && !AllNest(Built([line], 1, 3).out)
  {
    hide Proper, ChainOf, Built;
    assert At([line], 3, 0, 0, grid) && At([line], 3, 0, 2, grid);
    var chain := [grid, site, grid, both];
    assert FirstLevel(chain, 0, both) == None && FirstLevel(chain, 1, both) == None && FirstLevel(chain, 2, both) == None;
    assert FirstLevel(chain, 3, both) == None && FirstLevel(chain, 4, both) == Some(3);
    assert FirstLevel(chain, 0, grid) == None && FirstLevel(chain, 1, grid) == Some(0);
    assert FirstLevel(chain, 2, grid) == Some(0) && FirstLevel(chain, 3, grid) == Some(0);
    OnlyLine(line, 3, both);
    OnlyLine(line, 3, grid);
    assert !AlignedAt([line], 3, 0, 3);
    assert !Aligned([line], 3, both);
    NestingExactly([line], 3);
  }

  /** A container called "0" is taken for the place where there is no container. */
  lemma NameIsZero(cluster: string, host: string)
    requires Plain(cluster) && Plain(host) && cluster != "0"
    ensures var line := Join([Join([cluster, host], '-'), "0"], '.');
            && AllProper([line], 2) && OneLevelEach([line], 2) && !AllNest(Built([line], 1, 2).out)
  {
    var both := Join([cluster, host], '-');
    var line := Join([both, "0"], '.');
    JoinedLine(cluster, host, ["0"]);
    assert [both] + ["0"] == [both, "0"];
    var chain := Chain([both, "0"], cluster);
    assert ChainOf(line, 2) == chain && chain == ["0", cluster, both];
    JoinedHost(cluster, host);
    assert both[|cluster|] == '-' && '-' in both;
    InZero(line, cluster, both);
  }

  lemma InZero(line: string, cluster: string, both: string)
    requires Proper(line, 2) && ChainOf(line, 2) == ["0", cluster, both]
    requires cluster != "0" && both != "0" && both != cluster
    ensures AllProper([line], 2) && OneLevelEach([line], 2) && !AllNest(Built([line], 1, 2).out)
  {
    hide Proper, ChainOf, Built;
    var chain := ["0", cluster, both];
    assert FirstLevel(chain, 0, cluster) == None && FirstLevel(chain, 1, cluster) == None;
    assert FirstLevel(chain, 2, cluster) == Some(1) && FirstLevel(chain, 3, cluster) == Some(1);
    OnlyLine(line, 2, cluster);
    assert !AlignedAt([line], 2, 0, 1);
    assert !Aligned([line], 2, cluster);
    NestingExactly([line], 2);
  }
}
