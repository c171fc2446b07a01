/**
  Reading the output back: which containers exist, and how many states each has open.  A record that
  makes no sense where it stands stops the reading.
 */
module Paje {
  import opened Wrappers
  import opened Translation

  datatype Container = Container(parent: string, depth: nat)

  datatype Scene = Scene(alive: map<string, Container>, gone: set<string>)

  const NOTHING := Scene(map[], {})

  /** No living container is inside this one. */
  ghost predicate Childless(s: Scene, name: string) {
    forall other :: other in s.alive ==> s.alive[other].parent != name
  }

  /** A container is created once, in a living one; it is destroyed without open states or containers inside. */
  ghost predicate MayFollow(s: Scene, r: Record) {
    match r
    case CreateContainer(_, name, _, parent) =>
      name !in s.alive && name !in s.gone && (parent == "0" || parent in s.alive)
    case DestroyContainer(_, _, name) => name in s.alive && s.alive[name].depth == 0 && Childless(s, name)
    case PushState(_, name, _, _) => name in s.alive
    case PopState(_, name) => name in s.alive && s.alive[name].depth > 0
    case StartLink(_, name, _, _, _) => name in s.alive && "root" in s.alive
    case EndLink(_, name, _, _) => name in s.alive && "root" in s.alive
  }

  function Read(s: Scene, r: Record): Scene {
    match r
    case CreateContainer(_, name, _, parent) => s.(alive := s.alive[name := Container(parent, 0)])
    case DestroyContainer(_, _, name) => Scene(s.alive - {name}, s.gone + {name})
    case PushState(_, name, _, _) => Deeper(s, name, 1)
    case PopState(_, name) => Deeper(s, name, -1)
    case _ => s
  }

  function Deeper(s: Scene, name: string, change: int): Scene {
    if name in s.alive && s.alive[name].depth + change >= 0
    then s.(alive := s.alive[name := s.alive[name].(depth := s.alive[name].depth + change)])
    else s
  }

  /** The first n records can be read one after the other, and lead from s to the result. */
  ghost function ReadAll(s: Scene, records: seq<Record>, n: nat): Option<Scene>
    requires n <= |records|
  {
    if n == 0 then Some(s)
    else match ReadAll(s, records, n - 1)
         case None => None
         case Some(q) => if MayFollow(q, records[n - 1]) then Some(Read(q, records[n - 1])) else None
  }

  /** The whole output can be read. */
  ghost function Played(records: seq<Record>): Option<Scene> {
    ReadAll(NOTHING, records, |records|)
  }

  lemma {:induction false} ReadPrefix(s: Scene, a: seq<Record>, b: seq<Record>, n: nat)
    requires n <= |a|
    ensures ReadAll(s, a + b, n) == ReadAll(s, a, n)
  {
    if n > 0 {
      ReadPrefix(s, a, b, n - 1);
    }
  }

  /** One more record: it is read if it makes sense, and stops the reading otherwise. */
  lemma PlayedNext(records: seq<Record>, r: Record, s: Scene)
    requires Played(records) == Some(s)
    ensures Played(records + [r]) == if MayFollow(s, r) then Some(Read(s, r)) else None
  {
    ReadPrefix(NOTHING, records, [r], |records|);
  }
}
