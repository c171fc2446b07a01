/**
  Request tracking: search trees keyed by the address of a request, holding a mark.
 */
module Requests {
  import opened Events

  /** The tree as a map from addresses to marks; inserting a present address keeps its node. */
  function Inserted(marks: map<nat, CInt>, slot: nat, mark: CInt): map<nat, CInt> {
    if slot in marks then marks else marks[slot := mark]
  }

  /** The mark found, where 0 is told as -1; 0 when there is no node. */
  function Found(marks: map<nat, CInt>, slot: nat): CInt {
    if slot !in marks then 0 else if marks[slot] == 0 then -1 else marks[slot]
  }

  class RequestTree {
    var marks: map<nat, CInt>

    constructor ()
      ensures marks == map[]
    {
      marks := map[];
    }

    method Insert(slot: nat, mark: CInt)
      modifies this
      ensures marks == Inserted(old(marks), slot, mark)
    {
      if slot !in marks {
        marks := marks[slot := mark];
      }
    }

    method Remove(slot: nat)
      modifies this
      ensures marks == old(marks) - {slot}
    {
      marks := map other | other in marks && other != slot :: marks[other];
    }

    method Check(slot: nat) returns (answer: CInt)
      ensures answer == Found(marks, slot)
      ensures answer == 0 <==> slot !in marks
    {
      if slot in marks {
        answer := if marks[slot] != 0 then marks[slot] else -1;
      } else {
        answer := 0;
      }
    }
  }

  /** A C int stored as an unsigned 64-bit number. */
  function Wide(i: CInt): nat
  {
    if i < 0 then i + 0x1_0000_0000_0000_0000 else i
  }

  /** What MPI_Wait records for an answer of the tree. */
  function Told(answer: CInt): nat
    requires -0x8000_0000 <= answer
  {
    if answer == -1 then 0 else Wide(answer)
  }

  /** What comes back of a mark that went through the tree. */
  function Retold(mark: nat): nat {
    Told(Found(map[0 := AsInt(mark)], 0))
  }

  /** A mark survives, 0 included, exactly as long as it fits a C int. */
  lemma RetoldExactly(mark: nat)
    requires mark < 0x8000_0000_0000_0000
    ensures Retold(mark) == mark <==> mark < 0x8000_0000
  {
    assert mark < 0x8000_0000 ==> AsInt(mark) == mark;
  }

  /** A large mark comes back as something that no later mark of a run is. */
  lemma RetoldForeign(mark: nat, later: nat)
    requires mark < later < 0x8000_0000_0000_0000
    ensures Retold(mark) != later
  {
    assert mark < 0x8000_0000 ==> AsInt(mark) == mark;
  }
}
