/**
  The queue of one channel: a doubly linked list of keys, with a descriptor that holds both ends.
 */
module KeyQueues {

  class Elem {
    var data: string
    var head: Elem?
    var tail: Elem?
    /** The one queue this element is linked in, and its number there; numbers grow towards the end. */
    ghost var owner: Desc?
    ghost var number: nat

    /** Fresh elements are not linked with others. */
    constructor (data: string)
      ensures this.data == data && head == null && tail == null && owner == null
    {
      this.data, head, tail, owner, number := data, null, null, null, 0;
    }
  }

  class Desc {
    var first: Elem?
    var last: Elem?
    var n: nat
    /** The name the queue is found under, and how many elements have left it. */
    ghost const name: string
    ghost var taken: nat
    /** The linked elements in order. */
    ghost var elems: seq<Elem>
    /** Their keys, oldest first. */
    ghost var keys: seq<string>

    ghost predicate Linked(i: nat)
      requires i < |elems| == |keys|
      reads this, elems
    {
      && elems[i].owner == this && elems[i].number == taken + i && elems[i].data == keys[i]
      && elems[i].head == (if i == 0 then null else elems[i - 1])
      && elems[i].tail == (if i + 1 == |elems| then null else elems[i + 1])
    }

    ghost predicate Valid()
      reads this, elems
    {
      && n == |elems| == |keys|
      && (n == 0 ==> first == null && last == null)
      && (n > 0 ==> first == elems[0] && last == elems[n - 1])
      && (forall i :: 0 <= i < |elems| ==> Linked(i))
    }

    constructor (ghost name: string)
      ensures Valid() && elems == [] && keys == [] && this.name == name
    {
      this.name, taken := name, 0;
      first, last, n, elems, keys := null, null, 0, [], [];
    }

    /** Adds an element that is in no queue at the end. */
    method Enqueue(elem: Elem)
      requires Valid() && elem.owner == null
      modifies this, elems, elem
      ensures Valid() && elems == old(elems) + [elem]
      ensures keys == old(keys) + [elem.data] && elem.data == old(elem.data)
    {
      forall i | 0 <= i < |elems|
        ensures elems[i] != elem
      {
        assert Linked(i);
      }
      if n == 0 {
        first := elem;
        last := elem;
        elem.head := null;
        elem.tail := null;
      } else {
        var oldLast := last;
        assert Linked(n - 1);
        oldLast.tail := elem;
        elem.head := oldLast;
        elem.tail := null;
        last := elem;
      }
      n := n + 1;
      elem.owner := this;
      elem.number := taken + |elems|;
      elems := elems + [elem];
      keys := keys + [elem.data];
      ghost var before := old(elems);
      assert elems[..|before|] == before && elems[|before|] == elem;
      forall i | 0 <= i < |elems|
        ensures Linked(i)
      {
        if i < |before| {
          assert elems[i] == before[i] && old(Linked(i));
        }
      }
    }

    /** Removes the oldest element; null when there is none. */
    method Dequeue() returns (elem: Elem?)
      requires Valid()
      modifies this, elems
      ensures Valid() && (elem == null <==> old(elems) == [])
      ensures elem == null ==> elems == [] && keys == old(keys)
      ensures elem != null ==>
        && elem == old(elems[0]) && elems == old(elems)[1..] && elem.data == old(keys)[0]
        && keys == old(keys)[1..] && elem.head == null && elem.tail == null
    {
      if n == 0 {
        return null;
      }
      assert Linked(0);
      var ret := first;
      var newFirst := first.tail;
      if newFirst != null {
        assert Linked(1);
        newFirst.head := null;
        first := newFirst;
      } else {
        first := null;
        last := null;
      }
      n := n - 1;
      ret.head := null;
      ret.tail := null;
      ret.owner := null;
      taken := taken + 1;
      elems := elems[1..];
      keys := keys[1..];
      forall i | 0 <= i < |elems|
        ensures Linked(i)
      {
        assert old(Linked(i + 1));
      }
      elem := ret;
    }
  }
}
