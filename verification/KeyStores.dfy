/**
  The key store: a hash table of queues, one for each channel name that was ever used.

  `KeyTable` is the table with its queues as heap objects; `contents` is what it holds.  `KeyStore`
  adds the counter and the printing of names and keys; `store` is the same store as a value, and every
  operation is proved to change it as Links says, so that queues of different channels never
  interfere and no key is ever issued twice.
 */
module KeyStores {
  import opened Wrappers
  import opened KeyNames
  import opened KeyQueues
  import opened Links

  /** d is the queue called `name`, holds the given keys, and its objects are in repr. */
  ghost predicate QueueOk(d: Desc, name: string, keys: seq<string>, repr: set<object>)
    reads d, d.elems
  {
    && d in repr && (forall e :: e in d.elems ==> e in repr)
    && d.name == name && d.keys == keys && d.Valid()
  }

  /** An element belongs to the queue it is linked in. */
  lemma Owned(d: Desc)
    requires d.Valid()
    ensures forall e :: e in d.elems ==> e.owner == d
  {
    forall e | e in d.elems
      ensures e.owner == d
    {
      var i :| 0 <= i < |d.elems| && d.elems[i] == e;
      assert d.Linked(i);
    }
  }

  twostate predicate Untouched(d: Desc)
    reads d, d.elems
  {
    unchanged(d) && forall e :: e in d.elems ==> unchanged(e)
  }

  class KeyTable {
    const capacity: nat
    var hash: map<string, Desc>
    ghost var contents: map<string, seq<string>>
    ghost var Repr: set<object>

    ghost predicate Valid()
      reads this, Repr
    {
      && this in Repr && |hash| <= capacity && contents.Keys == hash.Keys
      && (forall name {:trigger Inside(name)} :: name in hash ==> Inside(name))
      && (forall name {:trigger QueueOk(hash[name], name, contents[name], Repr)} ::
          name in hash ==> assert Inside(name); QueueOk(hash[name], name, contents[name], Repr))
    }

    /** The objects of one queue are among those of the table. */
    ghost predicate Inside(name: string)
      requires name in hash
      reads this, Repr
    {
      hash[name] in Repr && forall e :: e in hash[name].elems ==> e in Repr
    }

    constructor (capacity: nat)
      ensures Valid() && fresh(Repr) && contents == map[] && this.capacity == capacity
    {
      this.capacity := capacity;
      hash, contents := map[], map[];
      Repr := {this};
    }

    /** Queues share no objects. */
    lemma Apart(name: string)
      requires Valid() && name in hash
      ensures forall other :: other in hash && other != name ==>
                Inside(other) && hash[other] != hash[name] && forall e :: e in hash[other].elems ==> e !in hash[name].elems
    {
      assert QueueOk(hash[name], name, contents[name], Repr);
      Owned(hash[name]);
      forall other | other in hash && other != name
        ensures Inside(other)
        ensures hash[other] != hash[name] && forall e :: e in hash[other].elems ==> e !in hash[name].elems
      {
        assert QueueOk(hash[other], other, contents[other], Repr);
        Owned(hash[other]);
      }
    }

    /** Queues none of whose objects changed are as good as before. */
    twostate lemma QueuesKept(name: string)
      requires old(Valid()) && unchanged(this)
      requires forall other :: other in hash && other != name ==> Untouched(hash[other])
      ensures forall other :: other in hash && other != name ==> QueueOk(hash[other], other, contents[other], Repr)
    {
      forall other | other in hash && other != name
        ensures QueueOk(hash[other], other, contents[other], Repr)
      {
        var d := hash[other];
        assert old(QueueOk(d, other, contents[other], Repr));
        forall i | 0 <= i < |d.elems|
          ensures d.Linked(i)
        {
          assert old(d.Linked(i));
          assert d.elems[i] in d.elems;
        }
      }
    }

    /** Changes one queue's list and leaves all others alone. */
    method EnqueueAt(name: string, elem: Elem)
      requires Valid() && name in hash && elem !in Repr && elem.owner == null
      modifies hash[name], hash[name].elems, elem
      ensures forall other :: other in hash && other != name ==> QueueOk(hash[other], other, contents[other], Repr)
      ensures QueueOk(hash[name], name, contents[name] + [elem.data], Repr + {elem}) && elem.data == old(elem.data)
    {
      Apart(name);
      assert QueueOk(hash[name], name, contents[name], Repr);
      hash[name].Enqueue(elem);
      QueuesKept(name);
    }

    method DequeueAt(name: string) returns (elem: Elem?)
      requires Valid() && name in hash
      modifies hash[name], hash[name].elems
      ensures forall other :: other in hash && other != name ==> QueueOk(hash[other], other, contents[other], Repr)
      ensures elem == null <==> contents[name] == []
      ensures elem == null ==> QueueOk(hash[name], name, contents[name], Repr)
      ensures elem != null ==> QueueOk(hash[name], name, contents[name][1..], Repr) && elem.data == contents[name][0]
    {
      Apart(name);
      assert QueueOk(hash[name], name, contents[name], Repr);
      elem := hash[name].Dequeue();
      QueuesKept(name);
    }

    /** The table is valid when each of its queues is. */
    lemma Rebuilt(name: string, repr: set<object>)
      requires this in Repr && |hash| <= capacity && contents.Keys == hash.Keys && repr <= Repr && name in hash
      requires forall other :: other in hash && other != name ==> QueueOk(hash[other], other, contents[other], repr)
      requires QueueOk(hash[name], name, contents[name], Repr)
      ensures Valid()
    {
    }

    /** Enters an empty queue under a new name; fails when the table is full. */
    method Enter(name: string) returns (ok: bool)
      requires Valid() && name !in hash
      modifies this
      ensures Valid() && fresh(Repr - old(Repr)) && old(Repr) <= Repr
      ensures ok == (|old(hash)| < capacity)
      ensures contents == if ok then old(contents)[name := []] else old(contents)
    {
      if |hash| == capacity {
        return false;
      }
      var d := new Desc(name);
      hash, contents, Repr := hash[name := d], contents[name := []], Repr + {d};
      Rebuilt(name, old(Repr));
      ok := true;
    }

    /** Notes what the changed queue now holds. */
    ghost method Record(name: string, keys: seq<string>, repr: set<object>)
      requires this in Repr && |hash| <= capacity && contents.Keys == hash.Keys && Repr <= repr && name in hash
      requires forall other :: other in hash && other != name ==> QueueOk(hash[other], other, contents[other], Repr)
      requires QueueOk(hash[name], name, keys, repr)
      modifies `contents, `Repr
      ensures Valid() && Repr == repr && contents == old(contents)[name := keys]
    {
      contents, Repr := contents[name := keys], repr;
      Rebuilt(name, old(Repr));
    }

    /** Links a fresh element at the end of a queue. */
    method Append(name: string, elem: Elem)
      requires Valid() && name in hash && elem !in Repr && elem.owner == null
      modifies Repr, elem
      ensures Valid() && Repr == old(Repr) + {elem} && hash == old(hash)
      ensures contents == old(contents)[name := old(contents)[name] + [old(elem.data)]]
    {
      assert Inside(name);
      EnqueueAt(name, elem);
      Record(name, contents[name] + [elem.data], Repr + {elem});
    }

    /** Unlinks the oldest element of a queue, if any. */
    method Take(name: string) returns (elem: Elem?)
      requires Valid() && name in hash
      modifies Repr
      ensures Valid() && Repr == old(Repr) && hash == old(hash)
      ensures elem == null <==> old(contents)[name] == []
      ensures elem != null ==> elem.data == old(contents)[name][0]
      ensures contents == old(contents)[name := if elem == null then [] else old(contents)[name][1..]]
    {
      assert Inside(name);
      elem := DequeueAt(name);
      Record(name, if elem == null then [] else contents[name][1..], Repr);
    }

    /** The queue found under a name, or a new empty one; false when the table is full. */
    method FindOrEnter(name: string) returns (ok: bool)
      requires Valid()
      modifies Repr
      ensures Valid() && fresh(Repr - old(Repr)) && old(Repr) <= Repr && ok == Room(old(contents), name, capacity)
      ensures contents == if ok then old(contents)[name := Found(old(contents), name)] else old(contents)
    {
      if name in hash {
        ok := true;
        assert contents == contents[name := contents[name]];
      } else {
        ok := Enter(name);
      }
    }

    /** Makes an element for a text and links it in. */
    method AppendText(name: string, text: string)
      requires Valid() && name in hash
      modifies Repr
      ensures Valid() && fresh(Repr - old(Repr)) && old(Repr) <= Repr
      ensures contents == old(contents)[name := old(contents)[name] + [text]]
    {
      var elem := new Elem(text);
      Append(name, elem);
    }

    /** Puts a text into the queue of a name. */
    method PutText(name: string, text: string) returns (ok: bool)
      requires Valid()
      modifies Repr
      ensures Valid() && fresh(Repr - old(Repr)) && old(Repr) <= Repr && ok == Room(old(contents), name, capacity)
      ensures contents == if ok then old(contents)[name := Found(old(contents), name) + [text]] else old(contents)
    {
      ok := FindOrEnter(name);
      if ok {
        AppendText(name, text);
        assert old(contents)[name := Found(old(contents), name)][name := Found(old(contents), name) + [text]]
            == old(contents)[name := Found(old(contents), name) + [text]];
      }
    }

    /** Takes the oldest text from the queue of a name, if there is one. */
    method TakeText(name: string) returns (text: Option<string>)
      requires Valid()
      modifies Repr
      ensures Valid() && Repr == old(Repr)
      ensures text == if Found(old(contents), name) == [] then None else Some(Found(old(contents), name)[0])
      ensures contents == if Found(old(contents), name) == [] then old(contents)
                          else old(contents)[name := Found(old(contents), name)[1..]]
    {
      if name !in hash {
        return None;
      }
      var elem := Take(name);
      if elem == null {
        assert old(contents)[name := []] == old(contents);
        return None;
      }
      text := Some(elem.data);
    }
  }

  function Found(contents: map<string, seq<string>>, name: string): seq<string> {
    if name in contents then contents[name] else []
  }

  predicate Room(contents: map<string, seq<string>>, name: string, capacity: nat) {
    name in contents || |contents| < capacity
  }

  // ----- The table as a store -----

  /** The texts of a channel's keys. */
  function Texts(c: Channel, numbers: seq<nat>): (s: seq<string>)
    ensures |s| == |numbers|
  {
    seq(|numbers|, i requires 0 <= i < |numbers| => KeyText(c.src, c.dst, numbers[i]))
  }

  function Text(c: Channel, number: Option<nat>): Option<string> {
    match number case None => None case Some(n) => Some(KeyText(c.src, c.dst, n))
  }

  /** The queue of channel c is found under c's name. */
  ghost predicate StandsFor(contents: map<string, seq<string>>, s: Store, c: Channel) {
    && '#' !in c.kind && c in s.queues
    && ChannelName(c) in contents && contents[ChannelName(c)] == Texts(c, s.queues[c])
  }

  /** Some channel of the store has this name. */
  ghost predicate Named(s: Store, name: string) {
    exists c :: c in s.queues && ChannelName(c) == name
  }

  /** The table holds the queues of the store, under their channels' names, and nothing else. */
  ghost predicate Stands(contents: map<string, seq<string>>, s: Store) {
    match s
    case Store(queues, _) =>
      && |contents| == |queues|
      && (forall c {:trigger StandsFor(contents, s, c)} :: c in queues ==> StandsFor(contents, s, c))
      && (forall name {:trigger Named(s, name)} :: name in contents ==> Named(s, name))
  }

  /** The table has an entry for a channel exactly when the store has. */
  lemma NameKnown(contents: map<string, seq<string>>, s: Store, c: Channel)
    requires Stands(contents, s) && '#' !in c.kind
    ensures ChannelName(c) in contents <==> c in s.queues
    ensures ChannelName(c) in contents ==> contents[ChannelName(c)] == Texts(c, Queue(s, c))
  {
    if ChannelName(c) in contents {
      assert Named(s, ChannelName(c));
      var d :| d in s.queues && ChannelName(d) == ChannelName(c);
      assert StandsFor(contents, s, d);
      ChannelNameInjective(c, d);
    }
    if c in s.queues {
      assert StandsFor(contents, s, c);
    }
  }

  /** Changing one channel's queue in both leaves all other channels as they are. */
  lemma OneChannelChanged(contents: map<string, seq<string>>, s: Store, c: Channel, numbers: seq<nat>, next: nat)
    requires Stands(contents, s) && '#' !in c.kind
    ensures Stands(contents[ChannelName(c) := Texts(c, numbers)], Store(s.queues[c := numbers], next))
  {
    var contents' := contents[ChannelName(c) := Texts(c, numbers)];
    var s' := Store(s.queues[c := numbers], next);
    NameKnown(contents, s, c);
    forall d | d in s'.queues
      ensures StandsFor(contents', s', d)
    {
      if d != c {
        assert StandsFor(contents, s, d);
        ChannelNameInjective(c, d);
      }
    }
    forall name | name in contents'
      ensures Named(s', name)
    {
      if name != ChannelName(c) {
        assert Named(s, name);
        var d :| d in s.queues && ChannelName(d) == name;
        assert d in s'.queues;
      } else {
        assert c in s'.queues;
      }
    }
  }

  lemma TextsExtend(c: Channel, numbers: seq<nat>, n: nat)
    ensures Texts(c, numbers + [n]) == Texts(c, numbers) + [KeyText(c.src, c.dst, n)]
  {
  }

  lemma TextsShrink(c: Channel, numbers: seq<nat>)
    requires numbers != []
    ensures Texts(c, numbers)[1..] == Texts(c, numbers[1..]) && Texts(c, numbers)[0] == KeyText(c.src, c.dst, numbers[0])
  {
  }

  /** Putting a key into the table is putting it into the store. */
  lemma PutStands(contents: map<string, seq<string>>, s: Store, c: Channel, capacity: nat)
    requires Stands(contents, s) && '#' !in c.kind
    ensures Room(contents, ChannelName(c), capacity) == HasRoom(s, c, capacity)
    ensures HasRoom(s, c, capacity) ==>
      var name := ChannelName(c);
      Stands(contents[name := Found(contents, name) + [KeyText(c.src, c.dst, s.next)]], Put(s, c, capacity))
  {
    NameKnown(contents, s, c);
    TextsExtend(c, Queue(s, c), s.next);
    assert Texts(c, []) == [];
    OneChannelChanged(contents, s, c, Queue(s, c) + [s.next], s.next + 1);
  }

  lemma GetStands(contents: map<string, seq<string>>, s: Store, c: Channel)
    requires Stands(contents, s) && '#' !in c.kind
    ensures var q := Found(contents, ChannelName(c));
            && (q == [] <==> Queue(s, c) == [])
            && (q != [] ==> q[0] == KeyText(c.src, c.dst, Queue(s, c)[0])
                            && Stands(contents[ChannelName(c) := q[1..]], Get(s, c)))
  {
    NameKnown(contents, s, c);
    if Queue(s, c) != [] {
      TextsShrink(c, Queue(s, c));
      OneChannelChanged(contents, s, c, Queue(s, c)[1..], s.next);
    }
  }

  /** The table and the counter represent the store. */
  ghost predicate Represents(table: KeyTable, counter: nat, store: Store)
    reads table, table.Repr
  {
    match store
    case Store(_, next) => table.Valid() && counter == next && Stands(table.contents, store)
  }

  class KeyStore {
    const table: KeyTable
    var counter: nat
    ghost var store: Store

    ghost predicate Valid()
      reads this, table, table.Repr
    {
      this !in table.Repr && Represents(table, counter, store)
    }

    constructor (capacity: nat)
      ensures Valid() && fresh(table) && fresh(table.Repr) && store == EMPTY && table.capacity == capacity
    {
      table := new KeyTable(capacity);
      counter, store := 0, EMPTY;
    }

    /** aky_put_key */
    method PutKey(c: Channel) returns (key: Option<string>)
      requires Valid() && '#' !in c.kind
      modifies this, table.Repr
      ensures Valid() && fresh(table.Repr - old(table.Repr))
      ensures store == Put(old(store), c, table.capacity)
      ensures key == Text(c, Links.PutKey(old(store), c, table.capacity))
    {
      var text := KeyText(c.src, c.dst, counter);
      var ok := PutIn(c, text);
      if !ok {
        return None;
      }
      counter, store := counter + 1, Put(store, c, table.capacity);
      key := Some(text);
    }

    /** The table takes the key of the next number; counter and store are still as before. */
    method PutIn(c: Channel, text: string) returns (ok: bool)
      requires Valid() && '#' !in c.kind && text == KeyText(c.src, c.dst, counter)
      modifies table.Repr
      ensures this !in table.Repr && fresh(table.Repr - old(table.Repr)) && ok == HasRoom(store, c, table.capacity)
      ensures Represents(table, if ok then counter + 1 else counter, Put(store, c, table.capacity))
    {
      PutStands(table.contents, store, c, table.capacity);
      ok := table.PutText(ChannelName(c), text);
    }

    /** aky_get_key */
    method GetKey(c: Channel) returns (key: Option<string>)
      requires Valid() && '#' !in c.kind
      modifies this, table.Repr
      ensures Valid() && fresh(table.Repr - old(table.Repr))
      ensures store == Get(old(store), c)
      ensures key == Text(c, Links.GetKey(old(store), c))
    {
      key := GetFrom(c);
      store := Get(store, c);
    }

    method GetFrom(c: Channel) returns (key: Option<string>)
      requires Valid() && '#' !in c.kind
      modifies table.Repr
      ensures this !in table.Repr && fresh(table.Repr - old(table.Repr))
      ensures Represents(table, counter, Get(store, c)) && key == Text(c, Links.GetKey(store, c))
    {
      GetStands(table.contents, store, c);
      key := table.TakeText(ChannelName(c));
    }
  }
}
