/** The hash table on linked lists (utils/hash.c): an array of list heads, into which the items
    are linked by the item each of them embeds.  What an embedded item leads to (nn_cont) and the
    key written into that are a map. */
module HashTable {
  import opened Hash
  import opened HashKey
  import opened Util
  import opened Wire
  import L = List

  ghost function All(lists: seq<L.LinkedList>): set<L.LinkedList> { set l | l in lists }

  /** The table items of a list. */
  ghost function Held(cont: map<L.Item, Item>, q: seq<L.Item>): (r: seq<Item>)
    ensures |r| == |q| && forall i :: 0 <= i < |q| ==> r[i] == if q[i] in cont then cont[q[i]] else Item(0, 0)
  {
    seq(|q|, i requires 0 <= i < |q| => if q[i] in cont then cont[q[i]] else Item(0, 0))
  }

  /** The lists stand for the buckets a. */
  ghost predicate Stand(cont: map<L.Item, Item>, lists: seq<L.LinkedList>, a: seq<seq<Item>>)
    reads All(lists)
  {
    |a| == |lists| && forall i :: 0 <= i < |a| ==> a[i] == Held(cont, lists[i].items)
  }

  /** The item goes to the end of one list. */
  lemma HeldLast(cont: map<L.Item, Item>, q: seq<L.Item>, x: L.Item)
    requires x in cont
    ensures Held(cont, q + [x]) == Held(cont, q) + [cont[x]]
  {
  }

  /** Items that are in no list may be rewritten. */
  lemma HeldStill(cont: map<L.Item, Item>, q: seq<L.Item>, x: L.Item, v: Item)
    requires x !in q
    ensures Held(cont[x := v], q) == Held(cont, q)
  {
  }

  lemma Renamed(cont: map<L.Item, Item>, lists: seq<L.LinkedList>, a: seq<seq<Item>>, x: L.Item, v: Item)
    requires Stand(cont, lists, a) && forall i :: 0 <= i < |lists| ==> x !in lists[i].items
    ensures Stand(cont[x := v], lists, a)
  {
    forall i | 0 <= i < |a|
        ensures a[i] == Held(cont[x := v], lists[i].items) { HeldStill(cont, lists[i].items, x, v); }
  }

  /** nn_list_insert at the end of list i of a heap of lists. */
  method LinkIn(ls: seq<L.LinkedList>, i: nat, item: L.Item, ghost all: set<L.LinkedList>,
                ghost cont: map<L.Item, Item>, ghost a: seq<seq<Item>>)
    requires L.World(all, cont.Keys) && All(ls) <= all && Distinct(ls) && Stand(cont, ls, a)
    requires i < |ls| && item in cont && item.notInList
    modifies ls[i], ls[i].items, item
    ensures L.World(all, cont.Keys) && |a| == |ls| && Stand(cont, ls, a[i := a[i] + [cont[item]]])
  {
    hide L.World;
    var l := ls[i];
    assert l in All(ls);
    ghost var p := l.items;
    HeldLast(cont, p, item);
    var k := L.InsertIn(l, item, null, all, cont.Keys);
    assert l.items == p + [item];
    forall j | 0 <= j < |ls| && j != i ensures a[j] == Held(cont, ls[j].items) {
      assert ls[j] != l;
      assert ls[j].items == old(ls[j].items);
    }
  }

  /** nn_list_erase from list i. */
  method UnlinkIn(ls: seq<L.LinkedList>, i: nat, item: L.Item, ghost all: set<L.LinkedList>,
                ghost cont: map<L.Item, Item>, ghost a: seq<seq<Item>>)
    returns (ghost k: nat)
    requires L.World(all, cont.Keys) && All(ls) <= all && Distinct(ls) && Stand(cont, ls, a)
    requires i < |ls| && item in cont && item in ls[i].items
    modifies ls[i], ls[i].items
    ensures L.World(all, cont.Keys) && |a| == |ls| && item.notInList
    ensures k < |a[i]| && a[i][k] == cont[item] && Stand(cont, ls, a[i := a[i][..k] + a[i][k + 1..]])
    ensures item == old(ls[i].first) ==> k == 0
    ensures ls[i].items == old(ls[i].items)[..k] + old(ls[i].items)[k + 1..]
  {
    hide L.World;
    var l := ls[i];
    assert l in All(ls);
    ListOk(l, all, cont);
    ghost var p := l.items;
    var succ;
    succ, k := L.EraseIn(l, item, all, cont.Keys);
    assert a[i][k] == cont[item];
    HeldWithout(cont, p, k);
    forall j | 0 <= j < |ls| && j != i ensures a[j] == Held(cont, ls[j].items) {
      assert ls[j] != l;
      assert ls[j].items == old(ls[j].items);
    }
  }

  // ---- New lists come, and empty ones go ----

  lemma Grows(old': seq<L.LinkedList>, new': seq<L.LinkedList>, cont: map<L.Item, Item>)
    requires L.World(All(old'), cont.Keys) && forall l :: l in new' ==> l.Valid() && l.items == []
    ensures L.World(All(old') + All(new'), cont.Keys)
  {
  }

  lemma Empties(cont: map<L.Item, Item>, ls: seq<L.LinkedList>, a: seq<seq<Item>>)
    requires |a| == |ls| && (forall l :: l in ls ==> l.items == []) && forall i :: 0 <= i < |a| ==> a[i] == []
    ensures Stand(cont, ls, a)
  {
  }

  lemma Shrinks(old': seq<L.LinkedList>, new': seq<L.LinkedList>, cont: map<L.Item, Item>, r: seq<seq<Item>>)
    requires L.World(All(old') + All(new'), cont.Keys)
    requires Stand(cont, old', r) && forall i :: 0 <= i < |r| ==> r[i] == []
    ensures L.World(All(new'), cont.Keys)
  {
    forall l | l in All(old') ensures l.items == [] {
      var i :| 0 <= i < |old'| && old'[i] == l;
      assert r[i] == [];
    }
  }

  lemma ListOk(l: L.LinkedList, all: set<L.LinkedList>, cont: map<L.Item, Item>)
    requires L.World(all, cont.Keys) && l in all
    ensures l.Valid() && forall x :: x in l.items ==> x in cont
  {
  }

  lemma HeldWithout(cont: map<L.Item, Item>, q: seq<L.Item>, k: nat)
    requires k < |q|
    ensures Held(cont, q[..k] + q[k + 1..]) == Held(cont, q)[..k] + Held(cont, q)[k + 1..]
  {
  }

  /** The bucket of the item's hash without it. */
  lemma Unlinked(hash: Hasher, a: seq<seq<Item>>, slots: nat, m: map<uint32, nat>, x: Item, k: nat)
    requires Placed(hash, a, slots, m)
    requires var b := a[Bucket(hash, x.key, slots)]; k < |b| && b[k] == x
    ensures var j := Bucket(hash, x.key, slots); Placed(hash, a[j := a[j][..k] + a[j][k + 1..]], slots, m - {x.key})
  {
    var b := a[Bucket(hash, x.key, slots)];
    Removed(b, k);
    RemovePlaced(hash, a, slots, m, x, b[..k] + b[k + 1..]);
  }

  /** The items of the first list move to the second, each to the end of its new bucket. */
  method Redistribute(hash: Hasher, old': seq<L.LinkedList>, new': seq<L.LinkedList>, cont: map<L.Item, Item>,
                      ghost a: seq<seq<Item>>, ghost m: map<uint32, nat>)
    returns (ghost b: seq<seq<Item>>)
    requires L.World(All(old'), cont.Keys) && Distinct(old') && Distinct(new') && All(old') !! All(new')
    requires Stand(cont, old', a) && Placed(hash, a, |old'|, m) && |new'| == 2 * |old'|
    requires forall l :: l in new' ==> l.Valid() && l.items == []
    modifies All(old'), All(new'), cont.Keys
    ensures L.World(All(new'), cont.Keys) && Stand(cont, new', b) && Redistributed(hash, a, |old'|, b)
  {
    hide L.World, Stand, Placed;
    PlacedSize(hash, a, |old'|, m);
    var n := |old'|;
    ghost var all := All(old') + All(new');
    Grows(old', new', cont);
    ghost var r := a;
    b := seq(2 * n, i => []);
    Empties(cont, new', b);
    var i := 0;
    while i != n
      invariant 0 <= i <= n && L.World(all, cont.Keys) && Stand(cont, old', r) && Stand(cont, new', b)
      invariant Halfway(hash, a, r, b, n, i)
    {
      ghost var r', b' := MoveList(hash, old', new', i, all, cont, r, b);
      FeedsTwo(hash, a, n, i, m);
      r, b := r', b';
      i := i + 1;
    }
    Shrinks(old', new', cont, r);
  }

  /** The first i buckets have been dealt out. */
  ghost predicate Halfway(hash: Hasher, a: seq<seq<Item>>, r: seq<seq<Item>>, b: seq<seq<Item>>, n: nat, i: nat)
    requires n > 0
  {
    && |a| == |r| == n && |b| == 2 * n
    && (forall j {:trigger r[j]} :: 0 <= j < n ==> r[j] == if j < i then [] else a[j])
    && (forall j {:trigger b[j]} :: 0 <= j < 2 * n ==>
          b[j] == if Source(j, n) < i then Select(hash, a[Source(j, n)], j, 2 * n) else [])
  }

  /** One turn of the outer loop of nn_hash_rehash. */
  method MoveList(hash: Hasher, old': seq<L.LinkedList>, new': seq<L.LinkedList>, i: nat, ghost all: set<L.LinkedList>,
                  cont: map<L.Item, Item>, ghost r: seq<seq<Item>>, ghost b: seq<seq<Item>>)
    returns (ghost r': seq<seq<Item>>, ghost b': seq<seq<Item>>)
    requires L.World(all, cont.Keys) && All(old') + All(new') <= all && All(old') !! All(new') && Distinct(old')
    requires Distinct(new')
    requires Stand(cont, old', r) && Stand(cont, new', b) && i < |old'| && new' != []
    modifies All(old'), All(new'), cont.Keys
    ensures L.World(all, cont.Keys) && Stand(cont, old', r') && Stand(cont, new', b')
    ensures |r| == |old'| && |b| == |b'| == |new'| && r' == r[i := []]
    ensures forall j {:trigger b'[j]} :: 0 <= j < |new'| ==> b'[j] == b[j] + Select(hash, r[i], j, |new'|)
  {
    hide L.World, Stand;
    r', b' := r, b;
    Sizes(cont, old', r);
    Sizes(cont, new', b);
    Front(old', i, all, cont, r);
    while old'[i].first != null
      invariant L.World(all, cont.Keys) && Stand(cont, old', r') && Stand(cont, new', b')
      invariant |r'| == |r| && |b'| == |b| && r' == r[i := r'[i]] && (old'[i].first == null <==> r'[i] == [])
      invariant Dealing(hash, r[i], r'[i], b, b')
      decreases |r'[i]|
    {
      r', b' := MoveFirst(hash, old', new', i, all, cont, r', b', r[i], b);
      Front(old', i, all, cont, r');
    }
  }

  /** What is still in the bucket will complete what has been dealt out of it. */
  ghost predicate Dealing(hash: Hasher, bucket: seq<Item>, rest: seq<Item>, b: seq<seq<Item>>, b': seq<seq<Item>>) {
    && |b'| == |b| > 0
    && forall j {:trigger b'[j]} :: 0 <= j < |b| ==>
         b'[j] + Select(hash, rest, j, |b|) == b[j] + Select(hash, bucket, j, |b|)
  }

  lemma Deal(hash: Hasher, bucket: seq<Item>, rest: seq<Item>, b: seq<seq<Item>>, b': seq<seq<Item>>)
    requires Dealing(hash, bucket, rest, b, b') && rest != []
    ensures var s := Bucket(hash, rest[0].key, |b|);
            Dealing(hash, bucket, rest[1..], b, b'[s := b'[s] + [rest[0]]])
  {
    var n := |b|;
    var s := Bucket(hash, rest[0].key, n);
    var t := b'[s := b'[s] + [rest[0]]];
    forall j | 0 <= j < n ensures t[j] + Select(hash, rest[1..], j, n) == b[j] + Select(hash, bucket, j, n) {
      var tail := Select(hash, rest[1..], j, n);
      assert b'[j] + Select(hash, rest, j, n) == b[j] + Select(hash, bucket, j, n);
      assert b'[j] + ([rest[0]] + tail) == b'[j] + [rest[0]] + tail;
    }
  }

  /** One turn of the inner loop: the first item goes to the end of the list of its new hash. */
  method MoveFirst(hash: Hasher, old': seq<L.LinkedList>, new': seq<L.LinkedList>, i: nat, ghost all: set<L.LinkedList>,
                   cont: map<L.Item, Item>, ghost r: seq<seq<Item>>, ghost b: seq<seq<Item>>,
                       ghost bucket: seq<Item>, ghost b0: seq<seq<Item>>)
    returns (ghost r': seq<seq<Item>>, ghost b': seq<seq<Item>>)
    requires L.World(all, cont.Keys) && All(old') + All(new') <= all && All(old') !! All(new') && Distinct(old')
    requires Distinct(new')
    requires Stand(cont, old', r) && Stand(cont, new', b) && i < |old'| == |r| && |new'| == |b0|
    requires old'[i].first != null
    requires Dealing(hash, bucket, r[i], b0, b)
    modifies All(old'), All(new'), cont.Keys
    ensures L.World(all, cont.Keys) && Stand(cont, old', r') && Stand(cont, new', b')
    ensures r[i] != [] && r' == r[i := r[i][1..]] && |b'| == |b| && Dealing(hash, bucket, r'[i], b0, b')
  {
    hide L.World, Stand, Dealing;
    Sizes(cont, new', b);
    DealingSize(hash, bucket, r[i], b0, b);
    Front(old', i, all, cont, r);
    FrontIs(old', i, all, cont, r);
    var hitm := old'[i].first;
    assert old'[i] in All(old');
    ghost var k := UnlinkIn(old', i, hitm, all, cont, r);
    r' := r[i := r[i][1..]];
    assert r[i][..0] + r[i][1..] == r[i][1..];
    var newslot := Bucket(hash, cont[hitm].key, |new'|);
    assert new'[newslot] in All(new');
    ListOk(new'[newslot], all, cont);
    LinkIn(new', newslot, hitm, all, cont, b);
    b' := b[newslot := b[newslot] + [cont[hitm]]];
    Deal(hash, bucket, r[i], b0, b);
  }

  lemma DealingSize(hash: Hasher, bucket: seq<Item>, rest: seq<Item>, b: seq<seq<Item>>, b': seq<seq<Item>>)
    requires Dealing(hash, bucket, rest, b, b')
    ensures |b'| == |b| > 0
  {
  }

  lemma Sizes(cont: map<L.Item, Item>, ls: seq<L.LinkedList>, a: seq<seq<Item>>)
    requires Stand(cont, ls, a)
    ensures |a| == |ls|
  {
  }

  lemma PlacedSize(hash: Hasher, a: seq<seq<Item>>, slots: nat, m: map<uint32, nat>)
    requires Placed(hash, a, slots, m)
    ensures |a| == slots > 0
  {
  }

  /** An empty list stands for an empty bucket. */
  lemma Front(ls: seq<L.LinkedList>, i: nat, all: set<L.LinkedList>, cont: map<L.Item, Item>, a: seq<seq<Item>>)
    requires L.World(all, cont.Keys) && All(ls) <= all && Stand(cont, ls, a) && i < |ls|
    ensures |a| == |ls| && (ls[i].first == null <==> a[i] == [])
    ensures forall x :: x in ls[i].items ==> x in cont
  {
    assert ls[i] in All(ls);
  }

  lemma FrontIs(ls: seq<L.LinkedList>, i: nat, all: set<L.LinkedList>, cont: map<L.Item, Item>, a: seq<seq<Item>>)
    requires L.World(all, cont.Keys) && All(ls) <= all && Stand(cont, ls, a) && i < |ls| && ls[i].first != null
    ensures |a| == |ls| && ls[i].first in cont && ls[i].first in ls[i].items && a[i] != []
    ensures a[i][0] == cont[ls[i].first]
  {
    assert ls[i] in All(ls);
    assert ls[i].items[0] in ls[i].items;
  }

  class Table {
    const hash: Hasher
    var slots: nat
    var items: uint32
    var lists: seq<L.LinkedList>
    var cont: map<L.Item, Item>
    /** The buckets the lists stand for, the finite map these stand for, and how often the table
        has doubled. */
    ghost var buckets: seq<seq<Item>>
    ghost var Map: map<uint32, nat>
    ghost var doublings: nat

    /** The lists are well linked, and stand for the buckets. */
    ghost predicate Shaped()
      reads this, All(lists), cont.Keys
    {
      && Distinct(lists) && |lists| == slots
      && L.World(All(lists), cont.Keys) && Stand(cont, lists, buckets)
    }

    ghost predicate Valid()
      reads this, All(lists), cont.Keys
    {
      Shaped() && Placed(hash, buckets, slots, Map) && Sized(slots, items, |Map|, doublings)
    }

    /** nn_hash_init. */
    constructor (hash: Hasher)
      ensures Valid() && Map == map[] && this.hash == hash && cont == map[] && fresh(All(lists))
    {
      this.hash := hash;
      slots, items, cont := INITIAL_SLOTS, 0, map[];
      buckets, Map, doublings := seq(INITIAL_SLOTS, i => []), map[], 0;
      new;
      lists := NewLists(INITIAL_SLOTS);
      L.EmptyWorld(All(lists), cont.Keys);
    }

    /** nn_hash_get: the item of that key, or null. */
    method Get(key: uint32) returns (it: L.Item?)
      requires Valid()
      ensures it != null <==> key in Map
      ensures it != null ==> it in cont && cont[it] == Item(key, Map[key])
    {
      hide L.World, Sized;
      var slot := Bucket(hash, key, slots);
      var l := lists[slot];
      Known(slot);
      it := l.first;
      ghost var k := 0;
      while it != null && cont[it].key != key
        invariant 0 <= k <= |l.items| && it == (if k == |l.items| then null else l.items[k])
        invariant it != null ==> it in cont
        invariant forall j :: 0 <= j < k ==> buckets[slot][j].key != key
        decreases |l.items| - k
      {
        it := it.next;
        k := k + 1;
      }
      if it != null { assert buckets[slot][k] in buckets[slot]; }
    }

    /** The item's structure takes the key; it is in no list. */
    method Name(item: L.Item, key: uint32, owner: nat)
      requires Shaped() && item.notInList
      modifies this`cont
      ensures Shaped() && cont == old(cont)[item := Item(key, owner)]
    {
      hide L.World, Placed;
      L.Joined(All(lists), cont.Keys, item);
      L.Left(All(lists), cont.Keys, item);
      forall i | 0 <= i < slots
          ensures item !in lists[i].items && lists[i] in All(lists) { assert lists[i] in All(lists); }
      assert cont[item := Item(key, owner)].Keys == cont.Keys + {item};
      Renamed(cont, lists, buckets, item, Item(key, owner));
      cont := cont[item := Item(key, owner)];
    }

    /** nn_hash_erase: the item goes from the list of its hash. */
    method Erase(item: L.Item)
      requires Valid() && item in cont && !item.notInList
      modifies this`items, this`buckets, this`Map, All(lists), cont.Keys
      ensures Valid() && Map == old(Map) - {cont[item].key} && old(cont[item].key in Map) && item.notInList
      ensures slots == old(slots) && lists == old(lists)
    {
      hide L.World, Placed, Sized, Stand;
      Listed(item);
      var slot := Bucket(hash, cont[item].key, slots);
      ghost var v, b := cont[item], buckets;
      KnownItems(slot);
      ghost var k := UnlinkIn(lists, slot, item, All(lists), cont, buckets);
      Unlinked(hash, b, slots, Map, v, k);
      OneLess(slots, items, |Map|, doublings);
      CountRemoved(Map, v.key);
      buckets := b[slot := b[slot][..k] + b[slot][k + 1..]];
      items := (items - 1) % TWO_32;
      Map := Map - {v.key};
    }

    /** nn_hash_insert; the C code asserts that the key is new. */
    method Insert(item: L.Item, key: uint32, owner: nat)
      requires Valid() && key !in Map && item.notInList
      modifies this, All(lists), cont.Keys, item
      ensures Valid() && Map == old(Map)[key := owner] && cont == old(cont)[item := Item(key, owner)]
      ensures slots == if 2 * |Map| > old(slots) && old(slots) < MAX_SLOTS then 2 * old(slots) else old(slots)
      ensures lists == old(lists) || fresh(All(lists))
    {
      hide L.World, Placed, Sized, Stand;
      OneMore(slots, items, |Map|, doublings);
      CountAdded(Map, key, owner);
      LinkLast(item, key, owner);
      items := (items + 1) % TWO_32;
      if items * 2 % TWO_32 > slots && slots < MAX_SLOTS {
        Rehash();
        doublings := doublings + 1;
      }
    }

    /** The item takes the key and goes to the end of the list of its hash. */
    method LinkLast(item: L.Item, key: uint32, owner: nat)
      requires Shaped() && Placed(hash, buckets, slots, Map) && key !in Map && item.notInList
      modifies this`cont, this`buckets, this`Map, All(lists), cont.Keys, item
      ensures Shaped() && Placed(hash, buckets, slots, Map)
      ensures Map == old(Map)[key := owner] && cont == old(cont)[item := Item(key, owner)]
    {
      hide L.World, Placed, Stand;
      AppendPlaced(hash, buckets, slots, Map, Item(key, owner));
      Name(item, key, owner);
      var i := Bucket(hash, key, slots);
      SlotIs();
      KnownItems(i);
      assert lists[i] in All(lists);
      forall x | x in lists[i].items ensures x in old(cont.Keys) || x == item { assert x in cont.Keys; }
      LinkIn(lists, i, item, All(lists), cont, buckets);
      buckets, Map := buckets[i := buckets[i] + [Item(key, owner)]], Map[key := owner];
    }

    /** nn_hash_rehash: twice the slots, list by list, each from its front. */
    method Rehash()
      requires Shaped() && Placed(hash, buckets, slots, Map)
      modifies this`slots, this`lists, this`buckets, All(lists), cont.Keys
      ensures Shaped() && Placed(hash, buckets, slots, Map) && slots == 2 * old(slots) && fresh(All(lists))
      ensures Redistributed(hash, old(buckets), old(slots), buckets)
    {
      hide L.World, Placed, Stand;
      var newlists := NewLists(2 * slots);
      ghost var b := Redistribute(hash, lists, newlists, cont, buckets, Map);
      RehashPlaced(hash, buckets, slots, Map, b);
      slots, lists, buckets := 2 * slots, newlists, b;
    }

    lemma SlotIs()
      requires Placed(hash, buckets, slots, Map)
      ensures slots > 0 && |buckets| == slots
    {
    }

    /** An item that is in a list is in that of its hash, and in the map. */
    lemma Listed(item: L.Item)
      requires Valid() && item in cont && !item.notInList
      ensures var slot := Bucket(hash, cont[item].key, slots);
              item in lists[slot].items && cont[item] in buckets[slot]
      ensures cont[item].key in Map && Map[cont[item].key] == cont[item].owner
    {
      var l :| l in All(lists) && item in l.items;
      var i :| 0 <= i < slots && lists[i] == l;
      var k :| 0 <= k < |l.items| && l.items[k] == item;
      assert buckets[i][k] == cont[item];
      assert cont[item] in buckets[i];
    }

    lemma KnownItems(i: nat)
      requires Shaped() && i < slots
      ensures forall x :: x in lists[i].items ==> x in cont.Keys
      ensures |buckets| == slots
    {
      assert lists[i] in All(lists);
    }

    /** A list of the table is well linked, and what it holds is known. */
    lemma Known(i: nat)
      requires Shaped() && i < slots
      ensures lists[i] in All(lists) && lists[i].Valid() && forall x :: x in lists[i].items ==> x in cont
      ensures buckets[i] == Held(cont, lists[i].items) && |buckets| == slots
    {
      assert lists[i] in All(lists);
    }
  }

  /** An array of empty lists. */
  method NewLists(n: nat) returns (lists: seq<L.LinkedList>)
    ensures |lists| == n && Distinct(lists) && fresh(All(lists))
    ensures forall l :: l in lists ==> l.Valid() && l.items == []
  {
    lists := [];
    while |lists| < n
      invariant |lists| <= n && Distinct(lists) && fresh(All(lists))
      invariant forall l :: l in lists ==> l.Valid() && l.items == []
    {
      var l := new L.LinkedList();
      ghost var was := lists;
      lists := lists + [l];
      assert All(lists) == All(was) + {l};
      assert forall i :: 0 <= i < |was| ==> was[i] != l;
    }
  }

  /** A hash table as nn_hash_init makes it. */
  method NewTable() returns (t: Table)
    ensures fresh(t) && t.Valid() && t.Map == map[] && t.hash == Key
  {
    t := new Table(Key);
  }
}
