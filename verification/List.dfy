/** The intrusive doubly linked list (utils/list.c), on the heap. */
module List {
  import opened Util

  /** A list item.  `notInList` stands for the pointer value NN_LIST_NOTINLIST in both
      link fields; otherwise they hold a pointer or NULL. */
  class Item {
    var notInList: bool
    var prev: Item?
    var next: Item?

    /** nn_list_item_init. */
    constructor ()
      ensures notInList
    {
      notInList, prev, next := true, null, null;
    }
  }

  /** Every item of s points to its neighbours in s. */
  ghost predicate Linked(s: seq<Item>)
    reads s
  {
    && (forall i {:trigger s[i].notInList} :: 0 <= i < |s| ==> !s[i].notInList)
    && (s != [] ==> s[0].prev == null && s[|s| - 1].next == null)
    && (forall i {:trigger s[i].prev} :: 1 <= i < |s| ==> s[i].prev == s[i - 1])
    && (forall i {:trigger s[i].next} :: 0 <= i < |s| - 1 ==> s[i].next == s[i + 1])
  }

  /** An item spliced in at place k, once it and its two neighbours have been relinked. */
  lemma Spliced(s: seq<Item>, k: nat, x: Item)
    requires Distinct(s) && k <= |s| && x !in s
    requires !x.notInList && forall i {:trigger s[i].notInList} :: 0 <= i < |s| ==> !s[i].notInList
    requires x.prev == (if k == 0 then null else s[k - 1]) && x.next == (if k == |s| then null else s[k])
    requires forall i {:trigger s[i].prev} :: 0 <= i < |s| ==>
        s[i].prev == if i == k then x else if i == 0 then null else s[i - 1]
    requires forall i {:trigger s[i].next} :: 0 <= i < |s| ==>
        s[i].next == if i + 1 == k then x else if i + 1 == |s| then null else s[i + 1]
    ensures Distinct(s[..k] + [x] + s[k..]) && Linked(s[..k] + [x] + s[k..])
  {
    var t := s[..k] + [x] + s[k..];
    forall i | 0 <= i < |t| ensures t[i] == if i < k then s[i] else if i == k then x else s[i - 1] { }
  }

  /** An item taken out at place k, once its two neighbours have been relinked. */
  lemma Unspliced(s: seq<Item>, k: nat)
    requires Distinct(s) && k < |s|
    requires forall i {:trigger s[i].notInList} :: 0 <= i < |s| && i != k ==> !s[i].notInList
    requires forall i {:trigger s[i].prev} :: 0 <= i < |s| && i != k ==>
               s[i].prev == if i == 0 || (i == 1 && k == 0) then null else if i == k + 1 then s[k - 1] else s[i - 1]
    requires forall i {:trigger s[i].next} :: 0 <= i < |s| && i != k ==>
               s[i].next == if i == |s| - 1 || (i == |s| - 2 && k == |s| - 1) then null else if i + 1 == k
                   then s[k + 1] else s[i + 1]
    ensures Distinct(s[..k] + s[k + 1..]) && Linked(s[..k] + s[k + 1..])
  {
    var t := s[..k] + s[k + 1..];
    forall i | 0 <= i < |t| ensures t[i] == if i < k then s[i] else s[i + 1] { }
  }

  class LinkedList {
    var first: Item?
    var last: Item?
    /** The sequence the list stands for. */
    ghost var items: seq<Item>

    ghost predicate Valid()
      reads this, items
    {
      && Distinct(items) && Linked(items)
      && first == (if items == [] then null else items[0])
      && last == (if items == [] then null else items[|items| - 1])
    }

    /** nn_list_init. */
    constructor ()
      ensures Valid() && items == []
    {
      first, last, items := null, null, [];
    }

    /** The pointer updates of nn_list_insert, between p and `it`. */
    method Relink(p: Item?, item: Item, it: Item?)
      requires p != item && it != item && (p == null || p != it)
      modifies this`first, this`last, item, (if p == null then {} else {p})`next, (if it == null then {} else {it})`prev
      ensures item.prev == p && item.next == it && !item.notInList
      ensures p != null ==> p.next == item
      ensures it != null ==> it.prev == item
      ensures first == if old(first) == null || old(first) == it then item else old(first)
      ensures last == if it == null then item else old(last)
    {
      item.prev, item.next, item.notInList := p, it, false;
      if item.prev != null { item.prev.next := item; }
      if item.next != null { item.next.prev := item; }
      if first == null || first == it { first := item; }
      if it == null { last := item; }
    }

    /** nn_list_insert: put the item in front of `it`, or at the end if it is null. */
    method Insert(item: Item, it: Item?) returns (ghost k: nat)
      requires Valid() && item !in items && (it != null ==> it in items)
      modifies this, item, items
      ensures Valid()
      ensures if it == null then k == |old(items)| else k < |old(items)| && old(items)[k] == it
      ensures items == old(items)[..k] + [item] + old(items)[k..]
    {
      k := Place(it);
      var p := if it != null then it.prev else last;
      SpliceIn(item, it, p, k);
    }

    /** The place in front of `it`, or at the end; the item before it is the one p finds. */
    lemma Place(it: Item?) returns (k: nat)
      requires Valid() && (it != null ==> it in items)
      ensures if it == null then k == |items| else k < |items| && items[k] == it
      ensures (if it != null then it.prev else last) == if k == 0 then null else items[k - 1]
    {
      if it == null { k := |items|; } else { k :| 0 <= k < |items| && items[k] == it; }
    }

    method SpliceIn(item: Item, it: Item?, p: Item?, ghost k: nat)
      requires Valid() && item !in items && k <= |items|
      requires p == (if k == 0 then null else items[k - 1]) && it == (if k == |items| then null else items[k])
      modifies this, item, items
      ensures Valid() && items == old(items)[..k] + [item] + old(items)[k..]
    {
      ghost var s := items;
      Relink(p, item, it);
      items := s[..k] + [item] + s[k..];
      Spliced(s, k, item);
    }

    /** nn_list_erase: unlink the item and mark it; the result is the item after it. */
    method Erase(item: Item) returns (succ: Item?, ghost k: nat)
      requires Valid() && item in items
      modifies this, items
      ensures Valid() && item.notInList
      ensures k < |old(items)| && old(items)[k] == item && items == old(items)[..k] + old(items)[k + 1..]
      ensures succ == if k + 1 < |old(items)| then old(items)[k + 1] else null
    {
      k :| 0 <= k < |items| && items[k] == item;
      succ := Bypass(item, k);
      items := items[..k] + items[k + 1..];
    }

    /** The pointer updates of nn_list_erase. */
    method Bypass(item: Item, ghost k: nat) returns (succ: Item?)
      requires Valid() && k < |items| && items[k] == item
      modifies this`first, this`last, items
      ensures var t := items[..k] + items[k + 1..];
              && Distinct(t) && Linked(t)
              && first == (if t == [] then null else t[0])
              && last == (if t == [] then null else t[|t| - 1])
      ensures item.notInList && succ == if k + 1 < |items| then items[k + 1] else null
    {
      assert k > 0 ==> item.prev == items[k - 1];
      assert k + 1 < |items| ==> item.next == items[k + 1];
      if item.prev != null { item.prev.next := item.next; } else { first := item.next; }
      if item.next != null { item.next.prev := item.prev; } else { last := item.prev; }
      succ := item.next;
      item.notInList, item.prev, item.next := true, null, null;
      Unspliced(items, k);
    }
  }

  /** A heap of lists and items: the lists are well linked and share no item, and the
      not-in-list mark of an item says whether it is in one of them. */
  ghost predicate World(lists: set<LinkedList>, all: set<Item>)
    reads lists, all
  {
    && (forall l, x :: l in lists && x in l.items ==> x in all)
    && (forall l :: l in lists ==> l.Valid())
    && (forall l, m, x :: l in lists && m in lists && l != m && x in l.items ==> x !in m.items)
    && (forall x :: x in all && !x.notInList ==> exists l :: l in lists && x in l.items)
  }

  /** Lists and items as they are initialised. */
  lemma EmptyWorld(lists: set<LinkedList>, all: set<Item>)
    requires forall l :: l in lists ==> l.Valid() && l.items == []
    requires forall x :: x in all ==> x.notInList
    ensures World(lists, all)
  {
  }

  lemma Marked(lists: set<LinkedList>, all: set<Item>, x: Item)
    requires World(lists, all) && x in all
    ensures x.notInList <==> forall l :: l in lists ==> x !in l.items
  {
    if x.notInList { Left(lists, all, x); }
  }

  /** A new item joins, and an item of no list leaves. */
  lemma Joined(lists: set<LinkedList>, all: set<Item>, x: Item)
    requires World(lists, all) && x.notInList
    ensures World(lists, all + {x})
  {
  }

  lemma Left(lists: set<LinkedList>, all: set<Item>, x: Item)
    requires World(lists, all) && x.notInList
    ensures World(lists, all - {x}) && forall l :: l in lists ==> x !in l.items
  {
    forall l | l in lists ensures x !in l.items {
      assert forall i :: 0 <= i < |l.items| ==> l.items[i] != x;
    }
  }

  /** nn_list_insert in such a heap; the C code's assertion is the item's own mark. */
  method InsertIn(l: LinkedList, item: Item, it: Item?, ghost lists: set<LinkedList>, ghost all: set<Item>)
    returns (ghost k: nat)
    requires World(lists, all) && l in lists && item in all
    requires item.notInList && (it != null ==> it in l.items)
    modifies l, item, l.items
    ensures World(lists, all)
    ensures if it == null then k == |old(l.items)| else k < |old(l.items)| && old(l.items)[k] == it
    ensures l.items == old(l.items)[..k] + [item] + old(l.items)[k..]
  {
    k := l.Insert(item, it);
    forall m | m in lists && m != l ensures m.Valid() {
      assert forall x :: x in m.items ==> x !in old(l.items) && x != item;
      assert forall i :: 0 <= i < |m.items| ==> m.items[i] in m.items;
    }
    assert forall x :: x in l.items <==> x in old(l.items) || x == item by {
      assert old(l.items) == old(l.items)[..k] + old(l.items)[k..];
    }
  }

  /** nn_list_erase in such a heap: afterwards the item may be inserted anywhere. */
  method EraseIn(l: LinkedList, item: Item, ghost lists: set<LinkedList>, ghost all: set<Item>)
    returns (succ: Item?, ghost k: nat)
    requires World(lists, all) && l in lists && item in l.items
    modifies l, l.items
    ensures World(lists, all) && item.notInList
    ensures k < |old(l.items)| && old(l.items)[k] == item && l.items == old(l.items)[..k] + old(l.items)[k + 1..]
    ensures succ == if k + 1 < |old(l.items)| then old(l.items)[k + 1] else null
  {
    succ, k := l.Erase(item);
    forall m | m in lists && m != l ensures m.Valid() {
      assert forall x :: x in m.items ==> x !in old(l.items) && x != item;
      assert forall i :: 0 <= i < |m.items| ==> m.items[i] in m.items;
    }
    assert forall x :: x in l.items <==> x in old(l.items) && x != item by {
      assert old(l.items) == old(l.items)[..k] + [item] + old(l.items)[k + 1..];
    }
  }
}
