/** The intrusive FIFO queue with removal from the middle (utils/queue.c), on the heap. */
module Queue {
  import opened Util

  /** A queue item; `notInQueue` stands for the pointer value NN_QUEUE_NOTINQUEUE. */
  class Item {
    var notInQueue: bool
    var next: Item?

    /** nn_queue_item_init. */
    constructor ()
      ensures notInQueue
    {
      notInQueue, next := true, null;
    }
  }

  /** Every item of s is marked as queued and points to the next one. */
  ghost predicate Linked(s: seq<Item>)
    reads s
  {
    && (forall i {:trigger s[i].notInQueue} :: 0 <= i < |s| ==> !s[i].notInQueue)
    && (s != [] ==> s[|s| - 1].next == null)
    && (forall i {:trigger s[i].next} :: 0 <= i < |s| - 1 ==> s[i].next == s[i + 1])
  }

  class Fifo {
    var head: Item?
    var tail: Item?
    /** The sequence the queue stands for. */
    ghost var items: seq<Item>

    ghost predicate Valid()
      reads this, items
    {
      && Distinct(items) && Linked(items)
      && head == (if items == [] then null else items[0])
      && tail == (if items == [] then null else items[|items| - 1])
    }

    /** nn_queue_init. */
    constructor ()
      ensures Valid() && items == []
    {
      head, tail, items := null, null, [];
    }

    /** nn_queue_push. */
    method Push(item: Item)
      requires Valid() && item !in items
      modifies this, item, items
      ensures Valid() && items == old(items) + [item]
    {
      item.notInQueue, item.next := false, null;
      if head == null { head := item; }
      if tail != null { tail.next := item; }
      tail := item;
      items := items + [item];
    }

    /** nn_queue_pop. */
    method Pop() returns (item: Item?)
      requires Valid()
      modifies this, items
      ensures Valid()
      ensures if old(items) == [] then item == null && items == []
              else item == old(items)[0] && item.notInQueue && items == old(items)[1..]
    {
      if head == null { return null; }
      item := head;
      head := item.next;
      if head == null { tail := null; }
      item.notInQueue, item.next := true, null;
      items := items[1..];
    }

    /** A local copy of another queue, which is then initialised anew. */
    method TakeOver(other: Fifo)
      requires other != this && other.Valid()
      modifies this, other
      ensures Valid() && other.Valid() && items == old(other.items) && other.items == []
    {
      head, tail, items := other.head, other.tail, other.items;
      other.head, other.tail, other.items := null, null, [];
    }

    /** nn_queue_remove: look for the item and unlink it; an item of no queue or of another
        queue leaves everything as it is. */
    method Remove(item: Item) returns (ghost k: nat)
      requires Valid() && (item.notInQueue ==> item !in items)
      modifies this, items
      ensures Valid()
      ensures item !in old(items) ==> items == old(items) && unchanged(this) && unchanged(items)
      ensures item in old(items) ==> k < |old(items)| && old(items)[k] == item && item.notInQueue
      ensures item in old(items) ==> items == old(items)[..k] + old(items)[k + 1..]
    {
      k := 0;
      if item.notInQueue { return; }
      var prev: Item? := null;
      var it := head;
      while it != null && it != item
        invariant k <= |items| && item !in items[..k]
        invariant it == if k == |items| then null else items[k]
        invariant prev == if k == 0 then null else items[k - 1]
        decreases |items| - k
      {
        prev := it;
        it := it.next;
        k := k + 1;
      }
      if it == null { return; }
      Unlink(prev, it, k);
    }

    /** The body of nn_queue_remove's loop once the item is found. */
    method Unlink(prev: Item?, it: Item, ghost k: nat)
      requires Valid() && k < |items| && items[k] == it && prev == if k == 0 then null else items[k - 1]
      modifies this, items
      ensures Valid() && it.notInQueue && items == old(items)[..k] + old(items)[k + 1..]
    {
      if head == it { head := it.next; }
      if tail == it { tail := prev; }
      if prev != null { prev.next := it.next; }
      it.notInQueue, it.next := true, null;
      items := items[..k] + items[k + 1..];
    }
  }

  /** A heap of queues and items: the queues are well linked and share no item, and the
      not-in-queue mark of an item says whether it is in one of them. */
  ghost predicate World(queues: set<Fifo>, all: set<Item>)
    reads queues, all
  {
    && (forall q, x :: q in queues && x in q.items ==> x in all)
    && (forall q :: q in queues ==> q.Valid())
    && (forall q, r, x :: q in queues && r in queues && q != r && x in q.items ==> x !in r.items)
    && (forall x :: x in all && !x.notInQueue ==> exists q :: q in queues && x in q.items)
  }

  /** Queues and items as they are initialised. */
  lemma EmptyWorld(queues: set<Fifo>, all: set<Item>)
    requires forall q :: q in queues ==> q.Valid() && q.items == []
    requires forall x :: x in all ==> x.notInQueue
    ensures World(queues, all)
  {
  }

  /** With a single queue, the mark of an item says whether it is in that. */
  lemma MarkIs(q: Fifo, all: set<Item>, x: Item)
    requires World({q}, all) && x in all
    ensures x.notInQueue <==> x !in q.items
  {
    if x in q.items { var i :| 0 <= i < |q.items| && q.items[i] == x; }
  }

  /** A new item joins, and an item of no queue leaves. */
  lemma Joined(queues: set<Fifo>, all: set<Item>, x: Item)
    requires World(queues, all) && x.notInQueue
    ensures World(queues, all + {x})
  {
  }

  lemma Left(queues: set<Fifo>, all: set<Item>, x: Item)
    requires World(queues, all) && x.notInQueue
    ensures World(queues, all - {x}) && forall q :: q in queues ==> x !in q.items
  {
    forall q | q in queues ensures x !in q.items {
      assert forall i :: 0 <= i < |q.items| ==> q.items[i] != x;
    }
  }

  /** nn_queue_push in such a heap; the C code's assertion is the item's own mark. */
  method PushIn(q: Fifo, item: Item, ghost queues: set<Fifo>, ghost all: set<Item>)
    requires World(queues, all) && q in queues && item in all && item.notInQueue
    modifies q, item, q.items
    ensures World(queues, all) && q.items == old(q.items) + [item]
  {
    q.Push(item);
    forall r | r in queues && r != q ensures r.Valid() {
      assert forall x :: x in r.items ==> x !in old(q.items) && x != item;
      assert forall i :: 0 <= i < |r.items| ==> r.items[i] in r.items;
    }
  }

  /** nn_queue_pop in such a heap: the popped item may be pushed again at once. */
  method PopIn(q: Fifo, ghost queues: set<Fifo>, ghost all: set<Item>) returns (item: Item?)
    requires World(queues, all) && q in queues
    modifies q, q.items
    ensures World(queues, all)
    ensures if old(q.items) == [] then item == null && q.items == []
            else item == old(q.items)[0] && item.notInQueue && q.items == old(q.items)[1..]
  {
    item := q.Pop();
    forall r | r in queues && r != q ensures r.Valid() {
      assert forall x :: x in r.items ==> x !in old(q.items);
      assert forall i :: 0 <= i < |r.items| ==> r.items[i] in r.items;
    }
    assert old(q.items) != [] ==> old(q.items) == [old(q.items)[0]] + old(q.items)[1..];
  }

  /** The local copy in such a heap, into a queue that is empty. */
  method TakeOverIn(q: Fifo, other: Fifo, ghost queues: set<Fifo>, ghost all: set<Item>)
    requires World(queues, all) && q in queues && other in queues && q != other && q.items == []
    modifies q, other
    ensures World(queues, all) && q.items == old(other.items) && other.items == []
  {
    q.TakeOver(other);
    forall r | r in queues ensures r.Valid() { }
    forall x | x in all && !x.notInQueue ensures exists r :: r in queues && x in r.items {
      var r :| r in queues && x in old(r.items);
      assert x in (if r == other then q else r).items;
    }
  }

  /** nn_queue_remove in such a heap, whichever queue the item is in. */
  method RemoveIn(q: Fifo, item: Item, ghost queues: set<Fifo>, ghost all: set<Item>) returns (ghost k: nat)
    requires World(queues, all) && q in queues && item in all
    modifies q, q.items
    ensures World(queues, all)
    ensures item !in old(q.items) ==> q.items == old(q.items) && unchanged(q) && unchanged(q.items)
    ensures item in old(q.items) ==>
              k < |old(q.items)| && old(q.items)[k] == item && item.notInQueue &&
                  q.items == old(q.items)[..k] + old(q.items)[k + 1..]
  {
    k := q.Remove(item);
    forall r | r in queues && r != q ensures r.Valid() {
      assert forall x :: x in r.items ==> x !in old(q.items);
      assert forall i :: 0 <= i < |r.items| ==> r.items[i] in r.items;
    }
    assert item in old(q.items) ==> old(q.items) == old(q.items)[..k] + [item] + old(q.items)[k + 1..];
  }
}
