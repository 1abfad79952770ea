/** The ordered set of timeouts (aio/timerset.c), on a linked list, and the worker's loop over the
    expired ones (aio/worker_posix.inc).  The clock is a parameter. */
module TimerSet {
  import opened Util
  import opened Wire
  import L = List

  /** A timer handle, by the list item it embeds, the instant when it is due, and the number of
      the nn_timerset_add call that inserted it. */
  datatype Hndl = Hndl(item: L.Item, timeout: uint64, stamp: nat)

  /** The instant a waiting worker cares about. */
  function Earliest(s: seq<Hndl>): Option<uint64> { if s == [] then None else Some(s[0].timeout) }

  /** h expires before k: by deadline, and in order of insertion between equal deadlines. */
  predicate Before(h: Hndl, k: Hndl) { h.timeout < k.timeout || (h.timeout == k.timeout && h.stamp < k.stamp) }

  ghost predicate Ordered(s: seq<Hndl>) { forall i, j :: 0 <= i < j < |s| ==> Before(s[i], s[j]) }

  ghost predicate OneEach(s: seq<Hndl>) { forall i, j :: 0 <= i < j < |s| ==> s[i].item != s[j].item }

  /** The handles numbered below `adds`, in expiry order, each once. */
  ghost predicate Pending(s: seq<Hndl>, adds: nat) {
    Ordered(s) && OneEach(s) && forall h :: h in s ==> h.stamp < adds
  }

  ghost predicate Has(s: seq<Hndl>, item: L.Item) { exists h :: h in s && h.item == item }

  /** When an item's handle is due, if it has one. */
  ghost function Deadline(s: seq<Hndl>, item: L.Item): (r: Option<uint64>)
    ensures r.Some? <==> Has(s, item)
  {
    if Has(s, item) then
      var h :| h in s && h.item == item;
      Some(h.timeout)
    else None
  }

  lemma DeadlineOf(s: seq<Hndl>, h: Hndl)
    requires OneEach(s) && h in s
    ensures Deadline(s, h.item) == Some(h.timeout)
  {
    forall k | k in s && k.item == h.item ensures k == h {
      var i :| 0 <= i < |s| && s[i] == h;
      var j :| 0 <= j < |s| && s[j] == k;
    }
  }

  /** The same handles of an item, the same deadline. */
  lemma SameDeadline(s: seq<Hndl>, t: seq<Hndl>, item: L.Item)
    requires OneEach(s) && OneEach(t) && forall h: Hndl :: h.item == item ==> (h in s <==> h in t)
    ensures Deadline(s, item) == Deadline(t, item)
  {
    if Has(s, item) {
      var h :| h in s && h.item == item;
      DeadlineOf(s, h);
      DeadlineOf(t, h);
    }
  }

  /** Taking the first handle out takes out its item and no other. */
  lemma TakeFirst(s: seq<Hndl>, item: L.Item)
    requires OneEach(s) && s != []
    ensures Has(s[1..], item) <==> Has(s, item) && item != s[0].item
  {
    assert s == [s[0]] + s[1..];
    if Has(s[1..], item) {
      var i :| 0 <= i < |s[1..]| && s[1..][i].item == item;
      assert s[i + 1].item == item && s[i + 1] in s;
    }
    if Has(s, item) && item != s[0].item {
      var h :| h in s && h.item == item;
      assert h in s[1..];
    }
  }

  /** h put in front of the first handle that is due later. */
  ghost predicate InsertedAt(s: seq<Hndl>, h: Hndl, i: nat) {
    i <= |s| && (forall k :: 0 <= k < i ==> s[k].timeout <= h.timeout) && (i < |s| ==> h.timeout < s[i].timeout)
  }

  lemma InsertedOk(s: seq<Hndl>, adds: nat, h: Hndl, i: nat)
    requires Pending(s, adds) && h.stamp == adds && !Has(s, h.item) && InsertedAt(s, h, i)
    ensures Pending(s[..i] + [h] + s[i..], adds + 1)
  {
    hide Ordered, OneEach;
    InsertedOrdered(s, adds, h, i);
    InsertedOneEach(s, h, i);
    assert s == s[..i] + s[i..];
  }

  lemma InsertedOneEach(s: seq<Hndl>, h: Hndl, i: nat)
    requires OneEach(s) && !Has(s, h.item) && i <= |s|
    ensures OneEach(s[..i] + [h] + s[i..])
  {
    var t := s[..i] + [h] + s[i..];
    assert forall k :: 0 <= k < |t| ==> t[k] == if k < i then s[k] else if k == i then h else s[k - 1];
    assert forall k :: 0 <= k < |s| ==> s[k] in s;
  }

  lemma InsertedOrdered(s: seq<Hndl>, adds: nat, h: Hndl, i: nat)
    requires Ordered(s) && (forall k :: k in s ==> k.stamp < adds) && h.stamp == adds && InsertedAt(s, h, i)
    ensures Ordered(s[..i] + [h] + s[i..])
  {
    var t := s[..i] + [h] + s[i..];
    assert forall k :: 0 <= k < |t| ==> t[k] == if k < i then s[k] else if k == i then h else s[k - 1];
    forall k | 0 <= k < |s| ensures if k < i then Before(s[k], h) else Before(h, s[k]) {
      assert s[k] in s;
      assert k > i ==> Before(s[i], s[k]);
    }
  }

  lemma RemovedOk(s: seq<Hndl>, adds: nat, i: nat)
    requires Pending(s, adds) && i < |s|
    ensures Pending(s[..i] + s[i + 1..], adds)
    ensures forall h :: h in s[..i] + s[i + 1..] <==> h in s && h != s[i]
  {
    var t := s[..i] + s[i + 1..];
    assert forall k :: 0 <= k < |t| ==> t[k] == s[if k < i then k else k + 1];
    assert s == s[..i] + [s[i]] + s[i + 1..];
  }

  /** The list q, with the deadlines in due, is that of the handles s. */
  ghost predicate Matches(q: seq<L.Item>, due: map<L.Item, uint64>, s: seq<Hndl>) {
    |q| == |s| && forall i :: 0 <= i < |s| ==> s[i].item == q[i] && q[i] in due && s[i].timeout == due[q[i]]
  }

  /** An item is in the list when its handle is in the set. */
  lemma HasItem(q: seq<L.Item>, due: map<L.Item, uint64>, s: seq<Hndl>, x: L.Item)
    requires Matches(q, due, s)
    ensures x in q <==> Has(s, x)
  {
    if x in q { var i :| 0 <= i < |q| && q[i] == x; assert s[i] in s; }
    if Has(s, x) {
      var h :| h in s && h.item == x;
      var i :| 0 <= i < |s| && s[i] == h;
      assert q[i] in q;
    }
  }

  /** A new deadline for an item of no handle. */
  lemma StillMatches(q: seq<L.Item>, due: map<L.Item, uint64>, s: seq<Hndl>, x: L.Item, t: uint64)
    requires Matches(q, due, s) && x !in q
    ensures Matches(q, due[x := t], s)
  {
  }

  lemma MatchesInserted(q: seq<L.Item>, due: map<L.Item, uint64>, s: seq<Hndl>, h: Hndl, i: nat)
    requires Matches(q, due, s) && i <= |s| && h.item in due && due[h.item] == h.timeout
    ensures Matches(q[..i] + [h.item] + q[i..], due, s[..i] + [h] + s[i..])
  {
  }

  lemma MatchesRemoved(q: seq<L.Item>, due: map<L.Item, uint64>, s: seq<Hndl>, i: nat)
    requires Matches(q, due, s) && i < |s|
    ensures Matches(q[..i] + q[i + 1..], due, s[..i] + s[i + 1..])
  {
  }

  class Set {
    const list: L.LinkedList
    /** The deadline written into each handle that was ever inserted (nn_cont and its field). */
    var due: map<L.Item, uint64>
    /** The handles the list stands for, and how many have been inserted so far. */
    ghost var timeouts: seq<Hndl>
    ghost var adds: nat

    ghost predicate Valid()
      reads this, list, due.Keys
    {
      L.World({list}, due.Keys) && Matches(list.items, due, timeouts) && Pending(timeouts, adds)
    }

    /** nn_timerset_init. */
    constructor ()
      ensures Valid() && timeouts == [] && adds == 0 && fresh(list) && due == map[]
    {
      list := new L.LinkedList();
      due, timeouts, adds := map[], [], 0;
      new;
      L.EmptyWorld({list}, due.Keys);
    }

    /** nn_timerset_hndl_init: a handle joins those the set may be given. */
    method NewHndl() returns (hndl: L.Item)
      requires Valid()
      modifies this`due
      ensures Valid() && fresh(hndl) && hndl in due && hndl.notInList && due.Keys == old(due.Keys) + {hndl}
    {
      hide L.World, Matches, Pending;
      hndl := new L.Item();
      Known();
      L.Joined({list}, due.Keys, hndl);
      StillMatches(list.items, due, timeouts, hndl, 0);
      assert due[hndl := 0].Keys == due.Keys + {hndl};
      due := due[hndl := 0];
    }

    lemma Known()
      requires L.World({list}, due.Keys)
      ensures list.Valid() && forall x :: x in list.items ==> x in due.Keys
    {
      assert list in {list};
    }

    /** The item's own mark says whether its handle is in the set. */
    lemma Marked(hndl: L.Item)
      requires Valid() && hndl in due
      ensures hndl.notInList <==> hndl !in list.items
      ensures hndl.notInList <==> !Has(timeouts, hndl)
    {
      L.Marked({list}, due.Keys, hndl);
      HasItem(list.items, due, timeouts, hndl);
    }

    /** nn_timerset_add at instant `now`; nn_list_insert wants a handle that is in no list. */
    method Add(now: uint64, timeout: int, hndl: L.Item) returns (first: bool)
      requires Valid() && hndl in due && hndl.notInList
      modifies this, list, due.Keys
      ensures Valid() && adds == old(adds) + 1 && due.Keys == old(due.Keys)
      ensures var h := Hndl(hndl, (now + timeout) % TWO_64, old(adds));
              (forall k :: k in timeouts <==> k in old(timeouts) || k == h)
              && first == (Earliest(timeouts) != Earliest(old(timeouts)))
    {
      hide L.World, Matches, Pending, Has, Earliest;
      SetDue(hndl, (now + timeout) % TWO_64);
      ghost var h, was := Hndl(hndl, due[hndl], adds), timeouts;
      var it;
      ghost var k;
      it, k := Place(due[hndl]);
      first := list.first == it;
      FirstIs(it, k);
      Known();
      assert due.Keys == old(due.Keys);
      Link(hndl, it, k, h);
      InsertedMembers(was, h, k);
      InsertedFirst(was, h, k);
    }

    /** hndl->timeout is written. */
    method SetDue(hndl: L.Item, t: uint64)
      requires Valid() && hndl in due && hndl.notInList
      modifies this`due
      ensures Valid() && due == old(due)[hndl := t]
    {
      hide L.World, Matches, Pending, Has;
      Marked(hndl);
      StillMatches(list.items, due, timeouts, hndl, t);
      assert due[hndl := t].Keys == due.Keys;
      due := due[hndl := t];
    }

    /** The loop of nn_timerset_add: the first handle that is due later. */
    method Place(t: uint64) returns (it: L.Item?, ghost k: nat)
      requires Valid()
      ensures k <= |timeouts| == |list.items| && it == if k == |list.items| then null else list.items[k]
      ensures forall j :: 0 <= j < k ==> timeouts[j].timeout <= t
      ensures k < |timeouts| ==> t < timeouts[k].timeout
    {
      hide L.World, Pending;
      Known();
      it := list.first;
      k := 0;
      while it != null && t >= due[it]
        invariant 0 <= k <= |list.items| && it == (if k == |list.items| then null else list.items[k])
        invariant it != null ==> it in due
        invariant forall j :: 0 <= j < k ==> timeouts[j].timeout <= t
        decreases |list.items| - k
      {
        it := it.next;
        k := k + 1;
      }
    }

    /** The place found is the front when it is the first item. */
    lemma FirstIs(it: L.Item?, k: nat)
      requires Valid() && k <= |list.items| && it == if k == |list.items| then null else list.items[k]
      ensures list.first == it <==> k == 0
    {
      Known();
    }

    /** nn_list_insert at the place found. */
    method Link(hndl: L.Item, it: L.Item?, ghost k: nat, ghost h: Hndl)
      requires Valid() && hndl in due && hndl.notInList && h == Hndl(hndl, due[hndl], adds)
      requires k <= |list.items| && it == (if k == |list.items| then null else list.items[k])
      requires InsertedAt(timeouts, h, k)
      modifies this`timeouts, this`adds, list, list.items, hndl
      ensures Valid() && k <= |old(timeouts)| && timeouts == old(timeouts)[..k] + [h] + old(timeouts)[k..]
      ensures adds == old(adds) + 1
    {
      hide L.World, Matches, Pending, Has, InsertedAt;
      Fits(hndl, k, h);
      OnlyPlace(k);
      ghost var s := timeouts;
      ghost var at := L.InsertIn(list, hndl, it, {list}, due.Keys);
      assert at == k;
      timeouts, adds := s[..k] + [h] + s[k..], adds + 1;
    }

    /** Each item has one place in the list. */
    lemma OnlyPlace(k: nat)
      requires Valid()
      ensures k < |list.items| ==> forall i :: 0 <= i < |list.items| && list.items[i] == list.items[k] ==> i == k
    {
      Known();
    }

    /** With the handle in its place list and handles still match. */
    lemma Fits(hndl: L.Item, k: nat, h: Hndl)
      requires Valid() && hndl in due && hndl.notInList && h == Hndl(hndl, due[hndl], adds)
      requires InsertedAt(timeouts, h, k)
      ensures k <= |timeouts| == |list.items| && hndl !in list.items
      ensures Matches(list.items[..k] + [hndl] + list.items[k..], due, timeouts[..k] + [h] + timeouts[k..])
      ensures Pending(timeouts[..k] + [h] + timeouts[k..], adds + 1)
    {
      Known();
      Marked(hndl);
      InsertedOk(timeouts, adds, h, k);
      MatchesInserted(list.items, due, timeouts, h, k);
    }

    /** nn_timerset_rm; a handle that is in no list is ignored. */
    method Rm(hndl: L.Item) returns (first: bool)
      requires Valid() && hndl in due
      modifies this`timeouts, list, due.Keys
      ensures Valid() && hndl.notInList && forall h :: h in timeouts <==> h in old(timeouts) && h.item != hndl
      ensures first == (old(timeouts) != [] && old(timeouts)[0].item == hndl)
      ensures !first ==> Earliest(timeouts) == Earliest(old(timeouts))
    {
      hide L.World, Matches, Pending, Has;
      Marked(hndl);
      Known();
      FirstItem();
      if hndl.notInList {
        NotThere(hndl);
        return false;
      }
      first := list.first == hndl;
      ghost var s := timeouts;
      ghost var k := Unlink(hndl);
      RemovedItem(s, adds, k, hndl);
    }

    /** nn_list_erase. */
    method Unlink(hndl: L.Item) returns (ghost k: nat)
      requires Valid() && hndl in list.items
      modifies this`timeouts, list, list.items
      ensures Valid() && hndl.notInList && k < |old(timeouts)| && old(timeouts)[k].item == hndl
      ensures timeouts == old(timeouts)[..k] + old(timeouts)[k + 1..]
    {
      hide L.World, Pending, Has;
      Known();
      ghost var q, s := list.items, timeouts;
      var succ;
      succ, k := L.EraseIn(list, hndl, {list}, due.Keys);
      MatchesRemoved(q, due, s, k);
      RemovedOk(s, adds, k);
      timeouts := s[..k] + s[k + 1..];
    }

    lemma NotThere(hndl: L.Item)
      requires Valid() && hndl in due && hndl.notInList
      ensures forall h :: h in timeouts ==> h.item != hndl
    {
      Marked(hndl);
    }

    lemma FirstItem()
      requires Valid()
      ensures |timeouts| == |list.items| && (list.first == null <==> timeouts == [])
      ensures timeouts != [] ==>
          list.first == timeouts[0].item && list.first in due && due[list.first] == timeouts[0].timeout
      ensures timeouts != [] ==> list.first in list.items
    {
      Known();
    }

    /** nn_timerset_timeout. */
    method Timeout(now: uint64) returns (timeout: int)
      requires Valid()
      ensures if timeouts == [] then timeout == -1 else IsWait(timeout, timeouts[0].timeout, now)
    {
      FirstItem();
      if list.first == null { return -1; }
      LowBits(due[list.first] - now);
      timeout := ToInt((due[list.first] - now) % TWO_64);
      if timeout < 0 { timeout := 0; }
    }

    /** nn_timerset_event: null is -EAGAIN. */
    method Event(now: uint64) returns (hndl: L.Item?)
      requires Valid()
      modifies this`timeouts, list, due.Keys
      ensures Valid()
      ensures hndl == null ==> timeouts == old(timeouts) && forall h :: h in timeouts ==> h.timeout > now
      ensures hndl != null ==>
                && old(timeouts) != [] && timeouts == old(timeouts)[1..] && hndl in due && hndl.notInList
                && old(timeouts)[0].item == hndl && old(timeouts)[0].timeout <= now
                && forall h :: h in timeouts ==> Before(old(timeouts)[0], h)
    {
      hide L.World, Matches, Pending, Has;
      FirstItem();
      Known();
      if list.first == null { return null; }
      hndl := list.first;
      if due[hndl] > now {
        NoneBefore(timeouts, adds, now);
        return null;
      }
      ghost var s := timeouts;
      ghost var k := Unlink(hndl);
      FirstOut(s, adds, k);
    }

    /** The worker's loop over the expired timers, at a fixed clock. */
    method ProcessExpired(now: uint64) returns (fired: seq<L.Item>, ghost n: nat)
      requires Valid()
      modifies this`timeouts, list, due.Keys
      ensures Valid() && n <= |old(timeouts)| && timeouts == old(timeouts)[n..]
      ensures |fired| == n && forall i :: 0 <= i < n ==> fired[i] == old(timeouts)[i].item
      ensures forall h :: h in old(timeouts) ==>
                if h.timeout <= now then h in old(timeouts)[..n] && h !in timeouts
                    else h in timeouts && h !in old(timeouts)[..n]
    {
      hide L.World, Matches, Pending, Has;
      ghost var was := timeouts;
      fired, n := [], 0;
      while true
        invariant Valid() && n == |fired| <= |was| && timeouts == was[n..]
        invariant forall i :: 0 <= i < n ==> fired[i] == was[i].item && was[i].timeout <= now
        decreases |timeouts|
      {
        var hndl := Event(now);
        if hndl == null { break; }
        assert was[n..][1..] == was[n + 1..];
        fired, n := fired + [hndl], n + 1;
      }
      assert was == was[..n] + was[n..];
      IsOrdered(was, old(adds));
      Parted(was, was[..n], timeouts, now);
    }
  }

  // ---- What insertion and removal do to the members and to the first ----

  lemma InsertedMembers(s: seq<Hndl>, h: Hndl, i: nat)
    requires i <= |s|
    ensures forall k :: k in s[..i] + [h] + s[i..] <==> k in s || k == h
  {
    assert s == s[..i] + s[i..];
  }

  lemma InsertedFirst(s: seq<Hndl>, h: Hndl, i: nat)
    requires InsertedAt(s, h, i)
    ensures Earliest(s[..i] + [h] + s[i..]) != Earliest(s) <==> i == 0
  {
  }

  lemma RemovedItem(s: seq<Hndl>, adds: nat, i: nat, x: L.Item)
    requires Pending(s, adds) && i < |s| && s[i].item == x
    ensures forall h :: h in s[..i] + s[i + 1..] <==> h in s && h.item != x
    ensures i == 0 <==> s[0].item == x
    ensures i != 0 ==> Earliest(s[..i] + s[i + 1..]) == Earliest(s)
  {
    RemovedOk(s, adds, i);
    forall h | h in s ensures h.item == x <==> h == s[i] { var j :| 0 <= j < |s| && s[j] == h; }
  }

  lemma NoneBefore(s: seq<Hndl>, adds: nat, now: uint64)
    requires Pending(s, adds) && s != [] && s[0].timeout > now
    ensures forall h :: h in s ==> h.timeout > now
  {
  }

  lemma FirstOut(s: seq<Hndl>, adds: nat, k: nat)
    requires Pending(s, adds) && k < |s| && s[k].item == s[0].item
    ensures s[..k] + s[k + 1..] == s[1..] && forall h :: h in s[1..] ==> Before(s[0], h)
  {
    assert k == 0;
    forall h | h in s[1..]
        ensures Before(s[0], h) { var j :| 0 <= j < |s[1..]| && s[1..][j] == h; assert s[j + 1] == h; }
  }

  lemma IsOrdered(s: seq<Hndl>, adds: nat)
    requires Pending(s, adds)
    ensures Ordered(s) && OneEach(s)
  {
  }

  /** The handles split at an instant. */
  lemma Parted(s: seq<Hndl>, fired: seq<Hndl>, left: seq<Hndl>, now: uint64)
    requires s == fired + left && Ordered(s)
    requires (forall h :: h in fired ==> h.timeout <= now) && forall h :: h in left ==> h.timeout > now
    ensures Ordered(fired)
    ensures forall h :: h in s ==> if h.timeout <= now then h in fired && h !in left else h in left && h !in fired
  {
    assert forall i :: 0 <= i < |fired| ==> fired[i] == s[i];
  }

  /** (int) of a 64-bit difference: the low 32 bits, signed. */
  function ToInt(n: uint64): int {
    var low := n % TWO_32;
    if low < TWO_32 / 2 then low else low - TWO_32
  }

  /** t is the one number of milliseconds below 2^31 that leads from now to due modulo 2^32, or
      0 if there is none. */
  predicate IsWait(t: int, due: uint64, now: uint64) {
    && 0 <= t < TWO_32 / 2
    && ((due - now - t) % TWO_32 == 0 || (t == 0 && (due - now) % TWO_32 >= TWO_32 / 2))
  }

  /** The worker waits just until the earliest deadline, and not at all past it, exactly when
      that deadline is less than 2^31 ms away, or past and its age modulo 2^32 at most 2^31. */
  lemma WaitIsExact(t: int, due: uint64, now: uint64)
    requires IsWait(t, due, now)
    ensures t == (if due > now then due - now else 0)
            <==> if due > now then due - now < TWO_32 / 2 else (now - due) % TWO_32 <= TWO_32 / 2
  {
    OnlyWait(t, due - now);
  }

  lemma OnlyWait(t: int, x: int)
    requires 0 <= t < TWO_32 / 2 && ((x - t) % TWO_32 == 0 || (t == 0 && x % TWO_32 >= TWO_32 / 2))
    ensures x > 0 ==> (t == x <==> x < TWO_32 / 2)
    ensures x <= 0 ==> (t == 0 <==> (-x) % TWO_32 <= TWO_32 / 2)
  {
    var q, r := x / TWO_32, x % TWO_32;
    assert x == TWO_32 * q + r;
    if r < t { RestIs(x - t, q - 1, r - t + TWO_32); } else { RestIs(x - t, q, r - t); }
    if r == 0 { RestIs(-x, -q, 0); } else { RestIs(-x, -q - 1, TWO_32 - r); }
  }

  lemma RestIs(a: int, q: int, r: int)
    requires 0 <= r < TWO_32 && a == TWO_32 * q + r
    ensures a % TWO_32 == r
  {
  }

  lemma LowBits(x: int)
    requires -TWO_64 < x < TWO_64
    ensures (x % TWO_64) % TWO_32 == x % TWO_32
  {
    assert TWO_64 == TWO_32 * TWO_32;
    assert x % TWO_64 == if x < 0 then x + TWO_32 * TWO_32 else x;
  }

  /** The list is determined by which handles are in it: order leaves no choice. */
  lemma {:induction false} OrderedUnique(s: seq<Hndl>, t: seq<Hndl>)
    requires Ordered(s) && Ordered(t) && forall h :: h in s <==> h in t
    ensures s == t
  {
    HasFirst(s);
    HasFirst(t);
    if s == [] {
    } else {
      assert s[0] in s && s[0] in t;
      assert t[0] in t && t[0] in s;
      assert s[0] == t[0];
      forall h ensures h in s[1..] <==> h in t[1..] {
        TailMembers(s, h);
        TailMembers(t, h);
      }
      OrderedUnique(s[1..], t[1..]);
      assert s == [s[0]] + s[1..] && t == [t[0]] + t[1..];
    }
  }

  lemma HasFirst(s: seq<Hndl>)
    ensures s != [] ==> exists h :: h in s
  {
    if s != [] { assert s[0] in s; }
  }

  lemma TailMembers(s: seq<Hndl>, h: Hndl)
    requires s != [] && Ordered(s)
    ensures h in s[1..] <==> h in s && h != s[0]
  {
    assert s == [s[0]] + s[1..];
    assert forall k :: 0 <= k < |s[1..]| ==> s[1..][k] == s[k + 1];
  }
}
