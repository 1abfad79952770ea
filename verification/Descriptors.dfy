/** The table of open sockets and the stack of unused descriptors
    (core/global.c:208-304, 426-502 and 539-553). */
module Descriptors {
  import opened Socket
  import opened SocketCore
  import opened Util

  const MAX_SOCKETS := 512

  const EAFNOSUPPORT := 97
  const EMFILE := 24
  const ETERM := 156384765
  const AF_SP := 1
  const AF_SP_RAW := 2

  type Descriptor = i: int | 0 <= i < MAX_SOCKETS

  /** What nn_sock_init can do to the caller: create the socket or fail. */
  datatype SockInit = Created(hasStop: bool) | Failed(errno: int)

  predicate Refused(domain: int, full: bool, known: bool, outcome: SockInit) {
    (domain != AF_SP && domain != AF_SP_RAW) || full || !known || outcome.Failed?
  }

  /** The error of a refused nn_socket, in the order of its tests. */
  function Refusal(domain: int, full: bool, known: bool, outcome: SockInit): int
    requires Refused(domain, full, known, outcome)
  {
    if domain != AF_SP && domain != AF_SP_RAW then -EAFNOSUPPORT
    else if full then -EMFILE
    else if !known then -EINVAL
    else -outcome.errno
  }

  /** The first MAX - nsocks entries of the stack are exactly the empty slots, without
      repeats, and nsocks counts the others. */
  ghost predicate TableOk(empty: seq<bool>, unused: seq<Descriptor>, nsocks: int) {
    && |empty| == |unused| == MAX_SOCKETS && 0 <= nsocks <= MAX_SOCKETS
    && (forall i, j :: 0 <= i < j < MAX_SOCKETS - nsocks ==> unused[i] != unused[j])
    && (forall s: Descriptor :: empty[s] <==> s in unused[..MAX_SOCKETS - nsocks])
    && nsocks == |Open(empty)|
  }

  function Open(empty: seq<bool>): set<int> {
    set s | 0 <= s < |empty| && !empty[s]
  }

  /** A descriptor popped from the stack names an empty slot, and filling it keeps the table. */
  lemma PopKeeps(empty: seq<bool>, unused: seq<Descriptor>, nsocks: int)
    requires TableOk(empty, unused, nsocks) && nsocks < MAX_SOCKETS
    ensures var s := unused[MAX_SOCKETS - nsocks - 1]; empty[s] && TableOk(empty[s := false], unused, nsocks + 1)
  {
    hide Open;
    var top := MAX_SOCKETS - nsocks - 1;
    var s := unused[top];
    assert unused[..top + 1] == unused[..top] + [s];
    OneMoreOpen(empty, s);
  }

  lemma OneMoreOpen(empty: seq<bool>, s: nat)
    requires s < |empty| && empty[s]
    ensures |Open(empty[s := false])| == |Open(empty)| + 1
  {
    assert Open(empty[s := false]) == Open(empty) + {s};
  }

  /** Clearing an open slot and pushing its descriptor keeps the table. */
  lemma PushKeeps(empty: seq<bool>, unused: seq<Descriptor>, nsocks: int, s: Descriptor)
    requires TableOk(empty, unused, nsocks) && !empty[s]
    ensures nsocks >= 1
    ensures TableOk(empty[s := true], unused[MAX_SOCKETS - nsocks := s], nsocks - 1)
  {
    assert (s as int) in Open(empty);
    assert Open(empty[s := true]) == Open(empty) - {s as int};
    var top := MAX_SOCKETS - nsocks;
    assert unused[top := s][..top + 1] == unused[..top] + [s];
  }

  /** The stack as nn_global_init fills it. */
  lemma InitialTable(empty: seq<bool>, unused: seq<Descriptor>)
    requires |empty| == |unused| == MAX_SOCKETS
    requires forall i :: 0 <= i < MAX_SOCKETS ==> empty[i] && unused[i] == MAX_SOCKETS - i - 1
    ensures TableOk(empty, unused, 0)
  {
    assert Open(empty) == {};
    forall s: Descriptor ensures s in unused[..MAX_SOCKETS] {
      assert unused[..MAX_SOCKETS][MAX_SOCKETS - s - 1] == s;
    }
  }

  function EmptySlots(table: seq<Sock?>): (r: seq<bool>)
    ensures |r| == |table| && forall i :: 0 <= i < |table| ==> (r[i] <==> table[i] == null)
  {
    seq(|table|, i requires 0 <= i < |table| => table[i] == null)
  }

  class Global {
    var socks: array?<Sock?>
    var unused: array<Descriptor>
    var nsocks: int
    var terminating: bool

    /** The global state at every release of the global lock. */
    ghost predicate Valid()
      reads this, socks, unused
    {
      socks == null || (socks.Length == unused.Length == MAX_SOCKETS &&
          TableOk(EmptySlots(socks[..]), unused[..], nsocks))
    }

    constructor ()
      ensures Valid() && socks == null && !terminating
    {
      socks := null;
      unused := new Descriptor[0];
      nsocks := 0;
      terminating := false;
    }

    /** nn_global_init. */
    method Init()
      requires Valid()
      modifies this`socks, this`unused, this`nsocks
      ensures Valid() && socks != null
      ensures old(socks) != null ==> socks == old(socks) && unused == old(unused) && nsocks == old(nsocks)
      ensures old(socks) == null ==>
          fresh(socks) && fresh(unused) && nsocks == 0 && forall i :: 0 <= i < MAX_SOCKETS ==> socks[i] == null
    {
      if socks != null { return; }
      socks := new Sock?[MAX_SOCKETS](i => null);
      nsocks := 0;
      unused := new Descriptor[MAX_SOCKETS];
      var i := 0;
      while i != MAX_SOCKETS
        invariant 0 <= i <= MAX_SOCKETS == unused.Length == socks.Length && fresh(unused) && fresh(socks)
        invariant forall k :: 0 <= k < i ==> unused[k] == MAX_SOCKETS - k - 1
        invariant forall k :: 0 <= k < MAX_SOCKETS ==> socks[k] == null
        modifies unused
      {
        unused[i] := MAX_SOCKETS - i - 1;
        i := i + 1;
      }
      InitialTable(EmptySlots(socks[..]), unused[..]);
    }

    /** nn_global_term: only when no socket remains. */
    method Term()
      requires Valid() && socks != null
      modifies this`socks
      ensures Valid() && socks == if nsocks > 0 then old(socks) else null
    {
      if nsocks > 0 { return; }
      socks := null;
    }

    /** nn_global_create_socket; `known` says that the socket type table has the pair. */
    method CreateSocket(domain: int, known: bool, outcome: SockInit) returns (rc: int)
      requires Valid() && socks != null
      requires outcome.Failed? ==> outcome.errno > 0
      modifies this`nsocks, socks
      ensures Valid()
      ensures rc < 0 <==> Refused(domain, old(nsocks) == MAX_SOCKETS, known, outcome)
      ensures rc >= 0 ==> rc < MAX_SOCKETS && old(socks[rc]) == null && socks[rc] != null && fresh(socks[rc])
      ensures rc >= 0 ==> socks[..] == old(socks[..])[rc := socks[rc]] && nsocks == old(nsocks) + 1
      ensures rc >= 0 ==> socks[rc].View() == Launched(outcome.hasStop) && socks[rc].holds == 1
      ensures rc < 0 ==> socks[..] == old(socks[..]) && nsocks == old(nsocks)
      ensures rc < 0 ==> rc == Refusal(domain, old(nsocks) == MAX_SOCKETS, known, outcome)
      ensures rc == -EMFILE && !outcome.Failed? ==> forall s: Descriptor :: socks[s] != null
    {
      if domain != AF_SP && domain != AF_SP_RAW { return -EAFNOSUPPORT; }
      if nsocks >= MAX_SOCKETS {
        forall s: Descriptor ensures socks[s] != null { assert !EmptySlots(socks[..])[s]; }
        return -EMFILE;
      }
      var s := unused[MAX_SOCKETS - nsocks - 1];
      if !known { return -EINVAL; }
      match outcome {
        case Failed(errno) => return -errno;
        case Created(hasStop) =>
          Fill(s, hasStop);
          return s;
      }
    }

    /** A new socket goes into the slot popped from the stack. */
    method Fill(s: Descriptor, hasStop: bool)
      requires Valid() && socks != null && nsocks < MAX_SOCKETS && s == unused[MAX_SOCKETS - nsocks - 1]
      modifies this`nsocks, socks
      ensures Valid() && nsocks == old(nsocks) + 1
      ensures old(socks[s]) == null && socks[s] != null && fresh(socks[s]) && socks[..] == old(socks[..])[s := socks[s]]
      ensures socks[s].View() == Launched(hasStop) && socks[s].holds == 1
    {
      ghost var before, stack := EmptySlots(socks[..]), unused[..];
      PopKeeps(before, stack, nsocks);
      assert stack[MAX_SOCKETS - nsocks - 1] == s;
      var sock := new Sock(hasStop);
      socks[s] := sock;
      nsocks := nsocks + 1;
      assert EmptySlots(socks[..]) == before[s := false];
      assert unused[..] == stack;
    }

    /** nn_socket, under the global lock. */
    method OpenSocket(domain: int, known: bool, outcome: SockInit) returns (rc: int)
      requires Valid()
      requires outcome.Failed? ==> outcome.errno > 0
      modifies this, socks
      ensures Valid() && terminating == old(terminating)
      ensures terminating ==> rc == -ETERM && socks == old(socks)
      ensures rc >= 0 ==> rc < MAX_SOCKETS && socks != null && socks[rc] != null && fresh(socks[rc])
      ensures rc >= 0 && old(socks) == null ==> forall s: Descriptor :: s != rc ==> socks[s] == null
      ensures rc >= 0 && old(socks) != null ==>
                socks == old(socks) && old(socks[rc]) == null && socks[..] == old(socks[..])[rc := socks[rc]]
      ensures var full := old(socks) != null && old(nsocks) == MAX_SOCKETS;
              && (rc < 0 <==> terminating || Refused(domain, full, known, outcome))
              && (rc < 0 && !terminating ==> rc == Refusal(domain, full, known, outcome))
      ensures rc >= 0 ==> socks[rc].View() == Launched(outcome.hasStop) && socks[rc].holds == 1
      ensures rc < 0 && socks != null ==> socks == old(socks) && socks[..] == old(socks[..])
      ensures rc < 0 && socks == null ==> old(socks) == null || terminating || old(nsocks) == 0
    {
      if terminating { return -ETERM; }
      Init();
      rc := CreateSocket(domain, known, outcome);
      if rc < 0 { Term(); }
    }

    /** The last locked piece of nn_close. */
    method Release(s: Descriptor)
      requires Valid() && socks != null && socks[s] != null
      modifies this`socks, this`nsocks, socks, unused
      ensures Valid()
      ensures nsocks == old(nsocks) - 1
      ensures socks == null <==> nsocks == 0
      ensures socks != null ==> socks == old(socks) && socks[..] == old(socks[..])[s := null]
      // the descriptor just closed is the next one handed out
      ensures socks != null ==> unused[MAX_SOCKETS - nsocks - 1] == s
    {
      PushKeeps(EmptySlots(socks[..]), unused[..], nsocks, s);
      ghost var before, stack := EmptySlots(socks[..]), unused[..];
      socks[s] := null;
      unused[MAX_SOCKETS - nsocks] := s;
      assert EmptySlots(socks[..]) == before[s := true];
      assert unused[..] == stack[MAX_SOCKETS - nsocks := s];
      nsocks := nsocks - 1;
      Term();
    }
  }
}
