/** The hash table that doubles (utils/hash.c), on buckets that are sequences: what insertion,
    erasure and rehashing do to them, and the map they stand for.  The table itself, on linked
    lists, is in module HashTable. */
module Hash {
  import opened Util
  import opened Wire
  import opened HashKey

  const INITIAL_SLOTS := 32
  const MAX_SLOTS := 0x8000_0000

  /** A struct nn_hash_item: its key and the object that embeds it. */
  datatype Item = Item(key: uint32, owner: nat)

  /** The hash function; nn_hash_key for a real table. */
  type Hasher = uint32 -> uint32

  function Bucket(hash: Hasher, key: uint32, slots: nat): (i: nat)
    requires slots > 0
    ensures i < slots
  {
    hash(key) % slots
  }

  /** The bucket that feeds bucket j when n slots become 2n. */
  function Source(j: nat, n: nat): nat { if j < n then j else j - n }

  /** The items of a bucket that belong in bucket j of n, in their order. */
  function Select(hash: Hasher, b: seq<Item>, j: nat, n: nat): (r: seq<Item>)
    requires n > 0
  {
    if b == [] then []
    else (if Bucket(hash, b[0].key, n) == j then [b[0]] else []) + Select(hash, b[1..], j, n)
  }

  lemma {:induction false} SelectMembers(hash: Hasher, b: seq<Item>, j: nat, n: nat, x: Item)
    requires n > 0
    ensures x in Select(hash, b, j, n) <==> x in b && Bucket(hash, x.key, n) == j
  {
    if b == [] {
    } else {
      SelectMembers(hash, b[1..], j, n, x);
      assert b == [b[0]] + b[1..];
    }
  }

  /** A bucket keeps nothing for a slot it does not feed. */
  lemma {:induction false} SelectNone(hash: Hasher, b: seq<Item>, j: nat, n: nat)
    requires n > 0 && forall x :: x in b ==> Bucket(hash, x.key, n) != j
    ensures Select(hash, b, j, n) == []
  {
    if b == [] {
    } else {
      SelectNone(hash, b[1..], j, n);
    }
  }

  lemma {:induction false} SelectDistinct(hash: Hasher, b: seq<Item>, j: nat, n: nat)
    requires n > 0 && Distinct(b)
    ensures Distinct(Select(hash, b, j, n))
  {
    if b == [] {
    } else {
      var t := b[1..];
      assert forall i, k :: 0 <= i < k < |t| ==> t[i] == b[i + 1] && t[k] == b[k + 1];
      SelectDistinct(hash, t, j, n);
      SelectMembers(hash, t, j, n, b[0]);
      assert b[0] !in t;
      var s := Select(hash, t, j, n);
      if Bucket(hash, b[0].key, n) == j {
        assert Select(hash, b, j, n) == [b[0]] + s;
        assert forall k :: 0 <= k < |s| ==> s[k] in s;
      } else {
        assert Select(hash, b, j, n) == [] + s == s;
      }
    }
  }

  /** x stands before y. */
  ghost predicate Before(b: seq<Item>, x: Item, y: Item) {
    exists p, q :: 0 <= p < q < |b| && b[p] == x && b[q] == y
  }

  lemma BeforeTail(b: seq<Item>, x: Item, y: Item)
    requires b != []
    ensures Before(b, x, y) <==> (b[0] == x && y in b[1..]) || Before(b[1..], x, y)
  {
    if Before(b, x, y) {
      var p, q :| 0 <= p < q < |b| && b[p] == x && b[q] == y;
      assert b[1..][q - 1] == y && (p > 0 ==> b[1..][p - 1] == x);
    }
    if b[0] == x && y in b[1..] {
      var q :| 0 <= q < |b[1..]| && b[1..][q] == y;
      assert b[q + 1] == y;
    }
    if Before(b[1..], x, y) {
      var p, q :| 0 <= p < q < |b[1..]| && b[1..][p] == x && b[1..][q] == y;
      assert b[p + 1] == x && b[q + 1] == y;
    }
  }

  /** The items selected keep their order. */
  lemma {:induction false} SelectOrder(hash: Hasher, b: seq<Item>, j: nat, n: nat, x: Item, y: Item)
    requires n > 0
    ensures Before(Select(hash, b, j, n), x, y) <==>
        Before(b, x, y) && Bucket(hash, x.key, n) == j && Bucket(hash, y.key, n) == j
  {
    if b != [] {
      var s := Select(hash, b[1..], j, n);
      SelectOrder(hash, b[1..], j, n, x, y);
      SelectMembers(hash, b[1..], j, n, y);
      BeforeTail(b, x, y);
      BeforeTail([b[0]] + s, x, y);
      assert ([b[0]] + s)[1..] == s && [] + s == s;
      hide Before;
    }
  }

  /** Doubling sends the items of bucket i only to i and to i + n. */
  lemma DoubledBucket(hash: Hasher, key: uint32, n: nat)
    requires n > 0
    ensures Source(Bucket(hash, key, 2 * n), n) == Bucket(hash, key, n)
    ensures Bucket(hash, key, 2 * n) == Bucket(hash, key, n) || Bucket(hash, key, 2 * n) == Bucket(hash, key, n) + n
  {
    ModDouble(hash(key), n);
  }

  lemma ModDouble(h: nat, n: nat)
    requires n > 0
    ensures h % (2 * n) == h % n || h % (2 * n) == h % n + n
  {
    var q, r := h / (2 * n), h % (2 * n);
    assert h == (2 * n) * q + r;
    Regroup(n, q, r);
    if r < n { ModIs(h, n, 2 * q, r); } else { ModIs(h, n, 2 * q + 1, r - n); }
  }

  lemma Regroup(n: nat, q: nat, r: int)
    ensures (2 * n) * q + r == n * (2 * q) + r == n * (2 * q + 1) + (r - n)
  {
    assert n * (2 * q + 1) == n * (2 * q) + n;
  }

  lemma ModIs(h: nat, n: nat, q: nat, r: nat)
    requires h == n * q + r && r < n
    ensures h % n == r
  {
    assert h == n * (h / n) + h % n;
    UniqueQuotient(n, h / n, h % n, q, r);
  }

  lemma UniqueQuotient(n: nat, a: nat, r: nat, b: nat, s: nat)
    requires r < n && s < n && n * a + r == n * b + s
    ensures a == b && r == s
  {
    if a < b { AtLeast(n, a, b); }
    if b < a { AtLeast(n, b, a); }
  }

  lemma AtLeast(n: nat, a: nat, b: nat)
    requires a < b
    ensures n * b >= n * a + n
  {
    assert n * b == n * a + n * (b - a);
    assert n * (b - a) == n + n * (b - a - 1);
  }

  /** Every item is in the bucket of its hash, once, and the buckets hold just the map. */
  ghost predicate Placed(hash: Hasher, a: seq<seq<Item>>, slots: nat, m: map<uint32, nat>) {
    slots > 0 && |a| == slots && Homes(hash, a, slots, m) && Once(a) && Present(hash, a, slots, m)
  }

  ghost predicate Homes(hash: Hasher, a: seq<seq<Item>>, slots: nat, m: map<uint32, nat>)
    requires slots > 0 && |a| == slots
  {
    forall i, x :: 0 <= i < slots && x in a[i] ==> x.key in m && m[x.key] == x.owner && Bucket(hash, x.key, slots) == i
  }

  ghost predicate Once(a: seq<seq<Item>>) { forall i :: 0 <= i < |a| ==> Distinct(a[i]) }

  ghost predicate Present(hash: Hasher, a: seq<seq<Item>>, slots: nat, m: map<uint32, nat>)
    requires slots > 0 && |a| == slots
  {
    forall key :: key in m ==> Item(key, m[key]) in a[Bucket(hash, key, slots)]
  }

  /** Bucket j loses x and nothing else. */
  ghost predicate Lost(b: seq<Item>, x: Item, t: seq<Item>) {
    Distinct(t) && forall y :: y in t <==> y in b && y != x
  }

  lemma Removed(b: seq<Item>, it: nat)
    requires Distinct(b) && it < |b|
    ensures Lost(b, b[it], b[..it] + b[it + 1..])
  {
    var t := b[..it] + b[it + 1..];
    assert b == b[..it] + [b[it]] + b[it + 1..];
    assert forall k :: 0 <= k < |t| ==> t[k] == b[if k < it then k else k + 1];
  }

  lemma RemovePlaced(hash: Hasher, a: seq<seq<Item>>, slots: nat, m: map<uint32, nat>, x: Item, t: seq<Item>)
    requires Placed(hash, a, slots, m)
    requires var b := a[Bucket(hash, x.key, slots)]; x in b && Lost(b, x, t)
    ensures Placed(hash, a[Bucket(hash, x.key, slots) := t], slots, m - {x.key})
  {
    var j, m' := Bucket(hash, x.key, slots), m - {x.key};
    var a' := a[j := t];
    forall i, y: Item | 0 <= i < slots && y in a'[i]
        ensures y.key in m' && m'[y.key] == y.owner && Bucket(hash, y.key, slots) == i {
      assert y in a[i];
    }
    forall key | key in m' ensures Item(key, m'[key]) in a'[Bucket(hash, key, slots)] {
      assert Item(key, m[key]) in a[Bucket(hash, key, slots)];
    }
  }

  lemma CountRemoved(m: map<uint32, nat>, key: uint32)
    requires key in m
    ensures |m - {key}| == |m| - 1
  {
    assert m.Keys == (m - {key}).Keys + {key};
  }

  lemma CountAdded(m: map<uint32, nat>, key: uint32, owner: nat)
    requires key !in m
    ensures |m[key := owner]| == |m| + 1
  {
    assert m[key := owner].Keys == m.Keys + {key};
  }

  lemma AppendPlaced(hash: Hasher, a: seq<seq<Item>>, slots: nat, m: map<uint32, nat>, x: Item)
    requires Placed(hash, a, slots, m) && x.key !in m
    ensures var j := Bucket(hash, x.key, slots); Placed(hash, a[j := a[j] + [x]], slots, m[x.key := x.owner])
  {
    var j, m' := Bucket(hash, x.key, slots), m[x.key := x.owner];
    AppendHomes(hash, a, slots, m, x);
    assert x !in a[j];
    assert Present(hash, a[j := a[j] + [x]], slots, m') by {
      forall key | key in m' ensures Item(key, m'[key]) in a[j := a[j] + [x]][Bucket(hash, key, slots)] {
        assert key != x.key ==> Item(key, m[key]) in a[Bucket(hash, key, slots)];
      }
    }
  }

  lemma AppendHomes(hash: Hasher, a: seq<seq<Item>>, slots: nat, m: map<uint32, nat>, x: Item)
    requires slots > 0 && |a| == slots && Homes(hash, a, slots, m) && x.key !in m
    ensures var j := Bucket(hash, x.key, slots); Homes(hash, a[j := a[j] + [x]], slots, m[x.key := x.owner])
  {
    var j, m' := Bucket(hash, x.key, slots), m[x.key := x.owner];
    var a' := a[j := a[j] + [x]];
    forall i, y: Item | 0 <= i < slots && y in a'[i]
        ensures y.key in m' && m'[y.key] == y.owner && Bucket(hash, y.key, slots) == i {
      assert y in a[i] || (y == x && i == j);
    }
  }

  /** The buckets of n slots redistributed over 2n. */
  ghost predicate Redistributed(hash: Hasher, a: seq<seq<Item>>, n: nat, t: seq<seq<Item>>)
    requires n > 0 && |a| == n
  {
    |t| == 2 * n && forall j {:trigger t[j]} :: 0 <= j < 2 * n ==> t[j] == Select(hash, a[Source(j, n)], j, 2 * n)
  }

  lemma RehashPlaced(hash: Hasher, a: seq<seq<Item>>, n: nat, m: map<uint32, nat>, t: seq<seq<Item>>)
    requires Placed(hash, a, n, m) && Redistributed(hash, a, n, t)
    ensures Placed(hash, t, 2 * n, m)
  {
    hide Homes, Once, Present;
    RehashHomes(hash, a, n, m, t);
    RehashOnce(hash, a, n, t);
    RehashPresent(hash, a, n, m, t);
  }

  /** Items that share a bucket after the doubling are in the order they had before it. */
  lemma RehashOrder(hash: Hasher, a: seq<seq<Item>>, n: nat, t: seq<seq<Item>>, j: nat, x: Item, y: Item)
    requires n > 0 && |a| == n && Redistributed(hash, a, n, t) && j < 2 * n
    ensures Before(t[j], x, y) <==>
        Before(a[j % n], x, y) && Bucket(hash, x.key, 2 * n) == j && Bucket(hash, y.key, 2 * n) == j
  {
    SelectOrder(hash, a[Source(j, n)], j, 2 * n, x, y);
    if j < n { ModIs(j, n, 0, j); } else { ModIs(j, n, 1, j - n); }
  }

  lemma RehashHomes(hash: Hasher, a: seq<seq<Item>>, n: nat, m: map<uint32, nat>, t: seq<seq<Item>>)
    requires n > 0 && |a| == n && Homes(hash, a, n, m) && Redistributed(hash, a, n, t)
    ensures Homes(hash, t, 2 * n, m)
  {
    hide Bucket, Select;
    forall j, x: Item | 0 <= j < 2 * n && x in t[j]
        ensures x.key in m && m[x.key] == x.owner && Bucket(hash, x.key, 2 * n) == j {
      SelectMembers(hash, a[Source(j, n)], j, 2 * n, x);
    }
  }

  lemma RehashOnce(hash: Hasher, a: seq<seq<Item>>, n: nat, t: seq<seq<Item>>)
    requires n > 0 && |a| == n && Once(a) && Redistributed(hash, a, n, t)
    ensures Once(t)
  {
    hide Distinct, Select;
    forall j | 0 <= j < 2 * n ensures Distinct(t[j]) { SelectDistinct(hash, a[Source(j, n)], j, 2 * n); }
  }

  lemma RehashPresent(hash: Hasher, a: seq<seq<Item>>, n: nat, m: map<uint32, nat>, t: seq<seq<Item>>)
    requires n > 0 && |a| == n && Present(hash, a, n, m) && Redistributed(hash, a, n, t)
    ensures Present(hash, t, 2 * n, m)
  {
    hide Bucket, Select;
    forall key | key in m ensures Item(key, m[key]) in t[Bucket(hash, key, 2 * n)] {
      DoubledBucket(hash, key, n);
      SelectMembers(hash, a[Bucket(hash, key, n)], Bucket(hash, key, 2 * n), 2 * n, Item(key, m[key]));
    }
  }

  /** The number of slots, and the load at n items. */
  ghost predicate Sized(slots: nat, items: uint32, n: nat, doublings: nat) {
    && slots == INITIAL_SLOTS * Pow2(doublings) && slots <= MAX_SLOTS
    && items == n % TWO_32
    && (2 * n <= slots || slots == MAX_SLOTS)
  }

  lemma OneLess(slots: nat, items: uint32, n: nat, d: nat)
    requires Sized(slots, items, n, d) && n > 0
    ensures Sized(slots, (items - 1) % TWO_32, n - 1, d)
  {
  }

  /** The counter follows the number of items modulo 2^32. */
  lemma Wraps(n: nat)
    ensures (n % TWO_32 + 1) % TWO_32 == (n + 1) % TWO_32
    ensures n < MAX_SLOTS - 1 ==> n % TWO_32 == n && (n + 1) * 2 % TWO_32 == (n + 1) * 2
  {
  }

  /** One item more, the table doubled if its new counter says so. */
  lemma OneMore(slots: nat, items: uint32, n: nat, d: nat)
    requires Sized(slots, items, n, d)
    ensures var more := (items + 1) % TWO_32;
            && (more * 2 % TWO_32 > slots && slots < MAX_SLOTS <==> 2 * (n + 1) > slots && slots < MAX_SLOTS)
            && if 2 * (n + 1) > slots && slots < MAX_SLOTS then Sized(2 * slots, more, n + 1, d + 1)
                else Sized(slots, more, n + 1, d)
  {
    assert Pow2(d + 1) == 2 * Pow2(d) && Pow2(0) == 1;
    hide Pow2;
    PowGrows(0, d);
    Wraps(n);
    if slots < MAX_SLOTS { RoomToDouble(d); }
  }

  /** Below the maximum there is room to double: 2^31 is itself 32 times a power of two. */
  lemma RoomToDouble(d: nat)
    requires INITIAL_SLOTS * Pow2(d) < MAX_SLOTS
    ensures 2 * (INITIAL_SLOTS * Pow2(d)) <= MAX_SLOTS
  {
    assert Pow2(13) == 0x2000;
    assert Pow2(26) == 0x400_0000;
    if d >= 26 { PowGrows(26, d); } else { PowGrows(d, 25); }
  }

  lemma {:induction false} PowGrows(a: nat, b: nat)
    requires a <= b
    ensures Pow2(a) <= Pow2(b)
  {
    if a < b { PowGrows(a, b - 1); }
  }

  /** Bucket i of n keeps nothing for the slots it does not feed. */
  lemma FeedsTwo(hash: Hasher, a: seq<seq<Item>>, n: nat, i: nat, m: map<uint32, nat>)
    requires Placed(hash, a, n, m) && i < n
    ensures forall j {:trigger Source(j, n)} :: 0 <= j < 2 * n && Source(j, n) != i ==>
        Select(hash, a[i], j, 2 * n) == []
  {
    forall j | 0 <= j < 2 * n && Source(j, n) != i ensures Select(hash, a[i], j, 2 * n) == [] {
      forall x | x in a[i] ensures Bucket(hash, x.key, 2 * n) != j { DoubledBucket(hash, x.key, n); }
      SelectNone(hash, a[i], j, 2 * n);
    }
  }
}
