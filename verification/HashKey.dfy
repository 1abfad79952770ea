/** nn_hash_key is a permutation of the 32-bit integers (utils/hash.c:142-153).

    Exclusive or is defined on binary digits, a right shift is a division, and the shifts
    left and the product wrap modulo 2^32. */
module HashKey {
  import opened Wire

  function Xor(a: nat, b: nat): nat {
    if a == 0 && b == 0 then 0 else 2 * Xor(a / 2, b / 2) + (a % 2 + b % 2) % 2
  }

  /** x >> s: halve s times. */
  function Shr(x: nat, s: nat): nat { if s == 0 then x else Shr(x / 2, s - 1) }

  function Pow2(s: nat): nat { if s == 0 then 1 else 2 * Pow2(s - 1) }

  lemma {:induction false} XorComm(a: nat, b: nat)
    ensures Xor(a, b) == Xor(b, a)
  {
    if a != 0 || b != 0 { XorComm(a / 2, b / 2); }
  }

  lemma {:induction false} XorAssoc(a: nat, b: nat, c: nat)
    ensures Xor(Xor(a, b), c) == Xor(a, Xor(b, c))
  {
    if a != 0 || b != 0 || c != 0 {
      var l, r := Xor(Xor(a, b), c), Xor(a, Xor(b, c));
      XorAssoc(a / 2, b / 2, c / 2);
      AssocHalves(a, b, c);
      AssocDigit(a, b, c);
      assert l == 2 * (l / 2) + l % 2 && r == 2 * (r / 2) + r % 2;
    }
  }

  lemma AssocHalves(a: nat, b: nat, c: nat)
    ensures Xor(Xor(a, b), c) / 2 == Xor(Xor(a / 2, b / 2), c / 2)
    ensures Xor(a, Xor(b, c)) / 2 == Xor(a / 2, Xor(b / 2, c / 2))
  {
    hide Xor;
    HalfOfXor(a, b);
    HalfOfXor(b, c);
    HalfOfXor(Xor(a, b), c);
    HalfOfXor(a, Xor(b, c));
  }

  lemma AssocDigit(a: nat, b: nat, c: nat)
    ensures Xor(Xor(a, b), c) % 2 == Xor(a, Xor(b, c)) % 2
  {
    hide Xor;
    XorDigits(a, b);
    XorDigits(b, c);
    XorDigits(Xor(a, b), c);
    XorDigits(a, Xor(b, c));
    Parity(a % 2, b % 2, c % 2);
  }

  lemma HalfOfXor(a: nat, b: nat)
    ensures Xor(a, b) / 2 == Xor(a / 2, b / 2)
  {
    XorDigits(a, b);
  }

  lemma Parity(a: nat, b: nat, c: nat)
    requires a < 2 && b < 2 && c < 2
    ensures ((a + b) % 2 + c) % 2 == (a + (b + c) % 2) % 2
  {
  }

  lemma XorDigits(a: nat, b: nat)
    ensures Xor(a, b) / 2 == Xor(a / 2, b / 2) && Xor(a, b) % 2 == (a % 2 + b % 2) % 2
  {
  }

  lemma {:induction false} XorCancel(a: nat)
    ensures Xor(a, a) == 0 && Xor(a, 0) == a && Xor(0, a) == a
  {
    if a != 0 { XorCancel(a / 2); }
  }

  /** A shift distributes over exclusive or. */
  lemma {:induction false} XorShift(a: nat, b: nat, s: nat)
    ensures Shr(Xor(a, b), s) == Xor(Shr(a, s), Shr(b, s))
  {
    if s > 0 {
      XorDigits(a, b);
      XorShift(a / 2, b / 2, s - 1);
    }
  }

  lemma {:induction false} ShrTwice(x: nat, s: nat, t: nat)
    ensures Shr(Shr(x, s), t) == Shr(x, s + t)
  {
    if s > 0 { ShrTwice(x / 2, s - 1, t); }
  }

  lemma {:induction false} ShrOut(x: nat, n: nat, s: nat)
    requires x < Pow2(n) && n <= s
    ensures Shr(x, s) == 0
  {
    if n > 0 { ShrOut(x / 2, n - 1, s - 1); } else if s > 0 { ShrOut(0, 0, s - 1); }
  }

  lemma {:induction false} ShrLess(x: nat, s: nat)
    ensures Shr(x, s) <= x
  {
    if s > 0 { ShrLess(x / 2, s - 1); }
  }

  lemma {:induction false} XorBound(a: nat, b: nat, n: nat)
    requires a < Pow2(n) && b < Pow2(n)
    ensures Xor(a, b) < Pow2(n)
  {
    if n > 0 && (a != 0 || b != 0) { XorBound(a / 2, b / 2, n - 1); }
  }

  lemma Pow32()
    ensures Pow2(32) == TWO_32
  {
    assert Pow2(8) == 256 && Pow2(16) == 65536;
    assert Pow2(24) == 256 * Pow2(16);
    assert Pow2(32) == 256 * Pow2(24);
  }

  lemma XorMeet(k: nat, a: nat, b: nat)
    ensures Xor(Xor(k, a), Xor(a, b)) == Xor(k, b)
  {
    XorAssoc(k, a, Xor(a, b));
    XorAssoc(a, a, b);
    XorCancel(a);
    XorCancel(b);
  }

  /** key ^ (key >> s). */
  function XorShr(k: nat, s: nat): nat { Xor(k, Shr(k, s)) }

  lemma XorShrTwice(k: nat, s: nat)
    ensures XorShr(XorShr(k, s), s) == XorShr(k, s + s)
  {
    var a, b := Shr(k, s), Shr(k, s + s);
    XorShift(k, a, s);
    ShrTwice(k, s, s);
    XorMeet(k, a, b);
  }

  lemma XorShrCommute(k: nat, s: nat, t: nat)
    ensures XorShr(XorShr(k, s), t) == XorShr(XorShr(k, t), s)
  {
    var a, b, c := Shr(k, s), Shr(k, t), Shr(k, s + t);
    XorShift(k, a, t);
    XorShift(k, b, s);
    ShrTwice(k, s, t);
    ShrTwice(k, t, s);
    XorAssoc(k, a, Xor(b, c));
    XorAssoc(k, b, Xor(a, c));
    XorAssoc(a, b, c);
    XorAssoc(b, a, c);
    XorComm(a, b);
  }

  lemma XorShrOut(k: uint32, s: nat)
    requires s >= 32
    ensures XorShr(k, s) == k
  {
    Pow32();
    ShrOut(k, 32, s);
    XorCancel(k);
  }

  lemma XorShrBound(k: uint32, s: nat)
    ensures XorShr(k, s) < TWO_32
  {
    Pow32();
    ShrLess(k, s);
    XorBound(k, Shr(k, s), 32);
  }

  /** The five steps of nn_hash_key. */
  function Step1(k: uint32): nat { Xor(Xor(k, 61), Shr(k, 16)) }
  function Step2(k: uint32): uint32 { (k as int + (k as int * 8) % TWO_32) % TWO_32 }
  function Step3(k: uint32): nat { XorShr(k, 4) }
  function Step4(k: uint32): uint32 { (k as int * 0x27d4eb2d) % TWO_32 }
  function Step5(k: uint32): nat { XorShr(k, 15) }

  function Key(k: uint32): (h: uint32) {
    var k1 := Step1(k);
    assert k1 < TWO_32 by { Step1Bound(k); }
    var k3 := Step3(Step2(k1));
    assert k3 < TWO_32 by { XorShrBound(Step2(k1), 4); }
    var k4 := Step4(k3);
    XorShrBound(k4, 15);
    Step5(k4)
  }

  lemma Step1Bound(k: uint32)
    ensures Step1(k) < TWO_32
  {
    Pow32();
    ShrLess(k, 16);
    XorBound(k, 61, 32);
    XorBound(Xor(k, 61), Shr(k, 16), 32);
  }

  /** The first step does not change the high half. */
  lemma HighHalf(k: uint32)
    ensures Shr(Step1(k), 16) == Shr(k, 16)
  {
    var a := Shr(k, 16);
    XorShift(Xor(k, 61), a, 16);
    XorShift(k, 61, 16);
    assert Pow2(3) == 8 && Pow2(6) == 8 * Pow2(3);
    ShrOut(61, 6, 16);
    ShrTwice(k, 16, 16);
    Pow32();
    ShrOut(k, 32, 32);
    XorCancel(a);
  }

  lemma XorFourCancel(k: nat, c: nat, a: nat)
    ensures Xor(Xor(Xor(Xor(k, c), a), c), a) == k
  {
    var y := Xor(k, c);
    XorAssoc(Xor(y, a), c, a);
    XorComm(c, a);
    XorAssoc(Xor(y, a), a, c);
    XorAssoc(y, a, a);
    XorCancel(a);
    XorCancel(y);
    XorAssoc(k, c, c);
    XorCancel(c);
    XorCancel(k);
  }

  /** The first step is its own inverse. */
  lemma Inverse1(k: uint32)
    ensures Step1(k) < TWO_32 && Step1(Step1(k)) == k
  {
    Step1Bound(k);
    HighHalf(k);
    XorFourCancel(k, 61, Shr(k, 16));
  }

  /** A xor-shift by 4 is undone by xor-shifts by 4, 8 and 16. */
  function Undo3(h: nat): nat { XorShr(XorShr(XorShr(h, 4), 8), 16) }

  lemma Inverse3(k: uint32)
    ensures Undo3(XorShr(k, 4)) == k && Undo3(k) < TWO_32 && XorShr(Undo3(k), 4) == k
  {
    XorShrTwice(k, 4);
    XorShrTwice(k, 8);
    XorShrTwice(k, 16);
    XorShrOut(k, 32);
    XorShrCommute(XorShr(XorShr(k, 4), 8), 16, 4);
    XorShrCommute(XorShr(k, 4), 8, 4);
    XorShrBound(k, 4);
    XorShrBound(XorShr(k, 4), 8);
    XorShrBound(XorShr(XorShr(k, 4), 8), 16);
  }

  /** A xor-shift by 15 is undone by xor-shifts by 15 and 30. */
  function Undo5(h: nat): nat { XorShr(XorShr(h, 15), 30) }

  lemma Inverse5(k: uint32)
    ensures Undo5(XorShr(k, 15)) == k && Undo5(k) < TWO_32 && XorShr(Undo5(k), 15) == k
  {
    XorShrTwice(k, 15);
    XorShrTwice(k, 30);
    XorShrOut(k, 60);
    XorShrCommute(XorShr(k, 15), 30, 15);
    XorShrBound(k, 15);
    XorShrBound(XorShr(k, 15), 30);
  }

  /** An odd multiplier is undone by its reciprocal modulo 2^32. */
  lemma MulInverse(k: uint32, c: nat, d: nat, t: nat)
    requires c * d == 1 + t * TWO_32
    ensures (((k * c) % TWO_32) * d) % TWO_32 == k
  {
    var q, r := (k * c) / TWO_32, (k * c) % TWO_32;
    assert r * d == k * (c * d) - q * TWO_32 * d by {
      assert k * c == q * TWO_32 + r;
      assert (q * TWO_32 + r) * d == k * c * d;
    }
    assert k * (1 + t * TWO_32) == k + k * t * TWO_32;
    assert r * d == k + (k * t - q * d) * TWO_32 by { assert q * TWO_32 * d == q * d * TWO_32; }
    ModPlus(k, k * t - q * d);
  }

  lemma ModPlus(k: uint32, n: int)
    ensures (k + n * TWO_32) % TWO_32 == k
  {
  }

  function Undo2(h: uint32): uint32 { (h as int * 0x38e38e39) % TWO_32 }
  function Undo4(h: uint32): uint32 { (h as int * 0xfb699ca5) % TWO_32 }

  lemma Inverse2(k: uint32)
    ensures Undo2(Step2(k)) == k && Step2(Undo2(k)) == k
  {
    ShiftAdd(k);
    ShiftAdd(Undo2(k));
    assert 9 * 0x38e38e39 == 1 + 2 * TWO_32;
    MulInverse(k, 9, 0x38e38e39, 2);
    MulInverse(k, 0x38e38e39, 9, 2);
  }

  /** key + (key << 3) is a product by nine. */
  lemma ShiftAdd(k: uint32)
    ensures Step2(k) == (k as int * 9) % TWO_32
  {
    var x: int := k;
    assert x + (x * 8) % TWO_32 == x * 9 - ((x * 8) / TWO_32) * TWO_32;
    assert (x * 9) % TWO_32 == (x * 9 - ((x * 8) / TWO_32) * TWO_32) % TWO_32;
  }

  lemma Inverse4(k: uint32)
    ensures Undo4(Step4(k)) == k && Step4(Undo4(k)) == k
  {
    assert 0x27d4eb2d * 0xfb699ca5 == 1 + 0x271e3149 * TWO_32;
    MulInverse(k, 0x27d4eb2d, 0xfb699ca5, 0x271e3149);
    MulInverse(k, 0xfb699ca5, 0x27d4eb2d, 0x271e3149);
  }

  /** The key that has a given full hash. */
  function Unkey(h: uint32): (k: uint32) {
    assert Undo5(h) < TWO_32 by { Inverse5(h); }
    var k3 := Undo4(Undo5(h));
    assert Undo3(k3) < TWO_32 by { Inverse3(k3); }
    Inverse1(Undo2(Undo3(k3)));
    Step1(Undo2(Undo3(k3)))
  }

  lemma Undone(k: uint32)
    ensures Unkey(Key(k)) == k
  {
    Inverse1(k);
    Inverse2(Step1(k));
    var k2 := Step2(Step1(k));
    Inverse3(k2);
    XorShrBound(k2, 4);
    Inverse4(Step3(k2));
    Inverse5(Step4(Step3(k2)));
  }

  /** Distinct keys never share a full hash, and every 32-bit value is the hash of a key. */
  lemma KeyIsPermutation(k: uint32, h: uint32)
    ensures Unkey(Key(k)) == k && Key(Unkey(h)) == h
    ensures Key(k) == Key(h) ==> k == h
  {
    Undone(k);
    Undone(h);
    Inverse5(h);
    var k3 := Undo4(Undo5(h));
    Inverse4(Undo5(h));
    Inverse3(k3);
    Inverse2(Undo3(k3));
    Inverse1(Undo2(Undo3(k3)));
  }
}
