/** Bits of small numbers, least significant first, and the bitwise operations the codecs use. */
module Bits {
  import opened Bytes

  predicate Bit(b: nat, k: nat) {
    if k == 0 then b % 2 == 1 else Bit(b / 2, k - 1)
  }

  /** b | 1<<k. */
  function SetBit(b: nat, k: nat): (r: nat)
  {
    if k == 0 then (if b % 2 == 1 then b else b + 1) else 2 * SetBit(b / 2, k - 1) + b % 2
  }

  function Pow2(n: nat): (p: nat)
    ensures p > 0
  {
    if n == 0 then 1 else 2 * Pow2(n - 1)
  }

  function Pack(bits: seq<bool>): (b: nat)
    ensures b < Pow2(|bits|)
  {
    if bits == [] then 0 else (if bits[0] then 1 else 0) + 2 * Pack(bits[1..])
  }

  function PackByte(bits: seq<bool>): (b: byte)
    requires |bits| == 8
    ensures b == Pack(bits)
  {
    ByteRange();
    Pack(bits)
  }

  lemma {:induction false} SetBitSets(b: nat, k: nat, j: nat)
    ensures Bit(SetBit(b, k), j) <==> j == k || Bit(b, j)
  {
    if k > 0 && j > 0 {
      SetBitSets(b / 2, k - 1, j - 1);
    }
  }

  lemma {:induction false} SetBitFits(b: nat, k: nat, n: nat)
    requires b < Pow2(n) && k < n
    ensures SetBit(b, k) < Pow2(n)
  {
    assert Pow2(n) == 2 * Pow2(n - 1);
    if k > 0 {
      assert b / 2 < Pow2(n - 1);
      SetBitFits(b / 2, k - 1, n - 1);
      assert SetBit(b, k) == 2 * SetBit(b / 2, k - 1) + b % 2;
    }
  }

  lemma {:induction false} PackedBit(bits: seq<bool>, k: nat)
    requires k < |bits|
    ensures Bit(Pack(bits), k) == bits[k]
  {
    if k > 0 {
      PackedBit(bits[1..], k - 1);
    }
  }

  lemma {:induction false} SameBitsSameValue(a: nat, b: nat, n: nat)
    requires a < Pow2(n) && b < Pow2(n)
    requires forall k: nat :: k < n ==> Bit(a, k) == Bit(b, k)
    ensures a == b
  {
    if n > 0 {
      assert Bit(a, 0) == Bit(b, 0);
      forall k: nat | k < n - 1 ensures Bit(a / 2, k) == Bit(b / 2, k) {
        assert Bit(a, k + 1) == Bit(b, k + 1);
      }
      SameBitsSameValue(a / 2, b / 2, n - 1);
    }
  }

  lemma ByteRange()
    ensures Pow2(8) == 256
  {
    assert Pow2(4) == 16 && Pow2(8) == 16 * Pow2(4);
  }

  lemma {:induction false} ZeroHasNoBits(k: nat)
    ensures !Bit(0, k)
  {
    if k > 0 {
      ZeroHasNoBits(k - 1);
    }
  }

  /** Bitwise or of the n low bits. */
  function Or(a: nat, b: nat, n: nat): (c: nat)
    ensures c < Pow2(n)
  {
    if n == 0 then 0 else
    (if a % 2 == 1 || b % 2 == 1 then 1 else 0) + 2 * Or(a / 2, b / 2, n - 1)
  }

  lemma {:induction false} OrZero(b: nat, n: nat)
    requires b < Pow2(n)
    ensures Or(0, b, n) == b
  {
    if n > 0 {
      OrZero(b / 2, n - 1);
    }
  }

  lemma Pow2Values()
    ensures Pow2(15) == 0x8000 && Pow2(16) == 0x1_0000
  {
    assert Pow2(4) == 16 && Pow2(8) == 16 * Pow2(4) && Pow2(12) == 16 * Pow2(8) && Pow2(16) == 16 * Pow2(12);
  }

  /** Bitwise exclusive or of the n low bits. */
  function XorLow(a: nat, b: nat, n: nat): (c: nat)
    ensures c < Pow2(n)
  {
    if n == 0 then 0 else
    (if a % 2 != b % 2 then 1 else 0) + 2 * XorLow(a / 2, b / 2, n - 1)
  }

  function Xor(a: byte, b: byte): (c: byte)
  {
    ByteRange();
    XorLow(a, b, 8)
  }

  /** Exclusive or, bit by bit. */
  lemma {:induction false} XorLowBit(a: nat, b: nat, n: nat, k: nat)
    requires k < n
    ensures Bit(XorLow(a, b, n), k) <==> Bit(a, k) != Bit(b, k)
  {
    if k > 0 {
      XorLowBit(a / 2, b / 2, n - 1, k - 1);
    }
  }

  lemma {:induction false} XorBit(a: byte, b: byte, k: nat)
    requires k < 8
    ensures Bit(Xor(a, b), k) <==> Bit(a, k) != Bit(b, k)
  {
    XorLowBit(a, b, 8, k);
  }

  lemma {:induction false} XorBits(a: byte, b: byte)
    ensures forall k: nat | k < 8 :: Bit(Xor(a, b), k) <==> Bit(a, k) != Bit(b, k)
  {
    forall k: nat | k < 8 ensures Bit(Xor(a, b), k) <==> Bit(a, k) != Bit(b, k) {
      XorLowBit(a, b, 8, k);
    }
  }

  /** Or, bit by bit. */
  lemma {:induction false} OrBit(a: nat, b: nat, n: nat, k: nat)
    requires k < n
    ensures Bit(Or(a, b, n), k) <==> Bit(a, k) || Bit(b, k)
  {
    if k > 0 {
      OrBit(a / 2, b / 2, n - 1, k - 1);
    }
  }

  /** The bits of v from bit n on are those of v shifted down. */
  lemma {:induction false} BitShift(v: nat, n: nat, k: nat, q: nat)
    requires q == v / Pow2(n)
    ensures Bit(q, k) == Bit(v, n + k)
  {
    if n > 0 {
      DivPow2(v, n);
      BitShift(v / 2, n - 1, k, q);
    }
  }

  lemma DivPow2(v: nat, n: nat)
    requires n > 0
    ensures v / 2 / Pow2(n - 1) == v / Pow2(n)
  {
    var p := Pow2(n - 1);
    var q, r := v / 2 / p, v / 2 % p;
    assert v / 2 == p * q + r;
    assert v == 2 * (p * q + r) + v % 2 == (2 * p) * q + (2 * r + v % 2);
    DivUnique(v, 2 * p, q, 2 * r + v % 2);
  }

  /** The n low bits of v are those of its remainder. */
  lemma {:induction false} BitLow(v: nat, n: nat, k: nat)
    requires k < n
    ensures Bit(v % Pow2(n), k) == Bit(v, k)
  {
    if k == 0 {
      ModTwo(v, Pow2(n - 1));
    } else {
      ModTwo(v, Pow2(n - 1));
      BitLow(v / 2, n - 1, k - 1);
    }
  }

  lemma ModTwo(v: nat, p: nat)
    requires p > 0
    ensures v % (2 * p) % 2 == v % 2 && v % (2 * p) / 2 == v / 2 % p
  {
    var q, r := v / 2 / p, v / 2 % p;
    assert v / 2 == p * q + r;
    assert v == 2 * (p * q + r) + v % 2 == (2 * p) * q + (2 * r + v % 2);
    DivUnique(v, 2 * p, q, 2 * r + v % 2);
    assert v % (2 * p) == 2 * r + v % 2;
  }

  lemma {:induction false} RangeIsPow2(n: nat)
    ensures Range(n) == Pow2(8 * n)
  {
    if n > 0 {
      RangeIsPow2(n - 1);
      Pow2Add(8, 8 * (n - 1));
      ByteRange();
    }
  }

  lemma {:induction false} Pow2Add(a: nat, b: nat)
    ensures Pow2(a + b) == Pow2(a) * Pow2(b)
  {
    if a > 0 {
      Pow2Add(a - 1, b);
      assert Pow2(a + b) == 2 * Pow2(a + b - 1);
      TwiceTimes(Pow2(a - 1), Pow2(b));
    }
  }

  lemma TwiceTimes(p: nat, q: nat)
    ensures 2 * (p * q) == (2 * p) * q
  {
  }

  /** Bit b of byte j of a number. */
  lemma {:induction false} BitOfByte(v: nat, j: nat, b: nat)
    requires b < 8
    ensures Bit(v / Range(j) % 256, b) == Bit(v, 8 * j + b)
  {
    RangeIsPow2(j);
    ByteRange();
    DivNat(v, Range(j));
    BitLow(v / Range(j), 8, b);
    BitShift(v, 8 * j, b, v / Range(j));
  }

  lemma DivNat(v: nat, d: nat)
    requires d > 0
    ensures v / d >= 0
  {
  }

  lemma {:induction false} XorLowTwice(a: nat, m: nat, n: nat)
    requires a < Pow2(n)
    ensures XorLow(XorLow(a, m, n), m, n) == a
  {
    if n > 0 {
      XorLowTwice(a / 2, m / 2, n - 1);
      XorLowNext(a, m, n);
      XorLowNext(XorLow(a, m, n), m, n);
      assert a == 2 * (a / 2) + a % 2;
    }
  }

  lemma {:induction false} XorLowNext(a: nat, b: nat, n: nat)
    requires n > 0
    ensures var x := XorLow(a, b, n);
            && x == (if a % 2 != b % 2 then 1 else 0) + 2 * XorLow(a / 2, b / 2, n - 1)
            && x / 2 == XorLow(a / 2, b / 2, n - 1) && (x % 2 == 1 <==> a % 2 != b % 2)
  {
  }

  lemma {:induction false} XorLowInjective(m: nat, a: nat, b: nat, n: nat)
    requires a < Pow2(n) && b < Pow2(n) && XorLow(m, a, n) == XorLow(m, b, n)
    ensures a == b
  {
    if n > 0 {
      XorLowInjective(m / 2, a / 2, b / 2, n - 1);
    }
  }

  /** Xor with a fixed byte undoes itself. */
  lemma XorTwice(a: byte, m: byte)
    ensures Xor(Xor(a, m), m) == a
  {
    ByteRange();
    XorLowTwice(a, m, 8);
  }

  lemma XorInjective(m: byte, a: byte, b: byte)
    requires Xor(m, a) == Xor(m, b)
    ensures a == b
  {
    ByteRange();
    XorLowInjective(m, a, b, 8);
  }
}
