// Polynomials over GF(2): schoolbook long division by x^16 + x^12 + x^5 + 1, the
// 16-bit shift registers that carry it out, and the equality of the two.
// This is the reference that the table-driven CRC of Crc16.dfy is measured against.
module Gf2 {

  // ---------------------------------------------------------------- bit vectors

  function Xor(a: bv16, b: bv16): bv16 {
    a ^ b
  }

  function Shl(a: bv16): bv16 {
    a << 1
  }

  predicate TopSet(a: bv16) {
    a & 0x8000 != 0
  }

  lemma XorAssociative(a: bv16, b: bv16, c: bv16)
    ensures Xor(Xor(a, b), c) == Xor(a, Xor(b, c))
  {
  }

  lemma XorCommutative(a: bv16, b: bv16)
    ensures Xor(a, b) == Xor(b, a)
  {
  }

  lemma XorZero(a: bv16)
    ensures Xor(a, 0) == a
  {
  }

  lemma XorCancels(a: bv16, b: bv16)
    ensures Xor(Xor(a, b), b) == a
  {
  }

  lemma XorInterchange(a: bv16, b: bv16, c: bv16, d: bv16)
    ensures Xor(Xor(a, b), Xor(c, d)) == Xor(Xor(a, c), Xor(b, d))
  {
    hide Xor;
    XorAssociative(a, b, Xor(c, d));
    XorAssociative(b, c, d);
    XorCommutative(b, c);
    XorAssociative(c, b, d);
    XorAssociative(a, c, Xor(b, d));
  }

  lemma TopXor(a: bv16, b: bv16)
    ensures TopSet(Xor(a, b)) == (TopSet(a) != TopSet(b))
  {
  }

  lemma ShlXor(a: bv16, b: bv16)
    ensures Shl(Xor(a, b)) == Xor(Shl(a), Shl(b))
  {
  }

  // ------------------------------------------- reference: long division mod 2

  // A polynomial is the sequence of its coefficients, highest degree first.
  // x^16 + x^12 + x^5 + 1 (ITU-T Recommendation V.41, section 2).
  const GENERATOR: seq<bool> := [
    true,
    false, false, false, true, false, false, false, false,
    false, false, true, false, false, false, false, true
  ]

  // Schoolbook long division: while the dividend has degree 16 or more, subtract the
  // generator under a leading 1 and drop the leading coefficient.
  function Remainder(dividend: seq<bool>): (r: seq<bool>)
    requires |dividend| >= 16
    ensures |r| == 16
    decreases |dividend|
  {
    if |dividend| == 16 then dividend else Remainder(Reduce(dividend))
  }

  function Reduce(dividend: seq<bool>): (r: seq<bool>)
    requires |dividend| >= 17
    ensures |r| == |dividend| - 1
    ensures forall k :: 0 <= k < |r| ==>
      r[k] == (dividend[k + 1] != (dividend[0] && k < 16 && GENERATOR[k + 1]))
  {
    seq(|dividend| - 1, k requires 0 <= k < |dividend| - 1 =>
      dividend[k + 1] != (dividend[0] && k < 16 && GENERATOR[k + 1]))
  }

  function Zeros(n: nat): (z: seq<bool>)
    ensures |z| == n
    ensures forall k :: 0 <= k < n ==> !z[k]
  {
    seq(n, _ => false)
  }

  // --------------------------------------------------------- shift registers

  // multiplication by x modulo the generator
  function XTimes(r: bv16): bv16 {
    if TopSet(r) then Xor(Shl(r), 0x1021) else Shl(r)
  }

  function XPow(n: nat, r: bv16): bv16 {
    if n == 0 then r else XPow(n - 1, XTimes(r))
  }

  function One(b: bool): bv16 {
    if b then 1 else 0
  }

  function Top(b: bool): bv16 {
    if b then 0x8000 else 0
  }

  // The dividing register: the next coefficient enters at the bottom.
  function Divide(r: bv16, bits: seq<bool>): bv16
    decreases |bits|
  {
    if bits == [] then r else Divide(Xor(XTimes(r), One(bits[0])), bits[1..])
  }

  // The encoding register: the next coefficient enters at the top.
  function Encode(r: bv16, bits: seq<bool>): bv16
    decreases |bits|
  {
    if bits == [] then r else Encode(XTimes(Xor(r, Top(bits[0]))), bits[1..])
  }

  // The coefficients held by a register.
  function Bits(n: nat, w: bv16): (bits: seq<bool>)
    ensures |bits| == n
  {
    if n == 0 then [] else [TopSet(w)] + Bits(n - 1, Shl(w))
  }

  // ------------------------------------------------------------------ algebra

  lemma XTimesLinear(a: bv16, b: bv16)
    ensures XTimes(Xor(a, b)) == Xor(XTimes(a), XTimes(b))
  {
    hide Xor, Shl, TopSet;
    TopXor(a, b);
    ShlXor(a, b);
    var p, q, g := Shl(a), Shl(b), 0x1021;
    XorAssociative(p, g, q);
    XorAssociative(p, q, g);
    XorCommutative(g, q);
    XorCancels(Xor(p, q), g);
    XorInterchange(p, g, q, g);
    XorInterchange(p, q, g, g);
    XorCancels(p, g);
    XorAssociative(Xor(p, q), g, g);
  }

  lemma {:induction false} XPowLinear(n: nat, a: bv16, b: bv16)
    ensures XPow(n, Xor(a, b)) == Xor(XPow(n, a), XPow(n, b))
  {
    hide Xor, XTimes;
    if n != 0 {
      XTimesLinear(a, b);
      XPowLinear(n - 1, XTimes(a), XTimes(b));
    }
  }

  lemma {:induction false} XPowCommutes(n: nat, r: bv16)
    ensures XPow(n, XTimes(r)) == XTimes(XPow(n, r))
  {
    hide XTimes;
    if n != 0 {
      XPowCommutes(n - 1, XTimes(r));
    }
  }

  lemma {:induction false} XPowAdds(m: nat, n: nat, r: bv16)
    ensures XPow(m + n, r) == XPow(n, XPow(m, r))
  {
    hide XTimes;
    if m != 0 {
      XPowAdds(m - 1, n, XTimes(r));
    }
  }

  lemma {:induction false} XPowZero(n: nat)
    ensures XPow(n, 0) == 0
  {
    if n != 0 {
      XPowZero(n - 1);
    }
  }

  lemma XPowFour(r: bv16)
    ensures XPow(4, r) == XTimes(XTimes(XTimes(XTimes(r))))
  {
    hide XTimes;
    assert XPow(4, r) == XPow(2, XTimes(XTimes(r)));
    assert XPow(2, XTimes(XTimes(r))) == XPow(0, XTimes(XTimes(XTimes(XTimes(r)))));
  }

  // x^16 is congruent to x^12 + x^5 + 1.
  lemma XPow16OfOne()
    ensures XPow(16, 1) == 0x1021
  {
    assert XTimes(XTimes(XTimes(XTimes(1)))) == 0x10;
    assert XTimes(XTimes(XTimes(XTimes(0x10)))) == 0x100;
    assert XTimes(XTimes(XTimes(XTimes(0x100)))) == 0x1000;
    assert XTimes(XTimes(XTimes(XTimes(0x1000)))) == 0x1021;
    hide XTimes;
    XPowFour(1);
    XPowAdds(4, 12, 1);
    XPowFour(0x10);
    XPowAdds(4, 8, 0x10);
    XPowFour(0x100);
    XPowAdds(4, 4, 0x100);
    XPowFour(0x1000);
  }

  // Multiplication by x is a bijection, because the generator has constant term 1.
  function XOver(r: bv16): bv16 {
    if r & 1 != 0 then (Xor(r, 0x1021) >> 1) | 0x8000 else r >> 1
  }

  lemma UnshiftTop(r: bv16)
    requires r & 0x8000 != 0
    ensures ((((r << 1) ^ 0x1021) ^ 0x1021) >> 1) | 0x8000 == r
  {
    assert (((r << 1) ^ 0x1021) ^ 0x1021) == r << 1;
  }

  lemma ConstantTermSet(r: bv16)
    ensures ((r << 1) ^ 0x1021) & 1 == 1
  {
  }

  lemma ConstantTermClear(r: bv16)
    ensures (r << 1) & 1 == 0
  {
  }

  lemma Unshift(r: bv16)
    requires r & 0x8000 == 0
    ensures (r << 1) >> 1 == r
  {
  }

  lemma XTimesInverse(r: bv16)
    ensures XOver(XTimes(r)) == r
  {
    if TopSet(r) {
      UnshiftTop(r);
      ConstantTermSet(r);
    } else {
      Unshift(r);
      ConstantTermClear(r);
    }
  }

  lemma {:induction false} XPowInjective(n: nat, a: bv16, b: bv16)
    requires XPow(n, a) == XPow(n, b)
    ensures a == b
  {
    hide XTimes, XOver;
    if n != 0 {
      XPowInjective(n - 1, XTimes(a), XTimes(b));
      XTimesInverse(a);
      XTimesInverse(b);
    }
  }

  // ------------------------------------- the dividing register divides

  lemma {:induction false} BitsXor(n: nat, a: bv16, b: bv16, k: nat)
    requires k < n
    ensures Bits(n, Xor(a, b))[k] == (Bits(n, a)[k] != Bits(n, b)[k])
  {
    hide Xor, Shl, TopSet;
    TopXor(a, b);
    ShlXor(a, b);
    if k != 0 {
      BitsXor(n - 1, Shl(a), Shl(b), k - 1);
      assert Bits(n, a)[k] == Bits(n - 1, Shl(a))[k - 1];
      assert Bits(n, b)[k] == Bits(n - 1, Shl(b))[k - 1];
      assert Bits(n, Xor(a, b))[k] == Bits(n - 1, Shl(Xor(a, b)))[k - 1];
    }
  }

  function ShlBy(n: nat, w: bv16): bv16 {
    if n == 0 then w else ShlBy(n - 1, Shl(w))
  }

  lemma {:induction false} BitsAt(n: nat, w: bv16, k: nat)
    requires k < n
    ensures Bits(n, w)[k] == TopSet(ShlBy(k, w))
  {
    hide Shl, TopSet;
    if k != 0 {
      BitsAt(n - 1, Shl(w), k - 1);
    }
  }

  lemma {:induction false} ShlByAdds(m: nat, n: nat, w: bv16)
    ensures ShlBy(m + n, w) == ShlBy(n, ShlBy(m, w))
  {
    hide Shl;
    if m != 0 {
      ShlByAdds(m - 1, n, Shl(w));
    }
  }

  lemma ShlByFour(w: bv16)
    ensures ShlBy(4, w) == w << 4
  {
    assert Shl(Shl(Shl(Shl(w)))) == w << 4;
    hide Shl;
    assert ShlBy(4, w) == ShlBy(2, Shl(Shl(w)));
    assert ShlBy(2, Shl(Shl(w))) == ShlBy(0, Shl(Shl(Shl(Shl(w)))));
  }

  lemma ShlBySixteen(w: bv16)
    ensures ShlBy(16, w) == 0
  {
    hide Shl;
    ShlByAdds(4, 12, w);
    ShlByFour(w);
    ShlByAdds(4, 8, w << 4);
    ShlByFour(w << 4);
    ShlByAdds(4, 4, (w << 4) << 4);
    ShlByFour((w << 4) << 4);
    ShlByFour(((w << 4) << 4) << 4);
    assert (((w << 4) << 4) << 4) << 4 == 0;
  }

  // Shifting a register by one place shifts its coefficients by one place.
  lemma ShlBits(w: bv16, k: nat)
    requires k < 16
    ensures Bits(16, Shl(w))[k] == (k < 15 && Bits(16, w)[k + 1])
  {
    BitsAt(16, Shl(w), k);
    if k < 15 {
      BitsAt(16, w, k + 1);
    } else {
      ShlBySixteen(w);
    }
  }

  lemma BitsOfOne(b: bool, k: nat)
    requires k < 16
    ensures Bits(16, One(b))[k] == (b && k == 15)
  {
    if b {
      BitsOfConstant1(k);
    } else {
      BitsOfZero(16, k);
    }
  }

  lemma {:induction false} BitsOfZero(n: nat, k: nat)
    requires k < n
    ensures !Bits(n, 0)[k]
  {
    if k != 0 {
      BitsOfZero(n - 1, k - 1);
    }
  }

  lemma BitsTwo(n: nat, w: bv16)
    requires n >= 2
    ensures Bits(n, w)[0] == TopSet(w)
    ensures Bits(n, w)[1] == TopSet(Shl(w))
    ensures Bits(n, w)[2..] == Bits(n - 2, Shl(Shl(w)))
  {
    hide Shl, TopSet;
    assert Bits(n, w)[1..] == Bits(n - 1, Shl(w));
    assert Bits(n - 1, Shl(w))[1..] == Bits(n - 2, Shl(Shl(w)));
    assert Bits(n, w)[2..] == Bits(n, w)[1..][1..];
  }

  lemma BitsFour(n: nat, w: bv16)
    requires n >= 4
    ensures Bits(n, w)[0] == TopSet(w)
    ensures Bits(n, w)[1] == TopSet(Shl(w))
    ensures Bits(n, w)[2] == TopSet(Shl(Shl(w)))
    ensures Bits(n, w)[3] == TopSet(Shl(Shl(Shl(w))))
    ensures forall k :: 4 <= k < n ==> Bits(n, w)[k] == Bits(n - 4, Shl(Shl(Shl(Shl(w)))))[k - 4]
  {
    hide Shl, TopSet, Bits;
    BitsTwo(n, w);
    var tail := Bits(n, w)[2..];
    assert Bits(n, w)[2] == tail[0] && Bits(n, w)[3] == tail[1];
    BitsTwo(n - 2, Shl(Shl(w)));
    forall k | 4 <= k < n
      ensures Bits(n, w)[k] == Bits(n - 4, Shl(Shl(Shl(Shl(w)))))[k - 4]
    {
      assert Bits(n, w)[k] == tail[k - 2] == tail[2..][k - 4];
    }
  }

  lemma BitsOfConstant1(k: nat)
    requires k < 16
    ensures Bits(16, 1)[k] == (k == 15)
  {
    hide Bits;
    BitsFour(16, 0x0001);
    BitsFour(12, 0x0010);
    BitsFour(8, 0x0100);
    BitsFour(4, 0x1000);
  }

  lemma BitsOfGenerator(k: nat)
    requires k < 16
    ensures Bits(16, 0x1021)[k] == GENERATOR[k + 1]
  {
    hide Bits;
    BitsFour(16, 0x1021);
    BitsFour(12, 0x0210);
    BitsFour(8, 0x2100);
    BitsFour(4, 0x1000);
  }

  // One coefficient after one step of long division on a register.
  lemma ReducedBit(r: bv16, b: bool, k: nat)
    requires k < 16
    ensures Bits(16, Xor(XTimes(r), One(b)))[k]
         == ((if k < 15 then Bits(16, r)[k + 1] else b) != (TopSet(r) && GENERATOR[k + 1]))
  {
    hide Xor, Shl, Bits;
    BitsOfGenerator(k);
    BitsXor(16, XTimes(r), One(b), k);
    BitsXor(16, Shl(r), 0x1021, k);
    BitsOfOne(b, k);
    ShlBits(r, k);
  }

  lemma FirstBit(r: bv16)
    ensures Bits(16, r)[0] == TopSet(r)
  {
  }

  // One step of long division on a register followed by more coefficients.
  lemma ReduceIsShift(r: bv16, bits: seq<bool>)
    requires bits != []
    ensures Reduce(Bits(16, r) + bits) == Bits(16, Xor(XTimes(r), One(bits[0]))) + bits[1..]
  {
    FirstBit(r);
    hide Xor, XTimes, One, Bits;
    var dividend := Bits(16, r) + bits;
    var left, right := Reduce(dividend), Bits(16, Xor(XTimes(r), One(bits[0]))) + bits[1..];
    forall k: nat | k < 16
      ensures left[k] == right[k]
    {
      ReducedBit(r, bits[0], k);
      assert dividend[k + 1] == if k < 15 then Bits(16, r)[k + 1] else bits[0];
    }
    forall k: nat | 16 <= k < |left|
      ensures left[k] == right[k]
    {
      assert dividend[k + 1] == bits[k - 15] == bits[1..][k - 16];
    }
  }

  lemma {:induction false} RegisterDivides(r: bv16, bits: seq<bool>)
    ensures Remainder(Bits(16, r) + bits) == Bits(16, Divide(r, bits))
    decreases |bits|
  {
    hide Xor, XTimes;
    if bits == [] {
      assert Bits(16, r) + bits == Bits(16, r);
    } else {
      ReduceIsShift(r, bits);
      RegisterDivides(Xor(XTimes(r), One(bits[0])), bits[1..]);
    }
  }

  // ------------------------------------- the encoding register divides too

  // Entering a coefficient at the top is entering it at the bottom and
  // multiplying by x^16.
  lemma {:induction false} EncodeIsScaledDivide(r: bv16, bits: seq<bool>)
    ensures Encode(XPow(16, r), bits) == XPow(16, Divide(r, bits))
    decreases |bits|
  {
    if bits != [] {
      assert XTimes(0x8000) == 0x1021 && XTimes(0) == 0;
      hide Xor, XTimes;
      var b := bits[0];
      XPow16OfOne();
      XPowZero(16);
      XPowLinear(16, XTimes(r), One(b));
      XPowCommutes(16, r);
      XTimesLinear(XPow(16, r), Top(b));
      EncodeIsScaledDivide(Xor(XTimes(r), One(b)), bits[1..]);
    }
  }

  lemma {:induction false} DivideAppendZeros(r: bv16, bits: seq<bool>, n: nat)
    ensures Divide(r, bits + Zeros(n)) == XPow(n, Divide(r, bits))
    decreases |bits| + n
  {
    hide Xor, XTimes;
    var all := bits + Zeros(n);
    if bits != [] {
      assert all[1..] == bits[1..] + Zeros(n);
      DivideAppendZeros(Xor(XTimes(r), One(bits[0])), bits[1..], n);
    } else if n != 0 {
      assert all[1..] == [] + Zeros(n - 1);
      XorZero(XTimes(r));
      DivideAppendZeros(XTimes(r), [], n - 1);
    }
  }

  lemma {:induction false} LeadingZeros(n: nat, bits: seq<bool>)
    requires |bits| >= 16
    ensures Remainder(Zeros(n) + bits) == Remainder(bits)
  {
    if n == 0 {
      assert Zeros(0) + bits == bits;
    } else {
      assert Reduce(Zeros(n) + bits) == Zeros(n - 1) + bits;
      LeadingZeros(n - 1, bits);
    }
  }

  // The encoding register, started at zero, holds the remainder of the message
  // polynomial times x^16.
  lemma EncodeIsRemainder(bits: seq<bool>)
    ensures Bits(16, Encode(0, bits)) == Remainder(bits + Zeros(16))
  {
    hide Xor, XTimes, Encode, Divide;
    XPowZero(16);
    EncodeIsScaledDivide(0, bits);
    DivideAppendZeros(0, bits, 16);
    RegisterDivides(0, bits + Zeros(16));
    forall k: nat | k < 16
      ensures Bits(16, 0)[k] == Zeros(16)[k]
    {
      BitsOfZero(16, k);
    }
    assert Bits(16, 0) == Zeros(16);
    LeadingZeros(16, bits + Zeros(16));
  }

  // ------------------------------------------------------------------- parity

  // the parity of the n top coefficients of a register
  function Parity(n: nat, w: bv16): bool {
    if n == 0 then false else TopSet(w) != Parity(n - 1, Shl(w))
  }

  lemma {:induction false} ParityXor(n: nat, a: bv16, b: bv16)
    ensures Parity(n, Xor(a, b)) == (Parity(n, a) != Parity(n, b))
  {
    hide Xor, Shl, TopSet;
    if n != 0 {
      TopXor(a, b);
      ShlXor(a, b);
      ParityXor(n - 1, Shl(a), Shl(b));
    }
  }

  lemma {:induction false} ParitySnoc(n: nat, w: bv16)
    ensures Parity(n + 1, w) == (Parity(n, w) != TopSet(ShlBy(n, w)))
  {
    hide Shl, TopSet;
    if n == 0 {
      assert Parity(1, w) == (TopSet(w) != Parity(0, Shl(w)));
    } else {
      ParitySnoc(n - 1, Shl(w));
    }
  }

  lemma {:induction false} ParityOfZero(n: nat)
    ensures !Parity(n, 0)
  {
    if n != 0 {
      ParityOfZero(n - 1);
    }
  }

  lemma ParityShl(w: bv16)
    ensures Parity(16, Shl(w)) == (Parity(16, w) != TopSet(w))
  {
    assert !TopSet(0);
    hide Shl, TopSet;
    ShlBySixteen(w);
    ParitySnoc(16, w);
    assert Parity(17, w) == (TopSet(w) != Parity(16, Shl(w)));
  }

  lemma ParityFour(n: nat, w: bv16)
    requires n >= 4
    ensures Parity(n, w)
         == (TopSet(w) != (TopSet(Shl(w)) != (TopSet(Shl(Shl(w))) !=
              (TopSet(Shl(Shl(Shl(w)))) != Parity(n - 4, Shl(Shl(Shl(Shl(w)))))))))
  {
    hide Shl, TopSet;
    var v := Shl(Shl(w));
    assert Parity(n, w) == (TopSet(w) != (TopSet(Shl(w)) != Parity(n - 2, v)));
    assert Parity(n - 2, v) == (TopSet(v) != (TopSet(Shl(v)) != Parity(n - 4, Shl(Shl(v)))));
  }

  lemma ParityOfGenerator()
    ensures Parity(16, 0x1021)
  {
    ParityFour(16, 0x1021);
    ParityFour(12, 0x0210);
    ParityFour(8, 0x2100);
    ParityFour(4, 0x1000);
  }

  // The generator is divisible by x + 1, so multiplying by x keeps the parity.
  lemma XTimesKeepsParity(r: bv16)
    ensures Parity(16, XTimes(r)) == Parity(16, r)
  {
    hide Xor, Shl, TopSet, Parity;
    ParityShl(r);
    ParityOfGenerator();
    ParityXor(16, Shl(r), 0x1021);
  }

  lemma {:induction false} XPowKeepsParity(n: nat, r: bv16)
    ensures Parity(16, XPow(n, r)) == Parity(16, r)
  {
    hide XTimes, Parity;
    if n != 0 {
      XTimesKeepsParity(r);
      XPowKeepsParity(n - 1, XTimes(r));
    }
  }
}
