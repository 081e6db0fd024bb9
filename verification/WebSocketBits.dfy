/**
 The bytes of frames: exclusive or bit by bit, the examples of RFC 6455, section 5.7, and
 which close frames are accepted.
 */
module WebSocketBits {
  import opened WebSocketFrames
  import opened WebSocketMessages

  // ------------------------------------------------------------------------------ masking

  predicate Bit(a: nat, i: nat)
  {
    a / Pow2(i) % 2 == 1
  }

  lemma BitOfHalf(a: nat, i: nat)
    requires i > 0
    ensures Bit(a, i) <==> Bit(a / 2, i - 1)
  {
    DivDiv(a, Pow2(i - 1));
  }

  lemma DivDiv(a: nat, p: nat)
    requires p > 0
    ensures a / (2 * p) == a / 2 / p
  {
    var q := a / 2 / p;
    var h := a / 2;
    assert h == q * p + h % p;
    assert a == 2 * h + a % 2 == q * (2 * p) + (2 * (h % p) + a % 2);
    Quotient(a, 2 * p, q, 2 * (h % p) + a % 2);
  }

  lemma Quotient(a: nat, d: nat, q: nat, r: nat)
    requires d > 0 && a == q * d + r && r < d
    ensures a / d == q
  {
    var x: int := a / d - q;
    assert a == (a / d) * d + a % d;
    assert (a / d) * d - q * d == x * d;
    Multiple(x, d);
  }

  lemma {:induction false} NonNegative(k: nat, d: nat)
    ensures k * d >= 0
  {
    if k > 0 {
      NonNegative(k - 1, d);
      assert k * d == (k - 1) * d + d;
    }
  }

  lemma Multiple(x: int, d: nat)
    ensures x > 0 ==> x * d >= d
    ensures x < 0 ==> x * d + d <= 0
  {
    if x > 0 {
      NonNegative(x - 1, d);
      assert x * d == (x - 1) * d + d;
    } else if x < 0 {
      NonNegative(-x - 1, d);
      assert x * d == -((-x - 1) * d) - d;
    }
  }

  /** Exclusive or sets exactly the bits that differ. */
  lemma {:induction false} XorBits(a: nat, b: nat, i: nat)
    ensures Bit(Xor(a, b), i) <==> Bit(a, i) != Bit(b, i)
    decreases i
  {
    var x := Xor(a, b);
    if a == 0 && b == 0 {
      assert 0 / Pow2(i) == 0;
    } else if i == 0 {
      assert x % 2 == if a % 2 != b % 2 then 1 else 0;
    } else {
      assert x / 2 == Xor(a / 2, b / 2);
      BitOfHalf(x, i);
      BitOfHalf(a, i);
      BitOfHalf(b, i);
      XorBits(a / 2, b / 2, i - 1);
    }
  }

  lemma XorByteBits(a: Byte, b: Byte, i: nat)
    requires i < 8
    ensures Bit(XorByte(a, b), i) <==> Bit(a, i) != Bit(b, i)
  {
    XorBits(a, b, i);
  }

  /** Every bit of a masked payload differs from the payload's exactly where the mask has one. */
  lemma MaskedBits(payload: Bytes, mask: Bytes, k: nat, i: nat)
    requires |mask| == 4 && k < |payload| && i < 8
    ensures |Masked(payload, mask)| == |payload|
    ensures Bit(Masked(payload, mask)[k], i) <==> Bit(payload[k], i) != Bit(mask[k % 4], i)
  {
    XorByteBits(payload[k], mask[k % 4], i);
  }

  /** Bytes with the same bits are the same, so this determines what is on the wire. */
  lemma {:induction false} BitsDetermine(a: nat, b: nat, n: nat)
    requires a < Pow2(n) && b < Pow2(n) && forall i: nat :: i < n ==> (Bit(a, i) <==> Bit(b, i))
    ensures a == b
    decreases n
  {
    if n > 0 {
      forall i: nat | i < n - 1
        ensures Bit(a / 2, i) <==> Bit(b / 2, i)
      {
        BitOfHalf(a, i + 1);
        BitOfHalf(b, i + 1);
        assert Bit(a, i + 1) <==> Bit(b, i + 1);
      }
      BitsDetermine(a / 2, b / 2, n - 1);
      assert Bit(a, 0) <==> Bit(b, 0);
    }
  }

  // ------------------------------------------------------------------- examples of the RFC

  const HELLO: Bytes := [0x48, 0x65, 0x6c, 0x6c, 0x6f]
  const MASK: Bytes := [0x37, 0xfa, 0x21, 0x3d]
  const MASKED_HELLO: Bytes := [0x7f, 0x9f, 0x4d, 0x51, 0x58]

  lemma UnmaskedHello()
    ensures Encode(Frame(true, TEXT, None, HELLO)) == [0x81, 0x05] + HELLO
    ensures Encode(Frame(true, PING, None, HELLO)) == [0x89, 0x05] + HELLO
    ensures Encode(Frame(false, TEXT, None, HELLO[..3])) == [0x01, 0x03] + HELLO[..3]
    ensures Encode(Frame(true, CONTINUATION, None, HELLO[3..])) == [0x80, 0x02] + HELLO[3..]
  {
  }

  lemma MaskedH()
    ensures XorByte(0x48, 0x37) == 0x7f
  {
    assert Xor(1, 0) == 1 && Xor(2, 1) == 3 && Xor(4, 3) == 7 && Xor(9, 6) == 15;
    assert Xor(18, 13) == 31 && Xor(36, 27) == 63 && Xor(72, 55) == 127;
  }

  lemma MaskedE()
    ensures XorByte(0x65, 0xfa) == 0x9f
  {
    assert Xor(0, 1) == 1 && Xor(1, 3) == 2 && Xor(3, 7) == 4 && Xor(6, 15) == 9;
    assert Xor(12, 31) == 19 && Xor(25, 62) == 39 && Xor(50, 125) == 79 && Xor(101, 250) == 159;
  }

  lemma MaskedL()
    ensures XorByte(0x6c, 0x21) == 0x4d
  {
    assert Xor(1, 0) == 1 && Xor(3, 1) == 2 && Xor(6, 2) == 4 && Xor(13, 4) == 9;
    assert Xor(27, 8) == 19 && Xor(54, 16) == 38 && Xor(108, 33) == 77;
  }

  lemma MaskedSecondL()
    ensures XorByte(0x6c, 0x3d) == 0x51
  {
    assert Xor(1, 0) == 1 && Xor(3, 1) == 2 && Xor(6, 3) == 5 && Xor(13, 7) == 10;
    assert Xor(27, 15) == 20 && Xor(54, 30) == 40 && Xor(108, 61) == 81;
  }

  lemma MaskedO()
    ensures XorByte(0x6f, 0x37) == 0x58
  {
    assert Xor(1, 0) == 1 && Xor(3, 1) == 2 && Xor(6, 3) == 5 && Xor(13, 6) == 11;
    assert Xor(27, 13) == 22 && Xor(55, 27) == 44 && Xor(111, 55) == 88;
  }

  lemma HelloMasks()
    ensures Masked(HELLO, MASK) == MASKED_HELLO
  {
    MaskedH();
    MaskedE();
    MaskedL();
    MaskedSecondL();
    MaskedO();
    SameFive(Masked(HELLO, MASK), MASKED_HELLO);
  }

  lemma SameFive(a: Bytes, b: Bytes)
    requires |a| == |b| == 5 && a[0] == b[0] && a[1] == b[1] && a[2] == b[2] && a[3] == b[3] && a[4] == b[4]
    ensures a == b
  {
  }

  lemma MaskedHello()
    ensures Encode(Frame(true, TEXT, Some(MASK), HELLO)) == [0x81, 0x85] + MASK + MASKED_HELLO
    ensures Encode(Frame(true, PONG, Some(MASK), HELLO)) == [0x8a, 0x85] + MASK + MASKED_HELLO
  {
    HelloMasks();
  }

  lemma LongFrames(data: Bytes, more: Bytes)
    requires |data| == 256 && |more| == 65536
    ensures Encode(Frame(true, BINARY, None, data)) == [0x82, 0x7e, 0x01, 0x00] + data
    ensures Encode(Frame(true, BINARY, None, more)) == [0x82, 0x7f, 0, 0, 0, 0, 0, 1, 0, 0] + more
  {
    assert BigEndian(256, 2) == [1, 0];
    assert BigEndian(65536, 8) == [0, 0, 0, 0, 0, 1, 0, 0];
  }
}
