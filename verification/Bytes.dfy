/** The bits of a byte, and the masks of the line drawing code. */
module Bytes {
  type Byte = bv8

  datatype Color = Black | White | Inverse

  /** `1 << k` */
  function BitMask(k: nat): Byte
    requires k < 8
  {
    if k == 0 then 0x01 else if k == 1 then 0x02 else if k == 2 then 0x04 else if k == 3 then 0x08
    else if k == 4 then 0x10 else if k == 5 then 0x20 else if k == 6 then 0x40 else 0x80
  }

  predicate Bit(b: Byte, k: nat)
    requires k < 8
  {
    b & BitMask(k) != 0
  }

  function Apply(color: Color, b: Byte, mask: Byte): Byte {
    match color
    case White => b | mask
    case Black => b & !mask
    case Inverse => b ^ mask
  }

  /** What a colour makes of a pixel. */
  predicate Colored(color: Color, on: bool) {
    match color
    case White => true
    case Black => false
    case Inverse => !on
  }

  const PREMASK: seq<Byte> := [0x00, 0x80, 0xC0, 0xE0, 0xF0, 0xF8, 0xFC, 0xFE]
  const POSTMASK: seq<Byte> := [0x00, 0x01, 0x03, 0x07, 0x0F, 0x1F, 0x3F, 0x7F]

  lemma OrBit(a: Byte, b: Byte, k: nat)
    requires k < 8
    ensures Bit(a | b, k) <==> Bit(a, k) || Bit(b, k)
  {
  }

  lemma AndNotBit(a: Byte, b: Byte, k: nat)
    requires k < 8
    ensures Bit(a & !b, k) <==> Bit(a, k) && !Bit(b, k)
  {
  }

  lemma XorBit(a: Byte, b: Byte, k: nat)
    requires k < 8
    ensures Bit(a ^ b, k) <==> Bit(a, k) != Bit(b, k)
  {
    OneHot(a, k);
    OneHot(b, k);
    XorMask(a, b, BitMask(k));
    XorSame(BitMask(k));
  }

  lemma OneHot(a: Byte, k: nat)
    requires k < 8
    ensures BitMask(k) != 0 && (a & BitMask(k) == 0 || a & BitMask(k) == BitMask(k))
  {
  }

  lemma XorMask(a: Byte, b: Byte, m: Byte)
    ensures (a ^ b) & m == (a & m) ^ (b & m)
  {
  }

  lemma XorSame(m: Byte)
    ensures m ^ m == 0 && m ^ 0 == m && 0 ^ m == m && (0 as Byte) ^ 0 == 0
  {
  }

  /** A mask colours the pixels of its bits, and no other. */
  lemma ApplyBit(color: Color, b: Byte, mask: Byte, k: nat)
    requires k < 8
    ensures Bit(Apply(color, b, mask), k) == if Bit(mask, k) then Colored(color, Bit(b, k)) else Bit(b, k)
  {
    hide Bit;
    OrBit(b, mask, k);
    AndNotBit(b, mask, k);
    XorBit(b, mask, k);
  }

  lemma SameBits(a: Byte, b: Byte)
    requires forall k: nat | k < 8 :: Bit(a, k) == Bit(b, k)
    ensures a == b
  {
    assert Bit(a, 0) == Bit(b, 0) && Bit(a, 1) == Bit(b, 1) && Bit(a, 2) == Bit(b, 2) && Bit(a, 3) == Bit(b, 3);
    assert Bit(a, 4) == Bit(b, 4) && Bit(a, 5) == Bit(b, 5) && Bit(a, 6) == Bit(b, 6) && Bit(a, 7) == Bit(b, 7);
  }

  lemma PreMaskBit(m: nat, k: nat)
    requires m < 8 && k < 8
    ensures Bit(PREMASK[m], k) <==> 8 - m <= k
  {
  }

  lemma PostMaskBit(m: nat, k: nat)
    requires m < 8 && k < 8
    ensures Bit(POSTMASK[m], k) <==> k < m
  {
  }

  lemma ShiftBit(n: nat, k: nat)
    requires n < 8 && k < 8
    ensures Bit(0xFF >> n, k) <==> k < 8 - n
  {
  }

  lemma SingleBit(m: nat, k: nat)
    requires m < 8 && k < 8
    ensures Bit(BitMask(m), k) <==> k == m
  {
  }

  lemma BothBits(a: Byte, b: Byte, k: nat)
    requires k < 8
    ensures Bit(a & b, k) <==> Bit(a, k) && Bit(b, k)
  {
  }

  lemma FullBit(k: nat)
    requires k < 8
    ensures Bit(0xFF, k)
  {
  }

  /** Writing a whole byte is colouring all of it. */
  lemma Solid(b: Byte)
    ensures Apply(White, b, 0xFF) == 0xFF && Apply(Black, b, 0xFF) == 0x00
  {
  }
}
