/** What one pixel of the turned screen is in the frame buffer. */
module Orientation {
  import opened Bytes
  import opened Frames
  import opened Ssd1306

  /** Each rotation is the one before it, turned by a quarter; after four of them the screen is as it was. */
  lemma QuarterTurn(d: Display, rot: Rotation, buf: seq<Byte>, x: int, y: int, color: Color)
    requires |buf| == d.Size()
    ensures PixelDrawn(d, (rot + 1) % 4, buf, x, y, color)
            == PixelDrawn(d, rot, buf, (if rot % 2 == 0 then d.width else d.height) - 1 - y, x, color)
  {
    hide Apply, Index, BitMask;
  }

  /**
   On the unturned screen, pixel (x, y) is bit `y % 8` of one byte, which white sets, black clears and
   inverse flips; no other bit changes, and nothing changes outside the screen.
   */
  lemma PixelBit(d: Display, buf: seq<Byte>, x: int, y: int, color: Color, i: nat, k: nat)
    requires |buf| == d.Size() && i < d.Size() && k < 8
    ensures var after := PixelDrawn(d, 0, buf, x, y, color);
            if 0 <= x < d.width && 0 <= y < d.height && i == x + (y / 8) * d.width && k == y % 8 then
              match color
              case White => Bit(after[i], k)
              case Black => !Bit(after[i], k)
              case Inverse => Bit(after[i], k) != Bit(buf[i], k)
            else Bit(after[i], k) == Bit(buf[i], k)
  {
    hide Bit, BitMask, Apply, Index;
    if 0 <= x < d.width && 0 <= y < d.height {
      PageOf(d, x, y);
      SingleBit(y % 8, k);
      ApplyBit(color, buf[Index(d, x, y / 8)], BitMask(y % 8), k);
    }
  }

  lemma PageOf(d: Display, x: nat, y: nat)
    requires x < d.width && y < d.height
    ensures y / 8 < d.Pages() && Index(d, x, y / 8) == x + (y / 8) * d.width
  {
  }
}
