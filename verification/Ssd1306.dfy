/** Lines on the display: masked byte writes against pixel by pixel. */
module Ssd1306 {
  import opened Arithmetic
  import opened Bytes
  import opened Frames

  type Rotation = r: nat | r < 4

  /** A signed 16-bit store. */
  function Wrap16(v: int): int {
    (v + 32768) % 65536 - 32768
  }

  predicate Int16(v: int) { -32768 <= v <= 32767 }

  /** The size of the screen as it is turned. */
  function ScreenWidth(d: Display, rot: Rotation): int { if rot % 2 == 0 then d.width else d.height }

  function ScreenHeight(d: Display, rot: Rotation): int { if rot % 2 == 0 then d.height else d.width }

  /** Where a rectangle of the turned screen lies in the frame buffer. */
  function RawRect(d: Display, rot: Rotation, r: Rect): Rect {
    if rot == 0 then r
    else if rot == 1 then Rect(d.width - r.y1, r.x0, d.width - r.y0, r.x1)
    else if rot == 2 then Rect(d.width - r.x1, d.height - r.y1, d.width - r.x0, d.height - r.y0)
    else Rect(r.y0, d.height - r.x1, r.y1, d.height - r.x0)
  }

  predicate OnScreen(d: Display, rot: Rotation, x: int, y: int) {
    0 <= x < ScreenWidth(d, rot) && 0 <= y < ScreenHeight(d, rot)
  }

  /** The frame buffer coordinates of a pixel of the turned screen. */
  function Turned(d: Display, rot: Rotation, x: int, y: int): (r: (nat, nat))
    requires OnScreen(d, rot, x, y)
    ensures r.0 < d.width && r.1 < d.height
  {
    if rot == 0 then (x, y)
    else if rot == 1 then (d.width - y - 1, x)
    else if rot == 2 then (d.width - x - 1, d.height - y - 1)
    else (y, d.height - x - 1)
  }

  /** The buffer after drawing one pixel, which is clipped to the screen. */
  function PixelDrawn(d: Display, rot: Rotation, buf: seq<Byte>, x: int, y: int, color: Color): (after: seq<Byte>)
    requires |buf| == d.Size()
    ensures |after| == d.Size()
  {
    if OnScreen(d, rot, x, y) then
      var (rx, ry) := Turned(d, rot, x, y);
      var i := Index(d, rx, ry / 8);
      buf[i := Apply(color, buf[i], BitMask(ry % 8))]
    else buf
  }

  /** The buffer after drawing `n` pixels one by one, downwards or to the right. */
  function LineDrawn(d: Display, rot: Rotation, buf: seq<Byte>, x: int, y: int, n: nat, down: bool, color: Color)
    : (after: seq<Byte>)
    requires |buf| == d.Size()
    ensures |after| == d.Size()
  {
    if n == 0 then buf
    else
      PixelDrawn(d, rot, LineDrawn(d, rot, buf, x, y, n - 1, down, color),
                 if down then x else x + n - 1, if down then y + n - 1 else y, color)
  }

  function LineRect(x: int, y: int, n: nat, down: bool): Rect {
    if down then Rect(x, y, x + 1, y + n) else Rect(x, y, x + n, y + 1)
  }

  lemma PixelPaints(d: Display, rot: Rotation, buf: seq<Byte>, x: int, y: int, color: Color)
    requires |buf| == d.Size()
    ensures Painted(d, buf, PixelDrawn(d, rot, buf, x, y, color), RawRect(d, rot, Rect(x, y, x + 1, y + 1)), color)
  {
    hide Painted, Bit, Apply, Index;
    var r := RawRect(d, rot, Rect(x, y, x + 1, y + 1));
    if OnScreen(d, rot, x, y) {
      var (rx, ry) := Turned(d, rot, x, y);
      forall k: nat | k < 8 ensures Bit(BitMask(ry % 8), k) <==> k == ry % 8 {
        SingleBit(ry % 8, k);
      }
      ByteWritten(d, buf, rx, ry / 8, BitMask(ry % 8), ry % 8, ry % 8 + 1, color);
      assert r == Rect(rx, ry, rx + 1, ry + 1);
    } else {
      NothingPainted(d, buf, r, color);
    }
  }

  /** In frame buffer coordinates too, a cell of the turned screen is in the turned rectangle. */
  lemma TurnedBack(d: Display, rot: Rotation, cx: int, cy: int) returns (x: int, y: int)
    ensures forall q: Rect :: In(RawRect(d, rot, q), cx, cy) <==> In(q, x, y)
  {
    if rot == 0 {
      x, y := cx, cy;
    } else if rot == 1 {
      x, y := cy, d.width - 1 - cx;
    } else if rot == 2 {
      x, y := d.width - 1 - cx, d.height - 1 - cy;
    } else {
      x, y := d.height - 1 - cy, cx;
    }
  }

  /** The line of `n` pixels is the line of `n - 1` pixels and one more. */
  lemma RectGrows(d: Display, rot: Rotation, x: int, y: int, n: nat, down: bool)
    requires n > 0
    ensures var px, py := if down then x else x + n - 1, if down then y + n - 1 else y;
            var r1, r2, r := RawRect(d, rot, LineRect(x, y, n - 1, down)), RawRect(d, rot, Rect(px, py, px + 1, py + 1)),
                             RawRect(d, rot, LineRect(x, y, n, down));
            forall cx: nat, cy: nat ::
              (In(r, cx, cy) <==> In(r1, cx, cy) || In(r2, cx, cy)) && !(In(r1, cx, cy) && In(r2, cx, cy))
  {
    hide RawRect;
    var px, py := if down then x else x + n - 1, if down then y + n - 1 else y;
    var q1, q2, q := LineRect(x, y, n - 1, down), Rect(px, py, px + 1, py + 1), LineRect(x, y, n, down);
    forall cx: nat, cy: nat
      ensures In(RawRect(d, rot, q), cx, cy) <==> In(RawRect(d, rot, q1), cx, cy) || In(RawRect(d, rot, q2), cx, cy)
      ensures !(In(RawRect(d, rot, q1), cx, cy) && In(RawRect(d, rot, q2), cx, cy))
    {
      var lx, ly := TurnedBack(d, rot, cx, cy);
      assert In(RawRect(d, rot, q), cx, cy) <==> In(q, lx, ly);
      assert In(RawRect(d, rot, q1), cx, cy) <==> In(q1, lx, ly);
      assert In(RawRect(d, rot, q2), cx, cy) <==> In(q2, lx, ly);
    }
  }

  lemma NoPixels(d: Display, rot: Rotation, x: int, y: int, down: bool)
    ensures forall cx: nat, cy: nat :: !In(RawRect(d, rot, LineRect(x, y, 0, down)), cx, cy)
  {
  }

  lemma {:induction false} LinePaints(d: Display, rot: Rotation, buf: seq<Byte>, x: int, y: int, n: nat, down: bool,
                                      color: Color)
    requires |buf| == d.Size()
    ensures Painted(d, buf, LineDrawn(d, rot, buf, x, y, n, down, color), RawRect(d, rot, LineRect(x, y, n, down)), color)
  {
    hide Painted, PixelDrawn, RawRect, In;
    if n == 0 {
      NoPixels(d, rot, x, y, down);
      NothingPainted(d, buf, RawRect(d, rot, LineRect(x, y, 0, down)), color);
    } else {
      LinePaints(d, rot, buf, x, y, n - 1, down, color);
      var before := LineDrawn(d, rot, buf, x, y, n - 1, down, color);
      var px, py := if down then x else x + n - 1, if down then y + n - 1 else y;
      PixelPaints(d, rot, before, px, py, color);
      RectGrows(d, rot, x, y, n, down);
      PaintedTwice(d, buf, before, PixelDrawn(d, rot, before, px, py, color),
                   RawRect(d, rot, LineRect(x, y, n - 1, down)), RawRect(d, rot, Rect(px, py, px + 1, py + 1)),
                   RawRect(d, rot, LineRect(x, y, n, down)), color);
    }
  }

  /**
   The part of a line that is drawn along its own direction, from `q` on: what lies in front
   of the display is taken off its length, which is a 16-bit variable.
   */
  function Clip(q: int, n: int): (int, int) {
    if q < 0 then (0, Wrap16(q + n)) else (q, n)
  }

  /** The cells that are drawn for a line of any length, in frame buffer coordinates. */
  function Clipped(x: int, y: int, n: int, down: bool): Rect {
    if down then
      var (top, h) := Clip(y, n);
      Rect(x, top, x + 1, top + h)
    else
      var (left, w) := Clip(x, n);
      Rect(left, y, left + w, y + 1)
  }

  /** A line of negative length that starts so far in front of the display that the length overflows. */
  predicate Overflows(q: int, n: int) {
    q < 0 && -65536 < q + n < -32768
  }

  lemma ClipCells(q: int, n: int, c: nat)
    requires Int16(q) && Int16(n) && c < 255
    ensures var (start, m) := Clip(q, n);
            && (!Overflows(q, n) ==> (start <= c < start + m <==> q <= c < q + n))
            && (Overflows(q, n) ==> n < 0 && (start <= c < start + m <==> c < q + n + 65536))
  {
  }

  /** No overflow: the cells of the line. */
  lemma ClippedCells(x: int, y: int, n: int, down: bool)
    requires Int16(x) && Int16(y) && Int16(n) && !Overflows(if down then y else x, n)
    ensures forall cx: nat, cy: nat | cx < 255 && cy < 255 ::
              In(Clipped(x, y, n, down), cx, cy) <==> In(LineRect(x, y, Max(n, 0), down), cx, cy)
  {
    hide Clip, Overflows;
    forall cx: nat, cy: nat | cx < 255 && cy < 255
      ensures In(Clipped(x, y, n, down), cx, cy) <==> In(LineRect(x, y, Max(n, 0), down), cx, cy)
    {
      ClipCells(if down then y else x, n, if down then cy else cx);
    }
  }

  class Screen {
    const d: Display
    const buffer: array<Byte>
    var rotation: Rotation

    ghost predicate Valid()
      reads this
    {
      buffer.Length == d.Size()
    }

    method DrawPixel(x: int, y: int, color: Color)
      requires Valid()
      modifies buffer
      ensures buffer[..] == PixelDrawn(d, rotation, old(buffer[..]), x, y, color)
    {
      hide Bit;
      if OnScreen(d, rotation, x, y) {
        var px, py := x, y;
        if rotation == 1 {
          px, py := py, px;
          px := d.width - px - 1;
        } else if rotation == 2 {
          px := d.width - px - 1;
          py := d.height - py - 1;
        } else if rotation == 3 {
          px, py := py, px;
          py := d.height - py - 1;
        }
        var i := Index(d, px, py / 8);
        Write(i, BitMask(py % 8), color);
      }
    }

    /** Read, change through the mask and write back one byte. */
    method Write(i: nat, mask: Byte, color: Color)
      requires i < buffer.Length
      modifies buffer
      ensures buffer[..] == old(buffer[..])[i := Apply(color, old(buffer[i]), mask)]
    {
      match color
      case White => buffer[i] := buffer[i] | mask;
      case Black => buffer[i] := buffer[i] & !mask;
      case Inverse => buffer[i] := buffer[i] ^ mask;
    }

    /** A horizontal line in frame buffer coordinates. */
    method DrawFastHLineInternal(x: int, y: int, w: int, color: Color)
      requires Valid() && Int16(x) && Int16(y) && Int16(w)
      modifies buffer
      ensures Painted(d, old(buffer[..]), buffer[..], Clipped(x, y, w, false), color)
    {
      hide Painted, Bit, Apply, Index;
      ghost var was := buffer[..];
      var left, n := x, w;
      if 0 <= y < d.height {
        if left < 0 {
          n := Wrap16(n + left);
          left := 0;
        }
        if left + n > d.width {
          n := d.width - left;
        }
        if n > 0 {
          HRun(left, y, n, color);
          PaintedSame(d, was, buffer[..], Rect(left, y, left + n, y + 1), Clipped(x, y, w, false), color);
          return;
        }
      }
      NothingPainted(d, was, Clipped(x, y, w, false), color);
    }

    /** One byte after the other, all through the mask of the row. */
    method HRun(x: nat, y: nat, n: nat, color: Color)
      requires Valid() && y < d.height && x + n <= d.width && n > 0
      modifies buffer
      ensures Painted(d, old(buffer[..]), buffer[..], Rect(x, y, x + n, y + 1), color)
    {
      hide Painted, Bit, Apply;
      ghost var was := buffer[..];
      var p, mask := Index(d, x, y / 8), BitMask(y % 8);
      forall k: nat | k < 8 ensures Bit(mask, k) <==> y % 8 <= k < y % 8 + 1 {
        SingleBit(y % 8, k);
      }
      NothingPainted(d, was, Rect(x, y, x, y + 1), color);
      for k := 0 to n
        invariant Painted(d, was, buffer[..], Rect(x, y, x + k, y + 1), color)
        invariant p == x + k + RowStart(d, y)
      {
        ghost var before := buffer[..];
        assert p == Index(d, x + k, y / 8);
        ByteWritten(d, before, x + k, y / 8, mask, y % 8, y % 8 + 1, color);
        Write(p, mask, color);
        PaintedTwice(d, was, before, buffer[..], Rect(x, y, x + k, y + 1), Rect(x + k, y, x + k + 1, y + 1),
                     Rect(x, y, x + k + 1, y + 1), color);
        p := p + 1;
      }
    }

    /** A vertical line in frame buffer coordinates. */
    method DrawFastVLineInternal(x: int, y: int, h: int, color: Color)
      requires Valid() && Int16(x) && Int16(y) && Int16(h)
      modifies buffer
      ensures Painted(d, old(buffer[..]), buffer[..], Clipped(x, y, h, true), color)
    {
      hide Painted, Bit, Apply, Index;
      ghost var was := buffer[..];
      var top, n := y, h;
      if 0 <= x < d.width {
        if top < 0 {
          n := Wrap16(n + top);
          top := 0;
        }
        if top + n > d.height {
          n := d.height - top;
        }
        if n > 0 {
          VRun(x, top, n, color);
          PaintedSame(d, was, buffer[..], Rect(x, top, x + 1, top + n), Clipped(x, y, h, true), color);
          return;
        }
      }
      NothingPainted(d, was, Clipped(x, y, h, true), color);
    }

    /** Write the byte at `p` and add its rows to those already coloured. */
    method Extend(p: nat, mask: Byte, color: Color, ghost was: seq<Byte>, ghost x: nat, ghost top: nat, ghost y: nat,
                  ghost rows: nat)
      requires Valid() && x < d.width && top <= y && y % 8 + rows <= 8 && y + rows <= d.height && 0 < rows
      requires p == x + RowStart(d, y)
      requires forall k: nat | k < 8 :: Bit(mask, k) <==> y % 8 <= k < y % 8 + rows
      requires Painted(d, was, buffer[..], Rect(x, top, x + 1, y), color)
      modifies buffer
      ensures Painted(d, was, buffer[..], Rect(x, top, x + 1, y + rows), color)
    {
      hide Painted, Bit, Apply;
      ghost var before := buffer[..];
      assert p == Index(d, x, y / 8);
      ByteWritten(d, before, x, y / 8, mask, y % 8, y % 8 + rows, color);
      Write(p, mask, color);
      PaintedTwice(d, was, before, buffer[..], Rect(x, top, x + 1, y), Rect(x, y, x + 1, y + rows),
                   Rect(x, top, x + 1, y + rows), color);
    }

    /** The first partial byte, whole bytes, the last partial byte. */
    method VRun(x: nat, top: nat, n: nat, color: Color)
      requires Valid() && x < d.width && top + n <= d.height && n > 0
      modifies buffer
      ensures Painted(d, old(buffer[..]), buffer[..], Rect(x, top, x + 1, top + n), color)
    {
      hide Painted, Bit, Apply, RowStart;
      ghost var was := buffer[..];
      NothingPainted(d, was, Rect(x, top, x + 1, top), color);
      var h, p, mod := n, x + RowStart(d, top), top % 8;
      if mod != 0 {
        mod := 8 - mod;
        FirstByte(p, h, mod, color, was, x, top);
        p := p + d.width;
      }
      if h >= mod {
        Aligned(top);
        NextPage(d, top, top + mod);
        Remaining(p, h - mod, color, was, x, top, top + mod);
      }
    }

    /** From the start of a byte on: whole bytes, then the last partial one. */
    method Remaining(start: nat, n: nat, color: Color, ghost was: seq<Byte>, ghost x: nat, ghost top: nat, ghost from: nat)
      requires Valid() && x < d.width && top <= from && from % 8 == 0 && from + n <= d.height
      requires start == x + RowStart(d, from)
      requires Painted(d, was, buffer[..], Rect(x, top, x + 1, from), color)
      modifies buffer
      ensures Painted(d, was, buffer[..], Rect(x, top, x + 1, from + n), color)
    {
      hide Painted, Bit, Apply, RowStart;
      ghost var y;
      var h, p;
      h, p, y := SolidBytes(start, n, color, was, x, top, from);
      if h != 0 {
        var mod := h % 8;
        LastMask(mod);
        Extend(p, POSTMASK[mod], color, was, x, top, y, h);
      }
    }

    /** The rows of the line in the byte it starts inside of: the `mod` last ones of the byte, or fewer. */
    method FirstByte(p: nat, h: nat, mod: nat, color: Color, ghost was: seq<Byte>, ghost x: nat, ghost top: nat)
      requires Valid() && x < d.width && 0 < h && top + h <= d.height && 0 < mod < 8 && top % 8 == 8 - mod
      requires p == x + RowStart(d, top)
      requires Painted(d, was, buffer[..], Rect(x, top, x + 1, top), color)
      modifies buffer
      ensures Painted(d, was, buffer[..], Rect(x, top, x + 1, top + if h < mod then h else mod), color)
    {
      hide Painted, Bit, Apply;
      var mask := PREMASK[mod];
      if h < mod {
        mask := mask & (0xFF >> (mod - h));
      }
      FirstMask(mod, h, mask);
      Extend(p, mask, color, was, x, top, top, if h < mod then h else mod);
    }

    /** Whole bytes: inverted, or stored without reading. */
    method SolidBytes(start: nat, n: nat, color: Color, ghost was: seq<Byte>, ghost x: nat, ghost top: nat, ghost from: nat)
      returns (h: nat, p: nat, ghost y: nat)
      requires Valid() && x < d.width && top <= from && from % 8 == 0 && from + n <= d.height
      requires start == x + RowStart(d, from)
      requires Painted(d, was, buffer[..], Rect(x, top, x + 1, from), color)
      modifies buffer
      ensures h < 8 && y % 8 == 0 && top <= y && y + h == from + n && p == x + RowStart(d, y)
      ensures Painted(d, was, buffer[..], Rect(x, top, x + 1, y), color)
    {
      hide Painted, Bit, Apply, RowStart;
      h, p, y := n, start, from;
      AllBits();
      while h >= 8
        invariant top <= y && y % 8 == 0 && y + h == from + n && p == x + RowStart(d, y)
        invariant Painted(d, was, buffer[..], Rect(x, top, x + 1, y), color)
      {
        StoreByte(p, color, was, x, top, y);
        NextPage(d, y, y + 8);
        p := p + d.width;
        h := h - 8;
        y := y + 8;
      }
    }

    method StoreByte(p: nat, color: Color, ghost was: seq<Byte>, ghost x: nat, ghost top: nat, ghost y: nat)
      requires Valid() && x < d.width && top <= y && y % 8 == 0 && y + 8 <= d.height && p == x + RowStart(d, y)
      requires Painted(d, was, buffer[..], Rect(x, top, x + 1, y), color)
      modifies buffer
      ensures Painted(d, was, buffer[..], Rect(x, top, x + 1, y + 8), color)
    {
      hide Painted, Bit, Apply;
      ghost var before := buffer[..];
      assert p == Index(d, x, y / 8);
      AllBits();
      ByteWritten(d, before, x, y / 8, 0xFF, 0, 8, color);
      Solid(buffer[p]);
      if color == Inverse {
        Write(p, 0xFF, color);
      } else {
        buffer[p] := if color != Black then 0xFF else 0x00;
      }
      assert buffer[..] == before[p := Apply(color, before[p], 0xFF)];
      PaintedTwice(d, was, before, buffer[..], Rect(x, top, x + 1, y), Rect(x, y, x + 1, y + 8),
                   Rect(x, top, x + 1, y + 8), color);
    }

    /**
     A vertical line of the turned screen, for all 16-bit coordinates and lengths: exactly
     what drawing its pixels one by one does, unless its length overflows.
     */
    method DrawFastVLine(x: int, y: int, h: int, color: Color)
      requires Valid() && Int16(x) && Int16(y) && Int16(h)
      modifies buffer
      ensures Painted(d, old(buffer[..]), buffer[..], DrawnCells(d, rotation, x, y, h, true), color)
      ensures !Overflows(Along(d, rotation, x, y, h, true), h) ==>
                buffer[..] == LineDrawn(d, rotation, old(buffer[..]), x, y, Max(h, 0), true, color)
    {
      hide Painted, LineDrawn, RawRect, In, Wrap16, Clip, Overflows;
      ghost var was := buffer[..];
      var swap, px, py := false, x, y;
      if rotation == 1 {
        swap := true;
        px, py := py, px;
        px := Wrap16(d.width - px - 1);
        px := Wrap16(px - (h - 1));
      } else if rotation == 2 {
        px := Wrap16(d.width - px - 1);
        py := Wrap16(d.height - py - 1);
        py := Wrap16(py - (h - 1));
      } else if rotation == 3 {
        swap := true;
        px, py := py, px;
        py := Wrap16(d.height - py - 1);
      }
      StartInRange(d, rotation, x, y, h, true);
      assert (px, py) == Start(d, rotation, x, y, h, true);
      if swap {
        DrawFastHLineInternal(px, py, h, color);
      } else {
        DrawFastVLineInternal(px, py, h, color);
      }
      if !Overflows(Along(d, rotation, x, y, h, true), h) {
        SameLine(d, rotation, was, buffer[..], x, y, h, true, color);
      }
    }

    /** The same for horizontal lines. */
    method DrawFastHLine(x: int, y: int, w: int, color: Color)
      requires Valid() && Int16(x) && Int16(y) && Int16(w)
      modifies buffer
      ensures Painted(d, old(buffer[..]), buffer[..], DrawnCells(d, rotation, x, y, w, false), color)
      ensures !Overflows(Along(d, rotation, x, y, w, false), w) ==>
                buffer[..] == LineDrawn(d, rotation, old(buffer[..]), x, y, Max(w, 0), false, color)
    {
      hide Painted, LineDrawn, RawRect, In, Wrap16, Clip, Overflows;
      ghost var was := buffer[..];
      var swap, px, py := false, x, y;
      if rotation == 1 {
        swap := true;
        px, py := py, px;
        px := Wrap16(d.width - px - 1);
      } else if rotation == 2 {
        px := Wrap16(d.width - px - 1);
        py := Wrap16(d.height - py - 1);
        px := Wrap16(px - (w - 1));
      } else if rotation == 3 {
        swap := true;
        px, py := py, px;
        py := Wrap16(d.height - py - 1);
        py := Wrap16(py - (w - 1));
      }
      StartInRange(d, rotation, x, y, w, false);
      assert (px, py) == Start(d, rotation, x, y, w, false);
      if swap {
        DrawFastVLineInternal(px, py, w, color);
      } else {
        DrawFastHLineInternal(px, py, w, color);
      }
      if !Overflows(Along(d, rotation, x, y, w, false), w) {
        SameLine(d, rotation, was, buffer[..], x, y, w, false, color);
      }
    }
  }

  /** A coordinate counted from the other side. */
  function Flip(size: int, c: int): int { Wrap16(size - c - 1) }

  /** The far end of a stretch counted from the other side. */
  function Slide(size: int, c: int, n: int): int { Wrap16(Flip(size, c) - (n - 1)) }

  /** A 16-bit overflow only happens to coordinates off the screen, and leaves them there. */
  lemma Flipped(size: int, c: int, cell: int)
    requires 0 < size <= 255 && Int16(c) && 0 <= cell < size
    ensures Flip(size, c) == cell <==> size - c - 1 == cell
    ensures Int16(Flip(size, c))
  {
  }

  lemma Slid(size: int, c: int, n: int, cell: int)
    requires 0 < size <= 255 && Int16(c) && 0 < n <= 32767 && 0 <= cell < size
    ensures Slide(size, c, n) <= cell < Slide(size, c, n) + n <==> size - c - n <= cell < size - c
    ensures Int16(Slide(size, c, n))
  {
  }

  /** Where the line starts in the frame buffer. */
  function Start(d: Display, rot: Rotation, x: int, y: int, n: int, down: bool): (int, int) {
    if rot == 0 then (x, y)
    else if rot == 1 then (if down then Slide(d.width, y, n) else Flip(d.width, y), x)
    else if rot == 2 then
      (if down then Flip(d.width, x) else Slide(d.width, x, n), if down then Slide(d.height, y, n) else Flip(d.height, y))
    else (y, if down then Flip(d.height, x) else Slide(d.height, x, n))
  }

  /** The coordinate of the start along the line, and the cells that are drawn. */
  function Along(d: Display, rot: Rotation, x: int, y: int, n: int, down: bool): int {
    var (px, py) := Start(d, rot, x, y, n, down);
    if down == (rot % 2 == 0) then py else px
  }

  function DrawnCells(d: Display, rot: Rotation, x: int, y: int, n: int, down: bool): Rect {
    var (px, py) := Start(d, rot, x, y, n, down);
    Clipped(px, py, n, down == (rot % 2 == 0))
  }

  lemma WrapRange(v: int)
    ensures Int16(Wrap16(v))
  {
  }

  lemma StartInRange(d: Display, rot: Rotation, x: int, y: int, n: int, down: bool)
    requires Int16(x) && Int16(y)
    ensures Int16(Start(d, rot, x, y, n, down).0) && Int16(Start(d, rot, x, y, n, down).1)
  {
    hide Wrap16;
    WrapRange(d.width - y - 1);
    WrapRange(d.width - x - 1);
    WrapRange(d.height - y - 1);
    WrapRange(d.height - x - 1);
    WrapRange(Flip(d.width, y) - (n - 1));
    WrapRange(Flip(d.width, x) - (n - 1));
    WrapRange(Flip(d.height, y) - (n - 1));
    WrapRange(Flip(d.height, x) - (n - 1));
  }

  /** The line as drawn in the frame buffer: turned by a quarter, a vertical line is horizontal. */
  function RawLine(d: Display, rot: Rotation, x: int, y: int, n: nat, down: bool): Rect {
    var (px, py) := Start(d, rot, x, y, n, down);
    LineRect(px, py, n, down == (rot % 2 == 0))
  }

  lemma SameCells(d: Display, rot: Rotation, x: int, y: int, n: nat, down: bool)
    requires Int16(x) && Int16(y) && 0 < n <= 32767
    ensures Int16(Start(d, rot, x, y, n, down).0) && Int16(Start(d, rot, x, y, n, down).1)
    ensures forall cx: nat, cy: nat | cx < d.width && cy < d.height ::
              In(RawLine(d, rot, x, y, n, down), cx, cy) <==> In(RawRect(d, rot, LineRect(x, y, n, down)), cx, cy)
  {
    hide Flip, Slide, Wrap16;
    Flipped(d.width, x, 0);
    Flipped(d.width, y, 0);
    Flipped(d.height, x, 0);
    Flipped(d.height, y, 0);
    Slid(d.width, x, n, 0);
    Slid(d.width, y, n, 0);
    Slid(d.height, x, n, 0);
    Slid(d.height, y, n, 0);
    forall cx: nat, cy: nat | cx < d.width && cy < d.height
      ensures In(RawLine(d, rot, x, y, n, down), cx, cy) <==> In(RawRect(d, rot, LineRect(x, y, n, down)), cx, cy)
    {
      SameCell(d, rot, x, y, n, down, cx, cy);
    }
  }

  lemma SameCell(d: Display, rot: Rotation, x: int, y: int, n: nat, down: bool, cx: nat, cy: nat)
    requires Int16(x) && Int16(y) && 0 < n <= 32767 && cx < d.width && cy < d.height
    ensures In(RawLine(d, rot, x, y, n, down), cx, cy) <==> In(RawRect(d, rot, LineRect(x, y, n, down)), cx, cy)
  {
    hide Flip, Slide, Wrap16;
    if rot == 1 {
      Slid(d.width, y, n, cx);
      Flipped(d.width, y, cx);
    } else if rot == 2 {
      Slid(d.width, x, n, cx);
      Flipped(d.width, x, cx);
      Slid(d.height, y, n, cy);
      Flipped(d.height, y, cy);
    } else if rot == 3 {
      Slid(d.height, x, n, cy);
      Flipped(d.height, x, cy);
    }
  }

  /** Without an overflow, the drawn cells are those of the turned line. */
  lemma DrawnIsLine(d: Display, rot: Rotation, x: int, y: int, n: int, down: bool)
    requires Int16(x) && Int16(y) && Int16(n) && !Overflows(Along(d, rot, x, y, n, down), n)
    ensures forall cx: nat, cy: nat | cx < d.width && cy < d.height ::
              In(DrawnCells(d, rot, x, y, n, down), cx, cy)
              <==> In(RawRect(d, rot, LineRect(x, y, Max(n, 0), down)), cx, cy)
  {
    hide RawRect, Start, Overflows, Clipped, In;
    StartInRange(d, rot, x, y, n, down);
    var (px, py) := Start(d, rot, x, y, n, down);
    var turned := down == (rot % 2 == 0);
    ClippedCells(px, py, n, turned);
    if n > 0 {
      SameCells(d, rot, x, y, n, down);
    } else {
      NoPixels(d, rot, x, y, down);
      NoCells(px, py, turned);
    }
  }

  lemma NoCells(x: int, y: int, down: bool)
    ensures forall cx: nat, cy: nat :: !In(LineRect(x, y, 0, down), cx, cy)
  {
  }

  /** Two ways to colour the same cells. */
  lemma SameLine(d: Display, rot: Rotation, was: seq<Byte>, now: seq<Byte>, x: int, y: int, n: int, down: bool, color: Color)
    requires Int16(x) && Int16(y) && Int16(n) && |was| == d.Size() && !Overflows(Along(d, rot, x, y, n, down), n)
    requires Painted(d, was, now, DrawnCells(d, rot, x, y, n, down), color)
    ensures now == LineDrawn(d, rot, was, x, y, Max(n, 0), down, color)
  {
    hide Painted, LineDrawn, RawRect, DrawnCells, In, Along, Overflows;
    var r := RawRect(d, rot, LineRect(x, y, Max(n, 0), down));
    DrawnIsLine(d, rot, x, y, n, down);
    LinePaints(d, rot, was, x, y, Max(n, 0), down, color);
    PaintedSame(d, was, now, DrawnCells(d, rot, x, y, n, down), r, color);
    PaintedOnce(d, was, now, LineDrawn(d, rot, was, x, y, Max(n, 0), down, color), r, color);
  }

  /**
   With an overflow, a line of negative length that crosses the display is drawn although it
   has no pixels: an inverted one is seen in every picture.
   */
  lemma OverflowShows(d: Display, rot: Rotation, was: seq<Byte>, now: seq<Byte>, x: int, y: int, n: int, down: bool)
    requires Int16(x) && Int16(y) && Int16(n) && |was| == d.Size()
    requires var (px, py) := Start(d, rot, x, y, n, down);
             if down == (rot % 2 == 0) then 0 <= px < d.width else 0 <= py < d.height
    requires Overflows(Along(d, rot, x, y, n, down), n)
    requires Painted(d, was, now, DrawnCells(d, rot, x, y, n, down), Inverse)
    ensures n < 0 && now != was
  {
    hide Start, Clip;
    StartInRange(d, rot, x, y, n, down);
    var (px, py) := Start(d, rot, x, y, n, down);
    var vertical := down == (rot % 2 == 0);
    ClipCells(Along(d, rot, x, y, n, down), n, 0);
    var cx: nat, cy: nat := if vertical then px else 0, if vertical then 0 else py;
    assert In(DrawnCells(d, rot, x, y, n, down), cx, cy);
    assert Pixel(d, now, cx, cy) != Pixel(d, was, cx, cy);
  }

  lemma AllBits()
    ensures forall k: nat | k < 8 :: Bit(0xFF, k)
  {
    forall k: nat | k < 8 ensures Bit(0xFF, k) {
      FullBit(k);
    }
  }

  /** The index of the byte that holds row `y` of the first column. */
  function RowStart(d: Display, y: nat): nat { y / 8 * d.width }

  /** The next multiple of eight is in the next row of bytes. */
  lemma NextPage(d: Display, y: nat, z: nat)
    requires z % 8 == 0 && y <= z <= y + 8
    ensures RowStart(d, z) == RowStart(d, y) + if y < z then d.width else 0
  {
    if y < z {
      assert z / 8 == y / 8 + 1;
      assert (y / 8 + 1) * d.width == y / 8 * d.width + d.width;
    }
  }

  /** Rows up to the end of the byte that `top` lies inside of. */
  lemma Aligned(top: nat)
    ensures top % 8 == 0 || (top + (8 - top % 8)) % 8 == 0
  {
  }

  lemma FirstMask(mod: nat, h: nat, mask: Byte)
    requires 0 < mod < 8 && 0 < h
    requires mask == if h < mod then PREMASK[mod] & (0xFF >> (mod - h)) else PREMASK[mod]
    ensures forall k: nat | k < 8 :: Bit(mask, k) <==> 8 - mod <= k < 8 - mod + if h < mod then h else mod
  {
    hide Bit;
    forall k: nat | k < 8 ensures Bit(mask, k) <==> 8 - mod <= k < 8 - mod + if h < mod then h else mod {
      PreMaskBit(mod, k);
      if h < mod {
        ShiftBit(mod - h, k);
        BothBits(PREMASK[mod], 0xFF >> (mod - h), k);
      }
    }
  }

  lemma LastMask(mod: nat)
    requires mod < 8
    ensures forall k: nat | k < 8 :: Bit(POSTMASK[mod], k) <==> k < mod
  {
    hide Bit;
    forall k: nat | k < 8 ensures Bit(POSTMASK[mod], k) <==> k < mod {
      PostMaskBit(mod, k);
    }
  }
}
