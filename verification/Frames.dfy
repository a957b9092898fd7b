/** Frame buffers as pictures: which rectangle a sequence of byte writes has coloured. */
module Frames {
  import opened Arithmetic
  import opened Bytes

  /** A display of up to 255 by 255 pixels, eight rows to a page of bytes. */
  datatype Panel = Panel(width: nat, height: nat) {
    predicate Valid() { 0 < width <= 255 && 0 < height <= 255 }
    function Pages(): nat { (height + 7) / 8 }
    function Size(): nat { width * Pages() }
  }

  type Display = p: Panel | p.Valid() witness Panel(128, 64)

  /** The byte that holds column `x` of a page. */
  function Index(d: Display, x: nat, page: nat): (i: nat)
    requires x < d.width && page < d.Pages()
    ensures i < d.Size()
  {
    Inside(d.width, x, page, d.Pages());
    x + page * d.width
  }

  lemma Inside(w: nat, x: nat, page: nat, pages: nat)
    requires x < w && page < pages
    ensures x + page * w < w * pages
  {
    Apart(page, pages, w);
  }

  lemma IndexUnique(d: Display, x: nat, page: nat, x': nat, page': nat)
    requires x < d.width && page < d.Pages() && x' < d.width && page' < d.Pages()
    requires Index(d, x, page) == Index(d, x', page')
    ensures x == x' && page == page'
  {
    if page < page' {
      Apart(page, page', d.width);
    } else if page' < page {
      Apart(page', page, d.width);
    }
  }

  lemma Apart(a: nat, b: nat, w: nat)
    requires a < b
    ensures a * w + w <= b * w
  {
    assert a * w + w == (a + 1) * w;
    Times(a + 1, b, w);
  }

  /** The pixel at column `x` of row `y`; rows below the display are part of the last page. */
  predicate Pixel(d: Display, buf: seq<Byte>, x: nat, y: nat)
    requires |buf| == d.Size() && x < d.width && y < 8 * d.Pages()
  {
    Bit(buf[Index(d, x, y / 8)], y % 8)
  }

  /** From (x0, y0) up to but not including (x1, y1). */
  datatype Rect = Rect(x0: int, y0: int, x1: int, y1: int)

  predicate In(r: Rect, x: int, y: int) {
    r.x0 <= x < r.x1 && r.y0 <= y < r.y1
  }

  /** The pixels of `r` on the display have been coloured, and nothing else has changed. */
  ghost predicate Painted(d: Display, before: seq<Byte>, after: seq<Byte>, r: Rect, color: Color) {
    && |before| == |after| == d.Size()
    && forall x: nat, y: nat | x < d.width && y < 8 * d.Pages() ::
         Pixel(d, after, x, y) ==
         if In(r, x, y) && y < d.height then Colored(color, Pixel(d, before, x, y)) else Pixel(d, before, x, y)
  }

  /** There is only one such buffer. */
  lemma PaintedOnce(d: Display, before: seq<Byte>, a: seq<Byte>, b: seq<Byte>, r: Rect, color: Color)
    requires Painted(d, before, a, r, color) && Painted(d, before, b, r, color)
    ensures a == b
  {
    forall i | 0 <= i < d.Size() ensures a[i] == b[i] {
      var x, page := Column(d, i);
      forall k: nat | k < 8 ensures Bit(a[i], k) == Bit(b[i], k) {
        var y := 8 * page + k;
        assert Pixel(d, a, x, y) == Pixel(d, b, x, y);
        assert y / 8 == page && y % 8 == k;
      }
      SameBits(a[i], b[i]);
    }
  }

  /** Quotient and remainder. */
  lemma Divided(i: nat, w: nat) returns (q: nat, r: nat)
    requires w > 0
    ensures r < w && w * q + r == i && r + q * w == i
  {
    q, r := i / w, i % w;
  }

  /** Small enough a sum has a small enough quotient. */
  lemma QuotientBound(q: nat, r: nat, w: nat, n: nat)
    requires w * q + r < w * n
    ensures q < n
  {
    if q >= n {
      Times(n, q, w);
    }
  }

  /** Every byte belongs to a column of a page. */
  lemma Column(d: Display, i: nat) returns (x: nat, page: nat)
    requires i < d.Size()
    ensures x < d.width && page < d.Pages() && Index(d, x, page) == i
  {
    page, x := Divided(i, d.width);
    QuotientBound(page, x, d.width, d.Pages());
  }

  lemma NothingPainted(d: Display, buf: seq<Byte>, r: Rect, color: Color)
    requires |buf| == d.Size()
    requires forall x: nat, y: nat | x < d.width && y < d.height :: !In(r, x, y)
    ensures Painted(d, buf, buf, r, color)
  {
  }

  /** One rectangle after another that it does not meet. */
  lemma PaintedTwice(d: Display, a: seq<Byte>, b: seq<Byte>, c: seq<Byte>, r1: Rect, r2: Rect, r: Rect, color: Color)
    requires Painted(d, a, b, r1, color) && Painted(d, b, c, r2, color)
    requires forall x: nat, y: nat | x < d.width && y < d.height ::
               (In(r, x, y) <==> In(r1, x, y) || In(r2, x, y)) && !(In(r1, x, y) && In(r2, x, y))
    ensures Painted(d, a, c, r, color)
  {
    hide Pixel, Colored;
    forall x: nat, y: nat | x < d.width && y < 8 * d.Pages()
      ensures Pixel(d, c, x, y)
              == if In(r, x, y) && y < d.height then Colored(color, Pixel(d, a, x, y)) else Pixel(d, a, x, y)
    {
      assert Pixel(d, b, x, y)
          == if In(r1, x, y) && y < d.height then Colored(color, Pixel(d, a, x, y)) else Pixel(d, a, x, y);
    }
  }

  /** Another name for the same pixels. */
  lemma PaintedSame(d: Display, a: seq<Byte>, b: seq<Byte>, r: Rect, r': Rect, color: Color)
    requires Painted(d, a, b, r, color)
    requires forall x: nat, y: nat | x < d.width && y < d.height :: In(r, x, y) <==> In(r', x, y)
    ensures Painted(d, a, b, r', color)
  {
    hide Pixel, Colored;
  }

  /** Writing one byte through a mask whose bits are the rows `lo` to `hi` of its page. */
  lemma ByteWritten(d: Display, buf: seq<Byte>, x: nat, page: nat, mask: Byte, lo: nat, hi: nat, color: Color)
    requires |buf| == d.Size() && x < d.width && page < d.Pages()
    requires lo <= hi <= 8 && 8 * page + hi <= d.height
    requires forall k: nat | k < 8 :: Bit(mask, k) <==> lo <= k < hi
    ensures var i := Index(d, x, page);
            Painted(d, buf, buf[i := Apply(color, buf[i], mask)], Rect(x, 8 * page + lo, x + 1, 8 * page + hi), color)
  {
    hide Bit, Apply, Colored;
    var i := Index(d, x, page);
    var after := buf[i := Apply(color, buf[i], mask)];
    var r := Rect(x, 8 * page + lo, x + 1, 8 * page + hi);
    forall cx: nat, cy: nat | cx < d.width && cy < 8 * d.Pages()
      ensures Pixel(d, after, cx, cy)
              == if In(r, cx, cy) && cy < d.height then Colored(color, Pixel(d, buf, cx, cy)) else Pixel(d, buf, cx, cy)
    {
      var p, k := cy / 8, cy % 8;
      if Index(d, cx, p) == i {
        IndexUnique(d, cx, p, x, page);
        ApplyBit(color, buf[i], mask, k);
      }
    }
  }
}
