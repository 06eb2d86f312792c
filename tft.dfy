/**
 * The frame buffer and the display task of `workSpace/tft.py`.
 *
 * The buffer is the 80x160 RGB565 `bytearray`; `framebuf.pixel` stores a
 * colour little-endian at offset `2 * (y * 80 + x)` and ignores points
 * outside the frame. Drawing is stated as the list of pixel writes the loops
 * issue, folded over the buffer, and the lemmas say what every pixel ends up
 * as. Files are byte sequences, looked up by name in a map.
 */
module Tft {
  import opened Wrappers
  import Font
  import ST7735
  import opened BeeOS

  const FB_W := 80
  const FB_H := 160
  /** `80 * 160 * 2`: the size of the frame buffer in bytes. */
  const BUF_LEN := 25600

  predicate InFrame(x: int, y: int) {
    0 <= x < FB_W && 0 <= y < FB_H
  }

  /** Where the low byte of pixel `(x, y)` lives. */
  function Off(x: int, y: int): int {
    (y * FB_W + x) * 2
  }

  /** The 16-bit colour `framebuf` reads back at an in-frame pixel. */
  function Color(b: seq<byte>, x: int, y: int): int
    requires |b| == BUF_LEN && InFrame(x, y)
  {
    var lo: int := b[Off(x, y)];
    var hi: int := b[Off(x, y) + 1];
    lo + 256 * hi
  }

  /** One call of `fbuf.pixel(x, y, color)`. */
  datatype PixelWrite = PixelWrite(x: int, y: int, color: int)

  /** `fbuf.pixel`: the colour truncated to 16 bits, low byte first; clipped outside the frame. */
  function PixelSet(b: seq<byte>, w: PixelWrite): (r: seq<byte>)
    requires |b| == BUF_LEN
    ensures |r| == BUF_LEN
    ensures !InFrame(w.x, w.y) ==> r == b
    ensures InFrame(w.x, w.y) ==>
              r[Off(w.x, w.y)] == StoreByte(w.color) && r[Off(w.x, w.y) + 1] == StoreByte(w.color / 256)
  {
    if InFrame(w.x, w.y) then
      var o := Off(w.x, w.y);
      b[o := StoreByte(w.color)][o + 1 := StoreByte(w.color / 256)]
    else b
  }

  /** A pixel write touches no byte but the two of its pixel. */
  lemma PixelSetFrame(b: seq<byte>, w: PixelWrite, k: int)
    requires |b| == BUF_LEN && 0 <= k < BUF_LEN
    requires !InFrame(w.x, w.y) || (k != Off(w.x, w.y) && k != Off(w.x, w.y) + 1)
    ensures PixelSet(b, w)[k] == b[k]
  {
  }

  /** The two stored bytes of a colour read back as the colour modulo 2^16. */
  lemma ColorBytes(c: int)
    ensures StoreByte(c) + 256 * StoreByte(c / 256) == c % 65536
  {
    var q := c / 256;
    var q2 := q / 256;
    assert c == 256 * q + c % 256;
    assert q == 256 * q2 + q % 256;
    assert c == 65536 * q2 + (256 * (q % 256) + c % 256);
    DivModUnique(c, 65536, q2, 256 * (q % 256) + c % 256);
  }

  /** Distinct in-frame pixels have disjoint byte pairs. */
  lemma OffDistinct(x: int, y: int, x': int, y': int)
    requires InFrame(x, y) && InFrame(x', y') && (x, y) != (x', y')
    ensures Off(x, y) != Off(x', y') && Off(x, y) != Off(x', y') + 1 && Off(x, y) + 1 != Off(x', y')
  {
    if y == y' {
      assert x != x';
    } else if y < y' {
      assert y * FB_W + x < y' * FB_W + x';
    } else {
      assert y' * FB_W + x' < y * FB_W + x;
    }
  }

  /** A pixel write sets its own pixel to the colour modulo 2^16 and leaves every other pixel as it was. */
  lemma PixelSetColor(b: seq<byte>, w: PixelWrite, x: int, y: int)
    requires |b| == BUF_LEN && InFrame(x, y)
    ensures Color(PixelSet(b, w), x, y) == if (w.x, w.y) == (x, y) then w.color % 65536 else Color(b, x, y)
  {
    if (w.x, w.y) == (x, y) {
      ColorBytes(w.color);
    } else if InFrame(w.x, w.y) {
      OffDistinct(x, y, w.x, w.y);
    }
  }

  /** The buffer after a run of pixel writes, oldest first. */
  function Apply(b: seq<byte>, ws: seq<PixelWrite>): (r: seq<byte>)
    requires |b| == BUF_LEN
    ensures |r| == BUF_LEN
    decreases |ws|
  {
    if ws == [] then b else PixelSet(Apply(b, ws[..|ws| - 1]), ws[|ws| - 1])
  }

  lemma {:induction false} ApplyAppend(b: seq<byte>, v: seq<PixelWrite>, w: seq<PixelWrite>)
    requires |b| == BUF_LEN
    ensures Apply(b, v + w) == Apply(Apply(b, v), w)
    decreases |w|
  {
    if w == [] {
      assert v + w == v;
    } else {
      assert (v + w)[..|v + w| - 1] == v + w[..|w| - 1];
      ApplyAppend(b, v, w[..|w| - 1]);
    }
  }

  /** One more write at the end of a run. */
  lemma ApplySnoc(b: seq<byte>, v: seq<PixelWrite>, w: PixelWrite)
    requires |b| == BUF_LEN
    ensures Apply(b, v + [w]) == PixelSet(Apply(b, v), w)
  {
    assert (v + [w])[..|v|] == v;
  }

  /** The colour of the last write to `(x, y)` in a run, `None` when no write names it. */
  function LastWrite(ws: seq<PixelWrite>, x: int, y: int): Option<int>
    decreases |ws|
  {
    if ws == [] then None
    else if (ws[|ws| - 1].x, ws[|ws| - 1].y) == (x, y) then Some(ws[|ws| - 1].color)
    else LastWrite(ws[..|ws| - 1], x, y)
  }

  /** A pixel as drawn: the colour a drawing gives it, else its colour before. */
  function Drawn(b: seq<byte>, p: Option<int>, x: int, y: int): int
    requires |b| == BUF_LEN && InFrame(x, y)
  {
    if p.Some? then p.value % 65536 else Color(b, x, y)
  }

  /** Every in-frame pixel ends with the colour of the last write to it, or keeps its colour. */
  lemma {:induction false} ApplyColor(b: seq<byte>, ws: seq<PixelWrite>, x: int, y: int)
    requires |b| == BUF_LEN && InFrame(x, y)
    ensures Color(Apply(b, ws), x, y) == Drawn(b, LastWrite(ws, x, y), x, y)
    decreases |ws|
  {
    if ws != [] {
      ApplyColor(b, ws[..|ws| - 1], x, y);
      PixelSetColor(Apply(b, ws[..|ws| - 1]), ws[|ws| - 1], x, y);
    }
  }

  /** In two runs one after the other, the later run's last write to a pixel wins. */
  lemma {:induction false} LastWriteAppend(v: seq<PixelWrite>, w: seq<PixelWrite>, x: int, y: int)
    ensures LastWrite(v + w, x, y) == if LastWrite(w, x, y).Some? then LastWrite(w, x, y) else LastWrite(v, x, y)
    decreases |w|
  {
    if w == [] {
      assert v + w == v;
    } else {
      assert (v + w)[..|v + w| - 1] == v + w[..|w| - 1];
      LastWriteAppend(v, w[..|w| - 1], x, y);
    }
  }

  /** No write from position `from` on names pixel `(x, y)`. */
  ghost predicate Untouched(ws: seq<PixelWrite>, from: nat, x: int, y: int) {
    forall i :: from <= i < |ws| ==> (ws[i].x, ws[i].y) != (x, y)
  }

  /** The write at position `j` is the last one to its pixel when no later write names that pixel. */
  lemma {:induction false} LastWriteAt(ws: seq<PixelWrite>, j: nat)
    requires j < |ws|
    requires Untouched(ws, j + 1, ws[j].x, ws[j].y)
    ensures LastWrite(ws, ws[j].x, ws[j].y) == Some(ws[j].color)
    decreases |ws|
  {
    if j < |ws| - 1 {
      LastWriteAt(ws[..|ws| - 1], j);
    }
  }

  /*
   * `text8x16_v`. Row byte `ri` from the end of a glyph is drawn in column
   * `x + ri`; bit `i` of it, counted from the most significant bit, in row
   * `y0 + i`. A set bit draws `fc`; a clear one draws `bc` when `bc` is truthy
   * and nothing otherwise.
   */

  /** `elif bc:` with `bc` either `None` or a colour. */
  predicate Background(bc: Option<int>) {
    bc.Some? && bc.value != 0
  }

  /** What bit `i` of row byte `r` draws: the colour, or `None` for no write. */
  function BitPixel(r: byte, i: nat, fc: int, bc: Option<int>): Option<int>
    requires i < 8
  {
    if BitSet(r, i) then Some(fc) else if Background(bc) then Some(bc.value) else None
  }

  function BitWrites(r: byte, i: nat, px: int, py: int, fc: int, bc: Option<int>): seq<PixelWrite>
    requires i < 8
  {
    var p := BitPixel(r, i, fc, bc);
    if p.Some? then [PixelWrite(px, py, p.value)] else []
  }

  /** The writes of the first `n` bits of one glyph row, drawn down column `px` from row `y0`. */
  function RowWrites(r: byte, px: int, y0: int, fc: int, bc: Option<int>, n: nat): seq<PixelWrite>
    requires n <= 8
  {
    if n == 0 then [] else RowWrites(r, px, y0, fc, bc, n - 1) + BitWrites(r, n - 1, px, y0 + n - 1, fc, bc)
  }

  /** `b` is `b0` with the first `i` bits of row byte `r` drawn. */
  ghost predicate RowDrawn(b0: seq<byte>, b: seq<byte>, r: byte, px: int, y0: int, fc: int, bc: Option<int>, i: nat) {
    |b0| == BUF_LEN && i <= 8 && b == Apply(b0, RowWrites(r, px, y0, fc, bc, i))
  }

  /** Drawing bit `i` after the bits before it gives the drawing of the first `i + 1` bits. */
  lemma BitStep(b0: seq<byte>, r: byte, px: int, y0: int, fc: int, bc: Option<int>, i: nat, before: seq<byte>, after: seq<byte>)
    requires |b0| == BUF_LEN && i < 8 && before == Apply(b0, RowWrites(r, px, y0, fc, bc, i))
    requires var p := BitPixel(r, i, fc, bc);
      after == if p.Some? then PixelSet(before, PixelWrite(px, y0 + i, p.value)) else before
    ensures after == Apply(b0, RowWrites(r, px, y0, fc, bc, i + 1))
  {
    var p := BitPixel(r, i, fc, bc);
    var prev := RowWrites(r, px, y0, fc, bc, i);
    if p.Some? {
      ApplySnoc(b0, prev, PixelWrite(px, y0 + i, p.value));
    } else {
      assert prev + [] == prev;
    }
  }

  /** The writes of the first `m` columns of a glyph whose left column is `x`. */
  function GlyphWrites(g: seq<byte>, x: int, y0: int, fc: int, bc: Option<int>, m: nat): seq<PixelWrite>
    requires m <= |g|
  {
    if m == 0 then [] else GlyphWrites(g, x, y0, fc, bc, m - 1) + RowWrites(g[|g| - m], x + m - 1, y0, fc, bc, 8)
  }

  /** The glyph `find_font` gives each character of `text`. */
  function Glyphs(font: Font.ASCIIFont, text: string): (gs: seq<seq<byte>>)
    ensures |gs| == |text|
    ensures forall k :: 0 <= k < |text| ==> gs[k] == font.FindFont(text[k])
  {
    seq(|text|, k requires 0 <= k < |text| => font.FindFont(text[k]))
  }

  /** The writes of the first `n` glyphs of a text, glyph `k` in rows `y + 8k` to `y + 8k + 7`. */
  function TextWrites(gs: seq<seq<byte>>, x: int, y: int, fc: int, bc: Option<int>, n: nat): seq<PixelWrite>
    requires n <= |gs|
  {
    if n == 0 then []
    else TextWrites(gs, x, y, fc, bc, n - 1) + GlyphWrites(gs[n - 1], x, y + 8 * (n - 1), fc, bc, |gs[n - 1]|)
  }

  /** What the first `n` bits of a row draw at `(x, y)`. */
  function RowPixel(r: byte, px: int, y0: int, fc: int, bc: Option<int>, n: nat, x: int, y: int): Option<int>
    requires n <= 8
  {
    if x == px && y0 <= y < y0 + n then BitPixel(r, y - y0, fc, bc) else None
  }

  /** What the first `m` columns of a glyph draw at `(x, y)`. */
  function GlyphPixel(g: seq<byte>, x0: int, y0: int, fc: int, bc: Option<int>, m: nat, x: int, y: int): Option<int>
    requires m <= |g|
  {
    if x0 <= x < x0 + m && y0 <= y < y0 + 8 then BitPixel(g[|g| - 1 - (x - x0)], y - y0, fc, bc) else None
  }

  /**
   * What the first `n` characters draw at `(x, y)`: what the latest of them
   * whose glyph draws there draws, glyph `k` lying in rows `y0 + 8k` to
   * `y0 + 8k + 7`. `TextPixelAt` shows that this is the glyph of character
   * `(y - y0) / 8`.
   */
  function TextPixel(gs: seq<seq<byte>>, x0: int, y0: int, fc: int, bc: Option<int>, n: nat, x: int, y: int): Option<int>
    requires n <= |gs|
    decreases n
  {
    if n == 0 then None
    else
      var q := GlyphPixel(gs[n - 1], x0, y0 + 8 * (n - 1), fc, bc, |gs[n - 1]|, x, y);
      if q.Some? then q else TextPixel(gs, x0, y0, fc, bc, n - 1, x, y)
  }

  lemma {:induction false} RowLast(r: byte, px: int, y0: int, fc: int, bc: Option<int>, n: nat, x: int, y: int)
    requires n <= 8
    ensures LastWrite(RowWrites(r, px, y0, fc, bc, n), x, y) == RowPixel(r, px, y0, fc, bc, n, x, y)
    decreases n
  {
    if n > 0 {
      RowLast(r, px, y0, fc, bc, n - 1, x, y);
      RowLastStep(r, px, y0, fc, bc, n, x, y);
    }
  }

  lemma RowLastStep(r: byte, px: int, y0: int, fc: int, bc: Option<int>, n: nat, x: int, y: int)
    requires 0 < n <= 8
    requires LastWrite(RowWrites(r, px, y0, fc, bc, n - 1), x, y) == RowPixel(r, px, y0, fc, bc, n - 1, x, y)
    ensures LastWrite(RowWrites(r, px, y0, fc, bc, n), x, y) == RowPixel(r, px, y0, fc, bc, n, x, y)
  {
    var last := BitWrites(r, n - 1, px, y0 + n - 1, fc, bc);
    RowPixelStep(r, px, y0, fc, bc, n, x, y);
    LastWriteStep(RowWrites(r, px, y0, fc, bc, n - 1), last, x, y,
      RowPixel(r, px, y0, fc, bc, n - 1, x, y), LastWrite(last, x, y));
  }

  /** Bit `n - 1` draws only at `(px, y0 + n - 1)`. */
  lemma RowPixelStep(r: byte, px: int, y0: int, fc: int, bc: Option<int>, n: nat, x: int, y: int)
    requires 0 < n <= 8
    ensures var q := LastWrite(BitWrites(r, n - 1, px, y0 + n - 1, fc, bc), x, y);
      RowPixel(r, px, y0, fc, bc, n, x, y) == if q.Some? then q else RowPixel(r, px, y0, fc, bc, n - 1, x, y)
  {
    var last := BitWrites(r, n - 1, px, y0 + n - 1, fc, bc);
    if last != [] {
      assert last[..0] == [];
    }
  }

  lemma LastWriteStep(v: seq<PixelWrite>, w: seq<PixelWrite>, x: int, y: int, p: Option<int>, q: Option<int>)
    requires LastWrite(v, x, y) == p && LastWrite(w, x, y) == q
    ensures LastWrite(v + w, x, y) == if q.Some? then q else p
  {
    LastWriteAppend(v, w, x, y);
  }

  lemma GlyphPixelStep(g: seq<byte>, x0: int, y0: int, fc: int, bc: Option<int>, m: nat, x: int, y: int)
    requires 0 < m <= |g|
    ensures var p := GlyphPixel(g, x0, y0, fc, bc, m - 1, x, y);
      var q := RowPixel(g[|g| - m], x0 + m - 1, y0, fc, bc, 8, x, y);
      GlyphPixel(g, x0, y0, fc, bc, m, x, y) == if q.Some? then q else p
  {
  }

  lemma GlyphWritesStep(g: seq<byte>, x0: int, y0: int, fc: int, bc: Option<int>, m: nat)
    requires 0 < m <= |g|
    ensures GlyphWrites(g, x0, y0, fc, bc, m) == GlyphWrites(g, x0, y0, fc, bc, m - 1) + RowWrites(g[|g| - m], x0 + m - 1, y0, fc, bc, 8)
  {
  }

  lemma {:induction false} GlyphLast(g: seq<byte>, x0: int, y0: int, fc: int, bc: Option<int>, m: nat, x: int, y: int)
    requires m <= |g|
    ensures LastWrite(GlyphWrites(g, x0, y0, fc, bc, m), x, y) == GlyphPixel(g, x0, y0, fc, bc, m, x, y)
    decreases m
  {
    if m > 0 {
      GlyphLast(g, x0, y0, fc, bc, m - 1, x, y);
      GlyphLastStep(g, x0, y0, fc, bc, m, x, y);
    }
  }

  lemma GlyphLastStep(g: seq<byte>, x0: int, y0: int, fc: int, bc: Option<int>, m: nat, x: int, y: int)
    requires 0 < m <= |g|
    requires LastWrite(GlyphWrites(g, x0, y0, fc, bc, m - 1), x, y) == GlyphPixel(g, x0, y0, fc, bc, m - 1, x, y)
    ensures LastWrite(GlyphWrites(g, x0, y0, fc, bc, m), x, y) == GlyphPixel(g, x0, y0, fc, bc, m, x, y)
  {
    var r := g[|g| - m];
    RowLast(r, x0 + m - 1, y0, fc, bc, 8, x, y);
    GlyphWritesStep(g, x0, y0, fc, bc, m);
    GlyphPixelStep(g, x0, y0, fc, bc, m, x, y);
    LastWriteStep(GlyphWrites(g, x0, y0, fc, bc, m - 1), RowWrites(r, x0 + m - 1, y0, fc, bc, 8), x, y,
      GlyphPixel(g, x0, y0, fc, bc, m - 1, x, y), RowPixel(r, x0 + m - 1, y0, fc, bc, 8, x, y));
  }

  lemma TextWritesStep(gs: seq<seq<byte>>, x0: int, y0: int, fc: int, bc: Option<int>, n: nat)
    requires 0 < n <= |gs|
    ensures TextWrites(gs, x0, y0, fc, bc, n) ==
            TextWrites(gs, x0, y0, fc, bc, n - 1) + GlyphWrites(gs[n - 1], x0, y0 + 8 * (n - 1), fc, bc, |gs[n - 1]|)
  {
  }

  /** Drawing glyph `n - 1` after the first `n - 1` completes the picture of the first `n`. */
  lemma TextLastStep(gs: seq<seq<byte>>, x0: int, y0: int, fc: int, bc: Option<int>, n: nat, x: int, y: int)
    requires 0 < n <= |gs|
    requires LastWrite(TextWrites(gs, x0, y0, fc, bc, n - 1), x, y) == TextPixel(gs, x0, y0, fc, bc, n - 1, x, y)
    ensures LastWrite(TextWrites(gs, x0, y0, fc, bc, n), x, y) == TextPixel(gs, x0, y0, fc, bc, n, x, y)
  {
    var g := gs[n - 1];
    var v, w := TextWrites(gs, x0, y0, fc, bc, n - 1), GlyphWrites(g, x0, y0 + 8 * (n - 1), fc, bc, |g|);
    var p, q := TextPixel(gs, x0, y0, fc, bc, n - 1, x, y), GlyphPixel(g, x0, y0 + 8 * (n - 1), fc, bc, |g|, x, y);
    GlyphLast(g, x0, y0 + 8 * (n - 1), fc, bc, |g|, x, y);
    LastWriteStep(v, w, x, y, p, q);
    TextWritesStep(gs, x0, y0, fc, bc, n);
    assert TextWrites(gs, x0, y0, fc, bc, n) == v + w;
    assert TextPixel(gs, x0, y0, fc, bc, n, x, y) == if q.Some? then q else p;
  }

  /** Drawing glyph `k` after the glyphs before it gives the drawing of the first `k + 1` glyphs. */
  lemma CharStep(b0: seq<byte>, gs: seq<seq<byte>>, x: int, y: int, fc: int, bc: Option<int>, k: nat, before: seq<byte>, after: seq<byte>)
    requires |b0| == BUF_LEN && k < |gs| && before == Apply(b0, TextWrites(gs, x, y, fc, bc, k))
    requires after == Apply(before, GlyphWrites(gs[k], x, y + 8 * k, fc, bc, |gs[k]|))
    ensures after == Apply(b0, TextWrites(gs, x, y, fc, bc, k + 1))
  {
    TextWritesStep(gs, x, y, fc, bc, k + 1);
    ApplyAppend(b0, TextWrites(gs, x, y, fc, bc, k), GlyphWrites(gs[k], x, y + 8 * k, fc, bc, |gs[k]|));
  }

  lemma {:induction false} TextLast(gs: seq<seq<byte>>, x0: int, y0: int, fc: int, bc: Option<int>, n: nat, x: int, y: int)
    requires n <= |gs|
    ensures LastWrite(TextWrites(gs, x0, y0, fc, bc, n), x, y) == TextPixel(gs, x0, y0, fc, bc, n, x, y)
    decreases n
  {
    if n > 0 {
      TextLast(gs, x0, y0, fc, bc, n - 1, x, y);
      TextLastStep(gs, x0, y0, fc, bc, n, x, y);
    }
  }

  /**
   * `text8x16_v` as a whole: every in-frame pixel ends as `TextPixel` says,
   * the colour of its glyph bit in the block of its character, and keeps its
   * colour where nothing is drawn.
   */
  lemma TextApply(b: seq<byte>, gs: seq<seq<byte>>, x0: int, y0: int, fc: int, bc: Option<int>, x: int, y: int)
    requires |b| == BUF_LEN && InFrame(x, y)
    ensures Color(Apply(b, TextWrites(gs, x0, y0, fc, bc, |gs|)), x, y) == Drawn(b, TextPixel(gs, x0, y0, fc, bc, |gs|, x, y), x, y)
  {
    ApplyColor(b, TextWrites(gs, x0, y0, fc, bc, |gs|), x, y);
    TextLast(gs, x0, y0, fc, bc, |gs|, x, y);
  }

  /** The point `(x0 + ri, y0 + 8k + i)` of the text is bit `i` of row `rows - 1 - ri` of glyph `k`. */
  lemma TextPixelAt(gs: seq<seq<byte>>, x0: int, y0: int, fc: int, bc: Option<int>, k: nat, ri: nat, i: nat)
    requires k < |gs| && i < 8 && ri < |gs[k]|
    ensures TextPixel(gs, x0, y0, fc, bc, |gs|, x0 + ri, y0 + 8 * k + i) == BitPixel(gs[k][|gs[k]| - 1 - ri], i, fc, bc)
  {
    TextPixelIn(gs, x0, y0, fc, bc, |gs|, k, x0 + ri, y0 + 8 * k + i);
  }

  /** In the block of character `k`, the first `n > k` characters draw what glyph `k` draws. */
  lemma {:induction false} TextPixelIn(gs: seq<seq<byte>>, x0: int, y0: int, fc: int, bc: Option<int>, n: nat, k: nat, x: int, y: int)
    requires k < n <= |gs| && y0 + 8 * k <= y < y0 + 8 * k + 8
    ensures TextPixel(gs, x0, y0, fc, bc, n, x, y) == GlyphPixel(gs[k], x0, y0 + 8 * k, fc, bc, |gs[k]|, x, y)
    decreases n
  {
    if n - 1 == k {
      TextPixelAfter(gs, x0, y0, fc, bc, k, x, y);
    } else {
      TextPixelIn(gs, x0, y0, fc, bc, n - 1, k, x, y);
    }
  }

  /** Past the blocks of the first `n` characters, they draw nothing. */
  lemma {:induction false} TextPixelAfter(gs: seq<seq<byte>>, x0: int, y0: int, fc: int, bc: Option<int>, n: nat, x: int, y: int)
    requires n <= |gs| && y0 + 8 * n <= y
    ensures TextPixel(gs, x0, y0, fc, bc, n, x, y).None?
    decreases n
  {
    if n > 0 {
      TextPixelAfter(gs, x0, y0, fc, bc, n - 1, x, y);
    }
  }

  /** The point `(x0 + ri, y0 + 8k + i)` shows what bit `i` of row `rows - 1 - ri` of glyph `k` draws. */
  lemma TextBitColor(b: seq<byte>, gs: seq<seq<byte>>, x0: int, y0: int, fc: int, bc: Option<int>, k: nat, ri: nat, i: nat)
    requires |b| == BUF_LEN && k < |gs| && i < 8 && ri < |gs[k]| && InFrame(x0 + ri, y0 + 8 * k + i)
    ensures Color(Apply(b, TextWrites(gs, x0, y0, fc, bc, |gs|)), x0 + ri, y0 + 8 * k + i) ==
            Drawn(b, BitPixel(gs[k][|gs[k]| - 1 - ri], i, fc, bc), x0 + ri, y0 + 8 * k + i)
  {
    var px, py := x0 + ri, y0 + 8 * k + i;
    var bit := BitPixel(gs[k][|gs[k]| - 1 - ri], i, fc, bc);
    TextPixelAt(gs, x0, y0, fc, bc, k, ri, i);
    assert TextPixel(gs, x0, y0, fc, bc, |gs|, px, py) == bit;
    TextApply(b, gs, x0, y0, fc, bc, px, py);
  }

  /** A set bit of row `rows - 1 - ri` of glyph `k` paints `(x0 + ri, y0 + 8k + i)` in `fc`. */
  lemma TextBitSet(b: seq<byte>, gs: seq<seq<byte>>, x0: int, y0: int, fc: int, bc: Option<int>, k: nat, ri: nat, i: nat)
    requires |b| == BUF_LEN && k < |gs| && i < 8 && ri < |gs[k]|
    requires BitSet(gs[k][|gs[k]| - 1 - ri], i) && InFrame(x0 + ri, y0 + 8 * k + i)
    ensures Color(Apply(b, TextWrites(gs, x0, y0, fc, bc, |gs|)), x0 + ri, y0 + 8 * k + i) == fc % 65536
  {
    TextBitColor(b, gs, x0, y0, fc, bc, k, ri, i);
  }

  /** A clear bit leaves its pixel alone unless `bc` is truthy, and then paints it in `bc`. */
  lemma TextBitClear(b: seq<byte>, gs: seq<seq<byte>>, x0: int, y0: int, fc: int, bc: Option<int>, k: nat, ri: nat, i: nat)
    requires |b| == BUF_LEN && k < |gs| && i < 8 && ri < |gs[k]|
    requires !BitSet(gs[k][|gs[k]| - 1 - ri], i) && InFrame(x0 + ri, y0 + 8 * k + i)
    ensures Background(bc) ==> Color(Apply(b, TextWrites(gs, x0, y0, fc, bc, |gs|)), x0 + ri, y0 + 8 * k + i) == bc.value % 65536
    ensures !Background(bc) ==> Color(Apply(b, TextWrites(gs, x0, y0, fc, bc, |gs|)), x0 + ri, y0 + 8 * k + i) == Color(b, x0 + ri, y0 + 8 * k + i)
  {
    TextBitColor(b, gs, x0, y0, fc, bc, k, ri, i);
  }

  /**
   * Character `k` draws only in columns `x0 .. x0 + rows - 1` and rows
   * `y0 + 8k .. y0 + 8k + 7`: every write it issues lies there.
   */
  lemma {:induction false} GlyphWritesWithin(g: seq<byte>, x0: int, y0: int, fc: int, bc: Option<int>, m: nat)
    requires m <= |g|
    ensures forall w :: w in GlyphWrites(g, x0, y0, fc, bc, m) ==> x0 <= w.x < x0 + m && y0 <= w.y < y0 + 8
    decreases m
  {
    if m > 0 {
      GlyphWritesWithin(g, x0, y0, fc, bc, m - 1);
      RowWritesWithin(g[|g| - m], x0 + m - 1, y0, fc, bc, 8);
    }
  }

  lemma {:induction false} RowWritesWithin(r: byte, px: int, y0: int, fc: int, bc: Option<int>, n: nat)
    requires n <= 8
    ensures forall w :: w in RowWrites(r, px, y0, fc, bc, n) ==> w.x == px && y0 <= w.y < y0 + n
    decreases n
  {
    if n > 0 {
      RowWritesWithin(r, px, y0, fc, bc, n - 1);
    }
  }

  /*
   * `image`: the file is read in rows of `2w` bytes; byte pair `i` of row
   * `yoff` is the colour `row[i] | row[i + 1] << 8` of pixel
   * `(x + i / 2, y + yoff)`. Counted over the whole file, pair `j` lands at
   * `(x + j % w, y + j / w)`.
   */

  /**
   * The column and row of pair `j` in an image `w` pixels wide, counted the
   * way `image` walks it: along a row, then to the start of the next one.
   */
  function Place(j: nat, w: int): (p: (int, int))
    requires w > 0
  {
    if j == 0 then (0, 0)
    else
      var q := Place(j - 1, w);
      if q.0 + 1 == w then (0, q.1 + 1) else (q.0 + 1, q.1)
  }

  /** The place of pair `j` is `(j % w, j / w)`. */
  lemma {:induction false} PlaceIsDivMod(j: nat, w: int)
    requires w > 0
    ensures Place(j, w) == (j % w, j / w)
  {
    if j > 0 {
      PlaceIsDivMod(j - 1, w);
      DivModSucc(j - 1, w);
    }
  }

  /** The write of byte pair `j` of an image file `w` pixels wide. */
  function ImageWrite(file: seq<byte>, x: int, y: int, w: int, j: nat): (p: PixelWrite)
    requires w > 0 && 2 * j + 1 < |file|
  {
    var q := Place(j, w);
    PixelWrite(x + q.0, y + q.1, (file[2 * j] as int) + 256 * (file[2 * j + 1] as int))
  }

  /** The writes of the first `n` byte pairs. */
  function ImageWrites(file: seq<byte>, x: int, y: int, w: int, n: nat): (ws: seq<PixelWrite>)
    requires w > 0 && 2 * n <= |file|
    ensures |ws| == n
  {
    if n == 0 then [] else ImageWrites(file, x, y, w, n - 1) + [ImageWrite(file, x, y, w, n - 1)]
  }

  lemma {:induction false} ImageWritesAt(file: seq<byte>, x: int, y: int, w: int, n: nat, j: nat)
    requires w > 0 && 2 * n <= |file| && j < n
    ensures ImageWrites(file, x, y, w, n)[j] == ImageWrite(file, x, y, w, j)
    decreases n
  {
    if j < n - 1 {
      ImageWritesAt(file, x, y, w, n - 1, j);
    }
  }

  /** Distinct byte pairs go to distinct pixels. */
  lemma ImageWriteDistinct(file: seq<byte>, x: int, y: int, w: int, i: nat, j: nat)
    requires w > 0 && 2 * i + 1 < |file| && 2 * j + 1 < |file| && i != j
    ensures var a := ImageWrite(file, x, y, w, i);
      var b := ImageWrite(file, x, y, w, j);
      (a.x, a.y) != (b.x, b.y)
  {
    ImageWriteAt(file, x, y, w, i);
    ImageWriteAt(file, x, y, w, j);
    DivModInjective(i, j, w);
  }

  /** Pair `j` goes to `(x + j % w, y + j / w)`. */
  lemma ImageWriteAt(file: seq<byte>, x: int, y: int, w: int, j: nat)
    requires w > 0 && 2 * j + 1 < |file|
    ensures ImageWrite(file, x, y, w, j) == PixelWrite(x + j % w, y + j / w, (file[2 * j] as int) + 256 * (file[2 * j + 1] as int))
  {
    PlaceIsDivMod(j, w);
  }

  /** A write of a 16-bit colour that no later write overwrites decides its pixel. */
  lemma ShowsLast(b: seq<byte>, ws: seq<PixelWrite>, j: nat, px: int, py: int, c: int)
    requires |b| == BUF_LEN && j < |ws| && ws[j] == PixelWrite(px, py, c) && InFrame(px, py) && 0 <= c < 65536
    requires Untouched(ws, j + 1, px, py)
    ensures Color(Apply(b, ws), px, py) == c
  {
    LastWriteAt(ws, j);
    assert LastWrite(ws, px, py) == Some(c);
    ApplyColor(b, ws, px, py);
    DrawnColor(b, c, px, py);
  }

  /** A drawn 16-bit colour is kept as it is. */
  lemma DrawnColor(b: seq<byte>, c: int, px: int, py: int)
    requires |b| == BUF_LEN && InFrame(px, py) && 0 <= c < 65536
    ensures Drawn(b, Some(c), px, py) == c
  {
  }

  /**
   * After `image`, every complete byte pair `j` of the file shows as the
   * colour `file[2j] | file[2j + 1] << 8` at `(x + j % w, y + j / w)`,
   * once that point lies in the frame.
   */
  lemma ImageDecodes(b: seq<byte>, file: seq<byte>, x: int, y: int, w: int, j: nat)
    requires |b| == BUF_LEN && w > 0 && 2 * j + 1 < |file| && InFrame(x + j % w, y + j / w)
    ensures Color(Apply(b, ImageWrites(file, x, y, w, |file| / 2)), x + j % w, y + j / w) == (file[2 * j] as int) + 256 * (file[2 * j + 1] as int)
  {
    HalfBound(j, |file|);
    ImageWriteAt(file, x, y, w, j);
    PrefixDecodes(b, file, x, y, w, |file| / 2, j);
  }

  lemma HalfBound(j: nat, len: nat)
    requires 2 * j + 1 < len
    ensures j < len / 2 && 2 * (len / 2) <= len
  {
    DivModUnique(len, 2, len / 2, len % 2);
  }

  /** Once the first `n` pairs are drawn, pair `j < n` shows at its place unless that is off the frame. */
  lemma PrefixDecodes(b: seq<byte>, file: seq<byte>, x: int, y: int, w: int, n: nat, j: nat)
    requires |b| == BUF_LEN && w > 0 && 2 * n <= |file| && j < n
    requires var p := ImageWrite(file, x, y, w, j); InFrame(p.x, p.y)
    ensures var p := ImageWrite(file, x, y, w, j); Color(Apply(b, ImageWrites(file, x, y, w, n)), p.x, p.y) == p.color
  {
    var ws := ImageWrites(file, x, y, w, n);
    var p := ImageWrite(file, x, y, w, j);
    ImageWritesAt(file, x, y, w, n, j);
    ImageLaterDistinct(file, x, y, w, n, j, ws);
    ShowsLast(b, ws, j, p.x, p.y, p.color);
  }

  /** No pair after pair `j` goes to the pixel of pair `j`. */
  lemma ImageLaterDistinct(file: seq<byte>, x: int, y: int, w: int, n: nat, j: nat, ws: seq<PixelWrite>)
    requires w > 0 && 2 * n <= |file| && j < n && ws == ImageWrites(file, x, y, w, n)
    ensures var p := ImageWrite(file, x, y, w, j); Untouched(ws, j + 1, p.x, p.y)
  {
    var p := ImageWrite(file, x, y, w, j);
    forall i | j + 1 <= i < |ws|
      ensures (ws[i].x, ws[i].y) != (p.x, p.y)
    {
      ImageWritesAt(file, x, y, w, n, i);
      ImageWriteDistinct(file, x, y, w, i, j);
    }
  }

  /** Drawing the pair at `row[i]` after the pairs before it gives the drawing of the first `start + p + 1` pairs. */
  lemma PairStep(b0: seq<byte>, file: seq<byte>, row: seq<byte>, x: int, y: int, yoff: nat, w: int, start: nat, i: nat, p: nat,
                 before: seq<byte>, after: seq<byte>)
    requires |b0| == BUF_LEN && RowOf(file, row, yoff, w, start) && i == 2 * p && i + 1 < |row|
    requires ImageDrawn(b0, before, file, x, y, w, start + p)
    requires after == PixelSet(before, PixelWrite(x + i / 2, y + yoff, (row[i] as int) + 256 * (row[i + 1] as int)))
    ensures ImageDrawn(b0, after, file, x, y, w, start + p + 1)
  {
    RowPairWrite(file, row, x, y, yoff, w, start, i, p);
    ApplySnoc(b0, ImageWrites(file, x, y, w, start + p), ImageWrite(file, x, y, w, start + p));
  }

  /** `b` is `b0` after the first `n` byte pairs of the file are drawn. */
  ghost predicate ImageDrawn(b0: seq<byte>, b: seq<byte>, file: seq<byte>, x: int, y: int, w: int, n: nat) {
    |b0| == BUF_LEN && w > 0 && 2 * n <= |file| && b == Apply(b0, ImageWrites(file, x, y, w, n))
  }

  /** `row` is read `yoff` of `image`: at most `2w` bytes of the file, from byte `2 start` on, with `start = yoff w`. */
  ghost predicate RowOf(file: seq<byte>, row: seq<byte>, yoff: nat, w: int, start: nat) {
    w > 0 && start == yoff * w && |row| <= 2 * w && 2 * start + |row| <= |file| && row == file[2 * start..2 * start + |row|]
  }

  /** The pair at `row[i]` of row `yoff` is pair `start + p` of the file, at column `i / 2`. */
  lemma RowPairWrite(file: seq<byte>, row: seq<byte>, x: int, y: int, yoff: nat, w: int, start: nat, i: nat, p: nat)
    requires RowOf(file, row, yoff, w, start) && i == 2 * p && i + 1 < |row|
    ensures ImageWrite(file, x, y, w, start + p) == PixelWrite(x + i / 2, y + yoff, (row[i] as int) + 256 * (row[i + 1] as int))
  {
    assert row[i] == file[2 * (start + p)] && row[i + 1] == file[2 * (start + p) + 1];
    DivModUnique(start + p, w, yoff, p);
    ImageWriteAt(file, x, y, w, start + p);
  }

  /** A read of odd length is shorter than the `2w` bytes asked for. */
  lemma OddIsShort(len: int, pairs: int, w: int)
    requires len == 2 * pairs + 1 && len <= 2 * w
    ensures len < 2 * w
  {
  }

  /** The last read of `image`: the pairs drawn are all the file's complete pairs. */
  lemma ImageEnd(b0: seq<byte>, b: seq<byte>, file: seq<byte>, x: int, y: int, w: int, start: nat, pairs: nat, rowLen: int, odd: bool)
    requires |b0| == BUF_LEN && w > 0 && |file| == 2 * start + rowLen && rowLen == 2 * pairs + (if odd then 1 else 0)
    requires b == Apply(b0, ImageWrites(file, x, y, w, start + pairs))
    ensures b == Apply(b0, ImageWrites(file, x, y, w, |file| / 2)) && (|file| % 2 == 0 <==> !odd)
  {
    DivModUnique(|file|, 2, start + pairs, if odd then 1 else 0);
  }

  /** The copy of `fill_img` after byte `k` is stored: the file up to `k + 1`, the old buffer after it. */
  lemma CopyStep(file: seq<byte>, b0: seq<byte>, k: nat, before: seq<byte>, after: seq<byte>)
    requires |b0| == BUF_LEN && k < BUF_LEN && k < |file| && before == file[..k] + b0[k..] && after == before[k := file[k]]
    ensures after == file[..k + 1] + b0[k + 1..]
  {
    assert after == file[..k + 1] + b0[k + 1..];
  }

  /** A copy that reached the end of the buffer holds the file's first `BUF_LEN` bytes. */
  lemma CopyFull(file: seq<byte>, b0: seq<byte>, b: seq<byte>)
    requires |b0| == BUF_LEN && BUF_LEN <= |file| && b == file[..BUF_LEN] + b0[BUF_LEN..]
    ensures b == file[..BUF_LEN]
  {
    assert b0[BUF_LEN..] == [];
  }

  /** `fill_img` has copied its first `y` reads, `pos` bytes of the file, over the old buffer `b0`. */
  ghost predicate Filled(file: seq<byte>, b0: seq<byte>, b: seq<byte>, pos: int, y: int, w: int) {
    |b0| == BUF_LEN && w > 0 && 0 <= y && pos == y * w * 2 && pos <= |file| && pos <= BUF_LEN &&
    b == file[..pos] + b0[pos..]
  }

  /** A full read of `2w` bytes copied at `offset` completes row `y`. */
  lemma NextRow(file: seq<byte>, b0: seq<byte>, b: seq<byte>, pos: int, y: int, w: int, offset: int, b': seq<byte>)
    requires Filled(file, b0, b, pos, y, w) && offset == y * w * 2
    requires offset + w * 2 <= BUF_LEN && offset + w * 2 <= |file|
    requires b' == file[..offset + w * 2] + b0[offset + w * 2..]
    ensures Filled(file, b0, b', pos + w * 2, y + 1, w)
  {
    assert (y + 1) * w * 2 == y * w * 2 + w * 2;
  }

  /** The short read of `fill_img`, at row `y`: the file is copied and `y` is its number of full rows. */
  lemma FillEnd(file: seq<byte>, b0: seq<byte>, b: seq<byte>, k: int, pos: int, y: int, w: int)
    requires w > 0 && 0 <= y && pos == y * w * 2 && pos <= |file| < pos + w * 2 && |file| <= |b0|
    requires k == |file| && b == file[..k] + b0[k..]
    ensures |file| / (2 * w) == y && b == file + b0[|file|..]
  {
    assert y * w * 2 == y * (2 * w);
    DivModUnique(|file|, 2 * w, y, |file| - pos);
    assert file[..|file|] == file;
  }

  /** The 80x160 frame buffer of `TFTBuf`, with the panel driver it is shown on. */
  class TFTBuf {
    /** `buf`, which `fbuf` draws into. */
    const buf: array<byte>
    const tft: ST7735.TFT
    const font: Font.ASCIIFont
    /** The `(x, y, text, c)` of every `text8x8_h` call; what `framebuf.text` draws is not modelled. */
    var texts: seq<(int, int, string, int)>

    ghost predicate Valid()
      reads this, tft
    {
      buf.Length == BUF_LEN && tft.Valid() && buf != tft.windowLocData && buf != tft.colorData
    }

    /** `__init__`: a zeroed buffer and the font of `ascii.font`, whose bytes are given. */
    constructor (tft: ST7735.TFT, fontBytes: seq<byte>)
      requires tft.Valid()
      ensures Valid() && fresh(buf) && this.tft == tft
      ensures buf[..] == seq(BUF_LEN, _ => 0)
      ensures font.fontBytes == fontBytes && texts == []
    {
      buf := new byte[BUF_LEN](_ => 0);
      this.tft := tft;
      font := new Font.ASCIIFont("ascii.font", fontBytes);
      texts := [];
    }

    /** `show`: the buffer as one image on the window `(26, 1)` to `(105, 160)`. */
    method Show()
      requires Valid()
      modifies tft`trace, tft.windowLocData
      ensures Valid() && buf[..] == old(buf[..])
      ensures tft.trace == old(tft.trace) + ST7735.WindowFrames(tft.offset.0, tft.offset.1, (26, 1), (105, 160)) + [ST7735.Data(buf[..])]
    {
      tft.Image(26, 1, 105, 160, buf[..]);
    }

    /** `text8x8_h`: recorded only. */
    method Text8x8H(x: int, y: int, text: string, c: int := 0)
      modifies this`texts
      ensures texts == old(texts) + [(x, y, text, c)]
    {
      texts := texts + [(x, y, text, c)];
    }

    /** `fbuf.pixel`. */
    method Pixel(x: int, y: int, c: int)
      requires buf.Length == BUF_LEN
      modifies buf
      ensures buf[..] == PixelSet(old(buf[..]), PixelWrite(x, y, c))
    {
      if InFrame(x, y) {
        var o := (y * FB_W + x) * 2;
        buf[o] := StoreByte(c);
        buf[o + 1] := StoreByte(c / 256);
      }
    }

    /** The inner loop of `text8x16_v`: the eight bits of row byte `r` down column `px`. */
    method DrawRow(px: int, y0: int, r: byte, fc: int, bc: Option<int>)
      requires buf.Length == BUF_LEN
      modifies buf
      ensures buf[..] == Apply(old(buf[..]), RowWrites(r, px, y0, fc, bc, 8))
    {
      ghost var b0 := buf[..];
      for i := 0 to 8
        invariant RowDrawn(b0, buf[..], r, px, y0, fc, bc, i)
      {
        DrawBit(px, y0, r, i, fc, bc, b0);
      }
    }

    /** One pass of the inner loop of `text8x16_v`. */
    method DrawBit(px: int, y0: int, r: byte, i: nat, fc: int, bc: Option<int>, ghost b0: seq<byte>)
      requires buf.Length == BUF_LEN && i < 8 && RowDrawn(b0, buf[..], r, px, y0, fc, bc, i)
      modifies buf
      ensures RowDrawn(b0, buf[..], r, px, y0, fc, bc, i + 1)
    {
      ghost var before := buf[..];
      if BitSet(r, i) {
        Pixel(px, y0 + i, fc);
      } else if bc.Some? && bc.value != 0 {
        Pixel(px, y0 + i, bc.value);
      }
      BitStep(b0, r, px, y0, fc, bc, i, before, buf[..]);
    }

    /** The middle loop of `text8x16_v`: one glyph, its last row byte in column `x`. */
    method DrawGlyph(x: int, y0: int, g: seq<byte>, fc: int, bc: Option<int>)
      requires buf.Length == BUF_LEN
      modifies buf
      ensures buf[..] == Apply(old(buf[..]), GlyphWrites(g, x, y0, fc, bc, |g|))
    {
      ghost var b0 := buf[..];
      var rows := |g|;
      for ri := 0 to rows
        invariant buf[..] == Apply(b0, GlyphWrites(g, x, y0, fc, bc, ri))
      {
        DrawGlyphRow(x, y0, g, ri, fc, bc, b0);
      }
    }

    /** One pass of the middle loop of `text8x16_v`: row byte `|g| - ri - 1` in column `x + ri`. */
    method DrawGlyphRow(x: int, y0: int, g: seq<byte>, ri: nat, fc: int, bc: Option<int>, ghost b0: seq<byte>)
      requires buf.Length == BUF_LEN && |b0| == BUF_LEN && ri < |g|
      requires buf[..] == Apply(b0, GlyphWrites(g, x, y0, fc, bc, ri))
      modifies buf
      ensures buf[..] == Apply(b0, GlyphWrites(g, x, y0, fc, bc, ri + 1))
    {
      var r := g[|g| - ri - 1];
      DrawRow(x + ri, y0, r, fc, bc);
      ApplyAppend(b0, GlyphWrites(g, x, y0, fc, bc, ri), RowWrites(r, x + ri, y0, fc, bc, 8));
      GlyphWritesStep(g, x, y0, fc, bc, ri + 1);
    }

    /**
     * `text8x16_v`: the glyphs of the characters of `text` one below the
     * other, eight rows apart, drawn rotated by a quarter turn.
     */
    method TextV(x: int, y: int, text: string, fc: int, bc: Option<int> := None)
      requires Valid()
      modifies buf
      ensures buf[..] == Apply(old(buf[..]), TextWrites(Glyphs(font, text), x, y, fc, bc, |text|))
    {
      ghost var b0 := buf[..];
      ghost var gs := Glyphs(font, text);
      var yoffset := y;
      for k := 0 to |text|
        invariant yoffset == y + 8 * k
        invariant buf[..] == Apply(b0, TextWrites(gs, x, y, fc, bc, k))
      {
        var fontM := font.FindFont(text[k]);
        DrawChar(x, y, yoffset, fontM, gs, k, fc, bc, b0);
        yoffset := yoffset + 8;
      }
    }

    /** One pass of the outer loop of `text8x16_v`: glyph `k` in its block. */
    method DrawChar(x: int, y: int, yoffset: int, g: seq<byte>, ghost gs: seq<seq<byte>>, k: nat, fc: int, bc: Option<int>, ghost b0: seq<byte>)
      requires buf.Length == BUF_LEN && |b0| == BUF_LEN && k < |gs| && g == gs[k] && yoffset == y + 8 * k
      requires buf[..] == Apply(b0, TextWrites(gs, x, y, fc, bc, k))
      modifies buf
      ensures buf[..] == Apply(b0, TextWrites(gs, x, y, fc, bc, k + 1))
    {
      ghost var before := buf[..];
      DrawGlyph(x, yoffset, g, fc, bc);
      CharStep(b0, gs, x, y, fc, bc, k, before, buf[..]);
    }

    /**
     * `fill_img(file, w)`: the file's bytes copied to the start of the
     * buffer, read `2w` bytes at a time until a read comes back short (an
     * empty read included). `Ok` carries the number of reads. A file longer
     * than the buffer raises once the copy reaches the end of the buffer.
     */
    method FillImg(file: seq<byte>, w: int) returns (r: Result<nat>)
      requires Valid() && w > 0
      modifies buf
      ensures |file| <= BUF_LEN ==> r == Ok(|file| / (2 * w) + 1) && buf[..] == file + old(buf[..])[|file|..]
      ensures |file| > BUF_LEN ==> r.Err? && buf[..] == file[..BUF_LEN]
    {
      ghost var b0 := buf[..];
      var pos := 0;
      var y := 0;
      while true
        invariant Filled(file, b0, buf[..], pos, y, w)
        decreases |file| - pos
      {
        ghost var before := buf[..];
        var n := if |file| - pos < w * 2 then |file| - pos else w * 2;
        var row := file[pos..pos + n];
        var offset := y * w * 2;
        var rowLen := |row|;
        assert rowLen == n;
        var failed := CopyRow(file, row, offset, b0);
        if failed {
          return Err("IndexError");
        }
        if rowLen < w * 2 {
          FillEnd(file, b0, buf[..], offset + |row|, pos, y, w);
          return Ok(y + 1);
        }
        NextRow(file, b0, before, pos, y, w, offset, buf[..]);
        pos := pos + rowLen;
        y := y + 1;
      }
    }

    /** The inner loop of `fill_img`: `true` when it ran off the end of the buffer. */
    method CopyRow(file: seq<byte>, row: seq<byte>, offset: nat, ghost b0: seq<byte>) returns (failed: bool)
      requires buf.Length == BUF_LEN && |b0| == BUF_LEN && offset <= BUF_LEN
      requires offset + |row| <= |file| && row == file[offset..offset + |row|]
      requires buf[..] == file[..offset] + b0[offset..]
      modifies buf
      ensures !failed ==> offset + |row| <= BUF_LEN && buf[..] == file[..offset + |row|] + b0[offset + |row|..]
      ensures failed ==> BUF_LEN < offset + |row| && buf[..] == file[..BUF_LEN]
    {
      for x := 0 to |row|
        invariant offset + x <= BUF_LEN
        invariant buf[..] == file[..offset + x] + b0[offset + x..]
      {
        if offset + x >= buf.Length {
          CopyFull(file, b0, buf[..]);
          return true;
        }
        ghost var before := buf[..];
        Poke(offset + x, row[x]);
        CopyStep(file, b0, offset + x, before, buf[..]);
      }
      failed := false;
    }

    /** `buf[k] = v` for a `k` in range. */
    method Poke(k: nat, v: byte)
      requires k < buf.Length
      modifies buf
      ensures buf[..] == old(buf[..])[k := v]
    {
      buf[k] := v;
    }

    /**
     * `image(file, x, y, w)`: every complete byte pair of the file becomes a
     * pixel write. A file of odd length raises at its last byte, after the
     * pairs before it are drawn.
     */
    method Image(file: seq<byte>, x: int, y: int, w: int) returns (r: Result<()>)
      requires Valid() && w > 0
      modifies buf
      ensures buf[..] == Apply(old(buf[..]), ImageWrites(file, x, y, w, |file| / 2))
      ensures r.Ok? <==> |file| % 2 == 0
    {
      ghost var b0 := buf[..];
      ghost var start := 0;
      var pos := 0;
      var yoff := 0;
      while true
        invariant 0 <= yoff && start == yoff * w && pos == 2 * start && pos <= |file|
        invariant buf[..] == Apply(b0, ImageWrites(file, x, y, w, start))
        decreases |file| - pos
      {
        var stop;
        stop, r := ImageRow(file, x, y, w, pos, yoff, start, b0);
        if stop {
          return;
        }
        pos := pos + w * 2;
        start := start + w;
        yoff := yoff + 1;
      }
    }

    /** One pass of the outer loop of `image`: read and draw row `yoff`; `stop` once the read was short. */
    method ImageRow(file: seq<byte>, x: int, y: int, w: int, pos: nat, yoff: nat, ghost start: nat, ghost b0: seq<byte>)
      returns (stop: bool, r: Result<()>)
      requires buf.Length == BUF_LEN && |b0| == BUF_LEN && w > 0
      requires start == yoff * w && pos == 2 * start && pos <= |file|
      requires buf[..] == Apply(b0, ImageWrites(file, x, y, w, start))
      modifies buf
      ensures stop ==> buf[..] == Apply(b0, ImageWrites(file, x, y, w, |file| / 2)) && (r.Ok? <==> |file| % 2 == 0)
      ensures !stop ==> pos + 2 * w <= |file| && (yoff + 1) * w == start + w &&
                        buf[..] == Apply(b0, ImageWrites(file, x, y, w, start + w))
    {
      var n := if |file| - pos < w * 2 then |file| - pos else w * 2;
      var row := file[pos..pos + n];
      assert |row| == n && RowOf(file, row, yoff, w, start);
      ghost var pairs;
      var ok;
      ok, pairs := DrawImageRow(file, row, x, y, yoff, w, start, b0);
      if !ok {
        OddIsShort(|row|, pairs, w);
        ImageEnd(b0, buf[..], file, x, y, w, start, pairs, |row|, true);
        return true, Err("IndexError");
      }
      if |row| < w * 2 {
        ImageEnd(b0, buf[..], file, x, y, w, start, pairs, |row|, false);
        return true, Ok(());
      }
      assert pairs == w && (yoff + 1) * w == yoff * w + w;
      stop, r := false, Ok(());
    }

    /**
     * The inner loop of `image`: row `yoff`, whose first byte pair is pair
     * `start` of the file, one pixel per pair; `false` when a pair is cut short.
     */
    method DrawImageRow(file: seq<byte>, row: seq<byte>, x: int, y: int, yoff: nat, w: int, ghost start: nat, ghost b0: seq<byte>)
      returns (ok: bool, ghost pairs: nat)
      requires buf.Length == BUF_LEN && |b0| == BUF_LEN && RowOf(file, row, yoff, w, start)
      requires buf[..] == Apply(b0, ImageWrites(file, x, y, w, start))
      modifies buf
      ensures |row| == 2 * pairs + (if ok then 0 else 1)
      ensures buf[..] == Apply(b0, ImageWrites(file, x, y, w, start + pairs))
    {
      var i := 0;
      pairs := 0;
      ghost var n := start;
      while i < |row|
        invariant i == 2 * pairs && i <= |row| && n == start + pairs
        invariant ImageDrawn(b0, buf[..], file, x, y, w, n)
      {
        if i + 1 >= |row| {
          return false, pairs;
        }
        DrawPair(file, row, x, y, yoff, w, start, i, pairs, n, b0);
        i := i + 2;
        pairs := pairs + 1;
        n := n + 1;
      }
      ok := true;
    }

    /** One pass of the inner loop of `image`: the pair at `row[i]`, pair `n = start + p` of the file with `i = 2p`, at `(x + i / 2, y + yoff)`. */
    method DrawPair(file: seq<byte>, row: seq<byte>, x: int, y: int, yoff: nat, w: int, ghost start: nat, i: nat, ghost p: nat, ghost n: nat, ghost b0: seq<byte>)
      requires buf.Length == BUF_LEN && |b0| == BUF_LEN && RowOf(file, row, yoff, w, start) && i == 2 * p && i + 1 < |row| && n == start + p
      requires ImageDrawn(b0, buf[..], file, x, y, w, n)
      modifies buf
      ensures ImageDrawn(b0, buf[..], file, x, y, w, n + 1)
    {
      ghost var before := buf[..];
      assert i / 2 == p;
      var color := (row[i] as int) + 256 * (row[i + 1] as int);
      Pixel(x + i / 2, y + yoff, color);
      PairStep(b0, file, row, x, y, yoff, w, start, i, p, before, buf[..]);
    }

    /** `clear`: `fbuf.fill(c)`, every pixel in colour `c`. */
    method Clear(c: int)
      requires Valid()
      modifies buf
      ensures forall k :: 0 <= k < BUF_LEN ==> buf[k] == if k % 2 == 0 then StoreByte(c) else StoreByte(c / 256)
      ensures forall px, py :: InFrame(px, py) ==> Color(buf[..], px, py) == c % 65536
    {
      forall k | 0 <= k < buf.Length {
        buf[k] := if k % 2 == 0 then StoreByte(c) else StoreByte(c / 256);
      }
      forall px, py | InFrame(px, py)
        ensures Color(buf[..], px, py) == c % 65536
      {
        ColorBytes(c);
        assert Off(px, py) % 2 == 0;
      }
    }
  }

  /** The context keys of `TFTTask`. */
  const TFT_TASK_NAME := "tft_task"
  const KEY_BC := "tft_bc"
  const KEY_FLUSH := "tft_flush"
  const KEY_TITLE := "tft_title"
  const KEY_TEXT_1 := "tft_text1"
  const KEY_TEXT_2 := "tft_text2"
  const KEY_TEXT_3 := "tft_text3"
  const KEY_ENABLE := "tft_enable"
  /** The background image files. */
  const BC_CLOCK := "bg_clock.data"
  const BC_TH := "bg_th.data"
  /** Milliseconds after the last `ENABLE` for which the backlight stays on. */
  const BACKLIGHT_TIMEOUT := 20 * 1000

  predicate StrOrAbsent(vars: map<string, Value>, k: string) {
    k in vars ==> vars[k].Str?
  }

  /**
   * The key types the tasks agree on for what `TFTTask` reads: a number
   * under `TICKS_MS`, strings for the background file, title and texts.
   */
  predicate Typed(vars: map<string, Value>) {
    (TICKS_MS in vars ==> vars[TICKS_MS].Int?) &&
    StrOrAbsent(vars, KEY_BC) && StrOrAbsent(vars, KEY_TITLE) &&
    StrOrAbsent(vars, KEY_TEXT_1) && StrOrAbsent(vars, KEY_TEXT_2) && StrOrAbsent(vars, KEY_TEXT_3)
  }

  /** `ctx.get_var(TICKS_MS, 0)`. */
  function Ticks(vars: map<string, Value>): int
    requires Typed(vars)
  {
    Lookup(vars, TICKS_MS, Int(0)).i
  }

  /** `ctx.get_var(k, def)` for a string-valued key. */
  function Text(vars: map<string, Value>, k: string, def: string): (s: string)
    requires StrOrAbsent(vars, k)
    ensures k in vars ==> s == vars[k].s
    ensures k !in vars ==> s == def
  {
    Lookup(vars, k, Str(def)).s
  }

  /** What `TFTTask` keeps between ticks; `bkl` is also the level of the backlight pin. */
  datatype TaskState = TaskState(bc: string, title: string, t1: string, t2: string, t3: string,
                                 flush: Value, bkl: bool, lastAct: int)

  /**
   * `read_value`: the background file (default `BC_CLOCK`), the title and
   * the three texts (default `''`) and the flush request (default `False`).
   */
  function ReadValues(s: TaskState, vars: map<string, Value>): (r: TaskState)
    requires Typed(vars)
    ensures KEY_BC in vars ==> r.bc == vars[KEY_BC].s
    ensures KEY_BC !in vars ==> r.bc == BC_CLOCK
    ensures KEY_TITLE in vars ==> r.title == vars[KEY_TITLE].s
    ensures KEY_TITLE !in vars ==> r.title == ""
    ensures KEY_TEXT_1 in vars ==> r.t1 == vars[KEY_TEXT_1].s
    ensures KEY_TEXT_1 !in vars ==> r.t1 == ""
    ensures KEY_TEXT_2 in vars ==> r.t2 == vars[KEY_TEXT_2].s
    ensures KEY_TEXT_2 !in vars ==> r.t2 == ""
    ensures KEY_TEXT_3 in vars ==> r.t3 == vars[KEY_TEXT_3].s
    ensures KEY_TEXT_3 !in vars ==> r.t3 == ""
    ensures KEY_FLUSH in vars ==> r.flush == vars[KEY_FLUSH]
    ensures KEY_FLUSH !in vars ==> r.flush == Bool(false)
    ensures r.bkl == s.bkl && r.lastAct == s.lastAct
  {
    s.(bc := Text(vars, KEY_BC, BC_CLOCK), title := Text(vars, KEY_TITLE, ""),
       t1 := Text(vars, KEY_TEXT_1, ""), t2 := Text(vars, KEY_TEXT_2, ""), t3 := Text(vars, KEY_TEXT_3, ""),
       flush := Lookup(vars, KEY_FLUSH, Bool(false)))
  }

  /** The outcome of one `loop` up to the drawing: the task's state, the context, and whether it redraws. */
  datatype TaskTick = TaskTick(state: TaskState, vars: map<string, Value>, redraw: bool)

  /** A truthy `ENABLE` in the context. */
  predicate Enabled(vars: map<string, Value>) {
    Truthy(Lookup(vars, KEY_ENABLE, Bool(false)))
  }

  /**
   * `TFTTask.loop` before it draws: consume `ENABLE` as activity, switch the
   * backlight by the time since the last activity, `read_value`, and redraw
   * (clearing `FLUSH`) only when a flush is requested and the backlight is on.
   */
  function Tick(s: TaskState, vars: map<string, Value>): TaskTick
    requires Typed(vars)
  {
    var now := Ticks(vars);
    var enable := Enabled(vars);
    var vars1 := if enable then vars[KEY_ENABLE := Bool(false)] else vars;
    var lastAct := if enable then now else s.lastAct;
    var bkl := !(now - lastAct > BACKLIGHT_TIMEOUT);
    var s1 := ReadValues(s.(lastAct := lastAct, bkl := bkl), vars);
    var redraw := Truthy(s1.flush) && bkl;
    TaskTick(s1, if redraw then vars1[KEY_FLUSH := Bool(false)] else vars1, redraw)
  }

  /**
   * A truthy `ENABLE` is reset to `False` and records the current time as
   * the last activity; the backlight is on exactly when at most 20 seconds
   * have passed since the last activity.
   */
  lemma TickBacklight(s: TaskState, vars: map<string, Value>)
    requires Typed(vars)
    ensures var t := Tick(s, vars);
      t.state.lastAct == (if Enabled(vars) then Ticks(vars) else s.lastAct) &&
      (t.state.bkl <==> Ticks(vars) - t.state.lastAct <= BACKLIGHT_TIMEOUT) &&
      (Enabled(vars) ==> t.state.bkl && t.vars[KEY_ENABLE] == Bool(false)) &&
      (!Enabled(vars) ==> Lookup(t.vars, KEY_ENABLE, Nil) == Lookup(vars, KEY_ENABLE, Nil))
  {
  }

  /**
   * The redraw gate: a redraw happens exactly when `FLUSH` is truthy and the
   * backlight is on, and clears `FLUSH`; otherwise `FLUSH` stays as it was,
   * so a flush requested while the backlight is off stays pending.
   */
  lemma TickRedraw(s: TaskState, vars: map<string, Value>)
    requires Typed(vars)
    ensures var t := Tick(s, vars);
      (t.redraw <==> Truthy(Lookup(vars, KEY_FLUSH, Bool(false))) && t.state.bkl) &&
      (t.redraw ==> t.vars[KEY_FLUSH] == Bool(false)) &&
      (!t.redraw ==> Lookup(t.vars, KEY_FLUSH, Nil) == Lookup(vars, KEY_FLUSH, Nil))
  {
  }

  /**
   * A flush left pending by a dark tick is drawn by the next tick whose
   * context carries a truthy `ENABLE`, whatever the clock then reads.
   */
  lemma PendingFlushDrawnOnWake(s: TaskState, vars: map<string, Value>, now: int)
    requires Typed(vars) && Truthy(Lookup(vars, KEY_FLUSH, Bool(false)))
    requires !Tick(s, vars).state.bkl
    ensures var t := Tick(s, vars);
      var next := t.vars[KEY_ENABLE := Bool(true)][TICKS_MS := Int(now)];
      Typed(next) && Tick(t.state, next).redraw
  {
    var t := Tick(s, vars);
    var next := t.vars[KEY_ENABLE := Bool(true)][TICKS_MS := Int(now)];
    TickRedraw(s, vars);
    assert Lookup(t.vars, KEY_FLUSH, Nil) == Lookup(vars, KEY_FLUSH, Nil);
    assert next[KEY_FLUSH] == vars[KEY_FLUSH];
    assert Enabled(next);
    TickBacklight(t.state, next);
    TickRedraw(t.state, next);
  }

  /** The buffer after a redraw: the background file, then the three texts in columns 60, 40 and 20. */
  function Redrawn(b: seq<byte>, file: seq<byte>, font: Font.ASCIIFont, s: TaskState): (r: seq<byte>)
    requires |b| == BUF_LEN && |file| <= BUF_LEN
    ensures |r| == BUF_LEN
  {
    var b1 := file + b[|file|..];
    var b2 := Apply(b1, TextWrites(Glyphs(font, s.t1), 60, 6, 0xFF, None, |s.t1|));
    var b3 := Apply(b2, TextWrites(Glyphs(font, s.t2), 40, 6, 0xFF, None, |s.t2|));
    Apply(b3, TextWrites(Glyphs(font, s.t3), 20, 6, 0xFF, None, |s.t3|))
  }

  /** `TFTTask`: the panel, its frame buffer, and the values of the last `read_value`. */
  class TFTTask {
    const tft: ST7735.TFT
    const fb: TFTBuf
    var bc: string
    var title: string
    var t1: string
    var t2: string
    var t3: string
    var flush: Value
    /** Whether the backlight is on; the backlight pin follows it. */
    var bkl: bool
    var lastAct: int

    function State(): TaskState
      reads this
    {
      TaskState(bc, title, t1, t2, t3, flush, bkl, lastAct)
    }

    ghost predicate Valid()
      reads this, fb, tft
    {
      fb.tft == tft && fb.Valid()
    }

    /** `__init__` for a 106x160 panel; the SPI bus and pins are not modelled. */
    constructor (fontBytes: seq<byte>)
      ensures Valid() && fresh(tft) && fresh(fb) && fresh(fb.buf)
      ensures State() == TaskState(BC_CLOCK, "Levent", "", "", "", Bool(false), true, 0)
      ensures tft.size == (106, 160) && tft.trace == []
    {
      var panel := new ST7735.TFT((106, 160));
      tft := panel;
      fb := new TFTBuf(panel, fontBytes);
      bc, title, t1, t2, t3 := BC_CLOCK, "Levent", "", "", "";
      flush, bkl, lastAct := Bool(false), true, 0;
    }

    /** `setup`: initialise the panel, then invert its colours. */
    method Setup()
      requires Valid()
      modifies tft`trace, tft.windowLocData
      ensures Valid()
      ensures tft.trace == old(tft.trace) + ST7735.InitFrames(tft.size.0, tft.size.1) + [ST7735.Cmd(ST7735.INVON)]
    {
      tft.InitR();
      tft.InvertColor(true);
    }

    method ReadValue(ctx: Context)
      requires Typed(ctx.vars)
      modifies this
      ensures State() == ReadValues(old(State()), ctx.vars)
    {
      bc := ctx.GetVar(KEY_BC, Str(BC_CLOCK)).s;
      title := ctx.GetVar(KEY_TITLE, Str("")).s;
      t1 := ctx.GetVar(KEY_TEXT_1, Str("")).s;
      t2 := ctx.GetVar(KEY_TEXT_2, Str("")).s;
      t3 := ctx.GetVar(KEY_TEXT_3, Str("")).s;
      flush := ctx.GetVar(KEY_FLUSH, Bool(false));
    }

    static method ResetFlush(ctx: Context)
      modifies ctx
      ensures ctx.vars == old(ctx.vars)[KEY_FLUSH := Bool(false)]
    {
      ctx.SetVar(KEY_FLUSH, Bool(false));
    }

    /**
     * `loop`: the gate of `Tick`, then, on a redraw, the background file
     * into the buffer, the title through `text8x8_h`, the three texts, and
     * the buffer onto the panel. A missing file (`open` raises) or one
     * larger than the buffer ends the call with an error before anything is
     * sent to the panel: a missing file leaves the buffer as it was, a larger
     * one leaves the buffer holding the file's first `BUF_LEN` bytes.
     */
    method Loop(ctx: Context, files: map<string, seq<byte>>) returns (r: Result<()>)
      requires Valid() && Typed(ctx.vars)
      modifies this, ctx, fb.buf, fb`texts, tft`trace, tft.windowLocData
      ensures Valid()
      ensures var t := Tick(old(State()), old(ctx.vars));
        State() == t.state && ctx.vars == t.vars
      ensures var t := Tick(old(State()), old(ctx.vars));
        !t.redraw ==> r == Ok(()) && fb.buf[..] == old(fb.buf[..]) && fb.texts == old(fb.texts) && tft.trace == old(tft.trace)
      ensures var t := Tick(old(State()), old(ctx.vars));
        t.redraw && (t.state.bc !in files || |files[t.state.bc]| > BUF_LEN) ==>
          r.Err? && fb.texts == old(fb.texts) && tft.trace == old(tft.trace)
      ensures var t := Tick(old(State()), old(ctx.vars));
        t.redraw && t.state.bc !in files ==> fb.buf[..] == old(fb.buf[..])
      ensures var t := Tick(old(State()), old(ctx.vars));
        t.redraw && t.state.bc in files && |files[t.state.bc]| > BUF_LEN ==> fb.buf[..] == files[t.state.bc][..BUF_LEN]
      ensures var t := Tick(old(State()), old(ctx.vars));
        t.redraw && t.state.bc in files && |files[t.state.bc]| <= BUF_LEN ==>
          r == Ok(()) &&
          fb.buf[..] == Redrawn(old(fb.buf[..]), files[t.state.bc], fb.font, t.state) &&
          fb.texts == old(fb.texts) + [(0, 150, t.state.title, 0)] &&
          tft.trace == old(tft.trace) + ST7735.WindowFrames(tft.offset.0, tft.offset.1, (26, 1), (105, 160)) + [ST7735.Data(fb.buf[..])]
    {
      var redraw := Gate(ctx);
      if !redraw {
        return Ok(());
      }
      r := Redraw(files);
    }

    /** The part of `loop` before drawing: `true` when it goes on to redraw. */
    method Gate(ctx: Context) returns (redraw: bool)
      requires Typed(ctx.vars)
      modifies this, ctx
      ensures var t := Tick(old(State()), old(ctx.vars));
        State() == t.state && ctx.vars == t.vars && redraw == t.redraw
    {
      var now := ctx.GetVar(TICKS_MS, Int(0)).i;
      var enable := ctx.GetVar(KEY_ENABLE, Bool(false));
      ghost var vars0 := ctx.vars;
      if Truthy(enable) {
        ctx.SetVar(KEY_ENABLE, Bool(false));
        lastAct := now;
      }
      if now - lastAct > BACKLIGHT_TIMEOUT {
        bkl := false;
      } else {
        bkl := true;
      }
      ReadValue(ctx);
      assert ReadValues(old(State()).(lastAct := lastAct, bkl := bkl), ctx.vars)
          == ReadValues(old(State()).(lastAct := lastAct, bkl := bkl), vars0);
      if !Truthy(flush) || !bkl {
        return false;
      }
      ResetFlush(ctx);
      redraw := true;
    }

    /** The drawing of `loop` on a redraw. */
    method Redraw(files: map<string, seq<byte>>) returns (r: Result<()>)
      requires Valid()
      modifies fb.buf, fb`texts, tft`trace, tft.windowLocData
      ensures Valid()
      ensures bc !in files || |files[bc]| > BUF_LEN ==> r.Err? && tft.trace == old(tft.trace) && fb.texts == old(fb.texts)
      ensures bc !in files ==> fb.buf[..] == old(fb.buf[..])
      ensures bc in files && |files[bc]| > BUF_LEN ==> fb.buf[..] == files[bc][..BUF_LEN]
      ensures bc in files && |files[bc]| <= BUF_LEN ==>
          r == Ok(()) &&
          fb.buf[..] == Redrawn(old(fb.buf[..]), files[bc], fb.font, State()) &&
          fb.texts == old(fb.texts) + [(0, 150, title, 0)] &&
          tft.trace == old(tft.trace) + ST7735.WindowFrames(tft.offset.0, tft.offset.1, (26, 1), (105, 160)) + [ST7735.Data(fb.buf[..])]
    {
      if bc !in files {
        return Err("OSError");
      }
      var filled := fb.FillImg(files[bc], 80);
      if filled.Err? {
        return Err(filled.reason);
      }
      fb.Text8x8H(0, 150, title);
      fb.TextV(60, 6, t1, 0xFF);
      fb.TextV(40, 6, t2, 0xFF);
      fb.TextV(20, 6, t3, 0xFF);
      fb.Show();
      r := Ok(());
    }
  }
}
