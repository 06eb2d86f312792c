/**
 * The 8x16 ASCII font of `workSpace/font.py`: glyph lookup in a table of 16
 * bytes per character, and the column-major rendering of a glyph into colour
 * bytes appended to a byte stream. The contents of the font file are given to
 * the constructor.
 */
module Font {
  import opened Wrappers

  const WIDTH := 8
  const HEIGHT := 16

  /** Entry `i` of the table: the character with code `32 + i`. */
  function CodeAt(i: nat): char
    requires i < 95
  {
    (32 + i) as char
  }

  /**
   * The characters of the table in glyph order: the 95 printable ASCII
   * characters from space to `~`, as the source string lists them.
   */
  function Codes(): (s: seq<char>)
    ensures |s| == 95
    ensures forall k :: 0 <= k < 95 ==> s[k] == CodeAt(k)
  {
    seq(95, i requires 0 <= i < 95 => CodeAt(i))
  }

  /** Exactly the printable ASCII characters are in the table. */
  lemma InCodes(c: char)
    ensures c in Codes() <==> 32 <= c as int <= 126
  {
    if 32 <= c as int <= 126 {
      assert Codes()[c as int - 32] == c;
    }
  }

  /** The scan of `_find_idx` from position `i` on. */
  function Scan(c: char, i: nat): nat
    requires i <= |Codes()|
    decreases |Codes()| - i
  {
    if i == |Codes()| then |Codes()| - 1
    else if Codes()[i] == c then i
    else if Codes()[i] > c then |Codes()| - 1
    else Scan(c, i + 1)
  }

  /** Every table entry before position `i` is below `c`. */
  predicate AllBelow(c: char, i: nat)
    requires i <= |Codes()|
  {
    forall k :: 0 <= k < i ==> Codes()[k] < c
  }

  /**
   * Scanning from `i`, where every earlier character is below `c`, finds `c`
   * when it is in the table and ends at the last entry otherwise.
   */
  lemma {:induction false} ScanResult(c: char, i: nat)
    requires i <= |Codes()|
    requires AllBelow(c, i)
    ensures Scan(c, i) < |Codes()|
    ensures c in Codes() ==> Codes()[Scan(c, i)] == c
    ensures c !in Codes() ==> Scan(c, i) == |Codes()| - 1
    decreases |Codes()| - i
  {
    if i < |Codes()| && Codes()[i] != c {
      if Codes()[i] > c {
        assert forall k :: i <= k < |Codes()| ==> Codes()[k] > c;
        assert c !in Codes();
      } else {
        ScanResult(c, i + 1);
      }
    } else if i == |Codes()| {
      assert c !in Codes();
    }
  }

  /**
   * `_find_idx`: the position of `c` in the table, or the last position
   * (the glyph of `~`) for a character below space or above `~`.
   */
  function FindIdx(c: char): (i: nat)
    ensures i < |Codes()|
    ensures 32 <= c as int <= 126 ==> i == c as int - 32
    ensures c as int < 32 || 126 < c as int ==> i == |Codes()| - 1
  {
    ScanResult(c, 0);
    InCodes(c);
    Scan(c, 0)
  }

  /** A character of the table is found at its own position. */
  lemma FindIdxFound(c: char)
    requires c in Codes()
    ensures Codes()[FindIdx(c)] == c
  {
    InCodes(c);
  }

  /** Every character the table does not hold maps to the last entry. */
  lemma FindIdxMissing(c: char)
    requires c !in Codes()
    ensures FindIdx(c) == |Codes()| - 1
  {
    InCodes(c);
  }

  /** Python's `s[lo:hi]` for `0 <= lo <= hi`: bounds past the end are cut to the length. */
  function Slice(s: seq<byte>, lo: nat, hi: nat): (r: seq<byte>)
    requires lo <= hi
    ensures hi <= |s| ==> r == s[lo..hi]
    ensures |r| == (if hi <= |s| then hi - lo else if lo <= |s| then |s| - lo else 0)
  {
    if |s| <= lo then [] else if |s| <= hi then s[lo..] else s[lo..hi]
  }

  /** The colour `char_img` emits for column `i`, step `ri`: rows are read bottom up. */
  function PixelColor(font: seq<byte>, i: nat, ri: nat, bc: seq<byte>, fc: seq<byte>): seq<byte>
    requires i < 8 && ri < |font|
  {
    if BitSet(font[|font| - ri - 1], i) then fc else bc
  }

  /** The bytes of the first `ri` steps of column `i`. */
  function Column(font: seq<byte>, i: nat, ri: nat, bc: seq<byte>, fc: seq<byte>): seq<byte>
    requires i < 8 && ri <= |font|
  {
    if ri == 0 then [] else Column(font, i, ri - 1, bc, fc) + PixelColor(font, i, ri - 1, bc, fc)
  }

  /** The bytes of the first `n` whole columns. */
  function Columns(font: seq<byte>, n: nat, bc: seq<byte>, fc: seq<byte>): seq<byte>
    requires n <= 8
  {
    if n == 0 then [] else Columns(font, n - 1, bc, fc) + Column(font, n - 1, |font|, bc, fc)
  }

  /** Everything `char_img` writes for one glyph. */
  function GlyphImage(font: seq<byte>, bc: seq<byte>, fc: seq<byte>): seq<byte> {
    Columns(font, 8, bc, fc)
  }

  lemma {:induction false} ColumnLength(font: seq<byte>, i: nat, ri: nat, bc: seq<byte>, fc: seq<byte>)
    requires i < 8 && ri <= |font| && |bc| == |fc|
    ensures |Column(font, i, ri, bc, fc)| == ri * |bc|
  {
    if ri > 0 {
      ColumnLength(font, i, ri - 1, bc, fc);
      assert |Column(font, i, ri, bc, fc)| == |Column(font, i, ri - 1, bc, fc)| + |PixelColor(font, i, ri - 1, bc, fc)|;
      MulSucc(ri - 1, |bc|);
    }
  }

  lemma {:induction false} ColumnsLength(font: seq<byte>, n: nat, bc: seq<byte>, fc: seq<byte>)
    requires n <= 8 && |bc| == |fc|
    ensures |Columns(font, n, bc, fc)| == n * (|font| * |bc|)
  {
    if n > 0 {
      ColumnsLength(font, n - 1, bc, fc);
      ColumnLength(font, n - 1, |font|, bc, fc);
      assert |Columns(font, n, bc, fc)| == |Columns(font, n - 1, bc, fc)| + |Column(font, n - 1, |font|, bc, fc)|;
      MulSucc(n - 1, |font| * |bc|);
    }
  }

  /** With equally long colours a glyph of `lines` rows gives `8 * lines` colours. */
  lemma GlyphImageLength(font: seq<byte>, bc: seq<byte>, fc: seq<byte>)
    requires |bc| == |fc|
    ensures |GlyphImage(font, bc, fc)| == 8 * (|font| * |bc|)
  {
    ColumnsLength(font, 8, bc, fc);
  }

  /** The first `m` columns are a prefix of the first `n`; likewise the steps of one column below. */
  lemma {:induction false} ColumnsPrefix(font: seq<byte>, m: nat, n: nat, bc: seq<byte>, fc: seq<byte>)
    requires m <= n <= 8
    ensures Columns(font, m, bc, fc) <= Columns(font, n, bc, fc)
    decreases n - m
  {
    if m < n {
      ColumnsPrefix(font, m, n - 1, bc, fc);
    }
  }

  lemma {:induction false} ColumnPrefix(font: seq<byte>, i: nat, m: nat, n: nat, bc: seq<byte>, fc: seq<byte>)
    requires i < 8 && m <= n <= |font|
    ensures Column(font, i, m, bc, fc) <= Column(font, i, n, bc, fc)
    decreases n - m
  {
    if m < n {
      ColumnPrefix(font, i, m, n - 1, bc, fc);
    }
  }

  lemma Distribute(i: int, lines: int, ri: int, n: int)
    ensures (i * lines + ri) * n == i * (lines * n) + ri * n
    ensures (i * lines + ri + 1) * n == i * (lines * n) + ri * n + n
  {
  }

  /**
   * The colour for column `i` (bit `0x80 >> i`) and step `ri` (row
   * `lines - 1 - ri`) sits at colour position `i * lines + ri`: `fc` when the
   * bit is set, `bc` otherwise.
   */
  lemma GlyphPixelAt(font: seq<byte>, bc: seq<byte>, fc: seq<byte>, i: nat, ri: nat)
    requires |bc| == |fc| && i < 8 && ri < |font|
    ensures (i * |font| + ri + 1) * |bc| <= |GlyphImage(font, bc, fc)|
    ensures GlyphImage(font, bc, fc)[(i * |font| + ri) * |bc|..(i * |font| + ri + 1) * |bc|]
         == (if BitSet(font[|font| - 1 - ri], i) then fc else bc)
  {
    var n := |bc|;
    var before := Columns(font, i, bc, fc);
    var upTo := Column(font, i, ri, bc, fc);
    var color := PixelColor(font, i, ri, bc, fc);
    ColumnsLength(font, i, bc, fc);
    ColumnLength(font, i, ri, bc, fc);
    Distribute(i, |font|, ri, n);
    ColumnPrefix(font, i, ri + 1, |font|, bc, fc);
    var column := Column(font, i, |font|, bc, fc);
    assert Column(font, i, ri + 1, bc, fc) == upTo + color;
    assert Columns(font, i + 1, bc, fc) == before + column;
    PrefixAfter(before, upTo + color, column);
    ColumnsPrefix(font, i + 1, 8, bc, fc);
    assert color == (if BitSet(font[|font| - 1 - ri], i) then fc else bc) && |color| == n;
    SliceAt(before, upTo, color, GlyphImage(font, bc, fc), (i * |font| + ri) * |bc|, (i * |font| + ri + 1) * |bc|);
  }

  lemma PrefixAfter(x: seq<byte>, y: seq<byte>, z: seq<byte>)
    requires y <= z
    ensures x + y <= x + z
  {
    assert (x + z)[..|x + y|] == x + y;
  }

  /** A piece that follows `x + y` in a prefix of `image` sits at `|x| + |y|` there. */
  lemma SliceAt(x: seq<byte>, y: seq<byte>, piece: seq<byte>, image: seq<byte>, lo: int, hi: int)
    requires x + (y + piece) <= image && lo == |x| + |y| && hi == lo + |piece|
    ensures 0 <= lo <= hi <= |image| && image[lo..hi] == piece
  {
    var prefix := x + (y + piece);
    assert prefix[|x| + |y|..|x| + |y| + |piece|] == piece;
    assert image[|x| + |y|..|x| + |y| + |piece|] == prefix[|x| + |y|..|x| + |y| + |piece|];
  }

  /** The images of the characters of `s`, one after the other. */
  function Render(s: string, glyph: char -> seq<byte>): seq<byte> {
    if s == [] then [] else Render(s[..|s| - 1], glyph) + glyph(s[|s| - 1])
  }

  lemma {:induction false} RenderAppend(s: string, t: string, glyph: char -> seq<byte>)
    ensures Render(s + t, glyph) == Render(s, glyph) + Render(t, glyph)
    decreases |t|
  {
    if t == [] {
      assert s + t == s;
    } else {
      var t', last := t[..|t| - 1], t[|t| - 1];
      var st := s + t;
      assert st[..|st| - 1] == s + t';
      assert st[|st| - 1] == last;
      RenderAppend(s, t', glyph);
    }
  }

  /** A `BytesIO` object: the bytes written so far. */
  class ByteStream {
    var contents: seq<byte>

    constructor ()
      ensures contents == []
    {
      contents := [];
    }

    method Write(b: seq<byte>)
      modifies this
      ensures contents == old(contents) + b
    {
      contents := contents + b;
    }
  }

  class ASCIIFont {
    /** The file name the caller passes; the source reads `ascii.font` whatever it is. */
    const file: string
    const fontBytes: seq<byte>

    constructor (file: string, fontBytes: seq<byte>)
      ensures this.file == file && this.fontBytes == fontBytes
    {
      this.file := file;
      this.fontBytes := fontBytes;
    }

    /** `find_font`: the 16 bytes of the glyph of `c`, fewer if the file is short. */
    function FindFont(c: char): (g: seq<byte>)
      ensures g == Slice(fontBytes, 16 * FindIdx(c), 16 * FindIdx(c) + 16)
      ensures |fontBytes| >= 16 * |Codes()| ==> |g| == 16
    {
      var idx := FindIdx(c);
      Slice(fontBytes, idx * 16, idx * 16 + 16)
    }

    /** The bytes `char_img` appends for the character `c`. */
    function CharImage(c: char, bc: seq<byte>, fc: seq<byte>): seq<byte> {
      GlyphImage(FindFont(c), bc, fc)
    }

    /** `CharImage` for fixed colours, as a function of the character. */
    function Glyphs(bc: seq<byte>, fc: seq<byte>): char -> seq<byte> {
      c => CharImage(c, bc, fc)
    }

    /** The bytes `str_img` produces: the glyph images of the characters of `s` in order. */
    function StrImage(s: string, bc: seq<byte>, fc: seq<byte>): seq<byte> {
      Render(s, Glyphs(bc, fc))
    }

    /** Rendering two strings one after the other renders their concatenation. */
    lemma StrImageAppend(s: string, t: string, bc: seq<byte>, fc: seq<byte>)
      ensures StrImage(s + t, bc, fc) == StrImage(s, bc, fc) + StrImage(t, bc, fc)
    {
      RenderAppend(s, t, Glyphs(bc, fc));
    }

    /**
     * `char_img`: appends the glyph image of `c` to `out`, or to a new stream
     * when `out` is `None`, and returns that stream.
     */
    method CharImg(c: char, bc: seq<byte>, fc: seq<byte>, out: ByteStream?) returns (res: ByteStream)
      modifies out
      ensures out != null ==> res == out && res.contents == old(out.contents) + CharImage(c, bc, fc)
      ensures out == null ==> fresh(res) && res.contents == CharImage(c, bc, fc)
    {
      var font := FindFont(c);
      if out == null {
        res := new ByteStream();
      } else {
        res := out;
      }
      WriteGlyph(font, bc, fc, res);
    }

    /** The two nested loops of `char_img` over the glyph `font`: column `i` outside, step `ri` inside. */
    method WriteGlyph(font: seq<byte>, bc: seq<byte>, fc: seq<byte>, out: ByteStream)
      modifies out
      ensures out.contents == old(out.contents) + GlyphImage(font, bc, fc)
    {
      for i := 0 to 8
        invariant out.contents == old(out.contents) + Columns(font, i, bc, fc)
      {
        ghost var before := out.contents;
        WriteColumn(font, i, bc, fc, out);
        assert out.contents == before + Column(font, i, |font|, bc, fc);
      }
    }

    /** The middle loop of `char_img`: the steps of column `i`, bottom row of the glyph first. */
    method WriteColumn(font: seq<byte>, i: nat, bc: seq<byte>, fc: seq<byte>, out: ByteStream)
      requires i < 8
      modifies out
      ensures out.contents == old(out.contents) + Column(font, i, |font|, bc, fc)
    {
      var lines := |font|;
      for ri := 0 to lines
        invariant out.contents == old(out.contents) + Column(font, i, ri, bc, fc)
      {
        var r := font[lines - ri - 1];
        var color := if BitSet(r, i) then fc else bc;
        WriteEach(out, color);
        assert Column(font, i, ri + 1, bc, fc) == Column(font, i, ri, bc, fc) + color;
      }
    }

    /** The innermost loop of `char_img`: the components of one colour, one byte at a time. */
    method WriteEach(out: ByteStream, color: seq<byte>)
      modifies out
      ensures out.contents == old(out.contents) + color
    {
      for j := 0 to |color|
        invariant out.contents == old(out.contents) + color[..j]
      {
        out.Write([color[j]]);
        assert color[..j + 1] == color[..j] + [color[j]];
      }
      assert color[..|color|] == color;
    }

    /** `str_img`: a new stream holding the glyph images of the characters of `s`. */
    method StrImg(s: string, bc: seq<byte>, fc: seq<byte>) returns (res: ByteStream)
      ensures fresh(res)
      ensures res.contents == StrImage(s, bc, fc)
    {
      res := new ByteStream();
      for k := 0 to |s|
        invariant res.contents == StrImage(s[..k], bc, fc)
      {
        var out := CharImg(s[k], bc, fc, res);
        assert s[..k + 1][..k] == s[..k];
      }
      assert s[..|s|] == s;
    }
  }
}
