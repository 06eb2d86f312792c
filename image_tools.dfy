/**
 * The offline converter of `image_tools.py`: it turns a W x H RGB picture into
 * the raw RGB565 stream the firmware later copies into its frame buffer. The
 * picture (opened and resized by PIL in the source) is a pixel function here,
 * and the output file is the returned byte sequence.
 */
module ImageTools {
  import opened Wrappers
  import ST7735

  const W := 80
  const H := 80

  /** An RGB pixel as `Image.getpixel` returns it for a colour picture. */
  type Rgb8 = (byte, byte, byte)

  /** `as16bit_color`: the RGB565 colour of a pixel, the same packing as `TFTColor`. */
  function As16BitColor(c: Rgb8): (v: bv16)
    ensures v == ST7735.TFTColor(c.0, c.1, c.2)
    ensures v as int < 0x1_0000
  {
    ((c.0 as bv16 & 0xF8) << 8) | ((c.1 as bv16 & 0xFC) << 3) | ((c.2 as bv16 & 0xF8) >> 3)
  }

  /** The two bytes `to_bytes(length=2, byteorder='big')` gives for the pixel at column `x` and flipped row `y`. */
  function Entry(pixel: (int, int) -> Rgb8, x: int, y: int): seq<byte> {
    ST7735.ColorBytes(As16BitColor(pixel(x, H - y - 1)) as int)
  }

  /** The list `res` that `main` builds: column by column, each column from the bottom row up. */
  function Entries(pixel: (int, int) -> Rgb8): (es: seq<seq<byte>>)
    ensures |es| == W * H
  {
    seq(W * H, k requires 0 <= k < W * H => Entry(pixel, k / H, k % H))
  }

  /** The bytes of a list of byte strings written one after the other. */
  function Flatten(bs: seq<seq<byte>>): seq<byte> {
    if bs == [] then [] else Flatten(bs[..|bs| - 1]) + bs[|bs| - 1]
  }

  /**
   * Entry number `x * H + y` encodes the source pixel `(x, H - 1 - y)` as its
   * RGB565 value, high byte first.
   */
  lemma EntriesLayout(pixel: (int, int) -> Rgb8, x: int, y: int)
    requires 0 <= x < W && 0 <= y < H
    ensures 0 <= x * H + y < |Entries(pixel)|
    ensures Entries(pixel)[x * H + y] == Entry(pixel, x, y)
    ensures |Entry(pixel, x, y)| == 2
    ensures var c := As16BitColor(pixel(x, H - 1 - y)) as int;
      Entry(pixel, x, y)[0] as int * 256 + Entry(pixel, x, y)[1] as int == c
  {
    var k := x * H + y;
    assert k / H == x && k % H == y;
  }

  /**
   * A list of two-byte entries written in order gives twice as many bytes,
   * entry `k` at offsets `2k` and `2k + 1`.
   */
  lemma {:induction false} FlattenPairs(bs: seq<seq<byte>>)
    requires forall k :: 0 <= k < |bs| ==> |bs[k]| == 2
    ensures |Flatten(bs)| == 2 * |bs|
    ensures forall k :: 0 <= k < |bs| ==> Flatten(bs)[2 * k] == bs[k][0] && Flatten(bs)[2 * k + 1] == bs[k][1]
  {
    if bs != [] {
      var init := bs[..|bs| - 1];
      FlattenPairs(init);
      assert Flatten(bs) == Flatten(init) + bs[|bs| - 1];
      forall k | 0 <= k < |bs|
        ensures Flatten(bs)[2 * k] == bs[k][0] && Flatten(bs)[2 * k + 1] == bs[k][1]
      {
        if k < |init| {
          assert bs[k] == init[k];
        }
      }
    }
  }

  /**
   * The nested pixel loop of `main` followed by the writes to the output
   * file: the list of entries and the bytes the file then holds.
   */
  method Convert(pixel: (int, int) -> Rgb8) returns (res: seq<seq<byte>>, file: seq<byte>)
    ensures res == Entries(pixel)
    ensures file == Flatten(res)
    ensures |file| == 2 * W * H
  {
    res := [];
    var x := 0;
    while x < W
      invariant 0 <= x <= W
      invariant |res| == x * H
      invariant forall k :: 0 <= k < |res| ==> res[k] == Entry(pixel, k / H, k % H)
    {
      var y := 0;
      while y < H
        invariant 0 <= y <= H
        invariant |res| == x * H + y
        invariant forall k :: 0 <= k < |res| ==> res[k] == Entry(pixel, k / H, k % H)
      {
        var c := As16BitColor(pixel(x, H - y - 1));
        assert (x * H + y) / H == x && (x * H + y) % H == y;
        res := res + [ST7735.ColorBytes(c as int)];
        y := y + 1;
      }
      x := x + 1;
    }
    file := [];
    var i := 0;
    while i < |res|
      invariant 0 <= i <= |res|
      invariant file == Flatten(res[..i])
    {
      assert res[..i + 1][..i] == res[..i];
      file := file + res[i];
      i := i + 1;
    }
    assert res[..i] == res;
    FlattenPairs(res);
  }
}
