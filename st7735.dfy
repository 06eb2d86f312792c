/**
 * The ST7735 TFT controller driver of `workSpace/ST7735.py`, seen through the
 * bus it drives: every operation appends frames to `TFT.trace`. A `Cmd` frame
 * is one byte sent with the data/command line low, a `Data` frame the bytes of
 * one `spi.write` with that line high; the reset line and the microsecond
 * delays of the initialisation are kept as frames too, in the order issued.
 */
module ST7735 {
  import opened Wrappers

  datatype Frame = Cmd(code: byte) | Data(bytes: seq<byte>) | ResetLine(high: bool) | Delay(us: nat)

  const TFT_ROTATIONS: seq<byte> := [0x00, 0x60, 0xC0, 0xA0]
  const TFT_BGR: byte := 0x08
  const TFT_RGB: byte := 0x00

  const SWRESET: byte := 0x01
  const SLPOUT: byte := 0x11
  const NORON: byte := 0x13
  const INVOFF: byte := 0x20
  const INVON: byte := 0x21
  const DISPOFF: byte := 0x28
  const DISPON: byte := 0x29
  const VSCSAD: byte := 0x37
  const CASET: byte := 0x2A
  const RASET: byte := 0x2B
  const RAMWR: byte := 0x2C
  const COLMOD: byte := 0x3A
  const MADCTL: byte := 0x36
  const FRMCTR1: byte := 0xB1
  const FRMCTR2: byte := 0xB2
  const FRMCTR3: byte := 0xB3
  const INVCTR: byte := 0xB4
  const PWCTR1: byte := 0xC0
  const PWCTR2: byte := 0xC1
  const PWCTR3: byte := 0xC2
  const PWCTR4: byte := 0xC3
  const PWCTR5: byte := 0xC4
  const VMCTR1: byte := 0xC5
  const GMCTRP1: byte := 0xE0
  const GMCTRN1: byte := 0xE1

  const GAMMA_POSITIVE: seq<byte> := [0x0f, 0x1a, 0x0f, 0x18, 0x2f, 0x28, 0x20, 0x22,
                                       0x1f, 0x1b, 0x23, 0x37, 0x00, 0x07, 0x02, 0x10]
  const GAMMA_NEGATIVE: seq<byte> := [0x0f, 0x1b, 0x0f, 0x17, 0x33, 0x2c, 0x29, 0x2e,
                                       0x30, 0x30, 0x39, 0x3f, 0x00, 0x07, 0x03, 0x10]

  /** Number of pixels one pre-built colour buffer holds in `_draw`. */
  const CHUNK := 32

  /** `clamp`: `max(lo, min(hi, v))`. */
  function Clamp(v: int, lo: int, hi: int): (r: int)
    ensures lo <= hi ==> lo <= r <= hi
    ensures lo <= v <= hi ==> r == v
    ensures v < lo ==> r == lo
    ensures lo <= hi < v ==> r == hi
    ensures hi < lo ==> r == lo
  {
    var m := if hi < v then hi else v;
    if lo < m then m else lo
  }

  /** `TFTColor`: pack 8-bit channels into RGB565, red in the top five bits. */
  function TFTColor(r: byte, g: byte, b: byte): (c: bv16)
    ensures c >> 11 == (r as bv16) >> 3
    ensures (c >> 5) & 0x3F == (g as bv16) >> 2
    ensures c & 0x1F == (b as bv16) >> 3
  {
    ((r as bv16 & 0xF8) << 8) | ((g as bv16 & 0xFC) << 3) | ((b as bv16) >> 3)
  }

  /** The two bytes a colour is sent as, high byte first, each truncated to a byte. */
  function ColorBytes(c: int): (bs: seq<byte>)
    ensures |bs| == 2
    ensures 0 <= c < 0x1_0000 ==> bs[0] as int * 256 + bs[1] as int == c
  {
    [StoreByte(c / 256), StoreByte(c)]
  }

  /** `n` copies of `s`, one after the other (`s * n` in Python; empty for `n <= 0`). */
  function Repeat<T>(s: seq<T>, n: int): (r: seq<T>)
    ensures n <= 0 ==> r == []
    decreases n
  {
    if n <= 0 then [] else Repeat(s, n - 1) + s
  }

  lemma {:induction false} RepeatLength<T>(s: seq<T>, n: nat)
    ensures |Repeat(s, n)| == n * |s|
  {
    if n > 0 {
      RepeatLength(s, n - 1);
      MulSucc(n - 1, |s|);
    }
  }

  /** The data bytes of a sequence of frames, in order. */
  function DataBytes(fs: seq<Frame>): seq<byte> {
    if fs == [] then []
    else DataBytes(fs[..|fs| - 1]) + (if fs[|fs| - 1].Data? then fs[|fs| - 1].bytes else [])
  }

  /** `_setwindowloc` with the panel origin `(ox, oy)`: column range, row range, then RAM write. */
  function WindowFrames(ox: byte, oy: byte, p0: (int, int), p1: (int, int)): seq<Frame> {
    [Cmd(CASET), Data([ox, StoreByte(ox + p0.0), ox, StoreByte(ox + p1.0)]),
     Cmd(RASET), Data([oy, StoreByte(oy + p0.1), oy, StoreByte(oy + p1.1)]),
     Cmd(RAMWR)]
  }

  /**
   * `_draw(n)` once `buf` holds the colour pattern: `n // 32` copies of `buf`,
   * then the last `n % 32` pixels built from `color`.
   */
  function DrawFrames(buf: seq<byte>, color: seq<byte>, n: int): seq<Frame> {
    Repeat([Data(buf)], n / CHUNK) + (if n % CHUNK > 0 then [Data(Repeat(color, n % CHUNK))] else [])
  }

  /** `_reset`: the reset line goes high, low and high again, each level held 500 microseconds. */
  function ResetFrames(): seq<Frame> {
    [ResetLine(true), Delay(500), ResetLine(false), Delay(500), ResetLine(true), Delay(500)]
  }

  /** Software reset and sleep-out, each followed by its settling delay. */
  function WakeFrames(): seq<Frame> {
    [Cmd(SWRESET), Delay(150), Cmd(SLPOUT), Delay(500)]
  }

  /** Frame-rate control: normal, idle and partial modes. */
  function FrameRateFrames(): seq<Frame> {
    [Cmd(FRMCTR1), Data([0x01, 0x2C, 0x2D]),
     Cmd(FRMCTR2), Data([0x01, 0x2C, 0x2D]),
     Cmd(FRMCTR3), Data([0x01, 0x2c, 0x2d, 0x01, 0x2c, 0x2d]), Delay(10)]
  }

  /** Line inversion and the first two power-control settings. */
  function InversionPowerFrames(): seq<Frame> {
    [Cmd(INVCTR), Data([0x07]),
     Cmd(PWCTR1), Data([0xA2, 0x02, 0x84]),
     Cmd(PWCTR2), Data([0xC5])]
  }

  /** Power control for the normal, idle and partial modes. */
  function ModePowerFrames(): seq<Frame> {
    [Cmd(PWCTR3), Data([0x0A, 0x00]),
     Cmd(PWCTR4), Data([0x8A, 0x2A]),
     Cmd(PWCTR5), Data([0x8A, 0xEE])]
  }

  /** VCOM, inversion off, memory-access control and 16-bit pixel format. */
  function PixelFormatFrames(): seq<Frame> {
    [Cmd(VMCTR1), Data([0x0E]),
     Cmd(INVOFF),
     Cmd(MADCTL), Data([0xC8]),
     Cmd(COLMOD), Data([0x05])]
  }

  function ConfigFrames(): seq<Frame> {
    FrameRateFrames() + InversionPowerFrames() + ModePowerFrames() + PixelFormatFrames()
  }

  /** The column and row ranges of the whole `w` by `h` panel. */
  function FullWindowFrames(w: int, h: int): seq<Frame> {
    [Cmd(CASET), Data([0, 0, 0, StoreByte(w - 1)]),
     Cmd(RASET), Data([0, 0, 0, StoreByte(h - 1)])]
  }

  function GammaFrames(): seq<Frame> {
    [Cmd(GMCTRP1), Data(GAMMA_POSITIVE), Cmd(GMCTRN1), Data(GAMMA_NEGATIVE), Delay(10)]
  }

  function DisplayOnFrames(): seq<Frame> {
    [Cmd(DISPON), Delay(100), Cmd(NORON), Delay(10)]
  }

  /** `initr` on a panel of `w` columns and `h` rows: the vendor sequence, delays included. */
  function InitFrames(w: int, h: int): (fs: seq<Frame>)
    ensures |fs| == 49
    ensures fs[..6] == ResetFrames()
    ensures fs[6] == Cmd(SWRESET) && fs[8] == Cmd(SLPOUT)
    ensures fs[|fs| - 4..] == [Cmd(DISPON), Delay(100), Cmd(NORON), Delay(10)]
    ensures fs[36..40] == [Cmd(CASET), Data([0, 0, 0, StoreByte(w - 1)]),
                           Cmd(RASET), Data([0, 0, 0, StoreByte(h - 1)])]
  {
    var a := ResetFrames() + WakeFrames();
    assert ConfigFrames() == FrameRateFrames() + InversionPowerFrames() + ModePowerFrames() + PixelFormatFrames();
    var b := a + FrameRateFrames() + InversionPowerFrames() + ModePowerFrames() + PixelFormatFrames();
    var c := b + FullWindowFrames(w, h);
    var d := c + GammaFrames();
    var fs := d + DisplayOnFrames();
    assert |a| == 10 && |b| == 36 && |c| == 40;
    assert fs[..6] == a[..6];
    assert fs[36..40] == c[36..40];
    fs
  }

  /**
   * After `_setColor(c)`, `_draw(n)` with `n >= 0` streams exactly `n` copies
   * of the colour's two bytes: `n // 32` chunks of 64 bytes and, when
   * `n % 32 > 0`, one last chunk of `2 * (n % 32)` bytes.
   */
  lemma {:induction false} DrawStreamsPixels(c: int, n: nat)
    ensures var fs := DrawFrames(Repeat(ColorBytes(c), CHUNK), ColorBytes(c), n);
            && |fs| == n / CHUNK + (if n % CHUNK > 0 then 1 else 0)
            && (forall i :: 0 <= i < n / CHUNK ==> fs[i] == Data(Repeat(ColorBytes(c), CHUNK)))
            && (n % CHUNK > 0 ==> |fs[|fs| - 1].bytes| == 2 * (n % CHUNK))
            && DataBytes(fs) == Repeat(ColorBytes(c), n)
  {
    var p := ColorBytes(c);
    var q := n / CHUNK;
    var full := Repeat([Data(Repeat(p, CHUNK))], q);
    RepeatLength([Data(Repeat(p, CHUNK))], q);
    RepeatAt([Data(Repeat(p, CHUNK))], q);
    DataBytesOfChunks(p, q);
    var fs := DrawFrames(Repeat(p, CHUNK), p, n);
    if n % CHUNK > 0 {
      var last := [Data(Repeat(p, n % CHUNK))];
      RepeatLength(p, n % CHUNK);
      assert fs == full + last;
      assert fs[..|fs| - 1] == full;
      RepeatAdd(p, q * CHUNK, n % CHUNK);
    } else {
      assert fs == full;
    }
  }

  /** Every element of `Repeat([x], n)` is `x`. */
  lemma {:induction false} RepeatAt<T>(s: seq<T>, n: nat)
    requires |s| == 1
    ensures forall i :: 0 <= i < |Repeat(s, n)| ==> Repeat(s, n)[i] == s[0]
    decreases n
  {
    if n > 0 {
      RepeatAt(s, n - 1);
    }
  }

  lemma {:induction false} RepeatAdd<T>(s: seq<T>, m: nat, n: nat)
    ensures Repeat(s, m) + Repeat(s, n) == Repeat(s, m + n)
    decreases n
  {
    if n > 0 {
      RepeatAdd(s, m, n - 1);
      assert Repeat(s, m) + Repeat(s, n) == (Repeat(s, m) + Repeat(s, n - 1)) + s;
    } else {
      assert Repeat(s, m) + [] == Repeat(s, m);
    }
  }

  /** `q` full chunks carry `32 * q` pixels. */
  lemma {:induction false} DataBytesOfChunks(p: seq<byte>, q: nat)
    ensures DataBytes(Repeat([Data(Repeat(p, CHUNK))], q)) == Repeat(p, q * CHUNK)
    decreases q
  {
    if q > 0 {
      var chunk := Data(Repeat(p, CHUNK));
      var init := Repeat([chunk], q - 1);
      var fs := init + [chunk];
      assert Repeat([chunk], q) == fs;
      assert fs[..|fs| - 1] == init && fs[|fs| - 1] == chunk;
      assert DataBytes(fs) == DataBytes(init) + Repeat(p, CHUNK);
      DataBytesOfChunks(p, q - 1);
      RepeatAdd(p, (q - 1) * CHUNK, CHUNK);
      assert (q - 1) * CHUNK + CHUNK == q * CHUNK;
    }
  }

  /** Appending `y` to a trace that grew by `x` since `t0` makes it grow by `x + y`. */
  lemma Extend(t0: seq<Frame>, t: seq<Frame>, x: seq<Frame>, y: seq<Frame>)
    requires t == t0 + x
    ensures t + y == t0 + (x + y)
  {
  }

  /** The driver object, its reused scratch buffers and the bus it has driven so far. */
  class TFT {
    const size: (int, int)
    /** `_offset`: the panel origin added to every window coordinate. */
    const offset: (byte, byte)
    var rotate: nat
    var rgb: bool
    var tfa: int
    var bfa: int
    /** `colorData`: the two-byte colour scratch buffer. */
    const colorData: array<byte>
    /** `windowLocData`: the four-byte window scratch buffer, reused across commands. */
    const windowLocData: array<byte>
    /** `buf`: the 32-pixel colour pattern, absent until `_setColor` first runs. */
    var buf: Option<seq<byte>>
    var trace: seq<Frame>

    ghost predicate Valid()
      reads this
    {
      colorData.Length == 2 && windowLocData.Length == 4 && rotate < |TFT_ROTATIONS|
    }

    constructor (size: (int, int) := (80, 160))
      ensures Valid() && fresh(colorData) && fresh(windowLocData)
      ensures this.size == size && offset == (0, 0) && rotate == 0 && rgb
      ensures buf.None? && trace == []
      ensures colorData[..] == [0, 0] && windowLocData[..] == [0, 0, 0, 0]
    {
      this.size := size;
      offset := (0, 0);
      rotate := 0;
      rgb := true;
      tfa := 0;
      bfa := 0;
      colorData := new byte[2](_ => 0);
      windowLocData := new byte[4](_ => 0);
      buf := None;
      trace := [];
    }

    /** `_writecommand`: one command frame of one byte. */
    method WriteCommand(command: byte)
      modifies this`trace
      ensures trace == old(trace) + [Cmd(command)]
    {
      trace := trace + [Cmd(command)];
    }

    /** `_writedata`: one data frame with the bytes unchanged. */
    method WriteData(data: seq<byte>)
      modifies this`trace
      ensures trace == old(trace) + [Data(data)]
    {
      trace := trace + [Data(data)];
    }

    /** `on`: display on or off. */
    method On(on: bool := true)
      modifies this`trace
      ensures trace == old(trace) + [Cmd(if on then DISPON else DISPOFF)]
    {
      WriteCommand(if on then DISPON else DISPOFF);
    }

    /** `invertcolor`. */
    method InvertColor(invert: bool)
      modifies this`trace
      ensures trace == old(trace) + [Cmd(if invert then INVON else INVOFF)]
    {
      WriteCommand(if invert then INVON else INVOFF);
    }

    /** `_setMADCTL`: the rotation byte, with the BGR bit set when `rgb` is off. */
    method SetMADCTL()
      requires Valid()
      modifies this`trace
      ensures trace == old(trace) + [Cmd(MADCTL), Data([MadctlByte(rotate, rgb)])]
    {
      WriteCommand(MADCTL);
      var order := if rgb then TFT_RGB else TFT_BGR;
      WriteData([(TFT_ROTATIONS[rotate] as bv8 | order as bv8) as byte]);
    }

    /** `rgb`: record the colour order and resend the memory-access control byte. */
    method Rgb(on: bool := true)
      requires Valid()
      modifies this`rgb, this`trace
      ensures Valid() && rgb == on
      ensures trace == old(trace) + [Cmd(MADCTL), Data([MadctlByte(rotate, on)])]
    {
      rgb := on;
      SetMADCTL();
    }

    /** `_setwindowloc`: the window from `p0` to `p1`, shifted by the panel origin. */
    method SetWindowLoc(p0: (int, int), p1: (int, int))
      requires Valid()
      modifies this`trace, windowLocData
      ensures trace == old(trace) + WindowFrames(offset.0, offset.1, p0, p1)
      ensures windowLocData[..] == [offset.1, StoreByte(offset.1 + p0.1), offset.1, StoreByte(offset.1 + p1.1)]
    {
      WriteCommand(CASET);
      FillWindowData(offset.0, StoreByte(offset.0 + p0.0), StoreByte(offset.0 + p1.0));
      WriteData(windowLocData[..]);
      WriteCommand(RASET);
      FillWindowData(offset.1, StoreByte(offset.1 + p0.1), StoreByte(offset.1 + p1.1));
      WriteData(windowLocData[..]);
      WriteCommand(RAMWR);
    }

    /** The four stores into `windowLocData` before one range is sent: origin, start, origin, end. */
    method FillWindowData(origin: byte, first: byte, last: byte)
      requires Valid()
      modifies windowLocData
      ensures windowLocData[..] == [origin, first, origin, last]
    {
      windowLocData[0] := origin;
      windowLocData[1] := first;
      windowLocData[2] := origin;
      windowLocData[3] := last;
    }

    /** `_setwindowpoint`: the same frames as a window from `p` to `p`. */
    method SetWindowPoint(p: (int, int))
      requires Valid()
      modifies this`trace, windowLocData
      ensures trace == old(trace) + WindowFrames(offset.0, offset.1, p, p)
      ensures windowLocData[..] == [offset.1, StoreByte(offset.1 + p.1), offset.1, StoreByte(offset.1 + p.1)]
    {
      var x := offset.0 + p.0;
      var y := offset.1 + p.1;
      WriteCommand(CASET);
      FillWindowData(offset.0, StoreByte(x), StoreByte(x));
      WriteData(windowLocData[..]);
      WriteCommand(RASET);
      FillWindowData(offset.1, StoreByte(y), StoreByte(y));
      WriteData(windowLocData[..]);
      WriteCommand(RAMWR);
    }

    /** `image`: set the window, then one data frame with the whole buffer. */
    method Image(x0: int, y0: int, x1: int, y1: int, data: seq<byte>)
      requires Valid()
      modifies this`trace, windowLocData
      ensures trace == old(trace) + WindowFrames(offset.0, offset.1, (x0, y0), (x1, y1)) + [Data(data)]
    {
      SetWindowLoc((x0, y0), (x1, y1));
      WriteData(data);
    }

    /**
     * `_vscrolladdr`: the scroll start address goes out high byte first,
     * each byte truncated as MicroPython's `bytearray` stores it.
     */
    method VScrollAddr(addr: int)
      modifies this`trace
      ensures trace == old(trace) + [Cmd(VSCSAD), Data([StoreByte(addr / 256), StoreByte(addr)])]
      ensures 0 <= addr < 0x1_0000 ==> trace[|trace| - 1].bytes == ColorBytes(addr)
    {
      WriteCommand(VSCSAD);
      WriteData([StoreByte(addr / 256), StoreByte(addr)]);
    }

    /** `_setColor`: the colour's two bytes, and 32 copies of them as the chunk pattern. */
    method SetColor(color: int)
      requires Valid()
      modifies colorData, this`buf
      ensures colorData[..] == ColorBytes(color)
      ensures buf == Some(Repeat(ColorBytes(color), CHUNK))
    {
      colorData[0] := StoreByte(color / 256);
      colorData[1] := StoreByte(color);
      buf := Some(Repeat(colorData[..], CHUNK));
    }

    /**
     * `_draw`: `n // 32` writes of the chunk pattern, then the remaining
     * `n % 32` pixels from the current colour bytes. Before any `_setColor`
     * there is no pattern: the first full chunk raises.
     */
    method Draw(pixels: int) returns (r: Result<()>)
      requires Valid()
      modifies this`trace
      ensures buf.None? && pixels / CHUNK > 0 <==> r.Err?
      ensures r.Err? ==> trace == old(trace)
      ensures r.Ok? && buf.Some? ==> trace == old(trace) + DrawFrames(buf.value, colorData[..], pixels)
      ensures r.Ok? && buf.None? ==> trace == old(trace) + DrawFrames([], colorData[..], pixels)
    {
      var i := 0;
      while i < pixels / CHUNK
        invariant 0 <= i <= if pixels / CHUNK > 0 then pixels / CHUNK else 0
        invariant buf.Some? ==> trace == old(trace) + Repeat([Data(buf.value)], i)
        invariant buf.None? ==> i == 0 && trace == old(trace)
      {
        if buf.None? {
          return Err("AttributeError: buf");
        }
        trace := trace + [Data(buf.value)];
        i := i + 1;
      }
      assert buf.Some? ==> trace == old(trace) + Repeat([Data(buf.value)], pixels / CHUNK);
      var rest := pixels % CHUNK;
      if rest > 0 {
        trace := trace + [Data(Repeat(colorData[..], rest))];
      }
      r := Ok(());
    }

    /** `_pushcolor`: the colour's two bytes in one data frame. */
    method PushColor(color: int)
      requires Valid()
      modifies colorData, this`trace
      ensures colorData[..] == ColorBytes(color)
      ensures trace == old(trace) + [Data(ColorBytes(color))]
    {
      colorData[0] := StoreByte(color / 256);
      colorData[1] := StoreByte(color);
      WriteData(colorData[..]);
    }

    /** `_reset`. */
    method Reset()
      modifies this`trace
      ensures trace == old(trace) + ResetFrames()
    {
      trace := trace + [ResetLine(true), Delay(500)];
      trace := trace + [ResetLine(false), Delay(500)];
      trace := trace + [ResetLine(true), Delay(500)];
    }

    /**
     * `initr`. The row range is sent from the window buffer after only its last
     * byte was rewritten, so its first three bytes are the column range's zeros.
     */
    method InitR()
      requires Valid()
      modifies this`trace, windowLocData
      ensures trace == old(trace) + InitFrames(size.0, size.1)
      ensures windowLocData[..] == [0, 0, 0, StoreByte(size.1 - 1)]
    {
      ghost var t0 := trace;
      Reset();
      ghost var before, sent := trace, ResetFrames();
      SendWake();
      Extend(t0, before, sent, WakeFrames());
      before, sent := trace, sent + WakeFrames();
      SendFrameRate();
      Extend(t0, before, sent, FrameRateFrames());
      before, sent := trace, sent + FrameRateFrames();
      SendInversionPower();
      Extend(t0, before, sent, InversionPowerFrames());
      before, sent := trace, sent + InversionPowerFrames();
      SendModePower();
      Extend(t0, before, sent, ModePowerFrames());
      before, sent := trace, sent + ModePowerFrames();
      SendPixelFormat();
      Extend(t0, before, sent, PixelFormatFrames());
      before, sent := trace, sent + PixelFormatFrames();
      SendFullWindow();
      Extend(t0, before, sent, FullWindowFrames(size.0, size.1));
      before, sent := trace, sent + FullWindowFrames(size.0, size.1);
      SendGamma();
      Extend(t0, before, sent, GammaFrames());
      before, sent := trace, sent + GammaFrames();
      SendDisplayOn();
      Extend(t0, before, sent, DisplayOnFrames());
      assert sent + DisplayOnFrames() == InitFrames(size.0, size.1);
    }

    /*
     * The sections of `initr`, in the order it issues them. The source reuses
     * three scratch buffers (`data1`, `data2`, `data3`) across sections, but
     * rewrites every byte of one before each send, so here they are plain byte
     * sequences.
     */

    method SendWake()
      modifies this`trace
      ensures trace == old(trace) + WakeFrames()
    {
      WriteCommand(SWRESET);
      trace := trace + [Delay(150)];
      WriteCommand(SLPOUT);
      trace := trace + [Delay(500)];
    }

    method SendFrameRate()
      modifies this`trace
      ensures trace == old(trace) + FrameRateFrames()
    {
      var data3: seq<byte> := [0x01, 0x2C, 0x2D];
      WriteCommand(FRMCTR1);
      WriteData(data3);
      WriteCommand(FRMCTR2);
      WriteData(data3);
      WriteCommand(FRMCTR3);
      WriteData([0x01, 0x2c, 0x2d, 0x01, 0x2c, 0x2d]);
      trace := trace + [Delay(10)];
    }

    method SendInversionPower()
      modifies this`trace
      ensures trace == old(trace) + InversionPowerFrames()
    {
      WriteCommand(INVCTR);
      WriteData([0x07]);
      WriteCommand(PWCTR1);
      WriteData([0xA2, 0x02, 0x84]);
      WriteCommand(PWCTR2);
      WriteData([0xC5]);
    }

    method SendModePower()
      modifies this`trace
      ensures trace == old(trace) + ModePowerFrames()
    {
      WriteCommand(PWCTR3);
      WriteData([0x0A, 0x00]);
      WriteCommand(PWCTR4);
      WriteData([0x8A, 0x2A]);
      WriteCommand(PWCTR5);
      WriteData([0x8A, 0xEE]);
    }

    method SendPixelFormat()
      modifies this`trace
      ensures trace == old(trace) + PixelFormatFrames()
    {
      WriteCommand(VMCTR1);
      WriteData([0x0E]);
      WriteCommand(INVOFF);
      WriteCommand(MADCTL);
      WriteData([0xC8]);
      WriteCommand(COLMOD);
      WriteData([0x05]);
    }

    method SendGamma()
      modifies this`trace
      ensures trace == old(trace) + GammaFrames()
    {
      WriteCommand(GMCTRP1);
      WriteData(GAMMA_POSITIVE);
      WriteCommand(GMCTRN1);
      WriteData(GAMMA_NEGATIVE);
      trace := trace + [Delay(10)];
    }

    method SendDisplayOn()
      modifies this`trace
      ensures trace == old(trace) + DisplayOnFrames()
    {
      WriteCommand(DISPON);
      trace := trace + [Delay(100)];
      WriteCommand(NORON);
      trace := trace + [Delay(10)];
    }

    /**
     * The full-panel window of `initr`: the column range fills the window
     * buffer, and the row range rewrites only its last byte.
     */
    method SendFullWindow()
      requires Valid()
      modifies this`trace, windowLocData
      ensures trace == old(trace) + FullWindowFrames(size.0, size.1)
      ensures windowLocData[..] == [0, 0, 0, StoreByte(size.1 - 1)]
    {
      WriteCommand(CASET);
      windowLocData[0] := 0x00;
      windowLocData[1] := 0x00;
      windowLocData[2] := 0x00;
      windowLocData[3] := StoreByte(size.0 - 1);
      assert windowLocData[..] == [0, 0, 0, StoreByte(size.0 - 1)];
      WriteData(windowLocData[..]);

      WriteCommand(RASET);
      windowLocData[3] := StoreByte(size.1 - 1);
      assert windowLocData[..] == [0, 0, 0, StoreByte(size.1 - 1)];
      WriteData(windowLocData[..]);
    }
  }

  /** The memory-access control byte: rotation bits, plus 0x08 for BGR order. */
  function MadctlByte(rotate: nat, rgb: bool): (b: byte)
    requires rotate < |TFT_ROTATIONS|
    ensures b == TFT_ROTATIONS[rotate] + (if rgb then 0 else 8)
  {
    (TFT_ROTATIONS[rotate] as bv8 | (if rgb then TFT_RGB else TFT_BGR) as bv8) as byte
  }
}
