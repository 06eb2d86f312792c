/**
 * The NeoPixel seven-segment displays of `workSpace/led_display.py`. A digit
 * is seven segments of three pixels each; a colour rule says which colours a
 * lit segment gets; a screen group shows a string left-padded with zeros on
 * several digits of one strip. The strip is an array of RGB triples and the
 * list of snapshots `write()` has sent.
 */
module LedDisplay {
  import opened Wrappers

  type Rgb = (int, int, int)

  /** The three colours of one segment's sub-elements. */
  type Triple = (Rgb, Rgb, Rgb)

  const COLOR_BLACK: Rgb := (0, 0, 0)
  const DARK: Triple := (COLOR_BLACK, COLOR_BLACK, COLOR_BLACK)

  /** `_SegTable`: segment `i` (0 = a .. 6 = g) is lit when bit `0x80 >> i` is set. */
  const SEG_TABLE: map<char, byte> :=
    map['0' := 0xFC, '1' := 0x60, '2' := 0xDA, '3' := 0xF2, '4' := 0x66,
        '5' := 0xB6, '6' := 0xBE, '7' := 0xE0, '8' := 0xFE, '9' := 0xF6, ' ' := 0x00]

  /** The sub-element `j` (0, 1 or 2) of a triple. */
  function Pick(t: Triple, j: nat): Rgb
    requires j < 3
  {
    if j == 0 then t.0 else if j == 1 then t.1 else t.2
  }

  /** A NeoPixel strip: the colour buffer and every buffer `write()` has sent, in order. */
  class NeoPixel {
    const pixels: array<Rgb>
    var sent: seq<seq<Rgb>>

    constructor (n: nat)
      ensures pixels.Length == n && fresh(pixels)
      ensures pixels[..] == seq(n, _ => COLOR_BLACK)
      ensures sent == []
    {
      pixels := new Rgb[n](_ => COLOR_BLACK);
      sent := [];
    }

    method Write()
      modifies this
      ensures sent == old(sent) + [pixels[..]]
    {
      sent := sent + [pixels[..]];
    }
  }

  /** One segment: three pixel indices on a strip. */
  class Seg {
    const np: NeoPixel
    const a: nat
    const b: nat
    const c: nat

    constructor (np: NeoPixel, a: nat, b: nat, c: nat)
      ensures this.np == np && this.a == a && this.b == b && this.c == c
    {
      this.np := np;
      this.a := a;
      this.b := b;
      this.c := c;
    }

    /** `color`: the three sub-elements get `ca`, `cb` and `cc`, in that order. */
    method Color(ca: Rgb, cb: Rgb, cc: Rgb)
      requires a < np.pixels.Length && b < np.pixels.Length && c < np.pixels.Length
      modifies np.pixels
      ensures np.pixels[..] == old(np.pixels[..])[a := ca][b := cb][c := cc]
    {
      np.pixels[a] := ca;
      np.pixels[b] := cb;
      np.pixels[c] := cc;
    }
  }

  class FixedColorRule {
    var ca: Rgb
    var cb: Rgb
    var cc: Rgb

    constructor ()
      ensures ca == (1, 1, 1) && cb == (1, 1, 1) && cc == (1, 1, 1)
    {
      ca, cb, cc := (1, 1, 1), (1, 1, 1), (1, 1, 1);
    }

    method SetColor(ca: Rgb, cb: Rgb, cc: Rgb)
      modifies this
      ensures this.ca == ca && this.cb == cb && this.cc == cc
    {
      this.ca, this.cb, this.cc := ca, cb, cc;
    }

    /** `get_color`: the same three colours whatever the segment. */
    function GetColor(index: int): (t: Triple)
      reads this
      ensures t == (ca, cb, cc)
    {
      (ca, cb, cc)
    }
  }

  /**
   * The palette positions `YGradientColorRule.get_color` reads for a segment:
   * a fixed table for segments 0..6, position 0 three times otherwise.
   */
  function PaletteIndexes(index: int): (p: (nat, nat, nat))
    ensures p.0 < 9 && p.1 < 9 && p.2 < 9
    ensures (index < 0 || 6 < index) ==> p == (0, 0, 0)
  {
    if index == 0 then (0, 0, 0)
    else if index == 1 then (1, 2, 3)
    else if index == 2 then (5, 6, 7)
    else if index == 3 then (8, 8, 8)
    else if index == 4 then (7, 6, 5)
    else if index == 5 then (3, 2, 1)
    else if index == 6 then (4, 4, 4)
    else (0, 0, 0)
  }

  /** `gradient.append(gradient.pop(0))`: the first entry moves to the end. */
  function Rotate<T>(s: seq<T>): (r: seq<T>)
    ensures |r| == |s|
    ensures s != [] ==> r[|s| - 1] == s[0] && r[..|s| - 1] == s[1..]
  {
    if s == [] then [] else s[1..] + [s[0]]
  }

  /** A roll keeps every colour of the gradient, as many times as before. */
  lemma RotatePermutes<T>(s: seq<T>)
    ensures multiset(Rotate(s)) == multiset(s)
  {
    if s != [] {
      assert s == [s[0]] + s[1..];
    }
  }

  /** `k` rotations in a row. */
  function RotateTimes<T>(s: seq<T>, k: nat): seq<T> {
    if k == 0 then s else Rotate(RotateTimes(s, k - 1))
  }

  /** `k <= |s|` rotations move the first `k` entries to the end, in order. */
  lemma {:induction false} RotateTimesSplit<T>(s: seq<T>, k: nat)
    requires k <= |s|
    ensures RotateTimes(s, k) == s[k..] + s[..k]
  {
    if k == 0 {
      assert s[0..] == s && s[..0] == [];
    } else {
      RotateTimesSplit(s, k - 1);
      var before := RotateTimes(s, k - 1);
      assert RotateTimes(s, k) == Rotate(before);
      RotateSplitStep(s, k);
    }
  }

  lemma RotateSplitStep<T>(s: seq<T>, k: nat)
    requires 0 < k <= |s|
    ensures Rotate(s[k - 1..] + s[..k - 1]) == s[k..] + s[..k]
  {
    var r := s[k - 1..] + s[..k - 1];
    assert r[0] == s[k - 1];
    assert r[1..] == s[k..] + s[..k - 1];
    assert s[..k] == s[..k - 1] + [s[k - 1]];
  }

  /** As many rolls as the palette has entries give the palette back. */
  lemma FullTurn<T>(s: seq<T>)
    ensures RotateTimes(s, |s|) == s
  {
    RotateTimesSplit(s, |s|);
  }

  class YGradientColorRule {
    var gradient: seq<Rgb>

    predicate Valid()
      reads this
    {
      |gradient| == 9
    }

    constructor ()
      ensures Valid()
      ensures gradient == seq(9, _ => (1, 1, 1))
    {
      gradient := seq(9, _ => (1, 1, 1));
    }

    /** `get_color`: the palette entries the table names for the segment. */
    function GetColor(index: int): (t: Triple)
      requires Valid()
      reads this
      ensures var p := PaletteIndexes(index); t == (gradient[p.0], gradient[p.1], gradient[p.2])
      ensures (index < 0 || 6 < index) ==> t == (gradient[0], gradient[0], gradient[0])
    {
      var p := PaletteIndexes(index);
      (gradient[p.0], gradient[p.1], gradient[p.2])
    }

    /** `roll`: rotate the palette left by one. */
    method Roll()
      requires Valid()
      modifies this
      ensures Valid()
      ensures gradient == Rotate(old(gradient))
    {
      gradient := gradient[1..] + [gradient[0]];
    }
  }

  /** A reference to one of the two colour-rule objects; several screens may share one. */
  datatype ColorRule = FixedRule(fixed: FixedColorRule) | GradientRule(gradient: YGradientColorRule) {
    function Objects(): set<object> {
      if FixedRule? then {fixed} else {gradient}
    }

    predicate Valid()
      reads Objects()
    {
      GradientRule? ==> gradient.Valid()
    }

    function GetColor(index: int): Triple
      requires Valid()
      reads Objects()
    {
      match this
      case FixedRule(f) => f.GetColor(index)
      case GradientRule(g) => g.GetColor(index)
    }

    /** The triples of segments 0..6. */
    function Colors(): (cs: seq<Triple>)
      requires Valid()
      reads Objects()
      ensures |cs| == 7
      ensures forall i :: 0 <= i < 7 ==> cs[i] == GetColor(i)
    {
      seq(7, i requires 0 <= i < 7 && Valid() reads Objects() => GetColor(i))
    }
  }

  /**
   * The colours a screen gives its seven segments: the stored triple for
   * every segment under a fixed rule, and under a gradient the palette
   * entries `PaletteIndexes` names for that segment.
   */
  lemma SegmentColors(rule: ColorRule, i: nat)
    requires rule.Valid() && i < 7
    ensures |rule.Colors()| == 7
    ensures rule.FixedRule? ==> rule.Colors()[i] == (rule.fixed.ca, rule.fixed.cb, rule.fixed.cc)
    ensures rule.GradientRule? ==> var g, p := rule.gradient.gradient, PaletteIndexes(i);
      rule.Colors()[i] == (g[p.0], g[p.1], g[p.2])
  {
  }

  /** The colours of segment `i` under `code`: the rule's triple when lit, black otherwise. */
  function SegmentColor(code: byte, colors: seq<Triple>, i: nat): Triple
    requires i < 7 && |colors| == 7
  {
    if BitSet(code, i) then colors[i] else DARK
  }

  /** The strip after the first `n` segments of a digit at `offset` were coloured, in order. */
  function PaintSegments(px: seq<Rgb>, offset: nat, code: byte, colors: seq<Triple>, n: nat): (r: seq<Rgb>)
    requires n <= 7 && |colors| == 7 && offset + 21 <= |px|
    ensures |r| == |px|
  {
    if n == 0 then px
    else
      var t := SegmentColor(code, colors, n - 1);
      var o := offset + 3 * (n - 1);
      PaintSegments(px, offset, code, colors, n - 1)[o := t.0][o + 1 := t.1][o + 2 := t.2]
  }

  /** Pixel `k` after `n` segments: its segment's colour inside the painted part, unchanged elsewhere. */
  lemma {:induction false} PaintSegmentsAt(px: seq<Rgb>, offset: nat, code: byte, colors: seq<Triple>, n: nat, k: nat)
    requires n <= 7 && |colors| == 7 && offset + 21 <= |px| && k < |px|
    ensures PaintSegments(px, offset, code, colors, n)[k]
         == if offset <= k < offset + 3 * n then Pick(SegmentColor(code, colors, (k - offset) / 3), (k - offset) % 3)
            else px[k]
  {
    if n > 0 {
      PaintSegmentsAt(px, offset, code, colors, n - 1, k);
      if offset + 3 * (n - 1) <= k < offset + 3 * n {
        assert (k - offset) / 3 == n - 1;
      }
    }
  }

  /** What `SegScreen.show(c)` leaves on the strip: a character outside the table changes nothing. */
  function ShowDigit(px: seq<Rgb>, offset: nat, c: char, colors: seq<Triple>): (r: seq<Rgb>)
    requires |colors| == 7 && offset + 21 <= |px|
    ensures |r| == |px|
  {
    if c in SEG_TABLE then PaintSegments(px, offset, SEG_TABLE[c], colors, 7) else px
  }

  /**
   * A digit at `offset` touches only pixels `offset .. offset + 20`; pixel
   * `offset + 3i + j` takes sub-element `j` of segment `i`'s colours, and a
   * character outside the table leaves the strip as it was.
   */
  lemma ShowDigitAt(px: seq<Rgb>, offset: nat, c: char, colors: seq<Triple>)
    requires |colors| == 7 && offset + 21 <= |px|
    ensures c !in SEG_TABLE ==> ShowDigit(px, offset, c, colors) == px
    ensures forall k :: 0 <= k < |px| && !(offset <= k < offset + 21) ==> ShowDigit(px, offset, c, colors)[k] == px[k]
    ensures c in SEG_TABLE ==> forall i, j :: 0 <= i < 7 && 0 <= j < 3 ==>
      ShowDigit(px, offset, c, colors)[offset + 3 * i + j] == Pick(SegmentColor(SEG_TABLE[c], colors, i), j)
  {
    if c in SEG_TABLE {
      var code := SEG_TABLE[c];
      forall k | 0 <= k < |px| && !(offset <= k < offset + 21)
        ensures ShowDigit(px, offset, c, colors)[k] == px[k]
      {
        PaintSegmentsAt(px, offset, code, colors, 7, k);
      }
      forall i, j | 0 <= i < 7 && 0 <= j < 3
        ensures ShowDigit(px, offset, c, colors)[offset + 3 * i + j] == Pick(SegmentColor(code, colors, i), j)
      {
        PaintSegmentsAt(px, offset, code, colors, 7, offset + 3 * i + j);
        assert (3 * i + j) / 3 == i && (3 * i + j) % 3 == j;
      }
    }
  }

  class SegScreen {
    const np: NeoPixel
    const offset: nat
    const segs: seq<Seg>
    var colorRule: ColorRule

    /** Segment `i` is the pixels `offset + 3i`, `offset + 3i + 1`, `offset + 3i + 2` of `np`. */
    predicate Valid() {
      offset + 21 <= np.pixels.Length &&
      |segs| == 7 &&
      forall i :: 0 <= i < 7 ==>
        segs[i].np == np && segs[i].a == offset + 3 * i && segs[i].b == offset + 3 * i + 1 && segs[i].c == offset + 3 * i + 2
    }

    constructor (np: NeoPixel, offset: nat, rule: ColorRule)
      requires offset + 21 <= np.pixels.Length
      ensures Valid()
      ensures this.np == np && this.offset == offset && colorRule == rule
    {
      var s0 := new Seg(np, offset, offset + 1, offset + 2);
      var s1 := new Seg(np, offset + 3, offset + 4, offset + 5);
      var s2 := new Seg(np, offset + 6, offset + 7, offset + 8);
      var s3 := new Seg(np, offset + 9, offset + 10, offset + 11);
      var s4 := new Seg(np, offset + 12, offset + 13, offset + 14);
      var s5 := new Seg(np, offset + 15, offset + 16, offset + 17);
      var s6 := new Seg(np, offset + 18, offset + 19, offset + 20);
      this.np := np;
      this.offset := offset;
      segs := [s0, s1, s2, s3, s4, s5, s6];
      colorRule := rule;
    }

    method SetColorRule(rule: ColorRule)
      modifies this
      ensures colorRule == rule
    {
      colorRule := rule;
    }

    /** `show(c)`: colour the seven segments of `c`, or do nothing when `c` is not in the table. */
    method Show(c: char)
      requires Valid() && colorRule.Valid()
      modifies np.pixels
      ensures np.pixels[..] == ShowDigit(old(np.pixels[..]), offset, c, colorRule.Colors())
    {
      if c !in SEG_TABLE {
        return;
      }
      var code := SEG_TABLE[c];
      ghost var px := np.pixels[..];
      ghost var colors := colorRule.Colors();
      for i := 0 to 7
        invariant np.pixels[..] == PaintSegments(px, offset, code, colors, i)
      {
        PaintOne(code, i, px, colors);
      }
      assert colors == colorRule.Colors();
    }

    /** One pass of the loop of `show`: segment `i` gets the rule's colour when its bit is set, black otherwise. */
    method PaintOne(code: byte, i: nat, ghost px: seq<Rgb>, ghost colors: seq<Triple>)
      requires Valid() && colorRule.Valid() && i < 7 && |px| == np.pixels.Length
      requires colors == colorRule.Colors()
      requires np.pixels[..] == PaintSegments(px, offset, code, colors, i)
      modifies np.pixels
      ensures np.pixels[..] == PaintSegments(px, offset, code, colors, i + 1)
    {
      var color := if BitSet(code, i) then colorRule.GetColor(i) else DARK;
      assert color == SegmentColor(code, colors, i);
      segs[i].Color(color.0, color.1, color.2);
    }
  }

  /** The two-segment colour indicator. */
  class ColorSegScreen {
    const np: NeoPixel
    const offset: nat
    const segs: seq<Seg>
    var colorRule: ColorRule

    predicate Valid() {
      offset + 6 <= np.pixels.Length &&
      |segs| == 2 &&
      forall i :: 0 <= i < 2 ==>
        segs[i].np == np && segs[i].a == offset + 3 * i && segs[i].b == offset + 3 * i + 1 && segs[i].c == offset + 3 * i + 2
    }

    constructor (np: NeoPixel, offset: nat, rule: ColorRule)
      requires offset + 6 <= np.pixels.Length
      ensures Valid()
      ensures this.np == np && this.offset == offset && colorRule == rule
    {
      var s0 := new Seg(np, offset, offset + 1, offset + 2);
      var s1 := new Seg(np, offset + 3, offset + 4, offset + 5);
      this.np := np;
      this.offset := offset;
      segs := [s0, s1];
      colorRule := rule;
    }

    method SetColorRule(rule: ColorRule)
      modifies this
      ensures colorRule == rule
    {
      colorRule := rule;
    }

    /** `show`: segments 0 and 1 take the rule's colours for 0 and 1; one `write()`. */
    method Show()
      requires Valid() && colorRule.Valid()
      modifies np, np.pixels
      ensures var c0, c1 := colorRule.GetColor(0), colorRule.GetColor(1);
        np.pixels[..] == old(np.pixels[..])[offset := c0.0][offset + 1 := c0.1][offset + 2 := c0.2]
                                          [offset + 3 := c1.0][offset + 4 := c1.1][offset + 5 := c1.2]
      ensures np.sent == old(np.sent) + [np.pixels[..]]
    {
      var color := colorRule.GetColor(0);
      segs[0].Color(color.0, color.1, color.2);
      color := colorRule.GetColor(1);
      segs[1].Color(color.0, color.1, color.2);
      np.Write();
    }

    /** `hide`: both segments black; one `write()`. */
    method Hide()
      requires Valid()
      modifies np, np.pixels
      ensures np.pixels[..] == old(np.pixels[..])[offset := COLOR_BLACK][offset + 1 := COLOR_BLACK][offset + 2 := COLOR_BLACK]
                                                [offset + 3 := COLOR_BLACK][offset + 4 := COLOR_BLACK][offset + 5 := COLOR_BLACK]
      ensures np.sent == old(np.sent) + [np.pixels[..]]
    {
      segs[0].Color(COLOR_BLACK, COLOR_BLACK, COLOR_BLACK);
      segs[1].Color(COLOR_BLACK, COLOR_BLACK, COLOR_BLACK);
      np.Write();
    }
  }

  /** `'0' * n`. */
  function Zeros(n: nat): (z: string)
    ensures |z| == n && forall k :: 0 <= k < n ==> z[k] == '0'
  {
    seq(n, _ => '0')
  }

  /**
   * The characters `ScreenGroup.show(s)` gives its `width` screens: the last
   * `width` characters of `'0' * width + s`, with `None` read as `''`.
   */
  function Shown(s: Option<string>, width: nat): (t: string)
    ensures |t| == width
    ensures var text := if s.Some? then s.value else "";
      if |text| >= width then t == text[|text| - width..]
      else t == Zeros(width - |text|) + text
  {
    var text := if s.Some? then s.value else "";
    var padded := Zeros(width) + text;
    var t := padded[|padded| - width..];
    assert |text| >= width ==> t == text[|text| - width..];
    assert |text| < width ==> t == Zeros(width - |text|) + text;
    t
  }

  /** One digit of a group: where it sits, what it shows and its rule's colours. */
  datatype DigitShow = DigitShow(offset: nat, c: char, colors: seq<Triple>)

  /** Every digit has seven colour triples and lies on a strip of `n` pixels. */
  predicate Fits(n: nat, ds: seq<DigitShow>) {
    forall i :: 0 <= i < |ds| ==> |ds[i].colors| == 7 && ds[i].offset + 21 <= n
  }

  /** Digits whose 21 pixels do not overlap. */
  predicate Disjoint(ds: seq<DigitShow>) {
    forall i, j :: 0 <= i < |ds| && 0 <= j < |ds| && i != j ==>
      ds[i].offset + 21 <= ds[j].offset || ds[j].offset + 21 <= ds[i].offset
  }

  /** The strip after the digits were shown in order. */
  function ShowAll(px: seq<Rgb>, ds: seq<DigitShow>): (r: seq<Rgb>)
    requires Fits(|px|, ds)
    ensures |r| == |px|
  {
    if ds == [] then px
    else
      var last := ds[|ds| - 1];
      var before := ShowAll(px, ds[..|ds| - 1]);
      ShowDigit(before, last.offset, last.c, last.colors)
  }

  /**
   * With disjoint digits, each digit's pixels end up as that digit alone
   * would leave them, and pixels outside every digit are unchanged.
   */
  lemma {:induction false} ShowAllAt(px: seq<Rgb>, ds: seq<DigitShow>, k: nat)
    requires Fits(|px|, ds) && Disjoint(ds) && k < |px|
    ensures (forall i :: 0 <= i < |ds| ==> !(ds[i].offset <= k < ds[i].offset + 21)) ==> ShowAll(px, ds)[k] == px[k]
    ensures forall i :: 0 <= i < |ds| && ds[i].offset <= k < ds[i].offset + 21 ==>
      ShowAll(px, ds)[k] == ShowDigit(px, ds[i].offset, ds[i].c, ds[i].colors)[k]
  {
    if ds != [] {
      var init := ds[..|ds| - 1];
      var last := ds[|ds| - 1];
      var before := ShowAll(px, init);
      forall i | 0 <= i < |init|
        ensures init[i] == ds[i]
      {
      }
      assert Fits(|px|, init) && Disjoint(init);
      ShowAllAt(px, init, k);
      ShowDigitAt(before, last.offset, last.c, last.colors);
      if last.offset <= k < last.offset + 21 {
        forall i | 0 <= i < |init|
          ensures !(init[i].offset <= k < init[i].offset + 21)
        {
          assert ds[i] == init[i];
        }
        assert before[k] == px[k];
        if last.c in SEG_TABLE {
          PaintSegmentsAt(before, last.offset, SEG_TABLE[last.c], last.colors, 7, k);
          PaintSegmentsAt(px, last.offset, SEG_TABLE[last.c], last.colors, 7, k);
        }
      }
    }
  }

  lemma ShowAllSnoc(px: seq<Rgb>, ds: seq<DigitShow>, i: nat)
    requires Fits(|px|, ds) && i < |ds|
    ensures Fits(|px|, ds[..i]) && Fits(|px|, ds[..i + 1])
    ensures ShowAll(px, ds[..i + 1]) == ShowDigit(ShowAll(px, ds[..i]), ds[i].offset, ds[i].c, ds[i].colors)
  {
    var d := ds[..i + 1];
    assert Fits(|px|, d) && Fits(|px|, ds[..i]) by {
      forall j | 0 <= j < |d| ensures |d[j].colors| == 7 && d[j].offset + 21 <= |px| {
        assert d[j] == ds[j];
      }
    }
    assert d[..|d| - 1] == ds[..i] && d[|d| - 1] == ds[i];
  }

  class ScreenGroup {
    const np: NeoPixel
    const screens: seq<SegScreen>

    /** Every screen is a valid digit on `np`, and no two share a pixel. */
    predicate Valid() {
      (forall i :: 0 <= i < |screens| ==> screens[i].np == np && screens[i].Valid()) &&
      forall i, j :: 0 <= i < |screens| && 0 <= j < |screens| && i != j ==>
        screens[i].offset + 21 <= screens[j].offset || screens[j].offset + 21 <= screens[i].offset
    }

    /** The objects the colours of the screens' rules are read from. */
    function RuleObjects(): set<object>
      reads screens
    {
      set i, o | 0 <= i < |screens| && o in screens[i].colorRule.Objects() :: o
    }

    predicate RulesValid()
      reads screens, RuleObjects()
    {
      forall i :: 0 <= i < |screens| ==> screens[i].colorRule.Valid()
    }

    /** Screens `i` onwards are still to show `ds`: their rules are valid and give the colours recorded there. */
    ghost predicate Pending(t: string, ds: seq<DigitShow>, i: nat)
      reads screens, RuleObjects()
    {
      RulesValid() && |ds| == |t| == |screens| &&
      forall j :: i <= j < |screens| ==> ds[j] == DigitShow(screens[j].offset, t[j], screens[j].colorRule.Colors())
    }

    lemma PendingNext(t: string, ds: seq<DigitShow>, i: nat)
      requires Pending(t, ds, i)
      ensures Pending(t, ds, i + 1)
    {
    }

    constructor (np: NeoPixel, screens: seq<SegScreen>)
      ensures this.np == np && this.screens == screens
    {
      this.np := np;
      this.screens := screens;
    }

    /** What the screens are asked to show for `text`, one character each. */
    function Digits(text: string): (ds: seq<DigitShow>)
      requires Valid() && RulesValid() && |text| == |screens|
      reads screens, RuleObjects()
      ensures |ds| == |screens|
      ensures forall i :: 0 <= i < |screens| ==>
        ds[i] == DigitShow(screens[i].offset, text[i], screens[i].colorRule.Colors())
      ensures Fits(np.pixels.Length, ds) && Disjoint(ds)
    {
      seq(|screens|, i requires 0 <= i < |screens| && screens[i].colorRule.Valid() reads screens, RuleObjects() =>
        DigitShow(screens[i].offset, text[i], screens[i].colorRule.Colors()))
    }

    /**
     * `show(s)`: screen `k` shows character `k` of `Shown(s, width)`; then
     * the strip is written twice.
     */
    method Show(s: Option<string>)
      requires Valid() && RulesValid()
      modifies np, np.pixels
      ensures np.pixels[..] == ShowAll(old(np.pixels[..]), old(Digits(Shown(s, |screens|))))
      ensures np.sent == old(np.sent) + [np.pixels[..], np.pixels[..]]
    {
      var t := Shown(s, |screens|);
      ShowEach(t);
      ghost var shown := np.pixels[..];
      np.Write();
      np.Write();
      assert np.pixels[..] == shown;
    }

    /** The loop of `show`: screen `i` shows `t[i]`, left to right. */
    method ShowEach(t: string)
      requires Valid() && RulesValid() && |t| == |screens|
      modifies np.pixels
      ensures np.pixels[..] == ShowAll(old(np.pixels[..]), old(Digits(t)))
    {
      ghost var px := np.pixels[..];
      ghost var ds := Digits(t);
      var i := 0;
      while i < |t|
        invariant 0 <= i <= |t|
        invariant np.pixels[..] == ShowAll(px, ds[..i])
        invariant Pending(t, ds, i)
      {
        ShowOne(t, i, px, ds);
        i := i + 1;
      }
      assert ds[..i] == ds;
    }

    /** One pass of the loop of `show`: screen `i` shows `t[i]` in its rule's colours. */
    method ShowOne(t: string, i: nat, ghost px: seq<Rgb>, ghost ds: seq<DigitShow>)
      requires Valid() && i < |t| && Pending(t, ds, i)
      requires |px| == np.pixels.Length && Fits(|px|, ds) && np.pixels[..] == ShowAll(px, ds[..i])
      modifies np.pixels
      ensures np.pixels[..] == ShowAll(px, ds[..i + 1])
      ensures Pending(t, ds, i + 1)
    {
      ghost var colors := screens[i].colorRule.Colors();
      assert ds[i] == DigitShow(screens[i].offset, t[i], colors);
      assert np.pixels !in screens[i].colorRule.Objects() && np.pixels !in RuleObjects();
      PendingNext(t, ds, i);
      screens[i].Show(t[i]);
      ShowAllSnoc(px, ds, i);
    }

    /** `set_color_rule`: every screen takes `rule`; no pixel changes. */
    method SetColorRule(rule: ColorRule)
      requires Valid()
      modifies set i | 0 <= i < |screens| :: screens[i]
      ensures forall i :: 0 <= i < |screens| ==> screens[i].colorRule == rule
      ensures unchanged(np.pixels)
    {
      for k := 0 to |screens|
        invariant forall i :: 0 <= i < k ==> screens[i].colorRule == rule
      {
        screens[k].SetColorRule(rule);
      }
    }
  }
}
