/**
 Plotting a sprite straight into the framebuffer (accelerators.c), against a definition by pixels.
 */
module Blit {
  import Words

  type Byte = x: int | 0 <= x < 256

  const WRAP: int := 0x1_0000_0000
  const PAGE: int := 0x1000

  // ---- pixel formats ----

  datatype Format = None | Bpp32 | F565 | F1555 | F4444 | Bpp8

  /** accel_format_bytes(). */
  function Width(f: Format): nat {
    match f
    case Bpp32 => 4
    case F565 => 2
    case F1555 => 2
    case F4444 => 2
    case Bpp8 => 1
    case None => 0
  }

  /** A colour channel: the weight of its low bit, and its bits. */
  datatype Channel = Channel(unit: int, bits: int)

  predicate HasChannels(f: Format) { f == Bpp32 || f == F565 || f == F1555 || f == F4444 }

  /** Red, green, blue. */
  function Channels(f: Format): (seq<Channel>)
    requires HasChannels(f)
  {
    match f
    case Bpp32 => [Channel(1, 8), Channel(0x100, 8), Channel(0x1_0000, 8)]
    case F565 => [Channel(1, 5), Channel(0x20, 6), Channel(0x800, 5)]
    case F1555 => [Channel(1, 5), Channel(0x20, 5), Channel(0x400, 5)]
    case F4444 => [Channel(1, 4), Channel(0x10, 4), Channel(0x100, 4)]
  }

  /** accel_can_convert(). */
  predicate CanConvert(from: Format, to: Format) {
    from != None && to != None && (from == to || (HasChannels(from) && HasChannels(to) && to != F4444))
  }

  function Levels(bits: int): int { if bits == 4 then 16 else if bits == 5 then 32 else if bits == 6 then 64 else 256 }

  /** A channel in eight bits: its own top bits fill the bits it gains. */
  function Widen(v: int, bits: int): int {
    if bits == 4 then v * 16 + v else if bits == 5 then v * 8 + v / 4 else if bits == 6 then v * 4 + v / 16 else v
  }

  /** widen_channel(): replicated upwards until eight bits are filled. */
  method WidenChannel(v: int, bits: int) returns (w: int)
    requires (bits == 4 || bits == 5 || bits == 6 || bits == 8) && 0 <= v < Levels(bits)
    ensures w == Widen(v, bits) && 0 <= w < 256
  {
    var r, have := v, bits;
    while have < 8
      invariant bits <= have < 8 + bits && (have == bits || have == 2 * bits)
      invariant r == if have == bits then v else v * Levels(bits) + v
      decreases 16 - have
    {
      r := r * Levels(bits) + v;
      have := have + bits;
    }
    var extra := if have == 8 then 1 else if have == 10 then 4 else 16;
    w := r / extra % 256;
    Quotients(v, bits);
  }

  lemma Quotients(v: int, bits: int)
    requires (bits == 4 || bits == 5 || bits == 6 || bits == 8) && 0 <= v < Levels(bits)
    ensures bits == 5 ==> (v * 32 + v) / 4 == v * 8 + v / 4
    ensures bits == 6 ==> (v * 64 + v) / 16 == v * 4 + v / 16
    ensures 0 <= Widen(v, bits) < 256
  {
  }

  function Raw(pixel: int, c: Channel): int
    requires c.unit > 0
  {
    pixel / c.unit % Levels(c.bits)
  }

  function Narrow(eight: int, bits: int): int { eight / (256 / Levels(bits)) }

  /** One channel of a converted pixel. */
  function Moved(pixel: int, c: Channel, to: Channel): int
    requires c.unit > 0
  {
    Narrow(Widen(Raw(pixel, c), c.bits), to.bits) * to.unit
  }

  /** accel_convert_pixel(); the channels do not overlap, so they are added. */
  function Convert(from: Format, to: Format, pixel: int): int
    requires CanConvert(from, to)
  {
    if from == to then pixel
    else
      var a, b := Channels(from), Channels(to);
      Moved(pixel, a[0], b[0]) + Moved(pixel, a[1], b[1]) + Moved(pixel, a[2], b[2])
  }

  /** Widening and narrowing to at least as many bits is exact: nothing is lost. */
  lemma NarrowWiden(v: int, bits: int)
    requires (bits == 4 || bits == 5 || bits == 6 || bits == 8) && 0 <= v < Levels(bits)
    ensures Narrow(Widen(v, bits), bits) == v
    ensures v == 0 ==> Widen(v, bits) == 0
    ensures v == Levels(bits) - 1 ==> Widen(v, bits) == 255
  {
  }

  /** A 5:6:5 pixel comes back unchanged from eight bits a channel. */
  lemma RoundTrip565(p: int)
    requires 0 <= p < 0x1_0000
    ensures Convert(Bpp32, F565, Convert(F565, Bpp32, p)) == p
  {
    hide Convert; hide Widen; hide Narrow;
    var r, g, b := p % 32, p / 32 % 64, p / 2048 % 32;
    Parts565(p, r, g, b);
    Quotients(r, 5);
    Quotients(g, 6);
    Quotients(b, 5);
    To32(p, r, g, b);
    From32(Convert(F565, Bpp32, p), Widen(r, 5), Widen(g, 6), Widen(b, 5));
    NarrowWiden(r, 5);
    NarrowWiden(g, 6);
    NarrowWiden(b, 5);
  }

  lemma Parts565(p: int, r: int, g: int, b: int)
    requires 0 <= p < 0x1_0000 && r == p % 32 && g == p / 32 % 64 && b == p / 2048 % 32
    ensures p == r + 32 * g + 2048 * b
  {
    assert p / 2048 == p / 32 / 64;
  }

  lemma To32(p: int, r: int, g: int, b: int)
    requires r == p % 32 && g == p / 32 % 64 && b == p / 2048 % 32
    ensures Convert(F565, Bpp32, p) == Widen(r, 5) + 0x100 * Widen(g, 6) + 0x1_0000 * Widen(b, 5)
  {
    hide Widen;
  }

  lemma From32(q: int, r: int, g: int, b: int)
    requires 0 <= r < 256 && 0 <= g < 256 && 0 <= b < 256 && q == r + 0x100 * g + 0x1_0000 * b
    ensures Convert(Bpp32, F565, q) == Narrow(r, 5) + 0x20 * Narrow(g, 6) + 0x800 * Narrow(b, 5)
  {
    Fields(r, g, b, q);
    hide Narrow;
  }

  lemma Fields(r: int, g: int, b: int, q: int)
    requires 0 <= r < 256 && 0 <= g < 256 && 0 <= b < 256 && q == r + 0x100 * g + 0x1_0000 * b
    ensures q % 256 == r && q / 0x100 % 256 == g && q / 0x1_0000 % 256 == b
  {
  }

  /** The bits of red, green and blue, which lie next to each other, red lowest. */
  function Depth(f: Format, i: nat): int { if f == Bpp32 then 8 else if f == F4444 then 4 else if f == F565 && i == 1 then 6 else 5 }

  function Pixel(f: Format, r: int, g: int, b: int): int { r + Levels(Depth(f, 0)) * (g + Levels(Depth(f, 1)) * b) }

  function Fit(v: int, from: int, to: int): int { Narrow(Widen(v, from), to) }

  predicate HasWidth(bits: int) { bits == 4 || bits == 5 || bits == 6 || bits == 8 }

  /** `w` is channel `v` in another number of bits: fewer keep the top bits, more are the channel with its own top bits below it. */
  predicate Kept(v: int, from: int, w: int, to: int)
    requires HasWidth(from) && HasWidth(to)
  {
    && 0 <= w < Levels(to)
    && (to <= from ==> w == v / (Levels(from) / Levels(to)))
    && (to >= from ==> var gained := Levels(to) / Levels(from); w == v * gained + v / (Levels(from) / gained))
  }

  lemma FitKeeps(v: int, from: int, to: int)
    requires HasWidth(from) && HasWidth(to) && 0 <= v < Levels(from)
    ensures Kept(v, from, Fit(v, from, to), to)
  {
    hide Kept; hide Fit;
    if from == 4 { Fit4(v); } else if from == 5 { Fit5(v); } else if from == 6 { Fit6(v); } else { Fit8(v); }
  }

  lemma KeptIs(v: int, from: int, w: int, to: int, few: int, many: int, ratio: int)
    requires HasWidth(from) && HasWidth(to) && few == Levels(from) && many == Levels(to) && ratio > 0
    requires 0 <= w < many
    requires if from >= to then few == ratio * many && w == v / ratio else many == ratio * few && few % ratio == 0 && w == v * ratio + v / (few / ratio)
    requires from == to ==> ratio == 1 && 0 <= v < few
    ensures Kept(v, from, w, to)
  {
    if from >= to { Words.QuotientUnique(few, many, ratio, 0); }
    if from <= to { Words.QuotientUnique(many, few, ratio, 0); }
    if from == to { Words.QuotientUnique(v, 1, v, 0); Words.QuotientUnique(few, 1, few, 0); Words.QuotientUnique(v, few, 0, v); }
  }

  lemma Fit4(v: int)
    requires 0 <= v < 16
    ensures forall to | HasWidth(to) :: Kept(v, 4, Fit(v, 4, to), to)
  {
    hide Kept;
    KeptIs(v, 4, Fit(v, 4, 4), 4, 16, 16, 1);
    KeptIs(v, 4, Fit(v, 4, 5), 5, 16, 32, 2);
    KeptIs(v, 4, Fit(v, 4, 6), 6, 16, 64, 4);
    KeptIs(v, 4, Fit(v, 4, 8), 8, 16, 256, 16);
  }

  lemma Fit5(v: int)
    requires 0 <= v < 32
    ensures forall to | HasWidth(to) :: Kept(v, 5, Fit(v, 5, to), to)
  {
    hide Kept;
    KeptIs(v, 5, Fit(v, 5, 4), 4, 32, 16, 2);
    KeptIs(v, 5, Fit(v, 5, 5), 5, 32, 32, 1);
    KeptIs(v, 5, Fit(v, 5, 6), 6, 32, 64, 2);
    KeptIs(v, 5, Fit(v, 5, 8), 8, 32, 256, 8);
  }

  lemma Fit6(v: int)
    requires 0 <= v < 64
    ensures forall to | HasWidth(to) :: Kept(v, 6, Fit(v, 6, to), to)
  {
    hide Kept;
    KeptIs(v, 6, Fit(v, 6, 4), 4, 64, 16, 4);
    KeptIs(v, 6, Fit(v, 6, 5), 5, 64, 32, 2);
    KeptIs(v, 6, Fit(v, 6, 6), 6, 64, 64, 1);
    KeptIs(v, 6, Fit(v, 6, 8), 8, 64, 256, 4);
  }

  lemma Fit8(v: int)
    requires 0 <= v < 256
    ensures forall to | HasWidth(to) :: Kept(v, 8, Fit(v, 8, to), to)
  {
    hide Kept;
    KeptIs(v, 8, Fit(v, 8, 4), 4, 256, 16, 16);
    KeptIs(v, 8, Fit(v, 8, 5), 5, 256, 32, 8);
    KeptIs(v, 8, Fit(v, 8, 6), 6, 256, 64, 4);
    KeptIs(v, 8, Fit(v, 8, 8), 8, 256, 256, 1);
  }

  /** Every conversion moves red, green and blue to their places, whatever is in the bits above them. */
  lemma ConvertsChannels(from: Format, to: Format, r: int, g: int, b: int, above: int)
    requires CanConvert(from, to) && from != to
    requires 0 <= r < Levels(Depth(from, 0)) && 0 <= g < Levels(Depth(from, 1)) && 0 <= b < Levels(Depth(from, 2))
    ensures Convert(from, to, Pixel(from, r, g, b + Levels(Depth(from, 2)) * above)) ==
            Pixel(to, Fit(r, Depth(from, 0), Depth(to, 0)), Fit(g, Depth(from, 1), Depth(to, 1)), Fit(b, Depth(from, 2), Depth(to, 2)))
  {
    hide Narrow; hide Widen; hide Raw; hide Pixel; hide Levels;
    var p := Pixel(from, r, g, b + Levels(Depth(from, 2)) * above);
    RawChannels(from, p, r, g, b, above);
    Together(to, Fit(r, Depth(from, 0), Depth(to, 0)), Fit(g, Depth(from, 1), Depth(to, 1)), Fit(b, Depth(from, 2), Depth(to, 2)));
  }

  /** The channels of a pixel are where the formats have them. */
  lemma RawChannels(f: Format, p: int, r: int, g: int, b: int, above: int)
    requires HasChannels(f) && p == Pixel(f, r, g, b + Levels(Depth(f, 2)) * above)
    requires 0 <= r < Levels(Depth(f, 0)) && 0 <= g < Levels(Depth(f, 1)) && 0 <= b < Levels(Depth(f, 2))
    ensures var c := Channels(f); Raw(p, c[0]) == r && Raw(p, c[1]) == g && Raw(p, c[2]) == b
    ensures forall i :: 0 <= i < 3 ==> Channels(f)[i].bits == Depth(f, i)
  {
    if f == Bpp32 { Digits(p, 256, 256, 256, r, g, b, above, 0x1_0000); }
    else if f == F565 { Digits(p, 32, 64, 32, r, g, b, above, 0x800); }
    else if f == F1555 { Digits(p, 32, 32, 32, r, g, b, above, 0x400); }
    else { Digits(p, 16, 16, 16, r, g, b, above, 0x100); }
  }

  lemma Digits(p: int, l0: int, l1: int, l2: int, r: int, g: int, b: int, above: int, unit: int)
    requires 0 <= r < l0 && 0 <= g < l1 && 0 <= b < l2 && unit == l0 * l1
    requires p == r + l0 * (g + l1 * (b + l2 * above))
    ensures p % l0 == r && p / l0 % l1 == g && p / unit % l2 == b
  {
    var h1 := b + l2 * above;
    var h0 := g + l1 * h1;
    Words.RemainderUnique(p, l0, h0, r);
    Words.QuotientUnique(p, l0, h0, r);
    Words.RemainderUnique(h0, l1, h1, g);
    Words.QuotientUnique(h0, l1, h1, g);
    Twice(p, l0, l1);
    Words.RemainderUnique(h1, l2, above, b);
  }

  /** Dividing twice is dividing by the product. */
  lemma Twice(p: int, a: int, b: int)
    requires a > 0 && b > 0
    ensures a * b > 0 && p / (a * b) == p / a / b
  {
    var q, t := p / a, p % a;
    var h, u := q / b, q % b;
    assert a * b > 0;
    assert p == a * (b * h + u) + t;
    Spread(a, b, h, u);
    Scaled(a, b, u);
    Words.QuotientUnique(p, a * b, h, a * u + t);
  }

  lemma Spread(a: int, b: int, h: int, u: int)
    ensures a * (b * h + u) == a * b * h + a * u
  {
  }

  lemma Scaled(a: int, b: int, u: int)
    requires a > 0 && 0 <= u < b
    ensures 0 <= a * u <= a * b - a
  {
    assert a * (b - 1 - u) >= 0;
    assert a * (b - 1 - u) == a * b - a - a * u;
    assert a * u >= 0;
  }

  lemma Together(f: Format, r: int, g: int, b: int)
    requires HasChannels(f)
    ensures var c := Channels(f); r * c[0].unit + g * c[1].unit + b * c[2].unit == Pixel(f, r, g, b)
  {
  }

  // ---- pixels as bytes ----

  function Word(s: seq<Byte>): int { if s == [] then 0 else s[0] + 256 * Word(s[1..]) }

  function Split(v: int, n: nat): seq<Byte>
    decreases n
  {
    if n == 0 then [] else [v % 256] + Split(v / 256, n - 1)
  }

  lemma {:induction false} SplitLength(v: int, n: nat)
    ensures |Split(v, n)| == n
    decreases n
  {
    if n > 0 { SplitLength(v / 256, n - 1); }
  }

  lemma {:induction false} SplitWord(s: seq<Byte>)
    ensures Split(Word(s), |s|) == s
    decreases |s|
  {
    if s != [] {
      var w := Word(s[1..]);
      assert (s[0] + 256 * w) % 256 == s[0] && (s[0] + 256 * w) / 256 == w;
      SplitWord(s[1..]);
    }
  }

  /** The bytes on the screen for the bytes of a sprite pixel. */
  function Converted(from: Format, to: Format, s: seq<Byte>): seq<Byte>
    requires CanConvert(from, to)
  {
    Split(Convert(from, to, Word(s)), Width(to))
  }

  /** With one format the bytes are copied. */
  lemma ConvertedSame(f: Format, s: seq<Byte>)
    requires CanConvert(f, f) && |s| == Width(f)
    ensures Converted(f, f, s) == s
  {
    SplitWord(s);
  }

  // ---- where the sprite goes ----

  /** Screen size; graphics window, inclusive, rows from the bottom; origin; OS units to a pixel; position; sprite size. */
  datatype Plot = Plot(screenW: int, screenH: int, gwl: int, gwb: int, gwr: int, gwt: int,
                       left: int, bottom: int, srcW: int, srcH: int)

  /** The position in pixels: origin and position are in OS units, `eig` the power of two of them that makes a pixel. */
  function Pixels(os: int, origin: int, eig: nat): int { Words.Floor(os + origin, eig) }

  /** A position in OS units, the origin, and the eig factors. */
  datatype Position = Position(x: int, y: int, originX: int, originY: int, xeig: nat, yeig: nat)

  /** A plot at a position. */
  function Placed(p: Plot, at: Position): Plot {
    p.(left := Pixels(at.x, at.originX, at.xeig), bottom := Pixels(at.y, at.originY, at.yeig))
  }

  /** The arithmetic shift rounds down, left of and below the screen too. */
  lemma {:induction false} PixelsFloor(v: int, eig: nat)
    ensures Words.Floor(v, eig) * Words.Pow2(eig) <= v < Words.Floor(v, eig) * Words.Pow2(eig) + Words.Pow2(eig)
    decreases eig
  {
    if eig > 0 {
      PixelsFloor(v / 2, eig - 1);
      Doubled(v, Words.Floor(v / 2, eig - 1), Words.Pow2(eig - 1));
    }
  }

  lemma Doubled(v: int, f: int, p: int)
    requires f * p <= v / 2 < f * p + p
    ensures f * (2 * p) <= v < f * (2 * p) + 2 * p
  {
    assert f * (2 * p) == 2 * (f * p);
  }

  datatype Rect = Rect(left: int, right: int, top: int, bottom: int, originLeft: int, originTop: int)

  /** accel_plot_rect(): the rectangle, in rows from the top. */
  function PlotRect(p: Plot): Rect {
    var top := p.screenH - p.bottom - p.srcH;
    var winTop, winBottom := p.screenH - 1 - p.gwt, p.screenH - 1 - p.gwb;
    Rect(if p.left > p.gwl then p.left else p.gwl,
         if p.left + p.srcW - 1 < p.gwr then p.left + p.srcW - 1 else p.gwr,
         if top > winTop then top else winTop,
         if top + p.srcH - 1 < winBottom then top + p.srcH - 1 else winBottom,
         p.left, top)
  }

  predicate Drawn(p: Plot, r: Rect) {
    r.left >= 0 && r.top >= 0 && r.right < p.screenW && r.bottom < p.screenH && r.left <= r.right && r.top <= r.bottom
  }

  /** The window lies on the screen, as the caller has checked. */
  predicate OnScreen(p: Plot) { 0 <= p.gwl && 0 <= p.gwb && p.gwr < p.screenW && p.gwt < p.screenH }

  /** Pixel (x, y), y from the top, is in the window and under the sprite; `up` counts rows from the bottom. */
  predicate Covered(p: Plot, x: int, y: int) {
    var up := p.screenH - 1 - y;
    && p.gwl <= x <= p.gwr && p.gwb <= up <= p.gwt
    && 0 <= x - p.left < p.srcW && 0 <= up - p.bottom < p.srcH
  }

  predicate InRect(r: Rect, x: int, y: int) { r.left <= x <= r.right && r.top <= y <= r.bottom }

  /** The rectangle is exactly the pixels covered; nothing is drawn exactly when there are none. */
  lemma PlotRectExact(p: Plot)
    requires OnScreen(p)
    ensures forall x, y :: InRect(PlotRect(p), x, y) <==> Covered(p, x, y)
    ensures Drawn(p, PlotRect(p)) <==> exists x, y :: Covered(p, x, y)
  {
    var r := PlotRect(p);
    if Drawn(p, r) { assert Covered(p, r.left, r.top); }
    if x, y :| Covered(p, x, y) { assert InRect(r, x, y); }
  }

  /** A pixel of the rectangle shows the sprite's column as far from its left edge, and the row as far up from its bottom row, the last. */
  lemma SpriteUpright(p: Plot, x: int, y: int)
    requires Covered(p, x, y)
    ensures var column, row := x - PlotRect(p).originLeft, y - PlotRect(p).originTop;
            && 0 <= column < p.srcW && column == x - p.left
            && 0 <= row < p.srcH && p.srcH - 1 - row == p.screenH - 1 - y - p.bottom
  {
  }

  /** OS coordinate `v` lies before the end of the n-th pixel, counted in units of 2^eig. */
  predicate Before(v: int, n: int, eig: nat) { v < (n + 1) * Words.Pow2(eig) }

  /** In OS units: the pixel's column and row lie between those of the sprite's first and last. */
  predicate CoveredAt(p: Plot, at: Position, x: int, y: int) {
    var up := p.screenH - 1 - y;
    && p.gwl <= x <= p.gwr && p.gwb <= up <= p.gwt
    && Before(at.x + at.originX, x, at.xeig) && !Before(at.x + at.originX, x - p.srcW, at.xeig)
    && Before(at.y + at.originY, up, at.yeig) && !Before(at.y + at.originY, up - p.srcH, at.yeig)
  }

  lemma PixelsBefore(v: int, n: int, eig: nat)
    ensures Words.Floor(v, eig) <= n <==> Before(v, n, eig)
  {
    PixelsFloor(v, eig);
    var f, p := Words.Floor(v, eig), Words.Pow2(eig);
    Ordered(f, n + 1, p);
    Ordered(n + 1, f, p);
    if n + 1 == f { assert (n + 1) * p == f * p; }
  }

  /** The rectangle of a placed plot is exactly the pixels that the sprite covers in OS units, clipped to the window. */
  lemma PlacedExact(p: Plot, at: Position, x: int, y: int)
    ensures InRect(PlotRect(Placed(p, at)), x, y) <==> CoveredAt(p, at, x, y)
  {
    hide Before;
    var up := p.screenH - 1 - y;
    PixelsBefore(at.x + at.originX, x, at.xeig);
    PixelsBefore(at.x + at.originX, x - p.srcW, at.xeig);
    PixelsBefore(at.y + at.originY, up, at.yeig);
    PixelsBefore(at.y + at.originY, up - p.srcH, at.yeig);
  }

  // ---- the framebuffer ----

  /** Where the screen is in the framebuffer, and the sprite in guest memory. */
  datatype Place = Place(offset: nat, stride: int, base: int, srcStride: int, from: Format, to: Format)

  /**
   Guest memory as the host sees it: its bytes, and how many can be read in one piece from an address, none
   if the page is not there.
   */
  datatype Source = Source(byte: int -> Byte, avail: int -> nat)

  /** The bytes of sprite pixel (column, row). */
  function SpritePixel(src: Source, pl: Place, column: int, row: int): seq<Byte> {
    Bytes(src, pl.base + row * pl.srcStride + column * Width(pl.from), Width(pl.from))
  }

  /** `n` bytes of guest memory; addresses wrap. */
  function Bytes(src: Source, addr: int, n: int): seq<Byte>
    requires n >= 0
  {
    seq<Byte>(n, j requires 0 <= j < n => ByteAt(src, addr + j))
  }

  function ByteAt(src: Source, addr: int): Byte { src.byte(addr % WRAP) }

  function Row(pl: Place, i: int): int
    requires pl.stride > 0
  {
    (i - pl.offset) / pl.stride
  }

  function Within(pl: Place, i: int): int
    requires pl.stride > 0
  {
    (i - pl.offset) % pl.stride
  }

  function Column(pl: Place, i: int): int
    requires pl.stride > 0 && Width(pl.to) > 0
  {
    Within(pl, i) / Width(pl.to)
  }

  /** What belongs in framebuffer byte `i` when its pixel is covered. */
  function Wanted(src: Source, pl: Place, r: Rect, i: int): int
    requires pl.stride > 0 && CanConvert(pl.from, pl.to) && Width(pl.to) > 0
  {
    var bytes := Converted(pl.from, pl.to, SpritePixel(src, pl, Column(pl, i) - r.originLeft, Row(pl, i) - r.originTop));
    var b := Within(pl, i) % Width(pl.to);
    SplitLength(Convert(pl.from, pl.to, Word(SpritePixel(src, pl, Column(pl, i) - r.originLeft, Row(pl, i) - r.originTop))), Width(pl.to));
    bytes[b]
  }

  /** The geometry a plot is drawn with. */
  predicate Fitting(p: Plot, pl: Place, size: int) {
    && CanConvert(pl.from, pl.to) && 0 < Width(pl.to) && 0 < p.screenW && p.screenW * Width(pl.to) <= pl.stride
    && pl.offset + pl.stride * p.screenH <= size
  }

  /** The byte at column `x`, row `y` and offset `b` of a pixel. */
  function At(pl: Place, x: int, y: int, b: int): int { pl.offset + y * pl.stride + (x * Width(pl.to) + b) }

  lemma DivMod(q: int, d: int, r: int)
    requires 0 <= r < d
    ensures (q * d + r) / d == q && (q * d + r) % d == r
  {
    Words.QuotientUnique(q * d + r, d, q, r);
    Words.RemainderUnique(q * d + r, d, q, r);
  }

  /** Every byte is at some column, row and offset. */
  lemma AtAll(pl: Place, i: int)
    requires pl.stride > 0 && Width(pl.to) > 0
    ensures i == At(pl, Column(pl, i), Row(pl, i), Within(pl, i) % Width(pl.to))
  {
  }

  // ---- one run of pixels ----

  /** Byte `k` of a run of pixels read from `addr`. */
  function RunByte(src: Source, from: Format, to: Format, addr: int, k: nat): Byte
    requires CanConvert(from, to) && Width(to) > 0
  {
    var s := Bytes(src, addr + k / Width(to) * Width(from), Width(from));
    SplitLength(Convert(from, to, Word(s)), Width(to));
    Converted(from, to, s)[k % Width(to)]
  }

  lemma RunByteSame(src: Source, f: Format, addr: int, k: nat)
    requires CanConvert(f, f) && Width(f) > 0
    ensures RunByte(src, f, f, addr, k) == ByteAt(src, addr + k)
  {
    hide Converted; hide ByteAt;
    var s := Bytes(src, addr + k / Width(f) * Width(f), Width(f));
    ConvertedSame(f, s);
    assert k / Width(f) * Width(f) + k % Width(f) == k;
  }

  /** The bytes of pixel `n` of a run. */
  lemma RunPixel(src: Source, from: Format, to: Format, addr: int, n: nat, b: nat)
    requires CanConvert(from, to) && b < Width(to)
    ensures |Converted(from, to, Bytes(src, addr + n * Width(from), Width(from)))| == Width(to)
    ensures RunByte(src, from, to, addr, n * Width(to) + b) == Converted(from, to, Bytes(src, addr + n * Width(from), Width(from)))[b]
  {
    hide Converted; hide Bytes; hide Width; hide CanConvert;
    DivMod(n, Width(to), b);
    ConvertedLength(from, to, Bytes(src, addr + n * Width(from), Width(from)));
  }

  lemma ConvertedLength(from: Format, to: Format, s: seq<Byte>)
    requires CanConvert(from, to)
    ensures |Converted(from, to, s)| == Width(to)
  {
    SplitLength(Convert(from, to, Word(s)), Width(to));
  }

  /** convert_run(): `pixels` pixels from `addr` to framebuffer byte `at`. */
  method ConvertRun(fb: array<Byte>, at: nat, from: Format, to: Format, src: Source, addr: int, pixels: nat)
    requires CanConvert(from, to) && Width(to) > 0 && at + pixels * Width(to) <= fb.Length
    modifies fb
    ensures forall i :: 0 <= i < fb.Length ==>
      fb[i] == if at <= i < at + pixels * Width(to) then RunByte(src, from, to, addr, i - at) else old(fb[i])
  {
    hide RunByte; hide Converted; hide Bytes; hide ByteAt; hide Convert;
    var d := Width(to);
    if from == to {
      var k := 0;
      while k < pixels * d
        invariant 0 <= k <= pixels * d
        invariant forall i :: 0 <= i < fb.Length ==> fb[i] == if at <= i < at + k then RunByte(src, from, to, addr, i - at) else old(fb[i])
      {
        RunByteSame(src, to, addr, k);
        fb[at + k] := ByteAt(src, addr + k);
        k := k + 1;
      }
      return;
    }
    var n := 0;
    while n < pixels
      invariant 0 <= n <= pixels
      invariant forall i :: 0 <= i < fb.Length ==> fb[i] == if at <= i < at + n * d then RunByte(src, from, to, addr, i - at) else old(fb[i])
    {
      Bounded(n, pixels, d);
      ConvertPixelAt(fb, at + n * d, from, to, src, addr, n);
      assert (n + 1) * d == n * d + d;
      n := n + 1;
    }
  }

  lemma Bounded(n: nat, pixels: nat, d: nat)
    requires n < pixels
    ensures n * d + d <= pixels * d
  {
    if d > 0 { Words.Gap(d, n, pixels); }
  }

  /** One pixel of the run, low byte first. */
  method ConvertPixelAt(fb: array<Byte>, q: nat, from: Format, to: Format, src: Source, addr: int, n: nat)
    requires CanConvert(from, to) && from != to && q + Width(to) <= fb.Length
    modifies fb
    ensures forall i :: 0 <= i < fb.Length ==>
      fb[i] == if q <= i < q + Width(to) then RunByte(src, from, to, addr, i - q + n * Width(to)) else old(fb[i])
  {
    hide RunByte; hide Converted; hide Bytes;
    var v := Converted(from, to, Bytes(src, addr + n * Width(from), Width(from)));
    ConvertedLength(from, to, Bytes(src, addr + n * Width(from), Width(from)));
    RunPixel(src, from, to, addr, n, 0);
    RunPixel(src, from, to, addr, n, 1);
    fb[q] := v[0];
    fb[q + 1] := v[1];
    if Width(to) == 4 {
      RunPixel(src, from, to, addr, n, 2);
      RunPixel(src, from, to, addr, n, 3);
      fb[q + 2] := v[2];
      fb[q + 3] := v[3];
    }
  }

  // ---- one row ----

  lemma ByteOf(src: Source, a: int, n: nat, j: nat)
    requires j < n
    ensures Bytes(src, a, n)[j] == ByteAt(src, a + j)
  {
  }

  /** Reading depends on the address modulo the address space. */
  lemma BytesWrap(src: Source, a: int, b: int, n: nat)
    requires a % WRAP == b % WRAP
    ensures Bytes(src, a, n) == Bytes(src, b, n)
  {
    forall j | 0 <= j < n ensures Bytes(src, a, n)[j] == Bytes(src, b, n)[j] {
      SameWrap(a, b, j);
      ByteOf(src, a, n, j);
      ByteOf(src, b, n, j);
    }
  }

  predicate Roomy(pl: Place, columns: int) {
    CanConvert(pl.from, pl.to) && Width(pl.to) > 0 && 0 <= columns && columns * Width(pl.to) <= pl.stride && pl.stride > 0
  }

  /** The bytes of a run of columns in a row. */
  lemma InRun(pl: Place, row: int, c0: int, run: nat, i: int)
    requires 0 <= c0 && Roomy(pl, c0 + run)
    ensures At(pl, c0, row, 0) <= i < At(pl, c0 + run, row, 0) <==> Row(pl, i) == row && c0 <= Column(pl, i) < c0 + run
    ensures Row(pl, i) == row ==> i - At(pl, c0, row, 0) == (Column(pl, i) - c0) * Width(pl.to) + Within(pl, i) % Width(pl.to)
  {
    var d, x, b := Width(pl.to), Column(pl, i), Within(pl, i) % Width(pl.to);
    AtAll(pl, i);
    Distribute(x, c0, d);
    Distribute(c0 + run, c0, d);
    Between(x, b, c0, run, d);
    if At(pl, c0, row, 0) <= i < At(pl, c0 + run, row, 0) {
      assert 0 <= c0 * d;
      DivMod(row, pl.stride, i - pl.offset - row * pl.stride);
    }
  }

  lemma Distribute(x: int, c: int, d: int)
    ensures x * d - c * d == (x - c) * d
  {
  }

  lemma Between(x: int, b: int, c0: int, run: nat, d: int)
    requires d > 0 && 0 <= b < d
    ensures c0 * d <= x * d + b < (c0 + run) * d <==> c0 <= x < c0 + run
  {
    Ordered(c0, x, d);
    Ordered(c0 + run, x, d);
  }

  lemma Ordered(c: int, x: int, d: int)
    requires d > 0
    ensures x >= c ==> c * d <= x * d
    ensures x < c ==> x * d + d <= c * d
  {
    if c < x { Words.Gap(d, c, x); }
    if x < c { Words.Gap(d, x, c); }
  }

  /** What a run puts there is what is wanted there. */
  lemma RunWanted(src: Source, pl: Place, r: Rect, row: int, c0: int, run: nat, addr: int, i: int)
    requires 0 <= c0 && Roomy(pl, c0 + run) && Row(pl, i) == row && c0 <= Column(pl, i) < c0 + run
    requires addr % WRAP == SourceAddress(pl, r, row, c0) % WRAP
    ensures i - At(pl, c0, row, 0) >= 0
    ensures RunByte(src, pl.from, pl.to, addr, i - At(pl, c0, row, 0)) == Wanted(src, pl, r, i)
  {
    hide Converted; hide Bytes; hide Row; hide Column; hide Within; hide At; hide RunByte;
    InRun(pl, row, c0, run, i);
    var x, b, sb := Column(pl, i), Within(pl, i) % Width(pl.to), Width(pl.from);
    var n := x - c0;
    Product(n, Width(pl.to));
    RunPixel(src, pl.from, pl.to, addr, n, b);
    AddressStep(pl, r, row, c0, n);
    SameWrap(addr, SourceAddress(pl, r, row, c0), n * sb);
    BytesWrap(src, addr + n * sb, SourceAddress(pl, r, row, x), sb);
  }

  lemma Product(a: int, b: int)
    requires a >= 0 && b >= 0
    ensures a * b >= 0
  {
  }

  lemma SameWrap(a: int, b: int, k: int)
    requires a % WRAP == b % WRAP
    ensures (a + k) % WRAP == (b + k) % WRAP
  {
    assert (a + k) % WRAP == (a % WRAP + k) % WRAP;
    assert (b + k) % WRAP == (b % WRAP + k) % WRAP;
  }

  /** accel_blit_row_plan(): where the pixel drawn at column `x` of a row comes from. */
  function SourceAddress(pl: Place, r: Rect, row: int, x: int): int {
    pl.base + (row - r.originTop) * pl.srcStride + (x - r.originLeft) * Width(pl.from)
  }

  lemma AddressStep(pl: Place, r: Rect, row: int, c0: int, n: int)
    ensures SourceAddress(pl, r, row, c0 + n) == SourceAddress(pl, r, row, c0) + n * Width(pl.from)
  {
    Distribute(c0 + n - r.originLeft, c0 - r.originLeft, Width(pl.from));
  }

  /** Bytes of the first `n` columns drawn in a row. */
  predicate InRow(pl: Place, r: Rect, row: int, n: int, i: int)
    requires pl.stride > 0 && Width(pl.to) > 0
  {
    Row(pl, i) == row && r.left <= Column(pl, i) < r.left + n
  }

  /** One run: columns n .. n + run - 1 of what is drawn in a row. */
  method BlitRun(fb: array<Byte>, src: Source, pl: Place, r: Rect, row: int, n: nat, run: nat, addr: int)
    requires 0 <= r.left && 0 <= row && Roomy(pl, r.left + n + run) && pl.offset + row * pl.stride + pl.stride <= fb.Length
    requires addr % WRAP == SourceAddress(pl, r, row, r.left + n) % WRAP
    modifies fb
    ensures forall i :: 0 <= i < fb.Length ==>
      fb[i] == if InRow(pl, r, row, n + run, i) && !InRow(pl, r, row, n, i) then Wanted(src, pl, r, i) else old(fb[i])
  {
    hide Converted; hide Bytes; hide Row; hide Column; hide Within; hide RunByte; hide Wanted; hide At; hide SourceAddress; hide CanConvert;
    var c0 := r.left + n;
    RunInside(pl, row, c0, run, fb.Length);
    ConvertRun(fb, At(pl, c0, row, 0), pl.from, pl.to, src, addr, run);
    forall i | 0 <= i < fb.Length
      ensures fb[i] == if InRow(pl, r, row, n + run, i) && !InRow(pl, r, row, n, i) then Wanted(src, pl, r, i) else old(fb[i])
    {
      InRun(pl, row, c0, run, i);
      if InRow(pl, r, row, n + run, i) && !InRow(pl, r, row, n, i) { RunWanted(src, pl, r, row, c0, run, addr, i); }
    }
  }

  /** The sprite pixel for the n-th column drawn in a row cannot be read. */
  predicate Unreadable(src: Source, pl: Place, r: Rect, row: int, n: int) {
    src.avail(SourceAddress(pl, r, row, r.left + n) % WRAP) < Width(pl.from)
  }

  /** One row, in runs of what can be read before the next page. */
  method BlitRow(fb: array<Byte>, src: Source, pl: Place, r: Rect, row: int) returns (n: nat)
    requires 0 <= r.left <= r.right && 0 <= row && Roomy(pl, r.right + 1) && pl.offset + row * pl.stride + pl.stride <= fb.Length
    modifies fb
    ensures n <= r.right - r.left + 1 && (n <= r.right - r.left ==> Unreadable(src, pl, r, row, n))
    ensures forall i :: 0 <= i < fb.Length ==> fb[i] == if InRow(pl, r, row, n, i) then Wanted(src, pl, r, i) else old(fb[i])
  {
    hide Converted; hide Bytes; hide Row; hide Column; hide Within; hide Wanted; hide SourceAddress;
    var total := r.right - r.left + 1;
    var addr := SourceAddress(pl, r, row, r.left) % WRAP;
    n := 0;
    while n < total
      invariant n <= total && addr == SourceAddress(pl, r, row, r.left + n) % WRAP
      invariant forall i :: 0 <= i < fb.Length ==> fb[i] == if InRow(pl, r, row, n, i) then Wanted(src, pl, r, i) else old(fb[i])
      decreases total - n
    {
      var avail := src.avail(addr);
      if avail < Width(pl.from) { return; }
      var run := Runs(avail, Width(pl.from), total - n);
      RoomyLess(pl, r.right + 1, r.left + n + run);
      BlitRun(fb, src, pl, r, row, n, run, addr);
      AddressStep(pl, r, row, r.left + n, run);
      SameWrap(addr, SourceAddress(pl, r, row, r.left + n), run * Width(pl.from));
      addr := (addr + run * Width(pl.from)) % WRAP;
      n := n + run;
    }
  }

  /** Whole pixels only, and no more than are left. */
  method Runs(avail: nat, width: int, wanted: nat) returns (run: nat)
    requires 0 < width <= avail && wanted > 0
    ensures 0 < run <= wanted && run * width <= avail
  {
    run := avail / width;
    Words.Gap(width, 0, 1);
    assert avail == avail / width * width + avail % width;
    if run > wanted {
      Distribute(run, wanted, width);
      Product(run - wanted, width);
      run := wanted;
    }
  }

  lemma RoomyLess(pl: Place, columns: int, fewer: int)
    requires Roomy(pl, columns) && 0 <= fewer <= columns
    ensures Roomy(pl, fewer)
  {
    Distribute(columns, fewer, Width(pl.to));
    Product(columns - fewer, Width(pl.to));
  }

  lemma RunInside(pl: Place, row: int, c0: int, run: nat, size: int)
    requires 0 <= c0 && 0 <= row && Roomy(pl, c0 + run) && pl.offset + row * pl.stride + pl.stride <= size
    ensures 0 <= At(pl, c0, row, 0) && At(pl, c0, row, 0) + run * Width(pl.to) == At(pl, c0 + run, row, 0) <= size
  {
    Distribute(c0 + run, c0, Width(pl.to));
    Product(row, pl.stride);
    Product(c0, Width(pl.to));
  }

  // ---- the whole plot ----

  /** Framebuffer page `k` holds a byte of rows top .. bottom. */
  predicate Touches(pl: Place, top: int, bottom: int, k: int) {
    (pl.offset + top * pl.stride) / PAGE <= k <= (pl.offset + bottom * pl.stride + pl.stride - 1) / PAGE
  }

  /** mark_rows_dirty(): exactly the pages of the framebuffer that hold rows top .. bottom. */
  method MarkRowsDirty(pl: Place, top: nat, bottom: nat) returns (dirty: set<int>)
    requires top <= bottom && pl.stride > 0
    ensures forall k :: k in dirty <==> Touches(pl, top, bottom, k)
  {
    Product(top, pl.stride);
    Product(bottom, pl.stride);
    var first, last := pl.offset + top * pl.stride, pl.offset + bottom * pl.stride + pl.stride - 1;
    dirty := {};
    var page := first / PAGE;
    while page * PAGE <= last
      invariant first / PAGE <= page && page <= last / PAGE + 1
      invariant forall k :: k in dirty <==> first / PAGE <= k < page
      decreases last - page * PAGE
    {
      dirty := dirty + {page};
      page := page + 1;
    }
  }

  lemma RowsTouch(pl: Place, top: int, bottom: int, i: int)
    requires pl.offset + top * pl.stride <= i < pl.offset + bottom * pl.stride + pl.stride
    ensures Touches(pl, top, bottom, i / PAGE)
  {
  }

  /** Bytes of the rows above `row` of the rectangle. */
  predicate Above(pl: Place, r: Rect, row: int, i: int)
    requires pl.stride > 0 && Width(pl.to) > 0
  {
    Row(pl, i) < row && InRect(r, Column(pl, i), Row(pl, i))
  }

  /** The rows fit one after the other. */
  lemma RowInside(pl: Place, row: int, rows: int, size: int)
    requires 0 <= row < rows && pl.stride > 0 && pl.offset + pl.stride * rows <= size
    ensures pl.offset + row * pl.stride + pl.stride <= size
  {
    Distribute(rows, row + 1, pl.stride);
    Product(rows - row - 1, pl.stride);
    Distribute(row + 1, row, pl.stride);
  }

  lemma RowBounds(pl: Place, i: int, top: int, bottom: int)
    requires pl.stride > 0 && top <= Row(pl, i) <= bottom
    ensures pl.offset + top * pl.stride <= i < pl.offset + bottom * pl.stride + pl.stride
  {
    var y := Row(pl, i);
    assert i == pl.offset + y * pl.stride + Within(pl, i);
    Distribute(y, top, pl.stride);
    Product(y - top, pl.stride);
    Distribute(bottom, y, pl.stride);
    Product(bottom - y, pl.stride);
  }

  /** How far a plot got: the rows above `row` and `columns` pixels of it. */
  datatype Stop = Stop(row: int, columns: nat)

  /** Bytes of the rows, and of the first columns of the next, that have been drawn. */
  predicate Reached(pl: Place, r: Rect, stop: Stop, i: int)
    requires pl.stride > 0 && Width(pl.to) > 0
  {
    Above(pl, r, stop.row, i) || (InRow(pl, r, stop.row, stop.columns, i) && InRect(r, Column(pl, i), Row(pl, i)))
  }

  /** The plot got to a pixel of the rectangle that cannot be read. */
  predicate StoppedAt(src: Source, pl: Place, r: Rect, stop: Stop) {
    InRect(r, r.left + stop.columns, stop.row) && Unreadable(src, pl, r, stop.row, stop.columns)
  }

  /** Rows of the rectangle, one after the other, up to the first pixel of the sprite that cannot be read. */
  method BlitRows(fb: array<Byte>, src: Source, p: Plot, pl: Place, r: Rect) returns (ok: bool, stop: Stop)
    requires r == PlotRect(p) && Drawn(p, r) && Fitting(p, pl, fb.Length)
    modifies fb
    ensures if ok then stop == Stop(r.bottom + 1, 0) else StoppedAt(src, pl, r, stop)
    ensures forall i :: 0 <= i < fb.Length ==> fb[i] == if Reached(pl, r, stop, i) then Wanted(src, pl, r, i) else old(fb[i])
  {
    hide Row; hide Column; hide Within; hide Wanted; hide PlotRect; hide CanConvert;
    FittingRoomy(p, pl, r, fb.Length);
    var row := r.top;
    while row <= r.bottom
      invariant r.top <= row <= r.bottom + 1
      invariant forall i :: 0 <= i < fb.Length ==> fb[i] == if Above(pl, r, row, i) then Wanted(src, pl, r, i) else old(fb[i])
    {
      RowInside(pl, row, p.screenH, fb.Length);
      ghost var before := fb[..];
      var n := BlitRow(fb, src, pl, r, row);
      forall i | 0 <= i < fb.Length
        ensures fb[i] == if Reached(pl, r, Stop(row, n), i) then Wanted(src, pl, r, i) else old(fb[i])
        ensures n == r.right - r.left + 1 ==> fb[i] == if Above(pl, r, row + 1, i) then Wanted(src, pl, r, i) else old(fb[i])
      {
        assert before[i] == if Above(pl, r, row, i) then Wanted(src, pl, r, i) else old(fb[i]);
      }
      if n < r.right - r.left + 1 { return false, Stop(row, n); }
      row := row + 1;
    }
    return true, Stop(r.bottom + 1, 0);
  }

  lemma FittingRoomy(p: Plot, pl: Place, r: Rect, size: int)
    requires Fitting(p, pl, size) && Drawn(p, r)
    ensures Roomy(pl, r.right + 1)
  {
    Distribute(p.screenW, r.right + 1, Width(pl.to));
    Product(p.screenW - r.right - 1, Width(pl.to));
    Distribute(p.screenW, 1, Width(pl.to));
    Product(p.screenW - 1, Width(pl.to));
  }

  /**
   blit_sprite(). On success every byte of a covered pixel is that of the sprite pixel converted, every other
   byte is as before, and every byte that changed is in a page marked dirty. A plot that fails has been drawn, row
   by row, up to the first pixel that cannot be read, and no page is marked.
   */
  method BlitSprite(fb: array<Byte>, hostBase: nat, src: Source, plot: Plot, at: Position, pl: Place)
    returns (ok: bool, pixels: int, dirty: set<int>, stop: Stop)
    requires OnScreen(plot) && 0 < plot.screenW && pl.stride > 0 && plot.screenW * Width(pl.to) <= pl.stride
    modifies fb
    ensures ok ==> CanConvert(pl.from, pl.to) && Width(pl.to) > 0
    ensures ok ==> forall i :: 0 <= i < fb.Length ==>
      fb[i] == if CoveredAt(plot, at, Column(pl, i), Row(pl, i)) then Wanted(src, pl, PlotRect(Placed(plot, at)), i) else old(fb[i])
    ensures ok ==> forall i :: 0 <= i < fb.Length && fb[i] != old(fb[i]) ==> i / PAGE in dirty
    ensures !ok ==> dirty == {}
    ensures !ok && Accepts(hostBase, plot, pl, fb.Length) ==> StoppedAt(src, pl, PlotRect(Placed(plot, at)), stop)
    ensures !ok && Accepts(hostBase, plot, pl, fb.Length) ==> forall i :: 0 <= i < fb.Length ==>
      fb[i] == if Reached(pl, PlotRect(Placed(plot, at)), stop, i) then Wanted(src, pl, PlotRect(Placed(plot, at)), i) else old(fb[i])
    ensures !Accepts(hostBase, plot, pl, fb.Length) ==> !ok && fb[..] == old(fb[..])
  {
    hide Row; hide Column; hide Within; hide Wanted; hide PlotRect; hide InRect; hide Covered; hide CoveredAt; hide Pixels; hide Reached; hide StoppedAt;
    pixels, dirty, stop := 0, {}, Stop(0, 0);
    if Width(pl.from) == 0 || Width(pl.to) == 0 || !CanConvert(pl.from, pl.to) { return false, 0, {}, stop; }
    if pl.offset + pl.stride * plot.screenH > fb.Length { return false, 0, {}, stop; }
    if (hostBase + pl.offset) % Width(pl.to) != 0 || pl.stride % Width(pl.to) != 0 { return false, 0, {}, stop; }
    var p := Placed(plot, at);
    var r := PlotRect(p);
    PlotRectExact(p);
    forall x, y ensures InRect(r, x, y) <==> CoveredAt(plot, at, x, y) {
      PlacedExact(plot, at, x, y);
    }
    if !Drawn(p, r) { return true, 0, {}, stop; }
    ok, stop := BlitRows(fb, src, p, pl, r);
    if !ok { return false, 0, {}, stop; }
    forall i | 0 <= i < fb.Length ensures Reached(pl, r, stop, i) <==> InRect(r, Column(pl, i), Row(pl, i)) {
      AllReached(pl, r, i);
    }
    dirty := MarkRowsDirty(pl, r.top, r.bottom);
    forall i | 0 <= i < fb.Length && fb[i] != old(fb[i]) ensures i / PAGE in dirty {
      InRectRows(r, Column(pl, i), Row(pl, i));
      if r.top <= Row(pl, i) <= r.bottom {
        RowBounds(pl, i, r.top, r.bottom);
        RowsTouch(pl, r.top, r.bottom, i);
      }
    }
    pixels := (r.right - r.left + 1) * (r.bottom - r.top + 1);
  }

  /** The plot is one this code draws: formats it converts, inside the framebuffer, whole pixels. */
  predicate Accepts(hostBase: nat, p: Plot, pl: Place, size: nat) {
    && Width(pl.from) != 0 && Width(pl.to) != 0 && CanConvert(pl.from, pl.to)
    && pl.offset + pl.stride * p.screenH <= size
    && (hostBase + pl.offset) % Width(pl.to) == 0 && pl.stride % Width(pl.to) == 0
  }

  lemma AllReached(pl: Place, r: Rect, i: int)
    requires pl.stride > 0 && Width(pl.to) > 0
    ensures Reached(pl, r, Stop(r.bottom + 1, 0), i) <==> InRect(r, Column(pl, i), Row(pl, i))
  {
    hide Row; hide Column;
  }

  lemma InRectRows(r: Rect, x: int, y: int)
    ensures InRect(r, x, y) ==> r.top <= y <= r.bottom
  {
  }
}
