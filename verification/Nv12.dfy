/** Software presentation of NV12 pictures: the one-to-one fast path, the scaler, and where they draw. */
module Nv12 {
  import opened Prelude

  // ---- one pixel ----

  // BT.709 limited-range coefficients in 16.16 fixed point.
  const Y_SCALE := 76_309
  const R_CR := 117_489
  const G_CB := 13_975
  const G_CR := 34_925
  const B_CB := 138_438
  const HALF := 32_768

  /** A 16.16 value, half already added, as a colour level; the shift rounds down. */
  function Level(x: int): u8 {
    Max(0, Min(255, x / 0x1_0000))
  }

  // The 16.16 values of the three channels, half included.
  function RedSum(luma: u8, cr: u8): int { (luma - 16) * Y_SCALE + R_CR * (cr - 128) + HALF }
  function BlueSum(luma: u8, cb: u8): int { (luma - 16) * Y_SCALE + B_CB * (cb - 128) + HALF }

  function GreenSum(luma: u8, cb: u8, cr: u8): int {
    (luma - 16) * Y_SCALE - G_CB * (cb - 128) - G_CR * (cr - 128) + HALF
  }

  function Red(luma: u8, cr: u8): u8 { Level(RedSum(luma, cr)) }
  function Green(luma: u8, cb: u8, cr: u8): u8 { Level(GreenSum(luma, cb, cr)) }
  function Blue(luma: u8, cb: u8): u8 { Level(BlueSum(luma, cb)) }

  /** The opaque word a surface shows: alpha, red, green, blue, highest byte first. */
  function Word(r: u8, g: u8, b: u8): u32 {
    0xFF00_0000 + r * 0x1_0000 + g * 0x100 + b
  }

  lemma {:induction false} WordIsLit(r: u8, g: u8, b: u8)
    ensures Word(r, g, b) % 0x100_0000 != 0 <==> r > 0 || g > 0 || b > 0
  {
  }

  function Pixel(luma: u8, cb: u8, cr: u8): u32 {
    Word(Red(luma, cr), Green(luma, cb, cr), Blue(luma, cb))
  }

  predicate IsI32(x: int) { -0x8000_0000 <= x < 0x8000_0000 }

  /** No intermediate value leaves 32-bit range, whether the chroma terms are added one by one or first. */
  lemma {:induction false} FitsThirtyTwoBits(luma: u8, cb: u8, cr: u8)
    ensures IsI32(RedSum(luma, cr)) && IsI32(GreenSum(luma, cb, cr)) && IsI32(BlueSum(luma, cb))
    ensures var (y, b, r) := ((luma - 16) * Y_SCALE, cb - 128, cr - 128);
            && IsI32(y) && IsI32(R_CR * r) && IsI32(G_CB * b) && IsI32(G_CR * r) && IsI32(B_CB * b)
            && IsI32(y + R_CR * r) && IsI32(y - G_CB * b) && IsI32(y - G_CB * b - G_CR * r) && IsI32(y + B_CB * b)
            && IsI32(R_CR * r + HALF) && IsI32(-G_CB * b) && IsI32(-G_CB * b - G_CR * r)
            && IsI32(-G_CB * b - G_CR * r + HALF) && IsI32(B_CB * b + HALF)
  {
  }

  method ToBgra(luma: u8, cb: u8, cr: u8) returns (out: u32, lit: bool)
    ensures out == Pixel(luma, cb, cr)
    ensures lit <==> Red(luma, cr) > 0 || Green(luma, cb, cr) > 0 || Blue(luma, cb) > 0
  {
    var y := (luma - 16) * Y_SCALE;
    var b := cb - 128;
    var r := cr - 128;
    var red := Level(y + R_CR * r + HALF);
    var green := Level(y - G_CB * b - G_CR * r + HALF);
    var blue := Level(y + B_CB * b + HALF);
    assert y + R_CR * r + HALF == RedSum(luma, cr);
    assert y - G_CB * b - G_CR * r + HALF == GreenSum(luma, cb, cr);
    assert y + B_CB * b + HALF == BlueSum(luma, cb);
    WordIsLit(red, green, blue);
    out := Word(red, green, blue);
    lit := out % 0x100_0000 != 0;
  }

  /** A pixel from its luma and the three chroma terms its pair shares. */
  function WithTerms(luma: u8, rTerm: int, gTerm: int, bTerm: int): u32 {
    var y := (luma - 16) * Y_SCALE;
    Word(Level(y + rTerm), Level(y + gTerm), Level(y + bTerm))
  }

  lemma {:induction false} SharedTerms(luma: u8, cb: u8, cr: u8)
    ensures WithTerms(luma, R_CR * (cr - 128) + HALF, -G_CB * (cb - 128) - G_CR * (cr - 128) + HALF,
                      B_CB * (cb - 128) + HALF)
            == Pixel(luma, cb, cr)
  {
    var y := (luma - 16) * Y_SCALE;
    assert y + (R_CR * (cr - 128) + HALF) == RedSum(luma, cr);
    assert y + (-G_CB * (cb - 128) - G_CR * (cr - 128) + HALF) == GreenSum(luma, cb, cr);
    assert y + (B_CB * (cb - 128) + HALF) == BlueSum(luma, cb);
  }

  /** Two neighbours sharing one chroma sample, whose chroma terms are computed once. */
  method PairToBgra(luma0: u8, luma1: u8, cb: u8, cr: u8) returns (out0: u32, out1: u32)
    ensures out0 == Pixel(luma0, cb, cr) && out1 == Pixel(luma1, cb, cr)
  {
    SharedTerms(luma0, cb, cr);
    SharedTerms(luma1, cb, cr);
    var rTerm := R_CR * (cr - 128) + HALF;
    var gTerm := -G_CB * (cb - 128) - G_CR * (cr - 128) + HALF;
    var bTerm := B_CB * (cb - 128) + HALF;
    out0 := WithTerms(luma0, rTerm, gTerm, bTerm);
    out1 := WithTerms(luma1, rTerm, gTerm, bTerm);
  }

  // ---- against the standard ----

  /** The analogue components of a limited-range sample (section 3 of ITU-R BT.709-6). */
  function LumaOf(luma: u8): real { (luma - 16) as real / 219.0 }
  function ChromaOf(c: u8): real { (c - 128) as real / 224.0 }

  function ExactRed(luma: u8, cr: u8): real { LumaOf(luma) + 1.5748 * ChromaOf(cr) }
  function ExactBlue(luma: u8, cb: u8): real { LumaOf(luma) + 1.8556 * ChromaOf(cb) }

  function ExactGreen(luma: u8, cb: u8, cr: u8): real {
    (LumaOf(luma) - 0.2126 * ExactRed(luma, cr) - 0.0722 * ExactBlue(luma, cb)) / 0.7152
  }

  /** These are the colour signals from which the standard forms luma and the two differences. */
  lemma {:induction false} ExactInvertsStandard(luma: u8, cb: u8, cr: u8)
    ensures var (r, g, b) := (ExactRed(luma, cr), ExactGreen(luma, cb, cr), ExactBlue(luma, cb));
            var y := 0.2126 * r + 0.7152 * g + 0.0722 * b;
            && y == LumaOf(luma)
            && (b - y) / 1.8556 == ChromaOf(cb)
            && (r - y) / 1.5748 == ChromaOf(cr)
  {
  }

  /** A colour signal as an eight-bit level, before rounding. */
  function Shown(signal: real): real {
    var x := 255.0 * signal;
    if x < 0.0 then 0.0 else if x > 255.0 then 255.0 else x
  }

  predicate Near(level: u8, exact: real) {
    exact - 0.51 <= level as real <= exact + 0.51
  }

  /** Rounding to a level loses at most half of one, on top of the error in the 16.16 value. */
  lemma {:induction false} LevelIsNear(x: int, signal: real)
    requires -0.01 <= x as real / 65536.0 - 255.0 * signal <= 0.01
    ensures Near(Level(x + HALF), Shown(signal))
  {
    var n := (x + HALF) / 0x1_0000;
    assert n * 0x1_0000 <= x + HALF < (n + 1) * 0x1_0000;
    assert n as real <= (x + HALF) as real / 65536.0 < n as real + 1.0;
  }

  /** Every channel is the standard's to within half a level and the error of the coefficients. */
  lemma {:induction false} ChannelsAreNear(luma: u8, cb: u8, cr: u8)
    ensures Near(Red(luma, cr), Shown(ExactRed(luma, cr)))
    ensures Near(Green(luma, cb, cr), Shown(ExactGreen(luma, cb, cr)))
    ensures Near(Blue(luma, cb), Shown(ExactBlue(luma, cb)))
  {
    RedIsNear(luma, cr);
    GreenIsNear(luma, cb, cr);
    BlueIsNear(luma, cb);
  }

  lemma {:induction false} RedIsNear(luma: u8, cr: u8)
    ensures Near(Red(luma, cr), Shown(ExactRed(luma, cr)))
  {
    RedError(luma - 16, cr - 128);
    LevelIsNear(RedSum(luma, cr) - HALF, ExactRed(luma, cr));
  }

  lemma {:induction false} GreenIsNear(luma: u8, cb: u8, cr: u8)
    ensures Near(Green(luma, cb, cr), Shown(ExactGreen(luma, cb, cr)))
  {
    GreenError(luma - 16, cb - 128, cr - 128);
    LevelIsNear(GreenSum(luma, cb, cr) - HALF, ExactGreen(luma, cb, cr));
  }

  lemma {:induction false} BlueIsNear(luma: u8, cb: u8)
    ensures Near(Blue(luma, cb), Shown(ExactBlue(luma, cb)))
  {
    BlueError(luma - 16, cb - 128);
    LevelIsNear(BlueSum(luma, cb) - HALF, ExactBlue(luma, cb));
  }

  lemma {:induction false} RedError(y: int, r: int)
    requires -16 <= y <= 239 && -128 <= r <= 127
    ensures -0.01 <= (y * Y_SCALE + R_CR * r) as real / 65536.0
                     - 255.0 * (y as real / 219.0 + 1.5748 * (r as real / 224.0)) <= 0.01
  {
    assert (y * Y_SCALE + R_CR * r) as real == 76309.0 * y as real + 117489.0 * r as real;
  }

  lemma {:induction false} BlueError(y: int, b: int)
    requires -16 <= y <= 239 && -128 <= b <= 127
    ensures -0.01 <= (y * Y_SCALE + B_CB * b) as real / 65536.0
                     - 255.0 * (y as real / 219.0 + 1.8556 * (b as real / 224.0)) <= 0.01
  {
    assert (y * Y_SCALE + B_CB * b) as real == 76309.0 * y as real + 138438.0 * b as real;
  }

  lemma {:induction false} GreenError(y: int, b: int, r: int)
    requires -16 <= y <= 239 && -128 <= b <= 127 && -128 <= r <= 127
    ensures var l := y as real / 219.0;
            var (red, blue) := (l + 1.5748 * (r as real / 224.0), l + 1.8556 * (b as real / 224.0));
            -0.01 <= (y * Y_SCALE - G_CB * b - G_CR * r) as real / 65536.0
                     - 255.0 * ((l - 0.2126 * red - 0.0722 * blue) / 0.7152) <= 0.01
  {
    assert (y * Y_SCALE - G_CB * b - G_CR * r) as real
           == 76309.0 * y as real - 13975.0 * b as real - 34925.0 * r as real;
  }

  /** The word a surface shows is opaque, and its red, green and blue bytes, high to low, are near the exact signals. */
  lemma {:induction false} PixelIsNear(luma: u8, cb: u8, cr: u8)
    ensures var word := Pixel(luma, cb, cr);
            && word / 0x100_0000 == 0xFF
            && Near(word / 0x1_0000 % 0x100, Shown(ExactRed(luma, cr)))
            && Near(word / 0x100 % 0x100, Shown(ExactGreen(luma, cb, cr)))
            && Near(word % 0x100, Shown(ExactBlue(luma, cb)))
  {
    ChannelsAreNear(luma, cb, cr);
    WordBytes(Red(luma, cr), Green(luma, cb, cr), Blue(luma, cb));
  }

  lemma {:induction false} WordBytes(r: u8, g: u8, b: u8)
    ensures var word := Word(r, g, b);
            word / 0x100_0000 == 0xFF && word / 0x1_0000 % 0x100 == r && word / 0x100 % 0x100 == g && word % 0x100 == b
  {
    var word := Word(r, g, b);
    assert word / 0x100 == 0xFF_0000 + r * 0x100 + g;
    assert word / 0x1_0000 == 0xFF00 + r;
  }

  // ---- frames and rectangles ----

  /** The size of `rows` rows of `width`, one row after another. */
  function Rows(rows: nat, width: nat): nat {
    if rows == 0 then 0 else Rows(rows - 1, width) + width
  }

  lemma {:induction false} RowsAreProduct(rows: nat, width: nat)
    ensures Rows(rows, width) == rows * width
  {
    if rows > 0 { RowsAreProduct(rows - 1, width); }
  }

  lemma {:induction false} RowsGrow(a: nat, b: nat, width: nat)
    requires a <= b
    ensures Rows(a, width) <= Rows(b, width)
  {
    if a < b { RowsGrow(a, b - 1, width); }
  }

  /** A full-resolution luma plane, and a chroma plane at half of it with rows padded to whole pairs. */
  datatype Frame = Frame(y: Bytes, uv: Bytes, uvWidth: nat, w: nat, h: nat)

  predicate FrameOk(f: Frame) {
    && |f.y| == Rows(f.h, f.w)
    && f.uvWidth == (f.w + 1) / 2 * 2
    && |f.uv| == Rows((f.h + 1) / 2, f.uvWidth)
  }

  /** Where column `col` of row `row` is in rows of `width`. */
  function At(row: nat, width: nat, col: nat): nat {
    Rows(row, width) + col
  }

  lemma {:induction false} AtInside(row: nat, rows: nat, width: nat, col: nat)
    requires row < rows && col < width
    ensures At(row, width, col) < Rows(rows, width)
  {
    RowsGrow(row + 1, rows, width);
  }

  /** The chroma pair of a pixel: its row and column halved, two bytes to a sample. */
  function UvAt(f: Frame, row: nat, col: nat): nat {
    At(row / 2, f.uvWidth, col / 2 * 2)
  }

  lemma {:induction false} Readable(f: Frame, row: nat, col: nat)
    requires FrameOk(f) && row < f.h && col < f.w
    ensures At(row, f.w, col) < |f.y| && UvAt(f, row, col) + 1 < |f.uv|
  {
    AtInside(row, f.h, f.w, col);
    AtInside(row / 2, (f.h + 1) / 2, f.uvWidth, col / 2 * 2 + 1);
  }

  /** The reference: each pixel from its own luma and its chroma pair. */
  function Colour(f: Frame, row: nat, col: nat): u32
    requires FrameOk(f) && row < f.h && col < f.w
  {
    Readable(f, row, col);
    Pixel(f.y[At(row, f.w, col)], f.uv[UvAt(f, row, col)], f.uv[UvAt(f, row, col) + 1])
  }

  datatype Rect = Rect(x: nat, y: nat, w: nat, h: nat)

  /** Nearest neighbour: position `i` of `m` as a position of `n`. */
  function Scaled(i: nat, n: nat, m: nat): (r: nat)
    requires i < m
    ensures n > 0 ==> r < n
    ensures n == m ==> r == i
  {
    ScaledInside(i, n, m);
    i * n / m
  }

  lemma {:induction false} Quotient(a: nat, m: nat)
    requires m > 0
    ensures 0 <= a / m && a / m * m <= a < (a / m + 1) * m
  {
  }

  lemma {:induction false} ScaledIsLess(i: nat, n: nat, m: nat, q: nat)
    requires i < m && n > 0 && q * m <= i * n
    ensures q < n
  {
    Multiply(n, q, m);
    Multiply(i, m, n);
  }

  lemma {:induction false} ScaledIsSame(i: nat, m: nat, q: nat)
    requires i < m && q * m <= i * m < (q + 1) * m
    ensures q == i
  {
    Multiply(q, i, m);
    Multiply(i, q, m);
  }

  lemma {:induction false} ScaledInside(i: nat, n: nat, m: nat)
    requires i < m
    ensures 0 <= i * n / m
    ensures n > 0 ==> i * n / m < n
    ensures n == m ==> i * n / m == i
  {
    var a: nat := i * n;
    Quotient(a, m);
    var q: nat := a / m;
    if n > 0 { ScaledIsLess(i, n, m, q); }
    if n == m { ScaledIsSame(i, m, q); }
  }

  /** Row `r` of a rectangle, as the scaler paints it. */
  function RowColours(f: Frame, rect: Rect, r: nat): (s: seq<u32>)
    requires FrameOk(f) && f.w > 0 && f.h > 0 && r < rect.h
    ensures |s| == rect.w
  {
    seq(rect.w, c requires 0 <= c < rect.w => Colour(f, Scaled(r, f.h, rect.h), Scaled(c, f.w, rect.w)))
  }

  /** Where row `r` of a rectangle begins, in a target `tw` wide. */
  function Base(tw: nat, rect: Rect, r: nat): nat {
    At(rect.y + r, tw, rect.x)
  }

  predicate Within(rect: Rect, tw: nat, th: nat) {
    rect.x + rect.w <= tw && rect.y + rect.h <= th
  }

  lemma {:induction false} RowInside(tw: nat, th: nat, rect: Rect, r: nat)
    requires Within(rect, tw, th) && r < rect.h
    ensures Base(tw, rect, r) + rect.w <= Rows(th, tw)
  {
    RowsGrow(rect.y + r + 1, th, tw);
  }

  lemma {:induction false} RowsApart(tw: nat, rect: Rect, r: nat, s: nat)
    requires rect.x + rect.w <= tw && r < s
    ensures Base(tw, rect, r) + rect.w <= Base(tw, rect, s)
  {
    RowsGrow(rect.y + r + 1, rect.y + s, tw);
  }

  predicate OnRow(tw: nat, rect: Rect, r: nat, k: nat) {
    Base(tw, rect, r) <= k < Base(tw, rect, r) + rect.w
  }

  /** Index `k` of the target is in one of the rectangle's first `rows` rows. */
  ghost predicate Covered(tw: nat, rect: Rect, rows: nat, k: nat) {
    exists r: nat :: r < rows && OnRow(tw, rect, r, k)
  }

  predicate RowPainted(f: Frame, tw: nat, rect: Rect, now: seq<u32>, r: nat)
    requires FrameOk(f) && f.w > 0 && f.h > 0 && r < rect.h
  {
    && Base(tw, rect, r) + rect.w <= |now|
    && now[Base(tw, rect, r)..Base(tw, rect, r) + rect.w] == RowColours(f, rect, r)
  }

  /** The rectangle's first `rows` rows hold the frame, and nothing else changed. */
  ghost predicate Painted(f: Frame, tw: nat, rect: Rect, rows: nat, was: seq<u32>, now: seq<u32>)
    requires FrameOk(f) && f.w > 0 && f.h > 0 && rows <= rect.h
  {
    && |now| == |was|
    && (forall r: nat :: r < rows ==> RowPainted(f, tw, rect, now, r))
    && forall k: nat :: k < |was| && !Covered(tw, rect, rows, k) ==> now[k] == was[k]
  }

  lemma {:induction false} PaintedAt(f: Frame, tw: nat, rect: Rect, r: nat, now: seq<u32>, k: nat)
    requires FrameOk(f) && f.w > 0 && f.h > 0 && r < rect.h
    requires RowPainted(f, tw, rect, now, r) && OnRow(tw, rect, r, k)
    ensures k < |now| && now[k] == RowColours(f, rect, r)[k - Base(tw, rect, r)]
  {
    var b := Base(tw, rect, r);
    assert now[b..b + rect.w][k - b] == now[k];
  }

  /** What is painted over a target is fixed by the frame and the rectangle. */
  lemma {:induction false} PaintIsUnique(f: Frame, tw: nat, rect: Rect, was: seq<u32>, a: seq<u32>, b: seq<u32>)
    requires FrameOk(f) && f.w > 0 && f.h > 0
    requires Painted(f, tw, rect, rect.h, was, a) && Painted(f, tw, rect, rect.h, was, b)
    ensures a == b
  {
    forall k: nat | k < |was|
      ensures a[k] == b[k]
    {
      if Covered(tw, rect, rect.h, k) {
        var r: nat :| r < rect.h && OnRow(tw, rect, r, k);
        PaintedAt(f, tw, rect, r, a, k);
        PaintedAt(f, tw, rect, r, b, k);
      }
    }
  }

  /** Position `i` of `m` lies in the `p`-th of `n` equal parts. */
  predicate InPart(i: nat, m: nat, p: nat, n: nat) {
    p < n && p * m <= i * n < (p + 1) * m
  }

  lemma {:induction false} ScaledIsInPart(i: nat, n: nat, m: nat)
    requires i < m && n > 0
    ensures InPart(i, m, Scaled(i, n, m), n)
  {
    Quotient(i * n, m);
  }

  /** What the frame holds at a pixel, its luma and the chroma of its two-by-two block, by position in the planes. */
  predicate ShowsPixel(f: Frame, row: nat, col: nat, word: u32) {
    ShowsAt(f, row * f.w + col, row / 2 * f.uvWidth + col / 2 * 2, word)
  }

  /** The word is the colour of a luma byte and the two chroma bytes at and after `uv`. */
  predicate ShowsAt(f: Frame, y: nat, uv: nat, word: u32) {
    y < |f.y| && uv + 1 < |f.uv| && word == Pixel(f.y[y], f.uv[uv], f.uv[uv + 1])
  }

  lemma {:induction false} ColourShows(f: Frame, row: nat, col: nat)
    requires FrameOk(f) && row < f.h && col < f.w
    ensures ShowsPixel(f, row, col, Colour(f, row, col))
  {
    Readable(f, row, col);
    RowsAreProduct(row, f.w);
    RowsAreProduct(row / 2, f.uvWidth);
  }

  /**
   * The pixel at `(r, c)` of the rectangle shows the source pixel whose row and column lie as far down and
   * across the frame as it does the rectangle.
   */
  lemma {:induction false} ScalerShows(f: Frame, tw: nat, rect: Rect, was: seq<u32>, now: seq<u32>, r: nat, c: nat)
    returns (row: nat, col: nat)
    requires FrameOk(f) && f.w > 0 && f.h > 0 && r < rect.h && c < rect.w
    requires Painted(f, tw, rect, rect.h, was, now)
    ensures InPart(r, rect.h, row, f.h) && InPart(c, rect.w, col, f.w)
    ensures (rect.y + r) * tw + rect.x + c < |now|
    ensures ShowsPixel(f, row, col, now[(rect.y + r) * tw + rect.x + c])
  {
    row, col := ScalerAt(f, tw, rect, was, now, r, c);
    BaseIs(tw, rect, r, c);
  }

  lemma {:induction false} BaseIs(tw: nat, rect: Rect, r: nat, c: nat)
    ensures Base(tw, rect, r) + c == (rect.y + r) * tw + rect.x + c
  {
    RowsAreProduct(rect.y + r, tw);
  }

  lemma {:induction false} ScalerAt(f: Frame, tw: nat, rect: Rect, was: seq<u32>, now: seq<u32>, r: nat, c: nat)
    returns (row: nat, col: nat)
    requires FrameOk(f) && f.w > 0 && f.h > 0 && r < rect.h && c < rect.w
    requires Painted(f, tw, rect, rect.h, was, now)
    ensures InPart(r, rect.h, row, f.h) && InPart(c, rect.w, col, f.w)
    ensures Base(tw, rect, r) + c < |now| && ShowsPixel(f, row, col, now[Base(tw, rect, r) + c])
  {
    row, col := Scaled(r, f.h, rect.h), Scaled(c, f.w, rect.w);
    ScaledIsInPart(r, f.h, rect.h);
    ScaledIsInPart(c, f.w, rect.w);
    assert RowPainted(f, tw, rect, now, r);
    PaintedAt(f, tw, rect, r, now, Base(tw, rect, r) + c);
    ColourShows(f, row, col);
  }

  /** One more row painted, off to the side of the rows before it. */
  lemma {:induction false} PaintRow(f: Frame, tw: nat, rect: Rect, r: nat, was: seq<u32>, before: seq<u32>,
                                    now: seq<u32>)
    requires FrameOk(f) && f.w > 0 && f.h > 0 && rect.x + rect.w <= tw && r < rect.h
    requires Painted(f, tw, rect, r, was, before) && RowPainted(f, tw, rect, now, r)
    requires |now| == |before| && forall k: nat :: k < |now| && !OnRow(tw, rect, r, k) ==> now[k] == before[k]
    ensures Painted(f, tw, rect, r + 1, was, now)
  {
    forall q: nat | q < r
      ensures RowPainted(f, tw, rect, now, q)
    {
      assert RowPainted(f, tw, rect, before, q);
      RowsApart(tw, rect, q, r);
      var b := Base(tw, rect, q);
      assert now[b..b + rect.w] == before[b..b + rect.w];
    }
    forall k: nat | k < |was| && !Covered(tw, rect, r + 1, k)
      ensures now[k] == was[k]
    {
      assert !OnRow(tw, rect, r, k);
      assert !Covered(tw, rect, r, k);
    }
  }

  /** The first `n` of `line` are written over `was` from `base` on. */
  predicate Written(line: seq<u32>, base: nat, n: nat, was: seq<u32>, now: seq<u32>) {
    n <= |line| && base + |line| <= |was| && now == was[..base] + line[..n] + was[base + n..]
  }

  lemma {:induction false} WritesOne(line: seq<u32>, base: nat, n: nat, was: seq<u32>, now: seq<u32>)
    requires Written(line, base, n, was, now) && n < |line|
    ensures Written(line, base, n + 1, was, now[base + n := line[n]])
  {
    assert was[base + n..] == [was[base + n]] + was[base + n + 1..];
    assert line[..n + 1] == line[..n] + [line[n]];
  }

  lemma {:induction false} WrittenAll(line: seq<u32>, base: nat, was: seq<u32>, now: seq<u32>)
    requires Written(line, base, |line|, was, now)
    ensures |now| == |was| && now[base..base + |line|] == line
    ensures forall k: nat :: k < |was| && !(base <= k < base + |line|) ==> now[k] == was[k]
  {
  }

  // ---- the scaler ----

  /** One pixel read from the two planes. */
  method ReadPixel(f: Frame, row: nat, col: nat, yRowBase: nat, uvRowBase: nat) returns (out: u32)
    requires FrameOk(f) && row < f.h && col < f.w
    requires yRowBase == At(row, f.w, 0) && uvRowBase == At(row / 2, f.uvWidth, 0)
    ensures out == Colour(f, row, col)
  {
    var uvOffset := uvRowBase + col / 2 * 2;
    ColourAt(f, row, col, yRowBase + col, uvOffset);
    var lit: bool;
    out, lit := ToBgra(f.y[yRowBase + col], f.uv[uvOffset], f.uv[uvOffset + 1]);
  }

  method ScaleRow(f: Frame, dest: array<u32>, base: nat, rect: Rect, row: nat)
    requires FrameOk(f) && f.w > 0 && f.h > 0 && row < rect.h && base + rect.w <= dest.Length
    modifies dest
    ensures Written(RowColours(f, rect, row), base, rect.w, old(dest[..]), dest[..])
  {
    var srcRow := Scaled(row, f.h, rect.h);
    var uvRowBase := At(srcRow / 2, f.uvWidth, 0);
    var yRowBase := At(srcRow, f.w, 0);
    ghost var line, was := RowColours(f, rect, row), dest[..];
    for col := 0 to rect.w
      invariant Written(line, base, col, was, dest[..])
    {
      var srcCol := Scaled(col, f.w, rect.w);
      var out := ReadPixel(f, srcRow, srcCol, yRowBase, uvRowBase);
      WriteOne(dest, base, col, out, line, was);
    }
  }

  /** Draws `f` scaled into `rect` of a target `tw` wide, and nowhere else. */
  method ScaleNv12(f: Frame, dest: array<u32>, tw: nat, th: nat, rect: Rect)
    requires FrameOk(f) && f.w > 0 && f.h > 0 && Within(rect, tw, th) && Rows(th, tw) <= dest.Length
    modifies dest
    ensures Painted(f, tw, rect, rect.h, old(dest[..]), dest[..])
  {
    ghost var was := dest[..];
    for row := 0 to rect.h
      invariant Painted(f, tw, rect, row, was, dest[..])
    {
      RowInside(tw, th, rect, row);
      ghost var before := dest[..];
      var base := Base(tw, rect, row);
      ScaleRow(f, dest, base, rect, row);
      WrittenAll(RowColours(f, rect, row), base, before, dest[..]);
      PaintRow(f, tw, rect, row, was, before, dest[..]);
    }
  }

  // ---- the fast path ----

  function Whole(f: Frame): Rect { Rect(0, 0, f.w, f.h) }

  lemma {:induction false} WholeRow(f: Frame, row: nat, col: nat)
    requires FrameOk(f) && row < f.h && col < f.w
    ensures RowColours(f, Whole(f), row)[col] == Colour(f, row, col)
    ensures Base(f.w, Whole(f), row) == At(row, f.w, 0)
  {
  }

  /** Where a pair of pixels and their shared chroma lie. */
  lemma {:induction false} PairLies(f: Frame, row: nat, col: nat, base: nat, uvRowBase: nat, pairs: nat)
    requires FrameOk(f) && row < f.h && col + 1 < f.w && col == 2 * pairs
    requires base == At(row, f.w, 0) && uvRowBase == At(row / 2, f.uvWidth, 0)
    ensures base + col + 1 < |f.y| && uvRowBase + col + 1 < |f.uv|
    ensures At(row, f.w, col) == base + col && At(row, f.w, col + 1) == base + col + 1
    ensures UvAt(f, row, col) == uvRowBase + col && UvAt(f, row, col + 1) == uvRowBase + col
  {
    Readable(f, row, col);
    Readable(f, row, col + 1);
    assert (col + 1) / 2 * 2 == col;
  }

  lemma {:induction false} ColourAt(f: Frame, row: nat, col: nat, i: nat, j: nat)
    requires FrameOk(f) && row < f.h && col < f.w && i == At(row, f.w, col) && j == UvAt(f, row, col)
    ensures i < |f.y| && j + 1 < |f.uv| && Colour(f, row, col) == Pixel(f.y[i], f.uv[j], f.uv[j + 1])
  {
    Readable(f, row, col);
  }

  method ConvertPair(f: Frame, row: nat, col: nat, base: nat, uvRowBase: nat, ghost pairs: nat)
    returns (out0: u32, out1: u32)
    requires FrameOk(f) && row < f.h && col + 1 < f.w && col == 2 * pairs
    requires base == At(row, f.w, 0) && uvRowBase == At(row / 2, f.uvWidth, 0)
    ensures out0 == Colour(f, row, col) && out1 == Colour(f, row, col + 1)
  {
    PairLies(f, row, col, base, uvRowBase, pairs);
    var uvOffset := uvRowBase + col;
    ColourAt(f, row, col, base + col, uvOffset);
    ColourAt(f, row, col + 1, base + col + 1, uvOffset);
    out0, out1 := PairToBgra(f.y[base + col], f.y[base + col + 1], f.uv[uvOffset], f.uv[uvOffset + 1]);
  }

  /** Row `row` of the frame, pixel for pixel. */
  function Line(f: Frame, row: nat): (s: seq<u32>)
    requires FrameOk(f) && row < f.h
    ensures |s| == f.w
  {
    seq(f.w, c requires 0 <= c < f.w => Colour(f, row, c))
  }

  /** Puts two pixels of `line` where they belong. */
  method WritePair(dest: array<u32>, base: nat, col: nat, out0: u32, out1: u32, ghost line: seq<u32>,
                   ghost was: seq<u32>)
    requires Written(line, base, col, was, dest[..]) && col + 1 < |line|
    requires out0 == line[col] && out1 == line[col + 1]
    modifies dest
    ensures Written(line, base, col + 2, was, dest[..])
  {
    WritesOne(line, base, col, was, dest[..]);
    dest[base + col] := out0;
    WritesOne(line, base, col + 1, was, dest[..]);
    dest[base + col + 1] := out1;
  }

  /** Puts one pixel of `line` where it belongs. */
  method WriteOne(dest: array<u32>, base: nat, col: nat, out: u32, ghost line: seq<u32>, ghost was: seq<u32>)
    requires Written(line, base, col, was, dest[..]) && col < |line| && out == line[col]
    modifies dest
    ensures Written(line, base, col + 1, was, dest[..])
  {
    WritesOne(line, base, col, was, dest[..]);
    dest[base + col] := out;
  }

  method ConvertRow(f: Frame, dest: array<u32>, row: nat, base: nat)
    requires FrameOk(f) && row < f.h && base == At(row, f.w, 0) && base + f.w <= dest.Length
    modifies dest
    ensures Written(Line(f, row), base, f.w, old(dest[..]), dest[..])
  {
    var uvRowBase := At(row / 2, f.uvWidth, 0);
    ghost var line, was := Line(f, row), dest[..];
    var col := 0;
    ghost var pairs := 0;
    while col + 2 <= f.w
      invariant col == 2 * pairs <= f.w
      invariant Written(line, base, col, was, dest[..])
    {
      var out0, out1 := ConvertPair(f, row, col, base, uvRowBase, pairs);
      WritePair(dest, base, col, out0, out1, line, was);
      col := col + 2;
      pairs := pairs + 1;
    }
    if col < f.w {
      var out := ReadPixel(f, row, col, base, uvRowBase);
      WriteOne(dest, base, col, out, line, was);
    }
  }

  /** Converts the whole frame pixel for pixel: what the scaler does on the frame's own rectangle. */
  method ConvertOneToOne(f: Frame, dest: array<u32>)
    requires FrameOk(f) && f.w > 0 && f.h > 0 && Rows(f.h, f.w) <= dest.Length
    modifies dest
    ensures Painted(f, f.w, Whole(f), f.h, old(dest[..]), dest[..])
  {
    ghost var was := dest[..];
    for row := 0 to f.h
      invariant Painted(f, f.w, Whole(f), row, was, dest[..])
    {
      RowInside(f.w, f.h, Whole(f), row);
      ghost var before := dest[..];
      var base := At(row, f.w, 0);
      ConvertRow(f, dest, row, base);
      WrittenAll(Line(f, row), base, before, dest[..]);
      RowIsWhole(f, row);
      PaintRow(f, f.w, Whole(f), row, was, before, dest[..]);
    }
  }

  /** Pixel for pixel, the reference. */
  lemma {:induction false} OneToOneIsReference(f: Frame, was: seq<u32>, now: seq<u32>, row: nat, col: nat)
    requires FrameOk(f) && f.w > 0 && row < f.h && col < f.w
    requires Painted(f, f.w, Whole(f), f.h, was, now)
    ensures At(row, f.w, col) < |now| && now[At(row, f.w, col)] == Colour(f, row, col)
  {
    WholeRow(f, row, col);
    PaintedAt(f, f.w, Whole(f), row, now, At(row, f.w, col));
  }

  lemma {:induction false} RowIsWhole(f: Frame, row: nat)
    requires FrameOk(f) && f.w > 0 && row < f.h
    ensures RowColours(f, Whole(f), row) == Line(f, row)
  {
    forall c: nat | c < f.w
      ensures RowColours(f, Whole(f), row)[c] == Line(f, row)[c]
    {
      WholeRow(f, row, c);
    }
  }

  // ---- where to draw ----

  /** Rounds a size, and brings it into `1 ..= limit`. */
  function Sized(x: real, limit: nat): (r: nat)
    requires limit >= 1
    ensures 1 <= r <= limit
    ensures 1.0 <= x <= limit as real ==> x - 0.5 <= r as real <= x + 0.5
    ensures x == limit as real ==> r == limit
  {
    Max(1, Min(limit, (x + 0.5).Floor))
  }

  function ScaleOf(w: nat, h: nat, tw: nat, th: nat): (s: real)
    requires w >= 1 && h >= 1 && tw >= 1 && th >= 1
    ensures s > 0.0
    ensures w as real * s <= tw as real && h as real * s <= th as real
    ensures w as real * s == tw as real || h as real * s == th as real
    ensures w == tw && h == th ==> s == 1.0
  {
    RMin(tw as real / w as real, th as real / h as real)
  }

  /** How large a frame is drawn. */
  function DrawnSize(w: nat, h: nat, tw: nat, th: nat): (r: (nat, nat))
    requires w >= 1 && h >= 1 && tw >= 1 && th >= 1
    ensures 1 <= r.0 <= tw && 1 <= r.1 <= th && (r.0 == tw || r.1 == th)
    ensures w == tw && h == th ==> r == (w, h)
  {
    DrawnAt(w, h, tw, th, ScaleOf(w, h, tw, th))
  }

  function DrawnAt(w: nat, h: nat, tw: nat, th: nat, scale: real): (r: (nat, nat))
    requires tw >= 1 && th >= 1
  {
    (Sized(w as real * scale, tw), Sized(h as real * scale, th))
  }

  /** The largest rectangle of the frame's shape that fits the target, centred. */
  function AspectFit(frameW: nat, frameH: nat, targetW: nat, targetH: nat): Rect {
    var w, h, tw, th := Max(frameW, 1), Max(frameH, 1), Max(targetW, 1), Max(targetH, 1);
    var (dw, dh) := DrawnSize(w, h, tw, th);
    Rect((tw - dw) / 2, (th - dh) / 2, dw, dh)
  }

  /**
   * The rectangle lies in the target, fills it in one direction and is centred in the other, and a
   * target of the frame's own size is filled exactly.
   */
  lemma {:induction false} AspectFitFits(w: nat, h: nat, tw: nat, th: nat)
    requires tw >= 1 && th >= 1
    ensures var r := AspectFit(w, h, tw, th);
            && Within(r, tw, th) && r.w >= 1 && r.h >= 1
            && (r.w == tw || r.h == th)
            && 0 <= tw - (2 * r.x + r.w) <= 1 && 0 <= th - (2 * r.y + r.h) <= 1
    ensures w == tw && h == th ==> AspectFit(w, h, tw, th) == Rect(0, 0, w, h)
  {
  }

  /** A drawn size that fills `tw` and keeps the shape of a `w` by `h` frame. */
  predicate FillsFirst(dw: nat, dh: nat, w: nat, h: nat, tw: nat) {
    dw == tw && IsRounded(dh, h * tw, w)
  }

  /** The scale a frame is drawn at makes it fill the target one way. */
  lemma {:induction false} DrawnAtScale(w: nat, h: nat, tw: nat, th: nat) returns (scale: real)
    requires w >= 1 && h >= 1 && tw >= 1 && th >= 1
    ensures DrawnSize(w, h, tw, th) == DrawnAt(w, h, tw, th, scale)
    ensures w as real * scale <= tw as real && h as real * scale <= th as real
    ensures if h * tw <= th * w then w as real * scale == tw as real else h as real * scale == th as real
  {
    DrawnSizeIs(w, h, tw, th);
    scale := ScaleFills(w, h, tw, th);
  }

  lemma {:induction false} DrawnSizeIs(w: nat, h: nat, tw: nat, th: nat)
    requires w >= 1 && h >= 1 && tw >= 1 && th >= 1
    ensures DrawnSize(w, h, tw, th) == DrawnAt(w, h, tw, th, ScaleOf(w, h, tw, th))
  {
  }

  lemma {:induction false} ScaleFills(w: nat, h: nat, tw: nat, th: nat) returns (scale: real)
    requires w >= 1 && h >= 1 && tw >= 1 && th >= 1
    ensures scale == ScaleOf(w, h, tw, th)
    ensures w as real * scale <= tw as real && h as real * scale <= th as real
    ensures if h * tw <= th * w then w as real * scale == tw as real else h as real * scale == th as real
  {
    scale := ScaleOf(w, h, tw, th);
    if h * tw <= th * w { ScaleByWidth(w, h, tw, th); } else { ScaleByHeight(w, h, tw, th); }
  }

  lemma {:induction false} ShapedAt(w: nat, h: nat, tw: nat, th: nat, scale: real, r: (nat, nat))
    requires w >= 1 && h >= 1 && tw >= 1 && th >= 1 && r == DrawnAt(w, h, tw, th, scale)
    requires w as real * scale <= tw as real && h as real * scale <= th as real
    ensures w as real * scale == tw as real ==> FillsFirst(r.0, r.1, w, h, tw)
    ensures h as real * scale == th as real ==> FillsFirst(r.1, r.0, h, w, th)
  {
    if w as real * scale == tw as real { SizedByShape(w, h, tw, th, scale); }
    if h as real * scale == th as real { SizedByShape(h, w, th, tw, scale); }
  }

  /**
   * The frame keeps its shape: one no taller for its width than the target fills the width and has the height
   * that goes with it, rounded; any other fills the height.
   */
  lemma {:induction false} AspectFitKeepsShape(w: nat, h: nat, tw: nat, th: nat)
    requires w >= 1 && h >= 1 && tw >= 1 && th >= 1
    ensures var r := AspectFit(w, h, tw, th);
            if h * tw <= th * w then FillsFirst(r.w, r.h, w, h, tw) else FillsFirst(r.h, r.w, h, w, th)
  {
    var scale := DrawnAtScale(w, h, tw, th);
    ShapedAt(w, h, tw, th, scale, DrawnSize(w, h, tw, th));
  }

  /** One side scaled to the whole of its limit, the other to its share. */
  lemma {:induction false} SizedByShape(w: nat, h: nat, tw: nat, th: nat, scale: real)
    requires w >= 1 && tw >= 1 && th >= 1 && scale > 0.0
    requires w as real * scale == tw as real && h as real * scale <= th as real
    ensures FillsFirst(Sized(w as real * scale, tw), Sized(h as real * scale, th), w, h, tw)
  {
    Product(h, scale, w, tw);
    SizedIsRounded(h as real * scale, h * tw, w, th);
  }

  lemma {:induction false} Product(h: nat, scale: real, w: nat, tw: nat)
    requires w as real * scale == tw as real
    ensures h as real * scale * w as real == (h * tw) as real
  {
    assert h as real * scale * w as real == h as real * (w as real * scale);
  }

  lemma {:induction false} ScaleByWidth(w: nat, h: nat, tw: nat, th: nat)
    requires w >= 1 && h >= 1 && tw >= 1 && th >= 1 && h * tw <= th * w
    ensures w as real * ScaleOf(w, h, tw, th) == tw as real
  {
    RatioOrder(w, h, tw, th);
    Quotients(tw, w);
  }

  lemma {:induction false} ScaleByHeight(w: nat, h: nat, tw: nat, th: nat)
    requires w >= 1 && h >= 1 && tw >= 1 && th >= 1 && h * tw > th * w
    ensures h as real * ScaleOf(w, h, tw, th) == th as real
  {
    RatioOrder(w, h, tw, th);
    Quotients(th, h);
  }

  lemma {:induction false} Quotients(a: nat, b: nat)
    requires b >= 1
    ensures b as real * (a as real / b as real) == a as real
  {
  }

  /** `r` is `a / b` to the nearest whole number, a half upward, but at least 1. */
  predicate IsRounded(r: nat, a: nat, b: nat) {
    if 2 * a < b then r == 1 else (2 * r - 1) * b <= 2 * a < (2 * r + 1) * b
  }

  lemma {:induction false} RatioOrder(w: nat, h: nat, tw: nat, th: nat)
    requires w >= 1 && h >= 1
    ensures tw as real / w as real <= th as real / h as real <==> h * tw <= th * w
  {
    var (a, b, c, d) := (tw as real, w as real, th as real, h as real);
    var (x, y) := (a / b, c / d);
    assert x * b == a && y * d == c;
    assert (h * tw) as real == d * a && (th * w) as real == c * b;
    assert d * a == x * (b * d) && c * b == y * (b * d);
    OrderTimes(x, y, b * d);
  }

  lemma {:induction false} OrderTimes(x: real, y: real, m: real)
    requires m > 0.0
    ensures x <= y <==> x * m <= y * m
  {
    if x <= y { assert (y - x) * m >= 0.0; } else { assert (x - y) * m > 0.0; }
  }

  lemma {:induction false} SizedIsRounded(x: real, a: nat, w: nat, limit: nat)
    requires w >= 1 && limit >= 1 && x <= limit as real && x * w as real == a as real
    ensures IsRounded(Sized(x, limit), a, w)
  {
    var r := (x + 0.5).Floor;
    HalfBounds(x, r, w, a);
    BelowHalf(x, w, a);
  }

  lemma {:induction false} BelowHalf(x: real, w: nat, a: nat)
    requires w >= 1 && x * w as real == a as real
    ensures 2 * a < w <==> x < 0.5
  {
    OrderTimes(0.5, x, w as real);
  }

  lemma {:induction false} HalfBounds(x: real, r: int, w: nat, a: nat)
    requires x * w as real == a as real && w >= 1 && r as real - 0.5 <= x < r as real + 0.5
    ensures (2 * r - 1) * w <= 2 * a < (2 * r + 1) * w
  {
    OrderTimes(r as real - 0.5, x, w as real);
    OrderTimes(r as real + 0.5, x, w as real);
    assert ((2 * r - 1) * w) as real == 2.0 * ((r as real - 0.5) * w as real);
    assert ((2 * r + 1) * w) as real == 2.0 * ((r as real + 0.5) * w as real);
  }

  // ---- a picture on the surface ----

  const BLACK: u32 := 0xFF00_0000

  function EvenUp(n: nat): nat { (n + 1) / 2 * 2 }

  /** The two planes of a picture's buffer. */
  function Planes(src: Bytes, w: nat, h: nat): (f: Frame)
    requires |src| >= Rows(h, w) + Rows((h + 1) / 2, EvenUp(w))
    ensures FrameOk(f)
  {
    var yLen := Rows(h, w);
    Frame(src[..yLen], src[yLen..yLen + Rows((h + 1) / 2, EvenUp(w))], EvenUp(w), w, h)
  }

  /** The surface before drawing: black where a letterbox will show. */
  function Cleared(was: seq<u32>, rect: Rect, tw: nat, th: nat): seq<u32>
    requires Rows(th, tw) <= |was|
  {
    if rect.w == tw && rect.h == th then was
    else seq(Rows(th, tw), k => BLACK) + was[Rows(th, tw)..]
  }

  method Fill(dest: array<u32>, n: nat)
    requires n <= dest.Length
    modifies dest
    ensures dest[..] == seq(n, k => BLACK) + old(dest[n..])
  {
    for i := 0 to n
      invariant forall k :: 0 <= k < i ==> dest[k] == BLACK
      invariant forall k :: i <= k < dest.Length ==> dest[k] == old(dest[k])
    {
      dest[i] := BLACK;
    }
  }

  /** Draws an NV12 picture on a surface, by the fast path when nothing needs scaling. */
  method RenderNv12(src: Bytes, width: nat, height: nat, tw: nat, th: nat, dest: array<u32>)
    requires tw >= 1 && th >= 1
    modifies dest
    ensures var (w, h) := (Max(width, 1), Max(height, 1));
            var rect := AspectFit(w, h, tw, th);
            if dest.Length < Rows(th, tw) then dest[..] == old(dest[..])
            else if |src| < Rows(h, w) + Rows((h + 1) / 2, EvenUp(w)) then
              dest[..] == Cleared(old(dest[..]), rect, tw, th)
            else
              Painted(Planes(src, w, h), tw, rect, rect.h, Cleared(old(dest[..]), rect, tw, th), dest[..])
  {
    if dest.Length < Rows(th, tw) {
      return;
    }
    var w: nat, h: nat := Max(width, 1), Max(height, 1);
    var rect := AspectFit(w, h, tw, th);
    AspectFitFits(w, h, tw, th);
    var isOneToOne := rect == Rect(0, 0, w, h) && tw == w && th == h;
    if !isOneToOne && (rect.w < tw || rect.h < th) {
      Fill(dest, Rows(th, tw));
    }
    if |src| >= Rows(h, w) + Rows((h + 1) / 2, EvenUp(w)) {
      var f := Planes(src, w, h);
      if isOneToOne {
        ConvertOneToOne(f, dest);
      } else {
        ScaleNv12(f, dest, tw, th, rect);
      }
    }
  }

  lemma {:induction false} RowOf(rows: nat, width: nat, k: nat) returns (r: nat)
    requires k < Rows(rows, width)
    ensures r < rows && At(r, width, 0) <= k < At(r, width, 0) + width
  {
    r := rows - 1;
    if k < Rows(rows - 1, width) { r := RowOf(rows - 1, width, k); }
  }

  /** Every pixel of the surface shows the picture, or is black beside it. */
  lemma {:induction false} NothingLeftOver(f: Frame, tw: nat, th: nat, was: seq<u32>, now: seq<u32>, k: nat)
    requires FrameOk(f) && f.w > 0 && f.h > 0 && tw >= 1 && th >= 1 && Rows(th, tw) <= |was|
    requires var rect := AspectFit(f.w, f.h, tw, th);
             Painted(f, tw, rect, rect.h, Cleared(was, rect, tw, th), now)
    requires k < Rows(th, tw)
    ensures var rect := AspectFit(f.w, f.h, tw, th);
            Covered(tw, rect, rect.h, k) || now[k] == BLACK
  {
    var rect := AspectFit(f.w, f.h, tw, th);
    AspectFitFits(f.w, f.h, tw, th);
    if rect.w == tw && rect.h == th {
      var r := RowOf(th, tw, k);
      assert OnRow(tw, rect, r, k);
    }
  }

  /** The word is the colour of a luma byte of the buffer and two chroma bytes after the `n` bytes of luma. */
  predicate Reads(src: Bytes, n: nat, y: nat, uv: nat, word: u32) {
    y < n && n + uv + 1 < |src| && word == Pixel(src[y], src[n + uv], src[n + uv + 1])
  }

  /** The word shows the picture's pixel: its own luma, and the chroma of its two-by-two block. */
  predicate ShowsSource(src: Bytes, w: nat, h: nat, row: nat, col: nat, word: u32) {
    Reads(src, h * w, row * w + col, row / 2 * ((w + 1) / 2 * 2) + col / 2 * 2, word)
  }

  lemma {:induction false} PlanesShow(src: Bytes, w: nat, h: nat, f: Frame, row: nat, col: nat, word: u32)
    requires |src| >= Rows(h, w) + Rows((h + 1) / 2, EvenUp(w)) && f == Planes(src, w, h)
    requires ShowsPixel(f, row, col, word)
    ensures ShowsSource(src, w, h, row, col, word)
  {
    var y, uv := SamePlace(f, w, row, col, word);
    PlanesRead(src, w, h, y, uv, word);
    LumaIsFirst(src, w, h, y, uv, word);
  }

  lemma {:induction false} SamePlace(f: Frame, w: nat, row: nat, col: nat, word: u32) returns (y: nat, uv: nat)
    requires f.w == w && f.uvWidth == (w + 1) / 2 * 2 && ShowsPixel(f, row, col, word)
    ensures y == row * w + col && uv == row / 2 * ((w + 1) / 2 * 2) + col / 2 * 2 && ShowsAt(f, y, uv, word)
  {
    y, uv := row * f.w + col, row / 2 * f.uvWidth + col / 2 * 2;
  }

  lemma {:induction false} LumaIsFirst(src: Bytes, w: nat, h: nat, y: nat, uv: nat, word: u32)
    requires Reads(src, Rows(h, w), y, uv, word)
    ensures Reads(src, h * w, y, uv, word)
  {
    RowsAreProduct(h, w);
  }

  lemma {:induction false} PlanesRead(src: Bytes, w: nat, h: nat, y: nat, uv: nat, word: u32)
    requires |src| >= Rows(h, w) + Rows((h + 1) / 2, EvenUp(w))
    requires ShowsAt(Planes(src, w, h), y, uv, word)
    ensures Reads(src, Rows(h, w), y, uv, word)
  {
    PlaneReads(src, Rows(h, w), Rows((h + 1) / 2, EvenUp(w)), y, uv, word);
  }

  lemma {:induction false} PlaneReads(src: Bytes, n: nat, m: nat, y: nat, uv: nat, word: u32)
    requires |src| >= n + m && y < n && uv + 1 < m
    requires word == Pixel(src[..n][y], src[n..n + m][uv], src[n..n + m][uv + 1])
    ensures Reads(src, n, y, uv, word)
  {
    PlaneBytes(src, n, m, y, uv);
  }

  lemma {:induction false} PlaneBytes(src: Bytes, yLen: nat, uvLen: nat, y: nat, uv: nat)
    requires |src| >= yLen + uvLen && y < yLen && uv + 1 < uvLen
    ensures src[..yLen][y] == src[y]
    ensures src[yLen..yLen + uvLen][uv] == src[yLen + uv] && src[yLen..yLen + uvLen][uv + 1] == src[yLen + uv + 1]
  {
  }

  lemma {:induction false} DrawnPixelShows(src: Bytes, w: nat, h: nat, f: Frame, tw: nat, rect: Rect, was: seq<u32>,
                                           now: seq<u32>, r: nat, c: nat) returns (row: nat, col: nat)
    requires w >= 1 && h >= 1 && |src| >= Rows(h, w) + Rows((h + 1) / 2, EvenUp(w)) && f == Planes(src, w, h)
    requires Painted(f, tw, rect, rect.h, was, now) && r < rect.h && c < rect.w
    ensures InPart(r, rect.h, row, h) && InPart(c, rect.w, col, w)
    ensures Base(tw, rect, r) + c < |now| && ShowsSource(src, w, h, row, col, now[Base(tw, rect, r) + c])
  {
    row, col := ScalerAt(f, tw, rect, was, now, r, c);
    var word := now[Base(tw, rect, r) + c];
    PlanesShow(src, w, h, f, row, col, word);
  }

  /**
   * What `RenderNv12` leaves at a pixel of the rectangle it draws in: the colour of the source pixel as far down
   * and across the picture, from the luma and chroma bytes of the buffer.
   */
  lemma {:induction false} RenderShows(src: Bytes, w: nat, h: nat, f: Frame, tw: nat, rect: Rect, was: seq<u32>,
                                       now: seq<u32>, r: nat, c: nat) returns (row: nat, col: nat)
    requires w >= 1 && h >= 1 && |src| >= Rows(h, w) + Rows((h + 1) / 2, EvenUp(w)) && f == Planes(src, w, h)
    requires Painted(f, tw, rect, rect.h, was, now) && r < rect.h && c < rect.w
    ensures InPart(r, rect.h, row, h) && InPart(c, rect.w, col, w)
    ensures var k := (rect.y + r) * tw + rect.x + c; k < |now| && ShowsSource(src, w, h, row, col, now[k])
  {
    row, col := DrawnPixelShows(src, w, h, f, tw, rect, was, now, r, c);
    BaseIs(tw, rect, r, c);
  }
}
