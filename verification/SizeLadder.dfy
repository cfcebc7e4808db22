/** The picture sizes a session may encode, and which of them a bitrate can feed. */
module SizeLadder {
  import opened Prelude

  datatype Size = Size(w: nat, h: nat)

  /** Heights below the session's own, tallest first; all whole 16-pixel blocks. */
  const ADAPTIVE_HEIGHTS: seq<u32> := [1152, 896, 720, 544]

  const STAY_MARGIN := 0.75

  function Pixels(s: Size): nat { s.w * s.h }

  /** To the nearest non-zero multiple of 16. */
  function Align16(v: nat): (r: nat)
    ensures r % 16 == 0 && r >= 16
    ensures if v >= 8 then v - 8 < r <= v + 8 else r == 16
  {
    Max(16, (v + 8) / 16 * 16)
  }

  function Native(w: u32, h: u32): Size {
    Size(Max(w, 2), Max(h, 2))
  }

  /** `w` scaled as `h` is to `rung`, rounded down. */
  function ScaledWidth(w: nat, rung: nat, h: nat): (r: nat)
    requires rung < h
    ensures r * h <= w * rung < (r + 1) * h
  {
    w * rung / h
  }

  function Rung(native: Size, height: nat): Size
    requires height < native.h
  {
    Size(Align16(ScaledWidth(native.w, height, native.h)), height)
  }

  /** The adaptive sizes for the first `n` heights that are below the session's own. */
  function Rungs(native: Size, n: nat): seq<Size>
    requires n <= |ADAPTIVE_HEIGHTS|
  {
    if n == 0 then []
    else
      var height := ADAPTIVE_HEIGHTS[n - 1];
      Rungs(native, n - 1) + if height < native.h then [Rung(native, height)] else []
  }

  function Ladder(w: u32, h: u32): seq<Size>
  {
    [Native(w, h)] + Rungs(Native(w, h), |ADAPTIVE_HEIGHTS|)
  }

  method BuildLadder(w: u32, h: u32) returns (rungs: seq<Size>)
    ensures rungs == Ladder(w, h)
  {
    var native := Native(w, h);
    rungs := [native];
    for n := 0 to |ADAPTIVE_HEIGHTS|
      invariant rungs == [native] + Rungs(native, n)
    {
      var rung := ADAPTIVE_HEIGHTS[n];
      if rung < native.h {
        var width := ScaledWidth(native.w, rung, native.h);
        rungs := rungs + [Size(Align16(width), rung)];
      }
    }
  }

  /** A size below the session's: whole blocks, a listed height, and the session's shape to half a block. */
  predicate IsRung(native: Size, s: Size) {
    && s.h in ADAPTIVE_HEIGHTS && s.h < native.h
    && s.w % 16 == 0 && s.h % 16 == 0
    && var exact := ScaledWidth(native.w, s.h, native.h);
       if exact >= 8 then exact - 8 < s.w <= exact + 8 else s.w == 16
  }

  lemma {:induction false} RungIs(native: Size, height: nat)
    requires height in ADAPTIVE_HEIGHTS && height < native.h
    ensures IsRung(native, Rung(native, height))
  {
  }

  lemma {:induction false} RungsAre(native: Size, n: nat)
    requires n <= |ADAPTIVE_HEIGHTS|
    ensures forall s :: s in Rungs(native, n) ==> IsRung(native, s) && s.h in ADAPTIVE_HEIGHTS[..n]
    ensures forall k :: 0 <= k < n && ADAPTIVE_HEIGHTS[k] < native.h
                        ==> Rung(native, ADAPTIVE_HEIGHTS[k]) in Rungs(native, n)
  {
    if n > 0 {
      RungsAre(native, n - 1);
      var height := ADAPTIVE_HEIGHTS[n - 1];
      assert ADAPTIVE_HEIGHTS[..n] == ADAPTIVE_HEIGHTS[..n - 1] + [height];
      if height < native.h { RungIs(native, height); }
    }
  }

  lemma {:induction false} RungsShorten(native: Size, n: nat)
    requires n <= |ADAPTIVE_HEIGHTS|
    ensures forall i, j :: 0 <= i < j < |Rungs(native, n)| ==> Rungs(native, n)[i].h > Rungs(native, n)[j].h
  {
    if n > 0 {
      RungsShorten(native, n - 1);
      RungsAre(native, n - 1);
      var before := Rungs(native, n - 1);
      var height := ADAPTIVE_HEIGHTS[n - 1];
      forall i | 0 <= i < |before|
        ensures before[i].h > height
      {
        assert before[i] in before;
      }
    }
  }

  /** The session's size, then every listed height below it once, ever shorter. */
  lemma {:induction false} LadderShape(w: u32, h: u32)
    ensures var l := Ladder(w, h);
            && l[0] == Native(w, h)
            && (forall s :: s in l[1..] ==> IsRung(l[0], s))
            && (forall height :: height in ADAPTIVE_HEIGHTS && height < l[0].h ==> Rung(l[0], height) in l)
            && (forall i, j :: 0 <= i < j < |l| ==> l[i].h > l[j].h)
            && (forall s :: s in l ==> Pixels(s) > 0)
  {
    var native := Native(w, h);
    RungsAre(native, |ADAPTIVE_HEIGHTS|);
    RungsShorten(native, |ADAPTIVE_HEIGHTS|);
    var l := Ladder(w, h);
    assert l[1..] == Rungs(native, |ADAPTIVE_HEIGHTS|);
    forall j | 0 < j < |l|
      ensures l[j] in l[1..]
    {
      assert l[j] == l[1..][j - 1];
    }
    forall s | s in l
      ensures Pixels(s) > 0
    {
      if s in l[1..] { assert IsRung(native, s); RungIsPositive(native, s); }
    }
  }

  lemma {:induction false} RungIsPositive(native: Size, s: Size)
    requires s in Rungs(native, |ADAPTIVE_HEIGHTS|)
    ensures Pixels(s) > 0
  {
    WideEnough(native, |ADAPTIVE_HEIGHTS|, s);
    RungsAre(native, |ADAPTIVE_HEIGHTS|);
    assert s.h >= 544;
    assert s.w * s.h > 0;
  }

  lemma {:induction false} WideEnough(native: Size, n: nat, s: Size)
    requires n <= |ADAPTIVE_HEIGHTS| && s in Rungs(native, n)
    ensures s.w >= 16
  {
    if s !in Rungs(native, n - 1) {
      assert s == Rung(native, ADAPTIVE_HEIGHTS[n - 1]);
    } else {
      WideEnough(native, n - 1, s);
    }
  }

  lemma {:induction false} ScaledWidthGrows(w: nat, a: nat, b: nat, h: nat)
    requires a <= b < h
    ensures ScaledWidth(w, a, h) <= ScaledWidth(w, b, h)
  {
    var x, y := ScaledWidth(w, a, h), ScaledWidth(w, b, h);
    Multiply(a, b, w);
    if y < x { Multiply(y + 1, x, h); }
  }

  lemma {:induction false} ShorterIsSmaller(native: Size, a: nat, b: nat)
    requires a < b < native.h
    ensures Pixels(Rung(native, a)) < Pixels(Rung(native, b))
  {
    ScaledWidthGrows(native.w, a, b, native.h);
    var v, w := Rung(native, a).w, Rung(native, b).w;
    AlignGrows(ScaledWidth(native.w, a, native.h), ScaledWidth(native.w, b, native.h));
    SmallerProduct(v, a, w, b);
  }

  lemma {:induction false} AlignGrows(x: nat, y: nat)
    requires x <= y
    ensures Align16(x) <= Align16(y)
  {
  }

  lemma {:induction false} SmallerProduct(v: nat, a: nat, w: nat, b: nat)
    requires v <= w && a < b && w > 0
    ensures v * a < w * b
  {
    Multiply(v, w, a);
    Multiply(a + 1, b, w);
    assert w * (a + 1) == w * a + w;
  }

  /** Each listed picture has fewer pixels than the one before it; only the first step may be upward. */
  lemma {:induction false} RungsTaper(native: Size, n: nat, i: nat, j: nat)
    requires n <= |ADAPTIVE_HEIGHTS| && i < j < |Rungs(native, n)|
    ensures Pixels(Rungs(native, n)[i]) > Pixels(Rungs(native, n)[j])
  {
    var rungs := Rungs(native, n);
    RungsAreRungs(native, n, rungs[i]);
    RungsAreRungs(native, n, rungs[j]);
    RungsShorten(native, n);
    ShorterIsSmaller(native, rungs[j].h, rungs[i].h);
  }

  lemma {:induction false} RungsAreRungs(native: Size, n: nat, s: Size)
    requires n <= |ADAPTIVE_HEIGHTS| && s in Rungs(native, n)
    ensures s.h < native.h && s == Rung(native, s.h)
  {
    if s in Rungs(native, n - 1) { RungsAreRungs(native, n - 1, s); }
  }

  predicate LargestFirst(ladder: seq<Size>) {
    forall i, j :: 0 <= i < j < |ladder| ==> Pixels(ladder[i]) > Pixels(ladder[j])
  }

  /** The tallest of the first `n` listed heights that is below `h`, or 0. */
  function TallestBelow(h: nat, n: nat): (r: nat)
    requires n <= |ADAPTIVE_HEIGHTS|
    ensures r > 0 ==> r < h && r in ADAPTIVE_HEIGHTS[..n]
    ensures r == 0 ==> forall k :: 0 <= k < n ==> ADAPTIVE_HEIGHTS[k] >= h
  {
    if n == 0 then 0
    else
      var before := TallestBelow(h, n - 1);
      assert ADAPTIVE_HEIGHTS[..n] == ADAPTIVE_HEIGHTS[..n - 1] + [ADAPTIVE_HEIGHTS[n - 1]];
      if before > 0 then before else if ADAPTIVE_HEIGHTS[n - 1] < h then ADAPTIVE_HEIGHTS[n - 1] else 0
  }

  lemma {:induction false} FirstRung(native: Size, n: nat)
    requires n <= |ADAPTIVE_HEIGHTS|
    ensures var r := TallestBelow(native.h, n); var rungs := Rungs(native, n);
            if r == 0 then rungs == [] else rungs != [] && rungs[0] == Rung(native, r)
  {
    if n > 0 { FirstRung(native, n - 1); }
  }

  lemma {:induction false} LargestFirstBySecond(w: u32, h: u32)
    ensures var l := Ladder(w, h);
            LargestFirst(l) <==> |l| == 1 || Pixels(l[1]) < Pixels(l[0])
  {
    var l := Ladder(w, h);
    var rungs := Rungs(Native(w, h), |ADAPTIVE_HEIGHTS|);
    assert forall k :: 0 < k < |l| ==> l[k] == rungs[k - 1];
    if |l| > 1 && Pixels(l[1]) < Pixels(l[0]) {
      forall i, j | 0 <= i < j < |l|
        ensures Pixels(l[i]) > Pixels(l[j])
      {
        if i > 0 {
          RungsTaper(Native(w, h), |ADAPTIVE_HEIGHTS|, i - 1, j - 1);
        } else if j > 1 {
          RungsTaper(Native(w, h), |ADAPTIVE_HEIGHTS|, 0, j - 1);
        }
      }
    }
  }

  /** The tallest listed height below the session's own, scaled to whole blocks, leaves fewer pixels. */
  predicate FirstStepShrinks(n: Size, r: nat)
    requires n.h > 0
  {
    r == 0 || Align16(n.w * r / n.h) * r < n.w * n.h
  }

  /**
   * A session's sizes come largest first exactly when the tallest listed height below its own, with
   * the width that rounding to whole blocks gives it, has fewer pixels than the session's size.
   */
  lemma {:induction false} LargestFirstIff(w: u32, h: u32)
    ensures var n := Native(w, h);
            LargestFirst(Ladder(w, h)) <==> FirstStepShrinks(n, TallestBelow(n.h, |ADAPTIVE_HEIGHTS|))
  {
    var n := Native(w, h);
    LargestFirstBySecond(w, h);
    FirstRung(n, |ADAPTIVE_HEIGHTS|);
    var r := TallestBelow(n.h, |ADAPTIVE_HEIGHTS|);
    if r > 0 { assert ScaledWidth(n.w, r, n.h) == n.w * r / n.h; }
  }

  lemma {:induction false} ScaledIsNarrower(w: nat, r: nat, h: nat)
    requires r < h
    ensures ScaledWidth(w, r, h) <= w
  {
    var x := ScaledWidth(w, r, h);
    Multiply(r, h, w);
    Exceeds(h, w, x);
  }

  lemma {:induction false} Exceeds(k: nat, a: nat, b: nat)
    ensures b > a ==> b * k >= a * k + k
  {
    if b > a {
      Multiply(a + 1, b, k);
      assert (a + 1) * k == a * k + k;
    }
  }

  /** A session eight pixels wide or more is safe at sight when it is enough taller than that height. */
  lemma {:induction false} LargestFirstWhenTaller(w: u32, h: u32)
    requires var n := Native(w, h); var r := TallestBelow(n.h, |ADAPTIVE_HEIGHTS|);
             n.w >= 8 && n.w * (n.h - r) > 8 * r
    ensures LargestFirst(Ladder(w, h))
  {
    var n := Native(w, h);
    var r := TallestBelow(n.h, |ADAPTIVE_HEIGHTS|);
    LargestFirstIff(w, h);
    if r > 0 {
      var x := ScaledWidth(n.w, r, n.h);
      ScaledIsNarrower(n.w, r, n.h);
      assert Align16(x) <= n.w + 8;
      Multiply(Align16(x), n.w + 8, r);
      Taller(n.w, r, n.h);
    }
  }

  lemma {:induction false} Taller(w: nat, r: nat, h: nat)
    requires r < h && w * (h - r) > 8 * r
    ensures r * (w + 8) < w * h
  {
    assert w * (h - r) == w * h - w * r;
    assert r * (w + 8) == w * r + 8 * r;
  }

  /** A 2058 x 1153 session is one whose sizes do not come largest first. */
  lemma {:induction false} LadderCanGrow()
    ensures Ladder(2058, 1153)[1] == Size(2064, 1152)
    ensures !LargestFirst(Ladder(2058, 1153))
  {
    var native := Native(2058, 1153);
    assert Rung(native, 1152) == Size(2064, 1152);
    assert Rungs(native, 1) == [Size(2064, 1152)];
    assert Rungs(native, 4)[0] == Rungs(native, 3)[0] == Rungs(native, 2)[0] == Rungs(native, 1)[0];
    assert Pixels(Ladder(2058, 1153)[1]) > Pixels(Ladder(2058, 1153)[0]);
  }

  function BitsPerPixelFloor(h264: bool): real { if h264 then 0.069 else 0.065 }

  /** Whether `kbps` affords `size` at `fps`, given `margin` times what a clean picture needs. */
  predicate Fits(size: Size, fps: u32, h264: bool, kbps: u32, margin: real) {
    Pixels(size) > 0 &&
    (kbps * 1000) as real / Max(fps, 1) as real / Pixels(size) as real >= BitsPerPixelFloor(h264) * margin
  }

  /** A bitrate affords so many pixels a second: its bits over what a pixel needs, margin included. */
  lemma {:induction false} FitsIff(size: Size, fps: u32, h264: bool, kbps: u32, margin: real)
    ensures Fits(size, fps, h264, kbps, margin) <==>
              Pixels(size) > 0
              && 1000.0 * kbps as real >= (if h264 then 0.069 else 0.065) * margin * (size.w * size.h * Max(fps, 1)) as real
  {
    if Pixels(size) > 0 {
      var (p, f) := (Pixels(size), Max(fps, 1));
      assert (p * f) as real == p as real * f as real;
      PerUnit((kbps * 1000) as real, f as real, p as real, BitsPerPixelFloor(h264) * margin);
    }
  }

  lemma {:induction false} PerUnit(x: real, f: real, p: real, k: real)
    requires f > 0.0 && p > 0.0
    ensures x / f / p >= k <==> x >= k * (p * f)
  {
    var y := x / f / p;
    assert y * p * f == x;
    RealMultiply(y, k, p * f);
    assert y * (p * f) == y * p * f;
  }

  lemma {:induction false} RealMultiply(a: real, b: real, m: real)
    requires m > 0.0
    ensures a >= b <==> a * m >= b * m
  {
    if a >= b { assert (a - b) * m >= 0.0; } else { assert (b - a) * m > 0.0; }
  }

  /** Fewer pixels, more bitrate or a thinner margin never stop a size from fitting. */
  lemma {:induction false} FitsIsMonotone(a: Size, b: Size, fps: u32, h264: bool, p: u32, q: u32, m: real, n: real)
    requires Fits(a, fps, h264, p, m) && 0 < Pixels(b) <= Pixels(a) && p <= q && 0.0 <= n <= m
    ensures Fits(b, fps, h264, q, n)
  {
    var f := Max(fps, 1) as real;
    var x := (p * 1000) as real / f;
    var y := (q * 1000) as real / f;
    assert x <= y by { Divides((p * 1000) as real, (q * 1000) as real, f, f); }
    Divides(x, y, Pixels(a) as real, Pixels(b) as real);
    Scales(BitsPerPixelFloor(h264), n, m);
  }

  lemma {:induction false} Scales(k: real, n: real, m: real)
    requires k >= 0.0 && n <= m
    ensures k * n <= k * m
  {
  }

  /** A larger numerator over a smaller denominator. */
  lemma {:induction false} Divides(x: real, y: real, a: real, b: real)
    requires 0.0 <= x <= y && 0.0 < b <= a
    ensures x / a <= y / b
  {
    assert x / a <= x / b by {
      assert x / a * b <= x / a * a == x;
      assert x / b * b == x;
    }
    assert x / b <= y / b;
  }
}
