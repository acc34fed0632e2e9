/** Label geometry and box sampling: Fit of internal/niimbot/image.go, over exact reals and one colour channel. */
module Fitting {
  import opened Bytes
  import opened Dithering

  /** A nonempty source image, one channel composited over white, 1.0 = white. */
  datatype Source = Source(w: nat, h: nat, pixel: (nat, nat) -> real)

  datatype FitError = BadDimensions | TooSmall(cols: int, rows: int)

  function Min(a: real, b: real): real {
    if a <= b then a else b
  }

  // ---- Exact-real division ----

  lemma QuotientMonotone(a: real, b: real, s: real)
    requires a <= b && s > 0.0
    ensures a / s <= b / s
    ensures a < b ==> a / s < b / s
  {
    assert (a / s) * s == a && (b / s) * s == b;
  }

  lemma ProductCancels(a: real, s: real)
    requires s > 0.0
    ensures (a * s) / s == a
  {
  }

  lemma QuotientAtLeast(d: real, n: real, s: real)
    requires s > 0.0
    ensures d / s >= n <==> d >= n * s
  {
    ProductCancels(n, s);
    if d >= n * s {
      QuotientMonotone(n * s, d, s);
    } else {
      QuotientMonotone(d, n * s, s);
    }
  }

  /** n * v by repeated addition. */
  ghost function Times(n: nat, v: real): real {
    if n == 0 then 0.0 else Times(n - 1, v) + v
  }

  lemma {:induction false} TimesIsProduct(n: nat, v: real)
    ensures Times(n, v) == v * n as real
  {
    if n > 0 {
      TimesIsProduct(n - 1, v);
      assert v * (n - 1) as real + v == v * n as real;
    }
  }

  lemma {:induction false} TimesAdds(n: nat, m: nat, v: real)
    ensures Times(n + m, v) == Times(n, v) + Times(m, v)
  {
    if m > 0 {
      TimesAdds(n, m - 1, v);
    }
  }

  lemma ProductMonotone(a: real, b: real, s: real)
    requires a <= b && s >= 0.0
    ensures a * s <= b * s
  {
  }

  lemma FractionMonotone(a: real, b: real, m: real, n: real)
    requires 0.0 <= a <= b && 0.0 < n <= m
    ensures a / m <= b / n
  {
    QuotientMonotone(a, b, m);
    ProductMonotone(n, m, b / m);
    assert (b / m) * m == b;
    QuotientMonotone((b / m) * n, b, n);
    ProductCancels(b / m, n);
  }

  // ---- Geometry ----

  /** The uniform scale that fits w x h inside cols x rows. */
  function Scale(cols: nat, rows: nat, w: nat, h: nat): real
    requires w > 0 && h > 0
  {
    Min(cols as real / w as real, rows as real / h as real)
  }

  /** An extent after scaling, rounded to the nearest pixel. */
  function Scaled(n: nat, s: real): (r: nat)
    requires s >= 0.0
  {
    assert n as real * s + 0.5 >= 0.0 by { ProductMonotone(0.0, n as real, s); }
    (n as real * s + 0.5).Floor
  }

  function LabelSize(widthMM: real, heightMM: real, dpi: int, headPixels: int): (r: Result<(nat, nat), FitError>)
    ensures r.Ok? ==> 8 <= r.value.0 <= headPixels && 1 <= r.value.1
  {
    if widthMM <= 0.0 || heightMM <= 0.0 then Err(BadDimensions)
    else
      var wide := (widthMM / 25.4 * dpi as real + 0.5).Floor;
      var rows := (heightMM / 25.4 * dpi as real + 0.5).Floor;
      var cols := if wide > headPixels then headPixels else wide;
      if cols < 8 || rows < 1 then Err(TooSmall(cols, rows)) else Ok((cols, rows))
  }

  /** A quarter turn clockwise. */
  function Rotate90(src: Source): Source {
    Source(src.h, src.w, (x: nat, y: nat) => if x < src.h then src.pixel(y, src.h - 1 - x) else 1.0)
  }

  /** Sources and labels of different orientation are turned to match. */
  predicate Turns(cols: nat, rows: nat, src: Source) {
    (src.w > src.h) != (cols > rows)
  }

  function Oriented(cols: nat, rows: nat, src: Source): Source {
    if Turns(cols, rows, src) then Rotate90(src) else src
  }

  /** Four quarter turns are the identity, pixel by pixel. */
  lemma FourTurnsAreIdentity(src: Source, x: nat, y: nat)
    requires x < src.w && y < src.h
    ensures var back := Rotate90(Rotate90(Rotate90(Rotate90(src))));
            back.w == src.w && back.h == src.h && back.pixel(x, y) == src.pixel(x, y)
  {
    var one := Rotate90(src);
    var two := Rotate90(one);
    var three := Rotate90(two);
    assert Rotate90(three).pixel(x, y) == three.pixel(y, src.w - 1 - x) == two.pixel(src.w - 1 - x, src.h - 1 - y);
    assert two.pixel(src.w - 1 - x, src.h - 1 - y) == one.pixel(src.h - 1 - y, x) == src.pixel(x, y);
  }

  /** The rotation rule always picks the orientation with the larger scale. */
  lemma TurningMaximisesScale(cols: nat, rows: nat, src: Source)
    requires src.w > 0 && src.h > 0
    ensures var o := Oriented(cols, rows, src);
            Scale(cols, rows, o.w, o.h) >= Scale(cols, rows, src.w, src.h)
            && Scale(cols, rows, o.w, o.h) >= Scale(cols, rows, src.h, src.w)
  {
    var c, r, w, h := cols as real, rows as real, src.w as real, src.h as real;
    if src.w > src.h {
      FractionMonotone(c, c, w, h);
      FractionMonotone(r, r, w, h);
    } else {
      FractionMonotone(c, c, h, w);
      FractionMonotone(r, r, h, w);
    }
    if cols > rows {
      FractionMonotone(r, c, w, w);
      FractionMonotone(r, c, h, h);
    } else {
      FractionMonotone(c, r, w, w);
      FractionMonotone(c, r, h, h);
    }
  }

  lemma FitsAxis(n: nat, s: real, limit: nat)
    requires n > 0 && 0.0 <= s <= limit as real / n as real
    ensures n as real * s <= limit as real
    ensures s == limit as real / n as real ==> n as real * s == limit as real
  {
    var q := limit as real / n as real;
    assert q * n as real == limit as real;
    ProductMonotone(s, q, n as real);
    assert n as real * s == s * n as real;
  }

  /** The scaled rectangle fits the label and touches it on at least one axis, before rounding and after. */
  lemma ScaledRectangleFits(cols: nat, rows: nat, w: nat, h: nat)
    requires cols > 0 && rows > 0 && w > 0 && h > 0
    ensures var s := Scale(cols, rows, w, h);
            && s > 0.0
            && w as real * s <= cols as real && h as real * s <= rows as real
            && (w as real * s == cols as real || h as real * s == rows as real)
            && Scaled(w, s) <= cols && Scaled(h, s) <= rows
            && (Scaled(w, s) == cols || Scaled(h, s) == rows)
  {
    var s := Scale(cols, rows, w, h);
    ScalePositive(cols, w);
    ScalePositive(rows, h);
    hide Scale;
    FitsAxis(w, s, cols);
    FitsAxis(h, s, rows);
  }

  lemma ScalePositive(limit: nat, n: nat)
    requires limit > 0 && n > 0
    ensures limit as real / n as real > 0.0
  {
    QuotientMonotone(0.0, limit as real, n as real);
  }

  /** A source too narrow for its length vanishes: an axis keeps no pixel exactly when it shrinks below half of one. */
  lemma AxisVanishesExactly(n: nat, s: real)
    requires s >= 0.0
    ensures Scaled(n, s) == 0 <==> n as real * s < 0.5
  {
    RoundsToZero(n as real * s);
  }

  lemma RoundsToZero(v: real)
    ensures (v + 0.5).Floor <= 0 <==> v < 0.5
  {
  }

  // ---- Sampling windows ----

  /** First source pixel of the window of destination pixel x. */
  function From(x: nat, s: real): nat
    requires s > 0.0
  {
    assert x as real / s >= 0.0 by { QuotientMonotone(0.0, x as real, s); }
    (x as real / s).Floor
  }

  /** One past its last source pixel. */
  function To(x: nat, s: real): nat
    requires s > 0.0
  {
    if From(x + 1, s) <= From(x, s) then From(x, s) + 1 else From(x + 1, s)
  }

  /** The window of every destination pixel starts inside the source, so it never averages nothing. */
  lemma WindowStartsInside(n: nat, s: real, x: nat)
    requires s > 0.0 && x < Scaled(n, s)
    ensures From(x, s) < n && From(x, s) < To(x, s)
  {
    var edge := n as real * s;
    assert (x + 1) as real <= edge + 0.5;
    assert x as real < edge;
    QuotientAtLeast(x as real, n as real, s);
  }

  lemma StepOf(x: nat, s: real)
    requires s > 0.0
    ensures (x + 1) as real / s == x as real / s + 1.0 / s
  {
  }

  /** Shrinking: consecutive windows are disjoint and leave no gap. */
  lemma WindowsAreContiguous(s: real, x: nat)
    requires 0.0 < s <= 1.0
    ensures To(x, s) == From(x + 1, s) && From(0, s) == 0
  {
    StepOf(x, s);
    FractionMonotone(1.0, 1.0, 1.0, s);
  }

  /** Enlarging: every window is the single nearest pixel. */
  lemma WindowsAreSinglePixels(s: real, x: nat)
    requires s >= 1.0
    ensures To(x, s) == From(x, s) + 1
  {
    StepOf(x, s);
    FractionMonotone(1.0, 1.0, s, 1.0);
  }

  /** Shrinking: the windows of an axis sample exactly its first From(dw) pixels, each once. */
  lemma {:induction false} WindowsTile(s: real, dw: nat, p: nat)
    requires 0.0 < s <= 1.0
    ensures p < From(dw, s) <==> exists x: nat :: x < dw && From(x, s) <= p < To(x, s)
    ensures forall x: nat, x': nat :: x < x' < dw ==> To(x, s) <= From(x', s)
    decreases dw
  {
    WindowsAreContiguous(s, 0);
    if dw > 0 {
      WindowsTile(s, dw - 1, p);
      WindowsAreContiguous(s, dw - 1);
      forall x: nat | x < dw - 1
        ensures To(x, s) <= From(dw - 1, s)
      {
        WindowsAreContiguous(s, x);
        QuotientMonotone((x + 1) as real, (dw - 1) as real, s);
      }
    }
  }

  /** Some destination pixel averages source pixel p of an axis of length n. */
  ghost predicate Sampled(n: nat, s: real, p: nat)
    requires s > 0.0
  {
    exists x: nat :: x < Scaled(n, s) && From(x, s) <= p < To(x, s)
  }

  ghost predicate AllSampled(n: nat, s: real)
    requires s > 0.0
  {
    forall p: nat :: p < n ==> Sampled(n, s, p)
  }

  lemma FromAtLeast(x: nat, p: nat, s: real)
    requires s > 0.0
    ensures From(x, s) >= p <==> x as real >= p as real * s
  {
    QuotientAtLeast(x as real, p as real, s);
  }

  lemma ShrunkAxisSampled(n: nat, s: real)
    requires 0.0 < s <= 1.0
    ensures AllSampled(n, s) <==> Scaled(n, s) as real >= n as real * s
  {
    hide Scaled, From, To;
    var dw := Scaled(n, s);
    FromAtLeast(dw, n, s);
    if From(dw, s) >= n {
      forall p: nat | p < n
        ensures Sampled(n, s, p)
      {
        WindowsTile(s, dw, p);
      }
    } else {
      WindowsTile(s, dw, n - 1);
      assert !Sampled(n, s, n - 1);
    }
  }

  /** Enlarging: source pixel p is the one read by the first destination pixel not left of it. */
  lemma EnlargedPixelHit(p: nat, s: real) returns (x: nat)
    requires s >= 1.0
    ensures From(x, s) == p && p as real * s <= x as real < p as real * s + 1.0
  {
    var edge := p as real * s;
    ProductMonotone(0.0, p as real, s);
    x := if edge.Floor as real == edge then edge.Floor else edge.Floor + 1;
    FromAtLeast(x, p, s);
    assert (p + 1) as real * s == edge + s;
    FromAtLeast(x, p + 1, s);
  }

  lemma LastPixelSampled(n: nat, s: real)
    requires s > 1.0 && n > 0 && Sampled(n, s, n - 1)
    ensures Scaled(n, s) as real - 1.0 >= (n - 1) as real * s
  {
    hide Scaled, From, To;
    var x: nat :| x < Scaled(n, s) && From(x, s) <= n - 1 < To(x, s);
    WindowsAreSinglePixels(s, x);
    FromAtLeast(x, n - 1, s);
  }

  lemma PixelSampled(n: nat, s: real, p: nat)
    requires s > 1.0 && p < n && Scaled(n, s) as real - 1.0 >= (n - 1) as real * s
    ensures Sampled(n, s, p)
  {
    hide Scaled, From, To;
    var x := EnlargedPixelHit(p, s);
    ProductMonotone(p as real, (n - 1) as real, s);
    WindowsAreSinglePixels(s, x);
    assert x < Scaled(n, s);
  }

  lemma EnlargedAxisSampled(n: nat, s: real)
    requires s > 1.0 && n > 0
    ensures AllSampled(n, s) <==> Scaled(n, s) as real - 1.0 >= (n - 1) as real * s
  {
    hide Scaled, Sampled;
    if AllSampled(n, s) {
      LastPixelSampled(n, s);
    }
    if Scaled(n, s) as real - 1.0 >= (n - 1) as real * s {
      forall p: nat | p < n
        ensures Sampled(n, s, p)
      {
        PixelSampled(n, s, p);
      }
    }
  }

  /**
   * Every source pixel of an axis counts towards some destination pixel exactly when, shrinking, the
   * scaled length was not rounded down and, enlarging, the last source pixel starts no later than the
   * last destination pixel.
   */
  lemma AxisFullySampled(n: nat, s: real)
    requires s > 0.0 && n > 0
    ensures AllSampled(n, s) <==>
      if s <= 1.0 then Scaled(n, s) as real >= n as real * s
      else Scaled(n, s) as real - 1.0 >= (n - 1) as real * s
  {
    hide AllSampled, Scaled;
    if s <= 1.0 {
      ShrunkAxisSampled(n, s);
    } else {
      EnlargedAxisSampled(n, s);
    }
  }

  /** Enlarging to a length rounded down need not skip a pixel: three pixels at 1.4 become four and all count. */
  lemma RoundedDownYetSampled()
    ensures Scale(8, 14, 3, 10) == 1.4
    ensures Scaled(3, 1.4) == 4 && 4.0 < 3.0 * 1.4 && AllSampled(3, 1.4)
  {
    EnlargedAxisSampled(3, 1.4);
  }

  /** Shrinking to a length rounded down does: nine pixels at a quarter become two, and the ninth is skipped. */
  lemma RoundedDownAndSkipped()
    ensures Scale(8, 100, 9, 400) == 0.25
    ensures Scaled(9, 0.25) == 2 && 2.0 < 9.0 * 0.25 && !Sampled(9, 0.25, 8)
  {
    FromAtLeast(2, 9, 0.25);
    WindowsTile(0.25, 2, 8);
  }

  // ---- Sampling ----

  function RowSum(src: Source, y: nat, x0: nat, x1: nat): real
    decreases x1 - x0
  {
    if x0 >= x1 then 0.0 else RowSum(src, y, x0, x1 - 1) + src.pixel(x1 - 1, y)
  }

  function WindowSum(src: Source, x0: nat, x1: nat, y0: nat, y1: nat): real
    decreases y1 - y0
  {
    if y0 >= y1 then 0.0 else WindowSum(src, x0, x1, y0, y1 - 1) + RowSum(src, y1 - 1, x0, x1)
  }

  function Upto(end: nat, limit: nat): nat {
    if end < limit then end else limit
  }

  /** The mean of the source window of destination pixel (x, y). */
  function Mean(src: Source, s: real, x: nat, y: nat): real
    requires s > 0.0 && x < Scaled(src.w, s) && y < Scaled(src.h, s)
  {
    WindowStartsInside(src.w, s, x);
    WindowStartsInside(src.h, s, y);
    var x0, x1 := From(x, s), Upto(To(x, s), src.w);
    var y0, y1 := From(y, s), Upto(To(y, s), src.h);
    AreaPositive(x1 - x0, y1 - y0);
    WindowSum(src, x0, x1, y0, y1) / ((x1 - x0) * (y1 - y0)) as real
  }

  lemma AreaPositive(a: nat, b: nat)
    requires a > 0 && b > 0
    ensures a * b > 0
  {
  }

  ghost function Area(a: nat, b: nat): nat {
    if b == 0 then 0 else Area(a, b - 1) + a
  }

  lemma {:induction false} AreaIsProduct(a: nat, b: nat)
    ensures Area(a, b) == a * b
  {
    if b > 0 {
      AreaIsProduct(a, b - 1);
      assert a * (b - 1) + a == a * b;
    }
  }

  ghost predicate Between(src: Source, lo: real, hi: real, x0: nat, x1: nat, y0: nat, y1: nat) {
    forall x: nat, y: nat :: x0 <= x < x1 && y0 <= y < y1 ==> lo <= src.pixel(x, y) <= hi
  }

  lemma {:induction false} RowSumBounds(src: Source, y: nat, x0: nat, x1: nat, lo: real, hi: real)
    requires x0 <= x1 && Between(src, lo, hi, x0, x1, y, y + 1)
    ensures Times(x1 - x0, lo) <= RowSum(src, y, x0, x1) <= Times(x1 - x0, hi)
    decreases x1 - x0
  {
    if x0 < x1 {
      RowSumBounds(src, y, x0, x1 - 1, lo, hi);
    }
  }

  lemma {:induction false} WindowSumBounds(src: Source, x0: nat, x1: nat, y0: nat, y1: nat, lo: real, hi: real)
    requires x0 <= x1 && y0 <= y1 && Between(src, lo, hi, x0, x1, y0, y1)
    ensures Times(Area(x1 - x0, y1 - y0), lo) <= WindowSum(src, x0, x1, y0, y1)
         <= Times(Area(x1 - x0, y1 - y0), hi)
    decreases y1 - y0
  {
    if y0 < y1 {
      WindowSumBounds(src, x0, x1, y0, y1 - 1, lo, hi);
      RowSumBounds(src, y1 - 1, x0, x1, lo, hi);
      TimesAdds(Area(x1 - x0, y1 - 1 - y0), x1 - x0, lo);
      TimesAdds(Area(x1 - x0, y1 - 1 - y0), x1 - x0, hi);
    }
  }

  /** A destination pixel lies between the darkest and the lightest pixel of its window. */
  lemma MeanIsBetween(src: Source, s: real, x: nat, y: nat, lo: real, hi: real)
    requires s > 0.0 && x < Scaled(src.w, s) && y < Scaled(src.h, s)
    requires Between(src, lo, hi, From(x, s), Upto(To(x, s), src.w), From(y, s), Upto(To(y, s), src.h))
    ensures lo <= Mean(src, s, x, y) <= hi
  {
    WindowStartsInside(src.w, s, x);
    WindowStartsInside(src.h, s, y);
    var x0, x1 := From(x, s), Upto(To(x, s), src.w);
    var y0, y1 := From(y, s), Upto(To(y, s), src.h);
    WindowSumBounds(src, x0, x1, y0, y1, lo, hi);
    AreaPositive(x1 - x0, y1 - y0);
    AreaIsProduct(x1 - x0, y1 - y0);
    MeanFromSum(WindowSum(src, x0, x1, y0, y1), (x1 - x0) * (y1 - y0), lo, hi);
  }

  lemma TimesOver(n: nat, v: real)
    requires n > 0
    ensures Times(n, v) / n as real == v
  {
    hide Times;
    TimesIsProduct(n, v);
    ProductCancels(v, n as real);
  }

  lemma MeanFromSum(sum: real, n: nat, lo: real, hi: real)
    requires n > 0 && Times(n, lo) <= sum <= Times(n, hi)
    ensures lo <= sum / n as real <= hi
  {
    hide Times;
    QuotientMonotone(Times(n, lo), sum, n as real);
    QuotientMonotone(sum, Times(n, hi), n as real);
    TimesOver(n, lo);
    TimesOver(n, hi);
  }

  ghost predicate UnitPixels(src: Source) {
    forall x: nat, y: nat :: x < src.w && y < src.h ==> 0.0 <= src.pixel(x, y) <= 1.0
  }

  /** A mean in [0, 1] as an 8-bit channel value. */
  function Level(mean: real): byte
    requires 0.0 <= mean <= 1.0
  {
    (mean * 255.0).Floor as byte
  }

  /** Averages one window, as the two innermost loops of Fit do. */
  method SampleWindow(src: Source, x0: nat, x1: nat, y0: nat, y1: nat) returns (sum: real, n: nat)
    requires x0 < src.w && y0 < src.h && x0 < x1 && y0 < y1
    ensures sum == WindowSum(src, x0, Upto(x1, src.w), y0, Upto(y1, src.h))
    ensures n == (Upto(x1, src.w) - x0) * (Upto(y1, src.h) - y0)
  {
    sum, n := 0.0, 0;
    ghost var width := Upto(x1, src.w) - x0;
    var yy := y0;
    while yy < y1 && yy < src.h
      invariant y0 <= yy <= Upto(y1, src.h)
      invariant sum == WindowSum(src, x0, Upto(x1, src.w), y0, yy)
      invariant n == Area(width, yy - y0)
    {
      var xx := x0;
      while xx < x1 && xx < src.w
        invariant x0 <= xx <= Upto(x1, src.w)
        invariant sum == WindowSum(src, x0, Upto(x1, src.w), y0, yy) + RowSum(src, yy, x0, xx)
        invariant n == Area(width, yy - y0) + (xx - x0)
      {
        sum := sum + src.pixel(xx, yy);
        n := n + 1;
        xx := xx + 1;
      }
      yy := yy + 1;
    }
    AreaIsProduct(width, yy - y0);
  }

  /** Pixel (x, y) of the fitted label when `rows` rows of the sampled rectangle and `px` pixels of the next are in. */
  function FittedLevel(cols: nat, rows: nat, src: Source, s: real, doneRows: nat, px: nat, x: nat, y: nat): byte
    requires UnitPixels(src) && s > 0.0 && Scaled(src.w, s) <= cols && Scaled(src.h, s) <= rows
  {
    var ox, oy := (cols - Scaled(src.w, s)) / 2, (rows - Scaled(src.h, s)) / 2;
    if ox <= x < ox + Scaled(src.w, s) && oy <= y < oy + Scaled(src.h, s)
       && (y < oy + doneRows || (y == oy + doneRows && x < ox + px))
    then
      MeanIsUnit(src, s, x - ox, y - oy);
      Level(Mean(src, s, x - ox, y - oy))
    else 0xFF
  }

  lemma MeanIsUnit(src: Source, s: real, x: nat, y: nat)
    requires UnitPixels(src) && s > 0.0 && x < Scaled(src.w, s) && y < Scaled(src.h, s)
    ensures 0.0 <= Mean(src, s, x, y) <= 1.0
  {
    MeanIsBetween(src, s, x, y, 0.0, 1.0);
  }

  ghost predicate Fitted(dst: seq<byte>, cols: nat, rows: nat, src: Source, s: real, doneRows: nat, px: nat)
    requires UnitPixels(src) && s > 0.0 && Scaled(src.w, s) <= cols && Scaled(src.h, s) <= rows
  {
    && |dst| == At(cols, 0, rows)
    && forall x: nat, y: nat :: x < cols && y < rows ==>
         At(cols, x, y) < |dst| && dst[At(cols, x, y)] == FittedLevel(cols, rows, src, s, doneRows, px, x, y)
  }

  lemma PlacePixel(dst: seq<byte>, cols: nat, rows: nat, src: Source, s: real, x: nat, y: nat, v: byte)
    requires UnitPixels(src) && s > 0.0 && Scaled(src.w, s) <= cols && Scaled(src.h, s) <= rows
    requires x < Scaled(src.w, s) && y < Scaled(src.h, s)
    requires Fitted(dst, cols, rows, src, s, y, x)
    requires 0.0 <= Mean(src, s, x, y) <= 1.0 && v == Level(Mean(src, s, x, y))
    ensures var i := At(cols, (cols - Scaled(src.w, s)) / 2 + x, (rows - Scaled(src.h, s)) / 2 + y);
            i < |dst| && Fitted(dst[i := v], cols, rows, src, s, y, x + 1)
  {
    hide Mean, Level, Scaled, UnitPixels;
    var px, py := (cols - Scaled(src.w, s)) / 2 + x, (rows - Scaled(src.h, s)) / 2 + y;
    forall x': nat, y': nat | x' < cols && y' < rows
      ensures At(cols, x', y') < |dst|
      ensures dst[At(cols, px, py) := v][At(cols, x', y')] == FittedLevel(cols, rows, src, s, y, x + 1, x', y')
    {
      AtInjective(cols, x', y', px, py);
    }
  }

  /** Places one row of samples, as the x loop of Fit does. */
  method PlaceRow(dst: array<byte>, cols: nat, rows: nat, src: Source, s: real, y: nat)
    requires UnitPixels(src) && s > 0.0 && Scaled(src.w, s) <= cols && Scaled(src.h, s) <= rows
    requires y < Scaled(src.h, s)
    requires Fitted(dst[..], cols, rows, src, s, y, 0)
    modifies dst
    ensures Fitted(dst[..], cols, rows, src, s, y + 1, 0)
  {
    hide UnitPixels, Fitted, WindowSum;
    var dw := Scaled(src.w, s);
    var ox, oy := (cols - dw) / 2, (rows - Scaled(src.h, s)) / 2;
    RowStartIsProduct(cols, oy + y);
    for x := 0 to dw
      invariant Fitted(dst[..], cols, rows, src, s, y, x)
    {
      WindowStartsInside(src.w, s, x);
      WindowStartsInside(src.h, s, y);
      var sum, n := SampleWindow(src, From(x, s), To(x, s), From(y, s), To(y, s));
      AreaPositive(Upto(To(x, s), src.w) - From(x, s), Upto(To(y, s), src.h) - From(y, s));
      if n == 0 {
        continue;
      }
      MeanIsUnit(src, s, x, y);
      PlacePixel(dst[..], cols, rows, src, s, x, y, Level(sum / n as real));
      dst[(oy + y) * cols + ox + x] := Level(sum / n as real);
    }
    RowIsPlaced(dst[..], cols, rows, src, s, y);
  }

  lemma RowIsPlaced(dst: seq<byte>, cols: nat, rows: nat, src: Source, s: real, y: nat)
    requires UnitPixels(src) && s > 0.0 && Scaled(src.w, s) <= cols && Scaled(src.h, s) <= rows
    requires y < Scaled(src.h, s)
    requires Fitted(dst, cols, rows, src, s, y, Scaled(src.w, s))
    ensures Fitted(dst, cols, rows, src, s, y + 1, 0)
  {
    hide Mean, Level, Scaled, UnitPixels;
  }

  /**
   * The label: white, except for the centred, uniformly scaled rectangle in which every pixel is
   * the mean of its window of the oriented source.
   */
  method Fit(img: Source, widthMM: real, heightMM: real, dpi: int, headPixels: int)
    returns (r: Result<array<byte>, FitError>)
    requires img.w > 0 && img.h > 0 && UnitPixels(img)
    ensures r.Ok? <==> LabelSize(widthMM, heightMM, dpi, headPixels).Ok?
    ensures r.Err? ==> r.error == LabelSize(widthMM, heightMM, dpi, headPixels).error
    ensures r.Ok? ==>
      var (cols, rows) := LabelSize(widthMM, heightMM, dpi, headPixels).value;
      var src := Oriented(cols, rows, img);
      var s := Scale(cols, rows, src.w, src.h);
      && fresh(r.value)
      && UnitPixels(src) && s > 0.0 && Scaled(src.w, s) <= cols && Scaled(src.h, s) <= rows
      && Fitted(r.value[..], cols, rows, src, s, Scaled(src.h, s), 0)
  {
    hide UnitPixels, Scaled, Scale, Fitted;
    var size := LabelSize(widthMM, heightMM, dpi, headPixels);
    if size.Err? {
      return Err(size.error);
    }
    var (cols, rows) := size.value;
    OrientedIsUnit(cols, rows, img);
    var src := Oriented(cols, rows, img);
    var s := Scale(cols, rows, src.w, src.h);
    ScaledRectangleFits(cols, rows, src.w, src.h);
    RowStartIsProduct(cols, rows);
    var dst := new byte[rows * cols](_ => 0xFF);
    BlankIsFitted(dst[..], cols, rows, src, s);
    for y := 0 to Scaled(src.h, s)
      invariant Fitted(dst[..], cols, rows, src, s, y, 0)
    {
      PlaceRow(dst, cols, rows, src, s, y);
    }
    return Ok(dst);
  }

  /** When the source vanishes along an axis, the fitted label is all white. */
  lemma VanishedSourceIsBlank(dst: seq<byte>, cols: nat, rows: nat, src: Source, s: real)
    requires UnitPixels(src) && s > 0.0 && Scaled(src.w, s) <= cols && Scaled(src.h, s) <= rows
    requires Fitted(dst, cols, rows, src, s, Scaled(src.h, s), 0)
    requires Scaled(src.w, s) == 0 || Scaled(src.h, s) == 0
    ensures forall i :: 0 <= i < |dst| ==> dst[i] == 0xFF
  {
    hide Scaled, UnitPixels;
    forall i | 0 <= i < |dst|
      ensures dst[i] == 0xFF
    {
      RowStartIsProduct(cols, rows);
      var x, y := IndexIsPixel(cols, rows, i);
      assert dst[At(cols, x, y)] == FittedLevel(cols, rows, src, s, Scaled(src.h, s), 0, x, y);
    }
  }

  lemma IndexIsPixel(cols: nat, rows: nat, i: nat) returns (x: nat, y: nat)
    requires i < rows * cols
    ensures x < cols && y < rows && i == At(cols, x, y)
  {
    assert cols > 0;
    x, y := i % cols, i / cols;
    RowStartIsProduct(cols, y);
  }

  /** A hair line 1 pixel wide and 1000 long does not survive on a label of 8 x 100: Fit returns it all white. */
  lemma ThinImageVanishes(img: Source, dst: seq<byte>)
    requires img.w == 1 && img.h == 1000 && UnitPixels(img)
    ensures LabelSize(0.8, 10.0, 254, 384) == Ok((8, 100))
    ensures Oriented(8, 100, img) == img && Scale(8, 100, img.w, img.h) == 0.1
    ensures Scaled(img.w, 0.1) == 0 && Scaled(img.h, 0.1) == 100
    ensures Fitted(dst, 8, 100, img, 0.1, 100, 0) ==> forall i :: 0 <= i < |dst| ==> dst[i] == 0xFF
  {
    hide Fitted, UnitPixels;
    AxisVanishesExactly(1, 0.1);
    if Fitted(dst, 8, 100, img, 0.1, 100, 0) {
      VanishedSourceIsBlank(dst, 8, 100, img, 0.1);
    }
  }

  // ---- The fitted label in terms of the image ----

  /** The label size: millimetres at 25.4 to the inch, rounded to the nearest pixel, and no wider than the head. */
  lemma LabelSizeExactly(widthMM: real, heightMM: real, dpi: int, headPixels: int)
    ensures var r, wide, high := LabelSize(widthMM, heightMM, dpi, headPixels), widthMM / 25.4 * dpi as real,
                                 heightMM / 25.4 * dpi as real;
            && (r == Err(BadDimensions) <==> widthMM <= 0.0 || heightMM <= 0.0)
            && (widthMM > 0.0 && heightMM > 0.0 ==> (r.Ok? <==> wide >= 7.5 && headPixels >= 8 && high >= 0.5))
            && (r.Ok? ==>
                  && r.value.1 as real - 0.5 <= high < r.value.1 as real + 0.5
                  && if wide >= headPixels as real + 0.5 then r.value.0 == headPixels
                     else r.value.0 as real - 0.5 <= wide < r.value.0 as real + 0.5)
  {
    RoundsExactly(widthMM / 25.4 * dpi as real);
    RoundsExactly(heightMM / 25.4 * dpi as real);
  }

  lemma RoundsExactly(v: real)
    ensures var n := (v + 0.5).Floor; n as real - 0.5 <= v < n as real + 0.5
  {
  }

  /** Which pixel of the image the oriented one reads: its own, or the one a quarter turn clockwise brought there. */
  lemma OrientedPixel(cols: nat, rows: nat, img: Source, x: nat, y: nat)
    ensures var o := Oriented(cols, rows, img);
            var turned := (img.w > img.h && cols <= rows) || (img.w <= img.h && cols > rows);
            && (!turned ==> o == img)
            && (turned ==> o.w == img.h && o.h == img.w && (x < img.h ==> o.pixel(x, y) == img.pixel(y, img.h - 1 - x)))
  {
  }

  /** The scaled lengths, and the source pixels a destination pixel averages. */
  lemma WindowSpans(n: nat, s: real, x: nat)
    requires s > 0.0
    ensures Scaled(n, s) as real - 0.5 <= n as real * s < Scaled(n, s) as real + 0.5
    ensures From(x, s) as real <= x as real / s < From(x, s) as real + 1.0
    ensures var next := (x + 1) as real / s;
            if next >= From(x, s) as real + 1.0 then To(x, s) as real <= next < To(x, s) as real + 1.0
            else To(x, s) == From(x, s) + 1
  {
    ProductMonotone(0.0, n as real, s);
    QuotientMonotone(0.0, x as real, s);
    QuotientMonotone(x as real, (x + 1) as real, s);
  }

  /** The source with d added to pixel (p, q). */
  function Brighter(src: Source, p: nat, q: nat, d: real): Source {
    Source(src.w, src.h, (x: nat, y: nat) => if x == p && y == q then src.pixel(x, y) + d else src.pixel(x, y))
  }

  lemma {:induction false} RowSumOf(src: Source, p: nat, q: nat, d: real, y: nat, x0: nat, x1: nat)
    ensures RowSum(Brighter(src, p, q, d), y, x0, x1)
         == RowSum(src, y, x0, x1) + if y == q && x0 <= p < x1 then d else 0.0
    decreases x1 - x0
  {
    if x0 < x1 {
      RowSumOf(src, p, q, d, y, x0, x1 - 1);
    }
  }

  lemma {:induction false} WindowSumOf(src: Source, p: nat, q: nat, d: real, x0: nat, x1: nat, y0: nat, y1: nat)
    ensures WindowSum(Brighter(src, p, q, d), x0, x1, y0, y1)
         == WindowSum(src, x0, x1, y0, y1) + if x0 <= p < x1 && y0 <= q < y1 then d else 0.0
    decreases y1 - y0
  {
    hide RowSum, Brighter;
    if y0 < y1 {
      WindowSumOf(src, p, q, d, x0, x1, y0, y1 - 1);
      RowSumOf(src, p, q, d, y1 - 1, x0, x1);
    }
  }

  /** Every pixel of a window, clipped to the source, counts equally towards the mean, and no other pixel counts. */
  lemma WindowPixelsCountEqually(src: Source, s: real, x: nat, y: nat, p: nat, q: nat, d: real)
    requires s > 0.0 && x < Scaled(src.w, s) && y < Scaled(src.h, s)
    ensures var x0, x1, y0, y1 := From(x, s), Upto(To(x, s), src.w), From(y, s), Upto(To(y, s), src.h);
            && x0 < x1 && y0 < y1 && (x1 - x0) * (y1 - y0) > 0
            && Mean(Brighter(src, p, q, d), s, x, y)
            == Mean(src, s, x, y) + if x0 <= p < x1 && y0 <= q < y1 then d / ((x1 - x0) * (y1 - y0)) as real else 0.0
  {
    hide WindowSum, Scaled;
    WindowStartsInside(src.w, s, x);
    WindowStartsInside(src.h, s, y);
    var x0, x1, y0, y1 := From(x, s), Upto(To(x, s), src.w), From(y, s), Upto(To(y, s), src.h);
    AreaPositive(x1 - x0, y1 - y0);
    WindowSumOf(src, p, q, d, x0, x1, y0, y1);
    SumOver(WindowSum(src, x0, x1, y0, y1), d, ((x1 - x0) * (y1 - y0)) as real);
  }

  lemma SumOver(a: real, b: real, n: real)
    requires n > 0.0
    ensures (a + b) / n == a / n + b / n
  {
  }

  lemma LevelBounds(mean: real, lo: real, hi: real)
    requires 0.0 <= mean <= 1.0 && lo <= mean <= hi
    ensures Level(mean) as real <= 255.0 * hi && Level(mean) as real > 255.0 * lo - 1.0
  {
    var v := mean * 255.0;
    assert 255.0 * lo <= v <= 255.0 * hi;
  }

  lemma SampledPixel(src: Source, s: real, x: nat, y: nat, lo: real, hi: real)
    requires UnitPixels(src) && s > 0.0 && x < Scaled(src.w, s) && y < Scaled(src.h, s)
    requires Between(src, lo, hi, From(x, s), Upto(To(x, s), src.w), From(y, s), Upto(To(y, s), src.h))
    ensures 0.0 <= Mean(src, s, x, y) <= 1.0
    ensures 255.0 * lo - 1.0 < Level(Mean(src, s, x, y)) as real <= 255.0 * hi
  {
    hide Scaled, UnitPixels, Between, Level, Mean, From, To;
    MeanIsUnit(src, s, x, y);
    MeanIsBetween(src, s, x, y, lo, hi);
    LevelBounds(Mean(src, s, x, y), lo, hi);
  }

  /**
   * The bytes of a fitted label. The sampled rectangle is centred, and outside it the label is white. Inside, a byte is
   * 255 times a value between the darkest and the lightest source pixel of its window, rounded down.
   */
  lemma LabelPixels(dst: seq<byte>, cols: nat, rows: nat, src: Source, s: real, x: nat, y: nat, lo: real, hi: real)
    requires UnitPixels(src) && s > 0.0 && Scaled(src.w, s) <= cols && Scaled(src.h, s) <= rows
    requires Fitted(dst, cols, rows, src, s, Scaled(src.h, s), 0) && x < cols && y < rows
    ensures |dst| == rows * cols && y * cols + x < |dst|
    ensures var left, top := (cols - Scaled(src.w, s)) / 2, (rows - Scaled(src.h, s)) / 2;
            var right, bottom := cols - Scaled(src.w, s) - left, rows - Scaled(src.h, s) - top;
            && left <= right <= left + 1 && top <= bottom <= top + 1
            && if left <= x < cols - right && top <= y < rows - bottom then
                 Between(src, lo, hi, From(x - left, s), Upto(To(x - left, s), src.w),
                         From(y - top, s), Upto(To(y - top, s), src.h)) ==>
                   255.0 * lo - 1.0 < dst[y * cols + x] as real <= 255.0 * hi
               else dst[y * cols + x] == 0xFF
  {
    hide Scaled, UnitPixels, Between, Level, Mean, From, To;
    RowStartIsProduct(cols, y);
    RowStartIsProduct(cols, rows);
    var left, top := (cols - Scaled(src.w, s)) / 2, (rows - Scaled(src.h, s)) / 2;
    assert dst[At(cols, x, y)] == FittedLevel(cols, rows, src, s, Scaled(src.h, s), 0, x, y);
    if left <= x < left + Scaled(src.w, s) && top <= y < top + Scaled(src.h, s)
       && Between(src, lo, hi, From(x - left, s), Upto(To(x - left, s), src.w),
                  From(y - top, s), Upto(To(y - top, s), src.h)) {
      SampledPixel(src, s, x - left, y - top, lo, hi);
    }
  }

  /** A source of one value c gives 255 times c, rounded down, in the whole rectangle; a white source a white label. */
  lemma UniformSource(dst: seq<byte>, cols: nat, rows: nat, src: Source, s: real, x: nat, y: nat, c: real)
    requires UnitPixels(src) && s > 0.0 && Scaled(src.w, s) <= cols && Scaled(src.h, s) <= rows
    requires Fitted(dst, cols, rows, src, s, Scaled(src.h, s), 0) && x < cols && y < rows
    requires 0.0 <= c <= 1.0 && forall p: nat, q: nat :: p < src.w && q < src.h ==> src.pixel(p, q) == c
    ensures y * cols + x < |dst|
    ensures var left, top := (cols - Scaled(src.w, s)) / 2, (rows - Scaled(src.h, s)) / 2;
            left <= x < left + Scaled(src.w, s) && top <= y < top + Scaled(src.h, s)
            ==> dst[y * cols + x] as int == (255.0 * c).Floor
    ensures c == 1.0 ==> dst[y * cols + x] == 0xFF
  {
    hide Scaled, UnitPixels, Fitted;
    LabelPixels(dst, cols, rows, src, s, x, y, c, c);
  }

  lemma OrientedIsUnit(cols: nat, rows: nat, img: Source)
    requires UnitPixels(img)
    ensures UnitPixels(Oriented(cols, rows, img))
  {
  }

  lemma BlankIsFitted(dst: seq<byte>, cols: nat, rows: nat, src: Source, s: real)
    requires UnitPixels(src) && s > 0.0 && Scaled(src.w, s) <= cols && Scaled(src.h, s) <= rows
    requires |dst| == At(cols, 0, rows) && forall i :: 0 <= i < |dst| ==> dst[i] == 0xFF
    ensures Fitted(dst, cols, rows, src, s, 0, 0)
  {
    forall x: nat, y: nat | x < cols && y < rows
      ensures At(cols, x, y) < |dst|
    {
      RowsAscend(cols, y, rows);
    }
  }
}
