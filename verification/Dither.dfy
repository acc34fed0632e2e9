/** Floyd-Steinberg error diffusion: the binarising loop of internal/niimbot/image.go, over exact reals. */
module Dithering {

  /** Where row y starts in a flat row-major grid of width w. */
  function RowStart(w: nat, y: nat): nat {
    if y == 0 then 0 else RowStart(w, y - 1) + w
  }

  lemma {:induction false} RowStartIsProduct(w: nat, y: nat)
    ensures RowStart(w, y) == y * w
  {
    if y > 0 {
      RowStartIsProduct(w, y - 1);
      assert (y - 1) * w + w == y * w;
    }
  }

  /** Position of pixel (x, y). */
  function At(w: nat, x: nat, y: nat): nat {
    RowStart(w, y) + x
  }

  lemma {:induction false} RowsAscend(w: nat, y: nat, y': nat)
    requires y < y'
    ensures RowStart(w, y) + w <= RowStart(w, y')
  {
    if y + 1 < y' {
      RowsAscend(w, y, y' - 1);
    }
  }

  lemma AtInjective(w: nat, x: nat, y: nat, x': nat, y': nat)
    requires x < w && x' < w
    ensures At(w, x, y) == At(w, x', y') <==> x == x' && y == y'
  {
    if y < y' {
      RowsAscend(w, y, y');
    } else if y' < y {
      RowsAscend(w, y', y);
    }
  }

  /** The grid of one image: w pixels across the head, h rows, and how to binarise it. */
  datatype Job = Job(w: nat, h: nat, thr: real, dither: bool, init: seq<real>) {
    ghost predicate Valid() {
      |init| == At(w, 0, h)
    }
  }

  function Quantum(v: real, thr: real): real {
    if v > 1.0 - thr then 1.0 else 0.0
  }

  function Add(dark: seq<real>, i: nat, amount: real): seq<real>
    requires i < |dark|
  {
    dark[i := dark[i] + amount]
  }

  /** The push of a pixel's error to its right neighbour. */
  function DiffuseRight(dark: seq<real>, w: nat, h: nat, x: nat, y: nat, e: real): (r: seq<real>)
    requires x < w && y < h && |dark| == At(w, 0, h)
    ensures |r| == |dark|
  {
    RowsAscend(w, y, h);
    if x + 1 < w then Add(dark, At(w, x + 1, y), e * 7.0 / 16.0) else dark
  }

  /** The three pushes of a pixel's error onto the row below. */
  function DiffuseBelow(dark: seq<real>, w: nat, h: nat, x: nat, y: nat, e: real): (r: seq<real>)
    requires x < w && y + 1 < h && |dark| == At(w, 0, h)
    ensures |r| == |dark|
  {
    RowsAscend(w, y + 1, h);
    var d2 := if x > 0 then Add(dark, At(w, x - 1, y + 1), e * 3.0 / 16.0) else dark;
    var d3 := Add(d2, At(w, x, y + 1), e * 5.0 / 16.0);
    if x + 1 < w then Add(d3, At(w, x + 1, y + 1), e * 1.0 / 16.0) else d3
  }

  /** The pushes of one pixel's error onto pixels not yet visited. */
  function Diffuse(dark: seq<real>, w: nat, h: nat, x: nat, y: nat, e: real): (r: seq<real>)
    requires x < w && y < h && |dark| == At(w, 0, h)
    ensures |r| == |dark|
  {
    var d1 := DiffuseRight(dark, w, h, x, y, e);
    if y + 1 < h then DiffuseBelow(d1, w, h, x, y, e) else d1
  }

  /** How much of an error e at (sx, sy) is pushed to (x, y). */
  ghost function Pushed(sx: nat, sy: nat, x: nat, y: nat, e: real): real {
    if y == sy && x == sx + 1 then e * 7.0 / 16.0
    else if y == sy + 1 && x + 1 == sx then e * 3.0 / 16.0
    else if y == sy + 1 && x == sx then e * 5.0 / 16.0
    else if y == sy + 1 && x == sx + 1 then e * 1.0 / 16.0
    else 0.0
  }

  lemma DiffuseAt(dark: seq<real>, w: nat, h: nat, sx: nat, sy: nat, e: real, x: nat, y: nat)
    requires sx < w && sy < h && x < w && y < h && |dark| == At(w, 0, h)
    ensures At(w, x, y) < |dark|
    ensures Diffuse(dark, w, h, sx, sy, e)[At(w, x, y)] == dark[At(w, x, y)] + Pushed(sx, sy, x, y, e)
  {
    RowsAscend(w, y, h);
    RowsAscend(w, sy, h);
    if sy + 1 < h {
      RowsAscend(w, sy + 1, h);
    }
    AtInjective(w, x, y, sx, sy + 1);
    if sx + 1 < w {
      AtInjective(w, x, y, sx + 1, sy);
      AtInjective(w, x, y, sx + 1, sy + 1);
    }
    if sx > 0 {
      AtInjective(w, x, y, sx - 1, sy + 1);
    }
  }

  /** The grid when the raster scan has finished all pixels before (x, y). */
  function Scan(j: Job, x: nat, y: nat): (dark: seq<real>)
    requires j.Valid() && x <= j.w && y <= j.h
    ensures |dark| == At(j.w, 0, j.h)
    decreases y, x
  {
    if x > 0 then
      var before := Scan(j, x - 1, y);
      if y < j.h then Visit(j, before, x - 1, y) else before
    else if y > 0 then Scan(j, j.w, y - 1)
    else j.init
  }

  function Visit(j: Job, dark: seq<real>, x: nat, y: nat): (r: seq<real>)
    requires j.Valid() && |dark| == At(j.w, 0, j.h) && x < j.w && y < j.h
    ensures |r| == |dark|
  {
    RowsAscend(j.w, y, j.h);
    var v := dark[At(j.w, x, y)];
    if j.dither then Diffuse(dark, j.w, j.h, x, y, v - Quantum(v, j.thr)) else dark
  }

  /** The darkness pixel (x, y) has when the scan reaches it. */
  function Value(j: Job, x: nat, y: nat): real
    requires j.Valid() && x < j.w && y < j.h
  {
    RowsAscend(j.w, y, j.h);
    Scan(j, x, y)[At(j.w, x, y)]
  }

  predicate On(j: Job, x: nat, y: nat)
    requires j.Valid() && x < j.w && y < j.h
  {
    Value(j, x, y) > 1.0 - j.thr
  }

  /** The quantisation error of pixel (x, y). */
  function Error(j: Job, x: nat, y: nat): real
    requires j.Valid() && x < j.w && y < j.h
  {
    Value(j, x, y) - Quantum(Value(j, x, y), j.thr)
  }

  predicate Before(x: nat, y: nat, x': nat, y': nat) {
    y < y' || (y == y' && x < x')
  }

  /** What the scan has pushed onto (x, y) once it has finished all pixels before (cx, cy). */
  ghost function Received(j: Job, cx: nat, cy: nat, x: nat, y: nat): real
    requires j.Valid() && x < j.w && y < j.h
  {
    (if x > 0 && Before(x - 1, y, cx, cy) then Error(j, x - 1, y) * 7.0 / 16.0 else 0.0)
    + (if y > 0 && x + 1 < j.w && Before(x + 1, y - 1, cx, cy) then Error(j, x + 1, y - 1) * 3.0 / 16.0 else 0.0)
    + (if y > 0 && Before(x, y - 1, cx, cy) then Error(j, x, y - 1) * 5.0 / 16.0 else 0.0)
    + (if y > 0 && x > 0 && Before(x - 1, y - 1, cx, cy) then Error(j, x - 1, y - 1) * 1.0 / 16.0 else 0.0)
  }

  lemma ReceivedStep(j: Job, cx: nat, cy: nat, x: nat, y: nat)
    requires j.Valid() && x < j.w && y < j.h && cx < j.w && cy < j.h
    ensures Received(j, cx + 1, cy, x, y) == Received(j, cx, cy, x, y) + Pushed(cx, cy, x, y, Error(j, cx, cy))
  {
  }

  lemma ScanAtStep(j: Job, sx: nat, sy: nat, x: nat, y: nat)
    requires j.Valid() && j.dither && x < j.w && y < j.h && sx < j.w && sy < j.h
    ensures At(j.w, x, y) < |j.init|
    ensures Scan(j, sx + 1, sy)[At(j.w, x, y)]
         == Scan(j, sx, sy)[At(j.w, x, y)] + Pushed(sx, sy, x, y, Error(j, sx, sy))
  {
    DiffuseAt(Scan(j, sx, sy), j.w, j.h, sx, sy, Error(j, sx, sy), x, y);
  }

  lemma {:induction false} ScanAt(j: Job, cx: nat, cy: nat, x: nat, y: nat)
    requires j.Valid() && j.dither && x < j.w && y < j.h && cx <= j.w && cy <= j.h
    ensures At(j.w, x, y) < |j.init|
    ensures cy < j.h ==>
      Scan(j, cx, cy)[At(j.w, x, y)] == j.init[At(j.w, x, y)] + Received(j, cx, cy, x, y)
    decreases cy, cx
  {
    hide Visit, Pushed, Error;
    RowsAscend(j.w, y, j.h);
    if cy < j.h {
      if cx > 0 {
        ScanAt(j, cx - 1, cy, x, y);
        ScanAtStep(j, cx - 1, cy, x, y);
        ReceivedStep(j, cx - 1, cy, x, y);
      } else if cy > 0 {
        ScanAt(j, j.w, cy - 1, x, y);
        assert forall sx: nat, sy: nat :: sx < j.w ==> (Before(sx, sy, j.w, cy - 1) <==> Before(sx, sy, 0, cy));
      }
    }
  }

  /**
   * The in-place scatter computes the textbook gather: a pixel is its own darkness plus
   * 7, 3, 5 and 1 sixteenths of the errors to its west, north-east, north and north-west.
   */
  lemma ScatterIsGather(j: Job, x: nat, y: nat)
    requires j.Valid() && j.dither && x < j.w && y < j.h
    ensures At(j.w, x, y) < |j.init|
    ensures Value(j, x, y) == j.init[At(j.w, x, y)]
      + (if x > 0 then Error(j, x - 1, y) * 7.0 / 16.0 else 0.0)
      + (if y > 0 && x + 1 < j.w then Error(j, x + 1, y - 1) * 3.0 / 16.0 else 0.0)
      + (if y > 0 then Error(j, x, y - 1) * 5.0 / 16.0 else 0.0)
      + (if y > 0 && x > 0 then Error(j, x - 1, y - 1) * 1.0 / 16.0 else 0.0)
  {
    ScanAt(j, x, y, x, y);
  }

  lemma {:induction false} UnditheredIsInput(j: Job, x: nat, y: nat)
    requires j.Valid() && !j.dither && x <= j.w && y <= j.h
    ensures Scan(j, x, y) == j.init
    decreases y, x
  {
    if x > 0 {
      UnditheredIsInput(j, x - 1, y);
    } else if y > 0 {
      UnditheredIsInput(j, j.w, y - 1);
    }
  }

  // ---- Error bound ----

  ghost predicate UnitDarkness(j: Job) {
    forall i :: 0 <= i < |j.init| ==> 0.0 <= j.init[i] <= 1.0
  }

  ghost predicate ErrorBounded(j: Job, x: nat, y: nat)
    requires j.Valid() && x < j.w && y < j.h
  {
    -j.thr <= Error(j, x, y) <= 1.0 - j.thr
  }

  lemma {:induction false} DitherErrorBound(j: Job, x: nat, y: nat)
    requires j.Valid() && j.dither && x < j.w && y < j.h
    requires UnitDarkness(j) && 0.0 < j.thr <= 1.0
    ensures ErrorBounded(j, x, y)
    decreases y, x
  {
    hide Scan;
    ScatterIsGather(j, x, y);
    if x > 0 {
      DitherErrorBound(j, x - 1, y);
    }
    if y > 0 {
      DitherErrorBound(j, x, y - 1);
      if x > 0 {
        DitherErrorBound(j, x - 1, y - 1);
      }
      if x + 1 < j.w {
        DitherErrorBound(j, x + 1, y - 1);
      }
    }
  }

  lemma OverThresholdBreaksBound(thr: real)
    requires thr > 1.0
    ensures var j := Job(1, 1, thr, true, [1.0]); j.Valid() && UnitDarkness(j) && !ErrorBounded(j, 0, 0)
  {
    var j := Job(1, 1, thr, true, [1.0]);
    assert RowStart(1, 1) == 1;
    ScatterIsGather(j, 0, 0);
  }

  /** The bound holds for every image exactly when the threshold is at most 1. */
  lemma ErrorBoundExactly(thr: real)
    requires thr > 0.0
    ensures (forall j: Job, x: nat, y: nat |
               j.thr == thr && j.dither && j.Valid() && UnitDarkness(j) && x < j.w && y < j.h ::
               ErrorBounded(j, x, y))
            <==> thr <= 1.0
  {
    if thr <= 1.0 {
      forall j: Job, x: nat, y: nat | j.thr == thr && j.dither && j.Valid() && UnitDarkness(j) && x < j.w && y < j.h
        ensures ErrorBounded(j, x, y)
      {
        DitherErrorBound(j, x, y);
      }
    } else {
      OverThresholdBreaksBound(thr);
    }
  }

  // ---- Conservation ----

  ghost function SumFrom(s: seq<real>, from: nat): real
    requires from <= |s|
    decreases |s| - from
  {
    if from == |s| then 0.0 else s[from] + SumFrom(s, from + 1)
  }

  lemma {:induction false} SumFromAdd(s: seq<real>, from: nat, i: nat, amount: real)
    requires from <= i < |s|
    ensures SumFrom(Add(s, i, amount), from) == SumFrom(s, from) + amount
    decreases i - from
  {
    if from < i {
      SumFromAdd(s, from + 1, i, amount);
    } else {
      SumFromAgrees(Add(s, i, amount), s, from + 1);
    }
  }

  lemma {:induction false} SumFromAgrees(s: seq<real>, t: seq<real>, from: nat)
    requires from <= |s| == |t|
    requires s[from..] == t[from..]
    ensures SumFrom(s, from) == SumFrom(t, from)
    decreases |s| - from
  {
    if from < |s| {
      assert s[from] == s[from..][0] && t[from] == t[from..][0];
      assert s[from + 1..] == s[from..][1..] && t[from + 1..] == t[from..][1..];
      SumFromAgrees(s, t, from + 1);
    }
  }

  /** The part of an error e at (x, y) that falls off the left, right or bottom edge. */
  ghost function Discarded(w: nat, h: nat, x: nat, y: nat, e: real): real {
    (if x + 1 < w then 0.0 else e * 7.0 / 16.0)
    + (if y + 1 < h then
         (if x > 0 then 0.0 else e * 3.0 / 16.0) + (if x + 1 < w then 0.0 else e * 1.0 / 16.0)
       else e * 9.0 / 16.0)
  }

  lemma DiffuseRightKeeps(dark: seq<real>, w: nat, h: nat, x: nat, y: nat, e: real)
    requires x < w && y < h && |dark| == At(w, 0, h)
    ensures At(w, x, y) < |dark|
    ensures SumFrom(DiffuseRight(dark, w, h, x, y, e), At(w, x, y) + 1)
         == SumFrom(dark, At(w, x, y) + 1) + (if x + 1 < w then e * 7.0 / 16.0 else 0.0)
  {
    RowsAscend(w, y, h);
    if x + 1 < w {
      SumFromAdd(dark, At(w, x, y) + 1, At(w, x + 1, y), e * 7.0 / 16.0);
    }
  }

  lemma DiffuseBelowKeeps(dark: seq<real>, w: nat, h: nat, x: nat, y: nat, e: real, from: nat)
    requires x < w && y + 1 < h && |dark| == At(w, 0, h)
    requires from <= RowStart(w, y + 1) + (if x > 0 then x - 1 else x)
    ensures from <= |dark|
    ensures SumFrom(DiffuseBelow(dark, w, h, x, y, e), from)
         == SumFrom(dark, from) + e * 9.0 / 16.0
            - (if x > 0 then 0.0 else e * 3.0 / 16.0) - (if x + 1 < w then 0.0 else e * 1.0 / 16.0)
  {
    RowsAscend(w, y + 1, h);
    var d := dark;
    if x > 0 {
      SumFromAdd(d, from, At(w, x - 1, y + 1), e * 3.0 / 16.0);
      d := Add(d, At(w, x - 1, y + 1), e * 3.0 / 16.0);
    }
    SumFromAdd(d, from, At(w, x, y + 1), e * 5.0 / 16.0);
    d := Add(d, At(w, x, y + 1), e * 5.0 / 16.0);
    if x + 1 < w {
      SumFromAdd(d, from, At(w, x + 1, y + 1), e * 1.0 / 16.0);
    }
  }

  lemma DiffuseKeepsTheRest(dark: seq<real>, w: nat, h: nat, x: nat, y: nat, e: real)
    requires x < w && y < h && |dark| == At(w, 0, h)
    ensures At(w, x, y) < |dark|
    ensures SumFrom(Diffuse(dark, w, h, x, y, e), At(w, x, y) + 1)
         == SumFrom(dark, At(w, x, y) + 1) + e - Discarded(w, h, x, y, e)
  {
    hide SumFrom, DiffuseRight, DiffuseBelow;
    RowsAscend(w, y, h);
    DiffuseRightKeeps(dark, w, h, x, y, e);
    if y + 1 < h {
      DiffuseBelowKeeps(DiffuseRight(dark, w, h, x, y, e), w, h, x, y, e, At(w, x, y) + 1);
    }
  }

  /** Black pixels printed before the scan reaches (x, y). */
  ghost function BlacksBefore(j: Job, x: nat, y: nat): nat
    requires j.Valid() && x <= j.w && y <= j.h && (y == j.h ==> x == 0)
    decreases y, x
  {
    if x > 0 then BlacksBefore(j, x - 1, y) + (if On(j, x - 1, y) then 1 else 0)
    else if y > 0 then BlacksBefore(j, j.w, y - 1)
    else 0
  }

  /** Error shares that have fallen off an edge before the scan reaches (x, y). */
  ghost function LostBefore(j: Job, x: nat, y: nat): real
    requires j.Valid() && x <= j.w && y <= j.h && (y == j.h ==> x == 0)
    decreases y, x
  {
    if x > 0 then LostBefore(j, x - 1, y) + Discarded(j.w, j.h, x - 1, y, Error(j, x - 1, y))
    else if y > 0 then LostBefore(j, j.w, y - 1)
    else 0.0
  }

  lemma ScanKeepsTheRest(j: Job, x: nat, y: nat)
    requires j.Valid() && j.dither && x < j.w && y < j.h
    ensures At(j.w, x, y) < |j.init|
    ensures SumFrom(Scan(j, x, y), At(j.w, x, y))
         == (if On(j, x, y) then 1.0 else 0.0) + Discarded(j.w, j.h, x, y, Error(j, x, y))
            + SumFrom(Scan(j, x + 1, y), At(j.w, x + 1, y))
  {
    hide Discarded, Diffuse;
    DiffuseKeepsTheRest(Scan(j, x, y), j.w, j.h, x, y, Error(j, x, y));
  }

  lemma {:induction false} DarknessBalance(j: Job, x: nat, y: nat)
    requires j.Valid() && j.dither && x <= j.w && y <= j.h && (y == j.h ==> x == 0)
    ensures At(j.w, x, y) <= |j.init|
    ensures SumFrom(j.init, 0)
         == BlacksBefore(j, x, y) as real + LostBefore(j, x, y) + SumFrom(Scan(j, x, y), At(j.w, x, y))
    decreases y, x
  {
    hide SumFrom, On, Error, Discarded;
    if x > 0 {
      DarknessBalance(j, x - 1, y);
      ScanKeepsTheRest(j, x - 1, y);
    } else if y > 0 {
      DarknessBalance(j, j.w, y - 1);
    }
  }

  /** Over the whole image, darkness in equals ink out plus exactly what the borders discard. */
  lemma DarknessIsConserved(j: Job)
    requires j.Valid() && j.dither
    ensures SumFrom(j.init, 0) - BlacksBefore(j, 0, j.h) as real == LostBefore(j, 0, j.h)
  {
    DarknessBalance(j, 0, j.h);
  }
}
