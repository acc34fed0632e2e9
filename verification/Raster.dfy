/** Binarised rows and run-length merging: Encode and Image of internal/niimbot/image.go. */
module Raster {
  import opened Bytes
  import opened Dithering

  function Mask(k: nat): bv8
    requires k < 8
  {
    0x80 >> k
  }

  /** Pixel k of a raster byte, most significant bit first. */
  predicate HasBit(b: bv8, k: nat)
    requires k < 8
  {
    b & Mask(k) != 0
  }

  lemma MaskSetsOneBit(b: bv8, k: nat, i: nat)
    requires k < 8 && i < 8
    ensures HasBit(b | Mask(k), i) <==> HasBit(b, i) || i == k
    ensures !HasBit(0, i)
  {
  }

  /** The content of one print-head row; a row without ink has no bits. */
  datatype Line = Line(bits: seq<bv8>, black: nat)

  /** A run of identical rows. */
  datatype Row = Row(index: nat, repeat: nat, line: Line) {
    predicate Blank() { line.black == 0 }
    function End(): nat { index + repeat }
  }

  datatype EncodedImage = EncodedImage(cols: nat, rows: nat, runs: seq<Row>)

  datatype EncodeOptions = EncodeOptions(threshold: real, dither: bool)

  const MAX_REPEAT: nat := 255

  /** The row width padded to whole bytes. */
  function Columns(w: nat): nat {
    (w + 7) / 8 * 8
  }

  function JobOf(w: nat, h: nat, dark: seq<real>, opts: EncodeOptions): Job {
    Job(w, h, if opts.threshold <= 0.0 then 0.5 else opts.threshold, opts.dither, dark)
  }

  // ---- Packing ----

  function PackUpTo(j: Job, y: nat, x: nat): (bits: seq<bv8>)
    requires j.Valid() && y < j.h && x <= j.w
    ensures |bits| == Columns(j.w) / 8
  {
    if x == 0 then seq(Columns(j.w) / 8, _ => 0)
    else
      var bits := PackUpTo(j, y, x - 1);
      var i := (x - 1) / 8;
      if On(j, x - 1, y) then bits[i := bits[i] | Mask((x - 1) % 8)] else bits
  }

  function CountUpTo(j: Job, y: nat, x: nat): nat
    requires j.Valid() && y < j.h && x <= j.w
  {
    if x == 0 then 0 else CountUpTo(j, y, x - 1) + if On(j, x - 1, y) then 1 else 0
  }

  function LineOf(j: Job, y: nat): Line
    requires j.Valid() && y < j.h
  {
    var black := CountUpTo(j, y, j.w);
    Line(if black == 0 then [] else PackUpTo(j, y, j.w), black)
  }

  function LinesUpTo(j: Job, h: nat): (lines: seq<Line>)
    requires j.Valid() && h <= j.h
    ensures |lines| == h
  {
    if h == 0 then [] else LinesUpTo(j, h - 1) + [LineOf(j, h - 1)]
  }

  lemma {:induction false} LinesAt(j: Job, h: nat, y: nat)
    requires j.Valid() && y < h <= j.h
    ensures LinesUpTo(j, h)[y] == LineOf(j, y)
  {
    if y < h - 1 {
      LinesAt(j, h - 1, y);
    }
  }

  predicate LineShows(line: Line, x: nat) {
    line.black != 0 && x / 8 < |line.bits| && HasBit(line.bits[x / 8], x % 8)
  }

  lemma SameBit(i: nat, k: nat)
    ensures i == k <==> i / 8 == k / 8 && i % 8 == k % 8
  {
  }

  lemma PackOneMore(j: Job, y: nat, x: nat, i: nat)
    requires j.Valid() && y < j.h && x < j.w && i < Columns(j.w)
    ensures HasBit(PackUpTo(j, y, x + 1)[i / 8], i % 8)
      <==> HasBit(PackUpTo(j, y, x)[i / 8], i % 8) || (i == x && On(j, i, y))
  {
    hide On, HasBit, Mask;
    SameBit(i, x);
    MaskSetsOneBit(PackUpTo(j, y, x)[i / 8], x % 8, i % 8);
  }

  lemma {:induction false} PackedBit(j: Job, y: nat, x: nat, i: nat)
    requires j.Valid() && y < j.h && x <= j.w && i < Columns(j.w)
    ensures HasBit(PackUpTo(j, y, x)[i / 8], i % 8) <==> i < x && On(j, i, y)
  {
    hide On, HasBit, Mask;
    if x == 0 {
      MaskSetsOneBit(0, 0, i % 8);
    } else {
      PackedBit(j, y, x - 1, i);
      PackOneMore(j, y, x - 1, i);
    }
  }

  lemma {:induction false} NoInkCounted(j: Job, y: nat, x: nat)
    requires j.Valid() && y < j.h && x <= j.w
    ensures CountUpTo(j, y, x) == 0 <==> forall i: nat :: i < x ==> !On(j, i, y)
  {
    if x > 0 {
      NoInkCounted(j, y, x - 1);
    }
  }

  /** A packed row shows exactly the black pixels of its image row, and white padding. */
  lemma LineShowsBitmap(j: Job, y: nat, x: nat)
    requires j.Valid() && y < j.h && x < Columns(j.w)
    ensures LineShows(LineOf(j, y), x) <==> x < j.w && On(j, x, y)
  {
    PackedBit(j, y, j.w, x);
    NoInkCounted(j, y, j.w);
  }

  /** Without dithering a pixel prints black exactly when its luminance is strictly below the threshold. */
  lemma ThresholdIsStrict(j: Job, x: nat, y: nat)
    requires j.Valid() && !j.dither && x < j.w && y < j.h
    ensures At(j.w, x, y) < |j.init|
    ensures On(j, x, y) <==> 1.0 - j.init[At(j.w, x, y)] < j.thr
  {
    RowsAscend(j.w, y, j.h);
    UnditheredIsInput(j, x, y);
  }

  // ---- Run-length merging ----

  function Absorb(runs: seq<Row>, line: Line, y: nat): seq<Row> {
    var n := |runs|;
    if n > 0 && runs[n - 1].repeat < MAX_REPEAT && runs[n - 1].line == line
    then runs[n - 1 := runs[n - 1].(repeat := runs[n - 1].repeat + 1)]
    else runs + [Row(y, 1, line)]
  }

  function Merge(lines: seq<Line>): seq<Row> {
    if lines == [] then []
    else Absorb(Merge(lines[..|lines| - 1]), lines[|lines| - 1], |lines| - 1)
  }

  /** A run of 1 to 255 rows, all identical to its line. */
  ghost predicate Fits(r: Row, lines: seq<Line>) {
    && 1 <= r.repeat <= MAX_REPEAT && r.End() <= |lines|
    && forall y :: r.index <= y < r.End() ==> lines[y] == r.line
  }

  /** The runs cut the rows into consecutive blocks of identical rows. */
  ghost predicate Tiles(runs: seq<Row>, lines: seq<Line>) {
    && (runs == [] <==> lines == [])
    && (runs != [] ==> runs[0].index == 0 && runs[|runs| - 1].End() == |lines|)
    && (forall i :: 0 <= i < |runs| ==> Fits(runs[i], lines))
    && (forall i :: 0 < i < |runs| ==> runs[i].index == runs[i - 1].End())
  }

  /** A run stops only when it is full or the next row differs. */
  ghost predicate Greedy(runs: seq<Row>) {
    forall i :: 0 < i < |runs| ==> runs[i - 1].repeat == MAX_REPEAT || runs[i - 1].line != runs[i].line
  }

  lemma FitsLonger(r: Row, lines: seq<Line>, line: Line)
    requires Fits(r, lines)
    ensures Fits(r, lines + [line])
    ensures r.End() == |lines| && r.repeat < MAX_REPEAT && r.line == line
      ==> Fits(r.(repeat := r.repeat + 1), lines + [line])
  {
  }

  lemma AbsorbTiles(runs: seq<Row>, lines: seq<Line>, line: Line)
    requires Tiles(runs, lines) && Greedy(runs)
    ensures Tiles(Absorb(runs, line, |lines|), lines + [line])
    ensures Greedy(Absorb(runs, line, |lines|))
  {
    var all, out := lines + [line], Absorb(runs, line, |lines|);
    forall i | 0 <= i < |runs|
      ensures Fits(out[i], all)
    {
      FitsLonger(runs[i], lines, line);
    }
    assert |out| > |runs| ==> Fits(out[|runs|], all);
  }

  lemma {:induction false} MergeTiles(lines: seq<Line>)
    ensures Tiles(Merge(lines), lines) && Greedy(Merge(lines))
  {
    if lines != [] {
      hide Tiles, Greedy, Absorb;
      var init := lines[..|lines| - 1];
      MergeTiles(init);
      AbsorbTiles(Merge(init), init, lines[|lines| - 1]);
      assert init + [lines[|lines| - 1]] == lines;
    }
  }

  /** After equally many runs, the greedy runs have covered at least as many rows as any tiling. */
  lemma {:induction false} GreedyStaysAhead(g: seq<Row>, t: seq<Row>, lines: seq<Line>, k: nat)
    requires Tiles(g, lines) && Greedy(g) && Tiles(t, lines)
    requires k < |g| && k < |t|
    ensures g[k].End() >= t[k].End()
  {
    if k > 0 {
      GreedyStaysAhead(g, t, lines, k - 1);
    }
    // The run after g[k], if any, starts at row g[k].End(); were that row in t[k], the merge would have gone on.
    assert lines[g[k].index] == g[k].line;
    assert k + 1 < |g| ==> g[k + 1].index == g[k].End() && lines[g[k + 1].index] == g[k + 1].line;
  }

  /** No tiling of the rows uses fewer runs than the greedy merge. */
  lemma MergeIsOptimal(lines: seq<Line>, t: seq<Row>)
    requires Tiles(t, lines)
    ensures |Merge(lines)| <= |t|
  {
    MergeTiles(lines);
    var g := Merge(lines);
    if |t| < |g| {
      assert Fits(g[|t|], lines) && g[|t|].index == g[|t| - 1].End();
      GreedyStaysAhead(g, t, lines, |t| - 1);
    }
  }

  /** Every row belongs to exactly one run. */
  lemma {:induction false} RunOfRow(runs: seq<Row>, lines: seq<Line>, y: nat, upTo: nat) returns (i: nat)
    requires Tiles(runs, lines) && 0 < upTo <= |runs| && y < runs[upTo - 1].End()
    ensures i < upTo && runs[i].index <= y < runs[i].End()
  {
    i := upTo - 1;
    if y < runs[i].index {
      i := RunOfRow(runs, lines, y, upTo - 1);
    }
  }

  // ---- Encode ----

  method DiffuseInPlace(dark: array<real>, w: nat, h: nat, x: nat, y: nat, e: real)
    requires x < w && y < h && dark.Length == At(w, 0, h)
    modifies dark
    ensures dark[..] == Diffuse(old(dark[..]), w, h, x, y, e)
  {
    ghost var was := dark[..];
    RowStartIsProduct(w, y);
    RowStartIsProduct(w, y + 1);
    RowsAscend(w, y, h);
    if x + 1 < w {
      AddInPlace(dark, y * w + x + 1, e * 7.0 / 16.0);
    }
    if y + 1 < h {
      RowsAscend(w, y + 1, h);
      if x > 0 {
        AddInPlace(dark, (y + 1) * w + x - 1, e * 3.0 / 16.0);
      }
      AddInPlace(dark, (y + 1) * w + x, e * 5.0 / 16.0);
      if x + 1 < w {
        AddInPlace(dark, (y + 1) * w + x + 1, e * 1.0 / 16.0);
      }
    }
  }

  method AddInPlace(dark: array<real>, i: nat, amount: real)
    requires i < dark.Length
    modifies dark
    ensures dark[..] == Add(old(dark[..]), i, amount)
  {
    dark[i] := dark[i] + amount;
  }

  /** One pixel of the scan: decide, then diffuse the error if asked to. */
  method VisitInPlace(j: Job, dark: array<real>, x: nat, y: nat) returns (on: bool)
    requires j.Valid() && x < j.w && y < j.h
    requires dark[..] == Scan(j, x, y)
    modifies dark
    ensures dark[..] == Scan(j, x + 1, y)
    ensures on <==> On(j, x, y)
  {
    RowStartIsProduct(j.w, y);
    RowsAscend(j.w, y, j.h);
    var v := dark[y * j.w + x];
    on := v > 1.0 - j.thr;
    if j.dither {
      var q := if on then 1.0 else 0.0;
      DiffuseInPlace(dark, j.w, j.h, x, y, v - q);
    }
  }

  /** Binarises row y of the grid, as the inner loop of Encode does. */
  method EncodeRow(j: Job, dark: array<real>, y: nat) returns (line: Line)
    requires j.Valid() && y < j.h
    requires dark[..] == Scan(j, 0, y)
    modifies dark
    ensures dark[..] == Scan(j, 0, y + 1)
    ensures line == LineOf(j, y)
  {
    hide Scan, On;
    var bits := new bv8[Columns(j.w) / 8](_ => 0);
    assert bits[..] == PackUpTo(j, y, 0);
    var black := 0;
    for x := 0 to j.w
      invariant dark[..] == Scan(j, x, y)
      invariant bits[..] == PackUpTo(j, y, x)
      invariant black == CountUpTo(j, y, x)
    {
      var on := VisitInPlace(j, dark, x, y);
      if on {
        bits[x / 8] := bits[x / 8] | (0x80 >> (x % 8));
        black := black + 1;
      }
    }
    RowWraps(j, y);
    return Line(if black == 0 then [] else bits[..], black);
  }

  lemma RowWraps(j: Job, y: nat)
    requires j.Valid() && y < j.h
    ensures Scan(j, 0, y + 1) == Scan(j, j.w, y)
  {
  }

  /** Extends the last run if it is identical and its one-byte repeat counter has room. */
  method AbsorbLine(runs: seq<Row>, line: Line, y: nat) returns (out: seq<Row>)
    ensures out == Absorb(runs, line, y)
  {
    var n := |runs|;
    if n > 0 {
      var last := runs[n - 1];
      if last.repeat < 255 && last.line.black == line.black && last.line.bits == line.bits {
        last := last.(repeat := last.repeat + 1);
        return runs[n - 1 := last];
      }
    }
    return runs + [Row(y, 1, line)];
  }

  lemma MergeNext(j: Job, y: nat)
    requires j.Valid() && y < j.h
    ensures Merge(LinesUpTo(j, y + 1)) == Absorb(Merge(LinesUpTo(j, y)), LineOf(j, y), y)
  {
    hide LineOf, Absorb;
    assert LinesUpTo(j, y + 1)[..y] == LinesUpTo(j, y);
  }

  lemma ScanStart(j: Job)
    requires j.Valid()
    ensures Scan(j, 0, 0) == j.init && Merge(LinesUpTo(j, 0)) == []
  {
  }

  /** The pixels shown are those darker than one minus t. */
  ghost predicate Thresholded(shows: (nat, nat) -> bool, w: nat, h: nat, darkness: seq<real>, t: real) {
    forall x: nat, y: nat :: x < w && y < h ==>
      At(w, x, y) < |darkness| && (shows(x, y) <==> darkness[At(w, x, y)] > 1.0 - t)
  }

  /** A pixel's darkness and what the textbook diffusion brings to it from the errors of its four neighbours. */
  ghost function Gathered(err: (nat, nat) -> real, own: real, w: nat, x: nat, y: nat): real {
    own
    + (if x > 0 then err(x - 1, y) * 7.0 / 16.0 else 0.0)
    + (if y > 0 && x + 1 < w then err(x + 1, y - 1) * 3.0 / 16.0 else 0.0)
    + (if y > 0 then err(x, y - 1) * 5.0 / 16.0 else 0.0)
    + (if y > 0 && x > 0 then err(x - 1, y - 1) * 1.0 / 16.0 else 0.0)
  }

  /** The pixels shown are those whose gathered darkness is over one minus t, and err is what each leaves over. */
  ghost predicate Gathers(shows: (nat, nat) -> bool, err: (nat, nat) -> real, w: nat, h: nat, darkness: seq<real>,
                          t: real) {
    forall x: nat, y: nat :: x < w && y < h ==>
      && At(w, x, y) < |darkness|
      && (shows(x, y) <==> Gathered(err, darkness[At(w, x, y)], w, x, y) > 1.0 - t)
      && err(x, y) == Gathered(err, darkness[At(w, x, y)], w, x, y) - if shows(x, y) then 1.0 else 0.0
  }

  /**
   * The pixels shown are the binarised image: thresholded, or diffused when asked for, at one half unless a
   * positive threshold is given.
   */
  ghost predicate Binarises(shows: (nat, nat) -> bool, w: nat, h: nat, darkness: seq<real>, opts: EncodeOptions) {
    var t := if opts.threshold > 0.0 then opts.threshold else 0.5;
    if opts.dither then exists err :: Gathers(shows, err, w, h, darkness, t)
    else Thresholded(shows, w, h, darkness, t)
  }

  lemma BinarisesAlike(a: (nat, nat) -> bool, b: (nat, nat) -> bool, w: nat, h: nat, darkness: seq<real>,
                       opts: EncodeOptions)
    requires Binarises(a, w, h, darkness, opts)
    requires forall x: nat, y: nat :: x < w && y < h ==> (a(x, y) <==> b(x, y))
    ensures Binarises(b, w, h, darkness, opts)
  {
    hide Gathered;
    var t := if opts.threshold > 0.0 then opts.threshold else 0.5;
    if opts.dither {
      var err :| Gathers(a, err, w, h, darkness, t);
      assert Gathers(b, err, w, h, darkness, t);
    }
  }

  ghost function Errors(j: Job): (nat, nat) -> real
    requires j.Valid()
  {
    (x: nat, y: nat) => if x < j.w && y < j.h then Error(j, x, y) else 0.0
  }

  ghost function Blacks(j: Job): (nat, nat) -> bool
    requires j.Valid()
  {
    (x: nat, y: nat) => x < j.w && y < j.h && On(j, x, y)
  }

  lemma GatheredIsValue(j: Job, x: nat, y: nat)
    requires j.Valid() && j.dither && x < j.w && y < j.h
    ensures At(j.w, x, y) < |j.init|
    ensures Gathered(Errors(j), j.init[At(j.w, x, y)], j.w, x, y) == Value(j, x, y)
  {
    hide Error, Value;
    ScatterIsGather(j, x, y);
  }

  lemma ErrorLeavesOver(j: Job, x: nat, y: nat)
    requires j.Valid() && x < j.w && y < j.h
    ensures Errors(j)(x, y) == Value(j, x, y) - if Blacks(j)(x, y) then 1.0 else 0.0
    ensures Blacks(j)(x, y) <==> Value(j, x, y) > 1.0 - j.thr
  {
    hide Value;
  }

  lemma JobGathers(j: Job)
    requires j.Valid() && j.dither
    ensures Gathers(Blacks(j), Errors(j), j.w, j.h, j.init, j.thr)
  {
    hide Gathered, Errors, Blacks, Value;
    forall x: nat, y: nat | x < j.w && y < j.h
      ensures At(j.w, x, y) < |j.init|
      ensures Blacks(j)(x, y) <==> Gathered(Errors(j), j.init[At(j.w, x, y)], j.w, x, y) > 1.0 - j.thr
      ensures Errors(j)(x, y)
           == Gathered(Errors(j), j.init[At(j.w, x, y)], j.w, x, y) - if Blacks(j)(x, y) then 1.0 else 0.0
    {
      GatheredIsValue(j, x, y);
      ErrorLeavesOver(j, x, y);
    }
  }

  /** The job the options stand for shows the binarised image. */
  lemma JobBinarises(w: nat, h: nat, darkness: seq<real>, opts: EncodeOptions)
    requires |darkness| == At(w, 0, h)
    ensures Binarises(Blacks(JobOf(w, h, darkness, opts)), w, h, darkness, opts)
  {
    hide Gathers, Errors, On;
    var j := JobOf(w, h, darkness, opts);
    if opts.dither {
      JobGathers(j);
    } else {
      forall x: nat, y: nat | x < w && y < h
        ensures At(w, x, y) < |darkness| && (Blacks(j)(x, y) <==> darkness[At(w, x, y)] > 1.0 - j.thr)
      {
        ThresholdIsStrict(j, x, y);
      }
    }
  }

  /** The runs of an encoded image paint the binarised image. */
  lemma RunsBinarise(w: nat, h: nat, darkness: seq<real>, opts: EncodeOptions)
    requires |darkness| == At(w, 0, h)
    ensures var runs := Merge(LinesUpTo(JobOf(w, h, darkness, opts), h));
            && Binarises((x: nat, y: nat) => Painted(runs, x, y), w, h, darkness, opts)
            && forall x: nat, y: nat :: w <= x < Columns(w) && y < h ==> !Painted(runs, x, y)
  {
    hide On, Merge, LinesUpTo, Painted, Binarises;
    var j := JobOf(w, h, darkness, opts);
    var runs := Merge(LinesUpTo(j, h));
    forall x: nat, y: nat | x < Columns(w) && y < h
      ensures Painted(runs, x, y) <==> x < w && On(j, x, y)
    {
      MergedRunsPaintBitmap(j, x, y);
    }
    JobBinarises(w, h, darkness, opts);
    BinarisesAlike(Blacks(j), (x: nat, y: nat) => Painted(runs, x, y), w, h, darkness, opts);
  }

  /** The first pixel of a raster byte is its most significant bit. */
  lemma FirstPixelIsTopBit(b: bv8, k: nat)
    requires k < 8
    ensures HasBit(b, k) <==> (b >> (7 - k)) & 1 == 1
  {
  }

  method Encode(w: nat, h: nat, darkness: seq<real>, opts: EncodeOptions) returns (enc: EncodedImage)
    requires |darkness| == At(w, 0, h)
    ensures enc.rows == h && enc.cols == Columns(w)
    ensures enc.cols % 8 == 0 && w <= enc.cols < w + 8
    ensures Binarises((x: nat, y: nat) => Painted(enc.runs, x, y), w, h, darkness, opts)
    ensures forall x: nat, y: nat :: w <= x < enc.cols && y < h ==> !Painted(enc.runs, x, y)
    ensures enc.runs == Merge(LinesUpTo(JobOf(w, h, darkness, opts), h))
  {
    hide Scan, Merge, Absorb, LineOf, Binarises, Painted;
    var thr := opts.threshold;
    if thr <= 0.0 {
      thr := 0.5;
    }
    var j := Job(w, h, thr, opts.dither, darkness);
    var dark := new real[|darkness|](i requires 0 <= i < |darkness| => darkness[i]);
    assert dark[..] == darkness;
    ScanStart(j);
    var runs: seq<Row> := [];
    for y := 0 to h
      invariant dark[..] == Scan(j, 0, y)
      invariant runs == Merge(LinesUpTo(j, y))
    {
      var line := EncodeRow(j, dark, y);
      MergeNext(j, y);
      runs := AbsorbLine(runs, line, y);
    }
    RunsBinarise(w, h, darkness, opts);
    return EncodedImage((w + 7) / 8 * 8, h, runs);
  }

  // ---- Image ----

  ghost predicate RunShows(r: Row, x: nat, y: nat) {
    r.index <= y < r.End() && LineShows(r.line, x)
  }

  /** Some run paints pixel (x, y) black. */
  ghost predicate Painted(runs: seq<Row>, x: nat, y: nat) {
    exists i :: 0 <= i < |runs| && RunShows(runs[i], x, y)
  }

  /** The image painted by runs that encode a bitmap is that bitmap. */
  lemma MergedRunsPaintBitmap(j: Job, x: nat, y: nat)
    requires j.Valid() && y < j.h && x < Columns(j.w)
    ensures Painted(Merge(LinesUpTo(j, j.h)), x, y) <==> x < j.w && On(j, x, y)
  {
    var lines := LinesUpTo(j, j.h);
    var runs := Merge(lines);
    MergeTiles(lines);
    LinesAt(j, j.h, y);
    LineShowsBitmap(j, y, x);
    var i := RunOfRow(runs, lines, y, |runs|);
    assert lines[y] == runs[i].line;
    assert RunShows(runs[i], x, y) <==> x < j.w && On(j, x, y);
  }

  function PixelAt(pix: seq<byte>, cols: nat, rows: nat, x: nat, y: nat): byte
    requires |pix| == At(cols, 0, rows) && x < cols && y < rows
  {
    RowsAscend(cols, y, rows);
    pix[At(cols, x, y)]
  }

  /** Pixel (x, y) once the painter has done `i` runs, `k` rows of the next one and `px` pixels of the next row. */
  ghost predicate PaintedBefore(runs: seq<Row>, i: nat, k: nat, px: nat, x: nat, y: nat)
    requires i <= |runs|
  {
    || Painted(runs[..i], x, y)
    || (i < |runs| && RunShows(runs[i], x, y)
        && (y < runs[i].index + k || (y == runs[i].index + k && x < px)))
  }

  ghost predicate Shows(pix: seq<byte>, enc: EncodedImage, i: nat, k: nat, px: nat)
    requires |pix| == At(enc.cols, 0, enc.rows) && i <= |enc.runs|
  {
    forall x: nat, y: nat | x < enc.cols && y < enc.rows ::
      PixelAt(pix, enc.cols, enc.rows, x, y) == if PaintedBefore(enc.runs, i, k, px, x, y) then 0 else 0xFF
  }

  lemma PaintPixel(pix: seq<byte>, enc: EncodedImage, i: nat, k: nat, px: nat, ink: bool)
    requires |pix| == At(enc.cols, 0, enc.rows) && i < |enc.runs| && px < enc.cols
    requires k < enc.runs[i].repeat && enc.runs[i].index + k < enc.rows
    requires ink == LineShows(enc.runs[i].line, px)
    requires Shows(pix, enc, i, k, px)
    ensures var y := enc.runs[i].index + k;
            At(enc.cols, px, y) < |pix| && Shows(if ink then pix[At(enc.cols, px, y) := 0] else pix, enc, i, k, px + 1)
  {
    hide Painted, LineShows;
    var row := enc.runs[i].index + k;
    RowsAscend(enc.cols, row, enc.rows);
    var after := if ink then pix[At(enc.cols, px, row) := 0] else pix;
    forall x: nat, y: nat | x < enc.cols && y < enc.rows
      ensures PixelAt(after, enc.cols, enc.rows, x, y)
           == if PaintedBefore(enc.runs, i, k, px + 1, x, y) then 0 else 0xFF
    {
      RowsAscend(enc.cols, y, enc.rows);
      AtInjective(enc.cols, x, y, px, row);
      assert PixelAt(pix, enc.cols, enc.rows, x, y) == if PaintedBefore(enc.runs, i, k, px, x, y) then 0 else 0xFF;
    }
  }

  /** Paints row k of run i, pixel by pixel. */
  method PaintRow(pix: array<byte>, enc: EncodedImage, i: nat, k: nat)
    requires pix.Length == At(enc.cols, 0, enc.rows)
    requires i < |enc.runs| && k < enc.runs[i].repeat && enc.runs[i].index + k < enc.rows
    requires !enc.runs[i].Blank()
    requires Shows(pix[..], enc, i, k, 0)
    modifies pix
    ensures Shows(pix[..], enc, i, k + 1, 0)
  {
    hide Shows, HasBit;
    var y, bits, x := enc.runs[i].index + k, enc.runs[i].line.bits, 0;
    RowStartIsProduct(enc.cols, y);
    while x < enc.cols && x / 8 < |bits|
      invariant x <= enc.cols
      invariant Shows(pix[..], enc, i, k, x)
    {
      PaintPixel(pix[..], enc, i, k, x, LineShows(enc.runs[i].line, x));
      TestsBit(bits[x / 8], x % 8);
      if bits[x / 8] & (0x80 >> (x % 8)) != 0 {
        pix[y * enc.cols + x] := 0;
      }
      x := x + 1;
    }
    RowIsPainted(pix[..], enc, i, k, x);
  }

  lemma TestsBit(b: bv8, k: nat)
    requires k < 8
    ensures HasBit(b, k) <==> b & (0x80 >> k) != 0
  {
  }

  lemma RowIsPainted(pix: seq<byte>, enc: EncodedImage, i: nat, k: nat, x: nat)
    requires |pix| == At(enc.cols, 0, enc.rows) && i < |enc.runs|
    requires x >= enc.cols || x / 8 >= |enc.runs[i].line.bits|
    requires Shows(pix, enc, i, k, x)
    ensures Shows(pix, enc, i, k + 1, 0)
  {
    hide Painted, HasBit, PixelAt;
    forall x': nat, y: nat | x' < enc.cols && y < enc.rows
      ensures PaintedBefore(enc.runs, i, k, x, x', y) <==> PaintedBefore(enc.runs, i, k + 1, 0, x', y)
    {
      if x' >= x && x / 8 >= |enc.runs[i].line.bits| {
        assert x' / 8 >= x / 8;
      }
    }
  }

  method Image(enc: EncodedImage) returns (pix: array<byte>)
    ensures fresh(pix) && pix.Length == At(enc.cols, 0, enc.rows)
    ensures forall x: nat, y: nat | x < enc.cols && y < enc.rows ::
              PixelAt(pix[..], enc.cols, enc.rows, x, y) == if Painted(enc.runs, x, y) then 0 else 0xFF
  {
    RowStartIsProduct(enc.cols, enc.rows);
    pix := new byte[enc.rows * enc.cols](_ => 0xFF);
    forall x: nat, y: nat | x < enc.cols && y < enc.rows
      ensures PixelAt(pix[..], enc.cols, enc.rows, x, y) == 0xFF
    {
      RowsAscend(enc.cols, y, enc.rows);
    }
    BlankShowsNothing(pix[..], enc);
    for i := 0 to |enc.runs|
      invariant Shows(pix[..], enc, i, 0, 0)
    {
      hide Shows, PixelAt;
      if enc.runs[i].Blank() {
        RunIsPainted(pix[..], enc, i, 0);
        continue;
      }
      var k := 0;
      while k < enc.runs[i].repeat
        invariant k <= enc.runs[i].repeat
        invariant Shows(pix[..], enc, i, k, 0)
      {
        if enc.runs[i].index + k >= enc.rows {
          break;
        }
        PaintRow(pix, enc, i, k);
        k := k + 1;
      }
      RunIsPainted(pix[..], enc, i, k);
    }
    assert enc.runs[..|enc.runs|] == enc.runs;
  }

  lemma BlankShowsNothing(pix: seq<byte>, enc: EncodedImage)
    requires |pix| == At(enc.cols, 0, enc.rows)
    requires forall x: nat, y: nat | x < enc.cols && y < enc.rows :: PixelAt(pix, enc.cols, enc.rows, x, y) == 0xFF
    ensures Shows(pix, enc, 0, 0, 0)
  {
    hide PixelAt;
  }

  /** A run is painted when all its rows inside the image are, and at once if it is blank. */
  lemma RunIsPainted(pix: seq<byte>, enc: EncodedImage, i: nat, k: nat)
    requires |pix| == At(enc.cols, 0, enc.rows) && i < |enc.runs|
    requires enc.runs[i].Blank() || k >= enc.runs[i].repeat || enc.runs[i].index + k >= enc.rows
    requires Shows(pix, enc, i, k, 0)
    ensures Shows(pix, enc, i + 1, 0, 0)
  {
    hide PixelAt, HasBit, Painted;
    forall x: nat, y: nat | x < enc.cols && y < enc.rows
      ensures PaintedBefore(enc.runs, i, k, 0, x, y) <==> PaintedBefore(enc.runs, i + 1, 0, 0, x, y)
    {
      PaintedByNext(enc.runs, i, x, y);
    }
  }

  lemma PaintedByNext(runs: seq<Row>, i: nat, x: nat, y: nat)
    requires i < |runs|
    ensures Painted(runs[..i + 1], x, y) <==> Painted(runs[..i], x, y) || RunShows(runs[i], x, y)
  {
    hide RunShows;
    assert runs[..i + 1][i] == runs[i];
    assert forall k :: 0 <= k < i ==> runs[..i + 1][k] == runs[..i][k];
  }
}
