/** Row packets, pixel counts and check lines: RowPackets and pixelCounts of internal/niimbot/image.go. */
module RowEncoding {
  import opened Bytes
  import opened Commands
  import opened Framing
  import opened Dithering
  import opened Raster

  datatype CountMode = CountSplit | CountTotal

  // ---- Pixel counts ----

  function BitValue(b: bv8, k: nat): nat
    requires k < 8
  {
    if HasBit(b, k) then 1 else 0
  }

  /** Number of black pixels in a raster byte. */
  function Ones(b: bv8): (n: nat)
    ensures n <= 8
  {
    BitValue(b, 0) + BitValue(b, 1) + BitValue(b, 2) + BitValue(b, 3)
    + BitValue(b, 4) + BitValue(b, 5) + BitValue(b, 6) + BitValue(b, 7)
  }

  lemma ClearingLowestBit(b: bv8)
    requires b != 0
    ensures Ones(b & (b - 1)) == Ones(b) - 1
  {
  }

  lemma SettingAClearBit(b: bv8, k: nat)
    requires k < 8 && !HasBit(b, k)
    ensures Ones(b | Mask(k)) == Ones(b) + 1
  {
  }

  method PopCount(byte0: bv8) returns (n: nat)
    ensures n == Ones(byte0)
  {
    var b := byte0;
    n := 0;
    while b != 0
      invariant n + Ones(b) == Ones(byte0)
      decreases Ones(b)
    {
      ClearingLowestBit(b);
      b := b & (b - 1);
      n := n + 1;
    }
  }

  /** Black pixels in bytes lo..hi of a row, clipped to the row. */
  function OnesIn(bits: seq<bv8>, lo: nat, hi: nat): nat
    decreases hi - lo
  {
    if lo >= hi || lo >= |bits| then 0
    else Ones(bits[lo]) + OnesIn(bits, lo + 1, hi)
  }

  lemma {:induction false} OnesInSplits(bits: seq<bv8>, lo: nat, mid: nat, hi: nat)
    requires lo <= mid <= hi
    ensures OnesIn(bits, lo, hi) == OnesIn(bits, lo, mid) + OnesIn(bits, mid, hi)
    decreases mid - lo
  {
    if lo < mid {
      OnesInSplits(bits, lo + 1, mid, hi);
    } else if lo >= |bits| {
      assert OnesIn(bits, mid, hi) == 0;
    }
  }

  lemma OnesInExtends(bits: seq<bv8>, lo: nat, i: nat)
    requires lo <= i < |bits|
    ensures OnesIn(bits, lo, i + 1) == OnesIn(bits, lo, i) + Ones(bits[i])
  {
    OnesInSplits(bits, lo, i, i + 1);
    assert OnesIn(bits, i + 1, i + 1) == 0;
  }

  function Capped(n: nat): byte {
    if n < 255 then n as byte else 255
  }

  predicate Splits(bits: seq<bv8>, headPixels: nat, mode: CountMode) {
    var chunk := headPixels / 8 / 3;
    mode == CountSplit && chunk > 0 && |bits| <= chunk * 3
  }

  /** Per third of the print head, or little-endian in total. */
  function Counts(bits: seq<bv8>, headPixels: nat, mode: CountMode): (r: seq<byte>)
    ensures |r| == 3
  {
    var chunk, total := headPixels / 8 / 3, OnesIn(bits, 0, |bits|);
    if Splits(bits, headPixels, mode) then
      [Capped(OnesIn(bits, 0, chunk)), Capped(OnesIn(bits, chunk, 2 * chunk)),
       Capped(OnesIn(bits, 2 * chunk, 3 * chunk))]
    else
      [0, (total % 0x100) as byte, (total / 0x100 % 0x100) as byte]
  }

  lemma ThirdOf(i: nat, chunk: nat)
    requires i < chunk * 3
    ensures i / chunk == if i < chunk then 0 else if i < 2 * chunk then 1 else 2
  {
    var q := i / chunk;
    assert i == chunk * q + i % chunk;
    assert q >= 3 ==> chunk * q >= chunk * 3;
    assert q == 1 ==> chunk * q == chunk;
    assert q == 2 ==> chunk * q == chunk * 2;
  }

  method PixelCounts(bits: seq<bv8>, headPixels: nat, mode: CountMode) returns (r: seq<byte>)
    ensures r == Counts(bits, headPixels, mode)
  {
    hide Ones, Capped;
    var total := 0;
    var parts := new nat[3](_ => 0);
    var chunk := headPixels / 8 / 3;
    var split := mode == CountSplit && chunk > 0 && |bits| <= chunk * 3;
    for i := 0 to |bits|
      invariant total == OnesIn(bits, 0, i)
      invariant split ==> parts[0] == OnesIn(bits, 0, if i < chunk then i else chunk)
      invariant split ==> parts[1] == OnesIn(bits, chunk, if i < 2 * chunk then i else 2 * chunk)
      invariant split ==> parts[2] == OnesIn(bits, 2 * chunk, i)
    {
      var n := PopCount(bits[i]);
      OnesInExtends(bits, 0, i);
      total := total + n;
      if split {
        ThirdOf(i, chunk);
        if chunk <= i {
          OnesInExtends(bits, chunk, i);
        }
        if 2 * chunk <= i {
          OnesInExtends(bits, 2 * chunk, i);
        }
        parts[i / chunk] := parts[i / chunk] + n;
      }
    }
    if split {
      ClipToRow(bits, 0, chunk);
      ClipToRow(bits, chunk, 2 * chunk);
      ClipToRow(bits, 2 * chunk, 3 * chunk);
      return [Capped(parts[0]), Capped(parts[1]), Capped(parts[2])];
    }
    return [0, (total % 0x100) as byte, (total / 0x100 % 0x100) as byte];
  }

  lemma {:induction false} ClipToRow(bits: seq<bv8>, lo: nat, hi: nat)
    ensures OnesIn(bits, lo, hi) == OnesIn(bits, lo, if |bits| < hi then |bits| else hi)
    decreases hi - lo
  {
    if lo < hi && lo < |bits| {
      ClipToRow(bits, lo + 1, hi);
    }
  }

  lemma {:induction false} BlackIsOnes(j: Job, y: nat, x: nat)
    requires j.Valid() && y < j.h && x <= j.w
    ensures CountUpTo(j, y, x) == OnesIn(PackUpTo(j, y, x), 0, Columns(j.w) / 8)
  {
    hide On, Ones, OnesIn;
    if x == 0 {
      NoOnes(PackUpTo(j, y, 0), 0);
    } else {
      BlackIsOnes(j, y, x - 1);
      if On(j, x - 1, y) {
        OneMoreOne(j, y, x - 1);
      }
    }
  }

  lemma OneMoreOne(j: Job, y: nat, x: nat)
    requires j.Valid() && y < j.h && x < j.w && On(j, x, y)
    ensures OnesIn(PackUpTo(j, y, x + 1), 0, Columns(j.w) / 8) == OnesIn(PackUpTo(j, y, x), 0, Columns(j.w) / 8) + 1
  {
    hide On, Ones, OnesIn, HasBit, Mask;
    var bits, i := PackUpTo(j, y, x), x / 8;
    PackedBit(j, y, x, x);
    SettingAClearBit(bits[i], x % 8);
    OnesAfterUpdate(bits, 0, i, bits[i] | Mask(x % 8));
  }

  lemma {:induction false} NoOnes(bits: seq<bv8>, lo: nat)
    requires forall i :: 0 <= i < |bits| ==> bits[i] == 0
    ensures OnesIn(bits, lo, |bits|) == 0
    decreases |bits| - lo
  {
    if lo < |bits| {
      NoOnes(bits, lo + 1);
    }
  }

  lemma {:induction false} OnesAfterUpdate(bits: seq<bv8>, lo: nat, i: nat, b: bv8)
    requires lo <= i < |bits|
    ensures OnesIn(bits[i := b], lo, |bits|) == OnesIn(bits, lo, |bits|) + Ones(b) - Ones(bits[i])
    decreases i - lo
  {
    hide Ones;
    if lo < i {
      OnesAfterUpdate(bits, lo + 1, i, b);
    } else {
      OnesInAgrees(bits, bits[i := b], lo + 1);
    }
  }

  lemma {:induction false} OnesInAgrees(a: seq<bv8>, b: seq<bv8>, lo: nat)
    requires |a| == |b| && forall i :: lo <= i < |a| ==> a[i] == b[i]
    ensures OnesIn(a, lo, |a|) == OnesIn(b, lo, |a|)
    decreases |a| - lo
  {
    if lo < |a| {
      OnesInAgrees(a, b, lo + 1);
    }
  }

  /** The black pixels a count header announces. */
  function InkOf(header: seq<byte>, split: bool): nat
    requires |header| == 3
  {
    if split then header[0] as nat + header[1] as nat + header[2] as nat
    else header[0] as nat + header[1] as nat + 0x100 * header[2] as nat
  }

  /**
   * The count header of an encoded row tells its ink exactly when it can: in split mode when no third
   * of the head holds more than the 255 its byte can say, in total mode when 16 bits suffice.
   */
  lemma CountsTellTheInk(j: Job, y: nat, headPixels: nat, mode: CountMode)
    requires j.Valid() && y < j.h && LineOf(j, y).black != 0
    ensures var line, chunk := LineOf(j, y), headPixels / 8 / 3;
            var split := Splits(line.bits, headPixels, mode);
            InkOf(Counts(line.bits, headPixels, mode), split) == line.black <==>
              if split then OnesIn(line.bits, 0, chunk) <= 255 && OnesIn(line.bits, chunk, 2 * chunk) <= 255
                            && OnesIn(line.bits, 2 * chunk, 3 * chunk) <= 255
              else line.black < 0x10000
  {
    hide PackUpTo, OnesIn;
    var bits, chunk := LineOf(j, y).bits, headPixels / 8 / 3;
    BlackIsOnes(j, y, j.w);
    if Splits(bits, headPixels, mode) {
      ClipToRow(bits, 0, 3 * chunk);
      ClipToRow(bits, 0, |bits|);
      OnesInSplits(bits, 0, chunk, 3 * chunk);
      OnesInSplits(bits, chunk, 2 * chunk, 3 * chunk);
    }
  }

  /** 1 if column x of a packed row is black. */
  ghost function ColumnInk(bits: seq<bv8>, x: nat): nat {
    if x / 8 < |bits| then BitValue(bits[x / 8], x % 8) else 0
  }

  /** Black pixels among columns from..to of a packed row. */
  ghost function InkBetween(bits: seq<bv8>, from: nat, to: nat): nat
    decreases to - from
  {
    if from >= to then 0 else InkBetween(bits, from, to - 1) + ColumnInk(bits, to - 1)
  }

  lemma InkStep(bits: seq<bv8>, i: nat, k: nat)
    requires k < 8
    ensures InkBetween(bits, 8 * i, 8 * i + k + 1)
         == InkBetween(bits, 8 * i, 8 * i + k) + if i < |bits| then BitValue(bits[i], k) else 0
  {
    hide BitValue;
  }

  lemma InkOfByte(bits: seq<bv8>, i: nat)
    ensures InkBetween(bits, 8 * i, 8 * i + 8) == if i < |bits| then Ones(bits[i]) else 0
  {
    hide BitValue, InkBetween;
    NoInkBetween(bits, 8 * i);
    InkStep(bits, i, 0);
    InkStep(bits, i, 1);
    InkStep(bits, i, 2);
    InkStep(bits, i, 3);
    InkStep(bits, i, 4);
    InkStep(bits, i, 5);
    InkStep(bits, i, 6);
    InkStep(bits, i, 7);
  }

  lemma NoInkBetween(bits: seq<bv8>, at: nat)
    ensures InkBetween(bits, at, at) == 0
  {
  }

  lemma {:induction false} InkJoins(bits: seq<bv8>, a: nat, b: nat, c: nat)
    requires a <= b <= c
    ensures InkBetween(bits, a, c) == InkBetween(bits, a, b) + InkBetween(bits, b, c)
    decreases c - b
  {
    hide ColumnInk;
    if b < c {
      InkJoins(bits, a, b, c - 1);
    }
  }

  lemma {:induction false} OnesAreInk(bits: seq<bv8>, lo: nat, hi: nat)
    requires lo <= hi
    ensures OnesIn(bits, lo, hi) == InkBetween(bits, 8 * lo, 8 * hi)
    decreases hi - lo
  {
    hide Ones;
    if lo < hi {
      OnesAreInk(bits, lo + 1, hi);
      InkOfByte(bits, lo);
      InkJoins(bits, 8 * lo, 8 * lo + 8, 8 * hi);
      if lo >= |bits| {
        assert OnesIn(bits, lo + 1, hi) == 0;
      }
    }
  }

  /**
   * Which columns each count covers: the three thirds of the head from the left, each count stopping at 255; or
   * the whole row, low byte in the middle and high byte last.
   */
  lemma CountsCoverColumns(bits: seq<bv8>, headPixels: nat, mode: CountMode)
    ensures var r, third := Counts(bits, headPixels, mode), 8 * (headPixels / 24);
            if mode.CountSplit? && third > 0 && 8 * |bits| <= 3 * third then
              forall i :: 0 <= i < 3 ==>
                var ink := InkBetween(bits, i * third, i * third + third);
                r[i] as nat == if ink <= 255 then ink else 255
            else r[0] == 0 && r[1] as nat + 0x100 * r[2] as nat == InkBetween(bits, 0, 8 * |bits|) % 0x10000
  {
    hide OnesIn, InkBetween;
    var chunk := headPixels / 8 / 3;
    assert chunk == headPixels / 24;
    OnesAreInk(bits, 0, |bits|);
    OnesAreInk(bits, 0, chunk);
    OnesAreInk(bits, chunk, 2 * chunk);
    OnesAreInk(bits, 2 * chunk, 3 * chunk);
  }

  // ---- Row packets ----

  function AsBytes(bits: seq<bv8>): (s: seq<byte>)
    ensures |s| == |bits|
  {
    seq(|bits|, i requires 0 <= i < |bits| => bits[i] as byte)
  }

  function RowPacket(r: Row, headPixels: nat, mode: CountMode): Packet {
    var repeat := (r.repeat % 0x100) as byte;
    if r.Blank() then Packet(CMD_EMPTY_ROW, U16(r.index) + [repeat])
    else Packet(CMD_BITMAP_ROW, U16(r.index) + Counts(r.line.bits, headPixels, mode) + [repeat] + AsBytes(r.line.bits))
  }

  function CheckPacket(row: nat): Packet {
    Packet(CMD_CHECK_LINE, U16(row) + [1])
  }

  /** The markers due once row `last` has been sent. */
  function Marks(next: nat, last: int): seq<Packet>
    decreases last - next
  {
    if next <= last then [CheckPacket(next)] + Marks(next + 200, last) else []
  }

  function NextMark(next: nat, last: int): nat
    decreases last - next
  {
    if next <= last then NextMark(next + 200, last) else next
  }

  function PacketsFrom(runs: seq<Row>, next: nat, headPixels: nat, mode: CountMode, checkLine: bool): seq<Packet>
    decreases |runs|
  {
    if runs == [] then []
    else
      var last := runs[0].End() - 1;
      var marks := if checkLine then Marks(next, last) else [];
      [RowPacket(runs[0], headPixels, mode)] + marks
      + PacketsFrom(runs[1..], if checkLine then NextMark(next, last) else next, headPixels, mode, checkLine)
  }

  method MakeRowPacket(r: Row, headPixels: nat, mode: CountMode) returns (p: Packet)
    ensures p == RowPacket(r, headPixels, mode)
  {
    var hdr: seq<byte> := U16(r.index);
    if r.Blank() {
      return Packet(CMD_EMPTY_ROW, hdr + [(r.repeat % 0x100) as byte]);
    }
    var counts := PixelCounts(r.line.bits, headPixels, mode);
    hdr := hdr + counts;
    hdr := hdr + [(r.repeat % 0x100) as byte];
    return Packet(CMD_BITMAP_ROW, hdr + AsBytes(r.line.bits));
  }

  method RowPackets(enc: EncodedImage, headPixels: nat, mode: CountMode, checkLine: bool) returns (out: seq<Packet>)
    ensures out == PacketsFrom(enc.runs, 199, headPixels, mode, checkLine)
  {
    hide PacketsFrom, RowPacket, Marks, NextMark;
    out := [];
    var nextCheck := 199;
    assert enc.runs[0..] == enc.runs && [] + PacketsFrom(enc.runs, 199, headPixels, mode, checkLine)
        == PacketsFrom(enc.runs, 199, headPixels, mode, checkLine);
    for i := 0 to |enc.runs|
      invariant out + PacketsFrom(enc.runs[i..], nextCheck, headPixels, mode, checkLine)
             == PacketsFrom(enc.runs, 199, headPixels, mode, checkLine)
    {
      var r := enc.runs[i];
      PacketsFromNext(enc.runs, i, nextCheck, headPixels, mode, checkLine, out);
      var p := MakeRowPacket(r, headPixels, mode);
      out := out + [p];
      if checkLine {
        var due, next := CheckLines(nextCheck, r.End() - 1);
        out := out + due;
        nextCheck := next;
      }
      assert checkLine || out + [] == out;
    }
    assert PacketsFrom(enc.runs[|enc.runs|..], nextCheck, headPixels, mode, checkLine) == [] by {
      NoRunsNoPackets(enc.runs[|enc.runs|..], nextCheck, headPixels, mode, checkLine);
    }
  }

  lemma NoRunsNoPackets(runs: seq<Row>, next: nat, headPixels: nat, mode: CountMode, checkLine: bool)
    requires runs == []
    ensures PacketsFrom(runs, next, headPixels, mode, checkLine) == []
  {
  }

  lemma PacketsFromNext(runs: seq<Row>, i: nat, next: nat, headPixels: nat, mode: CountMode, checkLine: bool,
                        out: seq<Packet>)
    requires i < |runs|
    ensures out + PacketsFrom(runs[i..], next, headPixels, mode, checkLine)
         == out + [RowPacket(runs[i], headPixels, mode)] + (if checkLine then Marks(next, runs[i].End() - 1) else [])
            + PacketsFrom(runs[i + 1..], if checkLine then NextMark(next, runs[i].End() - 1) else next,
                          headPixels, mode, checkLine)
  {
    hide RowPacket, Marks, NextMark;
    var last := runs[i].End() - 1;
    var head, marks := [RowPacket(runs[i], headPixels, mode)], if checkLine then Marks(next, last) else [];
    var rest := PacketsFrom(runs[i + 1..], if checkLine then NextMark(next, last) else next, headPixels, mode,
                            checkLine);
    assert runs[i..][0] == runs[i] && runs[i..][1..] == runs[i + 1..];
    Assoc(out, head + marks, rest);
    Assoc(out, head, marks);
  }

  method CheckLines(from: nat, last: int) returns (out: seq<Packet>, next: nat)
    ensures out == Marks(from, last) && next == NextMark(from, last)
  {
    out, next := [], from;
    while next <= last
      invariant out + Marks(next, last) == Marks(from, last)
      invariant NextMark(next, last) == NextMark(from, last)
      decreases last - next
    {
      Assoc(out, [CheckPacket(next)], Marks(next + 200, last));
      out := out + [Packet(CMD_CHECK_LINE, U16(next) + [0x01])];
      next := next + 200;
    }
  }

  // ---- Check lines ----

  /** The rows of lo..hi that end a block of 200. */
  ghost function CheckRows(lo: nat, hi: nat): seq<nat>
    decreases hi - lo
  {
    if lo >= hi then []
    else (if lo % 200 == 199 then [lo] else []) + CheckRows(lo + 1, hi)
  }

  ghost function CheckPackets(rows: seq<nat>): seq<Packet> {
    seq(|rows|, i requires 0 <= i < |rows| => CheckPacket(rows[i]))
  }

  /** Each run's packet, followed by the markers of exactly the block ends the run covers. */
  ghost function Marked(runs: seq<Row>, headPixels: nat, mode: CountMode): seq<Packet> {
    if runs == [] then []
    else [RowPacket(runs[0], headPixels, mode)] + CheckPackets(CheckRows(runs[0].index, runs[0].End()))
         + Marked(runs[1..], headPixels, mode)
  }

  lemma {:induction false} SkipToMark(lo: nat, next: nat, hi: nat)
    requires next % 200 == 199 && lo <= next < lo + 200
    ensures CheckRows(lo, hi) == CheckRows(next, hi)
    decreases next - lo
  {
    if lo < next {
      NotAMark(lo, next);
      SkipToMark(lo + 1, next, hi);
      assert CheckRows(lo, hi) == CheckRows(lo + 1, hi);
    }
  }

  lemma NotAMark(lo: nat, next: nat)
    requires next % 200 == 199 && lo < next < lo + 200
    ensures lo % 200 != 199
  {
    assert next == 200 * (next / 200) + 199;
    assert lo == 200 * (lo / 200) + lo % 200;
  }

  lemma {:induction false} MarksAreCheckRows(lo: nat, next: nat, last: int)
    requires next % 200 == 199 && lo <= next < lo + 200 && lo <= last + 1
    ensures Marks(next, last) == CheckPackets(CheckRows(lo, last + 1))
    ensures NextMark(next, last) % 200 == 199 && last + 1 <= NextMark(next, last) < last + 201
    decreases last - next
  {
    SkipToMark(lo, next, last + 1);
    if next <= last {
      MarksAreCheckRows(next + 1, next + 200, last);
      assert CheckPackets([next] + CheckRows(next + 1, last + 1))
          == [CheckPacket(next)] + CheckPackets(CheckRows(next + 1, last + 1));
    } else {
      assert CheckRows(next, last + 1) == [];
    }
  }

  lemma {:induction false} MarkersFollowTheirRuns(runs: seq<Row>, from: nat, next: nat, headPixels: nat,
                                                  mode: CountMode)
    requires runs != [] ==> runs[0].index == from
    requires forall i :: 0 < i < |runs| ==> runs[i].index == runs[i - 1].End()
    requires next % 200 == 199 && from <= next < from + 200
    ensures PacketsFrom(runs, next, headPixels, mode, true) == Marked(runs, headPixels, mode)
    decreases |runs|
  {
    hide RowPacket, CheckRows, CheckPackets, Marks, NextMark;
    if runs != [] {
      var last := runs[0].End() - 1;
      MarksAreCheckRows(from, next, last);
      MarkersFollowTheirRuns(runs[1..], last + 1, NextMark(next, last), headPixels, mode);
    }
  }

  lemma {:induction false} CheckRowsClosedForm(lo: nat, hi: nat)
    requires lo % 200 == 0 && lo <= hi
    ensures |CheckRows(lo, hi)| == (hi - lo) / 200
    ensures forall i :: 0 <= i < |CheckRows(lo, hi)| ==> CheckRows(lo, hi)[i] == lo + 200 * i + 199
    decreases hi - lo
  {
    SkipToMark(lo, lo + 199, hi);
    if lo + 199 < hi {
      CheckRowsClosedForm(lo + 200, hi);
    }
  }

  lemma {:induction false} CheckRowsJoin(lo: nat, mid: nat, hi: nat)
    requires lo <= mid <= hi
    ensures CheckRows(lo, hi) == CheckRows(lo, mid) + CheckRows(mid, hi)
    decreases mid - lo
  {
    if lo < mid {
      CheckRowsJoin(lo + 1, mid, hi);
    }
  }

  /** The rows named by the check-line packets of a stream, in order. */
  ghost function MarkerRows(packets: seq<Packet>): seq<nat> {
    if packets == [] then [] else MarkerRow(packets[0]) + MarkerRows(packets[1..])
  }

  ghost function MarkerRow(p: Packet): seq<nat> {
    if p.cmd == CMD_CHECK_LINE && |p.data| >= 2 then [ReadU16(p.data)] else []
  }

  lemma {:induction false} MarkerRowsAppend(a: seq<Packet>, b: seq<Packet>)
    ensures MarkerRows(a + b) == MarkerRows(a) + MarkerRows(b)
  {
    hide MarkerRow;
    if a == [] {
      assert a + b == b;
      assert MarkerRows(a) == [] && [] + MarkerRows(b) == MarkerRows(b);
    } else {
      assert MarkerRows(a) == MarkerRow(a[0]) + MarkerRows(a[1..]);
      assert (a + b)[0] == a[0] && (a + b)[1..] == a[1..] + b;
      MarkerRowsAppend(a[1..], b);
      Assoc(MarkerRow(a[0]), MarkerRows(a[1..]), MarkerRows(b));
    }
  }

  lemma {:induction false} MarkerRowsOfChecks(rows: seq<nat>)
    requires forall i :: 0 <= i < |rows| ==> rows[i] < 0x10000
    ensures MarkerRows(CheckPackets(rows)) == rows
  {
    if rows != [] {
      assert CheckPackets(rows)[1..] == CheckPackets(rows[1..]);
      assert CheckPackets(rows)[0] == CheckPacket(rows[0]);
      assert ReadU16(U16(rows[0]) + [1]) == ReadU16(U16(rows[0]));
      MarkerRowsOfChecks(rows[1..]);
    }
  }

  lemma {:induction false} CheckRowsBelow(lo: nat, hi: nat)
    ensures forall i :: 0 <= i < |CheckRows(lo, hi)| ==> lo <= CheckRows(lo, hi)[i] < hi
    decreases hi - lo
  {
    if lo < hi {
      CheckRowsBelow(lo + 1, hi);
    }
  }

  lemma {:induction false} MarkersOfRuns(runs: seq<Row>, from: nat, h: nat, headPixels: nat, mode: CountMode)
    requires h <= 0x10000 && from <= h
    requires if runs == [] then from == h else runs[0].index == from && runs[|runs| - 1].End() == h
    requires forall i :: 0 < i < |runs| ==> runs[i].index == runs[i - 1].End()
    requires forall i :: 0 <= i < |runs| ==> runs[i].End() <= h
    ensures MarkerRows(Marked(runs, headPixels, mode)) == CheckRows(from, h)
    decreases |runs|
  {
    hide CheckRows, CheckPackets, MarkerRows, RowPacket;
    if runs != [] {
      var end, head := runs[0].End(), RowPacket(runs[0], headPixels, mode);
      var rows := CheckRows(from, end);
      CheckRowsBelow(from, end);
      MarkerRowsOfChecks(rows);
      MarkersOfRuns(runs[1..], end, h, headPixels, mode);
      MarkerRowsAppend([head] + CheckPackets(rows), Marked(runs[1..], headPixels, mode));
      MarkerRowsAppend([head], CheckPackets(rows));
      RowIsNoMarker(runs[0], headPixels, mode);
      CheckRowsJoin(from, end, h);
    } else {
      NoRowsNoMarkers(h);
    }
  }

  lemma RowIsNoMarker(r: Row, headPixels: nat, mode: CountMode)
    ensures MarkerRows([RowPacket(r, headPixels, mode)]) == []
  {
  }

  lemma NoRowsNoMarkers(h: nat)
    ensures CheckRows(h, h) == [] && MarkerRows([]) == []
  {
  }

  /** The markers of an encoded image are rows 199, 399, ... up to the last full block of 200, in order, each once. */
  lemma CheckLinesOfImage(j: Job, headPixels: nat, mode: CountMode)
    requires j.Valid() && j.h <= 0x10000
    ensures var runs := Merge(LinesUpTo(j, j.h));
            var packets := PacketsFrom(runs, 199, headPixels, mode, true);
            && packets == Marked(runs, headPixels, mode)
            && |MarkerRows(packets)| == j.h / 200
            && forall i :: 0 <= i < j.h / 200 ==> MarkerRows(packets)[i] == 200 * i + 199
  {
    hide PacketsFrom, Marked, MarkerRows, CheckRows, Merge, LinesUpTo;
    var lines := LinesUpTo(j, j.h);
    MergeTiles(lines);
    MarkersFollowTheirRuns(Merge(lines), 0, 199, headPixels, mode);
    MarkersOfRuns(Merge(lines), 0, j.h, headPixels, mode);
    CheckRowsClosedForm(0, j.h);
  }

  // ---- What a row packet says ----

  /** The bytes of a row packet, and of a check line. */
  lemma RowPacketLayout(r: Row, headPixels: nat, mode: CountMode, row: nat)
    requires r.index < 0x10000 && r.repeat <= MAX_REPEAT && row < 0x10000
    ensures var p := RowPacket(r, headPixels, mode);
            && |p.data| == (if r.line.black == 0 then 3 else 6 + |r.line.bits|)
            && 0x100 * p.data[0] as nat + p.data[1] as nat == r.index
            && (r.line.black == 0 ==> p.cmd == 0x84 && p.data[2] as nat == r.repeat)
            && (r.line.black != 0 ==>
                  && p.cmd == 0x85 && p.data[5] as nat == r.repeat
                  && p.data[2..5] == Counts(r.line.bits, headPixels, mode)
                  && forall i :: 0 <= i < |r.line.bits| ==> p.data[6 + i] == r.line.bits[i] as byte)
    ensures var c := CheckPacket(row);
            && c.cmd == 0x86 && |c.data| == 3
            && 0x100 * c.data[0] as nat + c.data[1] as nat == row && c.data[2] == 1
  {
    hide Counts;
    FieldsAreBigEndian(r.index);
    FieldsAreBigEndian(row);
  }

  /** The printer's reading of a packet: row index, repeat count, packed bits. */
  ghost predicate PacketShows(p: Packet, x: nat, y: nat) {
    && p.cmd == CMD_BITMAP_ROW && |p.data| >= 6
    && ReadU16(p.data) <= y < ReadU16(p.data) + p.data[5] as nat
    && 6 + x / 8 < |p.data|
    && HasBit(p.data[6 + x / 8] as bv8, x % 8)
  }

  ghost predicate PacketsShow(packets: seq<Packet>, x: nat, y: nat) {
    exists i :: 0 <= i < |packets| && PacketShows(packets[i], x, y)
  }

  lemma ByteRoundTrip(b: bv8)
    ensures (b as byte) as bv8 == b
  {
  }

  lemma RowPacketShowsRun(r: Row, headPixels: nat, mode: CountMode, x: nat, y: nat)
    requires r.index < 0x10000 && r.repeat <= MAX_REPEAT
    ensures PacketShows(RowPacket(r, headPixels, mode), x, y) <==> RunShows(r, x, y)
  {
    hide Counts, HasBit;
    if !r.Blank() {
      var d := RowPacket(r, headPixels, mode).data;
      assert d[..2] == U16(r.index);
      assert ReadU16(d) == ReadU16(U16(r.index));
      assert |d| == 6 + |r.line.bits|;
      if x / 8 < |r.line.bits| {
        ByteRoundTrip(r.line.bits[x / 8]);
        assert d[6 + x / 8] == r.line.bits[x / 8] as byte;
      }
    }
  }

  lemma MarksShowNothing(next: nat, last: int, x: nat, y: nat)
    ensures !PacketsShow(Marks(next, last), x, y)
    decreases last - next
  {
  }

  lemma PacketsShowAppend(a: seq<Packet>, b: seq<Packet>, x: nat, y: nat)
    ensures PacketsShow(a + b, x, y) <==> PacketsShow(a, x, y) || PacketsShow(b, x, y)
  {
    forall i | 0 <= i < |a| + |b|
      ensures (a + b)[i] == if i < |a| then a[i] else b[i - |a|]
    {
    }
    if i :| 0 <= i < |a| && PacketShows(a[i], x, y) {
      assert PacketShows((a + b)[i], x, y);
    }
    if i :| 0 <= i < |b| && PacketShows(b[i], x, y) {
      assert PacketShows((a + b)[i + |a|], x, y);
    }
  }

  /** The packets carry the picture: the printer's reading paints exactly what the runs paint. */
  lemma {:induction false} PacketsPaintRuns(runs: seq<Row>, next: nat, headPixels: nat, mode: CountMode, check: bool,
                                            x: nat, y: nat)
    requires forall i :: 0 <= i < |runs| ==> runs[i].index < 0x10000 && runs[i].repeat <= MAX_REPEAT
    ensures PacketsShow(PacketsFrom(runs, next, headPixels, mode, check), x, y) <==> Painted(runs, x, y)
    decreases |runs|
  {
    hide RowPacket, PacketShows, RunShows, PacketsShow;
    if runs != [] {
      var last := runs[0].End() - 1;
      var head, marks := [RowPacket(runs[0], headPixels, mode)], if check then Marks(next, last) else [];
      var next' := if check then NextMark(next, last) else next;
      var rest := PacketsFrom(runs[1..], next', headPixels, mode, check);
      PacketsPaintRuns(runs[1..], next', headPixels, mode, check, x, y);
      PacketsShowAppend(head + marks, rest, x, y);
      PacketsShowAppend(head, marks, x, y);
      RowPacketShowsRun(runs[0], headPixels, mode, x, y);
      MarksShowNothing(next, last, x, y);
      EmptyShowsNothing(x, y);
      OneShows(head[0], x, y);
      PaintedUnfolds(runs, x, y);
    } else {
      EmptyShowsNothing(x, y);
    }
  }

  lemma EmptyShowsNothing(x: nat, y: nat)
    ensures !PacketsShow([], x, y)
  {
  }

  lemma OneShows(p: Packet, x: nat, y: nat)
    ensures PacketsShow([p], x, y) <==> PacketShows(p, x, y)
  {
    assert [p][0] == p;
  }

  lemma PaintedUnfolds(runs: seq<Row>, x: nat, y: nat)
    requires runs != []
    ensures Painted(runs, x, y) <==> RunShows(runs[0], x, y) || Painted(runs[1..], x, y)
  {
    if i :| 0 <= i < |runs[1..]| && RunShows(runs[1..][i], x, y) {
      assert RunShows(runs[i + 1], x, y);
    }
    if i :| 0 < i < |runs| && RunShows(runs[i], x, y) {
      assert RunShows(runs[1..][i - 1], x, y);
    }
  }
}
