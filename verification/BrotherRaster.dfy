/** Brother QL raster streams and their image: internal/printer/render.go. */
module BrotherRaster {
  import opened Bytes
  import opened Dithering
  import opened Raster
  import opened PackBits

  const BYTES_PER_LINE: nat := 90
  const WIDTH: nat := 720
  const MARGIN: int := 8

  type Line90 = s: seq<byte> | |s| == BYTES_PER_LINE witness Fill(0, BYTES_PER_LINE)

  /** A row buffer of 90 bytes with as much of data as fits. */
  function Padded(data: seq<byte>): Line90 {
    if |data| >= BYTES_PER_LINE then data[..BYTES_PER_LINE] else data + Fill(0, BYTES_PER_LINE - |data|)
  }

  /** Length of the ESC command at the front of doc. */
  function EscCommandLen(doc: seq<byte>): (n: nat)
    ensures n >= 1
  {
    if |doc| <= 1 then 1
    else if doc[1] == 0x40 then 2
    else if doc[1] == 0x69 then
      if |doc| <= 2 then 2
      else if doc[2] == 0x53 then 3
      else if doc[2] == 0x61 || doc[2] == 0x4D || doc[2] == 0x41 || doc[2] == 0x4B then 4
      else if doc[2] == 0x64 then 5
      else if doc[2] == 0x7A then 13
      else 3
    else 2
  }

  function RowData(data: seq<byte>, compressed: bool): Line90 {
    Padded(if compressed then Unpack(data, BYTES_PER_LINE) else data)
  }

  function Drop(doc: seq<byte>, n: nat): (r: seq<byte>)
    ensures n > 0 && doc != [] ==> |r| < |doc|
  {
    if n <= |doc| then doc[n..] else []
  }

  /** The rows of the command stream doc, read in the given compression mode. */
  function Rows(doc: seq<byte>, compressed: bool): seq<Line90>
    decreases |doc|
  {
    if doc == [] then []
    else if doc[0] == 0x00 || doc[0] == 0x0C || doc[0] == 0x1A then Rows(doc[1..], compressed)
    else if doc[0] == 0x4D then
      if |doc| > 1 then Rows(doc[2..], doc[1] == 0x02) else []
    else if doc[0] == 0x5A then [Padded([])] + Rows(doc[1..], compressed)
    else if doc[0] == 0x67 then
      if |doc| <= 2 || 3 + doc[2] as nat > |doc| then []
      else
        var end := 3 + doc[2] as nat;
        [RowData(doc[3..end], compressed)] + Rows(doc[end..], compressed)
    else if doc[0] == 0x1B then Rows(Drop(doc, EscCommandLen(doc)), compressed)
    else Rows(doc[1..], compressed)
  }

  lemma SuffixOfSuffix(doc: seq<byte>, i: nat, k: nat)
    requires i + k <= |doc|
    ensures doc[i..][k..] == doc[i + k..]
  {
  }

  /** One step of Rows, on a suffix of the stream. */
  lemma RowsAt(doc: seq<byte>, i: nat, compressed: bool)
    requires i < |doc|
    ensures var b, rest := doc[i], Rows(doc[i..], compressed);
            && (b == 0x00 || b == 0x0C || b == 0x1A ==> rest == Rows(doc[i + 1..], compressed))
            && (b == 0x4D && i + 1 < |doc| ==> rest == Rows(doc[i + 2..], doc[i + 1] == 0x02))
            && (b == 0x4D && i + 1 == |doc| ==> rest == [])
            && (b == 0x5A ==> rest == [Padded([])] + Rows(doc[i + 1..], compressed))
            && (b == 0x67 && (i + 2 >= |doc| || i + 3 + doc[i + 2] as nat > |doc|) ==> rest == [])
            && (b == 0x67 && i + 2 < |doc| && i + 3 + doc[i + 2] as nat <= |doc| ==>
                  rest == [RowData(doc[i + 3..i + 3 + doc[i + 2] as nat], compressed)]
                          + Rows(doc[i + 3 + doc[i + 2] as nat..], compressed))
            && (b == 0x1B ==>
                  var j := i + EscCommandLen(doc[i..]); rest == if j <= |doc| then Rows(doc[j..], compressed) else [])
            && (b !in {0x00, 0x0C, 0x1A, 0x4D, 0x5A, 0x67, 0x1B} ==> rest == Rows(doc[i + 1..], compressed))
  {
    hide RowData, EscCommandLen;
    var rest := doc[i..];
    forall k: nat | k <= |rest|
      ensures rest[k..] == doc[i + k..]
    {
      SuffixOfSuffix(doc, i, k);
    }
    if i + 2 < |doc| && i + 3 + doc[i + 2] as nat <= |doc| {
      assert rest[3..3 + rest[2] as nat] == doc[i + 3..i + 3 + doc[i + 2] as nat];
    }
  }

  method DecodeRows(doc: seq<byte>) returns (rows: seq<Line90>)
    ensures rows == Rows(doc, false)
  {
    hide RowData, EscCommandLen, Rows;
    rows := [];
    var compressed, i, n := false, 0, |doc|;
    NoRows();
    assert doc[n..] == [];
    while i < n
      invariant 0 <= i
      invariant Rows(doc, false) == rows + (if i <= n then Rows(doc[i..], compressed) else [])
      decreases n - i
    {
      RowsAt(doc, i, compressed);
      var b := doc[i];
      if b == 0x00 || b == 0x0C || b == 0x1A {
        i := i + 1;
      } else if b == 0x4D {
        if i + 1 < n {
          compressed := doc[i + 1] == 0x02;
          i := i + 2;
        } else {
          i := i + 1;
        }
      } else if b == 0x5A {
        Assoc(rows, [Padded([])], Rows(doc[i + 1..], compressed));
        rows := rows + [Padded([])];
        i := i + 1;
      } else if b == 0x67 {
        if i + 2 >= n {
          i := n;
          break;
        }
        var length := doc[i + 2] as nat;
        var start, end := i + 3, i + 3 + length;
        if end > n {
          i := n;
          break;
        }
        var row := ReadRow(doc[start..end], compressed);
        Assoc(rows, [row], Rows(doc[end..], compressed));
        rows := rows + [row];
        i := end;
      } else if b == 0x1B {
        i := i + EscCommandLen(doc[i..]);
      } else {
        i := i + 1;
      }
    }
  }

  lemma NoRows()
    ensures Rows([], true) == [] && Rows([], false) == []
  {
  }

  method ReadRow(data: seq<byte>, compressed: bool) returns (row: Line90)
    ensures row == RowData(data, compressed)
  {
    var bytes := data;
    if compressed {
      bytes := PackbitsDecode(data, BYTES_PER_LINE);
    }
    row := Padded(bytes);
  }

  // ---- Well-formed streams ----

  /** The commands a job consists of. */
  datatype Command =
    | Padding(b: byte)
    | Mode(b: byte)
    | BlankLine
    | RawRow(filler: byte, data: seq<byte>)
    | PackedRow(filler: byte, segs: seq<Segment>)
    | Initialise
    | StatusRequest
    | OneByteSetting(code: byte, operand: byte)
    | Margins(low: byte, high: byte)
    | PrintInformation(fields: seq<byte>)
  {
    /** The command may be used in the given compression mode. */
    ghost predicate Valid(compressed: bool) {
      match this
      case Padding(b) => b == 0x00 || b == 0x0C || b == 0x1A
      case RawRow(_, data) => !compressed && |data| <= 255
      case PackedRow(_, segs) => compressed && AllValid(segs) && |Encoding(segs)| <= 255
      case OneByteSetting(c, _) => c == 0x61 || c == 0x4D || c == 0x41 || c == 0x4B
      case PrintInformation(o) => |o| == 10
      case _ => true
    }

    ghost function Code(compressed: bool): seq<byte>
      requires Valid(compressed)
    {
      match this
      case Padding(b) => [b]
      case Mode(b) => [0x4D, b]
      case BlankLine => [0x5A]
      case RawRow(f, data) => [0x67, f, |data| as byte] + data
      case PackedRow(f, segs) => [0x67, f, |Encoding(segs)| as byte] + Encoding(segs)
      case Initialise => [0x1B, 0x40]
      case StatusRequest => [0x1B, 0x69, 0x53]
      case OneByteSetting(c, o) => [0x1B, 0x69, c, o]
      case Margins(l, h) => [0x1B, 0x69, 0x64, l, h]
      case PrintInformation(o) => [0x1B, 0x69, 0x7A] + o
    }

    function ModeAfter(compressed: bool): bool {
      if Mode? then b == 0x02 else compressed
    }

    /** The rows the command is meant to print. */
    ghost function Intended(): seq<Line90> {
      match this
      case BlankLine => [Padded([])]
      case RawRow(_, data) => [Padded(data)]
      case PackedRow(_, segs) => [Padded(Expansion(segs))]
      case _ => []
    }
  }

  ghost predicate WellFormed(cmds: seq<Command>, compressed: bool)
    decreases |cmds|
  {
    cmds == [] || (cmds[0].Valid(compressed) && WellFormed(cmds[1..], cmds[0].ModeAfter(compressed)))
  }

  ghost function Stream(cmds: seq<Command>, compressed: bool): seq<byte>
    requires WellFormed(cmds, compressed)
    decreases |cmds|
  {
    if cmds == [] then []
    else cmds[0].Code(compressed) + Stream(cmds[1..], cmds[0].ModeAfter(compressed))
  }

  ghost function IntendedRows(cmds: seq<Command>): seq<Line90> {
    if cmds == [] then [] else cmds[0].Intended() + IntendedRows(cmds[1..])
  }

  /** A row cut from enough whole segments is the row of all of them. */
  lemma PackedRowIsExact(segs: seq<Segment>)
    requires AllValid(segs)
    ensures RowData(Encoding(segs), true) == Padded(Expansion(segs))
  {
    var k := UnpackEncoding(segs, BYTES_PER_LINE);
    if k == |segs| {
      assert segs[..k] == segs;
    } else {
      assert Expansion(segs[..k])[..BYTES_PER_LINE] == Expansion(segs)[..BYTES_PER_LINE];
    }
  }

  lemma TransferDecodes(filler: byte, data: seq<byte>, rest: seq<byte>, compressed: bool)
    requires |data| <= 255
    ensures Rows([0x67, filler, |data| as byte] + data + rest, compressed)
         == [RowData(data, compressed)] + Rows(rest, compressed)
  {
    var doc := [0x67, filler, |data| as byte] + data + rest;
    assert doc[3..3 + |data|] == data && doc[3 + |data|..] == rest;
  }

  lemma HeaderDecodes(cmd: Command, rest: seq<byte>, compressed: bool)
    requires cmd.Initialise? || cmd.StatusRequest? || cmd.OneByteSetting? || cmd.Margins? || cmd.PrintInformation?
    requires cmd.Valid(compressed)
    ensures Rows(cmd.Code(compressed) + rest, compressed) == Rows(rest, compressed)
  {
    var code := cmd.Code(compressed);
    var doc := code + rest;
    assert EscCommandLen(doc) == |code|;
    assert doc[|code|..] == rest;
  }

  lemma CommandDecodes(cmd: Command, rest: seq<byte>, compressed: bool)
    requires cmd.Valid(compressed)
    ensures Rows(cmd.Code(compressed) + rest, compressed) == cmd.Intended() + Rows(rest, cmd.ModeAfter(compressed))
  {
    hide RowData;
    var doc := cmd.Code(compressed) + rest;
    match cmd {
      case Padding(b) =>
        assert doc[1..] == rest;
      case Mode(b) =>
        assert doc[2..] == rest;
      case BlankLine =>
        assert doc[1..] == rest;
      case RawRow(f, data) =>
        TransferDecodes(f, data, rest, compressed);
        RawRowIsExact(data);
      case PackedRow(f, segs) =>
        TransferDecodes(f, Encoding(segs), rest, compressed);
        PackedRowIsExact(segs);
      case _ =>
        HeaderDecodes(cmd, rest, compressed);
    }
  }

  lemma RawRowIsExact(data: seq<byte>)
    ensures RowData(data, false) == Padded(data)
  {
  }

  /** Every well-formed command stream decodes to exactly the rows its commands intend. */
  lemma {:induction false} StreamDecodes(cmds: seq<Command>, compressed: bool)
    requires WellFormed(cmds, compressed)
    ensures Rows(Stream(cmds, compressed), compressed) == IntendedRows(cmds)
    decreases |cmds|
  {
    if cmds != [] {
      var mode := cmds[0].ModeAfter(compressed);
      StreamDecodes(cmds[1..], mode);
      CommandDecodes(cmds[0], Stream(cmds[1..], mode), compressed);
    }
  }

  /** A blank line command gives 90 zero bytes; a short row is filled up with them. */
  lemma ShortRowsAreZeroFilled(filler: byte, data: seq<byte>, compressed: bool)
    requires |data| <= 90
    ensures |Rows([0x5A], compressed)| == 1 && forall i :: 0 <= i < 90 ==> Rows([0x5A], compressed)[0][i] == 0
    ensures var rows := Rows([0x67, filler, |data| as byte] + data, false);
            |rows| == 1 && forall i :: 0 <= i < 90 ==> rows[0][i] == if i < |data| then data[i] else 0
  {
    hide EscCommandLen;
    NoRows();
    var blank: seq<byte> := [0x5A];
    assert blank[1..] == [];
    TransferDecodes(filler, data, [], false);
    assert [0x67, filler, |data| as byte] + data + [] == [0x67, filler, |data| as byte] + data;
  }

  /** What is no command of a job is skipped: any other byte alone, other escapes with their second or third byte. */
  lemma UnknownCommandsAreSkipped(b: byte, rest: seq<byte>, compressed: bool)
    ensures b !in {0x4D, 0x5A, 0x67, 0x1B} ==> Rows([b] + rest, compressed) == Rows(rest, compressed)
    ensures b != 0x69 ==> Rows([0x1B, b] + rest, compressed) == Rows(rest, compressed)
    ensures b !in {0x61, 0x4D, 0x41, 0x4B, 0x64, 0x7A}
      ==> Rows([0x1B, 0x69, b] + rest, compressed) == Rows(rest, compressed)
  {
    assert ([b] + rest)[1..] == rest;
    assert ([0x1B, b] + rest)[2..] == rest;
    assert ([0x1B, 0x69, b] + rest)[3..] == rest;
  }

  /** Rows are read packed after a mode command with operand 2, and as they are after any other and at the start. */
  lemma ModeSelects(operand: byte, filler: byte, data: seq<byte>, compressed: bool)
    requires |data| <= 255
    ensures var rows := Rows([0x4D, operand] + ([0x67, filler, |data| as byte] + data), compressed);
            |rows| == 1 && rows[0] == Padded(if operand == 2 then Unpack(data, 90) else data)
  {
    hide EscCommandLen, Unpack;
    NoRows();
    var transfer := [0x67, filler, |data| as byte] + data;
    assert ([0x4D, operand] + transfer)[2..] == transfer;
    TransferDecodes(filler, data, [], operand == 2);
    assert transfer + [] == transfer;
  }

  /** A row that has not arrived completely ends the stream. */
  lemma TruncatedRowEndsStream(filler: byte, n: byte, data: seq<byte>, compressed: bool)
    requires |data| < n as nat
    ensures Rows([0x67, filler, n] + data, compressed) == []
    ensures Rows([0x67, filler], compressed) == [] && Rows([0x67], compressed) == [] && Rows([0x4D], compressed) == []
  {
  }

  // ---- The image ----

  /** A raster row lists the head's dots from right to left, as the image has them: its first bit is the last column. */
  predicate Ink(rows: seq<Line90>, x: int, y: int)
    requires 0 <= x < WIDTH && 0 <= y < |rows|
  {
    var px := WIDTH - 1 - x;
    (rows[y][px / 8] as bv8) & Mask(px % 8) != 0
  }

  /** Bit k of byte b of a row, most significant first, is image column 719 - 8b - k: the row is mirrored. */
  lemma InkIsMirrored(rows: seq<Line90>, b: nat, k: nat, y: nat)
    requires b < 90 && k < 8 && y < |rows|
    ensures Ink(rows, 719 - 8 * b - k, y) <==> ((rows[y][b] as bv8) >> (7 - k)) & 1 == 1
  {
    var px := 8 * b + k;
    assert px / 8 == b && px % 8 == k;
    FirstPixelIsTopBit(rows[y][b] as bv8, k);
  }

  datatype Box = Box(minX: int, minY: int, maxX: int, maxY: int)

  ghost predicate Visited(x: int, y: int, cx: int, cy: int) {
    y < cy || (y == cy && x < cx)
  }

  /** The box covers all ink before (cx, cy), and each of its sides touches some. */
  ghost predicate Bounds(rows: seq<Line90>, b: Box, cx: int, cy: int) {
    && (forall x, y :: 0 <= x < WIDTH && 0 <= y < |rows| && Visited(x, y, cx, cy) && Ink(rows, x, y) ==>
          b.minX <= x <= b.maxX && b.minY <= y <= b.maxY)
    && if b.maxX < 0 then b == Box(WIDTH, |rows|, -1, -1)
       else TouchesX(rows, b.minX) && TouchesX(rows, b.maxX) && TouchesY(rows, b.minY) && TouchesY(rows, b.maxY)
  }

  ghost predicate TouchesX(rows: seq<Line90>, x: int) {
    0 <= x < WIDTH && exists y :: 0 <= y < |rows| && Ink(rows, x, y)
  }

  ghost predicate TouchesY(rows: seq<Line90>, y: int) {
    0 <= y < |rows| && exists x :: 0 <= x < WIDTH && Ink(rows, x, y)
  }

  function Stretch(b: Box, x: int, y: int): Box {
    Box(if x < b.minX then x else b.minX, if y < b.minY then y else b.minY,
        if x > b.maxX then x else b.maxX, if y > b.maxY then y else b.maxY)
  }

  lemma BoundsStep(rows: seq<Line90>, b: Box, cx: int, cy: int)
    requires 0 <= cx < WIDTH && 0 <= cy < |rows|
    requires Bounds(rows, b, cx, cy)
    ensures Bounds(rows, if Ink(rows, cx, cy) then Stretch(b, cx, cy) else b, cx + 1, cy)
  {
    hide Ink;
    if Ink(rows, cx, cy) {
      assert TouchesX(rows, cx) && TouchesY(rows, cy);
      hide TouchesX, TouchesY;
    }
  }

  /** Stretches the box over the ink of row y. */
  method ScanRow(rows: seq<Line90>, start: Box, y: nat) returns (b: Box)
    requires y < |rows| && Bounds(rows, start, 0, y)
    ensures Bounds(rows, b, WIDTH, y)
  {
    hide Bounds, Ink;
    var minX, minY, maxX, maxY := start.minX, start.minY, start.maxX, start.maxY;
    for x := 0 to WIDTH
      invariant Bounds(rows, Box(minX, minY, maxX, maxY), x, y)
    {
      BoundsStep(rows, Box(minX, minY, maxX, maxY), x, y);
      if Ink(rows, x, y) {
        if x < minX {
          minX := x;
        }
        if x > maxX {
          maxX := x;
        }
        if y < minY {
          minY := y;
        }
        if y > maxY {
          maxY := y;
        }
      }
    }
    return Box(minX, minY, maxX, maxY);
  }

  method FindBox(rows: seq<Line90>) returns (b: Box)
    ensures Bounds(rows, b, 0, |rows|)
  {
    b := Box(WIDTH, |rows|, -1, -1);
    NothingVisited(rows);
    for y := 0 to |rows|
      invariant Bounds(rows, b, 0, y)
    {
      hide Bounds;
      b := ScanRow(rows, b, y);
      NextRowBounds(rows, b, y);
    }
  }

  lemma NothingVisited(rows: seq<Line90>)
    ensures Bounds(rows, Box(WIDTH, |rows|, -1, -1), 0, 0)
  {
  }

  lemma NextRowBounds(rows: seq<Line90>, b: Box, y: int)
    requires Bounds(rows, b, WIDTH, y)
    ensures Bounds(rows, b, 0, y + 1)
  {
    hide Ink, TouchesX, TouchesY;
  }

  /** The crop: the ink's bounding box widened by the margin and clipped to the head and the rows. */
  function Widened(b: Box, height: nat): Box {
    Box(if b.minX - MARGIN > 0 then b.minX - MARGIN else 0,
        if b.minY - MARGIN > 0 then b.minY - MARGIN else 0,
        if b.maxX + MARGIN < WIDTH - 1 then b.maxX + MARGIN else WIDTH - 1,
        if b.maxY + MARGIN < height - 1 then b.maxY + MARGIN else height - 1)
  }

  /** A white or black paletted image. */
  datatype Paletted = Paletted(width: nat, height: nat, pix: array<byte>)

  /** pix shows the ink of the rows, shifted by (left, top), for the pixels before (cx, cy). */
  ghost predicate Cropped(pix: seq<byte>, w: nat, h: nat, rows: seq<Line90>, left: int, top: int, cx: nat, cy: nat)
    requires 0 <= left && 0 <= top && left + w <= WIDTH && top + h <= |rows|
  {
    && |pix| == At(w, 0, h)
    && forall x: nat, y: nat :: x < w && y < h ==>
         At(w, x, y) < |pix|
         && pix[At(w, x, y)] == if Visited(x, y, cx, cy) && Ink(rows, x + left, y + top) then 1 else 0
  }

  lemma CropStep(pix: seq<byte>, w: nat, h: nat, rows: seq<Line90>, left: int, top: int, cx: nat, cy: nat)
    requires 0 <= left && 0 <= top && left + w <= WIDTH && top + h <= |rows| && cx < w && cy < h
    requires Cropped(pix, w, h, rows, left, top, cx, cy)
    ensures At(w, cx, cy) < |pix|
    ensures Cropped(if Ink(rows, cx + left, cy + top) then pix[At(w, cx, cy) := 1] else pix, w, h, rows, left, top,
                    cx + 1, cy)
  {
    hide Ink;
    var next := if Ink(rows, cx + left, cy + top) then pix[At(w, cx, cy) := 1] else pix;
    forall x: nat, y: nat | x < w && y < h
      ensures At(w, x, y) < |next|
      ensures next[At(w, x, y)] == if Visited(x, y, cx + 1, cy) && Ink(rows, x + left, y + top) then 1 else 0
    {
      AtInjective(w, x, y, cx, cy);
    }
  }

  lemma CropNextRow(pix: seq<byte>, w: nat, h: nat, rows: seq<Line90>, left: int, top: int, cy: nat)
    requires 0 <= left && 0 <= top && left + w <= WIDTH && top + h <= |rows|
    requires Cropped(pix, w, h, rows, left, top, w, cy)
    ensures Cropped(pix, w, h, rows, left, top, 0, cy + 1)
  {
    hide Ink;
  }

  lemma CropStart(pix: seq<byte>, w: nat, h: nat, rows: seq<Line90>, left: int, top: int)
    requires 0 <= left && 0 <= top && left + w <= WIDTH && top + h <= |rows|
    requires |pix| == At(w, 0, h) && forall i :: 0 <= i < |pix| ==> pix[i] == 0
    ensures Cropped(pix, w, h, rows, left, top, 0, 0)
  {
    hide Ink;
    forall x: nat, y: nat | x < w && y < h
      ensures At(w, x, y) < |pix|
    {
      RowsAscend(w, y, h);
    }
  }

  /**
   * Without ink the image is the whole head, white. Otherwise it is the widened bounding box, and its
   * black pixels are exactly the ink of the rows, mirrored and moved to the box's corner.
   */
  method RasterRowsToImage(rows: seq<Line90>) returns (img: Paletted, ghost box: Box)
    ensures fresh(img.pix)
    ensures Bounds(rows, box, 0, |rows|)
    ensures box.maxX < 0 ==> img.width == WIDTH && img.height == |rows| && img.pix.Length == At(WIDTH, 0, |rows|)
                             && forall i :: 0 <= i < img.pix.Length ==> img.pix[i] == 0
    ensures box.maxX >= 0 ==>
      var c := Widened(box, |rows|);
      && 0 <= c.minX <= box.minX <= box.maxX <= c.maxX < WIDTH && 0 <= c.minY <= box.minY <= box.maxY <= c.maxY < |rows|
      && img.width == c.maxX - c.minX + 1 && img.height == c.maxY - c.minY + 1
      && Cropped(img.pix[..], img.width, img.height, rows, c.minX, c.minY, 0, img.height)
  {
    hide Ink, Cropped, TouchesX, TouchesY;
    var b := FindBox(rows);
    box := b;
    RowStartIsProduct(WIDTH, |rows|);
    if b.maxX < 0 {
      var blank := new byte[|rows| * WIDTH](_ => 0);
      return Paletted(WIDTH, |rows|, blank), b;
    }
    BoxInRange(rows, b);
    var c := Widened(b, |rows|);
    var w: nat, h: nat := c.maxX - c.minX + 1, c.maxY - c.minY + 1;
    RowStartIsProduct(w, h);
    var pix := new byte[h * w](_ => 0);
    img := Paletted(w, h, pix);
    CropStart(pix[..], w, h, rows, c.minX, c.minY);
    for y := c.minY to c.maxY + 1
      invariant Cropped(pix[..], w, h, rows, c.minX, c.minY, 0, y - c.minY)
    {
      RowStartIsProduct(w, y - c.minY);
      for x := c.minX to c.maxX + 1
        invariant Cropped(pix[..], w, h, rows, c.minX, c.minY, x - c.minX, y - c.minY)
      {
        CropStep(pix[..], w, h, rows, c.minX, c.minY, x - c.minX, y - c.minY);
        if Ink(rows, x, y) {
          pix[(y - c.minY) * w + (x - c.minX)] := 1;
        }
      }
      CropNextRow(pix[..], w, h, rows, c.minX, c.minY, y - c.minY);
    }
  }

  lemma BoxInRange(rows: seq<Line90>, b: Box)
    requires Bounds(rows, b, 0, |rows|) && b.maxX >= 0
    ensures 0 <= b.minX <= b.maxX < WIDTH && 0 <= b.minY <= b.maxY < |rows|
  {
    var y :| 0 <= y < |rows| && Ink(rows, b.maxX, y);
    assert Visited(b.maxX, y, 0, |rows|);
  }

  // ---- Ink is conserved ----

  ghost function InkSet(rows: seq<Line90>): set<(int, int)> {
    set x, y | 0 <= x < WIDTH && 0 <= y < |rows| && Ink(rows, x, y) :: (x, y)
  }

  ghost function BlackSet(pix: seq<byte>, w: nat, h: nat): set<(int, int)>
    requires |pix| == At(w, 0, h)
  {
    set x: int, y: int | 0 <= x < w && 0 <= y < h && (RowsAscend(w, y, h); pix[At(w, x, y)] == 1) :: (x, y)
  }

  ghost function Shift(p: (int, int), dx: int, dy: int): (int, int) {
    (p.0 + dx, p.1 + dy)
  }

  ghost function Moved(s: set<(int, int)>, dx: int, dy: int): set<(int, int)> {
    set p | p in s :: Shift(p, dx, dy)
  }

  lemma {:induction false} MovingKeepsCount(s: set<(int, int)>, dx: int, dy: int)
    ensures |Moved(s, dx, dy)| == |s|
    decreases s
  {
    if s != {} {
      var p :| p in s;
      MovingKeepsCount(s - {p}, dx, dy);
      assert Moved(s, dx, dy) == Moved(s - {p}, dx, dy) + {Shift(p, dx, dy)};
    }
  }

  lemma BlackIffInk(pix: seq<byte>, w: nat, h: nat, rows: seq<Line90>, left: nat, top: nat, x: int, y: int)
    requires left + w <= WIDTH && top + h <= |rows| && Cropped(pix, w, h, rows, left, top, 0, h)
    requires (x, y) in InkSet(rows) ==> left <= x < left + w && top <= y < top + h
    ensures (x, y) in InkSet(rows) <==> (x - left, y - top) in BlackSet(pix, w, h)
  {
    hide Ink;
    if left <= x < left + w && top <= y < top + h {
      var x0: nat, y0: nat := x - left, y - top;
      assert pix[At(w, x0, y0)] == if Ink(rows, x, y) then 1 else 0;
    }
  }

  /** Cropping to a rectangle that holds all ink loses none and adds none. */
  lemma InkIsConserved(pix: seq<byte>, w: nat, h: nat, rows: seq<Line90>, left: nat, top: nat)
    requires left + w <= WIDTH && top + h <= |rows| && Cropped(pix, w, h, rows, left, top, 0, h)
    requires forall x, y :: (x, y) in InkSet(rows) ==> left <= x < left + w && top <= y < top + h
    ensures InkSet(rows) == Moved(BlackSet(pix, w, h), left, top)
    ensures |BlackSet(pix, w, h)| == |InkSet(rows)|
  {
    var ink, black := InkSet(rows), BlackSet(pix, w, h);
    hide Cropped, InkSet, BlackSet;
    forall p: (int, int)
      ensures p in ink <==> Shift(p, 0 - left, 0 - top) in black
    {
      assert p == (p.0, p.1);
      BlackIffInk(pix, w, h, rows, left, top, p.0, p.1);
    }
    MovedIsShifted(ink, black, left, top);
    MovingKeepsCount(black, left, top);
  }

  lemma MovedIsShifted(a: set<(int, int)>, b: set<(int, int)>, dx: int, dy: int)
    requires forall p :: p in a <==> Shift(p, 0 - dx, 0 - dy) in b
    ensures a == Moved(b, dx, dy)
  {
    forall p | p in a
      ensures p in Moved(b, dx, dy)
    {
      assert p == Shift(Shift(p, 0 - dx, 0 - dy), dx, dy);
    }
    forall p | p in Moved(b, dx, dy)
      ensures p in a
    {
      var q :| q in b && Shift(q, dx, dy) == p;
      assert q == Shift(p, 0 - dx, 0 - dy);
    }
  }

  /** The crop's rectangle holds all ink, and is no larger than the margin and the head require. */
  lemma CropIsTight(rows: seq<Line90>, box: Box)
    requires Bounds(rows, box, 0, |rows|) && box.maxX >= 0
    ensures var c := Widened(box, |rows|);
            && (forall x, y :: (x, y) in InkSet(rows) ==> c.minX <= x <= c.maxX && c.minY <= y <= c.maxY)
            && ((c.minX == 0 && box.minX <= 8) || TouchesX(rows, c.minX + 8))
            && ((c.maxX == 719 && box.maxX >= 711) || TouchesX(rows, c.maxX - 8))
            && ((c.minY == 0 && box.minY <= 8) || TouchesY(rows, c.minY + 8))
            && ((c.maxY == |rows| - 1 && box.maxY >= |rows| - 9) || TouchesY(rows, c.maxY - 8))
  {
    hide Ink, TouchesX, TouchesY;
    forall x, y | (x, y) in InkSet(rows)
      ensures box.minX <= x <= box.maxX && box.minY <= y <= box.maxY
    {
      assert Visited(x, y, 0, |rows|);
    }
  }

  /** A payload's image, if the stream carries any raster row. */
  method DecodeBrotherRaster(doc: seq<byte>) returns (img: Option<Paletted>, ghost box: Box)
    ensures img.None? <==> Rows(doc, false) == []
    ensures img.Some? ==>
      var rows := Rows(doc, false);
      && fresh(img.value.pix) && Bounds(rows, box, 0, |rows|)
      && (box.maxX >= 0 ==>
            var c := Widened(box, |rows|);
            && 0 <= c.minX <= box.minX <= box.maxX <= c.maxX < WIDTH
            && 0 <= c.minY <= box.minY <= box.maxY <= c.maxY < |rows|
            && img.value.width == c.maxX - c.minX + 1 && img.value.height == c.maxY - c.minY + 1
            && Cropped(img.value.pix[..], img.value.width, img.value.height, rows, c.minX, c.minY, 0, img.value.height))
      && (box.maxX < 0 ==>
            img.value.width == 720 && img.value.height == |rows| && img.value.pix.Length == At(720, 0, |rows|)
            && forall i :: 0 <= i < img.value.pix.Length ==> img.value.pix[i] == 0)
  {
    hide Bounds, Cropped, Widened, Rows;
    var rows := DecodeRows(doc);
    if |rows| == 0 {
      return None, Box(0, 0, -1, -1);
    }
    var image, b := RasterRowsToImage(rows);
    return Some(image), b;
  }
}
