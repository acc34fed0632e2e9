/** The print protocol and the raster encoding together: what a printer that confirmed a print has been sent. */
module PrintedLabel {
  import opened Bytes
  import opened Commands
  import opened Framing
  import opened StreamParser
  import opened Dithering
  import opened Raster
  import opened RowEncoding
  import opened EndToEnd
  import opened NiimbotClient
  import opened ClientProperties

  /** A packet that carries rows, or the check line between them. */
  predicate IsImageData(p: Packet) {
    p.cmd == CMD_EMPTY_ROW || p.cmd == CMD_BITMAP_ROW || p.cmd == CMD_CHECK_LINE
  }

  ghost predicate OnlyImageData(packets: seq<Packet>) {
    forall i :: 0 <= i < |packets| ==> IsImageData(packets[i])
  }

  /** The image data of a stream of packets, in order. */
  function ImageData(packets: seq<Packet>): seq<Packet> {
    if packets == [] then []
    else (if IsImageData(packets[0]) then [packets[0]] else []) + ImageData(packets[1..])
  }

  /** The same page several times over. */
  function Copies(page: seq<Packet>, n: nat): seq<Packet> {
    if n == 0 then [] else Copies(page, n - 1) + page
  }

  lemma {:induction false} ImageDataAppend(a: seq<Packet>, b: seq<Packet>)
    ensures ImageData(a + b) == ImageData(a) + ImageData(b)
  {
    hide IsImageData;
    if a == [] {
      assert a + b == b;
    } else {
      assert (a + b)[0] == a[0] && (a + b)[1..] == a[1..] + b;
      ImageDataAppend(a[1..], b);
      Assoc(if IsImageData(a[0]) then [a[0]] else [], ImageData(a[1..]), ImageData(b));
    }
  }

  lemma {:induction false} AllImageData(packets: seq<Packet>)
    requires OnlyImageData(packets)
    ensures ImageData(packets) == packets
  {
    if packets != [] {
      AllImageData(packets[1..]);
    }
  }

  lemma {:induction false} NoImageData(packets: seq<Packet>)
    requires forall i :: 0 <= i < |packets| ==> !IsImageData(packets[i])
    ensures ImageData(packets) == []
  {
    if packets != [] {
      NoImageData(packets[1..]);
    }
  }

  lemma {:induction false} MarksAreImageData(next: nat, last: int)
    ensures OnlyImageData(Marks(next, last))
    decreases last - next
  {
    if next <= last {
      MarksAreImageData(next + 200, last);
    }
  }

  lemma {:induction false} RowsAreImageData(runs: seq<Row>, next: nat, headPixels: nat, mode: CountMode, check: bool)
    ensures OnlyImageData(PacketsFrom(runs, next, headPixels, mode, check))
    decreases |runs|
  {
    hide IsImageData, Marks, NextMark, RowPacket;
    if runs != [] {
      var last := runs[0].End() - 1;
      RowIsImageData(runs[0], headPixels, mode);
      var head, marks := [RowPacket(runs[0], headPixels, mode)], if check then Marks(next, last) else [];
      var next' := if check then NextMark(next, last) else next;
      RowsAreImageData(runs[1..], next', headPixels, mode, check);
      if check {
        MarksAreImageData(next, last);
      }
      ImageDataJoins(head, marks, PacketsFrom(runs[1..], next', headPixels, mode, check));
    }
  }

  lemma ImageDataJoins(a: seq<Packet>, b: seq<Packet>, c: seq<Packet>)
    requires OnlyImageData(a) && OnlyImageData(b) && OnlyImageData(c)
    ensures OnlyImageData(a + b + c)
  {
    hide IsImageData;
  }

  lemma RowIsImageData(r: Row, headPixels: nat, mode: CountMode)
    ensures IsImageData(RowPacket(r, headPixels, mode))
  {
  }

  lemma {:induction false} PagesHoldCopies(enc: EncodedImage, rows: seq<Packet>, copies: nat)
    requires OnlyImageData(rows)
    ensures ImageData(PagePackets(enc, rows, copies)) == Copies(rows, copies)
  {
    hide ImageData;
    if copies > 0 {
      var before := PagePackets(enc, rows, copies - 1);
      var head := [Packet(CMD_PAGE_START, [1]), Packet(CMD_SET_PAGE_SIZE, U16(enc.rows) + U16(enc.cols))];
      var end := [Packet(CMD_PAGE_END, [1])];
      PagesHoldCopies(enc, rows, copies - 1);
      ImageDataAppend(before + head + rows, end);
      ImageDataAppend(before + head, rows);
      ImageDataAppend(before, head);
      AllImageData(rows);
      NoImageData(head);
      NoImageData(end);
    } else {
      NoImageData([]);
    }
  }

  /** Pages sent for a number of copies: the legacy task repeats the page, the others let the printer do it. */
  function PagesSent(task: Task, copies: nat): nat {
    if task.TaskB21V1? then copies else 1
  }

  lemma MainHoldsPages(task: Task, enc: EncodedImage, density: byte, labelType: byte, copies: nat, headPixels: nat)
    ensures ImageData(Packets(MainSlots(task, enc, density, labelType, copies, headPixels)))
         == Copies(TaskRows(task, enc, headPixels), PagesSent(task, copies))
  {
    hide ImageData, MainSlots, PagePackets, PacketsFrom;
    TaskCommands(task, enc, density, labelType, copies, headPixels);
    var written := Packets(MainSlots(task, enc, density, labelType, copies, headPixels));
    var rows := TaskRows(task, enc, headPixels);
    RowsAreImageData(enc.runs, 199, headPixels, CountSplit, false);
    RowsAreImageData(enc.runs, 199, headPixels, CountTotal, true);
    if task.TaskB21V1? {
      PagesHoldCopies(enc, rows, copies);
      assert written == written[..3] + PagePackets(enc, rows, copies);
      NoImageData(written[..3]);
      ImageDataAppend(written[..3], PagePackets(enc, rows, copies));
    } else {
      var k, end := if task.TaskB1? then 5 else 7, [Packet(CMD_PAGE_END, [1])];
      assert written == written[..k] + rows + end;
      NoImageData(written[..k]);
      NoImageData(end);
      AllImageData(rows);
      ImageDataAppend(written[..k] + rows, end);
      ImageDataAppend(written[..k], rows);
      assert Copies(rows, 1) == Copies(rows, 0) + rows;
    }
  }

  lemma PollsHoldNothing(poll: Poll, n: nat)
    ensures ImageData(Repeat(poll.Slot().p, n)) == []
    ensures ImageData(if poll.StatusPoll? then [END_PACKET] else []) == []
  {
    NoImageData(Repeat(poll.Slot().p, n));
    NoImageData(if poll.StatusPoll? then [END_PACKET] else []);
  }

  lemma GrammarFits(main: seq<Slot>, poll: Poll, n: nat)
    requires AllFramed(main)
    ensures AllFit(Grammar(main, poll, n))
  {
  }

  /** What Encode hands to the client for an image. */
  function Encoded(j: Job): EncodedImage
    requires j.Valid()
  {
    EncodedImage(Columns(j.w), j.h, Merge(LinesUpTo(j, j.h)))
  }

  /**
   * A print that succeeded has put on the wire, whatever the chunks it is read in, packets whose image data is the
   * page, once or once per copy; and the page, read back, has all rows and shows exactly the binarised bitmap.
   */
  lemma PrintedIsBitmap(t: seq<Entry>, task: Task, j: Job, density: byte, labelType: byte, copies: nat, headPixels: nat,
                        chunks: seq<seq<byte>>)
    requires j.Valid() && 1 <= j.h <= 0xFFFF && copies >= 1
    requires Succeeded(t, MainSlots(task, Encoded(j), density, labelType, copies, headPixels), PollOf(task, copies))
    ensures AllFit(Writes(t))
    ensures Flatten(chunks) == Wire(Writes(t)) ==> FeedAll([], chunks) == Parsed(Writes(t), [])
    ensures var page := TaskRows(task, Encoded(j), headPixels);
            && ImageData(Writes(t)) == Copies(page, PagesSent(task, copies))
            && RowsFed(page) == j.h
            && forall x: nat, y: nat :: x < Columns(j.w) && y < j.h ==>
                 (PacketsShow(page, x, y) <==> x < j.w && On(j, x, y))
  {
    hide Succeeded, MainSlots, AllFramed, AllFit, ImageData, On, PacketsShow, PacketsFrom, RowsFed, Wire, FeedAll,
        Parse;
    var main := MainSlots(task, Encoded(j), density, labelType, copies, headPixels);
    var poll := PollOf(task, copies);
    SuccessBounds(t, main, poll);
    SuccessWritesGrammar(t, main, poll);
    var n: nat :| n >= 1 && Writes(t) == Grammar(main, poll, n);
    GrammarFits(main, poll, n);
    WritesArrive(Writes(t), chunks);
    GrammarHolds(task, Encoded(j), density, labelType, copies, headPixels, n);
    var mode, check := if task.TaskB21V1? then CountTotal else CountSplit, task.TaskB21V1?;
    LabelFeedsAllRows(j, headPixels, mode, check);
    forall x: nat, y: nat | x < Columns(j.w) && y < j.h
      ensures PacketsShow(TaskRows(task, Encoded(j), headPixels), x, y) <==> x < j.w && On(j, x, y)
    {
      LabelShowsBitmap(j, headPixels, mode, check, x, y);
    }
  }

  lemma WritesArrive(packets: seq<Packet>, chunks: seq<seq<byte>>)
    requires AllFit(packets)
    ensures Flatten(chunks) == Wire(packets) ==> FeedAll([], chunks) == Parsed(packets, [])
  {
    WireParses(packets);
    ChunkingInvariance([], chunks);
    assert [] + Wire(packets) == Wire(packets);
  }

  lemma GrammarHolds(task: Task, enc: EncodedImage, density: byte, labelType: byte, copies: nat, headPixels: nat,
                     n: nat)
    ensures ImageData(Grammar(MainSlots(task, enc, density, labelType, copies, headPixels), PollOf(task, copies), n))
         == Copies(TaskRows(task, enc, headPixels), PagesSent(task, copies))
  {
    hide ImageData, MainSlots, Packets, TaskRows, Copies;
    var main, poll := MainSlots(task, enc, density, labelType, copies, headPixels), PollOf(task, copies);
    var polls, end := Repeat(poll.Slot().p, n), if poll.StatusPoll? then [END_PACKET] else [];
    MainHoldsPages(task, enc, density, labelType, copies, headPixels);
    PollsHoldNothing(poll, n);
    ImageDataAppend(Packets(main) + polls, end);
    ImageDataAppend(Packets(main), polls);
  }

  /** Encodes an image and prints it: a printer that confirmed it was sent exactly the binarised bitmap. */
  method PrintImage(c: Client, w: nat, h: nat, darkness: seq<real>, encoding: EncodeOptions, opts: PrintOptions)
    returns (r: Option<ClientError>)
    requires |darkness| == At(w, 0, h)
    modifies c
    ensures old(c.trace) <= c.trace
    ensures r.None? ==>
      var j := JobOf(w, h, darkness, encoding);
      var page := TaskRows(c.model.task, Encoded(j), c.model.headPixels);
      && ImageData(Writes(c.trace[|old(c.trace)|..]))
      == Copies(page, PagesSent(c.model.task, Effective(c.model, opts).copies))
      && RowsFed(page) == h
      && Binarises((x: nat, y: nat) => PacketsShow(page, x, y), w, h, darkness, encoding)
      && forall x: nat, y: nat :: x < Columns(w) && y < h ==> (PacketsShow(page, x, y) <==> x < w && On(j, x, y))
  {
    hide Succeeded, BrokeOff, ResetTail, ServedToEnd, MainSlots, On, PacketsShow, TaskRows, ImageData, RowsFed, Copies,
         Binarises;
    var enc := Encode(w, h, darkness, encoding);
    ghost var j := JobOf(w, h, darkness, encoding);
    assert enc == Encoded(j);
    r := c.Print(enc, opts);
    if r.None? {
      ghost var o := Effective(c.model, opts);
      PrintedIsBitmap(c.trace[|old(c.trace)|..], c.model.task, j, DensityByte(o.density), o.labelType, o.copies,
                      c.model.headPixels, []);
      ghost var page := TaskRows(c.model.task, Encoded(j), c.model.headPixels);
      JobBinarises(w, h, darkness, encoding);
      BinarisesAlike(Blacks(j), (x: nat, y: nat) => PacketsShow(page, x, y), w, h, darkness, encoding);
    }
  }
}
