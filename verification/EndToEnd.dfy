/** The whole path of a label: binarise, merge, packetise, frame, fragment, reassemble, read back. */
module EndToEnd {
  import opened Bytes
  import opened Commands
  import opened Framing
  import opened StreamParser
  import opened Ble
  import opened Dithering
  import opened Raster
  import opened RowEncoding

  /** The packets Print streams for an encoded image. */
  function LabelPackets(j: Job, headPixels: nat, mode: CountMode, checkLine: bool): seq<Packet>
    requires j.Valid()
  {
    PacketsFrom(Merge(LinesUpTo(j, j.h)), 199, headPixels, mode, checkLine)
  }

  /** The bytes of a list of packets on the wire. */
  function Wire(packets: seq<Packet>): seq<byte>
    requires AllFit(packets)
  {
    if packets == [] then [] else Frame(packets[0]) + Wire(packets[1..])
  }

  lemma {:induction false} WireAppend(packets: seq<Packet>, p: Packet)
    requires AllFit(packets) && |p.data| <= MAX_DATA
    ensures AllFit(packets + [p]) && Wire(packets + [p]) == Wire(packets) + Frame(p)
  {
    hide Frame;
    if packets == [] {
      assert packets + [p] == [p];
    } else {
      assert (packets + [p])[1..] == packets[1..] + [p];
      WireAppend(packets[1..], p);
      Assoc(Frame(packets[0]), Wire(packets[1..]), Frame(p));
    }
  }

  /** Back-to-back frames parse to their packets, with nothing left over. */
  lemma {:induction false} WireParses(packets: seq<Packet>)
    requires AllFit(packets)
    ensures Parse(Wire(packets)) == Parsed(packets, [])
  {
    hide Frame, NextStep;
    if packets != [] {
      WireParses(packets[1..]);
      FrameParses(packets[0], Wire(packets[1..]));
    } else {
      IncompleteWaits([]);
    }
  }

  // ---- Frame sizes ----

  ghost predicate RunsFit(runs: seq<Row>) {
    forall i :: 0 <= i < |runs| ==> runs[i].Blank() || 6 + |runs[i].line.bits| <= MAX_DATA
  }

  lemma {:induction false} MarksFit(next: nat, last: int)
    ensures AllFit(Marks(next, last))
    decreases last - next
  {
    if next <= last {
      MarksFit(next + 200, last);
    }
  }

  lemma AllFitAppend(a: seq<Packet>, b: seq<Packet>)
    ensures AllFit(a + b) <==> AllFit(a) && AllFit(b)
  {
    if AllFit(a + b) {
      forall i | 0 <= i < |a|
        ensures |a[i].data| <= MAX_DATA
      {
        assert (a + b)[i] == a[i];
      }
      forall i | 0 <= i < |b|
        ensures |b[i].data| <= MAX_DATA
      {
        assert (a + b)[|a| + i] == b[i];
      }
    }
  }

  lemma RowPacketSize(r: Row, headPixels: nat, mode: CountMode)
    ensures AllFit([RowPacket(r, headPixels, mode)]) <==> r.Blank() || 6 + |r.line.bits| <= MAX_DATA
  {
    var p := RowPacket(r, headPixels, mode);
    assert [p][0] == p;
  }

  lemma {:induction false} PacketsFitExactly(runs: seq<Row>, next: nat, headPixels: nat, mode: CountMode, check: bool)
    ensures AllFit(PacketsFrom(runs, next, headPixels, mode, check)) <==> RunsFit(runs)
    decreases |runs|
  {
    hide RowPacket, AllFit;
    if runs != [] {
      var last := runs[0].End() - 1;
      var head, marks := [RowPacket(runs[0], headPixels, mode)], if check then Marks(next, last) else [];
      var next' := if check then NextMark(next, last) else next;
      PacketsFitExactly(runs[1..], next', headPixels, mode, check);
      AllFitAppend(head + marks, PacketsFrom(runs[1..], next', headPixels, mode, check));
      AllFitAppend(head, marks);
      RowPacketSize(runs[0], headPixels, mode);
      MarksFit(next, last);
      NothingFits();
      assert RunsFit(runs) <==> (runs[0].Blank() || 6 + |runs[0].line.bits| <= MAX_DATA) && RunsFit(runs[1..]) by {
        assert forall i :: 0 <= i < |runs[1..]| ==> runs[1..][i] == runs[i + 1];
        assert forall i :: 0 < i < |runs| ==> runs[i] == runs[1..][i - 1];
      }
    } else {
      NothingFits();
    }
  }

  lemma NothingFits()
    ensures AllFit([])
  {
  }

  /** Every packet of a label can be framed exactly when its rows are short enough or the label is blank. */
  lemma LabelFitsExactly(j: Job, headPixels: nat, mode: CountMode, check: bool)
    requires j.Valid()
    ensures AllFit(LabelPackets(j, headPixels, mode, check))
      <==> Columns(j.w) / 8 + 6 <= MAX_DATA || forall x: nat, y: nat :: x < j.w && y < j.h ==> !On(j, x, y)
  {
    hide On, PackUpTo, PacketsFrom;
    var lines := LinesUpTo(j, j.h);
    var runs := Merge(lines);
    MergeTiles(lines);
    PacketsFitExactly(runs, 199, headPixels, mode, check);
    forall i | 0 <= i < |runs|
      ensures runs[i].line == LineOf(j, runs[i].index)
    {
      LinesAt(j, j.h, runs[i].index);
      assert Fits(runs[i], lines);
    }
    if RunsFit(runs) && Columns(j.w) / 8 + 6 > MAX_DATA {
      forall x: nat, y: nat | x < j.w && y < j.h
        ensures !On(j, x, y)
      {
        var i := RunOfRow(runs, lines, y, |runs|);
        LinesAt(j, j.h, y);
        NoInkCounted(j, y, j.w);
      }
    }
    if forall x: nat, y: nat :: x < j.w && y < j.h ==> !On(j, x, y) {
      forall i | 0 <= i < |runs|
        ensures runs[i].Blank()
      {
        NoInkCounted(j, runs[i].index, j.w);
      }
    }
  }

  // ---- The theorem ----

  /** The packets of a label, read back, show the bitmap that was binarised and the preview of its runs. */
  lemma LabelShowsBitmap(j: Job, headPixels: nat, mode: CountMode, check: bool, x: nat, y: nat)
    requires j.Valid() && 1 <= j.h <= 0xFFFF && x < Columns(j.w) && y < j.h
    ensures PacketsShow(LabelPackets(j, headPixels, mode, check), x, y) <==> x < j.w && On(j, x, y)
    ensures PacketsShow(LabelPackets(j, headPixels, mode, check), x, y) <==> Painted(Merge(LinesUpTo(j, j.h)), x, y)
  {
    hide PacketsFrom, On, PacketsShow, Painted;
    var lines := LinesUpTo(j, j.h);
    MergeTiles(lines);
    assert forall i :: 0 <= i < |Merge(lines)| ==> Fits(Merge(lines)[i], lines);
    PacketsPaintRuns(Merge(lines), 199, headPixels, mode, check, x, y);
    MergedRunsPaintBitmap(j, x, y);
  }

  /**
   * A printer that reassembles the label's frames from any chunks receives exactly the packets
   * sent, keeps nothing in its buffer, and reads from them the bitmap that was binarised.
   */
  lemma LabelArrives(j: Job, headPixels: nat, mode: CountMode, check: bool, chunks: seq<seq<byte>>)
    requires j.Valid() && 1 <= j.h <= 0xFFFF
    requires Columns(j.w) / 8 + 6 <= MAX_DATA
    ensures AllFit(LabelPackets(j, headPixels, mode, check))
    ensures Flatten(chunks) == Wire(LabelPackets(j, headPixels, mode, check))
      ==> FeedAll([], chunks) == Parsed(LabelPackets(j, headPixels, mode, check), [])
    ensures forall x: nat, y: nat :: x < Columns(j.w) && y < j.h ==>
              (PacketsShow(LabelPackets(j, headPixels, mode, check), x, y) <==> x < j.w && On(j, x, y))
              && (PacketsShow(LabelPackets(j, headPixels, mode, check), x, y)
                  <==> Painted(Merge(LinesUpTo(j, j.h)), x, y))
  {
    hide LabelPackets, On, PacketsShow, Painted;
    var packets := LabelPackets(j, headPixels, mode, check);
    LabelFitsExactly(j, headPixels, mode, check);
    WireParses(packets);
    ChunkingInvariance([], chunks);
    assert [] + Wire(packets) == Wire(packets);
    forall x: nat, y: nat | x < Columns(j.w) && y < j.h
      ensures PacketsShow(packets, x, y) <==> x < j.w && On(j, x, y)
      ensures PacketsShow(packets, x, y) <==> Painted(Merge(LinesUpTo(j, j.h)), x, y)
    {
      LabelShowsBitmap(j, headPixels, mode, check, x, y);
    }
  }

  // ---- Row count ----

  ghost function RowsOf(p: Packet): nat {
    if p.cmd == CMD_EMPTY_ROW && |p.data| >= 3 then p.data[2] as nat
    else if p.cmd == CMD_BITMAP_ROW && |p.data| >= 6 then p.data[5] as nat
    else 0
  }

  /** How far a stream advances the label: the repeat counts of all its row packets. */
  ghost function RowsFed(packets: seq<Packet>): nat {
    if packets == [] then 0 else RowsOf(packets[0]) + RowsFed(packets[1..])
  }

  lemma {:induction false} MarksFeedNothing(next: nat, last: int, rest: seq<Packet>)
    ensures RowsFed(Marks(next, last) + rest) == RowsFed(rest)
    decreases last - next
  {
    if next <= last {
      MarksFeedNothing(next + 200, last, rest);
      Assoc([CheckPacket(next)], Marks(next + 200, last), rest);
      assert ([CheckPacket(next)] + (Marks(next + 200, last) + rest))[1..] == Marks(next + 200, last) + rest;
    } else {
      assert [] + rest == rest;
    }
  }

  lemma RowPacketFeeds(r: Row, headPixels: nat, mode: CountMode)
    requires r.repeat <= MAX_REPEAT
    ensures RowsOf(RowPacket(r, headPixels, mode)) == r.repeat
  {
  }

  lemma {:induction false} RunsFeedTheirRows(runs: seq<Row>, from: nat, h: nat, next: nat, headPixels: nat,
                                             mode: CountMode, check: bool)
    requires if runs == [] then from == h else runs[0].index == from && runs[|runs| - 1].End() == h
    requires forall i :: 0 < i < |runs| ==> runs[i].index == runs[i - 1].End()
    requires forall i :: 0 <= i < |runs| ==> runs[i].repeat <= MAX_REPEAT
    ensures from + RowsFed(PacketsFrom(runs, next, headPixels, mode, check)) == h
    decreases |runs|
  {
    hide RowPacket, RowsOf, Marks, NextMark, RowsFed;
    if runs != [] {
      var last := runs[0].End() - 1;
      var head, marks := RowPacket(runs[0], headPixels, mode), if check then Marks(next, last) else [];
      var next' := if check then NextMark(next, last) else next;
      var rest := PacketsFrom(runs[1..], next', headPixels, mode, check);
      RunsFeedTheirRows(runs[1..], runs[0].End(), h, next', headPixels, mode, check);
      MarksFeedNothing(next, last, rest);
      RowPacketFeeds(runs[0], headPixels, mode);
      Assoc([head], marks, rest);
      FirstPacketFeeds(head, marks + rest);
      assert [] + rest == rest;
    } else {
      assert RowsFed([]) == 0 by {
        NothingFed();
      }
    }
  }

  lemma FirstPacketFeeds(head: Packet, rest: seq<Packet>)
    ensures RowsFed([head] + rest) == RowsOf(head) + RowsFed(rest)
  {
    assert ([head] + rest)[1..] == rest;
  }

  lemma NothingFed()
    ensures RowsFed([]) == 0
  {
  }

  /** Blank rows included, the stream advances the label by exactly its number of rows. */
  lemma LabelFeedsAllRows(j: Job, headPixels: nat, mode: CountMode, check: bool)
    requires j.Valid()
    ensures RowsFed(LabelPackets(j, headPixels, mode, check)) == j.h
  {
    hide PacketsFrom, RowsFed;
    var lines := LinesUpTo(j, j.h);
    MergeTiles(lines);
    assert forall i :: 0 <= i < |Merge(lines)| ==> Fits(Merge(lines)[i], lines);
    RunsFeedTheirRows(Merge(lines), 0, j.h, 199, headPixels, mode, check);
  }

  // ---- Through the methods ----

  lemma FragmentsJoinWire(packets: seq<Packet>, i: nat, written: seq<seq<byte>>, max: nat)
    requires AllFit(packets) && i < |packets| && max > 0
    requires AllFit(packets[..i]) && Flatten(written) == Wire(packets[..i])
    ensures var all := Fragments(Frame(packets[i]), max);
            all[..|all|] == all && Flatten(written + all) == Wire(packets[..i + 1])
  {
    hide Frame, Fragments, Wire, Flatten;
    var all := Fragments(Frame(packets[i]), max);
    FragmentsRejoin(Frame(packets[i]), max);
    FlattenAppend(written, all);
    WireAppend(packets[..i], packets[i]);
    assert packets[..i] + [packets[i]] == packets[..i + 1];
  }

  /** Writes packets over a link that accepts every fragment. */
  method SendAll(packets: seq<Packet>, link: BLETransport) returns (written: seq<seq<byte>>)
    requires AllFit(packets) && link.written == []
    modifies link
    ensures Flatten(written) == Wire(packets)
  {
    hide Frame, Fragments, Accepted, IsFrame;
    assert packets[..0] == [];
    for i := 0 to |packets|
      invariant Flatten(link.written) == Wire(packets[..i])
    {
      var raw := Marshal(packets[i]);
      ghost var before := link.written;
      var r := link.Write(raw.value, _ => true, false);
      FragmentsJoinWire(packets, i, before, link.Max());
    }
    assert packets[..|packets|] == packets;
    return link.written;
  }

  /** One label through the actual methods, from darkness values to the packets the printer sees. */
  method Loopback(w: nat, h: nat, darkness: seq<real>, opts: EncodeOptions, headPixels: nat, mode: CountMode,
                  check: bool, mtu: int)
    returns (received: seq<Packet>, residue: seq<byte>)
    requires |darkness| == At(w, 0, h) && 1 <= h <= 0xFFFF
    requires Columns(w) / 8 + 6 <= MAX_DATA
    ensures residue == []
    ensures RowsFed(received) == h
    ensures Binarises((x: nat, y: nat) => PacketsShow(received, x, y), w, h, darkness, opts)
    ensures var j := JobOf(w, h, darkness, opts);
            forall x: nat, y: nat :: x < Columns(w) && y < h ==>
              (PacketsShow(received, x, y) <==> x < w && On(j, x, y))
  {
    hide PacketsShow, On, Merge, LinesUpTo, PacketsFrom, RowsFed, Binarises;
    ghost var j := JobOf(w, h, darkness, opts);
    var enc := Encode(w, h, darkness, opts);
    var packets := RowPackets(enc, headPixels, mode, check);
    LabelArrives(j, headPixels, mode, check, []);
    var link := new BLETransport(mtu);
    var chunks := SendAll(packets, link);
    var taken, waiting: seq<Packet>;
    var prompt := Takes(_ => CHANNEL_CAPACITY, _ => 0);
    taken, waiting, residue := ReadLoop(chunks, prompt);
    PromptClientLosesNothing(packets, prompt);
    ChannelKeepsLatest(packets, prompt);
    received := taken + waiting;
    LabelArrives(j, headPixels, mode, check, chunks);
    LabelFeedsAllRows(j, headPixels, mode, check);
    JobBinarises(w, h, darkness, opts);
    BinarisesAlike(Blacks(j), (x: nat, y: nat) => PacketsShow(received, x, y), w, h, darkness, opts);
  }
}
