/** What the traces of a print say about the commands written and the replies seen. */
module ClientProperties {
  import opened Bytes
  import opened Commands
  import opened Framing
  import opened Raster
  import opened RowEncoding
  import opened NiimbotClient

  /** The packets whose writes were attempted, in order. */
  ghost function Writes(t: seq<Entry>): seq<Packet> {
    if t == [] then []
    else (if t[0].Sent? then [t[0].p] else []) + Writes(t[1..])
  }

  ghost function Packets(slots: seq<Slot>): seq<Packet> {
    seq(|slots|, i requires 0 <= i < |slots| => slots[i].p)
  }

  ghost function Repeat(p: Packet, n: nat): seq<Packet> {
    seq(n, _ => p)
  }

  lemma {:induction false} WritesAppend(a: seq<Entry>, b: seq<Entry>)
    ensures Writes(a + b) == Writes(a) + Writes(b)
  {
    if a == [] {
      assert a + b == b;
    } else {
      assert (a + b)[0] == a[0] && (a + b)[1..] == a[1..] + b;
      WritesAppend(a[1..], b);
      Assoc(if a[0].Sent? then [a[0].p] else [], Writes(a[1..]), Writes(b));
    }
  }

  lemma WritesSplit(t: seq<Entry>, i: nat)
    requires i <= |t|
    ensures Writes(t) == Writes(t[..i]) + Writes(t[i..])
  {
    SplitAt(t, i);
    WritesAppend(t[..i], t[i..]);
  }

  lemma SlotWrites(t: seq<Entry>, s: Slot)
    ensures SlotDone(t, s) ==> Writes(t) == [s.p]
    ensures SlotFailed(t, s) ==> Writes(t) == [] || Writes(t) == [s.p]
  {
    assert |t| == 1 ==> t[1..] == [];
    if SlotDone(t, s) && s.Ask? {
      assert t[1..] == [t[1]] && t[1..][1..] == [];
      assert Writes(t[1..]) == [];
    }
  }

  lemma {:induction false} ConformingWrites(t: seq<Entry>, slots: seq<Slot>)
    requires Conforms(t, slots)
    ensures Writes(t) == Packets(slots)
    decreases |slots|
  {
    hide SlotDone;
    if slots != [] {
      var w := Width(slots[0]);
      ConformingWrites(t[w..], slots[1..]);
      SlotWrites(t[..w], slots[0]);
      WritesSplit(t, w);
      assert Packets(slots) == [slots[0].p] + Packets(slots[1..]);
    }
  }

  lemma {:induction false} StalledWrites(t: seq<Entry>, slots: seq<Slot>)
    requires Stalled(t, slots)
    ensures Writes(t) <= Packets(slots)
    decreases |slots|
  {
    hide SlotDone, SlotFailed;
    assert Packets(slots) == [slots[0].p] + Packets(slots[1..]);
    SlotWrites(t, slots[0]);
    if !SlotFailed(t, slots[0]) {
      var w := Width(slots[0]);
      StalledWrites(t[w..], slots[1..]);
      SlotWrites(t[..w], slots[0]);
      WritesSplit(t, w);
    }
  }

  lemma {:induction false} DonePollWrites(t: seq<Entry>, poll: Poll) returns (n: nat)
    requires PolledDone(t, poll)
    ensures n >= 1 && Writes(t) == Repeat(poll.Slot().p, n)
    decreases |t|
  {
    hide SlotDone;
    SlotWrites(t[..2], poll.Slot());
    if |t| == 2 {
      assert t[..2] == t;
      n := 1;
    } else {
      var m := DonePollWrites(t[2..], poll);
      WritesSplit(t, 2);
      n := m + 1;
    }
  }

  lemma {:induction false} FailedPollWrites(t: seq<Entry>, poll: Poll) returns (n: nat)
    requires PolledFailed(t, poll)
    ensures Writes(t) == Repeat(poll.Slot().p, n)
    decreases |t|
  {
    hide SlotDone, SlotFailed;
    SlotWrites(t, poll.Slot());
    if SlotFailed(t, poll.Slot()) {
      n := |Writes(t)|;
    } else if |t| == 2 && SlotDone(t, poll.Slot()) {
      n := 1;
    } else {
      var m := FailedPollWrites(t[2..], poll);
      SlotWrites(t[..2], poll.Slot());
      WritesSplit(t, 2);
      n := m + 1;
    }
  }

  /** The grammar of a task: its script, some polls, and for status-polled tasks the final PrintEnd. */
  ghost function Grammar(main: seq<Slot>, poll: Poll, polls: nat): seq<Packet> {
    Packets(main) + Repeat(poll.Slot().p, polls) + if poll.StatusPoll? then [END_PACKET] else []
  }

  /** A print that reports success wrote exactly its task's grammar, and polled at least once. */
  lemma SuccessWritesGrammar(t: seq<Entry>, main: seq<Slot>, poll: Poll)
    requires Succeeded(t, main, poll)
    ensures exists n: nat :: n >= 1 && Writes(t) == Grammar(main, poll, n)
  {
    hide Conforms, PolledDone;
    var i: nat, k: nat :| i <= k <= |t| && Conforms(t[..i], main) && PolledDone(t[i..k], poll)
      && (if poll.EndPoll? then k == |t| else SlotDone(t[k..], END_SLOT));
    ConformingWrites(t[..i], main);
    var n := DonePollWrites(t[i..k], poll);
    WritesSplit(t, k);
    WritesSplit(t[..k], i);
    assert t[..k][..i] == t[..i] && t[..k][i..] == t[i..k];
    SlotWrites(t[k..], END_SLOT);
    assert n >= 1 && Writes(t) == Grammar(main, poll, n);
  }

  /** A print that breaks off wrote a prefix of its task's grammar before the reset. */
  lemma BreakOffWritesPrefix(t: seq<Entry>, main: seq<Slot>, poll: Poll)
    requires BrokeOff(t, main, poll)
    ensures exists n: nat :: Writes(t) <= Grammar(main, poll, n)
  {
    hide Conforms, Stalled, PolledDone, PolledFailed, SlotFailed;
    if Stalled(t, main) {
      StalledWrites(t, main);
      assert Writes(t) <= Grammar(main, poll, 0);
    } else if i: nat :| i <= |t| && Conforms(t[..i], main) && PolledFailed(t[i..], poll) {
      ConformingWrites(t[..i], main);
      var n := FailedPollWrites(t[i..], poll);
      WritesSplit(t, i);
      assert Writes(t) <= Grammar(main, poll, n);
    } else {
      var i: nat, k: nat :| i <= k <= |t| && Conforms(t[..i], main) && PolledDone(t[i..k], poll)
        && poll.StatusPoll? && SlotFailed(t[k..], END_SLOT);
      ConformingWrites(t[..i], main);
      var n := DonePollWrites(t[i..k], poll);
      WritesSplit(t, k);
      WritesSplit(t[..k], i);
      assert t[..k][..i] == t[..i] && t[..k][i..] == t[i..k];
      SlotWrites(t[k..], END_SLOT);
      assert Writes(t) <= Grammar(main, poll, n);
    }
  }

  /** The reply a request waits for, by its command. */
  ghost function ReplyTo(cmd: byte): byte {
    if cmd == 0x01 then 0x02 else if cmd == 0x03 then 0x04 else if cmd == 0x13 then 0x14 else if cmd == 0x15 then 0x16
    else if cmd == 0x20 then 0x30 else if cmd == 0x21 then 0x31 else if cmd == 0x23 then 0x33
    else if cmd == 0xA3 then 0xB3 else if cmd == 0xDA then 0xD0 else if cmd == 0xE3 then 0xE4
    else 0xF4
  }

  ghost predicate AwaitsItsReply(s: Slot) {
    && s.p.cmd != 0xA3
    && (s.Ask? ==> s.accept == [ReplyTo(s.p.cmd)])
    && (s.Tell? <==> s.p.cmd == 0x84 || s.p.cmd == 0x85 || s.p.cmd == 0x86)
  }

  ghost predicate AllAwait(slots: seq<Slot>) {
    forall i :: 0 <= i < |slots| ==> AwaitsItsReply(slots[i])
  }

  lemma AllAwaitJoins(a: seq<Slot>, b: seq<Slot>)
    requires AllAwait(a) && AllAwait(b)
    ensures AllAwait(a + b)
  {
    hide AwaitsItsReply;
  }

  ghost predicate RowCommands(packets: seq<Packet>) {
    forall i :: 0 <= i < |packets| ==> packets[i].cmd == 0x84 || packets[i].cmd == 0x85 || packets[i].cmd == 0x86
  }

  lemma {:induction false} MarksAreRowCommands(next: nat, last: int)
    ensures RowCommands(Marks(next, last))
    decreases last - next
  {
    if next <= last {
      MarksAreRowCommands(next + 200, last);
    }
  }

  lemma {:induction false} RowsAreRowCommands(runs: seq<Row>, next: nat, headPixels: nat, mode: CountMode, check: bool)
    ensures RowCommands(PacketsFrom(runs, next, headPixels, mode, check))
    decreases |runs|
  {
    hide Marks, NextMark;
    if runs != [] {
      var last := runs[0].End() - 1;
      MarksAreRowCommands(next, last);
      RowsAreRowCommands(runs[1..], if check then NextMark(next, last) else next, headPixels, mode, check);
    }
  }

  lemma RowSlotsAwait(rows: seq<Packet>)
    requires RowCommands(rows)
    ensures AllAwait(RowSlots(rows))
  {
  }

  lemma {:induction false} PagesAwait(enc: EncodedImage, rows: seq<Packet>, copies: nat)
    requires RowCommands(rows)
    ensures AllAwait(Pages(enc, rows, copies))
  {
    if copies > 0 {
      hide RowSlots, RowCommands;
      var head := [PageStartSlot(), PageSizeSlot(U16(enc.rows) + U16(enc.cols))];
      PagesAwait(enc, rows, copies - 1);
      RowSlotsAwait(rows);
      assert AllAwait(head);
      AllAwaitJoins(head, RowSlots(rows));
      AllAwaitJoins(Pages(enc, rows, copies - 1), PageSlots(enc, rows));
    }
  }

  /** Every request of a task waits for the reply of its own command; row packets and check lines wait for none. */
  lemma RequestsAwaitTheirReplies(task: Task, enc: EncodedImage, density: byte, labelType: byte, copies: nat,
                                  headPixels: nat)
    ensures AllAwait(MainSlots(task, enc, density, labelType, copies, headPixels))
    ensures forall poll: Poll :: poll.Slot().Ask? && poll.Slot().accept == [ReplyTo(poll.Slot().p.cmd)]
    ensures StatusPoll(copies).Slot().p == Packet(0xA3, [1]) && EndPoll.Slot().p == Packet(0xF3, [1])
    ensures END_SLOT == Ask(Packet(0xF3, [1]), [0xF4])
  {
    hide PacketsFrom, Pages, RowSlots;
    var all := MainSlots(task, enc, density, labelType, copies, headPixels);
    RowsAreRowCommands(enc.runs, 199, headPixels, CountSplit, false);
    RowsAreRowCommands(enc.runs, 199, headPixels, CountTotal, true);
    match task {
      case TaskB1 =>
        RowSlotsAwait(PacketsFrom(enc.runs, 199, headPixels, CountSplit, false));
        assert AllAwait(all[..5]);
        assert all == all[..5] + all[5..];
      case TaskD110 =>
        RowSlotsAwait(PacketsFrom(enc.runs, 199, headPixels, CountSplit, false));
        assert AllAwait(all[..7]);
        assert all == all[..7] + all[7..];
      case TaskB21V1 =>
        PagesAwait(enc, PacketsFrom(enc.runs, 199, headPixels, CountTotal, true), copies);
        assert AllAwait(all[..3]);
        assert all == all[..3] + all[3..];
    }
  }

  /** The reset attempts PrintEnd and then CancelPrint, each once. */
  lemma ResetWrites(t: seq<Entry>)
    requires ResetTail(t)
    ensures Writes(t) == [Packet(0xF3, [1]), Packet(0xDA, [1])]
  {
    var i: nat :| i <= |t| && 1 <= |t[..i]| && 1 <= |t[i..]|
      && Attempted(t[..i], END_SLOT) && Attempted(t[i..], Ask(CANCEL_PACKET, [RESP_CANCEL_PRINT]));
    WritesSplit(t, i);
    AttemptWrites(t[..i], END_SLOT);
    AttemptWrites(t[i..], Ask(CANCEL_PACKET, [RESP_CANCEL_PRINT]));
  }

  lemma AttemptWrites(t: seq<Entry>, s: Slot)
    requires Attempted(t, s) && |t| >= 1
    ensures Writes(t) == [s.p]
  {
    SlotWrites(t, s);
  }

  /** Success means the printer said so: the last poll reports every copy done without error, or confirms the end. */
  lemma {:induction false} LastPollSaysDone(t: seq<Entry>, poll: Poll)
    requires PolledDone(t, poll)
    ensures t[|t| - 1].Got? && poll.Done(t[|t| - 1].p)
    ensures forall i :: 0 <= i < |t| - 1 && t[i].Got? ==> poll.Pending(t[i].p)
    decreases |t|
  {
    if |t| > 2 {
      LastPollSaysDone(t[2..], poll);
      assert t[..2][0] == t[0];
      forall i | 0 <= i < |t| - 1 && t[i].Got?
        ensures poll.Pending(t[i].p)
      {
        if i >= 2 {
          assert t[i] == t[2..][i - 2];
        }
      }
    } else {
      assert t[..2][0] == t[0];
    }
  }

  // ---- What the printer has reported when a print succeeds ----

  lemma {:induction false} NoStatusInMain(t: seq<Entry>, slots: seq<Slot>)
    requires Conforms(t, slots) && AllAwait(slots)
    ensures forall i :: 0 <= i < |t| && t[i].Sent? ==> t[i].p.cmd != 0xA3
    decreases |slots|
  {
    if slots != [] {
      var w := Width(slots[0]);
      assert AwaitsItsReply(slots[0]);
      assert forall i :: 0 <= i < |slots[1..]| ==> slots[1..][i] == slots[i + 1];
      NoStatusInMain(t[w..], slots[1..]);
      assert t[..w][0] == t[0];
      assert forall i :: w <= i < |t| ==> t[i] == t[w..][i - w];
    }
  }

  /** A status request and a report without error right after it. */
  ghost predicate Asked(t: seq<Entry>, i: nat) {
    i + 1 < |t| && t[i] == Sent(Packet(0xA3, [1]), Written) && t[i + 1].Got? && Healthy(t[i + 1].p.data)
  }

  lemma {:induction false} PollsAreHealthy(t: seq<Entry>, copies: nat)
    requires PolledDone(t, StatusPoll(copies))
    ensures forall i :: 0 <= i < |t| && t[i].Sent? ==> Asked(t, i)
    ensures |t| >= 2 && t[|t| - 2].Sent? && t[|t| - 1].Got? && Healthy(t[|t| - 1].p.data)
            && PagesDone(t[|t| - 1].p.data) >= copies
    decreases |t|
  {
    assert t[..2][0] == t[0] && t[..2][1] == t[1];
    if |t| > 2 {
      PollsAreHealthy(t[2..], copies);
      forall i | 2 <= i < |t| && t[i].Sent?
        ensures Asked(t, i)
      {
        assert Asked(t[2..], i - 2);
      }
    }
  }

  /**
   * A status-polled print that succeeded saw, after every status request, a report of at least four bytes that
   * carried no error, and after the last one a report of enough pages.
   */
  lemma SuccessWasReported(t: seq<Entry>, main: seq<Slot>, copies: nat)
    requires Succeeded(t, main, StatusPoll(copies)) && AllAwait(main)
    ensures forall i :: 0 <= i < |t| && t[i].Sent? && t[i].p.cmd == 0xA3 ==> Asked(t, i)
    ensures exists i :: 0 <= i < |t| && Asked(t, i) && PagesDone(t[i + 1].p.data) >= copies
                        && forall k :: i < k < |t| && t[k].Sent? ==> t[k].p.cmd != 0xA3
  {
    hide Conforms, PolledDone, AllAwait;
    var i: nat, k: nat :| i <= k <= |t| && Conforms(t[..i], main) && PolledDone(t[i..k], StatusPoll(copies))
      && SlotDone(t[k..], END_SLOT);
    NoStatusInMain(t[..i], main);
    PollsAreHealthy(t[i..k], copies);
    forall n | 0 <= n < i && t[n].Sent?
      ensures t[n].p.cmd != 0xA3
    {
      assert t[..i][n] == t[n];
    }
    forall n | k <= n < |t| && t[n].Sent?
      ensures t[n].p.cmd != 0xA3
    {
      assert t[k..][n - k] == t[n];
    }
    forall n | i <= n < k && t[n].Sent?
      ensures Asked(t, n)
    {
      assert t[i..k][n - i] == t[n];
      assert Asked(t[i..k], n - i);
    }
    var last := k - 2;
    assert t[i..k][|t[i..k]| - 2] == t[last] && t[i..k][|t[i..k]| - 1] == t[last + 1];
    assert Asked(t[i..k], last - i);
  }

  /** A print polled by PrintEnd that succeeded ended with that request and a reply whose first byte is not zero. */
  lemma SuccessWasConfirmed(t: seq<Entry>, main: seq<Slot>)
    requires Succeeded(t, main, EndPoll)
    ensures |t| >= 2 && t[|t| - 2] == Sent(Packet(0xF3, [1]), Written)
    ensures t[|t| - 1].Got? && t[|t| - 1].p.cmd == 0xF4 && t[|t| - 1].p.data != [] && t[|t| - 1].p.data[0] != 0
  {
    hide Conforms, PolledDone;
    var i: nat :| i <= |t| && Conforms(t[..i], main) && PolledDone(t[i..|t|], EndPoll);
    LastEndIsConfirmed(t[i..|t|]);
  }

  lemma {:induction false} LastEndIsConfirmed(t: seq<Entry>)
    requires PolledDone(t, EndPoll)
    ensures |t| >= 2 && t[|t| - 2] == Sent(Packet(0xF3, [1]), Written)
    ensures t[|t| - 1].Got? && t[|t| - 1].p.cmd == 0xF4 && t[|t| - 1].p.data != [] && t[|t| - 1].p.data[0] != 0
    decreases |t|
  {
    assert t[..2][0] == t[0] && t[..2][1] == t[1];
    if |t| > 2 {
      LastEndIsConfirmed(t[2..]);
    }
  }

  lemma PacketsAppend(a: seq<Slot>, b: seq<Slot>)
    ensures Packets(a + b) == Packets(a) + Packets(b)
  {
  }

  lemma RowSlotPackets(rows: seq<Packet>)
    ensures Packets(RowSlots(rows)) == rows + [Packet(CMD_PAGE_END, [1])]
  {
  }

  /** The pages of the legacy B21 task: one complete page per copy. */
  ghost function PagePackets(enc: EncodedImage, rows: seq<Packet>, copies: nat): seq<Packet> {
    if copies == 0 then []
    else PagePackets(enc, rows, copies - 1)
         + [Packet(0x03, [1]), Packet(0x13, U16(enc.rows) + U16(enc.cols))] + rows + [Packet(0xE3, [1])]
  }

  lemma {:induction false} PagesWrite(enc: EncodedImage, rows: seq<Packet>, copies: nat)
    ensures Packets(Pages(enc, rows, copies)) == PagePackets(enc, rows, copies)
  {
    if copies > 0 {
      PagesWrite(enc, rows, copies - 1);
      PacketsAppend(Pages(enc, rows, copies - 1), PageSlots(enc, rows));
      PacketsAppend([PageStartSlot(), PageSizeSlot(U16(enc.rows) + U16(enc.cols))], RowSlots(rows));
      RowSlotPackets(rows);
    }
  }

  /** Each task's command sequence, byte for byte, with all row packets in order, as the protocol notes list it. */
  lemma TaskCommands(task: Task, enc: EncodedImage, density: byte, labelType: byte, copies: nat, headPixels: nat)
    ensures var written := Packets(MainSlots(task, enc, density, labelType, copies, headPixels));
            var size := U16(enc.rows) + U16(enc.cols);
            var setup := [Packet(0x21, [density]), Packet(0x23, [labelType])];
            var split := PacketsFrom(enc.runs, 199, headPixels, CountSplit, false);
            var total := PacketsFrom(enc.runs, 199, headPixels, CountTotal, true);
            match task
            case TaskB1 =>
              written == setup + [Packet(0x01, U16(copies) + [0, 0, 0, 0, 0]), Packet(0x03, [1]),
                                  Packet(0x13, size + U16(copies))] + split + [Packet(0xE3, [1])]
            case TaskD110 =>
              written == setup + [Packet(0x01, [1]), Packet(0x20, [1]), Packet(0x03, [1]), Packet(0x13, size),
                                  Packet(0x15, U16(copies))] + split + [Packet(0xE3, [1])]
            case TaskB21V1 =>
              written == setup + [Packet(0x01, [1])] + PagePackets(enc, total, copies)
  {
    hide PacketsFrom, Pages, RowSlots, PagePackets;
    var split := PacketsFrom(enc.runs, 199, headPixels, CountSplit, false);
    var total := PacketsFrom(enc.runs, 199, headPixels, CountTotal, true);
    var all := MainSlots(task, enc, density, labelType, copies, headPixels);
    match task {
      case TaskB1 =>
        RowSlotPackets(split);
        PacketsAppend(all[..5], RowSlots(split));
        assert all == all[..5] + RowSlots(split);
      case TaskD110 =>
        RowSlotPackets(split);
        PacketsAppend(all[..7], RowSlots(split));
        assert all == all[..7] + RowSlots(split);
      case TaskB21V1 =>
        PagesWrite(enc, total, copies);
        PacketsAppend(all[..3], Pages(enc, total, copies));
        assert all == all[..3] + Pages(enc, total, copies);
    }
  }

  // ---- When a print can succeed ----

  /** The row packets a task streams. */
  function TaskRows(task: Task, enc: EncodedImage, headPixels: nat): seq<Packet> {
    if task.TaskB21V1? then PacketsFrom(enc.runs, 199, headPixels, CountTotal, true)
    else PacketsFrom(enc.runs, 199, headPixels, CountSplit, false)
  }

  function PollOf(task: Task, copies: nat): Poll {
    if task.TaskB21V1? then EndPoll else StatusPoll(copies)
  }

  predicate AllFramed(slots: seq<Slot>) {
    forall i :: 0 <= i < |slots| ==> |slots[i].p.data| <= MAX_DATA
  }

  lemma {:induction false} ConformingFits(t: seq<Entry>, slots: seq<Slot>)
    requires Conforms(t, slots)
    ensures AllFramed(slots)
    decreases |slots|
  {
    if slots != [] {
      ConformingFits(t[Width(slots[0])..], slots[1..]);
      assert forall i :: 0 < i < |slots| ==> slots[i] == slots[1..][i - 1];
    }
  }

  lemma AnswerableJoin(a: seq<Slot>, b: seq<Slot>)
    ensures AllAnswerable(a + b) <==> AllAnswerable(a) && AllAnswerable(b)
    ensures AllFramed(a + b) ==> AllFramed(a) && AllFramed(b)
  {
    hide Answerable;
    if AllAnswerable(a + b) {
      AnswerableAppend(a, b);
    }
    assert forall i :: 0 <= i < |a| ==> a[i] == (a + b)[i];
    assert forall i :: 0 <= i < |b| ==> b[i] == (a + b)[|a| + i];
  }

  lemma RowsAnswerable(rows: seq<Packet>)
    ensures AllAnswerable(RowSlots(rows)) <==> AllFit(rows)
    ensures AllFramed(RowSlots(rows)) ==> AllFit(rows)
  {
    AnswerableJoin(Tells(rows), [Ask(Packet(CMD_PAGE_END, [1]), [RESP_PAGE_END])]);
    assert forall i :: 0 <= i < |rows| ==> Tells(rows)[i] == Tell(rows[i]);
  }

  lemma {:induction false} PagesAnswerable(enc: EncodedImage, rows: seq<Packet>, copies: nat)
    ensures AllAnswerable(Pages(enc, rows, copies)) <==> copies == 0 || AllFit(rows)
    ensures AllFramed(Pages(enc, rows, copies)) ==> copies == 0 || AllFit(rows)
  {
    hide RowSlots, AllFit, AllFramed;
    if copies > 0 {
      PagesAnswerable(enc, rows, copies - 1);
      RowsAnswerable(rows);
      AnswerableJoin([PageStartSlot(), PageSizeSlot(U16(enc.rows) + U16(enc.cols))], RowSlots(rows));
      AnswerableJoin(Pages(enc, rows, copies - 1), PageSlots(enc, rows));
    }
  }

  /** The only packets of a task that may be too long to frame are its row packets. */
  lemma MainAnswerable(task: Task, enc: EncodedImage, density: byte, labelType: byte, copies: nat, headPixels: nat)
    requires copies >= 1
    ensures AllAnswerable(MainSlots(task, enc, density, labelType, copies, headPixels))
      <==> AllFit(TaskRows(task, enc, headPixels))
    ensures AllFramed(MainSlots(task, enc, density, labelType, copies, headPixels))
      ==> AllFit(TaskRows(task, enc, headPixels))
  {
    hide PacketsFrom, Pages, RowSlots, AllFit, AllFramed;
    var rows := TaskRows(task, enc, headPixels);
    var all := MainSlots(task, enc, density, labelType, copies, headPixels);
    RowsAnswerable(rows);
    match task {
      case TaskB1 =>
        AnswerableJoin(all[..5], RowSlots(rows));
        assert all == all[..5] + RowSlots(rows);
      case TaskD110 =>
        AnswerableJoin(all[..7], RowSlots(rows));
        assert all == all[..7] + RowSlots(rows);
      case TaskB21V1 =>
        PagesAnswerable(enc, rows, copies);
        AnswerableJoin(all[..3], Pages(enc, rows, copies));
        assert all == all[..3] + Pages(enc, rows, copies);
    }
  }

  /** The trace of a script every step of which goes well. */
  ghost function IdealTrace(slots: seq<Slot>): seq<Entry>
    requires AllAnswerable(slots)
  {
    if slots == [] then []
    else
      assert Answerable(slots[0]);
      AnswerableTail(slots);
      [Sent(slots[0].p, Written)] + (if slots[0].Ask? then [Got(Packet(slots[0].accept[0], [1]))] else [])
      + IdealTrace(slots[1..])
  }

  lemma AnswerableTail(slots: seq<Slot>)
    requires AllAnswerable(slots) && slots != []
    ensures AllAnswerable(slots[1..])
  {
    assert forall i :: 0 <= i < |slots[1..]| ==> slots[1..][i] == slots[i + 1];
  }

  lemma {:induction false} IdealConforms(slots: seq<Slot>)
    requires AllAnswerable(slots)
    ensures Conforms(IdealTrace(slots), slots)
  {
    if slots != [] {
      AnswerableTail(slots);
      IdealConforms(slots[1..]);
      assert Answerable(slots[0]);
      var t, w := IdealTrace(slots), Width(slots[0]);
      assert t[w..] == IdealTrace(slots[1..]);
    }
  }

  /** A poll answered at once. */
  lemma IdealPoll(poll: Poll) returns (t: seq<Entry>)
    requires poll.StatusPoll? ==> poll.copies <= 0xFFFF
    ensures PolledDone(t, poll)
  {
    var data: seq<byte> := if poll.StatusPoll? then U16(poll.copies) + [100, 100] else [1];
    var cmd := if poll.StatusPoll? then RESP_PRINT_STATUS else RESP_PRINT_END;
    t := [Sent(poll.Slot().p, Written), Got(Packet(cmd, data))];
    assert t[..2] == t;
  }

  lemma IdealRun(main: seq<Slot>, poll: Poll) returns (t: seq<Entry>)
    requires AllAnswerable(main)
    requires poll.StatusPoll? ==> poll.copies <= 0xFFFF
    ensures Succeeded(t, main, poll)
  {
    hide Conforms, PolledDone, PolledFailed;
    IdealConforms(main);
    var polled := IdealPoll(poll);
    if poll.StatusPoll? {
      var last := [Sent(END_PACKET, Written), Got(Packet(RESP_PRINT_END, [1]))];
      EndedByEnd(IdealTrace(main), polled, last, main, poll, None);
      t := IdealTrace(main) + polled + last;
    } else {
      EndedByPoll(IdealTrace(main), polled, main, poll, None);
      t := IdealTrace(main) + polled;
    }
  }

  /** A status report counts pages in 16 bits, and a script that was carried out was framed. */
  lemma SuccessBounds(t: seq<Entry>, main: seq<Slot>, poll: Poll)
    requires Succeeded(t, main, poll)
    ensures AllFramed(main) && (poll.StatusPoll? ==> poll.copies <= 0xFFFF)
  {
    hide Conforms, PolledDone, AllFramed;
    var i: nat, k: nat :| i <= k <= |t| && Conforms(t[..i], main) && PolledDone(t[i..k], poll)
      && (if poll.EndPoll? then k == |t| else SlotDone(t[k..], END_SLOT));
    ConformingFits(t[..i], main);
    LastPollSaysDone(t[i..k], poll);
  }

  /**
   * Some printer lets a task succeed exactly when its row packets can be framed and, where completion is
   * polled by status, the copies can be counted in the 16 bits of a status report.
   */
  lemma SuccessPossibleExactly(task: Task, enc: EncodedImage, density: byte, labelType: byte, copies: nat,
                               headPixels: nat)
    requires copies >= 1
    ensures (exists t :: Succeeded(t, MainSlots(task, enc, density, labelType, copies, headPixels),
                                   PollOf(task, copies)))
      <==> AllFit(TaskRows(task, enc, headPixels)) && (task.TaskB21V1? || copies <= 0xFFFF)
  {
    hide Succeeded, MainSlots, AllFit, AllFramed, AllAnswerable, TaskRows;
    var main := MainSlots(task, enc, density, labelType, copies, headPixels);
    MainAnswerable(task, enc, density, labelType, copies, headPixels);
    if t :| Succeeded(t, main, PollOf(task, copies)) {
      SuccessBounds(t, main, PollOf(task, copies));
    }
    if AllFit(TaskRows(task, enc, headPixels)) && (task.TaskB21V1? || copies <= 0xFFFF) {
      var t := IdealRun(main, PollOf(task, copies));
    }
  }

  /**
   * The same through the client itself: over a calm link, to a printer that confirms every request, Print
   * succeeds exactly when the image is accepted, its rows can be framed, and the copies can be counted.
   */
  method PrintOverCalmLink(m: Model, enc: EncodedImage, opts: PrintOptions) returns (r: Option<ClientError>)
    ensures r.None? <==>
      && Rejects(m, enc).None?
      && AllFit(TaskRows(m.task, enc, m.headPixels))
      && (m.task.TaskB21V1? || opts.copies <= 0xFFFF)
  {
    hide Succeeded, MainSlots, AllFit, AllFramed, AllAnswerable, TaskRows, BrokeOff, ResetTail, Confirmations,
        Completion;
    var o := Effective(m, opts);
    var main := MainSlots(m.task, enc, DensityByte(o.density), o.labelType, o.copies, m.headPixels);
    var inbox := Confirmations(main) + Completion(PollOf(m.task, o.copies));
    var env := Env(_ => Written, _ => 0, _ => false);
    var c := new Client(m, env, inbox);
    ghost var before := c.trace;
    r := c.Print(enc, opts);
    if Rejects(m, enc).None? {
      MainAnswerable(m.task, enc, DensityByte(o.density), o.labelType, o.copies, m.headPixels);
      if r.None? {
        SuccessBounds(c.trace[|before|..], main, PollOf(m.task, o.copies));
      }
    }
  }
}
