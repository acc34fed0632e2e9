/** The resynchronising stream parser: internal/niimbot/packet.go, the Parser half. */
module StreamParser {
  import opened Bytes
  import opened Framing

  ghost predicate HeadAt(s: seq<byte>, i: int) {
    0 <= i && i + 1 < |s| && s[i] == HEAD && s[i + 1] == HEAD
  }

  ghost predicate NoHead(s: seq<byte>) {
    forall i :: !HeadAt(s, i)
  }

  /** No head, and no last byte that could become half of one. */
  ghost predicate Clean(s: seq<byte>) {
    NoHead(s) && (s == [] || s[|s| - 1] != HEAD)
  }

  function FirstHead(s: seq<byte>, from: nat := 0): (i: int)
    ensures i < 0 ==> forall j :: from <= j ==> !HeadAt(s, j)
    ensures i >= 0 ==> from <= i && HeadAt(s, i) && forall j :: from <= j < i ==> !HeadAt(s, j)
    decreases |s| - from
  {
    if from + 1 >= |s| then -1
    else if s[from] == HEAD && s[from + 1] == HEAD then from
    else FirstHead(s, from + 1)
  }

  /** One parser step: the packet produced, if any, and the number of bytes consumed. */
  datatype Step = Step(packet: Option<Packet>, consumed: nat) {
    predicate Waits() { packet.None? && consumed == 0 }
  }

  function NextStep(buf: seq<byte>): (r: Step)
    ensures r.consumed <= |buf|
    ensures r.packet.Some? ==> r.consumed > 0
  {
    var start := FirstHead(buf);
    if start < 0 then
      if |buf| > 0 && buf[|buf| - 1] == HEAD then Step(None, |buf| - 1) else Step(None, |buf|)
    else if start > 0 then Step(None, start)
    else if |buf| < 4 then Step(None, 0)
    else
      var n := buf[3] as nat;
      var total := n + OVERHEAD;
      if |buf| < total then Step(None, 0)
      else
        var p := Packet(buf[2], buf[4..4 + n]);
        if buf[total - 2] != TAIL || buf[total - 1] != TAIL || buf[total - 3] != Checksum(p.cmd, p.data)
        then Step(None, 2)
        else Step(Some(p), total)
  }

  lemma EmittedFrameWasRead(buf: seq<byte>)
    requires NextStep(buf).packet.Some?
    ensures IsFrame(buf[..NextStep(buf).consumed], NextStep(buf).packet.value)
  {
    var r := NextStep(buf);
    assert buf[..r.consumed][4..4 + |r.packet.value.data|] == r.packet.value.data;
  }

  /**
   * A complete frame by its shape is emitted exactly when the exclusive or of its command, length, data and
   * checksum bytes is zero, and then as the packet of its command and data bytes.
   */
  lemma EmittedExactlyWhenEven(s: seq<byte>)
    requires Shaped(s)
    ensures NextStep(s) == if Even(Body(s)) then Step(Some(Packet(s[2], s[4..|s| - 3])), |s|) else Step(None, 2)
  {
    hide Checksum, Even;
    ChecksumIsParity(s);
    assert HeadAt(s, 0) && FirstHead(s) == 0;
  }

  /** What may be left in the buffer: nothing, half a head, or a frame that has not all arrived. */
  ghost predicate Incomplete(buf: seq<byte>) {
    || buf == []
    || buf == [HEAD]
    || (HeadAt(buf, 0) && (|buf| < 4 || |buf| < buf[3] as nat + OVERHEAD))
  }

  datatype Parsed = Parsed(packets: seq<Packet>, residue: seq<byte>)

  /** The whole-stream reading that every chunking has to agree with. */
  function Parse(s: seq<byte>): (r: Parsed)
    decreases |s|
  {
    var step := NextStep(s);
    if step.Waits() then Parsed([], s)
    else
      After(step.packet, Parse(s[step.consumed..]))
  }

  function After(p: Option<Packet>, rest: Parsed): Parsed {
    if p.None? then rest else Parsed([p.value] + rest.packets, rest.residue)
  }

  class Parser {
    var buf: seq<byte>

    constructor ()
      ensures buf == []
    {
      buf := [];
    }

    method Next() returns (p: Option<Packet>, n: nat)
      ensures Step(p, n) == NextStep(buf)
    {
      var start := -1;
      var i := 0;
      while i + 1 < |buf|
        invariant 0 <= i
        invariant start == -1
        invariant FirstHead(buf) == FirstHead(buf, i)
      {
        if buf[i] == HEAD && buf[i + 1] == HEAD {
          start := i;
          break;
        }
        i := i + 1;
      }
      if start < 0 {
        if |buf| > 0 && buf[|buf| - 1] == HEAD {
          return None, |buf| - 1;
        }
        return None, |buf|;
      }
      if start > 0 {
        return None, start;
      }
      if |buf| < 4 {
        return None, 0;
      }
      var cmd, len := buf[2], buf[3] as nat;
      var total := len + OVERHEAD;
      if |buf| < total {
        return None, 0;
      }
      var data := buf[4..4 + len];
      var cs := ComputeChecksum(cmd, data);
      if buf[total - 2] != TAIL || buf[total - 1] != TAIL || buf[total - 3] != cs {
        return None, 2;
      }
      return Some(Packet(cmd, data)), total;
    }

    method Feed(b: seq<byte>) returns (out: seq<Packet>)
      modifies this
      ensures Parsed(out, buf) == Parse(old(buf) + b)
      ensures Incomplete(buf) && |buf| < MAX_DATA + OVERHEAD
    {
      buf := buf + b;
      out := [];
      ghost var whole := Parse(buf);
      while true
        invariant whole == Parsed(out + Parse(buf).packets, Parse(buf).residue)
        decreases |buf|
      {
        var p, n := Next();
        ghost var before, rest := buf, Parse(buf[n..]);
        if n > 0 {
          buf := buf[n..];
        }
        if p.None? {
          if n == 0 {
            IncompleteWaits(buf);
            return;
          }
          continue;
        }
        assert Parse(before) == After(p, rest);
        Assoc(out, [p.value], rest.packets);
        out := out + [p.value];
      }
    }
  }

  // ---- Chunking ----

  lemma FirstHeadAfterDrop(s: seq<byte>, k: nat)
    requires k <= |s|
    requires forall i :: 0 <= i < k ==> !HeadAt(s, i)
    ensures FirstHead(s) < 0 ==> FirstHead(s[k..]) < 0
    ensures FirstHead(s) >= 0 ==> FirstHead(s[k..]) == FirstHead(s) - k
  {
    var t, h := s[k..], FirstHead(s);
    forall i
      ensures HeadAt(t, i) <==> i >= 0 && HeadAt(s, i + k)
    {
      if 0 <= i && i + 1 < |t| {
        assert t[i] == s[i + k] && t[i + 1] == s[i + 1 + k];
      }
    }
    if h >= 0 {
      assert HeadAt(t, h - k);
    }
  }

  /** Bytes before the first possible head can be dropped at any time. */
  lemma DropHeadless(s: seq<byte>, k: nat)
    requires k <= |s|
    requires forall i :: 0 <= i < k ==> !HeadAt(s, i)
    requires k < |s| || s == [] || s[|s| - 1] != HEAD
    ensures Parse(s) == Parse(s[k..])
  {
    FirstHeadAfterDrop(s, k);
    var t, h := s[k..], FirstHead(s);
    if h < 0 {
      assert s[NextStep(s).consumed..] == t[NextStep(t).consumed..];
    } else if h > k {
      assert s[h..] == t[h - k..];
    }
  }

  lemma FirstHeadStays(a: seq<byte>, b: seq<byte>)
    requires FirstHead(a) >= 0
    ensures FirstHead(a + b) == FirstHead(a)
  {
    var h := FirstHead(a);
    assert forall i :: 0 <= i <= h ==> (HeadAt(a + b, i) <==> HeadAt(a, i));
  }

  /** A step that does not wait is not changed by bytes that arrive later, unless no head was in sight. */
  lemma StepIsStable(a: seq<byte>, b: seq<byte>)
    requires !NextStep(a).Waits() && FirstHead(a) >= 0
    ensures NextStep(a + b) == NextStep(a)
  {
    hide Checksum;
    FirstHeadStays(a, b);
    if FirstHead(a) == 0 {
      var n := a[3] as nat;
      assert (a + b)[4..4 + n] == a[4..4 + n];
    }
  }

  lemma HeadlessStepResumes(a: seq<byte>, b: seq<byte>)
    requires FirstHead(a) < 0
    ensures Parse(a + b) == Parse(a[NextStep(a).consumed..] + b)
  {
    var k := NextStep(a).consumed;
    forall i | 0 <= i < k
      ensures !HeadAt(a + b, i)
    {
      assert !HeadAt(a, i);
    }
    DropConcat(a, b, k);
    DropHeadless(a + b, k);
  }

  lemma HeadedStepResumes(a: seq<byte>, b: seq<byte>)
    requires !NextStep(a).Waits() && FirstHead(a) >= 0
    ensures Parse(a + b) == After(NextStep(a).packet, Parse(a[NextStep(a).consumed..] + b))
  {
    StepIsStable(a, b);
    DropConcat(a, b, NextStep(a).consumed);
  }

  /** Parsing may stop after any prefix and resume from what it left. */
  lemma {:induction false} ParseResumes(a: seq<byte>, b: seq<byte>)
    ensures Parse(a + b) == Parsed(Parse(a).packets + Parse(Parse(a).residue + b).packets,
                                   Parse(Parse(a).residue + b).residue)
    decreases |a|
  {
    var step := NextStep(a);
    if !step.Waits() {
      if FirstHead(a) < 0 {
        HeadlessStepResumes(a, b);
      } else {
        HeadedStepResumes(a, b);
      }
      var rest := Parse(a[step.consumed..]);
      ParseResumes(a[step.consumed..], b);
      if step.packet.Some? {
        Assoc([step.packet.value], rest.packets, Parse(rest.residue + b).packets);
      }
    }
  }

  /** Feeding a parser chunk by chunk, as internal/niimbot/client.go's readLoop does. */
  function FeedAll(buf: seq<byte>, chunks: seq<seq<byte>>): (r: Parsed)
    decreases |chunks|
  {
    if chunks == [] then Parsed([], buf)
    else
      var first := Parse(buf + chunks[0]);
      var rest := FeedAll(first.residue, chunks[1..]);
      Parsed(first.packets + rest.packets, rest.residue)
  }

  /** Every way of cutting a stream, garbage included, yields the same packets and the same buffer. */
  lemma {:induction false} ChunkingInvariance(buf: seq<byte>, chunks: seq<seq<byte>>)
    requires Incomplete(buf)
    ensures FeedAll(buf, chunks) == Parse(buf + Flatten(chunks))
    decreases |chunks|
  {
    if chunks == [] {
      assert buf + [] == buf;
      IncompleteWaits(buf);
    } else {
      var first := Parse(buf + chunks[0]);
      ResidueIsIncomplete(buf + chunks[0]);
      ChunkingInvariance(first.residue, chunks[1..]);
      Assoc(buf, chunks[0], Flatten(chunks[1..]));
      ParseResumes(buf + chunks[0], Flatten(chunks[1..]));
    }
  }

  lemma {:induction false} ResidueIsIncomplete(s: seq<byte>)
    ensures Incomplete(Parse(s).residue)
    ensures |Parse(s).residue| < MAX_DATA + OVERHEAD
    decreases |s|
  {
    var step := NextStep(s);
    if step.Waits() {
      IncompleteWaits(s);
    } else {
      ResidueIsIncomplete(s[step.consumed..]);
    }
  }

  /** The buffer shapes of Incomplete are exactly the ones on which the parser waits. */
  lemma IncompleteWaits(buf: seq<byte>)
    ensures Incomplete(buf) <==> NextStep(buf).Waits()
    ensures Incomplete(buf) ==> Parse(buf) == Parsed([], buf)
  {
    if Incomplete(buf) && |buf| > 1 {
      assert FirstHead(buf) == 0;
    }
  }

  // ---- The reader ----

  const CHANNEL_CAPACITY: nat := 64

  /** The channel between reader and client: packets the client took, packets waiting, and how many were dropped. */
  datatype Mailbox = Mailbox(taken: seq<Packet>, waiting: seq<Packet>, dropped: nat)

  /** The client takes up to n packets from the front. */
  function Take(m: Mailbox, n: nat): Mailbox {
    var k := if n < |m.waiting| then n else |m.waiting|;
    m.(taken := m.taken + m.waiting[..k], waiting := m.waiting[k..])
  }

  /**
   * A packet joins the channel. A full channel loses its oldest packet, if there is one left after the client has
   * taken `late` more between the reader's finding the channel full and its making room.
   */
  function Put(m: Mailbox, p: Packet, late: nat): Mailbox {
    if |m.waiting| < CHANNEL_CAPACITY then Append(m, p) else Append(DropOldest(Take(m, late)), p)
  }

  function Append(m: Mailbox, p: Packet): Mailbox {
    m.(waiting := m.waiting + [p])
  }

  function DropOldest(m: Mailbox): Mailbox {
    if m.waiting == [] then m else m.(waiting := m.waiting[1..], dropped := m.dropped + 1)
  }

  /** When the client takes packets: how many before the n-th one arrives, and how many while the reader makes room. */
  datatype Takes = Takes(before: nat -> nat, late: nat -> nat)

  /** Delivers packets to a client that takes them at the given moments. */
  function Deliver(packets: seq<Packet>, takes: Takes): Mailbox {
    if packets == [] then Mailbox([], [], 0)
    else
      var n := |packets| - 1;
      Put(Take(Deliver(packets[..n], takes), takes.before(n)), packets[n], takes.late(n))
  }

  /**
   * The waiting packets are the latest of those delivered, in order, at most 64 of them; every packet was
   * taken, waits or was dropped; and if none was dropped, the client took the others, in order.
   */
  ghost predicate KeepsLatest(m: Mailbox, packets: seq<Packet>) {
    && |m.waiting| <= 64 && |m.waiting| <= |packets|
    && m.waiting == packets[|packets| - |m.waiting|..]
    && |m.taken| + |m.waiting| + m.dropped == |packets|
    && (m.dropped == 0 ==> m.taken + m.waiting == packets)
  }

  lemma TakeKeepsLatest(m: Mailbox, packets: seq<Packet>, n: nat)
    requires KeepsLatest(m, packets)
    ensures KeepsLatest(Take(m, n), packets)
  {
    var k := if n < |m.waiting| then n else |m.waiting|;
    SplitAt(m.waiting, k);
    Assoc(m.taken, m.waiting[..k], m.waiting[k..]);
  }

  lemma AppendKeepsLatest(m: Mailbox, packets: seq<Packet>, p: Packet)
    requires KeepsLatest(m, packets) && |m.waiting| < CHANNEL_CAPACITY
    ensures KeepsLatest(Append(m, p), packets + [p])
  {
    Assoc(m.taken, m.waiting, [p]);
  }

  lemma DropKeepsLatest(m: Mailbox, packets: seq<Packet>)
    requires KeepsLatest(m, packets)
    ensures KeepsLatest(DropOldest(m), packets) && |DropOldest(m).waiting| < CHANNEL_CAPACITY
  {
  }

  lemma PutKeepsLatest(m: Mailbox, packets: seq<Packet>, p: Packet, late: nat)
    requires KeepsLatest(m, packets)
    ensures KeepsLatest(Put(m, p, late), packets + [p])
  {
    hide KeepsLatest, Take, Append, DropOldest;
    if |m.waiting| < CHANNEL_CAPACITY {
      AppendKeepsLatest(m, packets, p);
    } else {
      TakeKeepsLatest(m, packets, late);
      DropKeepsLatest(Take(m, late), packets);
      AppendKeepsLatest(DropOldest(Take(m, late)), packets, p);
    }
  }

  lemma DeliverOne(packets: seq<Packet>, p: Packet, takes: Takes)
    ensures Deliver(packets + [p], takes)
         == Put(Take(Deliver(packets, takes), takes.before(|packets|)), p, takes.late(|packets|))
  {
    assert (packets + [p])[..|packets|] == packets;
  }

  /** However the client keeps up, it and the channel have the packets in order, and the channel has the latest. */
  lemma {:induction false} ChannelKeepsLatest(packets: seq<Packet>, takes: Takes)
    ensures KeepsLatest(Deliver(packets, takes), packets)
  {
    hide KeepsLatest, Put, Take;
    if packets != [] {
      var n := |packets| - 1;
      ChannelKeepsLatest(packets[..n], takes);
      TakeKeepsLatest(Deliver(packets[..n], takes), packets[..n], takes.before(n));
      PutKeepsLatest(Take(Deliver(packets[..n], takes), takes.before(n)), packets[..n], packets[n], takes.late(n));
      assert packets == packets[..n] + [packets[n]];
    } else {
      NothingDelivered();
    }
  }

  lemma NothingDelivered()
    ensures KeepsLatest(Mailbox([], [], 0), [])
  {
  }

  /** The n-th packet finds room: the channel is not full, or the client empties it before the reader makes room. */
  ghost predicate FindsRoom(packets: seq<Packet>, takes: Takes, n: nat)
    requires n < |packets|
  {
    || |Take(Deliver(packets[..n], takes), takes.before(n)).waiting| < 64
    || takes.late(n) >= 64
  }

  lemma PutDropsExactly(m: Mailbox, p: Packet, late: nat)
    requires |m.waiting| <= CHANNEL_CAPACITY
    ensures Put(m, p, late).dropped == m.dropped
      + if |m.waiting| < CHANNEL_CAPACITY || late >= CHANNEL_CAPACITY then 0 else 1
  {
  }

  /** Nothing is lost exactly when every packet finds room. */
  lemma {:induction false} NothingLostExactly(packets: seq<Packet>, takes: Takes)
    ensures Deliver(packets, takes).dropped == 0 <==> forall n :: 0 <= n < |packets| ==> FindsRoom(packets, takes, n)
  {
    if packets != [] {
      hide Put, KeepsLatest, Take, FindsRoom;
      var init, n := packets[..|packets| - 1], |packets| - 1;
      NothingLostExactly(init, takes);
      LastDropsExactly(packets, takes);
      forall k | 0 <= k < n
        ensures FindsRoom(packets, takes, k) <==> FindsRoom(init, takes, k)
      {
        SameRoom(packets, takes, k);
      }
    }
  }

  lemma SameRoom(packets: seq<Packet>, takes: Takes, k: nat)
    requires k < |packets| - 1
    ensures FindsRoom(packets, takes, k) <==> FindsRoom(packets[..|packets| - 1], takes, k)
  {
    assert packets[..k] == packets[..|packets| - 1][..k];
  }

  lemma LastDropsExactly(packets: seq<Packet>, takes: Takes)
    requires packets != []
    ensures Deliver(packets, takes).dropped
         == Deliver(packets[..|packets| - 1], takes).dropped + if FindsRoom(packets, takes, |packets| - 1) then 0 else 1
  {
    hide Put;
    var init, n := packets[..|packets| - 1], |packets| - 1;
    ChannelKeepsLatest(init, takes);
    PutDropsExactly(Take(Deliver(init, takes), takes.before(n)), packets[n], takes.late(n));
  }

  /** A client that takes everything before each packet loses none. */
  lemma PromptClientLosesNothing(packets: seq<Packet>, takes: Takes)
    requires forall n :: takes.before(n) >= CHANNEL_CAPACITY
    ensures Deliver(packets, takes).dropped == 0
  {
    hide Deliver;
    NothingLostExactly(packets, takes);
    forall n | 0 <= n < |packets|
      ensures FindsRoom(packets, takes, n)
    {
      ChannelKeepsLatest(packets[..n], takes);
    }
  }

  /** Reads a transport until it closes, as internal/niimbot/client.go's readLoop does. */
  method ReadLoop(chunks: seq<seq<byte>>, takes: Takes)
    returns (taken: seq<Packet>, waiting: seq<Packet>, residue: seq<byte>)
    ensures residue == FeedAll([], chunks).residue
    ensures var m := Deliver(FeedAll([], chunks).packets, takes); taken == m.taken && waiting == m.waiting
  {
    hide Parse, Take, Put, Deliver;
    var ps := new Parser();
    ghost var out: seq<Packet> := [];
    var box, count := Mailbox([], [], 0), 0;
    assert box == Deliver([], takes) by {
      DeliverNone(takes);
    }
    for i := 0 to |chunks|
      invariant FeedAll([], chunks)
             == Parsed(out + FeedAll(ps.buf, chunks[i..]).packets, FeedAll(ps.buf, chunks[i..]).residue)
      invariant box == Deliver(out, takes) && count == |out|
    {
      assert chunks[i..][0] == chunks[i] && chunks[i..][1..] == chunks[i + 1..];
      var packets := ps.Feed(chunks[i]);
      Assoc(out, packets, FeedAll(ps.buf, chunks[i + 1..]).packets);
      box := DeliverChunk(box, out, packets, takes, count);
      count := count + |packets|;
      out := out + packets;
    }
    assert out + [] == out;
    return box.taken, box.waiting, ps.buf;
  }

  lemma DeliverNone(takes: Takes)
    ensures Deliver([], takes) == Mailbox([], [], 0)
  {
  }

  /** Puts the packets of one chunk on the channel, as the inner loop of readLoop does. */
  method DeliverChunk(before: Mailbox, ghost out: seq<Packet>, packets: seq<Packet>, takes: Takes, count: nat)
    returns (box: Mailbox)
    requires before == Deliver(out, takes) && count == |out|
    ensures box == Deliver(out + packets, takes)
  {
    hide Deliver, Take, Put;
    box := before;
    assert out + packets[..0] == out;
    for k := 0 to |packets|
      invariant box == Deliver(out + packets[..k], takes)
    {
      DeliverOne(out + packets[..k], packets[k], takes);
      assert out + packets[..k] + [packets[k]] == out + packets[..k + 1];
      box := Put(Take(box, takes.before(count + k)), packets[k], takes.late(count + k));
    }
    assert packets[..|packets|] == packets;
  }

  // ---- Soundness ----

  /** A stream as gaps between frames: one more gap than packets. */
  ghost function Weave(gaps: seq<seq<byte>>, packets: seq<Packet>): seq<byte>
    requires |gaps| == |packets| + 1
    requires AllFit(packets)
    decreases |packets|
  {
    if packets == [] then gaps[0]
    else gaps[0] + Frame(packets[0]) + Weave(gaps[1..], packets[1..])
  }

  lemma {:induction false} ParsedPacketsFit(s: seq<byte>)
    ensures AllFit(Parse(s).packets)
    decreases |s|
  {
    var step := NextStep(s);
    if !step.Waits() {
      ParsedPacketsFit(s[step.consumed..]);
    }
  }

  /** Whatever is emitted was on the wire: the stream is gaps, the frames of the packets in order, and the residue. */
  lemma {:induction false} ParserSoundness(s: seq<byte>) returns (gaps: seq<seq<byte>>)
    ensures AllFit(Parse(s).packets)
    ensures |gaps| == |Parse(s).packets| + 1
    ensures s == Weave(gaps, Parse(s).packets) + Parse(s).residue
    decreases |s|
  {
    ParsedPacketsFit(s);
    var step := NextStep(s);
    if step.Waits() {
      gaps := [[]];
    } else {
      var consumed, rest := s[..step.consumed], s[step.consumed..];
      SplitAt(s, step.consumed);
      var tail := ParserSoundness(rest);
      var r := Parse(rest);
      Assoc(consumed, Weave(tail, r.packets), r.residue);
      if step.packet.Some? {
        EmittedFrameWasRead(s);
        gaps := [[]] + tail;
        FrameIsUnique(consumed, Frame(step.packet.value), step.packet.value, step.packet.value);
        WeaveFirstFrame(step.packet.value, tail, r.packets);
      } else {
        gaps := [consumed + tail[0]] + tail[1..];
        WidenFirstGap(consumed, tail, r.packets);
      }
    }
  }

  lemma WeaveFirstFrame(p: Packet, gaps: seq<seq<byte>>, packets: seq<Packet>)
    requires |gaps| == |packets| + 1
    requires |p.data| <= MAX_DATA
    requires AllFit(packets)
    ensures Weave([[]] + gaps, [p] + packets) == Frame(p) + Weave(gaps, packets)
  {
    var g, ps := [[]] + gaps, [p] + packets;
    assert g[1..] == gaps && ps[1..] == packets;
    assert g[0] + Frame(p) == Frame(p);
    assert Weave(g, ps) == g[0] + Frame(ps[0]) + Weave(g[1..], ps[1..]);
  }

  lemma WidenFirstGap(g: seq<byte>, gaps: seq<seq<byte>>, packets: seq<Packet>)
    requires |gaps| == |packets| + 1
    requires AllFit(packets)
    ensures Weave([g + gaps[0]] + gaps[1..], packets) == g + Weave(gaps, packets)
  {
    var wide := [g + gaps[0]] + gaps[1..];
    assert wide[1..] == gaps[1..];
    if packets != [] {
      var frame, rest := Frame(packets[0]), Weave(gaps[1..], packets[1..]);
      Assoc(g, gaps[0], frame);
      Assoc(g, gaps[0] + frame, rest);
    }
  }

  // ---- Round trip and resynchronisation ----

  lemma FrameParses(p: Packet, rest: seq<byte>)
    requires |p.data| <= MAX_DATA
    ensures NextStep(Frame(p) + rest) == Step(Some(p), |p.data| + OVERHEAD)
    ensures Parse(Frame(p) + rest) == Parsed([p] + Parse(rest).packets, Parse(rest).residue)
  {
    var s := Frame(p) + rest;
    assert HeadAt(s, 0) && FirstHead(s) == 0;
    assert s[4..4 + |p.data|] == Frame(p)[4..4 + |p.data|] == p.data;
    assert s[|p.data| + OVERHEAD..] == rest;
  }

  lemma CleanGapIsSkipped(g: seq<byte>, s: seq<byte>)
    requires Clean(g)
    ensures Parse(g + s) == Parse(s)
  {
    forall i | 0 <= i < |g|
      ensures !HeadAt(g + s, i)
    {
      assert !HeadAt(g, i);
    }
    assert (g + s)[|g|..] == s;
    assert s == [] ==> g + s == g;
    DropHeadless(g + s, |g|);
  }

  lemma FrameAfterGapParses(g: seq<byte>, p: Packet, rest: seq<byte>)
    requires Clean(g)
    requires |p.data| <= MAX_DATA
    ensures Parse(g + (Frame(p) + rest)) == Parsed([p] + Parse(rest).packets, Parse(rest).residue)
  {
    CleanGapIsSkipped(g, Frame(p) + rest);
    FrameParses(p, rest);
  }

  /** Frames separated by clean garbage come back exactly, and nothing stays buffered after a clean end. */
  lemma {:induction false} WovenStreamParses(gaps: seq<seq<byte>>, packets: seq<Packet>, tail: seq<byte>)
    requires |gaps| == |packets| + 1
    requires AllFit(packets)
    requires forall i :: 0 <= i < |gaps| ==> Clean(gaps[i])
    requires Incomplete(tail)
    ensures Parse(Weave(gaps, packets) + tail) == Parsed(packets, tail)
    decreases |packets|
  {
    hide Frame, NextStep, Clean, Incomplete;
    if packets == [] {
      CleanGapIsSkipped(gaps[0], tail);
      IncompleteWaits(tail);
    } else {
      WeaveUnfolds(gaps, packets, tail);
      WovenStreamParses(gaps[1..], packets[1..], tail);
      FrameAfterGapParses(gaps[0], packets[0], Weave(gaps[1..], packets[1..]) + tail);
      assert [packets[0]] + packets[1..] == packets;
    }
  }

  lemma WeaveUnfolds(gaps: seq<seq<byte>>, packets: seq<Packet>, tail: seq<byte>)
    requires |gaps| == |packets| + 1 && packets != []
    requires AllFit(packets)
    ensures Weave(gaps, packets) + tail
         == gaps[0] + (Frame(packets[0]) + (Weave(gaps[1..], packets[1..]) + tail))
  {
    var frame, woven := Frame(packets[0]), Weave(gaps[1..], packets[1..]);
    Assoc(gaps[0] + frame, woven, tail);
    Assoc(gaps[0], frame, woven + tail);
  }

  // ---- A frame behind arbitrary garbage ----

  /** Reading s, the parser comes to a step that begins at byte k: what lies there is read as a frame of its own. */
  ghost predicate ReadInPlace(s: seq<byte>, k: nat)
    decreases |s|
  {
    k == 0 || (0 < NextStep(s).consumed <= k && ReadInPlace(s[NextStep(s).consumed..], k - NextStep(s).consumed))
  }

  /** The length of the frame that a head announces, once its length byte is there. */
  function Announced(s: seq<byte>): nat
    requires |s| >= 4
  {
    s[3] as nat + OVERHEAD
  }

  lemma {:induction false} ResidueIsShorter(s: seq<byte>)
    ensures |Parse(s).residue| <= |s|
    decreases |s|
  {
    var step := NextStep(s);
    if !step.Waits() {
      ResidueIsShorter(s[step.consumed..]);
    }
  }

  /**
   * What garbage has left in the buffer lets the stream f that follows be read from its start: nothing was left, or
   * f completes the unfinished frame at its front to an invalid one, and what follows that head lets f through.
   */
  ghost predicate LetsThrough(residue: seq<byte>, f: seq<byte>)
    decreases |residue|
  {
    || residue == []
    || (HeadAt(residue, 0)
        && NextStep(residue + f) == Step(None, 2)
        && (ResidueIsShorter(residue[2..]); LetsThrough(Parse(residue[2..]).residue, f)))
  }

  /** The start of f is read as part of something else: of half a head, or of a false frame that turns out valid. */
  ghost predicate Swallows(residue: seq<byte>, f: seq<byte>)
    decreases |residue|
  {
    || residue == [HEAD]
    || (HeadAt(residue, 0)
        && (NextStep(residue + f).packet.Some?
            || (NextStep(residue + f) == Step(None, 2)
                && (ResidueIsShorter(residue[2..]); Swallows(Parse(residue[2..]).residue, f)))))
  }

  /** A frame read in its place comes out, followed by what the rest of the stream holds. */
  lemma FrameInPlaceParses(s: seq<byte>, k: nat, p: Packet, rest: seq<byte>) returns (before: seq<Packet>)
    requires k <= |s| && |p.data| <= MAX_DATA && s[k..] == Frame(p) + rest
    requires ReadInPlace(s, k)
    ensures Parse(s) == Parsed(before + [p] + Parse(rest).packets, Parse(rest).residue)
    decreases |s|
  {
    hide Frame, NextStep;
    if k == 0 {
      before := [];
      assert s == Frame(p) + rest;
      FrameParses(p, rest);
      assert [] + [p] == [p];
    } else {
      var step := NextStep(s);
      assert s[step.consumed..][k - step.consumed..] == s[k..];
      var later := FrameInPlaceParses(s[step.consumed..], k - step.consumed, p, rest);
      before := if step.packet.Some? then [step.packet.value] + later else later;
      if step.packet.Some? {
        Assoc([step.packet.value], later, [p]);
        Assoc([step.packet.value], later + [p], Parse(rest).packets);
      }
    }
  }

  /** The unfinished frame at the front of the buffer waits, is rejected, or is taken and swallows the start of f. */
  lemma UnfinishedThenMore(r: seq<byte>, f: seq<byte>)
    requires Incomplete(r) && r != [] && HeadAt(f, 0)
    ensures HeadAt(r + f, 0)
    ensures var step := NextStep(r + f);
            step.Waits() || step == Step(None, 2) || (step.packet.Some? && step.consumed > |r|)
    ensures |f| >= MAX_DATA + OVERHEAD ==> !NextStep(r + f).Waits()
  {
    assert FirstHead(r + f) == 0;
  }

  lemma HeadlessThenMore(g: seq<byte>, f: seq<byte>)
    requires FirstHead(g) < 0 && !NextStep(g).Waits() && HeadAt(f, 0)
    ensures NextStep(g + f) == NextStep(g)
  {
    var s, k := g + f, NextStep(g).consumed;
    forall i | 0 <= i < k
      ensures !HeadAt(s, i)
    {
      assert !HeadAt(g, i);
    }
    assert HeadAt(s, k);
    assert FirstHead(s) == k;
  }

  /**
   * Whatever garbage g came before it, a stream f that begins with a head, however it goes on, is read from
   * its start exactly when what the garbage leaves in the buffer lets it through.
   */
  lemma {:induction false} NextFrameExactly(g: seq<byte>, f: seq<byte>)
    requires HeadAt(f, 0)
    ensures ReadInPlace(g + f, |g|) <==> LetsThrough(Parse(g).residue, f)
    decreases |g|
  {
    hide NextStep;
    var step := NextStep(g);
    if step.Waits() {
      IncompleteWaits(g);
      if g != [] {
        UnfinishedThenMore(g, f);
        if NextStep(g + f) == Step(None, 2) && |g| >= 2 {
          DropConcat(g, f, 2);
          NextFrameExactly(g[2..], f);
        }
      }
    } else {
      if FirstHead(g) < 0 {
        HeadlessThenMore(g, f);
      } else {
        StepIsStable(g, f);
      }
      DropConcat(g, f, step.consumed);
      NextFrameExactly(g[step.consumed..], f);
    }
  }

  /** Once enough of the stream has arrived nothing waits, so what is not let through is swallowed. */
  lemma {:induction false} LetsThroughOrSwallows(r: seq<byte>, f: seq<byte>)
    requires Incomplete(r) && HeadAt(f, 0) && |f| >= MAX_DATA + OVERHEAD
    ensures LetsThrough(r, f) <==> !Swallows(r, f)
    decreases |r|
  {
    hide NextStep;
    if r != [] {
      UnfinishedThenMore(r, f);
      if HeadAt(r, 0) && NextStep(r + f) == Step(None, 2) {
        ResidueIsIncomplete(r[2..]);
        ResidueIsShorter(r[2..]);
        LetsThroughOrSwallows(Parse(r[2..]).residue, f);
      }
    }
  }

  /**
   * In a stream that goes on, a frame behind garbage is lost to nothing but half a head right before it or a
   * valid false frame that reaches into it: a head that announces too much only delays it.
   */
  lemma FrameIsLostExactly(g: seq<byte>, p: Packet, rest: seq<byte>)
    requires |p.data| <= MAX_DATA && |Frame(p) + rest| >= MAX_DATA + OVERHEAD
    ensures ReadInPlace(g + (Frame(p) + rest), |g|) <==> !Swallows(Parse(g).residue, Frame(p) + rest)
  {
    hide ReadInPlace, LetsThrough, Swallows, NextStep;
    FrameHasHead(p, rest);
    NextFrameExactly(g, Frame(p) + rest);
    ResidueIsIncomplete(g);
    LetsThroughOrSwallows(Parse(g).residue, Frame(p) + rest);
  }

  lemma FrameHasHead(p: Packet, rest: seq<byte>)
    requires |p.data| <= MAX_DATA
    ensures HeadAt(Frame(p) + rest, 0)
  {
  }

  /**
   * How the parser goes on when a stream f that begins with a frame follows arbitrary garbage, by what the garbage
   * leaves in the buffer. Nothing: the frame comes out next. Half a head: the frame is not read. A head announcing
   * more than has arrived: everything is held back until more arrives. A head whose announced frame is valid: that
   * one comes out and this one is not read. An invalid one: the same question for what follows that head.
   */
  lemma NextFrameByResidue(g: seq<byte>, p: Packet, rest: seq<byte>)
    requires |p.data| <= MAX_DATA
    ensures var f, r := Frame(p) + rest, Parse(g).residue;
            var last, step := Parse(r + f), NextStep(r + f);
            && Parse(g + f) == Parsed(Parse(g).packets + last.packets, last.residue)
            && (r == [] ==> last == Parsed([p] + Parse(rest).packets, Parse(rest).residue))
            && (r == [HEAD] ==> !ReadInPlace(g + f, |g|))
            && (HeadAt(r, 0) ==>
                  if Announced(r + f) > |r + f| then last == Parsed([], r + f)
                  else if step.packet.Some? then
                    !ReadInPlace(g + f, |g|) && last.packets != [] && last.packets[0] == step.packet.value
                  else last == Parse(r[2..] + f)
                       && (ReadInPlace(g + f, |g|) <==> LetsThrough(Parse(r[2..]).residue, f)))
  {
    hide ReadInPlace;
    var f, r := Frame(p) + rest, Parse(g).residue;
    FrameHasHead(p, rest);
    ParseResumes(g, f);
    ResidueIsIncomplete(g);
    NextFrameExactly(g, f);
    if r == [] {
      assert r + f == f;
      FrameParses(p, rest);
    } else if HeadAt(r, 0) {
      UnfinishedThenMore(r, f);
      UnfinishedFrame(r, f);
    }
  }

  lemma UnfinishedFrame(r: seq<byte>, f: seq<byte>)
    requires Incomplete(r) && HeadAt(r, 0) && HeadAt(f, 0)
    ensures var last, step := Parse(r + f), NextStep(r + f);
            if Announced(r + f) > |r + f| then last == Parsed([], r + f) && step.Waits()
            else if step.packet.Some? then last.packets != [] && last.packets[0] == step.packet.value
            else step == Step(None, 2) && last == Parse(r[2..] + f)
  {
    assert FirstHead(r + f) == 0;
    if NextStep(r + f) == Step(None, 2) {
      DropConcat(r, f, 2);
    }
  }

  const LONG_HEAD: seq<byte> := [HEAD, HEAD, 0x00, 0xFF]

  /** Four bytes that look like the start of a long frame hold the next frame back, although they do not end in 0x55. */
  lemma FalseHeadHoldsBack(p: Packet)
    requires |p.data| <= 250
    ensures Parse(LONG_HEAD + Frame(p)) == Parsed([], LONG_HEAD + Frame(p))
  {
    assert HeadAt(LONG_HEAD, 0) && Incomplete(LONG_HEAD);
    assert Frame(p) + [] == Frame(p);
    FrameHasHead(p, []);
    UnfinishedFrame(LONG_HEAD, Frame(p));
  }

  /** It comes out once the announced length has arrived, unless the last byte of that length is a tail byte. */
  lemma FalseHeadOnlyDelays(p: Packet, rest: seq<byte>) returns (before: seq<Packet>)
    requires |p.data| <= MAX_DATA && |Frame(p) + rest| >= 258 && (Frame(p) + rest)[257] != TAIL
    ensures Parse(LONG_HEAD + (Frame(p) + rest)) == Parsed(before + [p] + Parse(rest).packets, Parse(rest).residue)
  {
    var f := Frame(p) + rest;
    FrameHasHead(p, rest);
    IncompleteWaits(LONG_HEAD);
    assert HeadAt(LONG_HEAD, 0) && Incomplete(LONG_HEAD);
    UnfinishedThenMore(LONG_HEAD, f);
    assert (LONG_HEAD + f)[261] == f[257];
    assert LONG_HEAD[2..] == [0x00, 0xFF];
    assert FirstHead([0x00, 0xFF]) < 0;
    assert NextStep([0x00, 0xFF]) == Step(None, 2);
    IncompleteWaits([]);
    assert Parse([0x00, 0xFF]).residue == [];
    NextFrameExactly(LONG_HEAD, f);
    before := FrameInPlaceParses(LONG_HEAD + f, |LONG_HEAD|, p, rest);
  }

  /** Garbage without a head loses the frame behind it, however the stream goes on, exactly when it ends in 0x55. */
  lemma ResyncExactly(g: seq<byte>, p: Packet, rest: seq<byte>)
    requires NoHead(g)
    requires |p.data| <= MAX_DATA
    ensures ReadInPlace(g + (Frame(p) + rest), |g|) <==> Clean(g)
    ensures Clean(g) ==>
      Parse(g + (Frame(p) + rest)) == Parsed([p] + Parse(rest).packets, Parse(rest).residue)
    ensures p in Parse(g + Frame(p)).packets <==> Clean(g)
  {
    hide ReadInPlace, LetsThrough, Frame;
    FrameHasHead(p, rest);
    NextFrameExactly(g, Frame(p) + rest);
    HeadlessResidue(g);
    OnlyEmptyOrHeaded(Frame(p) + rest);
    if Clean(g) {
      FrameAfterGapParses(g, p, rest);
      FrameAfterGapParses(g, p, []);
      assert Frame(p) + [] == Frame(p);
      assert p in [p] + Parse([]).packets;
    } else {
      StrayHalfHead(g, p);
    }
  }

  lemma HeadlessResidue(g: seq<byte>)
    requires NoHead(g)
    ensures Parse(g).residue == if Clean(g) then [] else [HEAD]
  {
    var step := NextStep(g);
    IncompleteWaits(g);
    IncompleteWaits(g[step.consumed..]);
    if Clean(g) {
      assert g[step.consumed..] == [];
    } else {
      assert g[step.consumed..] == [HEAD];
    }
  }

  lemma OnlyEmptyOrHeaded(f: seq<byte>)
    ensures LetsThrough([], f) && !LetsThrough([HEAD], f)
  {
  }

  /** A stray 0x55 pairs with the first head byte of the frame, so the frame is read one byte early and lost. */
  lemma StrayHalfHead(g: seq<byte>, p: Packet)
    requires NoHead(g) && g != [] && g[|g| - 1] == HEAD
    requires |p.data| <= MAX_DATA
    ensures p !in Parse(g + Frame(p)).packets
  {
    hide Parse, Frame;
    ShiftOne(g, Frame(p));
    forall i | 0 <= i < |g| - 1
      ensures !HeadAt(g + Frame(p), i)
    {
      assert !HeadAt(g, i);
    }
    DropHeadless(g + Frame(p), |g| - 1);
    HalfHeadThenFrame(p);
  }

  lemma HalfHeadThenFrame(p: Packet)
    requires |p.data| <= MAX_DATA
    ensures p !in Parse([HEAD] + Frame(p)).packets
  {
    var s := [HEAD] + Frame(p);
    assert HeadAt(s, 0) && FirstHead(s) == 0;
    hide NextStep, Frame;
    var step := NextStep(s);
    if step.packet.Some? {
      EmittedFrameWasRead(s);
      ShiftedFrameDiffers(p, step.packet.value);
      ShortStreamCannotEmit(s[step.consumed..], p);
    } else if step.consumed == 2 {
      ShortStreamCannotEmit(s[2..], p);
    } else {
      HeadedSteps(s);
    }
  }

  /** A step at a head produces a packet, costs the head, or waits. */
  lemma HeadedSteps(s: seq<byte>)
    requires HeadAt(s, 0)
    ensures var step := NextStep(s); step.packet.Some? || step.consumed == 2 || step.Waits()
  {
    assert FirstHead(s) == 0;
  }

  lemma ShiftOne(g: seq<byte>, f: seq<byte>)
    requires g != [] && g[|g| - 1] == HEAD
    ensures (g + f)[|g| - 1..] == [HEAD] + f
  {
  }

  lemma ShiftedFrameDiffers(p: Packet, q: Packet)
    requires |p.data| <= MAX_DATA && |q.data| <= MAX_DATA
    requires q == p ==> IsFrame(([HEAD] + Frame(p))[..|p.data| + OVERHEAD], p)
    ensures p != q
  {
    if p == q {
      var f, n := Frame(p), |p.data| + OVERHEAD;
      var shifted := ([HEAD] + f)[..n];
      FrameIsUnique(shifted, f, p, p);
      for i := 0 to n - 1
        invariant forall j :: 0 <= j <= i ==> f[j] == HEAD
      {
        assert f[i + 1] == shifted[i + 1] == f[i];
      }
      assert false;
    }
  }

  lemma {:induction false} ShortStreamCannotEmit(s: seq<byte>, p: Packet)
    requires |s| < |p.data| + OVERHEAD
    ensures p !in Parse(s).packets
    decreases |s|
  {
    var step := NextStep(s);
    if !step.Waits() {
      ShortStreamCannotEmit(s[step.consumed..], p);
    }
  }

  /**
   * A complete frame that fails its tail or checksum costs its two head bytes. The next frame, however the stream
   * goes on, survives if the bytes in between are clean, and in general exactly when what they leave lets it through.
   */
  lemma CorruptFrameIsSkipped(c: seq<byte>, p: Packet, rest: seq<byte>)
    requires |c| >= 4 && HeadAt(c, 0) && |c| == c[3] as nat + OVERHEAD
    requires NextStep(c).packet.None?
    requires |p.data| <= MAX_DATA
    ensures Clean(c[2..]) ==>
      Parse(c + (Frame(p) + rest)) == Parsed([p] + Parse(rest).packets, Parse(rest).residue)
    ensures ReadInPlace(c + (Frame(p) + rest), |c|) <==> LetsThrough(Parse(c[2..]).residue, Frame(p) + rest)
  {
    hide LetsThrough, ReadInPlace;
    var f := Frame(p) + rest;
    assert FirstHead(c) == 0;
    assert NextStep(c) == Step(None, 2);
    StepIsStable(c, f);
    DropConcat(c, f, 2);
    FrameHasHead(p, rest);
    NextFrameExactly(c, f);
    if Clean(c[2..]) {
      FrameAfterGapParses(c[2..], p, rest);
    }
  }

  /** Any one-byte change outside the head and the length makes the parser reject the frame. */
  lemma OneByteErrorIsRejected(p: Packet, i: nat, b: byte, rest: seq<byte>)
    requires |p.data| <= MAX_DATA
    requires i == 2 || 4 <= i < |p.data| + OVERHEAD
    requires b != Frame(p)[i]
    ensures NextStep(Frame(p)[i := b] + rest) == Step(None, 2)
  {
    var n := |p.data|;
    var s := Frame(p)[i := b] + rest;
    assert HeadAt(s, 0) && FirstHead(s) == 0;
    if i == 2 {
      assert s[4..4 + n] == p.data;
      if n > 0 {
        ChecksumDetectsOneByte(p.cmd, b, p.data, 0, p.data[0]);
      } else {
        XorAllInjective0(p.cmd, b);
      }
    } else if i < 4 + n {
      assert Frame(p)[i] == p.data[i - 4];
      assert s[4..4 + n] == p.data[i - 4 := b];
      ChecksumDetectsOneByte(p.cmd, p.cmd, p.data, i - 4, b);
    } else {
      assert s[4..4 + n] == p.data;
    }
  }

  lemma XorAllInjective0(cmd: byte, cmd': byte)
    requires cmd != cmd'
    ensures Checksum(cmd, []) != Checksum(cmd', [])
  {
    if Checksum(cmd, []) == Checksum(cmd', []) {
      XorInjective(cmd, cmd', 0);
    }
  }
}
