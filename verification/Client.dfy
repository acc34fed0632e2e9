/**
 * The print protocol: internal/niimbot/client.go, from drain and await to Print, against an arbitrary
 * printer. The link is a script of everything that will arrive or go wrong; the proofs hold for all scripts.
 */
module NiimbotClient {
  import opened Bytes
  import opened Commands
  import opened Framing
  import opened Raster
  import opened RowEncoding

  datatype Task = TaskB1 | TaskB21V1 | TaskD110

  datatype Model = Model(headPixels: nat, task: Task, densityMin: int, densityMax: int, densityDefault: int)

  datatype PrintOptions = PrintOptions(density: int, labelType: byte, copies: int)

  datatype ClientError =
    | FrameTooLong | LinkWrite | Cancelled | Timeout | LinkClosed
    | PrinterError(code: byte) | NotSupported | ShortStatus | TooWide | BadRowCount

  /** What a receiver may see next. */
  datatype Inbound = Arrived(p: Packet) | Expires | Cancels | Closes

  /** How an attempt to write ends; it can be cancelled during the pacing wait, with nothing handed to the transport. */
  datatype WriteOutcome = Written | WriteFails | WriteCancelled

  /** The rest of the environment, indexed by the number of trace entries at the time. */
  datatype Env = Env(writes: nat -> WriteOutcome, early: nat -> nat, interrupts: nat -> bool)

  /** A framed packet whose write was attempted, with the outcome, or a reply accepted for one. */
  datatype Entry = Sent(p: Packet, outcome: WriteOutcome) | Got(p: Packet)

  // ---- Receiving ----

  /** Discards up to n packets that have already arrived. */
  function Drained(inbox: seq<Inbound>, n: nat): (r: seq<Inbound>)
    ensures |r| <= |inbox|
  {
    if n == 0 || inbox == [] || !inbox[0].Arrived? then inbox else Drained(inbox[1..], n - 1)
  }

  datatype Awaited = Awaited(reply: Result<Packet, ClientError>, rest: seq<Inbound>)

  function Judge(p: Packet, accept: seq<byte>): Option<Result<Packet, ClientError>> {
    if p.cmd == RESP_PRINT_ERROR then Some(Err(PrinterError(if |p.data| > 0 then p.data[0] else 0)))
    else if p.cmd == RESP_NOT_SUPPORTED then Some(Err(NotSupported))
    else if p.cmd in accept then Some(Ok(p))
    else None
  }

  /** A link that has nothing more to say lets the timer expire. */
  function Await(inbox: seq<Inbound>, accept: seq<byte>): (r: Awaited)
    ensures |r.rest| <= |inbox|
    ensures r.reply.Ok? ==> |r.rest| < |inbox| && r.reply.value.cmd in accept
  {
    if inbox == [] then Awaited(Err(Timeout), [])
    else match inbox[0]
         case Arrived(p) =>
           var verdict := Judge(p, accept);
           if verdict.Some? then Awaited(verdict.value, inbox[1..]) else Await(inbox[1..], accept)
         case Expires => Awaited(Err(Timeout), inbox[1..])
         case Cancels => Awaited(Err(Cancelled), inbox[1..])
         case Closes => Awaited(Err(LinkClosed), inbox)
  }

  /** A reply that comes after what had already arrived when the request was made was discarded. */
  ghost predicate FreshReply(env: Env, before: seq<Inbound>, made: nat, accept: seq<byte>, reply: Packet,
                             after: seq<Inbound>) {
    Await(Drained(before, env.early(made)), accept) == Awaited(Ok(reply), after)
  }

  /** An event that leaves the client waiting: a packet that is neither an error reply nor awaited. */
  ghost predicate Unsolicited(e: Inbound, accept: seq<byte>) {
    e.Arrived? && Judge(e.p, accept).None?
  }

  /** A request is answered by the first inbound event that is not an unsolicited packet, and by nothing else. */
  lemma {:induction false} AwaitTakesFirstDecisive(inbox: seq<Inbound>, accept: seq<byte>, p: Packet)
    ensures Await(inbox, accept).reply == Ok(p)
      <==> exists i :: 0 <= i < |inbox| && inbox[i] == Arrived(p) && Judge(p, accept) == Some(Ok(p))
                       && forall k :: 0 <= k < i ==> Unsolicited(inbox[k], accept)
  {
    if inbox != [] {
      AwaitTakesFirstDecisive(inbox[1..], accept, p);
      if Unsolicited(inbox[0], accept) {
        if i :| 0 <= i < |inbox[1..]| && inbox[1..][i] == Arrived(p) && Judge(p, accept) == Some(Ok(p))
                && forall k :: 0 <= k < i ==> Unsolicited(inbox[1..][k], accept) {
          assert inbox[i + 1] == Arrived(p);
          forall k | 0 <= k < i + 1
            ensures Unsolicited(inbox[k], accept)
          {
            assert k > 0 ==> inbox[k] == inbox[1..][k - 1];
          }
        }
        if i :| 0 <= i < |inbox| && inbox[i] == Arrived(p) && Judge(p, accept) == Some(Ok(p))
                && forall k :: 0 <= k < i ==> Unsolicited(inbox[k], accept) {
          assert i > 0 && inbox[1..][i - 1] == Arrived(p);
          assert forall k :: 0 <= k < i - 1 ==> inbox[1..][k] == inbox[k + 1];
        }
      } else if Await(inbox, accept).reply == Ok(p) {
        assert inbox[0] == Arrived(p);
      }
    }
  }

  lemma {:induction false} DrainedExactly(inbox: seq<Inbound>, n: nat) returns (k: nat)
    ensures k <= n && k <= |inbox| && Drained(inbox, n) == inbox[k..]
    ensures forall i :: 0 <= i < k ==> inbox[i].Arrived?
    ensures k == n || k == |inbox| || !inbox[k].Arrived?
  {
    k := 0;
    if n > 0 && inbox != [] && inbox[0].Arrived? {
      var m := DrainedExactly(inbox[1..], n - 1);
      k := m + 1;
    }
  }

  /** An error reply that comes before any accepted one makes the request fail with the code it carries. */
  lemma {:induction false} AwaitFailsOnErrorReply(inbox: seq<Inbound>, accept: seq<byte>, i: nat)
    requires i < |inbox| && inbox[i].Arrived? && (inbox[i].p.cmd == 0xDB || inbox[i].p.cmd == 0x00)
    requires forall k :: 0 <= k < i ==> inbox[k].Arrived? && inbox[k].p.cmd != 0xDB && inbox[k].p.cmd != 0x00
                                        && inbox[k].p.cmd !in accept
    ensures Await(inbox, accept).rest == inbox[i + 1..]
    ensures Await(inbox, accept).reply
         == if inbox[i].p.cmd == 0x00 then Err(NotSupported)
            else Err(PrinterError(if inbox[i].p.data != [] then inbox[i].p.data[0] else 0))
  {
    if i > 0 {
      AwaitFailsOnErrorReply(inbox[1..], accept, i - 1);
      assert inbox[1..][i - 1] == inbox[i] && inbox[1..][i..] == inbox[i + 1..];
    }
  }

  /** Timeouts, cancellation and a closed link end a request that has seen only unsolicited packets. */
  lemma {:induction false} AwaitEndsWithoutReply(inbox: seq<Inbound>, accept: seq<byte>, i: nat)
    requires i <= |inbox| && forall k :: 0 <= k < i ==> Unsolicited(inbox[k], accept)
    requires i < |inbox| ==> !inbox[i].Arrived?
    ensures Await(inbox, accept).reply
         == Err(if i == |inbox| || inbox[i].Expires? then Timeout
                else if inbox[i].Cancels? then Cancelled
                else LinkClosed)
  {
    if i > 0 {
      AwaitEndsWithoutReply(inbox[1..], accept, i - 1);
    }
  }

  // ---- Scripts of a task ----

  /** A step of a task: a request with the replies it accepts, or a one-way packet. */
  datatype Slot = Ask(p: Packet, accept: seq<byte>) | Tell(p: Packet)

  ghost predicate SlotDone(t: seq<Entry>, s: Slot) {
    |s.p.data| <= MAX_DATA
    && match s
    case Tell(p) => t == [Sent(p, Written)]
    case Ask(p, accept) => |t| == 2 && t[0] == Sent(p, Written) && t[1].Got? && t[1].p.cmd in accept
  }

  /** The step was attempted at most once and got no reply. */
  ghost predicate SlotFailed(t: seq<Entry>, s: Slot) {
    || (t == [] && |s.p.data| > MAX_DATA)
    || (|t| == 1 && t[0].Sent? && t[0].p == s.p && (s.Tell? ==> t[0].outcome != Written))
  }

  function Width(s: Slot): nat {
    if s.Tell? then 1 else 2
  }

  /** The trace is the slots, each done, in order. */
  ghost predicate Conforms(t: seq<Entry>, slots: seq<Slot>)
    decreases |slots|
  {
    if slots == [] then t == []
    else
      && |t| >= Width(slots[0]) && SlotDone(t[..Width(slots[0])], slots[0])
      && Conforms(t[Width(slots[0])..], slots[1..])
  }

  /** The trace is some of the slots, each done, in order, and then a failed one. */
  ghost predicate Stalled(t: seq<Entry>, slots: seq<Slot>)
    decreases |slots|
  {
    slots != []
    && (SlotFailed(t, slots[0])
        || (|t| >= Width(slots[0]) && SlotDone(t[..Width(slots[0])], slots[0])
            && Stalled(t[Width(slots[0])..], slots[1..])))
  }

  ghost predicate Ran(t: seq<Entry>, slots: seq<Slot>, ok: bool) {
    if ok then Conforms(t, slots) else Stalled(t, slots)
  }

  lemma {:induction false} RanJoins(a: seq<Entry>, s: seq<Slot>, b: seq<Entry>, u: seq<Slot>, ok: bool)
    requires Conforms(a, s) && Ran(b, u, ok)
    ensures Ran(a + b, s + u, ok)
    decreases |s|
  {
    hide SlotDone, SlotFailed;
    if s == [] {
      assert a + b == b && s + u == u;
    } else {
      var w := Width(s[0]);
      assert (a + b)[..w] == a[..w] && (a + b)[w..] == a[w..] + b;
      assert (s + u)[1..] == s[1..] + u;
      RanJoins(a[w..], s[1..], b, u, ok);
    }
  }

  lemma {:induction false} StallsEarly(a: seq<Entry>, s: seq<Slot>, u: seq<Slot>)
    requires Stalled(a, s)
    ensures Stalled(a, s + u)
    decreases |s|
  {
    hide SlotDone, SlotFailed;
    assert (s + u)[1..] == s[1..] + u;
    if !SlotFailed(a, s[0]) {
      StallsEarly(a[Width(s[0])..], s[1..], u);
    }
  }

  /** What a run of consecutive steps added to the trace. */
  ghost predicate Advanced(before: seq<Entry>, after: seq<Entry>, slots: seq<Slot>, ok: bool) {
    before <= after && Ran(after[|before|..], slots, ok)
  }

  lemma AdvancedJoins(a: seq<Entry>, b: seq<Entry>, c: seq<Entry>, s: seq<Slot>, u: seq<Slot>, ok: bool)
    requires Advanced(a, b, s, true) && Advanced(b, c, u, ok)
    ensures Advanced(a, c, s + u, ok)
  {
    hide Conforms, Stalled;
    assert c[|a|..] == b[|a|..] + c[|b|..];
    RanJoins(b[|a|..], s, c[|b|..], u, ok);
  }

  lemma AdvancedOne(a: seq<Entry>, b: seq<Entry>, s: Slot, ok: bool)
    requires a <= b && if ok then SlotDone(b[|a|..], s) else SlotFailed(b[|a|..], s)
    ensures Advanced(a, b, [s], ok)
  {
    var t := b[|a|..];
    if ok {
      assert t[..Width(s)] == t && t[Width(s)..] == [] && [s][1..] == [];
    }
  }

  const STATUS_PACKET := Packet(CMD_PRINT_STATUS, [1])
  const END_PACKET := Packet(CMD_PRINT_END, [1])
  const CANCEL_PACKET := Packet(CMD_CANCEL_PRINT, [1])
  const END_SLOT := Ask(END_PACKET, [RESP_PRINT_END])

  function InitSlots(density: byte, labelType: byte, start: seq<byte>): seq<Slot> {
    [Ask(Packet(CMD_SET_DENSITY, [density]), [RESP_SET_DENSITY]),
     Ask(Packet(CMD_SET_LABEL_TYPE, [labelType]), [RESP_SET_LABEL_TYPE]),
     Ask(Packet(CMD_PRINT_START, start), [RESP_PRINT_START])]
  }

  function PageStartSlot(): Slot { Ask(Packet(CMD_PAGE_START, [1]), [RESP_PAGE_START]) }

  function PageSizeSlot(size: seq<byte>): Slot { Ask(Packet(CMD_SET_PAGE_SIZE, size), [RESP_SET_PAGE_SIZE]) }

  function Tells(rows: seq<Packet>): seq<Slot> {
    seq(|rows|, i requires 0 <= i < |rows| => Tell(rows[i]))
  }

  /** All row packets in order, then the end of the page. */
  function RowSlots(rows: seq<Packet>): seq<Slot> {
    Tells(rows) + [Ask(Packet(CMD_PAGE_END, [1]), [RESP_PAGE_END])]
  }

  function PageSlots(enc: EncodedImage, rows: seq<Packet>): seq<Slot> {
    [PageStartSlot(), PageSizeSlot(U16(enc.rows) + U16(enc.cols))] + RowSlots(rows)
  }

  function Pages(enc: EncodedImage, rows: seq<Packet>, copies: nat): seq<Slot> {
    if copies == 0 then [] else Pages(enc, rows, copies - 1) + PageSlots(enc, rows)
  }

  /** Everything a task sends before it starts polling for completion. */
  function MainSlots(task: Task, enc: EncodedImage, density: byte, labelType: byte, copies: nat,
                     headPixels: nat): seq<Slot> {
    match task
    case TaskB1 =>
      InitSlots(density, labelType, U16(copies) + [0, 0, 0, 0, 0])
      + [PageStartSlot(), PageSizeSlot(U16(enc.rows) + U16(enc.cols) + U16(copies))]
      + RowSlots(PacketsFrom(enc.runs, 199, headPixels, CountSplit, false))
    case TaskD110 =>
      InitSlots(density, labelType, [1])
      + [Ask(Packet(CMD_PRINT_CLEAR, [1]), [RESP_PRINT_CLEAR]), PageStartSlot(),
         PageSizeSlot(U16(enc.rows) + U16(enc.cols)),
         Ask(Packet(CMD_PRINT_QUANTITY, U16(copies)), [RESP_PRINT_QUANTITY])]
      + RowSlots(PacketsFrom(enc.runs, 199, headPixels, CountSplit, false))
    case TaskB21V1 =>
      InitSlots(density, labelType, [1])
      + Pages(enc, PacketsFrom(enc.runs, 199, headPixels, CountTotal, true), copies)
  }

  // ---- Polling ----

  datatype PrintStatus = PrintStatus(page: nat, printProgress: byte, feedProgress: byte, error: byte)

  function ParseStatus(d: seq<byte>): Result<PrintStatus, ClientError> {
    if |d| < 4 then Err(ShortStatus)
    else Ok(PrintStatus(ReadU16(d), d[2], d[3], if |d| >= 7 then d[6] else 0))
  }

  /** The printer has finished: enough pages, and no error. */
  predicate StatusDone(p: Packet, copies: nat) {
    var s := ParseStatus(p.data);
    s.Ok? && s.value.error == 0 && s.value.page >= copies
  }

  predicate StatusPending(p: Packet, copies: nat) {
    var s := ParseStatus(p.data);
    s.Ok? && s.value.error == 0 && s.value.page < copies
  }

  predicate EndConfirmed(p: Packet) {
    |p.data| > 0 && p.data[0] != 0
  }

  /** The bytes of a status report: a 16-bit page count first, and in reports of seven bytes or more an error last. */
  ghost predicate Healthy(d: seq<byte>) {
    |d| >= 4 && (|d| >= 7 ==> d[6] == 0)
  }

  ghost function PagesDone(d: seq<byte>): nat
    requires |d| >= 4
  {
    0x100 * d[0] as nat + d[1] as nat
  }

  /** What the bytes of a status report make of the wait for `want` pages; None if it goes on. */
  ghost function Verdict(d: seq<byte>, want: nat): Option<Option<ClientError>> {
    if |d| < 4 then Some(Some(ShortStatus))
    else if |d| >= 7 && d[6] != 0 then Some(Some(PrinterError(d[6])))
    else if 0x100 * d[0] as nat + d[1] as nat >= want then Some(None)
    else None
  }

  /** How a task's completion is polled: the request, and what each reply means. */
  datatype Poll = StatusPoll(copies: nat) | EndPoll {
    function Slot(): Slot {
      if StatusPoll? then Ask(STATUS_PACKET, [RESP_PRINT_STATUS]) else END_SLOT
    }
    predicate Done(p: Packet) { if StatusPoll? then StatusDone(p, copies) else EndConfirmed(p) }
    predicate Pending(p: Packet) { if StatusPoll? then StatusPending(p, copies) else !EndConfirmed(p) }
  }

  /** Polls answered "not yet", then one answered "done". */
  ghost predicate PolledDone(t: seq<Entry>, poll: Poll)
    decreases |t|
  {
    && |t| >= 2 && SlotDone(t[..2], poll.Slot())
    && if |t| == 2 then poll.Done(t[1].p) else poll.Pending(t[1].p) && PolledDone(t[2..], poll)
  }

  /** Polls answered "not yet", then one that failed, was answered with an error, or was never made. */
  ghost predicate PolledFailed(t: seq<Entry>, poll: Poll)
    decreases |t|
  {
    || SlotFailed(t, poll.Slot())
    || (|t| == 2 && SlotDone(t, poll.Slot()) && !poll.Done(t[1].p))
    || (|t| >= 2 && SlotDone(t[..2], poll.Slot()) && poll.Pending(t[1].p) && PolledFailed(t[2..], poll))
  }

  /** The trace of a successful print, after validation. */
  ghost predicate Succeeded(t: seq<Entry>, main: seq<Slot>, poll: Poll) {
    exists i: nat, k: nat :: i <= k <= |t|
      && Conforms(t[..i], main) && PolledDone(t[i..k], poll)
      && (if poll.EndPoll? then k == |t| else SlotDone(t[k..], END_SLOT))
  }

  /** A proper beginning of a successful trace, up to and including the step that failed. */
  ghost predicate BrokeOff(t: seq<Entry>, main: seq<Slot>, poll: Poll) {
    || Stalled(t, main)
    || (exists i: nat :: i <= |t| && Conforms(t[..i], main) && PolledFailed(t[i..], poll))
    || (exists i: nat, k: nat :: i <= k <= |t|
          && Conforms(t[..i], main) && PolledDone(t[i..k], poll) && poll.StatusPoll? && SlotFailed(t[k..], END_SLOT))
  }

  /** One request attempted, answered or not. */
  ghost predicate Attempted(t: seq<Entry>, s: Slot) {
    SlotDone(t, s) || SlotFailed(t, s)
  }

  /** The reset after a failure: PrintEnd attempted, then CancelPrint. */
  ghost predicate ResetTail(t: seq<Entry>) {
    exists i: nat :: i <= |t| && 1 <= |t[..i]| && 1 <= |t[i..]|
      && Attempted(t[..i], END_SLOT) && Attempted(t[i..], Ask(CANCEL_PACKET, [RESP_CANCEL_PRINT]))
  }

  /** An error reported when the trace ends like this: the last write failed, went unanswered, or the answer was bad. */
  ghost predicate Blames(t: seq<Entry>, e: ClientError) {
    || e.FrameTooLong?
    || (t != []
        && match t[|t| - 1]
           case Sent(_, WriteFails) => e == LinkWrite
           case Sent(_, WriteCancelled) => e == Cancelled
           case Sent(_, Written) =>
             e.Timeout? || e.Cancelled? || e.LinkClosed? || e.PrinterError? || e.NotSupported?
           case Got(p) =>
             if p.cmd == 0xB3 && |p.data| < 4 then e == ShortStatus
             else if p.cmd == 0xB3 && |p.data| >= 7 && p.data[6] != 0 then e == PrinterError(p.data[6])
             else e == Cancelled)
  }

  // ---- A link on which nothing goes wrong ----

  /** Every write succeeds, nothing arrives before it is asked for, and no wait is interrupted. */
  ghost predicate Calm(env: Env) {
    forall n: nat :: env.writes(n).Written? && env.early(n) == 0 && !env.interrupts(n)
  }

  /** The step can be framed, and the first reply it accepts is not an error reply. */
  predicate Answerable(s: Slot) {
    && |s.p.data| <= MAX_DATA
    && (s.Ask? ==> s.accept != [] && s.accept[0] != RESP_PRINT_ERROR && s.accept[0] != RESP_NOT_SUPPORTED)
  }

  predicate AllAnswerable(slots: seq<Slot>) {
    forall i :: 0 <= i < |slots| ==> Answerable(slots[i])
  }

  /** A printer that confirms every request of a script. */
  function Confirmations(slots: seq<Slot>): seq<Inbound> {
    if slots == [] then []
    else (if slots[0].Ask? && slots[0].accept != [] then [Arrived(Packet(slots[0].accept[0], [1]))] else [])
         + Confirmations(slots[1..])
  }

  /** And that reports the print complete when first asked. */
  function Completion(poll: Poll): seq<Inbound> {
    match poll
    case StatusPoll(copies) =>
      [Arrived(Packet(RESP_PRINT_STATUS, U16(copies) + [100, 100])), Arrived(Packet(RESP_PRINT_END, [1]))]
    case EndPoll => [Arrived(Packet(RESP_PRINT_END, [1]))]
  }

  /** The next inbound event is a reply that the request accepts. */
  ghost predicate Answers(env: Env, inbox: seq<Inbound>, accept: seq<byte>) {
    && Calm(env) && inbox != [] && inbox[0].Arrived?
    && Judge(inbox[0].p, accept) == Some(Ok(inbox[0].p))
  }

  /** Steps over a calm link to a confirming printer are all done, and use up exactly its confirmations. */
  ghost predicate Served(env: Env, before: seq<Inbound>, after: seq<Inbound>, slots: seq<Slot>, ok: bool) {
    Calm(env) && AllAnswerable(slots) && Confirmations(slots) <= before
    ==> ok && after == before[|Confirmations(slots)|..]
  }

  /** So is a whole task. */
  ghost predicate ServedToEnd(env: Env, before: seq<Inbound>, main: seq<Slot>, poll: Poll, r: Option<ClientError>) {
    Calm(env) && AllAnswerable(main) && Confirmations(main) + Completion(poll) <= before
    && (poll.StatusPoll? ==> poll.copies <= 0xFFFF)
    ==> r.None?
  }

  lemma {:induction false} ConfirmationsAppend(a: seq<Slot>, b: seq<Slot>)
    ensures Confirmations(a + b) == Confirmations(a) + Confirmations(b)
  {
    if a == [] {
      assert a + b == b;
    } else {
      assert (a + b)[1..] == a[1..] + b;
      ConfirmationsAppend(a[1..], b);
    }
  }

  lemma AnswerableAppend(a: seq<Slot>, b: seq<Slot>)
    requires AllAnswerable(a + b)
    ensures AllAnswerable(a) && AllAnswerable(b)
  {
    hide Answerable;
    assert forall i :: 0 <= i < |a| ==> a[i] == (a + b)[i];
    assert forall i :: 0 <= i < |b| ==> b[i] == (a + b)[|a| + i];
  }

  lemma ServedJoins(env: Env, a: seq<Inbound>, b: seq<Inbound>, c: seq<Inbound>, s: seq<Slot>, u: seq<Slot>, ok: bool)
    requires Served(env, a, b, s, true) && Served(env, b, c, u, ok)
    ensures Served(env, a, c, s + u, ok)
  {
    hide AllAnswerable, Confirmations, Calm;
    if AllAnswerable(s + u) && Confirmations(s + u) <= a {
      AnswerableAppend(s, u);
      ConfirmationsAppend(s, u);
    }
  }

  lemma ServedLonger(env: Env, a: seq<Inbound>, b: seq<Inbound>, s: seq<Slot>, u: seq<Slot>)
    requires Served(env, a, b, s, false)
    ensures Served(env, a, b, s + u, false)
  {
    hide AllAnswerable, Confirmations, Calm;
    if AllAnswerable(s + u) && Confirmations(s + u) <= a {
      AnswerableAppend(s, u);
      ConfirmationsAppend(s, u);
    }
  }

  /** Where a client stands: what it has done, and what is still to arrive. */
  datatype Stand = Stand(trace: seq<Entry>, inbox: seq<Inbound>)

  /** What a run of consecutive steps did to the trace and to a calm link. */
  ghost predicate Progress(env: Env, a: Stand, b: Stand, slots: seq<Slot>, ok: bool) {
    Advanced(a.trace, b.trace, slots, ok) && Served(env, a.inbox, b.inbox, slots, ok)
  }

  lemma ProgressJoins(env: Env, a: Stand, b: Stand, c: Stand, s: seq<Slot>, u: seq<Slot>, ok: bool)
    requires Progress(env, a, b, s, true) && Progress(env, b, c, u, ok)
    ensures Progress(env, a, c, s + u, ok)
  {
    hide Advanced, Served;
    AdvancedJoins(a.trace, b.trace, c.trace, s, u, ok);
    ServedJoins(env, a.inbox, b.inbox, c.inbox, s, u, ok);
  }

  // ---- Validation ----

  function Effective(m: Model, opts: PrintOptions): PrintOptions {
    var d := if opts.density == 0 then m.densityDefault else opts.density;
    var capped := if m.densityMax < d then m.densityMax else d;
    PrintOptions(if m.densityMin > capped then m.densityMin else capped,
                 if opts.labelType == 0 then 1 else opts.labelType,
                 if opts.copies < 1 then 1 else opts.copies)
  }

  /** The density stays in the model's range, and one that is in it is not changed; zero values mean the defaults. */
  lemma EffectiveOptions(m: Model, opts: PrintOptions)
    requires m.densityMin <= m.densityMax
    ensures var o, asked := Effective(m, opts), if opts.density == 0 then m.densityDefault else opts.density;
            && m.densityMin <= o.density <= m.densityMax
            && (m.densityMin <= asked <= m.densityMax ==> o.density == asked)
            && (asked < m.densityMin ==> o.density == m.densityMin)
            && (asked > m.densityMax ==> o.density == m.densityMax)
            && (0 <= o.density < 0x100 ==> DensityByte(o.density) as int == o.density)
            && o.labelType == (if opts.labelType == 0 then 1 else opts.labelType)
            && o.copies >= 1 && (opts.copies >= 1 ==> o.copies == opts.copies) && (opts.copies < 1 ==> o.copies == 1)
  {
  }

  function Rejects(m: Model, enc: EncodedImage): Option<ClientError> {
    if enc.cols > m.headPixels then Some(TooWide)
    else if enc.rows < 1 || enc.rows > 0xFFFF then Some(BadRowCount)
    else None
  }

  /** An image is accepted when it is no wider than the head and has 1 to 65535 rows. */
  lemma AcceptedExactly(m: Model, enc: EncodedImage)
    ensures Rejects(m, enc).None? <==> enc.cols <= m.headPixels && 1 <= enc.rows <= 65535
    ensures Rejects(m, enc) == Some(TooWide) <==> enc.cols > m.headPixels
  {
  }

  function DensityByte(d: int): byte {
    (d % 0x100) as byte
  }

  // ---- The client ----

  class Client {
    const model: Model
    const env: Env
    var inbox: seq<Inbound>
    var trace: seq<Entry>

    constructor (model: Model, env: Env, inbox: seq<Inbound>)
      ensures this.model == model && this.env == env && this.inbox == inbox && trace == []
    {
      this.model, this.env, this.inbox, trace := model, env, inbox, [];
    }

    ghost function Now(): Stand
      reads this
    {
      Stand(trace, inbox)
    }

    method Send(p: Packet) returns (r: Option<ClientError>)
      modifies `trace
      ensures |p.data| > MAX_DATA ==> r == Some(FrameTooLong) && trace == old(trace)
      ensures |p.data| <= MAX_DATA ==>
        trace == old(trace) + [Sent(p, env.writes(|old(trace)|))]
        && r == match env.writes(|old(trace)|)
                case Written => None
                case WriteFails => Some(LinkWrite)
                case WriteCancelled => Some(Cancelled)
    {
      var raw := Marshal(p);
      if raw.Err? {
        return Some(FrameTooLong);
      }
      var outcome := env.writes(|trace|);
      trace := trace + [Sent(p, outcome)];
      match outcome {
        case Written => return None;
        case WriteFails => return Some(LinkWrite);
        case WriteCancelled => return Some(Cancelled);
      }
    }

    method Drain()
      modifies `inbox
      ensures inbox == Drained(old(inbox), env.early(|trace|))
    {
      var n := env.early(|trace|);
      while n > 0 && inbox != [] && inbox[0].Arrived?
        invariant Drained(inbox, n) == Drained(old(inbox), env.early(|trace|))
        decreases n
      {
        inbox := inbox[1..];
        n := n - 1;
      }
    }

    method AwaitReply(accept: seq<byte>) returns (r: Result<Packet, ClientError>)
      modifies this
      ensures Await(old(inbox), accept) == Awaited(r, inbox)
      ensures trace == if r.Ok? then old(trace) + [Got(r.value)] else old(trace)
      ensures r.Err? ==> r.error.Timeout? || r.error.Cancelled? || r.error.LinkClosed? || r.error.PrinterError?
                         || r.error.NotSupported?
    {
      while inbox != []
        invariant Await(inbox, accept) == Await(old(inbox), accept)
        invariant trace == old(trace)
        decreases |inbox|
      {
        match inbox[0] {
          case Arrived(p) =>
            inbox := inbox[1..];
            if p.cmd == RESP_PRINT_ERROR {
              var code: byte := 0;
              if |p.data| > 0 {
                code := p.data[0];
              }
              return Err(PrinterError(code));
            } else if p.cmd == RESP_NOT_SUPPORTED {
              return Err(NotSupported);
            } else if p.cmd in accept {
              trace := trace + [Got(p)];
              return Ok(p);
            }
          case Expires =>
            inbox := inbox[1..];
            return Err(Timeout);
          case Cancels =>
            inbox := inbox[1..];
            return Err(Cancelled);
          case Closes =>
            return Err(LinkClosed);
        }
      }
      return Err(Timeout);
    }

    /** Writes one packet and waits for its reply. */
    method Exchange(p: Packet, accept: seq<byte>) returns (r: Result<Packet, ClientError>)
      modifies this
      ensures |inbox| <= |old(inbox)| && (r.Ok? ==> |inbox| < |old(inbox)|)
      ensures |p.data| > MAX_DATA ==> r == Err(FrameTooLong) && trace == old(trace)
      ensures |p.data| <= MAX_DATA && !env.writes(|old(trace)|).Written? ==>
        r.Err? && trace == old(trace) + [Sent(p, env.writes(|old(trace)|))]
      ensures |p.data| <= MAX_DATA && env.writes(|old(trace)|).Written? ==>
        && Await(old(inbox), accept) == Awaited(r, inbox)
        && trace == old(trace) + [Sent(p, Written)] + if r.Ok? then [Got(r.value)] else []
      ensures |p.data| <= MAX_DATA && Answers(env, old(inbox), accept) ==>
        r == Ok(old(inbox)[0].p) && inbox == old(inbox)[1..]
      ensures r.Err? ==> Blames(trace, r.error)
    {
      var e := Send(p);
      if e.Some? {
        return Err(e.value);
      }
      r := AwaitReply(accept);
    }

    method Request(cmd: byte, data: seq<byte>, accept: seq<byte>) returns (r: Result<Packet, ClientError>)
      modifies this
      ensures |inbox| <= |old(inbox)| && (r.Ok? ==> |inbox| < |old(inbox)|)
      ensures old(trace) <= trace
      ensures var t, s := trace[|old(trace)|..], Ask(Packet(cmd, data), accept);
              if r.Ok? then SlotDone(t, s) && t[1] == Got(r.value) else SlotFailed(t, s)
      ensures |data| <= MAX_DATA && env.writes(|old(trace)|).Written? ==>
        Await(Drained(old(inbox), env.early(|old(trace)|)), accept) == Awaited(r, inbox)
      ensures |data| <= MAX_DATA && !env.writes(|old(trace)|).Written? ==> r.Err? && |trace| == |old(trace)| + 1
      ensures |data| > MAX_DATA ==> r == Err(FrameTooLong) && trace == old(trace)
      ensures |data| <= MAX_DATA && Answers(env, old(inbox), accept) ==>
        r == Ok(old(inbox)[0].p) && inbox == old(inbox)[1..]
      ensures r.Err? ==> Blames(trace, r.error)
    {
      Drain();
      r := Exchange(Packet(cmd, data), accept);
    }

    /** Makes the next request of a script. */
    method AskNext(ghost start: Stand, ghost all: seq<Slot>, ghost i: nat, cmd: byte, data: seq<byte>,
                   accept: seq<byte>)
      returns (r: Option<ClientError>)
      requires i < |all| && all[i] == Ask(Packet(cmd, data), accept)
      requires Progress(env, start, Now(), all[..i], true)
      modifies this
      ensures |inbox| <= |old(inbox)|
      ensures Reached(env, start, Now(), all, i + 1, r)
      ensures r.Some? ==> Blames(trace, r.value)
      ensures r.None? ==>
        trace[|trace| - 1].Got?
        && FreshReply(env, old(inbox), |old(trace)|, accept, trace[|trace| - 1].p, inbox)
    {
      hide Answers, Progress, Served, SlotDone, SlotFailed;
      ghost var before := Now();
      var q := Request(cmd, data, accept);
      AskServed(env, before.inbox, inbox, all[i], q);
      ProgressOne(env, before, Now(), all[i], q.Ok?);
      TakesStep(env, start, before, Now(), all, i, q.Ok?);
      return if q.Ok? then None else Some(q.error);
    }

    method PrintInit(opts: PrintOptions, first: seq<byte>, ghost all: seq<Slot>) returns (r: Option<ClientError>)
      requires |all| >= 3 && all[..3] == InitSlots(DensityByte(opts.density), opts.labelType, first)
      modifies this
      ensures |inbox| <= |old(inbox)|
      ensures Reached(env, old(Now()), Now(), all, 3, r)
      ensures r.Some? ==> Blames(trace, r.value)
    {
      hide Progress;
      ghost var start := Now();
      NothingRan(env, start, all);
      assert all[0] == all[..3][0] && all[1] == all[..3][1] && all[2] == all[..3][2];
      r := AskNext(start, all, 0, CMD_SET_DENSITY, [DensityByte(opts.density)], [RESP_SET_DENSITY]);
      if r.Some? {
        return;
      }
      r := AskNext(start, all, 1, CMD_SET_LABEL_TYPE, [opts.labelType], [RESP_SET_LABEL_TYPE]);
      if r.Some? {
        return;
      }
      r := AskNext(start, all, 2, CMD_PRINT_START, first, [RESP_PRINT_START]);
    }

    /** Sends the next one-way packet of a script. */
    method TellNext(ghost start: Stand, ghost all: seq<Slot>, ghost i: nat, p: Packet) returns (r: Option<ClientError>)
      requires i < |all| && all[i] == Tell(p)
      requires Progress(env, start, Now(), all[..i], true)
      modifies this`trace
      ensures Reached(env, start, Now(), all, i + 1, r)
      ensures r.Some? ==> Blames(trace, r.value)
    {
      ghost var before := Now();
      r := Send(p);
      TellAttempted(before.trace, trace, p, r.None?);
      TellServed(env, inbox, p, r);
      ProgressOne(env, before, Now(), all[i], r.None?);
      TakesStep(env, start, before, Now(), all, i, r.None?);
    }

    /** Streams the one-way packets, then PageEnd, and waits for its acknowledgement. */
    method SendRows(rows: seq<Packet>, ghost start: Stand, ghost all: seq<Slot>, ghost i: nat)
      returns (r: Option<ClientError>)
      requires i + |rows| < |all| && all[i..i + |rows| + 1] == RowSlots(rows)
      requires Progress(env, start, Now(), all[..i], true)
      modifies this
      ensures |inbox| <= |old(inbox)|
      ensures Reached(env, start, Now(), all, i + |rows| + 1, r)
      ensures r.Some? ==> Blames(trace, r.value)
      ensures r.None? ==>
        trace[|trace| - 1].Got?
        && FreshReply(env, old(inbox), |old(trace)|, [RESP_PAGE_END], trace[|trace| - 1].p, inbox)
    {
      hide SlotDone, SlotFailed, Progress, Answers;
      Drain();
      CalmDrain(env, start, trace, old(inbox), inbox, all[..i]);
      for k := 0 to |rows|
        invariant inbox == Drained(old(inbox), env.early(|old(trace)|))
        invariant Progress(env, start, Now(), all[..i + k], true)
      {
        assert all[i + k] == all[i..i + |rows| + 1][k] == Tell(rows[k]);
        r := TellNext(start, all, i + k, rows[k]);
        if r.Some? {
          return;
        }
      }
      ghost var before, pageEnd := Now(), all[i + |rows|];
      assert pageEnd == all[i..i + |rows| + 1][|rows|];
      var reply := Exchange(Packet(CMD_PAGE_END, [1]), [RESP_PAGE_END]);
      AskAttempted(before.trace, trace, pageEnd, reply);
      AskServed(env, before.inbox, inbox, pageEnd, reply);
      ProgressOne(env, before, Now(), pageEnd, reply.Ok?);
      TakesStep(env, start, before, Now(), all, i + |rows|, reply.Ok?);
      return if reply.Ok? then None else Some(reply.error);
    }

    /** One PrintStatus exchange. */
    method Status() returns (r: Result<PrintStatus, ClientError>)
      modifies this
      ensures |inbox| <= |old(inbox)| && (r.Ok? ==> |inbox| < |old(inbox)|)
      ensures old(trace) <= trace
      ensures var t, s := trace[|old(trace)|..], Ask(STATUS_PACKET, [RESP_PRINT_STATUS]);
              && (r.Ok? ==> SlotDone(t, s) && ParseStatus(t[1].p.data) == r)
              && (r.Err? ==> SlotFailed(t, s) || (SlotDone(t, s) && ParseStatus(t[1].p.data).Err?))
      ensures Answers(env, old(inbox), [RESP_PRINT_STATUS]) ==>
        r == ParseStatus(old(inbox)[0].p.data) && inbox == old(inbox)[1..]
      ensures |old(trace)| < |trace| <= |old(trace)| + 2 && (|trace| == |old(trace)| + 2 ==> trace[|old(trace)|].Sent?)
      ensures trace[|trace| - 1].Got? ==> |trace| == |old(trace)| + 2 && trace[|trace| - 1].p.cmd == 0xB3
      ensures trace[|trace| - 1].Got? ==>
        var d := trace[|trace| - 1].p.data;
        && (|d| < 4 ==> r == Err(ShortStatus))
        && (|d| >= 4 ==> r.Ok? && r.value.page == 0x100 * d[0] as nat + d[1] as nat
                         && r.value.printProgress == d[2] && r.value.feedProgress == d[3]
                         && r.value.error == if |d| >= 7 then d[6] else 0)
      ensures r.Ok? ==> |trace| == |old(trace)| + 2 && trace[|trace| - 1].Got?
      ensures r.Err? ==> Blames(trace, r.error)
      ensures r.Ok? ==>
        trace[|trace| - 1].Got?
        && FreshReply(env, old(inbox), |old(trace)|, [RESP_PRINT_STATUS], trace[|trace| - 1].p, inbox)
    {
      hide Answers;
      var q := Request(CMD_PRINT_STATUS, [1], [RESP_PRINT_STATUS]);
      if q.Err? {
        return Err(q.error);
      }
      var d := q.value.data;
      if |d| < 4 {
        return Err(ShortStatus);
      }
      var st := PrintStatus(ReadU16(d), d[2], d[3], 0);
      if |d| >= 7 {
        st := st.(error := d[6]);
      }
      return Ok(st);
    }

    /** One PrintEnd exchange; the printer's boolean reply. */
    method End() returns (r: Result<bool, ClientError>)
      modifies this
      ensures |inbox| <= |old(inbox)| && (r.Ok? ==> |inbox| < |old(inbox)|)
      ensures old(trace) <= trace
      ensures var t := trace[|old(trace)|..];
              if r.Ok? then SlotDone(t, END_SLOT) && r.value == EndConfirmed(t[1].p) else SlotFailed(t, END_SLOT)
      ensures r.Ok? ==> trace[|trace| - 1].Got? && trace[|trace| - 1].p.cmd == 0xF4
      ensures r.Ok? ==> var d := trace[|trace| - 1].p.data; r.value <==> d != [] && d[0] != 0
      ensures Answers(env, old(inbox), [RESP_PRINT_END]) ==>
        r == Ok(EndConfirmed(old(inbox)[0].p)) && inbox == old(inbox)[1..]
      ensures r.Err? ==> Blames(trace, r.error)
      ensures r.Ok? ==>
        trace[|trace| - 1].Got?
        && FreshReply(env, old(inbox), |old(trace)|, [RESP_PRINT_END], trace[|trace| - 1].p, inbox)
    {
      hide Answers;
      var q := Request(CMD_PRINT_END, [1], [RESP_PRINT_END]);
      if q.Err? {
        return Err(q.error);
      }
      return Ok(|q.value.data| > 0 && q.value.data[0] != 0);
    }

    /** Polls PrintStatus until enough pages are done. */
    method WaitByStatus(want: nat) returns (r: Option<ClientError>)
      modifies this
      ensures |inbox| <= |old(inbox)| && old(trace) <= trace
      ensures var t := trace[|old(trace)|..];
              if r.None? then PolledDone(t, StatusPoll(want)) else PolledFailed(t, StatusPoll(want))
      ensures Answers(env, old(inbox), [RESP_PRINT_STATUS]) && StatusDone(old(inbox)[0].p, want) ==>
        r.None? && inbox == old(inbox)[1..]
      ensures forall i :: |old(trace)| <= i < |trace| - 1 && trace[i].Got? ==> Verdict(trace[i].p.data, want).None?
      ensures |trace| > |old(trace)| && trace[|trace| - 1].Got? ==>
        var v := Verdict(trace[|trace| - 1].p.data, want); r == if v.Some? then v.value else Some(Cancelled)
      ensures r.None? ==> |trace| > |old(trace)| && trace[|trace| - 1].Got?
      ensures r.Some? ==> Blames(trace, r.value)
    {
      hide SlotDone, SlotFailed, ParseStatus, Calm, Judge, PolledPending, PolledDone, PolledFailed;
      NoPollsYet(StatusPoll(want));
      assert trace[|trace|..] == [];
      ghost var poll := StatusPoll(want);
      while true
        invariant |inbox| <= |old(inbox)| && old(trace) <= trace
        invariant PolledPending(trace[|old(trace)|..], poll)
        invariant Answers(env, old(inbox), [RESP_PRINT_STATUS]) && StatusDone(old(inbox)[0].p, want)
          ==> inbox == old(inbox)
        invariant forall i :: |old(trace)| <= i < |trace| && trace[i].Got? ==> Verdict(trace[i].p.data, want).None?
        decreases |inbox|
      {
        ghost var sofar := trace[|old(trace)|..];
        ghost var before := trace;
        var st := Status();
        ghost var last := trace[|before|..];
        assert trace[|old(trace)|..] == sofar + last;
        FailedStatus(last, poll, st);
        PollsJoin(sofar, last, poll);
        if st.Err? {
          return Some(st.error);
        }
        if st.value.error != 0 {
          return Some(PrinterError(st.value.error));
        }
        if st.value.page >= want {
          return None;
        }
        if env.interrupts(|trace|) {
          return Some(Cancelled);
        }
      }
    }

    /** Polls PrintEnd until it answers true. */
    method WaitByEnd() returns (r: Option<ClientError>)
      modifies this
      ensures |inbox| <= |old(inbox)| && old(trace) <= trace
      ensures var t := trace[|old(trace)|..];
              if r.None? then PolledDone(t, EndPoll) else PolledFailed(t, EndPoll)
      ensures Answers(env, old(inbox), [RESP_PRINT_END]) && EndConfirmed(old(inbox)[0].p) ==> r.None?
      ensures r.Some? ==> Blames(trace, r.value)
    {
      hide SlotDone, SlotFailed, Calm, Judge;
      while true
        invariant |inbox| <= |old(inbox)| && old(trace) <= trace
        invariant PolledPending(trace[|old(trace)|..], EndPoll)
        invariant Answers(env, old(inbox), [RESP_PRINT_END]) && EndConfirmed(old(inbox)[0].p) ==> inbox == old(inbox)
        decreases |inbox|
      {
        ghost var sofar := trace[|old(trace)|..];
        ghost var before := trace;
        var done := End();
        ghost var last := trace[|before|..];
        assert trace[|old(trace)|..] == sofar + last;
        OneExchange(last, EndPoll);
        PollsJoin(sofar, last, EndPoll);
        if done.Err? {
          return Some(done.error);
        }
        if done.value {
          return None;
        }
        if env.interrupts(|trace|) {
          return Some(Cancelled);
        }
      }
    }

    /** Status polling and the final PrintEnd, shared by the B1 and D110 tasks. */
    method FinishByStatus(ghost begin: Stand, ghost main: seq<Slot>, copies: nat) returns (r: Option<ClientError>)
      requires Progress(env, begin, Now(), main, true)
      modifies this
      ensures begin.trace <= trace && Ended(trace[|begin.trace|..], main, StatusPoll(copies), r)
      ensures ServedToEnd(env, begin.inbox, main, StatusPoll(copies), r)
      ensures r.Some? ==> Blames(trace, r.value)
    {
      hide Conforms, SlotDone, SlotFailed, PolledDone, PolledFailed, Served, ServedToEnd, Answers, StatusDone,
          EndConfirmed;
      ghost var start, mid, left := begin.trace, trace, inbox;
      r := WaitByStatus(copies);
      ghost var polled := trace;
      if r.Some? {
        assert trace[|start|..] == mid[|start|..] + trace[|mid|..];
        EndedByPoll(mid[|start|..], trace[|mid|..], main, StatusPoll(copies), r);
        CompletionAnswers(env, begin.inbox, left, main, copies, r);
        return;
      }
      var done := End();
      r := if done.Ok? then None else Some(done.error);
      assert trace[|start|..] == mid[|start|..] + polled[|mid|..] + trace[|polled|..];
      EndedByEnd(mid[|start|..], polled[|mid|..], trace[|polled|..], main, StatusPoll(copies), r);
      CompletionAnswers(env, begin.inbox, left, main, copies, r);
    }

    method PrintB1(enc: EncodedImage, opts: PrintOptions) returns (r: Option<ClientError>)
      requires opts.copies >= 1
      modifies this
      ensures old(trace) <= trace
      ensures Ended(trace[|old(trace)|..],
                    MainSlots(TaskB1, enc, DensityByte(opts.density), opts.labelType, opts.copies, model.headPixels),
                    StatusPoll(opts.copies), r)
      ensures ServedToEnd(env, old(inbox),
                          MainSlots(TaskB1, enc, DensityByte(opts.density), opts.labelType, opts.copies,
                                    model.headPixels),
                          StatusPoll(opts.copies), r)
      ensures r.Some? ==> Blames(trace, r.value)
    {
      hide Progress, Ended, ServedToEnd, PacketsFrom, FreshReply, Blames;
      ghost var start := Now();
      ghost var all := MainSlots(TaskB1, enc, DensityByte(opts.density), opts.labelType, opts.copies, model.headPixels);
      r := PrintInit(opts, U16(opts.copies) + [0, 0, 0, 0, 0], all);
      if r.Some? {
        EndedEarly(env, start, Now(), all, StatusPoll(opts.copies), r);
        return;
      }
      r := AskNext(start, all, 3, CMD_PAGE_START, [1], [RESP_PAGE_START]);
      if r.Some? {
        EndedEarly(env, start, Now(), all, StatusPoll(opts.copies), r);
        return;
      }
      var size := U16(enc.rows) + U16(enc.cols) + U16(opts.copies);
      r := AskNext(start, all, 4, CMD_SET_PAGE_SIZE, size, [RESP_SET_PAGE_SIZE]);
      if r.Some? {
        EndedEarly(env, start, Now(), all, StatusPoll(opts.copies), r);
        return;
      }
      var rows := RowPackets(enc, model.headPixels, CountSplit, false);
      r := SendRows(rows, start, all, 5);
      if r.Some? {
        EndedEarly(env, start, Now(), all, StatusPoll(opts.copies), r);
        return;
      }
      assert all[..|all|] == all;
      r := FinishByStatus(start, all, opts.copies);
    }

    method PrintD110(enc: EncodedImage, opts: PrintOptions) returns (r: Option<ClientError>)
      requires opts.copies >= 1
      modifies this
      ensures old(trace) <= trace
      ensures Ended(trace[|old(trace)|..],
                    MainSlots(TaskD110, enc, DensityByte(opts.density), opts.labelType, opts.copies, model.headPixels),
                    StatusPoll(opts.copies), r)
      ensures ServedToEnd(env, old(inbox),
                          MainSlots(TaskD110, enc, DensityByte(opts.density), opts.labelType, opts.copies,
                                    model.headPixels),
                          StatusPoll(opts.copies), r)
      ensures r.Some? ==> Blames(trace, r.value)
    {
      hide Progress, Ended, ServedToEnd, PacketsFrom, FreshReply, Blames;
      ghost var start := Now();
      ghost var all := MainSlots(TaskD110, enc, DensityByte(opts.density), opts.labelType, opts.copies,
                                 model.headPixels);
      r := PrintInit(opts, [1], all);
      if r.Some? {
        EndedEarly(env, start, Now(), all, StatusPoll(opts.copies), r);
        return;
      }
      r := AskNext(start, all, 3, CMD_PRINT_CLEAR, [1], [RESP_PRINT_CLEAR]);
      if r.Some? {
        EndedEarly(env, start, Now(), all, StatusPoll(opts.copies), r);
        return;
      }
      r := AskNext(start, all, 4, CMD_PAGE_START, [1], [RESP_PAGE_START]);
      if r.Some? {
        EndedEarly(env, start, Now(), all, StatusPoll(opts.copies), r);
        return;
      }
      r := AskNext(start, all, 5, CMD_SET_PAGE_SIZE, U16(enc.rows) + U16(enc.cols), [RESP_SET_PAGE_SIZE]);
      if r.Some? {
        EndedEarly(env, start, Now(), all, StatusPoll(opts.copies), r);
        return;
      }
      r := AskNext(start, all, 6, CMD_PRINT_QUANTITY, U16(opts.copies), [RESP_PRINT_QUANTITY]);
      if r.Some? {
        EndedEarly(env, start, Now(), all, StatusPoll(opts.copies), r);
        return;
      }
      var rows := RowPackets(enc, model.headPixels, CountSplit, false);
      r := SendRows(rows, start, all, 7);
      if r.Some? {
        EndedEarly(env, start, Now(), all, StatusPoll(opts.copies), r);
        return;
      }
      assert all[..|all|] == all;
      r := FinishByStatus(start, all, opts.copies);
    }

    /** One page of the legacy B21 task. */
    method SendPage(enc: EncodedImage, rows: seq<Packet>) returns (r: Option<ClientError>)
      modifies this
      ensures |inbox| <= |old(inbox)|
      ensures Progress(env, old(Now()), Now(), PageSlots(enc, rows), r.None?)
      ensures r.Some? ==> Blames(trace, r.value)
    {
      hide Progress;
      ghost var start, all := Now(), PageSlots(enc, rows);
      NothingRan(env, start, all);
      r := AskNext(start, all, 0, CMD_PAGE_START, [1], [RESP_PAGE_START]);
      if r.Some? {
        return;
      }
      r := AskNext(start, all, 1, CMD_SET_PAGE_SIZE, U16(enc.rows) + U16(enc.cols), [RESP_SET_PAGE_SIZE]);
      if r.Some? {
        return;
      }
      r := SendRows(rows, start, all, 2);
      assert all[..|all|] == all;
    }

    method PrintB21V1(enc: EncodedImage, opts: PrintOptions) returns (r: Option<ClientError>)
      requires opts.copies >= 1
      modifies this
      ensures old(trace) <= trace
      ensures Ended(trace[|old(trace)|..],
                    MainSlots(TaskB21V1, enc, DensityByte(opts.density), opts.labelType, opts.copies, model.headPixels),
                    EndPoll, r)
      ensures ServedToEnd(env, old(inbox),
                          MainSlots(TaskB21V1, enc, DensityByte(opts.density), opts.labelType, opts.copies,
                                    model.headPixels),
                          EndPoll, r)
      ensures r.Some? ==> Blames(trace, r.value)
    {
      hide Progress, Ended, ServedToEnd, Conforms, PacketsFrom, PageSlots, PolledDone, PolledFailed, Answers,
          EndConfirmed, FreshReply, Blames;
      ghost var start := Now();
      ghost var init := InitSlots(DensityByte(opts.density), opts.labelType, [1]);
      ghost var all := MainSlots(TaskB21V1, enc, DensityByte(opts.density), opts.labelType, opts.copies,
                                 model.headPixels);
      r := PrintInit(opts, [1], all);
      if r.Some? {
        EndedEarly(env, start, Now(), all, EndPoll, r);
        return;
      }
      var rows := RowPackets(enc, model.headPixels, CountTotal, true);
      assert all[..3] == init + Pages(enc, rows, 0);
      for i := 0 to opts.copies
        invariant Progress(env, start, Now(), init + Pages(enc, rows, i), true)
      {
        ghost var before := Now();
        r := SendPage(enc, rows);
        ProgressJoins(env, start, before, Now(), init + Pages(enc, rows, i), PageSlots(enc, rows), r.None?);
        Assoc(init, Pages(enc, rows, i), PageSlots(enc, rows));
        if r.Some? {
          PagesAreAPrefix(enc, rows, i + 1, opts.copies);
          assert init + Pages(enc, rows, i + 1) <= all;
          StallsInLonger(env, start, Now(), init + Pages(enc, rows, i + 1), all);
          EndedEarly(env, start, Now(), all, EndPoll, r);
          return;
        }
      }
      ghost var mid := Now();
      r := WaitByEnd();
      TraceSplits(env, start, mid, trace, all);
      EndedByPoll(mid.trace[|start.trace|..], trace[|mid.trace|..], all, EndPoll, r);
      EndAnswers(env, start.inbox, mid.inbox, all, r);
    }

    method CancelPrint() returns (r: Option<ClientError>)
      modifies this
      ensures old(trace) <= trace
      ensures Attempted(trace[|old(trace)|..], Ask(CANCEL_PACKET, [RESP_CANCEL_PRINT]))
      ensures |trace| > |old(trace)|
    {
      var q := Request(CMD_CANCEL_PRINT, [1], [RESP_CANCEL_PRINT]);
      return if q.Ok? then None else Some(q.error);
    }

    /** The print sequence of the model's firmware generation. */
    method RunTask(enc: EncodedImage, opts: PrintOptions) returns (r: Option<ClientError>)
      requires opts.copies >= 1
      modifies this
      ensures old(trace) <= trace
      ensures var main := MainSlots(model.task, enc, DensityByte(opts.density), opts.labelType, opts.copies,
                                    model.headPixels);
              var poll := if model.task.TaskB21V1? then EndPoll else StatusPoll(opts.copies);
              Ended(trace[|old(trace)|..], main, poll, r) && ServedToEnd(env, old(inbox), main, poll, r)
      ensures r.Some? ==> Blames(trace, r.value)
    {
      hide Ended, ServedToEnd, MainSlots;
      match model.task {
        case TaskB21V1 => r := PrintB21V1(enc, opts);
        case TaskD110 => r := PrintD110(enc, opts);
        case TaskB1 => r := PrintB1(enc, opts);
      }
    }

    /** Fills in the defaults and clamps the density to the model's range. */
    method Normalise(opts: PrintOptions) returns (o: PrintOptions)
      ensures o == Effective(model, opts)
    {
      o := opts;
      if o.copies < 1 {
        o := o.(copies := 1);
      }
      if o.density == 0 {
        o := o.(density := model.densityDefault);
      }
      var capped := if model.densityMax < o.density then model.densityMax else o.density;
      o := o.(density := if model.densityMin > capped then model.densityMin else capped);
      if o.labelType == 0 {
        o := o.(labelType := 1);
      }
    }

    /** Validates, runs the model's task, and on failure resets the printer. */
    method Print(enc: EncodedImage, opts: PrintOptions) returns (r: Option<ClientError>)
      modifies this
      ensures Rejects(model, enc).Some? ==> r == Rejects(model, enc) && trace == old(trace) && inbox == old(inbox)
      ensures old(trace) <= trace
      ensures Rejects(model, enc).None? ==>
        var o := Effective(model, opts);
        var main := MainSlots(model.task, enc, DensityByte(o.density), o.labelType, o.copies, model.headPixels);
        var poll := if model.task.TaskB21V1? then EndPoll else StatusPoll(o.copies);
        var t := trace[|old(trace)|..];
        && ServedToEnd(env, old(inbox), main, poll, r)
        && if r.None? then Succeeded(t, main, poll)
           else exists i: nat :: i <= |t| && BrokeOff(t[..i], main, poll) && ResetTail(t[i..])
                                 && Blames(old(trace) + t[..i], r.value)
    {
      hide ServedToEnd, Succeeded, BrokeOff, MainSlots, Attempted, SlotDone, SlotFailed, ResetTail, DensityByte;
      if enc.cols > model.headPixels {
        return Some(TooWide);
      }
      if enc.rows < 1 || enc.rows > 0xFFFF {
        return Some(BadRowCount);
      }
      var o := Normalise(opts);
      r := RunTask(enc, o);
      if r.Some? {
        ghost var broke := trace;
        Reset();
        BreakThenReset(old(trace), broke, trace);
      }
    }

    /** Tries to bring the printer back to idle; a failing request here is ignored. */
    method Reset()
      modifies this
      ensures old(trace) <= trace && ResetTail(trace[|old(trace)|..])
    {
      hide SlotDone;
      var ended := End();
      ghost var mid := trace;
      var cancelled := CancelPrint();
      EndFrameFits(mid[|old(trace)|..]);
      ResetDone(old(trace), mid, trace);
    }
  }

  // ---- Steps towards a script ----

  /** Either the first n slots of the script are done, or the script stalled. */
  ghost predicate Reached(env: Env, start: Stand, now: Stand, all: seq<Slot>, n: nat, r: Option<ClientError>) {
    n <= |all| && if r.None? then Progress(env, start, now, all[..n], true) else Progress(env, start, now, all, false)
  }

  lemma NothingRan(env: Env, start: Stand, all: seq<Slot>)
    ensures Progress(env, start, start, all[..0], true)
  {
  }

  lemma StallsInLonger(env: Env, start: Stand, now: Stand, s: seq<Slot>, all: seq<Slot>)
    requires Progress(env, start, now, s, false) && s <= all
    ensures Progress(env, start, now, all, false)
  {
    hide Stalled, Served;
    StallsEarly(now.trace[|start.trace|..], s, all[|s|..]);
    ServedLonger(env, start.inbox, now.inbox, s, all[|s|..]);
    assert all == s + all[|s|..];
  }

  lemma TakesStep(env: Env, start: Stand, before: Stand, now: Stand, all: seq<Slot>, i: nat, ok: bool)
    requires i < |all| && Progress(env, start, before, all[..i], true) && Progress(env, before, now, [all[i]], ok)
    ensures if ok then Progress(env, start, now, all[..i + 1], true) else Progress(env, start, now, all, false)
  {
    hide Progress;
    ProgressJoins(env, start, before, now, all[..i], [all[i]], ok);
    assert all[..i] + [all[i]] == all[..i + 1];
    if !ok {
      StallsInLonger(env, start, now, all[..i + 1], all);
    }
  }

  lemma ProgressOne(env: Env, a: Stand, b: Stand, s: Slot, ok: bool)
    requires a.trace <= b.trace && if ok then SlotDone(b.trace[|a.trace|..], s) else SlotFailed(b.trace[|a.trace|..], s)
    requires Served(env, a.inbox, b.inbox, [s], ok)
    ensures Progress(env, a, b, [s], ok)
  {
    hide SlotDone, SlotFailed, Served;
    AdvancedOne(a.trace, b.trace, s, ok);
  }

  lemma OneConfirmation(s: Slot)
    ensures Confirmations([s]) == if s.Ask? && s.accept != [] then [Arrived(Packet(s.accept[0], [1]))] else []
    ensures AllAnswerable([s]) ==> Answerable(s)
  {
    assert [s][1..] == [];
    assert [s][0] == s;
  }

  lemma AskServed(env: Env, before: seq<Inbound>, after: seq<Inbound>, s: Slot, reply: Result<Packet, ClientError>)
    requires s.Ask?
    requires |s.p.data| <= MAX_DATA && Answers(env, before, s.accept)
      ==> reply == Ok(before[0].p) && after == before[1..]
    ensures Served(env, before, after, [s], reply.Ok?)
  {
    hide Calm;
    OneConfirmation(s);
    if AllAnswerable([s]) && Confirmations([s]) <= before {
      assert before[0] == Confirmations([s])[0];
    }
  }

  lemma TellServed(env: Env, inbox: seq<Inbound>, p: Packet, r: Option<ClientError>)
    requires |p.data| <= MAX_DATA && Calm(env) ==> r.None?
    ensures Served(env, inbox, inbox, [Tell(p)], r.None?)
  {
    OneConfirmation(Tell(p));
  }

  lemma CalmDrain(env: Env, start: Stand, trace: seq<Entry>, before: seq<Inbound>, after: seq<Inbound>,
                  slots: seq<Slot>)
    requires Progress(env, start, Stand(trace, before), slots, true)
    requires after == Drained(before, env.early(|trace|))
    ensures Progress(env, start, Stand(trace, after), slots, true)
  {
  }

  /** A calm link that confirmed the script next reports the print complete. */
  lemma CompletionAnswers(env: Env, before: seq<Inbound>, left: seq<Inbound>, main: seq<Slot>, copies: nat,
                          r: Option<ClientError>)
    requires Served(env, before, left, main, true)
    requires Answers(env, left, [RESP_PRINT_STATUS]) && StatusDone(left[0].p, copies)
      && Answers(env, left[1..], [RESP_PRINT_END])
      ==> r.None?
    ensures ServedToEnd(env, before, main, StatusPoll(copies), r)
  {
  }

  lemma EndAnswers(env: Env, before: seq<Inbound>, left: seq<Inbound>, main: seq<Slot>, r: Option<ClientError>)
    requires Served(env, before, left, main, true)
    requires Answers(env, left, [RESP_PRINT_END]) && EndConfirmed(left[0].p) ==> r.None?
    ensures ServedToEnd(env, before, main, EndPoll, r)
  {
  }

  lemma TellAttempted(a: seq<Entry>, b: seq<Entry>, p: Packet, ok: bool)
    requires if |p.data| > MAX_DATA then b == a && !ok
             else |b| == |a| + 1 && b[..|a|] == a && b[|a|].Sent? && b[|a|].p == p && (ok <==> b[|a|].outcome.Written?)
    ensures a <= b && if ok then SlotDone(b[|a|..], Tell(p)) else SlotFailed(b[|a|..], Tell(p))
  {
    if |p.data| <= MAX_DATA {
      assert b[|a|..] == [b[|a|]];
    }
  }

  lemma AskAttempted(a: seq<Entry>, b: seq<Entry>, s: Slot, reply: Result<Packet, ClientError>)
    requires s.Ask? && |s.p.data| <= MAX_DATA
    requires if reply.Ok? then b == a + [Sent(s.p, Written), Got(reply.value)] && reply.value.cmd in s.accept
             else |b| == |a| + 1 && b[..|a|] == a && b[|a|].Sent? && b[|a|].p == s.p
    ensures a <= b && if reply.Ok? then SlotDone(b[|a|..], s) else SlotFailed(b[|a|..], s)
  {
  }

  lemma {:induction false} PagesAreAPrefix(enc: EncodedImage, rows: seq<Packet>, k: nat, copies: nat)
    requires k <= copies
    ensures Pages(enc, rows, k) <= Pages(enc, rows, copies)
    decreases copies - k
  {
    if k < copies {
      PagesAreAPrefix(enc, rows, k + 1, copies);
    }
  }

  lemma TraceSplits(env: Env, start: Stand, mid: Stand, now: seq<Entry>, main: seq<Slot>)
    requires Progress(env, start, mid, main, true) && mid.trace <= now
    ensures start.trace <= now && Conforms(mid.trace[|start.trace|..], main)
    ensures Served(env, start.inbox, mid.inbox, main, true)
    ensures now[|start.trace|..] == mid.trace[|start.trace|..] + now[|mid.trace|..]
  {
  }

  // ---- Polls ----

  /** Polls all answered "not yet". */
  ghost predicate PolledPending(t: seq<Entry>, poll: Poll)
    decreases |t|
  {
    t == [] || (|t| >= 2 && SlotDone(t[..2], poll.Slot()) && poll.Pending(t[1].p) && PolledPending(t[2..], poll))
  }

  lemma NoPollsYet(poll: Poll)
    ensures PolledPending([], poll)
  {
  }

  /** What one more exchange makes of a poll: done, to be repeated, or failed. */
  lemma OneExchange(last: seq<Entry>, poll: Poll)
    requires SlotFailed(last, poll.Slot()) || SlotDone(last, poll.Slot())
    ensures SlotFailed(last, poll.Slot()) ==> PolledFailed(last, poll)
    ensures SlotDone(last, poll.Slot()) ==> |last| == 2 && last[1].Got?
    ensures SlotDone(last, poll.Slot()) && poll.Done(last[1].p) ==> PolledDone(last, poll)
    ensures SlotDone(last, poll.Slot()) && !poll.Done(last[1].p) ==> PolledFailed(last, poll)
    ensures SlotDone(last, poll.Slot()) && poll.Pending(last[1].p) ==> PolledPending(last, poll)
  {
    if SlotDone(last, poll.Slot()) {
      assert last[..2] == last && last[2..] == [];
    }
  }

  lemma FailedStatus(last: seq<Entry>, poll: Poll, st: Result<PrintStatus, ClientError>)
    requires poll.StatusPoll?
    requires st.Ok? ==> SlotDone(last, poll.Slot()) && ParseStatus(last[1].p.data) == st
    requires st.Err? ==> SlotFailed(last, poll.Slot())
                         || (SlotDone(last, poll.Slot()) && ParseStatus(last[1].p.data).Err?)
    ensures st.Err? || st.value.error != 0 || st.value.page < poll.copies ==> PolledFailed(last, poll)
    ensures st.Ok? && st.value.error == 0 && st.value.page >= poll.copies ==> PolledDone(last, poll)
    ensures st.Ok? && st.value.error == 0 && st.value.page < poll.copies ==> PolledPending(last, poll)
  {
    hide SlotFailed, ParseStatus;
    OneExchange(last, poll);
  }

  lemma {:induction false} PollsJoin(a: seq<Entry>, b: seq<Entry>, poll: Poll)
    requires PolledPending(a, poll)
    ensures PolledDone(b, poll) ==> PolledDone(a + b, poll)
    ensures PolledPending(b, poll) ==> PolledPending(a + b, poll)
    ensures PolledFailed(b, poll) ==> PolledFailed(a + b, poll)
    decreases |a|
  {
    hide SlotDone, SlotFailed;
    if a == [] {
      assert a + b == b;
    } else {
      assert (a + b)[..2] == a[..2] && (a + b)[2..] == a[2..] + b && (a + b)[1] == a[1];
      PollsJoin(a[2..], b, poll);
    }
  }

  // ---- Ends of a task ----

  ghost predicate Ended(t: seq<Entry>, main: seq<Slot>, poll: Poll, r: Option<ClientError>) {
    if r.None? then Succeeded(t, main, poll) else BrokeOff(t, main, poll)
  }

  lemma EndedEarly(env: Env, start: Stand, now: Stand, main: seq<Slot>, poll: Poll, r: Option<ClientError>)
    requires Progress(env, start, now, main, false) && r.Some?
    ensures start.trace <= now.trace && Ended(now.trace[|start.trace|..], main, poll, r)
    ensures ServedToEnd(env, start.inbox, main, poll, r)
  {
  }

  lemma EndedByPoll(a: seq<Entry>, b: seq<Entry>, main: seq<Slot>, poll: Poll, r: Option<ClientError>)
    requires Conforms(a, main)
    requires if r.None? then poll.EndPoll? && PolledDone(b, poll) else PolledFailed(b, poll)
    ensures Ended(a + b, main, poll, r)
  {
    hide Conforms, PolledDone, PolledFailed;
    var t, i := a + b, |a|;
    assert t[..i] == a && t[i..] == b && t[i..|t|] == b;
  }

  lemma EndedByEnd(a: seq<Entry>, b: seq<Entry>, c: seq<Entry>, main: seq<Slot>, poll: Poll, r: Option<ClientError>)
    requires Conforms(a, main) && PolledDone(b, poll) && poll.StatusPoll?
    requires if r.None? then SlotDone(c, END_SLOT) else SlotFailed(c, END_SLOT)
    ensures Ended(a + b + c, main, poll, r)
  {
    hide Conforms, PolledDone, PolledFailed, SlotDone, SlotFailed;
    var t, i, k := a + b + c, |a|, |a| + |b|;
    assert t[..i] == a && t[i..k] == b && t[k..] == c;
  }

  lemma EndFrameFits(t: seq<Entry>)
    requires Attempted(t, END_SLOT)
    ensures |t| >= 1
  {
  }

  lemma ResetDone(broke: seq<Entry>, reset: seq<Entry>, now: seq<Entry>)
    requires broke <= reset <= now
    requires Attempted(reset[|broke|..], END_SLOT)
    requires Attempted(now[|reset|..], Ask(CANCEL_PACKET, [RESP_CANCEL_PRINT]))
    requires |broke| < |reset| < |now|
    ensures ResetTail(now[|broke|..])
  {
    var t, i := now[|broke|..], |reset| - |broke|;
    assert t[..i] == reset[|broke|..] && t[i..] == now[|reset|..];
  }

  lemma BreakThenReset(start: seq<Entry>, broke: seq<Entry>, now: seq<Entry>)
    requires start <= broke <= now
    ensures start <= now
    ensures var t, i := now[|start|..], |broke| - |start|;
            i <= |t| && t[..i] == broke[|start|..] && t[i..] == now[|broke|..] && start + t[..i] == broke
  {
  }
}
