/**
 * The print queue as an interleaved step relation: Submit and Close of internal/queue/queue.go, and
 * submit, run and process of internal/queue/worker.go. Every action is one atomic step of one goroutine.
 */
module PrintQueue {
  import opened Bytes
  import opened JobState
  import opened Dedup
  import opened PrintWorker

  const CHANNEL_CAPACITY: nat := 64

  /** A job that `caller` submitted and that passed Submit's check at time `at`, when `known` dedup records existed. */
  datatype Admission = Admission(caller: nat, job: Job, at: int, known: nat)

  /** How far the worker has come with its current job. */
  datatype Stage =
    | Announcing(reports: nat)
    | Copying(copies: nat)
    | Failing(copies: nat, error: DriverError)
    | Recording(outcome: Outcome)

  datatype Hand = Idle | Holding(adm: Admission, stage: Stage)

  datatype Finished = Finished(adm: Admission, outcome: Outcome)

  /** One printer's worker. `sent`, `done` and `log` are its history: jobs put on its channel, jobs finished, events. */
  datatype Lane = Lane(
    channel: seq<Admission>, busy: Hand, stopped: bool, exited: bool,
    sent: seq<Admission>, done: seq<Finished>, log: seq<Event>)

  const NEW_LANE := Lane([], Idle, false, false, [], [], [])

  /** What Submit returned; for an accepted job, the history remembers which admission it was. */
  datatype Answer = Accepted(adm: Admission) | Duplicate | Rejected

  /** A Submit call between its steps. */
  datatype Submitter = Checked(adm: Admission) | Routed(adm: Admission)

  /** The Close call that found the queue open: not made, waiting for the workers, returned. */
  datatype Closing = Open | Draining | Closed

  /** `dropped`, `records` and `forgotten` are history: callers whose job met a stopped worker, and the dedup log. */
  datatype Queue = Queue(
    lanes: map<string, Lane>, submitters: map<nat, Submitter>, answers: map<nat, Answer>, dropped: set<nat>,
    closing: Closing, retention: int, clock: int, seen: Seen, records: seq<Entry>, forgotten: int)

  /** One step of a worker goroutine; the dedup record is an action of its own. */
  datatype LaneStep = Take | Exit | Announce | PrintOk | PrintFailed(error: DriverError) | Finish

  datatype Action =
    | Check(caller: nat, job: Job)        // Submit: validate and look up the dedup store
    | Route(caller: nat)                  // Submit: find or create the worker, under the lock
    | Send(caller: nat)                   // worker.submit: the channel had room
    | Drop(caller: nat)                   // worker.submit: the worker was stopped
    | Work(printer: string, step: LaneStep)
    | Record(printer: string)             // process: record the finished job
    | Close                               // Close: the first call stops every worker, a later one returns at once
    | CloseReturns                        // the first Close call: every worker has exited
    | Tick(elapsed: nat)

  function NextEvent(j: Job, reports: nat): Event
    requires reports < 3
  {
    Announcements(j.id)[reports]
  }

  function LaneApply(l: Lane, step: LaneStep): Option<Lane> {
    match step
    case Take =>
      if l.busy.Idle? && !l.exited && l.channel != []
      then Some(l.(channel := l.channel[1..], busy := Holding(l.channel[0], Announcing(0)))) else None
    case Exit =>
      if l.busy.Idle? && l.stopped && !l.exited then Some(l.(exited := true)) else None
    case Announce =>
      if l.busy.Holding? && l.busy.stage.Announcing? && l.busy.stage.reports < 3 then
        var n := l.busy.stage.reports;
        Some(l.(busy := Holding(l.busy.adm, if n == 2 then Copying(0) else Announcing(n + 1)),
                log := l.log + [NextEvent(l.busy.adm.job, n)]))
      else None
    case PrintOk =>
      if l.busy.Holding? && l.busy.stage.Copying? && l.busy.stage.copies < l.busy.adm.job.copies then
        Some(l.(busy := Holding(l.busy.adm, Copying(l.busy.stage.copies + 1)),
                log := l.log + [Print(l.busy.adm.job.id, true)]))
      else None
    case PrintFailed(e) =>
      if l.busy.Holding? && l.busy.stage.Copying? && l.busy.stage.copies < l.busy.adm.job.copies then
        Some(l.(busy := Holding(l.busy.adm, Failing(l.busy.stage.copies, e)),
                log := l.log + [Print(l.busy.adm.job.id, false)]))
      else None
    case Finish =>
      if l.busy.Holding? && l.busy.stage.Copying? && l.busy.stage.copies >= l.busy.adm.job.copies then
        Some(l.(busy := Holding(l.busy.adm, Recording(Printed)),
                log := l.log + [Report(l.busy.adm.job.id, Printing, Completed, "")]))
      else if l.busy.Holding? && l.busy.stage.Failing? then
        Some(l.(busy := Holding(l.busy.adm, Recording(Broke(l.busy.stage.copies, l.busy.stage.error))),
                log := l.log + [Report(l.busy.adm.job.id, Printing, Failed, Classify(l.busy.stage.error))]))
      else None
  }

  function Apply(q: Queue, a: Action): Option<Queue> {
    match a
    case Check(c, j) =>
      if c in q.submitters || c in q.answers then None
      else if Validate(j).Some? then Some(q.(answers := q.answers[c := Rejected]))
      else
        var pruned := Pruned(q.seen, q.clock - q.retention);
        var q' := q.(seen := pruned, forgotten := q.clock - q.retention);
        Some(if Has(pruned, j.printer, j.id) then q'.(answers := q.answers[c := Duplicate])
             else q'.(submitters := q.submitters[c := Checked(Admission(c, j, q.clock, |q.records|))]))
    case Route(c) =>
      if c !in q.submitters || !q.submitters[c].Checked? then None
      else if !q.closing.Open? then Some(q.(submitters := q.submitters - {c}, answers := q.answers[c := Rejected]))
      else
        var adm := q.submitters[c].adm;
        Some(q.(submitters := q.submitters[c := Routed(adm)],
                lanes := if adm.job.printer in q.lanes then q.lanes else q.lanes[adm.job.printer := NEW_LANE]))
    case Send(c) =>
      if c !in q.submitters || !q.submitters[c].Routed? then None
      else
        var adm := q.submitters[c].adm;
        if adm.job.printer !in q.lanes || |q.lanes[adm.job.printer].channel| >= CHANNEL_CAPACITY then None
        else
          var l := q.lanes[adm.job.printer];
          Some(q.(submitters := q.submitters - {c}, answers := q.answers[c := Accepted(adm)],
                  lanes := q.lanes[adm.job.printer := l.(channel := l.channel + [adm], sent := l.sent + [adm])]))
    case Drop(c) =>
      if c !in q.submitters || !q.submitters[c].Routed? then None
      else
        var adm := q.submitters[c].adm;
        if adm.job.printer !in q.lanes || !q.lanes[adm.job.printer].stopped then None
        else Some(q.(submitters := q.submitters - {c}, answers := q.answers[c := Accepted(adm)],
                     dropped := q.dropped + {c}))
    case Work(p, step) =>
      if p !in q.lanes then None
      else
        var l := LaneApply(q.lanes[p], step);
        if l.None? then None else Some(q.(lanes := q.lanes[p := l.value]))
    case Record(p) =>
      if p !in q.lanes || !q.lanes[p].busy.Holding? || !q.lanes[p].busy.stage.Recording? then None
      else
        var l := q.lanes[p];
        var j := l.busy.adm.job;
        Some(q.(lanes := q.lanes[p := l.(busy := Idle, done := l.done + [Finished(l.busy.adm, l.busy.stage.outcome)])],
                seen := Noted(q.seen, j.printer, j.id, q.clock),
                records := q.records + [Entry(j.printer, j.id, q.clock)]))
    case Close =>
      if !q.closing.Open? then Some(q)
      else Some(q.(closing := Draining, lanes := map p | p in q.lanes :: q.lanes[p].(stopped := true)))
    case CloseReturns =>
      if q.closing.Draining? && forall p :: p in q.lanes ==> q.lanes[p].exited
      then Some(q.(closing := Closed)) else None
    case Tick(d) => Some(q.(clock := q.clock + d))
  }

  function Start(retention: int, clock: int): Queue {
    Queue(map[], map[], map[], {}, Open, retention, clock, map[], [], clock - retention)
  }

  function Run(q: Queue, actions: seq<Action>): Option<Queue>
    decreases |actions|
  {
    if actions == [] then Some(q)
    else
      var next := Apply(q, actions[0]);
      if next.None? then None else Run(next.value, actions[1..])
  }

  // ---- Invariants ----

  ghost function Jobs(done: seq<Finished>): seq<Admission> {
    seq(|done|, i requires 0 <= i < |done| => done[i].adm)
  }

  ghost function Current(b: Hand): seq<Admission> {
    if b.Holding? then [b.adm] else []
  }

  ghost function Trace(done: seq<Finished>): seq<Event> {
    if done == [] then []
    else Trace(done[..|done| - 1]) + Lifecycle(done[|done| - 1].adm.job, done[|done| - 1].outcome)
  }

  /** The part of its lifecycle the current job has been through. */
  ghost function Partial(b: Hand): seq<Event> {
    if b.Idle? then []
    else
      var id := b.adm.job.id;
      match b.stage
      case Announcing(n) => Announcements(id)[..if n <= 3 then n else 3]
      case Copying(n) => Announcements(id) + Prints(id, n)
      case Failing(n, _) => Announcements(id) + Prints(id, n) + [Print(id, false)]
      case Recording(o) => Lifecycle(b.adm.job, o)
  }

  ghost predicate StageOk(b: Hand) {
    if b.Idle? then true
    else
      && b.adm.job.copies >= 1
      && match b.stage
         case Announcing(n) => n < 3
         case Copying(n) => n <= b.adm.job.copies
         case Failing(n, _) => n < b.adm.job.copies
         case Recording(o) => o.Printed? || o.copies < b.adm.job.copies
  }

  /** The check the job passed: valid, and not recorded within the retention window at that time. */
  ghost predicate Clear(adm: Admission, records: seq<Entry>, retention: int) {
    && Validate(adm.job).None?
    && adm.known <= |records|
    && !Recent(records[..adm.known], adm.job.printer, adm.job.id, adm.at - retention)
  }

  ghost predicate LaneOk(l: Lane, printer: string, records: seq<Entry>, retention: int) {
    && l.sent == Jobs(l.done) + Current(l.busy) + l.channel
    && l.log == Trace(l.done) + Partial(l.busy)
    && |l.channel| <= CHANNEL_CAPACITY
    && (l.exited ==> l.busy.Idle? && l.stopped)
    && StageOk(l.busy)
    && forall i :: 0 <= i < |l.sent| ==> l.sent[i].job.printer == printer && Clear(l.sent[i], records, retention)
  }

  ghost predicate Inv(q: Queue) {
    && q.retention > 0
    && (forall p :: p in q.lanes ==> LaneOk(q.lanes[p], p, q.records, q.retention))
    && (forall c :: c in q.submitters ==> Clear(q.submitters[c].adm, q.records, q.retention))
    && (forall c :: c in q.submitters && q.submitters[c].Routed? ==> q.submitters[c].adm.job.printer in q.lanes)
    && (forall p :: p in q.lanes ==> (q.lanes[p].stopped <==> !q.closing.Open?))
    && (q.closing.Closed? ==> forall p :: p in q.lanes ==> q.lanes[p].exited)
    && Reflects(q.seen, q.records, q.forgotten) && Ascending(q.records, q.clock)
    && q.forgotten <= q.clock - q.retention
  }

  lemma ClearLater(adm: Admission, records: seq<Entry>, e: Entry, retention: int)
    requires Clear(adm, records, retention)
    ensures Clear(adm, records + [e], retention)
  {
    assert (records + [e])[..adm.known] == records[..adm.known];
  }

  lemma LaneOkLater(l: Lane, printer: string, records: seq<Entry>, e: Entry, retention: int)
    requires LaneOk(l, printer, records, retention)
    ensures LaneOk(l, printer, records + [e], retention)
  {
    hide Clear;
    forall i | 0 <= i < |l.sent|
      ensures Clear(l.sent[i], records + [e], retention)
    {
      ClearLater(l.sent[i], records, e, retention);
    }
  }

  lemma PartialGrows(l: Lane, step: LaneStep)
    requires StageOk(l.busy) && LaneApply(l, step).Some?
    requires l.channel != [] ==> l.channel[0].job.copies >= 1
    ensures StageOk(LaneApply(l, step).value.busy)
    ensures step.Take? || step.Exit? ==>
      LaneApply(l, step).value.log == l.log && Partial(LaneApply(l, step).value.busy) == Partial(l.busy)
    ensures !step.Take? && !step.Exit? ==>
      exists e ::
        LaneApply(l, step).value.log == l.log + [e] && Partial(LaneApply(l, step).value.busy) == Partial(l.busy) + [e]
  {
    var l' := LaneApply(l, step).value;
    if step.Announce? {
      var n, a := l.busy.stage.reports, Announcements(l.busy.adm.job.id);
      assert a[..n + 1] == a[..n] + [a[n]];
      assert a[..3] == a && a + Prints(l.busy.adm.job.id, 0) == a;
      assert Partial(l'.busy) == Partial(l.busy) + [a[n]];
    } else if step.PrintOk? {
      Assoc(Announcements(l.busy.adm.job.id), Prints(l.busy.adm.job.id, l.busy.stage.copies),
            [Print(l.busy.adm.job.id, true)]);
      assert Partial(l'.busy) == Partial(l.busy) + [Print(l.busy.adm.job.id, true)];
    } else if step.PrintFailed? {
      assert Partial(l'.busy) == Partial(l.busy) + [Print(l.busy.adm.job.id, false)];
    } else if step.Finish? {
      assert Partial(l'.busy) == Partial(l.busy) + [l'.log[|l.log|]];
    }
  }

  lemma NextJobHasCopies(l: Lane, printer: string, records: seq<Entry>, retention: int)
    requires LaneOk(l, printer, records, retention)
    ensures l.channel != [] ==> l.channel[0].job.copies >= 1
  {
    if l.channel != [] {
      var i := |l.done| + |Current(l.busy)|;
      assert l.sent[i] == l.channel[0] && Clear(l.sent[i], records, retention);
    }
  }

  lemma WorkKeepsLane(l: Lane, step: LaneStep, printer: string, records: seq<Entry>, retention: int)
    requires LaneOk(l, printer, records, retention) && LaneApply(l, step).Some?
    ensures LaneOk(LaneApply(l, step).value, printer, records, retention)
  {
    hide Trace, Partial, StageOk, Clear;
    var l' := LaneApply(l, step).value;
    NextJobHasCopies(l, printer, records, retention);
    PartialGrows(l, step);
    if !step.Take? && !step.Exit? {
      var e :| l'.log == l.log + [e] && Partial(l'.busy) == Partial(l.busy) + [e];
      Assoc(Trace(l.done), Partial(l.busy), [e]);
    }
  }

  lemma RecordKeepsLane(l: Lane, printer: string, records: seq<Entry>, retention: int)
    requires LaneOk(l, printer, records, retention)
    requires l.busy.Holding? && l.busy.stage.Recording?
    ensures LaneOk(l.(busy := Idle, done := l.done + [Finished(l.busy.adm, l.busy.stage.outcome)]), printer, records,
                   retention)
  {
    hide Clear;
    var f := Finished(l.busy.adm, l.busy.stage.outcome);
    assert (l.done + [f])[..|l.done|] == l.done;
    assert Jobs(l.done + [f]) == Jobs(l.done) + [l.busy.adm];
  }

  lemma SendKeepsLane(l: Lane, adm: Admission, printer: string, records: seq<Entry>, retention: int)
    requires LaneOk(l, printer, records, retention) && |l.channel| < CHANNEL_CAPACITY
    requires adm.job.printer == printer && Clear(adm, records, retention)
    ensures LaneOk(l.(channel := l.channel + [adm], sent := l.sent + [adm]), printer, records, retention)
  {
    hide Clear, Trace, Partial, StageOk;
  }

  lemma StepKeepsInv(q: Queue, a: Action)
    requires Inv(q) && Apply(q, a).Some?
    ensures Inv(Apply(q, a).value)
  {
    hide Inv, Apply;
    match a {
      case Check(c, j) => CheckKeepsInv(q, c, j);
      case Route(c) => RouteKeepsInv(q, c);
      case Send(c) => SendKeepsInv(q, c);
      case Drop(c) => DropKeepsInv(q, c);
      case Work(p, step) => WorkKeepsInv(q, p, step);
      case Record(p) => RecordKeepsInv(q, p);
      case Close => CloseKeepsInv(q);
      case CloseReturns => CloseReturnKeepsInv(q);
      case Tick(d) => TickKeepsInv(q, d);
    }
  }

  lemma CheckKeepsInv(q: Queue, c: nat, j: Job)
    requires Inv(q) && Apply(q, Check(c, j)).Some?
    ensures Inv(Apply(q, Check(c, j)).value)
  {
    hide LaneOk, Clear, Reflects, Ascending, Pruned, Has, Recent, Validate;
    StoreAnswersFromLog(q.seen, q.records, q.forgotten, q.clock - q.retention, j.printer, j.id);
    if !Recent(q.records, j.printer, j.id, q.clock - q.retention) && Validate(j).None? {
      AdmissionIsClear(q, c, j);
    }
  }

  lemma AdmissionIsClear(q: Queue, c: nat, j: Job)
    requires Validate(j).None? && !Recent(q.records, j.printer, j.id, q.clock - q.retention)
    ensures Clear(Admission(c, j, q.clock, |q.records|), q.records, q.retention)
  {
    hide Recent, Validate;
    assert q.records[..|q.records|] == q.records;
  }

  lemma RouteKeepsInv(q: Queue, c: nat)
    requires Inv(q) && Apply(q, Route(c)).Some?
    ensures Inv(Apply(q, Route(c)).value)
  {
    hide LaneOk, Clear, Reflects, Ascending;
    NewLaneOk(q.submitters[c].adm.job.printer, q.records, q.retention);
  }

  lemma SendKeepsInv(q: Queue, c: nat)
    requires Inv(q) && Apply(q, Send(c)).Some?
    ensures Inv(Apply(q, Send(c)).value)
  {
    hide LaneOk, Clear, Reflects, Ascending;
    var adm := q.submitters[c].adm;
    SendKeepsLane(q.lanes[adm.job.printer], adm, adm.job.printer, q.records, q.retention);
  }

  lemma DropKeepsInv(q: Queue, c: nat)
    requires Inv(q) && Apply(q, Drop(c)).Some?
    ensures Inv(Apply(q, Drop(c)).value)
  {
    hide LaneOk, Clear, Reflects, Ascending;
  }

  lemma WorkKeepsInv(q: Queue, p: string, step: LaneStep)
    requires Inv(q) && Apply(q, Work(p, step)).Some?
    ensures Inv(Apply(q, Work(p, step)).value)
  {
    hide LaneOk, Clear, Reflects, Ascending, LaneApply;
    WorkKeepsLane(q.lanes[p], step, p, q.records, q.retention);
    WorkFlags(q.lanes[p], step);
  }

  lemma CloseKeepsInv(q: Queue)
    requires Inv(q) && Apply(q, Close).Some?
    ensures Inv(Apply(q, Close).value)
  {
    hide LaneOk, Clear, Reflects, Ascending;
    if q.closing.Open? {
      forall p | p in q.lanes
        ensures LaneOk(Apply(q, Close).value.lanes[p], p, q.records, q.retention)
      {
        StopKeepsLane(q.lanes[p], p, q.records, q.retention);
      }
    }
  }

  lemma CloseReturnKeepsInv(q: Queue)
    requires Inv(q) && Apply(q, CloseReturns).Some?
    ensures Inv(Apply(q, CloseReturns).value)
  {
    hide LaneOk, Clear, Reflects, Ascending;
  }

  lemma TickKeepsInv(q: Queue, elapsed: nat)
    requires Inv(q) && Apply(q, Tick(elapsed)).Some?
    ensures Inv(Apply(q, Tick(elapsed)).value)
  {
    hide LaneOk, Clear, Reflects, Ascending;
    AscendingLater(q.records, q.clock, q.clock + elapsed);
  }

  lemma NewLaneOk(printer: string, records: seq<Entry>, retention: int)
    ensures LaneOk(NEW_LANE, printer, records, retention)
  {
  }

  lemma StopKeepsLane(l: Lane, printer: string, records: seq<Entry>, retention: int)
    requires LaneOk(l, printer, records, retention)
    ensures LaneOk(l.(stopped := true), printer, records, retention)
  {
  }

  lemma WorkFlags(l: Lane, step: LaneStep)
    requires LaneApply(l, step).Some?
    ensures LaneApply(l, step).value.done == l.done
    ensures LaneApply(l, step).value.stopped == l.stopped
    ensures l.exited ==> step.Announce? || step.PrintOk? || step.PrintFailed? || step.Finish?
    ensures LaneApply(l, step).value.exited <==> l.exited || step.Exit?
    ensures l.exited ==> l.busy.Holding?
  {
  }

  lemma RecordKeepsInv(q: Queue, p: string)
    requires Inv(q) && Apply(q, Record(p)).Some?
    ensures Inv(Apply(q, Record(p)).value)
  {
    hide LaneOk, Clear, Reflects, Ascending, Noted;
    var l := q.lanes[p];
    var e := Entry(l.busy.adm.job.printer, l.busy.adm.job.id, q.clock);
    NotingReflects(q.seen, q.records, q.forgotten, e.printer, e.job, q.clock);
    RecordKeepsLane(l, p, q.records, q.retention);
    forall p' | p' in q.lanes
      ensures LaneOk(Apply(q, Record(p)).value.lanes[p'], p', q.records + [e], q.retention)
    {
      LaneOkLater(Apply(q, Record(p)).value.lanes[p'], p', q.records, e, q.retention);
    }
    forall c | c in q.submitters
      ensures Clear(q.submitters[c].adm, q.records + [e], q.retention)
    {
      ClearLater(q.submitters[c].adm, q.records, e, q.retention);
    }
  }

  lemma {:induction false} RunKeepsInv(q: Queue, actions: seq<Action>)
    requires Inv(q) && Run(q, actions).Some?
    ensures Inv(Run(q, actions).value)
    decreases |actions|
  {
    hide Inv, Apply;
    if actions != [] {
      StepKeepsInv(q, actions[0]);
      RunKeepsInv(Apply(q, actions[0]).value, actions[1..]);
    }
  }

  lemma StartIsOk(retention: int, clock: int)
    requires retention > 0
    ensures Inv(Start(retention, clock))
  {
  }
}
