/** One job from queue to printer: internal/queue/worker.go, process and classify. */
module PrintWorker {
  import opened Bytes
  import opened JobState
  import opened Dedup

  datatype Status = Ready | Busy | OutOfMedia | WrongMedia | CoverOpen | Error | Offline

  datatype DriverError = NotPrintable(status: Status) | UnknownPrinter | OtherError(message: string)

  datatype Job = Job(id: string, tenant: string, printer: string, copies: int, payload: seq<byte>, widthMM: real,
                     heightMM: real)

  datatype InvalidJob = MissingId | MissingTenant | MissingPrinter | BadCopies | EmptyPayload | BadDimensions

  function Validate(j: Job): Option<InvalidJob> {
    if j.id == "" then Some(MissingId)
    else if j.tenant == "" then Some(MissingTenant)
    else if j.printer == "" then Some(MissingPrinter)
    else if j.copies < 1 then Some(BadCopies)
    else if j.payload == [] then Some(EmptyPayload)
    else if j.widthMM <= 0.0 || j.heightMM <= 0.0 then Some(BadDimensions)
    else None
  }

  function Classify(e: DriverError): (reason: string)
    ensures reason != ""
  {
    match e
    case NotPrintable(OutOfMedia) => "printer is out of media"
    case NotPrintable(CoverOpen) => "printer cover is open"
    case NotPrintable(WrongMedia) => "loaded media does not match the label size"
    case NotPrintable(Offline) => "printer is offline"
    case NotPrintable(_) => "printer is not ready"
    case UnknownPrinter => "printer is not connected to this bridge"
    case OtherError(m) => "print failed: " + m
  }

  /** A job is valid when every field has a usable value; the first that has not is named. */
  lemma ValidExactly(j: Job)
    ensures Validate(j).None? <==>
      && j.id != "" && j.tenant != "" && j.printer != ""
      && j.copies >= 1 && j.payload != [] && j.widthMM > 0.0 && j.heightMM > 0.0
    ensures j.id == "" ==> Validate(j) == Some(MissingId)
    ensures j.payload == [] && Validate(j) != Some(EmptyPayload) ==>
      j.id == "" || j.tenant == "" || j.printer == "" || j.copies <= 0
  {
  }

  /** Each condition of a printer that keeps it from printing has a reason of its own. */
  lemma ReasonsTellConditions()
    ensures Classify(NotPrintable(OutOfMedia)) == "printer is out of media"
    ensures Classify(NotPrintable(CoverOpen)) == "printer cover is open"
    ensures Classify(NotPrintable(WrongMedia)) == "loaded media does not match the label size"
    ensures Classify(NotPrintable(Offline)) == "printer is offline"
    ensures forall s: Status :: s !in {OutOfMedia, CoverOpen, WrongMedia, Offline} ==>
      Classify(NotPrintable(s)) == "printer is not ready"
    ensures Classify(UnknownPrinter) == "printer is not connected to this bridge"
    ensures forall m: string :: Classify(OtherError(m)) == "print failed: " + m
  {
  }

  /** What a worker does that others see: a status report, or a Print call of the driver with its result. */
  datatype Event = Report(job: string, from: State, to: State, reason: string) | Print(job: string, ok: bool)

  datatype Outcome = Printed | Broke(copies: nat, error: DriverError)

  function Announcements(id: string): seq<Event> {
    [Report(id, Created, Queued, ""), Report(id, Queued, Sent, ""), Report(id, Sent, Printing, "")]
  }

  function Prints(id: string, n: nat): (s: seq<Event>)
    ensures |s| == n
  {
    if n == 0 then [] else Prints(id, n - 1) + [Print(id, true)]
  }

  /** The complete trace of a job that came to the given end. */
  function Lifecycle(j: Job, o: Outcome): seq<Event> {
    match o
    case Printed =>
      Announcements(j.id) + Prints(j.id, if j.copies < 0 then 0 else j.copies) + [Report(j.id, Printing, Completed, "")]
    case Broke(n, e) =>
      Announcements(j.id) + Prints(j.id, n) + [Print(j.id, false)] + [Report(j.id, Printing, Failed, Classify(e))]
  }

  /** The end a driver brings a job to: `driver(i)` is the error, if any, of its i-th Print call. */
  function OutcomeOf(copies: int, driver: nat -> Option<DriverError>, from: nat := 0): (o: Outcome)
    ensures o.Printed? ==> forall i: nat :: from <= i < copies ==> driver(i).None?
    ensures o.Broke? ==> from <= o.copies < copies && driver(o.copies) == Some(o.error)
                         && forall i: nat :: from <= i < o.copies ==> driver(i).None?
    decreases copies - from
  {
    if from >= copies then Printed
    else match driver(from)
         case Some(e) => Broke(from, e)
         case None => OutcomeOf(copies, driver, from + 1)
  }

  class Worker {
    const printer: string
    const dedup: DedupStore
    var log: seq<Event>

    constructor (printer: string, dedup: DedupStore)
      ensures this.printer == printer && this.dedup == dedup && log == []
    {
      this.printer, this.dedup, log := printer, dedup, [];
    }

    /** Moves the tracker and reports the move to the sink. */
    method Emit(tr: Tracker, job: string, to: State, reason: string, now: int) returns (ok: bool)
      modifies tr, this`log
      ensures match Move(old(tr.Value()), to, reason, now)
              case Ok(t) => ok && tr.Value() == t && log == old(log) + [Report(job, old(tr.current), to, reason)]
              case Err(_) => !ok && tr.Value() == old(tr.Value()) && log == old(log)
    {
      var r := tr.To(to, reason, now);
      if r.Err? {
        return false;
      }
      var last := tr.history[|tr.history| - 1];
      log := log + [Report(job, last.from, tr.current, last.reason)];
      return true;
    }

    /** Reports queued, sent and printing; an illegal transition would stop the job here, and never does. */
    method Announce(tr: Tracker, job: string, now: nat -> int) returns (ok: bool)
      requires tr.Value() == FRESH
      modifies tr, this`log
      ensures ok && tr.current == Printing
      ensures log == old(log) + Announcements(job)
    {
      ok := Emit(tr, job, Queued, "", now(0));
      if !ok {
        return;
      }
      ok := Emit(tr, job, Sent, "", now(1));
      if !ok {
        return;
      }
      ok := Emit(tr, job, Printing, "", now(2));
    }

    /** Prints copy after copy until one fails. */
    method PrintCopies(j: Job, driver: nat -> Option<DriverError>) returns (printErr: Option<DriverError>)
      modifies this`log
      ensures match OutcomeOf(j.copies, driver)
              case Printed =>
                printErr == None && log == old(log) + Prints(j.id, if j.copies < 0 then 0 else j.copies)
              case Broke(n, e) =>
                printErr == Some(e) && log == old(log) + Prints(j.id, n) + [Print(j.id, false)]
    {
      printErr := None;
      var i := 0;
      while i < j.copies
        invariant 0 <= i && (i <= j.copies || i == 0)
        invariant log == old(log) + Prints(j.id, i)
        invariant OutcomeOf(j.copies, driver) == OutcomeOf(j.copies, driver, i)
        invariant printErr.None?
        decreases j.copies - i
      {
        printErr := driver(i);
        log := log + [Print(j.id, printErr.None?)];
        if printErr.Some? {
          break;
        }
        i := i + 1;
      }
    }

    /** `now` reads the clock for the reports, `finished` for the dedup record made at the end. */
    method Process(j: Job, driver: nat -> Option<DriverError>, now: nat -> int, finished: int)
      requires dedup.Valid() && finished >= dedup.clock
      modifies this`log, dedup
      ensures log == old(log) + Lifecycle(j, OutcomeOf(j.copies, driver))
      ensures dedup.Valid() && dedup.clock == finished
      ensures dedup.log == old(dedup.log) + [Entry(j.printer, j.id, finished)]
    {
      hide DedupStore.Valid, OutcomeOf, Prints, Announcements, Classify, Lifecycle;
      ghost var start := log;
      var tr := new Tracker();
      var ok := Announce(tr, j.id, now);
      if !ok {
        return;
      }
      var printErr := PrintCopies(j, driver);
      if printErr.Some? {
        ok := Emit(tr, j.id, Failed, Classify(printErr.value), now(3));
        LifecycleJoins(start, j, OutcomeOf(j.copies, driver));
        dedup.Record(j.printer, j.id, finished);
        return;
      }
      ok := Emit(tr, j.id, Completed, "", now(3));
      LifecycleJoins(start, j, OutcomeOf(j.copies, driver));
      dedup.Record(j.printer, j.id, finished);
    }
  }

  // ---- What a lifecycle is ----

  lemma LifecycleJoins(start: seq<Event>, j: Job, o: Outcome)
    ensures match o
            case Printed =>
              start + Announcements(j.id) + Prints(j.id, if j.copies < 0 then 0 else j.copies)
              + [Report(j.id, Printing, Completed, "")] == start + Lifecycle(j, o)
            case Broke(n, e) =>
              start + Announcements(j.id) + Prints(j.id, n) + [Print(j.id, false)]
              + [Report(j.id, Printing, Failed, Classify(e))] == start + Lifecycle(j, o)
  {
    hide Prints, Announcements, Classify;
  }

  /** The states a trace reports, in order. */
  ghost function Reported(events: seq<Event>): seq<State> {
    if events == [] then []
    else (if events[0].Report? then [events[0].to] else []) + Reported(events[1..])
  }

  ghost function SuccessfulPrints(events: seq<Event>): nat {
    if events == [] then 0
    else (if events[0] == Print(events[0].job, true) then 1 else 0) + SuccessfulPrints(events[1..])
  }

  lemma {:induction false} ReportedAppend(a: seq<Event>, b: seq<Event>)
    ensures Reported(a + b) == Reported(a) + Reported(b)
    ensures SuccessfulPrints(a + b) == SuccessfulPrints(a) + SuccessfulPrints(b)
  {
    if a == [] {
      assert a + b == b;
    } else {
      assert (a + b)[1..] == a[1..] + b;
      ReportedAppend(a[1..], b);
      Assoc(if a[0].Report? then [a[0].to] else [], Reported(a[1..]), Reported(b));
    }
  }

  lemma AnnouncementsReport(id: string)
    ensures Reported(Announcements(id)) == [Queued, Sent, Printing]
    ensures SuccessfulPrints(Announcements(id)) == 0
  {
    var a := Announcements(id);
    assert a == [a[0]] + [a[1]] + [a[2]];
    ReportedAppend([a[0]] + [a[1]], [a[2]]);
    ReportedAppend([a[0]], [a[1]]);
    OneEvent(a[0]);
    OneEvent(a[1]);
    OneEvent(a[2]);
  }

  lemma OneEvent(e: Event)
    ensures Reported([e]) == if e.Report? then [e.to] else []
    ensures SuccessfulPrints([e]) == if e == Print(e.job, true) then 1 else 0
  {
  }

  lemma {:induction false} PrintsReportNothing(id: string, n: nat)
    ensures Reported(Prints(id, n)) == [] && SuccessfulPrints(Prints(id, n)) == n
  {
    if n > 0 {
      PrintsReportNothing(id, n - 1);
      ReportedAppend(Prints(id, n - 1), [Print(id, true)]);
    }
  }

  /** A lifecycle opens with three moves from created to printing, and closes with one from printing. */
  lemma LifecycleReportsMoves(j: Job, o: Outcome)
    ensures var events := Lifecycle(j, o);
            && |events| >= 4
            && events[..3] == [Report(j.id, Created, Queued, ""), Report(j.id, Queued, Sent, ""),
                               Report(j.id, Sent, Printing, "")]
            && events[|events| - 1] == (if o.Printed? then Report(j.id, Printing, Completed, "")
                                        else Report(j.id, Printing, Failed, Classify(o.error)))
            && forall i :: 3 <= i < |events| - 1 ==> events[i] == Print(j.id, o.Printed? || i < |events| - 2)
  {
    hide Classify;
    PrintsAreOk(j.id, if o.Printed? then (if j.copies < 0 then 0 else j.copies) else o.copies);
  }

  lemma {:induction false} PrintsAreOk(id: string, n: nat)
    ensures forall i :: 0 <= i < n ==> Prints(id, n)[i] == Print(id, true)
  {
    if n > 0 {
      PrintsAreOk(id, n - 1);
    }
  }

  /**
   * Every job reports queued, sent, printing and one terminal state: completed after all its copies
   * printed, or failed with a reason after the first copy that did not.
   */
  lemma LifecycleReports(j: Job, driver: nat -> Option<DriverError>)
    requires Validate(j).None?
    ensures var o := OutcomeOf(j.copies, driver);
            var events := Lifecycle(j, o);
            && Reported(events) == [Queued, Sent, Printing, if o.Printed? then Completed else Failed]
            && SuccessfulPrints(events) == (if o.Printed? then j.copies else o.copies)
            && (o.Printed? <==> forall i: nat :: i < j.copies ==> driver(i).None?)
            && (o.Broke? ==> events[|events| - 1].reason == Classify(o.error) != "")
  {
    hide Reported, SuccessfulPrints, Prints, OutcomeOf, Classify, Announcements;
    var o := OutcomeOf(j.copies, driver);
    var n := if o.Printed? then j.copies else o.copies;
    var last := Report(j.id, Printing, if o.Printed? then Completed else Failed,
                       if o.Printed? then "" else Classify(o.error));
    PrintsReportNothing(j.id, n);
    var head := Announcements(j.id) + Prints(j.id, n);
    ReportedAppend(Announcements(j.id), Prints(j.id, n));
    AnnouncementsReport(j.id);
    OneEvent(last);
    OneEvent(Print(j.id, false));
    if o.Printed? {
      ReportedAppend(head, [last]);
      assert Lifecycle(j, o) == head + [last];
    } else {
      ReportedAppend(head, [Print(j.id, false)]);
      ReportedAppend(head + [Print(j.id, false)], [last]);
      assert Lifecycle(j, o) == head + [Print(j.id, false)] + [last];
    }
  }
}
