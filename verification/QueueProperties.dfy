/** What every run of the print queue satisfies, and what it does not promise. */
module QueueProperties {
  import opened Bytes
  import opened JobState
  import opened Dedup
  import opened PrintWorker
  import opened PrintQueue

  lemma {:induction false} RunJoins(q: Queue, a: seq<Action>, b: seq<Action>)
    requires Run(q, a).Some?
    ensures Run(q, a + b) == Run(Run(q, a).value, b)
    decreases |a|
  {
    hide Apply;
    if a == [] {
      assert a + b == b;
    } else {
      assert (a + b)[1..] == a[1..] + b;
      RunJoins(Apply(q, a[0]).value, a[1..], b);
    }
  }

  // ---- Order ----

  /**
   * In every reachable interleaving, each printer's finished jobs, then the one in hand, then the
   * channel are the jobs sent to it, in order; and its events are the complete lifecycles of the
   * finished jobs, one after the other, followed by the part the job in hand has been through.
   */
  lemma SequentialPerPrinter(retention: int, clock: int, actions: seq<Action>, p: string)
    requires retention > 0
    requires Run(Start(retention, clock), actions).Some?
    requires p in Run(Start(retention, clock), actions).value.lanes
    ensures var l := Run(Start(retention, clock), actions).value.lanes[p];
            && l.sent == Jobs(l.done) + Current(l.busy) + l.channel
            && l.log == Trace(l.done) + Partial(l.busy)
            && forall i :: 0 <= i < |l.sent| ==> l.sent[i].job.printer == p && Validate(l.sent[i].job).None?
  {
    hide Run, Apply;
    StartIsOk(retention, clock);
    RunKeepsInv(Start(retention, clock), actions);
    var q := Run(Start(retention, clock), actions).value;
    assert LaneOk(q.lanes[p], p, q.records, q.retention);
  }

  // ---- Close ----

  ghost predicate SameEvents(q: Queue, q': Queue) {
    && q.lanes.Keys == q'.lanes.Keys
    && forall p :: p in q.lanes ==> q'.lanes[p].log == q.lanes[p].log
  }

  /** A closed queue with nothing left that could report or print. */
  ghost predicate Quiet(q: Queue) {
    && !q.closing.Open?
    && forall p :: p in q.lanes ==> LaneQuiet(q, p)
  }

  ghost predicate LaneQuiet(q: Queue, p: string)
    requires p in q.lanes
  {
    || q.lanes[p].exited
    || (q.lanes[p].channel == []
        && (q.lanes[p].busy.Idle? || q.lanes[p].busy.stage.Recording?)
        && forall c :: c in q.submitters && q.submitters[c].Routed? ==> q.submitters[c].adm.job.printer != p)
  }

  lemma QuietLaneOnlyExits(q: Queue, p: string, step: LaneStep)
    requires p in q.lanes && LaneQuiet(q, p) && LaneApply(q.lanes[p], step).Some?
    requires q.lanes[p].exited ==> q.lanes[p].busy.Idle?
    ensures LaneApply(q.lanes[p], step) == Some(q.lanes[p].(exited := true))
  {
  }

  lemma QuietWork(q: Queue, p: string, step: LaneStep)
    requires Inv(q) && Quiet(q) && Apply(q, Work(p, step)).Some?
    ensures Quiet(Apply(q, Work(p, step)).value) && SameEvents(q, Apply(q, Work(p, step)).value)
  {
    hide Inv, LaneApply;
    ExitedIsIdle(q, p);
    QuietLaneOnlyExits(q, p, step);
  }

  lemma QuietStep(q: Queue, a: Action)
    requires Inv(q) && Quiet(q) && Apply(q, a).Some?
    ensures Quiet(Apply(q, a).value) && SameEvents(q, Apply(q, a).value)
  {
    hide Inv, Pruned, Noted, Has, Validate;
    if a.Work? {
      hide Apply, Quiet, SameEvents;
      QuietWork(q, a.printer, a.step);
    } else if a.Send? || a.Record? {
      hide LaneApply;
      QuietLaneStep(q, a);
    }
  }

  lemma QuietLaneStep(q: Queue, a: Action)
    requires Quiet(q) && Apply(q, a).Some? && (a.Send? || a.Record?)
    ensures Quiet(Apply(q, a).value) && SameEvents(q, Apply(q, a).value)
  {
    hide Noted;
  }

  lemma ExitedIsIdle(q: Queue, p: string)
    requires Inv(q) && p in q.lanes
    ensures q.lanes[p].exited ==> q.lanes[p].busy.Idle?
  {
    hide Clear, Trace, Partial, Reflects, Ascending;
    assert LaneOk(q.lanes[p], p, q.records, q.retention);
  }

  lemma {:induction false} QuietForGood(q: Queue, actions: seq<Action>)
    requires Inv(q) && Quiet(q) && Run(q, actions).Some?
    ensures SameEvents(q, Run(q, actions).value)
    decreases |actions|
  {
    hide Inv, Quiet, Apply;
    if actions != [] {
      StepKeepsInv(q, actions[0]);
      QuietStep(q, actions[0]);
      QuietForGood(Apply(q, actions[0]).value, actions[1..]);
    }
  }

  /** Once the Close call that found the queue open has returned, no driver or sink call ever happens again. */
  lemma ClosedIsSilent(retention: int, clock: int, before: seq<Action>, after: seq<Action>)
    requires retention > 0
    requires Run(Start(retention, clock), before).Some?
    requires Run(Start(retention, clock), before).value.closing.Closed?
    requires Run(Start(retention, clock), before + after).Some?
    ensures SameEvents(Run(Start(retention, clock), before).value, Run(Start(retention, clock), before + after).value)
  {
    hide Run, Apply;
    StartIsOk(retention, clock);
    RunKeepsInv(Start(retention, clock), before);
    RunJoins(Start(retention, clock), before, after);
    QuietForGood(Run(Start(retention, clock), before).value, after);
  }

  lemma RunOne(q: Queue, a: Action, rest: seq<Action>)
    requires Apply(q, a).Some?
    ensures Run(q, [a] + rest) == Run(Apply(q, a).value, rest)
  {
    assert ([a] + rest)[1..] == rest;
  }

  /** A worker in the middle of a job has an event to come. */
  lemma BusyIsLoud(q: Queue, p: string) returns (actions: seq<Action>)
    requires Inv(q) && p in q.lanes && q.lanes[p].busy.Holding? && !q.lanes[p].busy.stage.Recording?
    ensures Run(q, actions).Some? && p in Run(q, actions).value.lanes
    ensures |Run(q, actions).value.lanes[p].log| == |q.lanes[p].log| + 1
  {
    hide Clear, Trace, Partial, Reflects, Ascending, Run;
    var l := q.lanes[p];
    assert LaneOk(l, p, q.records, q.retention);
    var step := match l.busy.stage
      case Announcing(_) => Announce
      case Copying(n) => if n < l.busy.adm.job.copies then PrintOk else Finish
      case Failing(_, _) => Finish;
    actions := [Work(p, step)] + [];
    assert LaneApply(l, step).Some?;
    RunNothing(Apply(q, Work(p, step)).value);
    RunOne(q, Work(p, step), []);
  }

  lemma WaitingIsLoud(q: Queue, p: string) returns (actions: seq<Action>)
    requires Inv(q) && p in q.lanes && !q.lanes[p].exited && q.lanes[p].channel != []
    requires q.lanes[p].busy.Idle?
    ensures Run(q, actions).Some? && p in Run(q, actions).value.lanes
    ensures |Run(q, actions).value.lanes[p].log| == |q.lanes[p].log| + 1
  {
    hide Inv, Run;
    var q' := Apply(q, Work(p, Take)).value;
    StepKeepsInv(q, Work(p, Take));
    var rest := BusyIsLoud(q', p);
    actions := [Work(p, Take)] + rest;
    RunOne(q, Work(p, Take), rest);
  }

  lemma PendingIsLoud(q: Queue, p: string) returns (actions: seq<Action>)
    requires Inv(q) && p in q.lanes && !q.lanes[p].exited && q.lanes[p].channel != []
    requires q.lanes[p].busy.Idle? || q.lanes[p].busy.stage.Recording?
    ensures Run(q, actions).Some? && p in Run(q, actions).value.lanes
    ensures |Run(q, actions).value.lanes[p].log| == |q.lanes[p].log| + 1
  {
    hide Inv, Run, Noted;
    if q.lanes[p].busy.Idle? {
      actions := WaitingIsLoud(q, p);
    } else {
      var q' := Apply(q, Record(p)).value;
      StepKeepsInv(q, Record(p));
      var rest := WaitingIsLoud(q', p);
      actions := [Record(p)] + rest;
      RunOne(q, Record(p), rest);
    }
  }

  lemma RoutedIsLoud(q: Queue, p: string, c: nat) returns (actions: seq<Action>)
    requires Inv(q) && p in q.lanes && !q.lanes[p].exited && q.lanes[p].channel == []
    requires q.lanes[p].busy.Idle? || q.lanes[p].busy.stage.Recording?
    requires c in q.submitters && q.submitters[c].Routed? && q.submitters[c].adm.job.printer == p
    ensures Run(q, actions).Some? && p in Run(q, actions).value.lanes
    ensures |Run(q, actions).value.lanes[p].log| == |q.lanes[p].log| + 1
  {
    hide Inv, Run;
    var q' := Apply(q, Send(c)).value;
    StepKeepsInv(q, Send(c));
    var rest := PendingIsLoud(q', p);
    actions := [Send(c)] + rest;
    RunOne(q, Send(c), rest);
  }

  lemma LoudRun(q: Queue, p: string) returns (actions: seq<Action>)
    requires Inv(q) && p in q.lanes && !LaneQuiet(q, p)
    ensures Run(q, actions).Some? && p in Run(q, actions).value.lanes
    ensures |Run(q, actions).value.lanes[p].log| == |q.lanes[p].log| + 1
  {
    hide Inv, Run, Apply;
    var l := q.lanes[p];
    if l.busy.Holding? && !l.busy.stage.Recording? {
      actions := BusyIsLoud(q, p);
    } else if l.channel != [] {
      actions := PendingIsLoud(q, p);
    } else {
      var c :| c in q.submitters && q.submitters[c].Routed? && q.submitters[c].adm.job.printer == p;
      actions := RoutedIsLoud(q, p, c);
    }
  }

  /**
   * A Close call that finds the queue already closed returns at once. What it may promise: no driver
   * or sink call follows exactly when every worker has exited or has nothing in hand, queued or routed to it.
   */
  lemma LaterCloseExactly(q: Queue)
    requires Inv(q) && !q.closing.Open?
    ensures Apply(q, Close) == Some(q)
    ensures (forall actions :: Run(q, actions).Some? ==> SameEvents(q, Run(q, actions).value)) <==> Quiet(q)
  {
    hide Inv, LaneQuiet;
    if Quiet(q) {
      forall actions | Run(q, actions).Some?
        ensures SameEvents(q, Run(q, actions).value)
      {
        QuietForGood(q, actions);
      }
    } else {
      var p :| p in q.lanes && !LaneQuiet(q, p);
      var actions := LoudRun(q, p);
      assert !SameEvents(q, Run(q, actions).value);
    }
  }

  // ---- Duplicate suppression ----

  /** The job IDs recorded for a printer, in order. */
  ghost function RecordedJobs(records: seq<Entry>, p: string): seq<string> {
    if records == [] then []
    else
      var last := records[|records| - 1];
      RecordedJobs(records[..|records| - 1], p) + if last.printer == p then [last.job] else []
  }

  ghost function FinishedIds(done: seq<Finished>): seq<string> {
    seq(|done|, i requires 0 <= i < |done| => done[i].adm.job.id)
  }

  /** Records are made for finished jobs, exactly one each, in the order they finish. */
  ghost predicate RecordsMatch(q: Queue) {
    forall p :: RecordedJobs(q.records, p) == FinishedIds(DoneBy(q, p))
  }

  ghost function DoneBy(q: Queue, p: string): seq<Finished> {
    if p in q.lanes then q.lanes[p].done else []
  }

  lemma OnlyRecordFinishes(q: Queue, a: Action, p: string)
    requires Apply(q, a).Some? && !a.Record?
    ensures Apply(q, a).value.records == q.records && DoneBy(Apply(q, a).value, p) == DoneBy(q, p)
  {
    hide LaneApply, Pruned, Has, Validate;
    if a.Work? {
      WorkFlags(q.lanes[a.printer], a.step);
    }
  }

  lemma RecordsMatchStep(q: Queue, a: Action)
    requires Inv(q) && RecordsMatch(q) && Apply(q, a).Some?
    ensures RecordsMatch(Apply(q, a).value)
  {
    hide Inv, Apply, RecordedJobs, FinishedIds, DoneBy;
    if a.Record? {
      RecordMatches(q, a.printer);
    } else {
      forall p
        ensures RecordedJobs(Apply(q, a).value.records, p) == FinishedIds(DoneBy(Apply(q, a).value, p))
      {
        OnlyRecordFinishes(q, a, p);
      }
    }
  }

  lemma RecordMatches(q: Queue, p: string)
    requires Inv(q) && RecordsMatch(q) && Apply(q, Record(p)).Some?
    ensures RecordsMatch(Apply(q, Record(p)).value)
  {
    hide Clear, Reflects, Ascending, Noted, Trace, Partial;
    var q', l := Apply(q, Record(p)).value, q.lanes[p];
    assert LaneOk(l, p, q.records, q.retention);
    assert l.sent[|l.done|] == l.busy.adm;
    assert l.busy.adm.job.printer == p;
    forall p'
      ensures RecordedJobs(q'.records, p') == FinishedIds(DoneBy(q', p'))
    {
      assert q'.records[..|q.records|] == q.records;
      assert RecordedJobs(q.records, p') == FinishedIds(DoneBy(q, p'));
      if p' == p {
        assert FinishedIds(q'.lanes[p].done) == FinishedIds(l.done) + [l.busy.adm.job.id];
      }
    }
  }

  lemma {:induction false} RunRecordsMatch(q: Queue, actions: seq<Action>)
    requires Inv(q) && RecordsMatch(q) && Run(q, actions).Some?
    ensures RecordsMatch(Run(q, actions).value)
    decreases |actions|
  {
    hide Inv, Apply, RecordsMatch;
    if actions != [] {
      StepKeepsInv(q, actions[0]);
      RecordsMatchStep(q, actions[0]);
      RunRecordsMatch(Apply(q, actions[0]).value, actions[1..]);
    }
  }

  /**
   * In every reachable state, a valid submission is answered Duplicate, without touching any worker,
   * exactly when the full log holds a record of its printer and job within the retention window; the
   * log itself holds the finished jobs and nothing else.
   */
  lemma SuppressedExactlyWhenRecorded(retention: int, clock: int, actions: seq<Action>, c: nat, j: Job)
    requires retention > 0
    requires Run(Start(retention, clock), actions).Some?
    requires Validate(j).None?
    requires Apply(Run(Start(retention, clock), actions).value, Check(c, j)).Some?
    ensures var q := Run(Start(retention, clock), actions).value;
            var q' := Apply(q, Check(c, j)).value;
            && RecordsMatch(q)
            && q'.lanes == q.lanes && q'.records == q.records
            && (c in q'.answers && q'.answers[c] == Duplicate
                <==> Recent(q.records, j.printer, j.id, q.clock - q.retention))
            && (c !in q'.answers ==>
                  c in q'.submitters && q'.submitters[c] == Checked(Admission(c, j, q.clock, |q.records|)))
  {
    hide Run, Apply, LaneOk, Clear, Pruned, Recent;
    StartIsOk(retention, clock);
    NothingRecorded(retention, clock);
    RunKeepsInv(Start(retention, clock), actions);
    RunRecordsMatch(Start(retention, clock), actions);
    var q := Run(Start(retention, clock), actions).value;
    CheckAnswers(q, c, j);
  }

  lemma NothingRecorded(retention: int, clock: int)
    ensures RecordsMatch(Start(retention, clock))
  {
  }

  lemma CheckAnswers(q: Queue, c: nat, j: Job)
    requires Inv(q) && Validate(j).None? && Apply(q, Check(c, j)).Some?
    ensures var q' := Apply(q, Check(c, j)).value;
            && q'.lanes == q.lanes && q'.records == q.records
            && (c in q'.answers && q'.answers[c] == Duplicate
                <==> Recent(q.records, j.printer, j.id, q.clock - q.retention))
            && (c !in q'.answers ==>
                  c in q'.submitters && q'.submitters[c] == Checked(Admission(c, j, q.clock, |q.records|)))
  {
    hide LaneOk, Clear, Pruned;
    StoreAnswersFromLog(q.seen, q.records, q.forgotten, q.clock - q.retention, j.printer, j.id);
  }

  /** Every job that reached a channel had no record in its window when it was checked. */
  lemma AdmittedWereClear(retention: int, clock: int, actions: seq<Action>, p: string, i: nat)
    requires retention > 0
    requires Run(Start(retention, clock), actions).Some?
    requires p in Run(Start(retention, clock), actions).value.lanes
    requires i < |Run(Start(retention, clock), actions).value.lanes[p].sent|
    ensures var q := Run(Start(retention, clock), actions).value;
            q.retention == retention && Clear(q.lanes[p].sent[i], q.records, retention)
  {
    hide Run, Apply, Clear;
    StartIsOk(retention, clock);
    RunKeepsInv(Start(retention, clock), actions);
    RunKeepsRetention(Start(retention, clock), actions);
    var q := Run(Start(retention, clock), actions).value;
    assert LaneOk(q.lanes[p], p, q.records, q.retention);
  }

  lemma {:induction false} RunKeepsRetention(q: Queue, actions: seq<Action>)
    requires Run(q, actions).Some?
    ensures Run(q, actions).value.retention == q.retention
    decreases |actions|
  {
    if actions != [] {
      RunKeepsRetention(Apply(q, actions[0]).value, actions[1..]);
    }
  }

  // ---- What the queue does not promise ----

  const SAMPLE := Job("job-1", "t1", "p1", 1, [0xAA], 50.0, 70.0)

  lemma SampleIsChecked(q: Queue, c: nat)
    requires q.seen == map[] && c !in q.submitters && c !in q.answers
    ensures Apply(q, Check(c, SAMPLE))
         == Some(q.(forgotten := q.clock - q.retention,
                    submitters := q.submitters[c := Checked(Admission(c, SAMPLE, q.clock, |q.records|))]))
  {
    assert Pruned(map[], q.clock - q.retention) == map[];
  }

  lemma SampleIsRouted(q: Queue, c: nat, adm: Admission)
    requires q.closing.Open? && adm.job.printer == "p1"
    requires c !in q.submitters
    requires "p1" in q.lanes ==> |q.lanes["p1"].channel| < 2
    ensures var q1 := q.(submitters := q.submitters[c := Checked(adm)]);
            var l := if "p1" in q.lanes then q.lanes["p1"] else NEW_LANE;
            && Apply(q1, Route(c)) == Some(q.(submitters := q.submitters[c := Routed(adm)],
                                              lanes := q.lanes["p1" := l]))
            && Apply(Apply(q1, Route(c)).value, Send(c))
            == Some(q.(answers := q.answers[c := Accepted(adm)],
                       lanes := q.lanes["p1" := l.(channel := l.channel + [adm], sent := l.sent + [adm])]))
  {
    var l := if "p1" in q.lanes then q.lanes["p1"] else NEW_LANE;
    var l' := l.(channel := l.channel + [adm], sent := l.sent + [adm]);
    var q2 := Apply(q.(submitters := q.submitters[c := Checked(adm)]), Route(c)).value;
    assert q2.submitters == q.submitters[c := Routed(adm)];
    assert q2.lanes == q.lanes["p1" := l];
    var q3 := Apply(q2, Send(c)).value;
    assert q3.submitters == q.submitters;
    assert q3.lanes == q.lanes["p1" := l'];
  }

  lemma SampleSteps(q: Queue, c: nat)
    requires q.seen == map[] && q.closing.Open? && c !in q.submitters && c !in q.answers
    requires "p1" in q.lanes ==> |q.lanes["p1"].channel| < 2
    ensures var q1 := Apply(q, Check(c, SAMPLE));
            && q1.Some? && Apply(q1.value, Route(c)).Some? && Apply(Apply(q1.value, Route(c)).value, Send(c)).Some?
            && var q' := Apply(Apply(q1.value, Route(c)).value, Send(c)).value;
            && q'.seen == map[] && q'.closing.Open? && q'.submitters == q.submitters && q'.dropped == q.dropped
            && q'.records == q.records
            && q'.answers == q.answers[c := Accepted(Admission(c, SAMPLE, q.clock, |q.records|))]
            && "p1" in q'.lanes
            && var adm := Admission(c, SAMPLE, q.clock, |q.records|);
               var l := if "p1" in q.lanes then q.lanes["p1"] else NEW_LANE;
               q'.lanes["p1"] == l.(channel := l.channel + [adm], sent := l.sent + [adm])
  {
    hide Apply;
    SampleIsChecked(q, c);
    SampleIsRouted(q.(forgotten := q.clock - q.retention), c, Admission(c, SAMPLE, q.clock, |q.records|));
  }

  lemma SampleIsAdmitted(q: Queue, c: nat)
    requires q.seen == map[] && q.closing.Open? && c !in q.submitters && c !in q.answers
    requires "p1" in q.lanes ==> |q.lanes["p1"].channel| < 2
    ensures Run(q, [Check(c, SAMPLE), Route(c), Send(c)]).Some?
    ensures var q' := Run(q, [Check(c, SAMPLE), Route(c), Send(c)]).value;
            && q'.seen == map[] && q'.closing.Open? && q'.submitters == q.submitters && q'.dropped == q.dropped
            && q'.records == q.records
            && q'.answers == q.answers[c := Accepted(Admission(c, SAMPLE, q.clock, |q.records|))]
            && "p1" in q'.lanes
            && var adm := Admission(c, SAMPLE, q.clock, |q.records|);
               var l := if "p1" in q.lanes then q.lanes["p1"] else NEW_LANE;
               q'.lanes["p1"] == l.(channel := l.channel + [adm], sent := l.sent + [adm])
  {
    hide Run, Apply;
    SampleSteps(q, c);
    var q1 := Apply(q, Check(c, SAMPLE)).value;
    var q2 := Apply(q1, Route(c)).value;
    var q3 := Apply(q2, Send(c)).value;
    RunOne(q, Check(c, SAMPLE), [Route(c), Send(c)]);
    RunOne(q1, Route(c), [Send(c)]);
    RunNothing(q3);
    RunOne(q2, Send(c), []);
    assert [Check(c, SAMPLE)] + [Route(c), Send(c)] == [Check(c, SAMPLE), Route(c), Send(c)];
    assert [Route(c)] + [Send(c)] == [Route(c), Send(c)] && [Send(c)] + [] == [Send(c)];
  }

  /** A second Close can return while a worker still has a job to report and print. */
  lemma SecondCloseMayReturnEarly()
    ensures exists actions :: Run(Start(1, 0), actions).Some?
              && var q := Run(Start(1, 0), actions).value; !q.closing.Open? && !Quiet(q)
  {
    hide Run;
    var first := [Check(0, SAMPLE), Route(0), Send(0)];
    SampleIsAdmitted(Start(1, 0), 0);
    var q := Run(Start(1, 0), first).value;
    var closed := Apply(q, Close).value;
    RunNothing(closed);
    RunOne(q, Close, []);
    RunJoins(Start(1, 0), first, [Close] + []);
    assert !LaneQuiet(closed, "p1");
    assert Run(Start(1, 0), first + ([Close] + [])) == Some(closed);
  }

  lemma RunNothing(q: Queue)
    ensures Run(q, []) == Some(q)
  {
  }
}
