/** What becomes of an accepted job: the promise of SubmitResult in internal/queue/queue.go, and where it ends. */
module QueueFate {
  import opened Bytes
  import opened Dedup
  import opened PrintWorker
  import opened PrintQueue
  import opened QueueProperties

  // ---- Every accepted job is accounted for ----

  /** Jobs on a channel come from accepted submissions, one from each. */
  ghost predicate SentAccounted(sent: seq<Admission>, answers: map<nat, Answer>, dropped: set<nat>) {
    && (forall i :: 0 <= i < |sent| ==>
          sent[i].caller in answers && answers[sent[i].caller] == Accepted(sent[i]) && sent[i].caller !in dropped)
    && (forall i, k :: 0 <= i < k < |sent| ==> sent[i].caller != sent[k].caller)
  }

  ghost function SentBy(q: Queue, p: string): seq<Admission> {
    if p in q.lanes then q.lanes[p].sent else []
  }

  /** An accepted job was put on its printer's channel, unless it was dropped. */
  ghost predicate AnswerAccounted(q: Queue, c: nat, adm: Admission) {
    && adm.caller == c
    && adm.job.printer in q.lanes
    && (adm in SentBy(q, adm.job.printer) <==> c !in q.dropped)
  }

  ghost predicate AnswersAccounted(q: Queue) {
    forall c :: c in q.answers && q.answers[c].Accepted? ==> AnswerAccounted(q, c, q.answers[c].adm)
  }

  /** Callers still inside Submit have no answer; dropped jobs were answered Accepted, after the queue was closed. */
  ghost predicate CallersAccounted(q: Queue) {
    && (forall c :: c in q.submitters ==> c !in q.answers && q.submitters[c].adm.caller == c)
    && (forall c :: c in q.dropped ==> c in q.answers && q.answers[c].Accepted? && !q.closing.Open?)
  }

  ghost predicate Accounted(q: Queue) {
    && CallersAccounted(q)
    && AnswersAccounted(q)
    && forall p :: SentAccounted(SentBy(q, p), q.answers, q.dropped)
  }

  lemma OnlySendSends(q: Queue, a: Action, p: string)
    requires Apply(q, a).Some? && !a.Send?
    ensures q.lanes.Keys <= Apply(q, a).value.lanes.Keys
    ensures SentBy(Apply(q, a).value, p) == SentBy(q, p)
  {
    hide Pruned, Has, Validate, Noted;
  }

  /** A step answers at most one caller, who had no answer before; Accepted is the answer to a job sent or dropped. */
  ghost predicate AnswersOne(q: Queue, a: Action, q': Queue, c: nat) {
    || (q'.answers == q.answers && q'.dropped == q.dropped)
    || (c !in q.answers && c in q'.answers && q'.answers == q.answers[c := q'.answers[c]]
        && q'.dropped == (if a == Drop(c) then q.dropped + {c} else q.dropped)
        && (q'.answers[c].Accepted? ==>
              c in q.submitters && q'.answers[c].adm == q.submitters[c].adm && (a == Send(c) || a == Drop(c))))
  }

  function CallerOf(a: Action): nat {
    if a.Check? || a.Route? || a.Send? || a.Drop? then a.caller else 0
  }

  lemma StepKeepsCallers(q: Queue, a: Action)
    requires CallersAccounted(q) && Apply(q, a).Some?
    requires a.Drop? && a.caller in q.submitters ==> !q.closing.Open?
    ensures CallersAccounted(Apply(q, a).value)
  {
    hide LaneApply, Pruned, Has, Validate, Noted;
  }

  lemma StepAnswers(q: Queue, a: Action)
    requires CallersAccounted(q) && Apply(q, a).Some?
    ensures AnswersOne(q, a, Apply(q, a).value, CallerOf(a))
  {
    hide LaneApply, Pruned, Has, Validate, Noted;
  }

  /** Submit meets a stopped worker only when Close was called after the job had found its worker. */
  lemma DropExactly(q: Queue, c: nat)
    requires Inv(q) && c in q.submitters && q.submitters[c].Routed?
    ensures Apply(q, Drop(c)).Some? <==> !q.closing.Open?
  {
    hide LaneOk, Clear, Reflects, Ascending;
  }

  /** A routed job joins its channel, at the end, exactly when fewer than 64 are waiting. */
  lemma SendExactly(q: Queue, c: nat)
    requires Inv(q) && c in q.submitters && q.submitters[c].Routed?
    ensures var p := q.submitters[c].adm.job.printer;
            && p in q.lanes
            && (Apply(q, Send(c)).Some? <==> |q.lanes[p].channel| < 64)
            && (Apply(q, Send(c)).Some? ==>
                  Apply(q, Send(c)).value.lanes[p].channel == q.lanes[p].channel + [q.submitters[c].adm])
  {
    hide LaneOk, Clear, Reflects, Ascending;
  }

  /** The record of a finished job is made for its printer and ID, at the time it finishes. */
  lemma RecordExactly(q: Queue, p: string)
    requires Inv(q) && Apply(q, Action.Record(p)).Some?
    ensures var q', l := Apply(q, Action.Record(p)).value, q.lanes[p];
            && l.busy.Holding? && l.busy.stage.Recording?
            && q'.records == q.records + [Entry(p, l.busy.adm.job.id, q.clock)]
            && q'.lanes[p].done == l.done + [Finished(l.busy.adm, l.busy.stage.outcome)]
  {
    hide Clear, Trace, Partial, StageOk, Reflects, Ascending, Noted;
    var l := q.lanes[p];
    assert LaneOk(l, p, q.records, q.retention);
    assert l.sent[|l.done|] == l.busy.adm;
  }

  lemma SentAccountedLater(sent: seq<Admission>, q: Queue, a: Action, q': Queue, c: nat)
    requires SentAccounted(sent, q.answers, q.dropped) && AnswersOne(q, a, q', c)
    ensures SentAccounted(sent, q'.answers, q'.dropped)
  {
  }

  lemma SentAccountedMore(sent: seq<Admission>, adm: Admission, answers: map<nat, Answer>, dropped: set<nat>)
    requires SentAccounted(sent, answers, dropped)
    requires adm.caller in answers && answers[adm.caller] == Accepted(adm) && adm.caller !in dropped
    requires adm !in sent
    ensures SentAccounted(sent + [adm], answers, dropped)
  {
    var all := sent + [adm];
    forall i | 0 <= i < |sent|
      ensures all[i].caller != adm.caller
    {
      assert all[i] == sent[i] && sent[i] in sent;
    }
  }

  lemma SendSends(q: Queue, c: nat, p: string)
    requires Inv(q) && CallersAccounted(q) && Apply(q, Send(c)).Some?
    ensures var q', adm := Apply(q, Send(c)).value, q.submitters[c].adm;
            && q'.lanes.Keys == q.lanes.Keys && adm.caller == c && q'.dropped == q.dropped && c !in q.dropped
            && adm.job.printer in q.lanes
            && SentBy(q', p) == if p == adm.job.printer then SentBy(q, p) + [adm] else SentBy(q, p)
  {
    hide LaneOk, Clear, Reflects, Ascending;
  }

  lemma NotSentBefore(q: Queue, c: nat, p: string)
    requires Accounted(q) && c in q.submitters
    ensures q.submitters[c].adm !in SentBy(q, p)
  {
    hide AnswersAccounted, SentBy;
    assert SentAccounted(SentBy(q, p), q.answers, q.dropped);
  }

  lemma StepKeepsSent(q: Queue, a: Action, c: nat, p: string)
    requires Inv(q) && Accounted(q) && Apply(q, a).Some? && AnswersOne(q, a, Apply(q, a).value, c)
    requires a.Send? ==>
      && a.caller in q.submitters
      && Apply(q, a).value.answers == q.answers[a.caller := Accepted(q.submitters[a.caller].adm)]
    ensures SentAccounted(SentBy(Apply(q, a).value, p), Apply(q, a).value.answers, Apply(q, a).value.dropped)
  {
    hide Inv, Apply, AnswersAccounted, SentBy, SentAccounted, AnswersOne;
    var q' := Apply(q, a).value;
    SentAccountedLater(SentBy(q, p), q, a, q', c);
    if a.Send? {
      SendSends(q, a.caller, p);
      NotSentBefore(q, a.caller, p);
      if p == q.submitters[a.caller].adm.job.printer {
        SentAccountedMore(SentBy(q, p), q.submitters[a.caller].adm, q'.answers, q'.dropped);
      }
    } else {
      OnlySendSends(q, a, p);
    }
  }

  lemma NewAnswerAccounted(q: Queue, a: Action, c: nat)
    requires Inv(q) && Accounted(q) && Apply(q, a).Some? && (a == Send(c) || a == Drop(c))
    ensures c in q.submitters && AnswerAccounted(Apply(q, a).value, c, q.submitters[c].adm)
  {
    hide LaneOk, Clear, Reflects, Ascending, AnswersAccounted, SentBy, SentAccounted;
    var adm := q.submitters[c].adm;
    if a.Send? {
      SendSends(q, c, adm.job.printer);
    } else {
      OnlySendSends(q, a, adm.job.printer);
      NotSentBefore(q, c, adm.job.printer);
    }
  }

  lemma OldAnswerAccounted(q: Queue, a: Action, c: nat, c': nat, adm: Admission)
    requires Inv(q) && Accounted(q) && Apply(q, a).Some?
    requires AnswersOne(q, a, Apply(q, a).value, c)
    requires AnswerAccounted(q, c', adm) && c' in q.answers
    ensures AnswerAccounted(Apply(q, a).value, c', adm)
  {
    hide Inv, Apply, AnswersAccounted, SentBy, SentAccounted;
    if a.Send? {
      SendIsSubmitted(q, a.caller);
      SendSends(q, a.caller, adm.job.printer);
    } else {
      OnlySendSends(q, a, adm.job.printer);
    }
  }

  lemma SendIsSubmitted(q: Queue, c: nat)
    requires Apply(q, Send(c)).Some?
    ensures c in q.submitters && Apply(q, Send(c)).value.answers == q.answers[c := Accepted(q.submitters[c].adm)]
  {
  }

  lemma DropIsRouted(q: Queue, c: nat)
    requires Apply(q, Drop(c)).Some?
    ensures c in q.submitters && q.submitters[c].Routed?
  {
  }

  lemma StepAccounted(q: Queue, a: Action)
    requires Inv(q) && Accounted(q) && Apply(q, a).Some?
    ensures Accounted(Apply(q, a).value)
  {
    hide Inv, Apply, SentBy, SentAccounted, CallersAccounted, AnswerAccounted;
    var q' := Apply(q, a).value;
    var c := CallerOf(a);
    StepAnswers(q, a);
    if a.Drop? {
      DropIsRouted(q, a.caller);
      DropExactly(q, a.caller);
    }
    StepKeepsCallers(q, a);
    if a.Send? {
      SendIsSubmitted(q, a.caller);
    }
    forall p
      ensures SentAccounted(SentBy(q', p), q'.answers, q'.dropped)
    {
      StepKeepsSent(q, a, c, p);
    }
    forall c' | c' in q'.answers && q'.answers[c'].Accepted?
      ensures AnswerAccounted(q', c', q'.answers[c'].adm)
    {
      if c' in q.answers {
        OldAnswerAccounted(q, a, c, c', q.answers[c'].adm);
      } else {
        NewAnswerAccounted(q, a, c');
      }
    }
  }

  lemma {:induction false} RunAccounted(q: Queue, actions: seq<Action>)
    requires Inv(q) && Accounted(q) && Run(q, actions).Some?
    ensures Inv(Run(q, actions).value) && Accounted(Run(q, actions).value)
    decreases |actions|
  {
    hide Inv, Apply, Accounted;
    if actions != [] {
      StepKeepsInv(q, actions[0]);
      StepAccounted(q, actions[0]);
      RunAccounted(Apply(q, actions[0]).value, actions[1..]);
    }
  }

  lemma NothingAccounted(retention: int, clock: int)
    requires retention > 0
    ensures Inv(Start(retention, clock)) && Accounted(Start(retention, clock))
  {
    StartIsOk(retention, clock);
  }

  lemma {:induction false} DroppedByDrop(q: Queue, actions: seq<Action>, c: nat)
    requires Run(q, actions).Some?
    ensures c in Run(q, actions).value.dropped <==> c in q.dropped || Drop(c) in actions
    decreases |actions|
  {
    hide LaneApply, Pruned, Has, Validate, Noted;
    if actions != [] {
      DroppedByDrop(Apply(q, actions[0]).value, actions[1..], c);
      assert Drop(c) in actions <==> Drop(c) == actions[0] || Drop(c) in actions[1..];
    }
  }

  // ---- Accepted means queued, until Close ----

  /**
   * In every run, a job answered Accepted was put on its printer's channel exactly when its Submit call
   * did not meet a stopped worker, and no call meets one before Close.
   */
  lemma AcceptedIsQueuedExactly(retention: int, clock: int, actions: seq<Action>, c: nat)
    requires retention > 0
    requires Run(Start(retention, clock), actions).Some?
    requires var q := Run(Start(retention, clock), actions).value; c in q.answers && q.answers[c].Accepted?
    ensures var q := Run(Start(retention, clock), actions).value;
            var adm := q.answers[c].adm;
            && adm.caller == c && adm.job.printer in q.lanes
            && (adm in q.lanes[adm.job.printer].sent <==> Drop(c) !in actions)
            && (Drop(c) in actions ==> !q.closing.Open?)
  {
    hide Run, Apply, Inv, SentAccounted;
    NothingAccounted(retention, clock);
    RunAccounted(Start(retention, clock), actions);
    DroppedByDrop(Start(retention, clock), actions, c);
  }

  // ---- Which accepted jobs can still be printed ----

  /** The job was dropped, or lies in the channel of a worker that has ended. */
  ghost predicate Lost(q: Queue, c: nat, adm: Admission) {
    || c in q.dropped
    || (adm.job.printer in q.lanes && q.lanes[adm.job.printer].exited && adm in q.lanes[adm.job.printer].channel)
  }

  ghost predicate Done(q: Queue, adm: Admission) {
    adm.job.printer in q.lanes && adm in Jobs(q.lanes[adm.job.printer].done)
  }

  lemma LostIsClosed(q: Queue, c: nat, adm: Admission)
    requires Inv(q) && Accounted(q) && Lost(q, c, adm)
    ensures !q.closing.Open?
  {
    hide Clear, Trace, Partial, StageOk, Reflects, Ascending, AnswersAccounted, SentAccounted;
    if c !in q.dropped {
      assert LaneOk(q.lanes[adm.job.printer], adm.job.printer, q.records, q.retention);
    }
  }

  lemma LostIsNotDone(q: Queue, c: nat, adm: Admission)
    requires Inv(q) && Accounted(q) && c in q.answers && q.answers[c] == Accepted(adm) && Lost(q, c, adm)
    ensures !Done(q, adm)
  {
    hide Clear, Trace, Partial, StageOk, Reflects, Ascending;
    assert AnswerAccounted(q, c, adm);
    var p := adm.job.printer;
    var l := q.lanes[p];
    assert LaneOk(l, p, q.records, q.retention) && SentAccounted(SentBy(q, p), q.answers, q.dropped);
    if c !in q.dropped {
      var k :| 0 <= k < |l.channel| && l.channel[k] == adm;
      assert l.sent[|l.done| + |Current(l.busy)| + k] == adm;
    }
    forall i | 0 <= i < |l.done|
      ensures Jobs(l.done)[i] != adm
    {
      assert l.sent[i] == Jobs(l.done)[i] && l.sent[i] in l.sent;
    }
  }

  lemma LostStays(q: Queue, a: Action, c: nat, adm: Admission)
    requires Inv(q) && Lost(q, c, adm) && Apply(q, a).Some?
    ensures Lost(Apply(q, a).value, c, adm)
  {
    hide Inv, Pruned, Has, Validate, Noted;
    if adm.job.printer in q.lanes {
      ExitedIsIdle(q, adm.job.printer);
    }
  }

  lemma AnswerStays(q: Queue, a: Action, c: nat)
    requires Accounted(q) && c in q.answers && Apply(q, a).Some?
    ensures c in Apply(q, a).value.answers && Apply(q, a).value.answers[c] == q.answers[c]
  {
    hide Apply, AnswersAccounted, SentAccounted, SentBy;
    StepAnswers(q, a);
  }

  lemma {:induction false} LostForGood(q: Queue, actions: seq<Action>, c: nat, adm: Admission)
    requires Inv(q) && Accounted(q) && c in q.answers && q.answers[c] == Accepted(adm) && Lost(q, c, adm)
    requires Run(q, actions).Some?
    ensures !Done(Run(q, actions).value, adm)
    decreases |actions|
  {
    hide Inv, Apply, Accounted, Lost, Done;
    if actions == [] {
      LostIsNotDone(q, c, adm);
    } else {
      StepKeepsInv(q, actions[0]);
      StepAccounted(q, actions[0]);
      LostStays(q, actions[0], c, adm);
      AnswerStays(q, actions[0], c);
      LostForGood(Apply(q, actions[0]).value, actions[1..], c, adm);
    }
  }

  /** What the worker does next on its own account, if its printer works. */
  function NextStep(b: Hand): LaneStep
    requires b.Holding? ==> !b.stage.Recording?
  {
    match b
    case Idle => Take
    case Holding(_, Announcing(_)) => LaneStep.Announce
    case Holding(adm, Copying(n)) => if n < adm.job.copies then PrintOk else Finish
    case Holding(_, Failing(_, _)) => Finish
  }

  function NextAction(l: Lane, p: string): Action {
    if l.busy.Holding? && l.busy.stage.Recording? then Action.Record(p) else Work(p, NextStep(l.busy))
  }

  /** How many steps of its own the worker is from finishing the job in hand. */
  ghost function Remaining(b: Hand): nat {
    match b
    case Idle => 0
    case Holding(adm, Announcing(n)) =>
      (if adm.job.copies > 0 then adm.job.copies else 0) + 6 - (if n < 3 then n else 3)
    case Holding(adm, Copying(n)) => 2 + if n < adm.job.copies then adm.job.copies - n else 0
    case Holding(_, Failing(_, _)) => 2
    case Holding(_, Recording(_)) => 1
  }

  /** No Print call has failed for the job in hand. */
  ghost predicate Unfailed(b: Hand) {
    b.Holding? ==> b.stage.Announcing? || b.stage.Copying? || b.stage == Recording(Printed)
  }

  /** One step closer to finishing the job in hand, or one job taken from the channel. */
  ghost predicate Nearer(l: Lane, l': Lane) {
    && !l'.exited && l'.sent == l.sent && l.done <= l'.done && |l'.done| <= |l.done| + 1
    && (if l.busy.Idle? then |l'.channel| < |l.channel|
        else l'.channel == l.channel && Remaining(l'.busy) < Remaining(l.busy))
    && (Unfailed(l.busy) ==>
          Unfailed(l'.busy) && forall k :: |l.done| <= k < |l'.done| ==> l'.done[k].outcome.Printed?)
  }

  lemma NextStepWorks(l: Lane)
    requires StageOk(l.busy) && !l.exited && (l.busy.Holding? ==> !l.busy.stage.Recording?)
    requires l.busy.Idle? ==> l.channel != []
    ensures var next := LaneApply(l, NextStep(l.busy)); next.Some? && Nearer(l, next.value)
  {
  }

  lemma RecordIsNearer(l: Lane)
    requires !l.exited && l.busy.Holding? && l.busy.stage.Recording?
    ensures Nearer(l, l.(busy := Idle, done := l.done + [Finished(l.busy.adm, l.busy.stage.outcome)]))
  {
  }

  /** Nobody entered or left Submit or Close, and no time passed. */
  ghost predicate SameCallers(q: Queue, q': Queue) {
    && q'.submitters == q.submitters && q'.answers == q.answers && q'.closing == q.closing
    && q'.clock == q.clock && q'.retention == q.retention
  }

  lemma NextActionWorks(q: Queue, p: string)
    requires Inv(q) && p in q.lanes && !q.lanes[p].exited
    requires q.lanes[p].busy.Idle? ==> q.lanes[p].channel != []
    ensures var next := Apply(q, NextAction(q.lanes[p], p));
            next.Some? && p in next.value.lanes && Nearer(q.lanes[p], next.value.lanes[p]) && SameCallers(q, next.value)
  {
    hide Clear, Trace, Partial, Reflects, Ascending, Noted, Nearer, NextStep, LaneApply, StageOk;
    var l := q.lanes[p];
    assert LaneOk(l, p, q.records, q.retention);
    if l.busy.Holding? && l.busy.stage.Recording? {
      RecordIsNearer(l);
    } else {
      NextStepWorks(l);
    }
  }

  /** A worker that has not ended can go on until the i-th job it was sent is done. */
  lemma CanFinish(q: Queue, p: string, i: nat) returns (actions: seq<Action>)
    requires Inv(q) && p in q.lanes && !q.lanes[p].exited && i < |q.lanes[p].sent|
    ensures Run(q, actions).Some? && p in Run(q, actions).value.lanes
    ensures var l, l' := q.lanes[p], Run(q, actions).value.lanes[p];
            && l'.sent == l.sent && l.done <= l'.done && !l'.exited
            && |l'.done| == (if i < |l.done| then |l.done| else i + 1)
            && (Unfailed(l.busy) ==>
                  Unfailed(l'.busy) && forall k :: |l.done| <= k < |l'.done| ==> l'.done[k].outcome.Printed?)
    ensures SameCallers(q, Run(q, actions).value)
    decreases |q.lanes[p].channel|, Remaining(q.lanes[p].busy)
  {
    hide Inv, Apply, NextAction, Remaining, Unfailed;
    var l := q.lanes[p];
    if i < |l.done| {
      actions := [];
    } else {
      UndoneIsWaiting(q, p, i);
      NextActionWorks(q, p);
      var a := NextAction(l, p);
      StepKeepsInv(q, a);
      var rest := CanFinish(Apply(q, a).value, p, i);
      actions := [a] + rest;
      RunOne(q, a, rest);
    }
  }

  lemma UndoneIsWaiting(q: Queue, p: string, i: nat)
    requires Inv(q) && p in q.lanes && |q.lanes[p].done| <= i < |q.lanes[p].sent|
    ensures q.lanes[p].busy.Idle? ==> q.lanes[p].channel != []
  {
    hide Clear, Trace, Partial, StageOk, Reflects, Ascending;
    assert LaneOk(q.lanes[p], p, q.records, q.retention);
  }

  lemma SentIsWhere(q: Queue, p: string, adm: Admission)
    requires Inv(q) && p in q.lanes && adm in q.lanes[p].sent && q.lanes[p].exited
    ensures adm in Jobs(q.lanes[p].done) || adm in q.lanes[p].channel
  {
    hide Clear, Trace, Partial, StageOk, Reflects, Ascending;
    assert LaneOk(q.lanes[p], p, q.records, q.retention);
  }

  lemma KeptCanFinish(q: Queue, c: nat, adm: Admission) returns (more: seq<Action>)
    requires Inv(q) && Accounted(q) && c in q.answers && q.answers[c] == Accepted(adm) && !Lost(q, c, adm)
    ensures Run(q, more).Some? && Done(Run(q, more).value, adm)
  {
    hide Inv, SentAccounted, CallersAccounted;
    assert AnswerAccounted(q, c, adm);
    var p := adm.job.printer;
    var i: nat :| i < |q.lanes[p].sent| && q.lanes[p].sent[i] == adm;
    more := [];
    if q.lanes[p].exited {
      SentIsWhere(q, p, adm);
    } else {
      more := CanFinish(q, p, i);
      StepsKeepOrder(q, more, p, i);
    }
  }

  lemma StepsKeepOrder(q: Queue, more: seq<Action>, p: string, i: nat)
    requires Inv(q) && Run(q, more).Some? && p in Run(q, more).value.lanes
    requires i < |Run(q, more).value.lanes[p].done|
    ensures var l := Run(q, more).value.lanes[p];
            i < |l.sent| && l.done[i].adm == l.sent[i] && l.sent[i] in Jobs(l.done)
  {
    hide Run, Clear, Trace, Partial, StageOk, Reflects, Ascending;
    RunKeepsInv(q, more);
    var q' := Run(q, more).value;
    assert LaneOk(q'.lanes[p], p, q'.records, q'.retention);
    assert q'.lanes[p].sent[i] == Jobs(q'.lanes[p].done)[i];
  }

  /**
   * A job answered Accepted can still be brought to its end, whatever has happened so far, exactly when it
   * was neither dropped nor left in the channel of a worker that has ended; and both need Close to have been called.
   */
  lemma AcceptedCanEndExactly(retention: int, clock: int, actions: seq<Action>, c: nat)
    requires retention > 0
    requires Run(Start(retention, clock), actions).Some?
    requires var q := Run(Start(retention, clock), actions).value; c in q.answers && q.answers[c].Accepted?
    ensures var q := Run(Start(retention, clock), actions).value;
            var adm := q.answers[c].adm;
            && ((exists more :: Run(q, more).Some? && Done(Run(q, more).value, adm)) <==> !Lost(q, c, adm))
            && (Lost(q, c, adm) ==> !q.closing.Open?)
  {
    hide Run, Inv, Accounted, Lost, Done;
    NothingAccounted(retention, clock);
    RunAccounted(Start(retention, clock), actions);
    var q := Run(Start(retention, clock), actions).value;
    var adm := q.answers[c].adm;
    if Lost(q, c, adm) {
      LostIsClosed(q, c, adm);
      forall more | Run(q, more).Some?
        ensures !Done(Run(q, more).value, adm)
      {
        LostForGood(q, more, c, adm);
      }
    } else {
      var more := KeptCanFinish(q, c, adm);
    }
  }

  // ---- Two ways to lose an accepted job ----

  /** Submit can answer Accepted although the stopped worker never gets the job. */
  lemma AcceptedCanBeDropped()
    ensures exists actions :: Run(Start(1, 0), actions).Some?
              && var q := Run(Start(1, 0), actions).value;
                 0 in q.answers && q.answers[0].Accepted? && 0 in q.dropped
  {
    var q0 := Start(1, 0);
    assert Pruned(map[], -1) == map[];
    var q1 := Apply(q0, Check(0, SAMPLE)).value;
    var q2 := Apply(q1, Route(0)).value;
    var q3 := Apply(q2, Close).value;
    var q4 := Apply(q3, Drop(0)).value;
    RunNothing(q4);
    RunOne(q3, Drop(0), []);
    RunOne(q2, Close, [Drop(0)] + []);
    RunOne(q1, Route(0), [Close] + ([Drop(0)] + []));
    RunOne(q0, Check(0, SAMPLE), [Route(0)] + ([Close] + ([Drop(0)] + [])));
  }

  /** Close can end a worker that still has an accepted job in its channel. */
  lemma AcceptedCanBeStranded()
    ensures exists actions :: Run(Start(1, 0), actions).Some?
              && var q := Run(Start(1, 0), actions).value;
                 0 in q.answers && q.answers[0].Accepted? && 0 !in q.dropped && Lost(q, 0, q.answers[0].adm)
  {
    hide Run;
    var first := [Check(0, SAMPLE), Route(0), Send(0)];
    SampleIsAdmitted(Start(1, 0), 0);
    var q := Run(Start(1, 0), first).value;
    var closed := Apply(q, Close).value;
    var last := Apply(closed, Work("p1", Exit)).value;
    RunNothing(last);
    RunOne(closed, Work("p1", Exit), []);
    RunOne(q, Close, [Work("p1", Exit)] + []);
    RunJoins(Start(1, 0), first, [Close] + ([Work("p1", Exit)] + []));
    assert Lost(last, 0, q.answers[0].adm);
  }

  // ---- Two ways to print a job twice ----

  /** The i-th job recorded for a printer, in the log. */
  lemma {:induction false} RecordAt(records: seq<Entry>, p: string, i: nat) returns (r: nat)
    requires i < |RecordedJobs(records, p)|
    ensures r < |records| && records[r].printer == p && records[r].job == RecordedJobs(records, p)[i]
    ensures |RecordedJobs(records[..r], p)| == i
  {
    var init := records[..|records| - 1];
    if i < |RecordedJobs(init, p)| {
      r := RecordAt(init, p, i);
      assert init[..r] == records[..r];
    } else {
      r := |init|;
    }
  }

  /**
   * When a printer is given a job whose ID it has finished before, the second submission was checked
   * either before the record of the first was made, or after that record had left the retention window.
   */
  lemma RepeatsEscapeTheWindow(retention: int, clock: int, actions: seq<Action>, p: string, i: nat, k: nat)
    requires retention > 0
    requires Run(Start(retention, clock), actions).Some?
    requires var q := Run(Start(retention, clock), actions).value;
             p in q.lanes && i < |q.lanes[p].done| && k < |q.lanes[p].sent| && i < k
             && q.lanes[p].done[i].adm.job.id == q.lanes[p].sent[k].job.id
    ensures var q := Run(Start(retention, clock), actions).value;
            var adm := q.lanes[p].sent[k];
            exists r :: 0 <= r < |q.records| && q.records[r].printer == p && q.records[r].job == adm.job.id
                        && |RecordedJobs(q.records[..r], p)| == i
                        && (adm.known <= r || q.records[r].at < adm.at - retention)
  {
    hide Run, RecordedJobs, Inv;
    StartIsOk(retention, clock);
    NothingRecorded(retention, clock);
    RunRecordsMatch(Start(retention, clock), actions);
    AdmittedWereClear(retention, clock, actions, p, k);
    SequentialPerPrinter(retention, clock, actions, p);
    var q := Run(Start(retention, clock), actions).value;
    var adm := q.lanes[p].sent[k];
    assert RecordedJobs(q.records, p) == FinishedIds(DoneBy(q, p));
    assert FinishedIds(DoneBy(q, p))[i] == adm.job.id;
    var r := RecordAt(q.records, p, i);
    if r < adm.known {
      assert q.records[..adm.known][r] == q.records[r];
    }
  }

  /** Suppression starts at the record, not at acceptance: two early submissions of one job are both enqueued. */
  lemma SameJobCanBeSentTwice()
    ensures exists actions :: Run(Start(1, 0), actions).Some?
              && "p1" in Run(Start(1, 0), actions).value.lanes
              && var sent := Run(Start(1, 0), actions).value.lanes["p1"].sent; |sent| == 2 && sent[0].job == sent[1].job
  {
    hide Apply, Run;
    var first, second := [Check(0, SAMPLE), Route(0), Send(0)], [Check(1, SAMPLE), Route(1), Send(1)];
    SampleIsAdmitted(Start(1, 0), 0);
    SampleIsAdmitted(Run(Start(1, 0), first).value, 1);
    RunJoins(Start(1, 0), first, second);
    assert Run(Start(1, 0), first + second).Some?;
  }

  // ---- Which submissions can be printed ----

  ghost predicate PrintedFor(q: Queue, adm: Admission) {
    && adm.job.printer in q.lanes
    && exists k :: 0 <= k < |q.lanes[adm.job.printer].done|
                   && q.lanes[adm.job.printer].done[k] == Finished(adm, Printed)
  }

  /** A Submit call that ended without acceptance, or that will find the queue closed. */
  ghost predicate Barred(q: Queue, c: nat) {
    || (c in q.answers && !q.answers[c].Accepted?)
    || (c in q.submitters && q.submitters[c].Checked? && !q.closing.Open?)
  }

  lemma BarredIsNotDone(q: Queue, c: nat, adm: Admission)
    requires Inv(q) && Accounted(q) && Barred(q, c) && adm.caller == c
    ensures !Done(q, adm)
  {
    hide Clear, Trace, Partial, StageOk, Reflects, Ascending, AnswersAccounted;
    var p := adm.job.printer;
    if p in q.lanes {
      var l := q.lanes[p];
      assert LaneOk(l, p, q.records, q.retention) && SentAccounted(SentBy(q, p), q.answers, q.dropped);
      forall i | 0 <= i < |l.done|
        ensures Jobs(l.done)[i] != adm
      {
        assert l.sent[i] == Jobs(l.done)[i] && SentBy(q, p)[i] == l.sent[i];
      }
    }
  }

  lemma BarredStays(q: Queue, a: Action, c: nat)
    requires Accounted(q) && Barred(q, c) && Apply(q, a).Some?
    ensures Barred(Apply(q, a).value, c)
  {
    hide LaneApply, Pruned, Has, Validate, Noted, AnswersAccounted, SentAccounted, SentBy;
    if c in q.answers {
      AnswerStays(q, a, c);
    }
  }

  lemma {:induction false} BarredForGood(q: Queue, actions: seq<Action>, c: nat, adm: Admission)
    requires Inv(q) && Accounted(q) && Barred(q, c) && adm.caller == c && Run(q, actions).Some?
    ensures !Done(Run(q, actions).value, adm)
    decreases |actions|
  {
    hide Inv, Apply, Accounted, Barred, Done;
    if actions == [] {
      BarredIsNotDone(q, c, adm);
    } else {
      StepKeepsInv(q, actions[0]);
      StepAccounted(q, actions[0]);
      BarredStays(q, actions[0], c);
      BarredForGood(Apply(q, actions[0]).value, actions[1..], c, adm);
    }
  }

  /** The worker of an open queue can catch up with everything sent to it. */
  lemma CanCatchUp(q: Queue, p: string) returns (actions: seq<Action>)
    requires Inv(q) && p in q.lanes && q.closing.Open?
    ensures Run(q, actions).Some? && Inv(Run(q, actions).value) && SameCallers(q, Run(q, actions).value)
    ensures var q' := Run(q, actions).value;
            p in q'.lanes && q'.lanes[p].channel == [] && q'.lanes[p].busy.Idle? && !q'.lanes[p].exited
            && |q'.lanes[p].done| == |q'.lanes[p].sent|
  {
    hide Run, Clear, Trace, Partial, StageOk, Reflects, Ascending;
    assert LaneOk(q.lanes[p], p, q.records, q.retention);
    var n := |q.lanes[p].sent|;
    actions := [];
    RunNothing(q);
    if n > 0 {
      actions := CanFinish(q, p, n - 1);
    }
    RunKeepsInv(q, actions);
    var q' := Run(q, actions).value;
    assert LaneOk(q'.lanes[p], p, q'.records, q'.retention);
  }

  lemma RoutedCanPrint(q: Queue, c: nat, adm: Admission) returns (more: seq<Action>)
    requires Inv(q) && q.closing.Open? && c in q.submitters && q.submitters[c] == Routed(adm)
    ensures Run(q, more).Some? && PrintedFor(Run(q, more).value, adm)
  {
    hide Run, LaneOk, Clear, Reflects, Ascending;
    var p := adm.job.printer;
    var before := CanCatchUp(q, p);
    var q2 := Run(q, before).value;
    var q3 := Apply(q2, Send(c)).value;
    StepKeepsInv(q2, Send(c));
    var i := |q2.lanes[p].sent|;
    assert q3.lanes[p].sent[i] == adm;
    var after := CanFinish(q3, p, i);
    StepsKeepOrder(q3, after, p, i);
    RunOne(q2, Send(c), after);
    more := before + ([Send(c)] + after);
    RunJoins(q, before, [Send(c)] + after);
    assert Run(q, more).value.lanes[p].done[i] == Finished(adm, Printed);
  }

  lemma CheckedCanPrint(q: Queue, c: nat, adm: Admission) returns (more: seq<Action>)
    requires Inv(q) && q.closing.Open? && c in q.submitters && q.submitters[c] == Checked(adm)
    ensures Run(q, more).Some? && PrintedFor(Run(q, more).value, adm)
  {
    hide Inv, Run, PrintedFor;
    var q1 := Apply(q, Route(c)).value;
    StepKeepsInv(q, Route(c));
    var rest := RoutedCanPrint(q1, c, adm);
    more := [Route(c)] + rest;
    RunOne(q, Route(c), rest);
  }

  lemma CheckOutcome(q: Queue, c: nat, j: Job)
    requires Inv(q) && Apply(q, Check(c, j)).Some?
    ensures var q' := Apply(q, Check(c, j)).value;
            var adm := Admission(c, j, q.clock, |q.records|);
            && q'.closing == q.closing
            && if Validate(j).None? && !Recent(q.records, j.printer, j.id, q.clock - q.retention)
               then c in q'.submitters && q'.submitters[c] == Checked(adm)
               else Barred(q', c)
  {
    hide LaneOk, Clear, Pruned, Recent, Validate;
    StoreAnswersFromLog(q.seen, q.records, q.forgotten, q.clock - q.retention, j.printer, j.id);
  }

  /**
   * In every reachable state, a fresh submission can still be printed exactly when it is valid, the queue is
   * open, and no record of its printer and job lies in the retention window, whatever was printed before.
   */
  lemma SubmissionPrintsExactly(retention: int, clock: int, actions: seq<Action>, c: nat, j: Job)
    requires retention > 0
    requires Run(Start(retention, clock), actions).Some?
    requires var q := Run(Start(retention, clock), actions).value; c !in q.submitters && c !in q.answers
    ensures var q := Run(Start(retention, clock), actions).value;
            var adm := Admission(c, j, q.clock, |q.records|);
            (exists more :: Run(q, [Check(c, j)] + more).Some? && PrintedFor(Run(q, [Check(c, j)] + more).value, adm))
            <==> Validate(j).None? && q.closing.Open? && !Recent(q.records, j.printer, j.id, q.clock - q.retention)
  {
    hide Run, Inv, Accounted, PrintedFor, Recent, Validate, Barred, Done;
    NothingAccounted(retention, clock);
    RunAccounted(Start(retention, clock), actions);
    var q := Run(Start(retention, clock), actions).value;
    FreshPrintsExactly(q, c, j);
  }

  lemma FreshPrintsExactly(q: Queue, c: nat, j: Job)
    requires Inv(q) && Accounted(q) && c !in q.submitters && c !in q.answers
    ensures var adm := Admission(c, j, q.clock, |q.records|);
            (exists more :: Run(q, [Check(c, j)] + more).Some? && PrintedFor(Run(q, [Check(c, j)] + more).value, adm))
            <==> Validate(j).None? && q.closing.Open? && !Recent(q.records, j.printer, j.id, q.clock - q.retention)
  {
    hide Run, Inv, Accounted, Recent, Validate, Done, PrintedFor;
    CheckApplies(q, c, j);
    var q', adm := Apply(q, Check(c, j)).value, Admission(c, j, q.clock, |q.records|);
    hide Apply;
    StepKeepsInv(q, Check(c, j));
    StepAccounted(q, Check(c, j));
    CheckOutcome(q, c, j);
    if Validate(j).None? && q.closing.Open? && !Recent(q.records, j.printer, j.id, q.clock - q.retention) {
      var more := CheckedCanPrint(q', c, adm);
      RunOne(q, Check(c, j), more);
    } else {
      forall more | Run(q, [Check(c, j)] + more).Some?
        ensures !PrintedFor(Run(q, [Check(c, j)] + more).value, adm)
      {
        RunOne(q, Check(c, j), more);
        BarredForGood(q', more, c, adm);
        PrintedIsDone(Run(q', more).value, adm);
      }
    }
  }

  lemma CheckApplies(q: Queue, c: nat, j: Job)
    requires c !in q.submitters && c !in q.answers
    ensures Apply(q, Check(c, j)).Some?
  {
  }

  lemma PrintedIsDone(q: Queue, adm: Admission)
    ensures PrintedFor(q, adm) ==> Done(q, adm)
  {
    if PrintedFor(q, adm) {
      var done := q.lanes[adm.job.printer].done;
      var k :| 0 <= k < |done| && done[k] == Finished(adm, Printed);
      assert Jobs(done)[k] == adm;
    }
  }

  /** And both are printed, the second one after the record of the first was made. */
  lemma SameJobCanBePrintedTwice()
    ensures exists first, second :: Run(Start(1, 0), first).Some? && Run(Run(Start(1, 0), first).value, second).Some?
              && var q1 := Run(Start(1, 0), first).value;
                 var q2 := Run(q1, second).value;
                 && "p1" in q1.lanes && |q1.lanes["p1"].done| == 1 && RecordedJobs(q1.records, "p1") == [SAMPLE.id]
                 && "p1" in q2.lanes && |q2.lanes["p1"].done| == 2
                 && forall k :: 0 <= k < 2 ==>
                      q2.lanes["p1"].done[k].adm.job == SAMPLE && q2.lanes["p1"].done[k].outcome.Printed?
  {
    hide Apply, Run, Inv, RecordedJobs;
    var a, b := [Check(0, SAMPLE), Route(0), Send(0)], [Check(1, SAMPLE), Route(1), Send(1)];
    SampleIsAdmitted(Start(1, 0), 0);
    SampleIsAdmitted(Run(Start(1, 0), a).value, 1);
    RunJoins(Start(1, 0), a, b);
    StartIsOk(1, 0);
    RunKeepsInv(Start(1, 0), a + b);
    var q := Run(Start(1, 0), a + b).value;
    var once := CanFinish(q, "p1", 0);
    RunJoins(Start(1, 0), a + b, once);
    RunKeepsInv(q, once);
    var q1 := Run(q, once).value;
    NothingRecorded(1, 0);
    RunRecordsMatch(Start(1, 0), a + b + once);
    StepsKeepOrder(q, once, "p1", 0);
    var twice := CanFinish(q1, "p1", 1);
    StepsKeepOrder(q1, twice, "p1", 0);
    StepsKeepOrder(q1, twice, "p1", 1);
    var q2 := Run(q1, twice).value;
    assert RecordedJobs(q1.records, "p1") == FinishedIds(DoneBy(q1, "p1"));
  }

  /** And a job is printed again that was checked with its record in the log, once that record has expired. */
  lemma ExpiredJobCanBePrintedAgain()
    ensures exists first, more :: Run(Start(1, 0), first).Some?
              && var q1 := Run(Start(1, 0), first).value;
                 && Run(q1, [Tick(2), Check(1, SAMPLE)] + more).Some?
                 && PrintedFor(q1, Admission(0, SAMPLE, 0, 0)) && RecordedJobs(q1.records, "p1") == [SAMPLE.id]
                 && PrintedFor(Run(q1, [Tick(2), Check(1, SAMPLE)] + more).value,
                               Admission(1, SAMPLE, q1.clock + 2, |q1.records|))
  {
    hide Run, Inv, Accounted, RecordedJobs, Recent, Validate;
    var a := [Check(0, SAMPLE), Route(0), Send(0)];
    SampleIsAdmitted(Start(1, 0), 0);
    NothingAccounted(1, 0);
    NothingRecorded(1, 0);
    RunAccounted(Start(1, 0), a);
    var q := Run(Start(1, 0), a).value;
    var once := CanFinish(q, "p1", 0);
    RunJoins(Start(1, 0), a, once);
    RunAccounted(Start(1, 0), a + once);
    RunRecordsMatch(Start(1, 0), a + once);
    StepsKeepOrder(q, once, "p1", 0);
    var q1 := Run(q, once).value;
    assert RecordedJobs(q1.records, "p1") == FinishedIds(DoneBy(q1, "p1"));
    assert PrintedFor(q1, Admission(0, SAMPLE, 0, 0)) by {
      assert q1.lanes["p1"].done[0] == Finished(Admission(0, SAMPLE, 0, 0), Printed);
    }
    var late := Apply(q1, Tick(2)).value;
    RunKeepsRetention(Start(1, 0), a + once);
    StepKeepsInv(q1, Tick(2));
    StepAccounted(q1, Tick(2));
    NothingRecent(q1);
    SampleIsValid();
    FreshPrintsExactly(late, 1, SAMPLE);
    var more :| Run(late, [Check(1, SAMPLE)] + more).Some?
      && PrintedFor(Run(late, [Check(1, SAMPLE)] + more).value, Admission(1, SAMPLE, late.clock, |late.records|));
    RunOne(q1, Tick(2), [Check(1, SAMPLE)] + more);
    assert [Tick(2)] + ([Check(1, SAMPLE)] + more) == [Tick(2), Check(1, SAMPLE)] + more;
    assert Run(Start(1, 0), a + once) == Some(q1);
  }

  lemma SampleIsValid()
    ensures Validate(SAMPLE).None?
  {
  }

  /** Two units later, every record made so far is older than one unit of retention. */
  lemma NothingRecent(q: Queue)
    requires Inv(q)
    ensures !Recent(q.records, SAMPLE.printer, SAMPLE.id, q.clock + 2 - 1)
  {
    hide LaneOk, Clear, Reflects;
  }
}
