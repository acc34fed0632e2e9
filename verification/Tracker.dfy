/** The job state machine: internal/job/state.go. */
module JobState {
  import opened Bytes

  datatype State = Created | Queued | Sent | Printing | Completed | Failed | Cancelled {
    /** No further transitions are meant to leave this state (internal/job/job.go). */
    predicate Terminal() { Completed? || Failed? || Cancelled? }
  }

  datatype Transition = Transition(from: State, to: State, at: int, reason: string)

  datatype TransitionError = IllegalTransition(from: State, to: State) | MissingReason

  function Allowed(s: State): seq<State> {
    match s
    case Created => [Queued, Cancelled, Failed]
    case Queued => [Sent, Cancelled, Failed]
    case Sent => [Printing, Failed, Cancelled]
    case Printing => [Completed, Failed]
    case _ => []
  }

  predicate CanTransition(from: State, to: State) {
    to in Allowed(from)
  }

  /** The table and Terminal agree: a state is terminal exactly when nothing may follow it. */
  lemma TerminalIsDeadEnd(s: State)
    ensures s.Terminal() <==> forall t :: !CanTransition(s, t)
  {
    if !s.Terminal() {
      assert CanTransition(s, Allowed(s)[0]);
    }
  }

  /**
   * The table: one step along created, queued, sent, printing and completed; failing, before the end; and
   * cancelling, before printing.
   */
  lemma MovesExactly(from: State, to: State)
    ensures CanTransition(from, to) <==>
      || (from.Created? && to.Queued?) || (from.Queued? && to.Sent?) || (from.Sent? && to.Printing?)
      || (from.Printing? && to.Completed?)
      || (to.Failed? && !from.Completed? && !from.Failed? && !from.Cancelled?)
      || (to.Cancelled? && (from.Created? || from.Queued? || from.Sent?))
  {
  }

  /** A tracker as a value. */
  datatype Track = Track(current: State, history: seq<Transition>)

  const FRESH := Track(Created, [])

  function Move(t: Track, to: State, reason: string, at: int): Result<Track, TransitionError> {
    if !CanTransition(t.current, to) then Err(IllegalTransition(t.current, to))
    else if to == Failed && reason == "" then Err(MissingReason)
    else Ok(Track(to, t.history + [Transition(t.current, to, at, reason)]))
  }

  /** A legal move is recorded with where it came from, when and why; an illegal or unexplained one is named. */
  lemma MoveRecords(t: Track, to: State, reason: string, at: int)
    ensures match Move(t, to, reason, at)
            case Ok(t') => t'.current == to && |t'.history| == |t.history| + 1 && t.history < t'.history
                           && t'.history[|t.history|] == Transition(t.current, to, at, reason)
            case Err(MissingReason) => CanTransition(t.current, to) && to.Failed? && reason == ""
            case Err(IllegalTransition(a, b)) => !CanTransition(t.current, to) && a == t.current && b == to
  {
  }

  class Tracker {
    var current: State
    var history: seq<Transition>

    function Value(): Track
      reads this
    {
      Track(current, history)
    }

    constructor ()
      ensures Value() == FRESH
    {
      current, history := Created, [];
    }

    method To(to: State, reason: string, now: int) returns (r: Result<(), TransitionError>)
      modifies this
      ensures match Move(old(Value()), to, reason, now)
              case Ok(t) => r == Ok(()) && Value() == t
              case Err(e) => r == Err(e) && Value() == old(Value())
    {
      if !CanTransition(current, to) {
        return Err(IllegalTransition(current, to));
      }
      if to == Failed && reason == "" {
        return Err(MissingReason);
      }
      history := history + [Transition(current, to, now, reason)];
      current := to;
      return Ok(());
    }
  }

  // ---- Histories ----

  /** The history is a path of legal moves from Created to the current state; failures say why. */
  ghost predicate IsPath(t: Track) {
    && (t.history == [] ==> t.current == Created)
    && (t.history != [] ==> t.history[0].from == Created && t.history[|t.history| - 1].to == t.current)
    && (forall i :: 0 <= i < |t.history| ==> CanTransition(t.history[i].from, t.history[i].to))
    && (forall i :: 0 < i < |t.history| ==> t.history[i].from == t.history[i - 1].to)
    && (forall i :: 0 <= i < |t.history| && t.history[i].to == Failed ==> t.history[i].reason != "")
  }

  /** How far along its life a job is. */
  function Rank(s: State): nat {
    match s
    case Created => 0
    case Queued => 1
    case Sent => 2
    case Printing => 3
    case _ => 4
  }

  lemma MoveRaisesRank(from: State, to: State)
    requires CanTransition(from, to)
    ensures Rank(from) < Rank(to) <= 4
  {
  }

  lemma {:induction false} PathIsShort(t: Track)
    requires IsPath(t)
    ensures |t.history| <= Rank(t.current) <= 4
    decreases |t.history|
  {
    hide CanTransition;
    if t.history != [] {
      var n := |t.history| - 1;
      var before := Track(t.history[n].from, t.history[..n]);
      MoveRaisesRank(t.history[n].from, t.history[n].to);
      PathIsShort(before);
    }
  }

  lemma MoveKeepsPath(t: Track, to: State, reason: string, at: int)
    requires IsPath(t)
    ensures Move(t, to, reason, at).Ok? ==>
      IsPath(Move(t, to, reason, at).value) && !t.current.Terminal()
      && t.history <= Move(t, to, reason, at).value.history
  {
    hide CanTransition;
    TerminalIsDeadEnd(t.current);
  }

  datatype Call = Call(to: State, reason: string, at: int)

  /** A tracker after a list of To calls, whatever they ask for. */
  function AfterCalls(t: Track, calls: seq<Call>): Track
    decreases |calls|
  {
    if calls == [] then t
    else
      var r := Move(t, calls[0].to, calls[0].reason, calls[0].at);
      AfterCalls(if r.Ok? then r.value else t, calls[1..])
  }

  /** Whatever To is asked, the history stays a path of at most four moves, and a terminal state is final. */
  lemma {:induction false} HistoryIsAlwaysAPath(t: Track, calls: seq<Call>)
    requires IsPath(t)
    ensures IsPath(AfterCalls(t, calls)) && |AfterCalls(t, calls).history| <= 4
    ensures t.history <= AfterCalls(t, calls).history
    ensures t.current.Terminal() ==> AfterCalls(t, calls) == t
    decreases |calls|
  {
    if calls == [] {
      PathIsShort(t);
    } else {
      hide IsPath, Move;
      var r := Move(t, calls[0].to, calls[0].reason, calls[0].at);
      MoveKeepsPath(t, calls[0].to, calls[0].reason, calls[0].at);
      HistoryIsAlwaysAPath(if r.Ok? then r.value else t, calls[1..]);
    }
  }
}
