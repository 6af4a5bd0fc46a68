/** Which registry import may run: the import log, and the claim each start makes on it. */
module ImportRuns {
  import opened Outcomes

  datatype Failure = DidNotFinish | CouldNotStart | Failed(reason: string)

  datatype Run = Run(startedAt: nat, finishedAt: Option<nat>, ok: bool, error: Option<Failure>)

  predicate Unfinished(run: Run) { run.finishedAt.None? }

  /** The run has started, has not finished, and is not yet stale. */
  predicate IsActive(run: Run, staleAfter: nat, now: nat) {
    Unfinished(run) && now <= run.startedAt + staleAfter
  }

  predicate IsRunning(runs: seq<Run>, staleAfter: nat, now: nat) {
    exists i :: 0 <= i < |runs| && IsActive(runs[i], staleAfter, now)
  }

  /** Every unfinished run closed as failed. */
  function Closed(runs: seq<Run>, now: nat): seq<Run> {
    seq(|runs|, i requires 0 <= i < |runs| =>
      if Unfinished(runs[i]) then Run(runs[i].startedAt, Some(now), false, Some(DidNotFinish)) else runs[i])
  }

  function Begun(now: nat): Run {
    Run(now, None, false, None)
  }

  /** Run now, from the Health and database page; `launches` says whether its process starts. */
  function Started(runs: seq<Run>, staleAfter: nat, now: nat, launches: bool): Option<seq<Run>> {
    if IsRunning(runs, staleAfter, now) then None
    else Some(Closed(runs, now) + [if launches then Begun(now) else Run(now, Some(now), false, Some(CouldNotStart))])
  }

  /** The nightly timer's own claim, which leaves a stale run unfinished. */
  function Claimed(runs: seq<Run>, staleAfter: nat, now: nat): Option<seq<Run>> {
    if IsRunning(runs, staleAfter, now) then None else Some(runs + [Begun(now)])
  }

  /** A process reports how its import ended. */
  function Ended(runs: seq<Run>, i: nat, now: nat, failure: Option<Failure>): seq<Run>
    requires i < |runs|
  {
    runs[i := Run(runs[i].startedAt, Some(now), failure.None?, failure)]
  }

  class ImportLog {
    var runs: seq<Run>
    const staleAfter: nat

    constructor (staleAfter: nat)
      ensures runs == [] && this.staleAfter == staleAfter
    {
      runs, this.staleAfter := [], staleAfter;
    }

    method StartImport(now: nat, launches: bool) returns (started: bool)
      modifies this
      ensures started <==> Started(old(runs), staleAfter, now, launches).Some?
      ensures runs == if started then Started(old(runs), staleAfter, now, launches).value else old(runs)
    {
      if IsRunning(runs, staleAfter, now) {
        return false;
      }
      runs := Closed(runs, now);
      runs := runs + [Begun(now)];
      if !launches {
        var last := |runs| - 1;
        runs := runs[last := runs[last].(ok := false, error := Some(CouldNotStart), finishedAt := Some(now))];
      }
      started := true;
    }

    method ClaimUnattendedRun(now: nat) returns (claimed: bool)
      modifies this
      ensures claimed <==> Claimed(old(runs), staleAfter, now).Some?
      ensures runs == if claimed then Claimed(old(runs), staleAfter, now).value else old(runs)
    {
      if IsRunning(runs, staleAfter, now) {
        return false;
      }
      runs := runs + [Begun(now)];
      claimed := true;
    }

    method Finish(i: nat, now: nat, failure: Option<Failure>)
      requires i < |runs|
      modifies this
      ensures runs == Ended(old(runs), i, now, failure)
    {
      runs := runs[i := runs[i].(ok := failure.None?, error := failure, finishedAt := Some(now))];
    }
  }

  // ------------------------------------------------------------- over any run

  datatype Step = StartImport(launches: bool) | ClaimUnattendedRun | Finish(i: nat, failure: Option<Failure>)

  /** A step, taken `wait` after the one before. */
  datatype Event = Event(wait: nat, step: Step)

  datatype State = State(runs: seq<Run>, now: nat)

  function Apply(staleAfter: nat, state: State, event: Event): State {
    var now := state.now + event.wait;
    var runs :=
      match event.step
      case StartImport(launches) => (match Started(state.runs, staleAfter, now, launches)
        case Some(runs) => runs
        case None => state.runs)
      case ClaimUnattendedRun => (match Claimed(state.runs, staleAfter, now)
        case Some(runs) => runs
        case None => state.runs)
      case Finish(i, failure) => if i < |state.runs| then Ended(state.runs, i, now, failure) else state.runs;
    State(runs, now)
  }

  function After(staleAfter: nat, events: seq<Event>): State {
    if events == [] then State([], 0)
    else Apply(staleAfter, After(staleAfter, events[..|events| - 1]), events[|events| - 1])
  }

  /** When an unfinished run began, every run unfinished since before it was stale. */
  ghost predicate Inv(staleAfter: nat, state: State) {
    && (forall i :: 0 <= i < |state.runs| ==> state.runs[i].startedAt <= state.now)
    && (forall i, j :: 0 <= i < j < |state.runs| && Unfinished(state.runs[i]) && Unfinished(state.runs[j]) ==>
          state.runs[i].startedAt + staleAfter < state.runs[j].startedAt)
  }

  lemma {:induction false} EveryRunKeepsInv(staleAfter: nat, events: seq<Event>)
    ensures Inv(staleAfter, After(staleAfter, events))
  {
    if events != [] {
      EveryRunKeepsInv(staleAfter, events[..|events| - 1]);
      StepKeepsInv(staleAfter, After(staleAfter, events[..|events| - 1]), events[|events| - 1]);
    }
  }

  lemma StepKeepsInv(staleAfter: nat, state: State, event: Event)
    requires Inv(staleAfter, state)
    ensures Inv(staleAfter, Apply(staleAfter, state, event))
  {
    var now := state.now + event.wait;
    if !event.step.Finish? && !IsRunning(state.runs, staleAfter, now) {
      assert forall i :: 0 <= i < |state.runs| && Unfinished(state.runs[i]) ==>
        !IsActive(state.runs[i], staleAfter, now);
    }
  }

  /** At every moment of every run of the site at most one import counts as running. */
  lemma {:induction false} AtMostOneRuns(staleAfter: nat, events: seq<Event>, wait: nat, i: nat, j: nat)
    requires
      var state := After(staleAfter, events);
      && i < |state.runs| && j < |state.runs|
      && IsActive(state.runs[i], staleAfter, state.now + wait) && IsActive(state.runs[j], staleAfter, state.now + wait)
    ensures i == j
  {
    EveryRunKeepsInv(staleAfter, events);
  }

  predicate OneUnfinished(runs: seq<Run>) {
    forall i, j :: 0 <= i < j < |runs| ==> !(Unfinished(runs[i]) && Unfinished(runs[j]))
  }

  /** A start that is not refused leaves one unfinished run exactly when it found none, or was Run now. */
  lemma WhenOneIsUnfinished(runs: seq<Run>, staleAfter: nat, now: nat)
    requires !IsRunning(runs, staleAfter, now)
    ensures OneUnfinished(Started(runs, staleAfter, now, true).value)
    ensures OneUnfinished(Claimed(runs, staleAfter, now).value) <==>
            forall i :: 0 <= i < |runs| ==> !Unfinished(runs[i])
  {
    var claimed := Claimed(runs, staleAfter, now).value;
    if i :| 0 <= i < |runs| && Unfinished(runs[i]) {
      assert Unfinished(claimed[i]) && Unfinished(claimed[|runs|]);
    }
  }

  /** The nightly timer may leave two unfinished runs in the log, the earlier one stale. */
  lemma TwoMayBeUnfinished(staleAfter: nat)
    ensures
      var events := [Event(0, ClaimUnattendedRun), Event(staleAfter + 1, ClaimUnattendedRun)];
      !OneUnfinished(After(staleAfter, events).runs)
  {
    var events := [Event(0, ClaimUnattendedRun), Event(staleAfter + 1, ClaimUnattendedRun)];
    assert events[..1] == [events[0]];
    var first := After(staleAfter, events[..1]);
    var none: seq<Run> := [];
    assert events[..1][..0] == [] && After(staleAfter, events[..1][..0]) == State(none, 0);
    assert !IsRunning(none, staleAfter, 0) && Claimed(none, staleAfter, 0) == Some(none + [Begun(0)]);
    assert first == State([Begun(0)], 0);
    assert !IsRunning(first.runs, staleAfter, staleAfter + 1);
    var second := After(staleAfter, events);
    assert Unfinished(second.runs[0]) && Unfinished(second.runs[1]);
  }

  /**
   Run now is refused exactly while an import runs.  Otherwise it closes every unfinished row as failed, leaves the
   finished ones as they are, and adds a row of its own, closed as failed when its process does not start.
   */
  lemma StartingClosesTheStale(runs: seq<Run>, staleAfter: nat, now: nat, launches: bool)
    ensures Started(runs, staleAfter, now, launches).None? <==>
            exists i :: 0 <= i < |runs| && runs[i].finishedAt.None? && now <= runs[i].startedAt + staleAfter
    ensures Started(runs, staleAfter, now, launches).Some? ==>
      var log := Started(runs, staleAfter, now, launches).value;
      && |log| == |runs| + 1
      && (forall i :: 0 <= i < |runs| && runs[i].finishedAt.Some? ==> log[i] == runs[i])
      && (forall i :: 0 <= i < |runs| && runs[i].finishedAt.None? ==>
            log[i] == Run(runs[i].startedAt, Some(now), false, Some(DidNotFinish)))
      && log[|runs|].startedAt == now && !log[|runs|].ok
      && (launches ==> log[|runs|].finishedAt.None? && log[|runs|].error.None?)
      && (!launches ==> log[|runs|].finishedAt == Some(now) && log[|runs|].error == Some(CouldNotStart))
  {
    if i :| 0 <= i < |runs| && runs[i].finishedAt.None? && now <= runs[i].startedAt + staleAfter {
      assert IsActive(runs[i], staleAfter, now);
    }
  }

  /** The nightly timer is refused exactly while an import runs, and otherwise adds a row and touches no other. */
  lemma ClaimingAddsARow(runs: seq<Run>, staleAfter: nat, now: nat)
    ensures Claimed(runs, staleAfter, now).None? <==>
            exists i :: 0 <= i < |runs| && runs[i].finishedAt.None? && now <= runs[i].startedAt + staleAfter
    ensures Claimed(runs, staleAfter, now).Some? ==>
      var log := Claimed(runs, staleAfter, now).value;
      && |log| == |runs| + 1 && log[..|runs|] == runs
      && log[|runs|].startedAt == now && log[|runs|].finishedAt.None? && !log[|runs|].ok && log[|runs|].error.None?
  {
    if i :| 0 <= i < |runs| && runs[i].finishedAt.None? && now <= runs[i].startedAt + staleAfter {
      assert IsActive(runs[i], staleAfter, now);
    }
  }

  /** The process of run `i` reported that it succeeded. */
  predicate Reported(events: seq<Event>, i: nat) {
    exists k :: 0 <= k < |events| && events[k].step == Finish(i, None)
  }

  /** Over every run of the site, the log calls an import good only when its process reported that it succeeded. */
  lemma {:induction false} GoodWasReported(staleAfter: nat, events: seq<Event>, i: nat)
    requires i < |After(staleAfter, events).runs| && After(staleAfter, events).runs[i].ok
    ensures Reported(events, i)
  {
    if events != [] {
      var before := After(staleAfter, events[..|events| - 1]);
      assert forall k :: 0 <= k < |events| - 1 ==> events[..|events| - 1][k] == events[k];
      if i < |before.runs| && before.runs[i].ok {
        GoodWasReported(staleAfter, events[..|events| - 1], i);
      }
    }
  }

  /** And an import that counts as running is left alone until it reports. */
  lemma RunningIsLeftAlone(staleAfter: nat, state: State, event: Event, i: nat)
    requires i < |state.runs| && IsActive(state.runs[i], staleAfter, state.now + event.wait)
    requires event.step.Finish? ==> event.step.i != i
    ensures i < |Apply(staleAfter, state, event).runs| && Apply(staleAfter, state, event).runs[i] == state.runs[i]
  {
    assert IsRunning(state.runs, staleAfter, state.now + event.wait);
  }
}
